/**
 * The control state of a run, read off its audit: every list holds, in the order they were audited, what was added
 * and neither replaced nor removed since, and every field what was last set.
 */
module CommandHistory {
  import opened Options
  import opened ControlState
  import opened ControlLog
  import opened CommandEffects

  // ------------------------------------------------------------------ lists

  /** Entry i added something that no later entry drops. */
  ghost predicate Lasts<T>(audit: seq<Entry>, i: int, added: Entry -> Option<T>, drops: (Entry, T) -> bool) {
    && 0 <= i < |audit| && added(audit[i]).Some?
    && forall j :: i < j < |audit| ==> !drops(audit[j], added(audit[i]).value)
  }

  /** The items are what the lasting entries added, in their order; the places are those entries'. */
  ghost predicate AddedAt<T>(audit: seq<Entry>, items: seq<T>, added: Entry -> Option<T>, drops: (Entry, T) -> bool,
                             places: seq<nat>)
  {
    && Increasing(places) && |places| == |items|
    && (forall i :: i in places <==> Lasts(audit, i, added, drops))
    && forall k :: 0 <= k < |items| ==> places[k] < |audit| && added(audit[places[k]]) == Some(items[k])
  }

  ghost predicate Follows<T>(audit: seq<Entry>, items: seq<T>, added: Entry -> Option<T>, drops: (Entry, T) -> bool) {
    exists places: seq<nat> :: AddedAt(audit, items, added, drops, places)
  }

  /** An entry drops what it drops and puts what it adds last. */
  lemma FollowsStep<T(!new)>(audit: seq<Entry>, items: seq<T>, added: Entry -> Option<T>,
                             drops: (Entry, T) -> bool, entry: Entry, drop: T -> bool, kept: seq<T>,
                             items': seq<T>)
    requires Follows(audit, items, added, drops)
    requires Without(items, kept, drop) && forall x :: drop(x) <==> drops(entry, x)
    requires items' == kept + if added(entry).Some? then [added(entry).value] else []
    ensures Follows(audit + [entry], items', added, drops)
  {
    var places: seq<nat> :| AddedAt(audit, items, added, drops, places);
    var picked: seq<nat> :| Picks(items, kept, drop, picked);
    var still := KeptPlaces(audit, items, added, drops, entry, drop, kept, places, picked);
    LastPlace(audit, kept, added, drops, entry, still);
  }

  lemma KeptPlaces<T(!new)>(audit: seq<Entry>, items: seq<T>, added: Entry -> Option<T>, drops: (Entry, T) -> bool,
                            entry: Entry, drop: T -> bool, kept: seq<T>, places: seq<nat>, picked: seq<nat>)
    returns (still: seq<nat>)
    requires AddedAt(audit, items, added, drops, places)
    requires Picks(items, kept, drop, picked) && forall x :: drop(x) <==> drops(entry, x)
    ensures Increasing(still) && |still| == |kept|
    ensures forall i :: i in still <==> i < |audit| && Lasts(audit + [entry], i, added, drops)
    ensures forall k :: 0 <= k < |kept| ==> still[k] < |audit| && added(audit[still[k]]) == Some(kept[k])
  {
    assert forall k :: 0 <= k < |picked| ==> picked[k] in picked;
    still := seq(|picked|, k requires 0 <= k < |picked| => places[picked[k]]);
    forall i ensures i in still <==> i < |audit| && Lasts(audit + [entry], i, added, drops) {
      if i in still {
        var k :| 0 <= k < |still| && still[k] == i;
        assert i == places[picked[k]] && i in places;
        LastsStill(audit, i, added, drops, entry);
      }
      if i < |audit| && Lasts(audit + [entry], i, added, drops) {
        LastsStill(audit, i, added, drops, entry);
        var m :| 0 <= m < |places| && places[m] == i;
        assert m in picked;
        var k :| 0 <= k < |picked| && picked[k] == m;
        assert still[k] == i;
      }
    }
  }

  lemma LastsStill<T>(audit: seq<Entry>, i: int, added: Entry -> Option<T>, drops: (Entry, T) -> bool, entry: Entry)
    requires 0 <= i < |audit|
    ensures Lasts(audit + [entry], i, added, drops)
      <==> Lasts(audit, i, added, drops) && !drops(entry, added(audit[i]).value)
  {
    var longer := audit + [entry];
    assert longer[i] == audit[i] && longer[|audit|] == entry;
    assert forall j :: i < j < |audit| ==> longer[j] == audit[j];
  }

  lemma LastPlace<T(!new)>(audit: seq<Entry>, kept: seq<T>, added: Entry -> Option<T>, drops: (Entry, T) -> bool,
                           entry: Entry, still: seq<nat>)
    requires Increasing(still) && |still| == |kept|
    requires forall i :: i in still <==> i < |audit| && Lasts(audit + [entry], i, added, drops)
    requires forall k :: 0 <= k < |kept| ==> still[k] < |audit| && added(audit[still[k]]) == Some(kept[k])
    ensures Follows(audit + [entry], kept + if added(entry).Some? then [added(entry).value] else [], added, drops)
  {
    var longer := audit + [entry];
    var last: seq<nat> := if added(entry).Some? then [|audit|] else [];
    var places: seq<nat> := still + last;
    assert longer[|audit|] == entry;
    forall i ensures i in places <==> Lasts(longer, i, added, drops) {
      assert i in places <==> i in still || i in last;
    }
    assert AddedAt(longer, kept + if added(entry).Some? then [added(entry).value] else [], added, drops, places);
  }

  // ------------------------------------------------------------------ the three lists

  function AddedCode(entry: Entry): Option<Code> {
    if entry.command.AddCode? then Some(Code(entry.command.code, entry.command.expiresAt)) else None
  }

  predicate DropsCode(entry: Entry, item: Code) {
    (entry.command.AddCode? || entry.command.RemoveCode?) && SameIgnoringCase(item.code, entry.command.code)
  }

  function AddedDisablement(entry: Entry): Option<Disablement> {
    match entry.command
    case DisableFeature(feature, reason, expiresAt) => Some(Disablement(feature, reason, expiresAt))
    case _ => None
  }

  predicate DropsDisablement(entry: Entry, item: Disablement) {
    (entry.command.DisableFeature? || entry.command.EnableFeature?) && item.feature == entry.command.feature
  }

  function AddedSchedule(entry: Entry): Option<Schedule> {
    match entry.command
    case SetSchedule(key, nextAt, cadence) => Some(Schedule(key, nextAt, cadence))
    case _ => None
  }

  predicate DropsSchedule(entry: Entry, item: Schedule) {
    entry.command.SetSchedule? && item.key == entry.command.key
  }

  ghost predicate ListsFollow(audit: seq<Entry>, s: State) {
    && Follows(audit, s.codes, AddedCode, DropsCode)
    && Follows(audit, s.disablements, AddedDisablement, DropsDisablement)
    && Follows(audit, s.schedules, AddedSchedule, DropsSchedule)
  }

  lemma SameIsWithout<T(!new)>(items: seq<T>, drop: T -> bool)
    requires forall x :: x in items ==> !drop(x)
    ensures Without(items, items, drop)
  {
    var places := seq(|items|, k requires 0 <= k < |items| => k as nat);
    forall i ensures i in places <==> 0 <= i < |items| && !drop(items[i]) {
      if 0 <= i < |items| { assert places[i] == i; }
    }
    assert Picks(items, items, drop, places);
  }

  lemma CodesStep(audit: seq<Entry>, entry: Entry, s: State, s': State)
    requires Follows(audit, s.codes, AddedCode, DropsCode) && Effect(s, entry.command, s')
    ensures Follows(audit + [entry], s'.codes, AddedCode, DropsCode)
  {
    hide Follows, Without, SameIgnoringCase;
    var drop := (x: Code) => false;
    var kept: seq<Code>;
    match entry.command {
      case AddCode(code, expiresAt) =>
        kept :| Without(s.codes, kept, ThisCode(code)) && s'.codes == kept + [Code(code, expiresAt)];
        drop := ThisCode(code);
      case RemoveCode(code) =>
        kept := s'.codes;
        drop := ThisCode(code);
      case _ =>
        kept := s.codes;
        SameIsWithout(s.codes, drop);
        assert s'.codes == s.codes;
    }
    FollowsStep(audit, s.codes, AddedCode, DropsCode, entry, drop, kept, s'.codes);
  }

  lemma DisablementsStep(audit: seq<Entry>, entry: Entry, s: State, s': State)
    requires Follows(audit, s.disablements, AddedDisablement, DropsDisablement) && Effect(s, entry.command, s')
    ensures Follows(audit + [entry], s'.disablements, AddedDisablement, DropsDisablement)
  {
    hide Follows, Without;
    var drop := (x: Disablement) => false;
    var kept: seq<Disablement>;
    match entry.command {
      case DisableFeature(feature, reason, expiresAt) =>
        kept :| Without(s.disablements, kept, ThisFeature(feature))
          && s'.disablements == kept + [Disablement(feature, reason, expiresAt)];
        drop := ThisFeature(feature);
      case EnableFeature(feature) =>
        kept := s'.disablements;
        drop := ThisFeature(feature);
      case _ =>
        kept := s.disablements;
        SameIsWithout(s.disablements, drop);
        assert s'.disablements == s.disablements;
    }
    FollowsStep(audit, s.disablements, AddedDisablement, DropsDisablement, entry, drop, kept, s'.disablements);
  }

  lemma SchedulesStep(audit: seq<Entry>, entry: Entry, s: State, s': State)
    requires Follows(audit, s.schedules, AddedSchedule, DropsSchedule) && Effect(s, entry.command, s')
    ensures Follows(audit + [entry], s'.schedules, AddedSchedule, DropsSchedule)
  {
    hide Follows, Without;
    var drop := (x: Schedule) => false;
    var kept: seq<Schedule>;
    match entry.command {
      case SetSchedule(key, nextAt, cadence) =>
        kept :| Without(s.schedules, kept, ThisKey(key)) && s'.schedules == kept + [Schedule(key, nextAt, cadence)];
        drop := ThisKey(key);
      case _ =>
        kept := s.schedules;
        SameIsWithout(s.schedules, drop);
        assert s'.schedules == s.schedules;
    }
    FollowsStep(audit, s.schedules, AddedSchedule, DropsSchedule, entry, drop, kept, s'.schedules);
  }

  // ------------------------------------------------------------------ the single fields

  /** The last entry of its kind. */
  ghost predicate Latest(audit: seq<Entry>, i: int, kind: Command -> bool) {
    && 0 <= i < |audit| && kind(audit[i].command)
    && forall j :: i < j < |audit| ==> !kind(audit[j].command)
  }

  ghost predicate Never(audit: seq<Entry>, kind: Command -> bool) {
    forall j :: 0 <= j < |audit| ==> !kind(audit[j].command)
  }

  function IsAvailability(): Command -> bool { (c: Command) => c.SetAvailability? }

  function IsObservation(): Command -> bool { (c: Command) => c.Observe? }

  function IsRelease(): Command -> bool { (c: Command) => c.SetRelease? }

  function IsReleaseOrClear(): Command -> bool { (c: Command) => c.SetRelease? || c.ClearRelease? }

  /** What administrators last said of the game. */
  ghost predicate AvailabilityFollows(audit: seq<Entry>, game: Game) {
    && (forall i :: Latest(audit, i, IsAvailability()) ==>
          game.operatorAvailable == audit[i].command.available && game.message == audit[i].command.message)
    && (Never(audit, IsAvailability()) ==> game.operatorAvailable && game.message == None)
  }

  /** What the probe last saw of it. */
  ghost predicate ObservationFollows(audit: seq<Entry>, game: Game) {
    && (forall i :: Latest(audit, i, IsObservation()) ==>
          && game.observedPublic == Some(audit[i].command.isPublic)
          && game.observedAt == Some(audit[i].command.observedAt))
    && (Never(audit, IsObservation()) ==> game.observedPublic == None && game.observedAt == None)
  }

  /** The last release, unless it was cleared since. */
  ghost predicate ReleaseFollows(audit: seq<Entry>, release: Option<Release>) {
    && (forall i :: Latest(audit, i, IsReleaseOrClear()) ==>
          release == match audit[i].command
            case SetRelease(version, _, pageUrl, installerUrl, publishedAt, _) =>
              Some(Release(version, pageUrl, installerUrl, publishedAt))
            case _ => None)
    && (Never(audit, IsReleaseOrClear()) ==> release == None)
  }

  /** What is remembered of the last release, cleared or not. */
  ghost predicate EvidenceFollows(audit: seq<Entry>, s: State) {
    && (forall i :: Latest(audit, i, IsRelease()) ==>
          s.releaseFloor == Some(audit[i].command.version)
          && s.evidence == Some(Evidence(audit[i].command.version, audit[i].command.assets,
                                         audit[i].command.verifiedAt)))
    && (Never(audit, IsRelease()) ==> s.release == None && s.releaseFloor == None && s.evidence == None)
  }

  ghost predicate FieldsFollow(audit: seq<Entry>, s: State) {
    && AvailabilityFollows(audit, s.game) && ObservationFollows(audit, s.game)
    && ReleaseFollows(audit, s.release) && EvidenceFollows(audit, s)
  }

  lemma LatestStep(audit: seq<Entry>, entry: Entry, kind: Command -> bool)
    ensures Latest(audit + [entry], |audit|, kind) <==> kind(entry.command)
    ensures forall i :: i != |audit| ==>
      (Latest(audit + [entry], i, kind) <==> Latest(audit, i, kind) && !kind(entry.command))
    ensures Never(audit + [entry], kind) <==> Never(audit, kind) && !kind(entry.command)
    ensures Never(audit, kind) || exists i :: Latest(audit, i, kind)
    ensures (audit + [entry])[|audit|] == entry
    ensures forall i :: Latest(audit, i, kind) ==> 0 <= i < |audit| && (audit + [entry])[i] == audit[i]
  {
    var longer := audit + [entry];
    assert longer[|audit|] == entry && forall j :: 0 <= j < |audit| ==> longer[j] == audit[j];
    SomeLatest(audit, kind);
  }

  lemma {:induction false} SomeLatest(audit: seq<Entry>, kind: Command -> bool)
    ensures Never(audit, kind) || exists i :: Latest(audit, i, kind)
    decreases |audit|
  {
    if audit != [] {
      var n := |audit| - 1;
      SomeLatest(audit[..n], kind);
      if kind(audit[n].command) {
        assert Latest(audit, n, kind);
      } else if i :| Latest(audit[..n], i, kind) {
        assert Latest(audit, i, kind);
      }
    }
  }

  lemma GameStep(audit: seq<Entry>, entry: Entry, s: State, s': State)
    requires AvailabilityFollows(audit, s.game) && ObservationFollows(audit, s.game) && Effect(s, entry.command, s')
    ensures AvailabilityFollows(audit + [entry], s'.game) && ObservationFollows(audit + [entry], s'.game)
  {
    hide Latest, Never, Without;
    LatestStep(audit, entry, IsAvailability());
    LatestStep(audit, entry, IsObservation());
  }

  lemma ReleaseStep(audit: seq<Entry>, entry: Entry, s: State, s': State)
    requires ReleaseFollows(audit, s.release) && Effect(s, entry.command, s')
    ensures ReleaseFollows(audit + [entry], s'.release)
  {
    hide Latest, Never, Without;
    LatestStep(audit, entry, IsReleaseOrClear());
  }

  lemma EvidenceStep(audit: seq<Entry>, entry: Entry, s: State, s': State)
    requires EvidenceFollows(audit, s) && Effect(s, entry.command, s')
    ensures EvidenceFollows(audit + [entry], s')
  {
    hide Latest, Never, Without;
    LatestStep(audit, entry, IsRelease());
  }

  // ------------------------------------------------------------------ every run

  ghost predicate FollowsAudit(audit: seq<Entry>, s: State) {
    ListsFollow(audit, s) && FieldsFollow(audit, s) && s.revision == |audit|
  }

  lemma EntryFollows(audit: seq<Entry>, entry: Entry, s: State)
    requires FollowsAudit(audit, s) && Apply(s, entry.command).Ok?
    ensures FollowsAudit(audit + [entry], Apply(s, entry.command).value.(revision := s.revision + 1))
  {
    ApplyExactly(s, entry.command);
    ApplyKeepsRevision(s, entry.command);
    hide Apply, Effect, AvailabilityFollows, ObservationFollows, ReleaseFollows, EvidenceFollows, Follows;
    var s' := Apply(s, entry.command).value;
    CodesStep(audit, entry, s, s');
    DisablementsStep(audit, entry, s, s');
    SchedulesStep(audit, entry, s, s');
    GameStep(audit, entry, s, s');
    ReleaseStep(audit, entry, s, s');
    EvidenceStep(audit, entry, s, s');
    RevisionAside(audit + [entry], s', s.revision + 1);
  }

  lemma RevisionAside(audit: seq<Entry>, s: State, revision: nat)
    requires EvidenceFollows(audit, s)
    ensures EvidenceFollows(audit, s.(revision := revision))
  {
  }

  lemma NothingFollows()
    ensures FollowsAudit([], DEFAULT)
  {
    assert AddedAt([], DEFAULT.codes, AddedCode, DropsCode, []);
    assert AddedAt([], DEFAULT.disablements, AddedDisablement, DropsDisablement, []);
    assert AddedAt([], DEFAULT.schedules, AddedSchedule, DropsSchedule, []);
  }

  lemma {:induction false} FoldFollows(audit: seq<Entry>)
    requires Fold(audit).Ok?
    ensures FollowsAudit(audit, Fold(audit).value)
    decreases |audit|
  {
    hide FollowsAudit, Apply;
    if audit == [] {
      NothingFollows();
    } else {
      var n := |audit| - 1;
      FoldFollows(audit[..n]);
      EntryFollows(audit[..n], audit[n], Fold(audit[..n]).value);
      assert audit == audit[..n] + [audit[n]];
    }
  }

  /**
   * On every run each list of the state holds, in the order of the audit, exactly what an audited command added and
   * no later one replaced or removed, codes compared without case; each field is what was last set.
   */
  lemma StateFollowsAudit(steps: seq<Step>, at: Reading)
    ensures var log := Run(steps, at); ListsFollow(log.audit, log.state) && FieldsFollow(log.audit, log.state)
  {
    StateIsFoldOfAudit(steps, at);
    hide Run, Fold, ListsFollow, FieldsFollow;
    FoldFollows(Run(steps, at).audit);
  }

  lemma ListedExactly(audit: seq<Entry>, codes: seq<Code>, item: Code)
    requires Follows(audit, codes, AddedCode, DropsCode)
    ensures item in codes <==>
      exists i :: 0 <= i < |audit| && audit[i].command == AddCode(item.code, item.expiresAt)
        && forall j :: i < j < |audit| ==> !DropsCode(audit[j], item)
  {
    hide DropsCode;
    var places: seq<nat> :| AddedAt(audit, codes, AddedCode, DropsCode, places);
    if item in codes {
      var k :| 0 <= k < |codes| && codes[k] == item;
      var i := places[k];
      assert i in places && Lasts(audit, i, AddedCode, DropsCode);
      assert audit[i].command == AddCode(item.code, item.expiresAt);
    }
    if i :| 0 <= i < |audit| && audit[i].command == AddCode(item.code, item.expiresAt)
            && forall j :: i < j < |audit| ==> !DropsCode(audit[j], item) {
      assert Lasts(audit, i, AddedCode, DropsCode);
      var k :| 0 <= k < |places| && places[k] == i;
      assert codes[k] == item;
    }
  }

  /** So of codes: each is listed exactly if some audited addition of it is followed by none that adds or removes it. */
  lemma CodeListedExactly(steps: seq<Step>, at: Reading, item: Code)
    ensures var log := Run(steps, at);
      item in log.state.codes <==>
        exists i :: 0 <= i < |log.audit| && log.audit[i].command == AddCode(item.code, item.expiresAt)
          && forall j :: i < j < |log.audit| ==> !DropsCode(log.audit[j], item)
  {
    StateFollowsAudit(steps, at);
    hide Run, FieldsFollow, DropsCode, Follows;
    ListedExactly(Run(steps, at).audit, Run(steps, at).state.codes, item);
  }
}
