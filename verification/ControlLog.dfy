/** The command log: one step per repository call, over any order of calls by any callers. */
module ControlLog {
  import opened Options
  import opened Sequences
  import opened ControlState
  import opened CommandText
  import opened CanonicalJson
  import JsonCanonicalForm

  datatype Entry = Entry(commandId: Text, actor: Actor, command: Command, resultingRevision: nat, createdAt: int)

  datatype Replay = Replay(fingerprint: Text, snapshot: Payload)

  datatype Log = Log(state: State, published: map<nat, Payload>, audit: seq<Entry>, replays: map<Text, Replay>)

  const START := Log(DEFAULT, map[], [], map[])

  const REPLAY_MISMATCH := "Control command replay did not match the original request."
  const REVISION_CONFLICT := "Control revision conflict."

  // ------------------------------------------------------------------ one call

  function Commit(log: Log, actor: Actor, envelope: Envelope, next: State, snapshot: Payload, now: int): Log {
    Log(next,
        log.published[next.revision := snapshot],
        log.audit + [Entry(envelope.commandId, actor, envelope.command, next.revision, now)],
        log.replays[envelope.commandId := Replay(Fingerprint(actor, envelope), snapshot)])
  }

  /** The state a command leads to, and the snapshot signed from it; neither is stored yet. */
  function Prepare(s: State, c: Command, now: int, at: Reading): Result<(State, Payload), string> {
    match Apply(s, c)
    case Err(e) => Err(e)
    case Ok(applied) =>
      var next := applied.(revision := s.revision + 1);
      match Sign(next, now, at)
      case Err(e) => Err(e)
      case Ok(snapshot) => Ok((next, snapshot))
  }

  function Execute(log: Log, actor: Actor, envelope: Envelope, now: int, at: Reading): (Log, Result<Payload, string>) {
    if envelope.commandId in log.replays then
      var original := log.replays[envelope.commandId];
      if original.fingerprint != Fingerprint(actor, envelope) then (log, Err(REPLAY_MISMATCH))
      else (log, Ok(original.snapshot))
    else if envelope.expectedRevision != log.state.revision then (log, Err(REVISION_CONFLICT))
    else
      match Prepare(log.state, envelope.command, now, at)
      case Err(e) => (log, Err(e))
      case Ok((next, snapshot)) => (Commit(log, actor, envelope, next, snapshot, now), Ok(snapshot))
  }

  function Republish(log: Log, now: int, at: Reading): (Log, Result<Payload, string>) {
    match Sign(log.state, now, at)
    case Err(e) => (log, Err(e))
    case Ok(snapshot) => (log.(published := log.published[snapshot.revision := snapshot]), Ok(snapshot))
  }

  // ------------------------------------------------------------------ runs

  datatype Step = Submit(actor: Actor, envelope: Envelope, now: int) | Refresh(now: int)

  function Next(log: Log, step: Step, at: Reading): Log {
    match step
    case Submit(actor, envelope, now) => Execute(log, actor, envelope, now, at).0
    case Refresh(now) => Republish(log, now, at).0
  }

  function RunFrom(log: Log, steps: seq<Step>, at: Reading): Log
    decreases |steps|
  {
    if steps == [] then log else RunFrom(Next(log, steps[0], at), steps[1..], at)
  }

  function Run(steps: seq<Step>, at: Reading): Log { RunFrom(START, steps, at) }

  lemma {:induction false} RunFromAppend(log: Log, first: seq<Step>, second: seq<Step>, at: Reading)
    ensures RunFrom(log, first + second, at) == RunFrom(RunFrom(log, first, at), second, at)
    decreases |first|
  {
    if first == [] {
      assert first + second == second;
    } else {
      assert (first + second)[1..] == first[1..] + second;
      RunFromAppend(Next(log, first[0], at), first[1..], second, at);
    }
  }

  // ------------------------------------------------------------------ what every log keeps

  /** Applying the audited commands in order to the default state; an error if one of them is refused. */
  function Fold(audit: seq<Entry>): Result<State, string> {
    if audit == [] then Ok(DEFAULT)
    else
      match Fold(audit[..|audit| - 1])
      case Err(e) => Err(e)
      case Ok(before) =>
        match Apply(before, audit[|audit| - 1].command)
        case Err(e) => Err(e)
        case Ok(after) => Ok(after.(revision := before.revision + 1))
  }

  function EnvelopeOf(audit: seq<Entry>, i: nat): Envelope
    requires i < |audit|
  {
    Envelope(audit[i].commandId, i, audit[i].command)
  }

  /** Entry i can be replayed: its fingerprint and the snapshot signed when it was applied are on record. */
  ghost predicate Replayable(log: Log, i: nat, at: Reading)
    requires i < |log.audit|
  {
    var entry := log.audit[i];
    var after := Fold(log.audit[..i + 1]);
    && after.Ok?
    && Sign(after.value, entry.createdAt, at).Ok?
    && entry.commandId in log.replays
    && log.replays[entry.commandId]
      == Replay(Fingerprint(entry.actor, EnvelopeOf(log.audit, i)),
                Sign(after.value, entry.createdAt, at).value)
  }

  ghost predicate Numbered(audit: seq<Entry>) {
    forall i :: 0 <= i < |audit| ==> audit[i].resultingRevision == i + 1
  }

  function IdOf(entry: Entry): Text { entry.commandId }

  ghost predicate AllReplayable(log: Log, at: Reading) {
    && (forall i :: 0 <= i < |log.audit| ==> Replayable(log, i, at))
    && DistinctBy(log.audit, IdOf)
    && forall id :: id in log.replays ==> exists i :: 0 <= i < |log.audit| && IdOf(log.audit[i]) == id
  }

  ghost predicate PublishedUpTo(published: map<nat, Payload>, revision: nat) {
    && (forall k :: k in published ==> k <= revision && published[k].revision == k)
    && (revision > 0 ==> revision in published)
  }

  ghost predicate Consistent(log: Log, at: Reading) {
    && Fold(log.audit) == Ok(log.state)
    && log.state.revision == |log.audit|
    && Numbered(log.audit)
    && AllReplayable(log, at)
    && PublishedUpTo(log.published, log.state.revision)
  }

  lemma FoldOne(audit: seq<Entry>, entry: Entry)
    ensures Fold(audit + [entry]) ==
      match Fold(audit)
      case Err(e) => Err(e)
      case Ok(before) =>
        match Apply(before, entry.command)
        case Err(e) => Err(e)
        case Ok(after) => Ok(after.(revision := before.revision + 1))
  {
    assert (audit + [entry])[..|audit + [entry]| - 1] == audit;
  }

  lemma EarlierStillReplayable(log: Log, log': Log, i: nat, at: Reading)
    requires i < |log.audit| <= |log'.audit| && log'.audit[..|log.audit|] == log.audit
    requires Replayable(log, i, at)
    requires forall id :: id in log.replays ==> id in log'.replays && log'.replays[id] == log.replays[id]
    ensures Replayable(log', i, at)
  {
    hide Fold, Sign, Fingerprint;
    assert log'.audit[..i + 1] == log.audit[..i + 1];
    assert log'.audit[i] == log.audit[i];
  }

  lemma CommitReplayable(log: Log, actor: Actor, envelope: Envelope, next: State, snapshot: Payload, now: int,
                         at: Reading)
    requires AllReplayable(log, at) && envelope.commandId !in log.replays && envelope.expectedRevision == |log.audit|
    requires Fold(log.audit + [Entry(envelope.commandId, actor, envelope.command, next.revision, now)]) == Ok(next)
    requires Sign(next, now, at) == Ok(snapshot)
    ensures AllReplayable(Commit(log, actor, envelope, next, snapshot, now), at)
  {
    hide Fold, Sign, Fingerprint;
    var log' := Commit(log, actor, envelope, next, snapshot, now);
    var n := |log.audit|;
    assert log'.audit[..n] == log.audit && log'.audit[..n + 1] == log'.audit;
    forall i | 0 <= i < |log'.audit| ensures Replayable(log', i, at) {
      if i < n {
        EarlierStillReplayable(log, log', i, at);
      } else {
        assert EnvelopeOf(log'.audit, n) == envelope;
      }
    }
    forall i | 0 <= i < n ensures IdOf(log'.audit[i]) != envelope.commandId {
      assert Replayable(log, i, at);
    }
    forall id | id in log'.replays ensures exists i :: 0 <= i < |log'.audit| && IdOf(log'.audit[i]) == id {
      if id == envelope.commandId {
        assert IdOf(log'.audit[n]) == id;
      } else {
        var i :| 0 <= i < n && IdOf(log.audit[i]) == id;
        assert IdOf(log'.audit[i]) == id;
      }
    }
  }

  lemma ApplyKeepsRevision(s: State, c: Command)
    ensures Apply(s, c).Ok? ==> Apply(s, c).value.revision == s.revision
  {
  }

  lemma PublishedOneMore(published: map<nat, Payload>, revision: nat, snapshot: Payload)
    requires PublishedUpTo(published, revision) && snapshot.revision == revision + 1
    ensures PublishedUpTo(published[revision + 1 := snapshot], revision + 1)
  {
  }

  lemma PreparedState(s: State, c: Command, now: int, at: Reading)
    requires Prepare(s, c, now, at).Ok?
    ensures var (next, snapshot) := Prepare(s, c, now, at).value;
      && next.revision == s.revision + 1 && snapshot.revision == next.revision
      && Sign(next, now, at) == Ok(snapshot)
      && Apply(s, c).Ok? && next == Apply(s, c).value.(revision := s.revision + 1)
  {
    hide Apply, PublishPayload;
    SnapshotRevision(Prepare(s, c, now, at).value.0, now, at);
  }

  lemma CommitKeepsConsistent(log: Log, actor: Actor, envelope: Envelope, now: int, at: Reading)
    requires Consistent(log, at) && envelope.commandId !in log.replays && envelope.expectedRevision == log.state.revision
    requires Prepare(log.state, envelope.command, now, at).Ok?
    ensures var (next, snapshot) := Prepare(log.state, envelope.command, now, at).value;
      Consistent(Commit(log, actor, envelope, next, snapshot, now), at)
  {
    hide Apply, Prepare, Fingerprint, AllReplayable, PublishedUpTo, Fold, Sign;
    var (next, snapshot) := Prepare(log.state, envelope.command, now, at).value;
    var entry := Entry(envelope.commandId, actor, envelope.command, next.revision, now);
    PreparedState(log.state, envelope.command, now, at);
    FoldOne(log.audit, entry);
    CommitReplayable(log, actor, envelope, next, snapshot, now, at);
    PublishedOneMore(log.published, log.state.revision, snapshot);
  }

  lemma ExecuteKeepsConsistent(log: Log, actor: Actor, envelope: Envelope, now: int, at: Reading)
    requires Consistent(log, at)
    ensures Consistent(Execute(log, actor, envelope, now, at).0, at)
  {
    hide Prepare, Fingerprint, Consistent, Commit;
    if envelope.commandId !in log.replays && envelope.expectedRevision == log.state.revision
       && Prepare(log.state, envelope.command, now, at).Ok? {
      CommitKeepsConsistent(log, actor, envelope, now, at);
    }
  }

  lemma SnapshotRevision(s: State, now: int, at: Reading)
    ensures Sign(s, now, at).Ok? ==> Sign(s, now, at).value == PublishPayload(s, now, at)
    ensures Sign(s, now, at).Ok? ==> Sign(s, now, at).value.revision == s.revision
  {
  }

  lemma RepublishKeepsConsistent(log: Log, now: int, at: Reading)
    requires Consistent(log, at)
    ensures Consistent(Republish(log, now, at).0, at)
  {
    hide Fold, Sign, Fingerprint;
    var (log', result) := Republish(log, now, at);
    SnapshotRevision(log.state, now, at);
    forall i | 0 <= i < |log'.audit| ensures Replayable(log', i, at) {
      EarlierStillReplayable(log, log', i, at);
    }
  }

  lemma {:induction false} RunKeepsConsistent(log: Log, steps: seq<Step>, at: Reading)
    requires Consistent(log, at)
    ensures Consistent(RunFrom(log, steps, at), at)
    decreases |steps|
  {
    hide Consistent, Execute, Republish;
    if steps != [] {
      match steps[0] {
        case Submit(actor, envelope, now) => ExecuteKeepsConsistent(log, actor, envelope, now, at);
        case Refresh(now) => RepublishKeepsConsistent(log, now, at);
      }
      RunKeepsConsistent(Next(log, steps[0], at), steps[1..], at);
    }
  }

  lemma StartConsistent(at: Reading)
    ensures Consistent(START, at)
  {
  }

  lemma RunConsistent(steps: seq<Step>, at: Reading)
    ensures Consistent(Run(steps, at), at)
  {
    hide Consistent;
    StartConsistent(at);
    RunKeepsConsistent(START, steps, at);
  }

  /**
   * On every run the stored state is the fold of the audited commands, the revision is their number, each command
   * id is applied at most once, and the ids that can be replayed are exactly those applied.
   */
  lemma StateIsFoldOfAudit(steps: seq<Step>, at: Reading)
    ensures var log := Run(steps, at);
      && Fold(log.audit) == Ok(log.state)
      && log.state.revision == |log.audit|
      && Numbered(log.audit)
      && DistinctBy(log.audit, IdOf)
      && forall id :: id in log.replays <==> exists i :: 0 <= i < |log.audit| && IdOf(log.audit[i]) == id
  {
    hide Run, Fold, Fingerprint, Sign;
    RunConsistent(steps, at);
    var log := Run(steps, at);
    forall i | 0 <= i < |log.audit| ensures IdOf(log.audit[i]) in log.replays {
      assert Replayable(log, i, at);
    }
  }

  // ------------------------------------------------------------------ replays

  /** What a later log keeps of an earlier one. */
  ghost predicate Extends(log: Log, log': Log) {
    && |log.audit| <= |log'.audit| && log'.audit[..|log.audit|] == log.audit
    && (forall id :: id in log.replays ==> id in log'.replays && log'.replays[id] == log.replays[id])
    && log.state.revision <= log'.state.revision
    && log.published.Keys <= log'.published.Keys
  }

  lemma NextExtends(log: Log, step: Step, at: Reading)
    ensures Extends(log, Next(log, step, at))
  {
    hide Fingerprint, Sign, Apply;
    if step.Submit? && Apply(log.state, step.envelope.command).Ok? {
      ApplyKeepsRevision(log.state, step.envelope.command);
    }
  }

  lemma {:induction false} RunExtends(log: Log, steps: seq<Step>, at: Reading)
    ensures Extends(log, RunFrom(log, steps, at))
    decreases |steps|
  {
    hide Next;
    if steps != [] {
      var middle := Next(log, steps[0], at);
      NextExtends(log, steps[0], at);
      RunExtends(middle, steps[1..], at);
      var last := RunFrom(middle, steps[1..], at);
      assert last.audit[..|log.audit|] == last.audit[..|middle.audit|][..|log.audit|];
    }
  }

  /** Replaying an accepted envelope returns the original snapshot and changes nothing, whatever came in between. */
  lemma ReplayReturnsOriginal(log: Log, actor: Actor, envelope: Envelope, now: int, steps: seq<Step>, later: int,
                              at: Reading)
    requires Execute(log, actor, envelope, now, at).1.Ok?
    ensures var (accepted, result) := Execute(log, actor, envelope, now, at);
      var log' := RunFrom(accepted, steps, at);
      Execute(log', actor, envelope, later, at) == (log', result)
  {
    hide Fingerprint, Prepare, RunFrom;
    var (accepted, result) := Execute(log, actor, envelope, now, at);
    RunExtends(accepted, steps, at);
    assert envelope.commandId in accepted.replays;
  }

  /** The test of the Postgres repository, on a row whose command was stored and read back as data. */
  predicate PostgresAccepts(entry: Entry, stored: Value, actor: Actor, envelope: Envelope) {
    && entry.actor.kind == actor.kind
    && entry.actor.userId == actor.userId
    && entry.resultingRevision - 1 == envelope.expectedRevision
    && CanonicalText(stored) == CanonicalText(CommandData(envelope.command))
  }

  /** What signing gave when entry i was applied. */
  ghost function OriginalResult(log: Log, i: nat, at: Reading): Result<Payload, string>
    requires i < |log.audit| && Fold(log.audit[..i + 1]).Ok?
  {
    Sign(Fold(log.audit[..i + 1]).value, log.audit[i].createdAt, at)
  }

  lemma RecordOf(log: Log, i: nat, at: Reading)
    requires Consistent(log, at) && i < |log.audit|
    ensures var entry := log.audit[i];
      && entry.resultingRevision == i + 1
      && Fold(log.audit[..i + 1]).Ok? && OriginalResult(log, i, at).Ok?
      && entry.commandId in log.replays
      && log.replays[entry.commandId]
        == Replay(Fingerprint(entry.actor, EnvelopeOf(log.audit, i)), OriginalResult(log, i, at).value)
  {
    hide Fold, Sign, Fingerprint;
    assert Replayable(log, i, at);
  }

  /**
   * An envelope with the id of an applied command is accepted exactly when it has that command's actor, expected
   * revision and content; the Postgres test agrees whatever order the stored keys come back in.
   */
  lemma ReplayAcceptedExactly(log: Log, i: nat, stored: Value, actor: Actor, envelope: Envelope, now: int, at: Reading)
    requires Consistent(log, at) && i < |log.audit| && envelope.commandId == log.audit[i].commandId
    requires JsonCanonicalForm.IsData(stored) && Supported(stored)
    requires JsonCanonicalForm.SameData(stored, CommandData(log.audit[i].command))
    ensures var entry := log.audit[i];
      var same := actor == entry.actor && envelope.expectedRevision == i && envelope.command == entry.command;
      && Fold(log.audit[..i + 1]).Ok?
      && Execute(log, actor, envelope, now, at).0 == log
      && (Execute(log, actor, envelope, now, at).1.Ok? <==> same)
      && (same ==> Execute(log, actor, envelope, now, at).1 == OriginalResult(log, i, at))
      && (PostgresAccepts(entry, stored, actor, envelope) <==> same)
  {
    hide Consistent, OriginalResult, Fingerprint, Prepare, Fold, CommandData;
    var entry := log.audit[i];
    RecordOf(log, i, at);
    FingerprintsAgree(entry.actor, EnvelopeOf(log.audit, i), actor, envelope);
    PostgresTestReadsCommand(entry, stored, envelope.command);
  }

  lemma PostgresTestReadsCommand(entry: Entry, stored: Value, command: Command)
    requires JsonCanonicalForm.IsData(stored) && Supported(stored)
    requires JsonCanonicalForm.SameData(stored, CommandData(entry.command))
    ensures CanonicalText(stored) == CanonicalText(CommandData(command)) <==> command == entry.command
  {
    hide CommandData;
    CommandIsData(entry.command);
    CommandIsData(command);
    JsonCanonicalForm.EqualTextsMeanEqualData(stored, CommandData(entry.command));
    JsonCanonicalForm.EqualTextsMeanEqualData(CommandData(entry.command), CommandData(command));
    DataDeterminesCommand(entry.command, command);
  }

  // ------------------------------------------------------------------ published snapshots

  /** The newest published snapshot. */
  function ReadPublished(log: Log): Option<Payload>
  {
    if log.published == map[] then None
    else if log.state.revision in log.published then Some(log.published[log.state.revision])
    else None
  }

  /** The newest published snapshot always has the state's own revision, and no published key is larger. */
  lemma NewestIsCurrent(log: Log, at: Reading)
    requires Consistent(log, at)
    ensures log.published == map[] <==> ReadPublished(log).None?
    ensures ReadPublished(log).Some? ==> ReadPublished(log).value.revision == log.state.revision
    ensures forall k :: k in log.published ==> k <= log.state.revision
    ensures log.state.revision + 1 !in log.published
    ensures |log.audit| > 0 ==> ReadPublished(log).Some?
  {
    hide Fold, AllReplayable;
    if log.published != map[] {
      var k :| k in log.published;
      assert log.state.revision == 0 ==> k == 0;
    }
  }

  const ROLLED_BACK := "Control snapshot revision rolled back."
  const MAXIMUM_LIFETIME := 15 * 60 * 1000
  const CLOCK_SKEW := 60_000

  function ValidateFreshness(p: Payload, now: int, minimumRevision: int): Result<(), string> {
    if minimumRevision < 0 then Err("Minimum control revision was invalid.")
    else if p.revision < minimumRevision then Err(ROLLED_BACK)
    else if p.generatedAt > now + CLOCK_SKEW then Err("Control snapshot was generated in the future.")
    else if p.expiresAt <= p.generatedAt then Err("Control snapshot expiry did not follow generation.")
    else if p.expiresAt - p.generatedAt > MAXIMUM_LIFETIME then
      Err("Control snapshot lifetime exceeded the allowed bound.")
    else if p.expiresAt <= now then Err("Control snapshot expired.")
    else Ok(())
  }

  /**
   * A snapshot is fresh exactly when its revision is not below a floor that is not negative, it was generated at most a
   * minute after now, expires at most fifteen minutes after that, and has not expired; a floor above it is a rollback.
   */
  lemma ValidExactly(p: Payload, now: int, floor: int)
    ensures ValidateFreshness(p, now, floor).Ok? <==>
      && 0 <= floor <= p.revision
      && p.generatedAt <= now + 60_000
      && p.generatedAt < p.expiresAt <= p.generatedAt + 900_000
      && now < p.expiresAt
    ensures ValidateFreshness(p, now, floor) == Err("Control snapshot revision rolled back.") <==>
      floor >= 0 && p.revision < floor
  {
    assert |ROLLED_BACK| != |"Minimum control revision was invalid."|;
    assert |ROLLED_BACK| != |"Control snapshot was generated in the future."|;
    assert |ROLLED_BACK| != |"Control snapshot expiry did not follow generation."|;
    assert |ROLLED_BACK| != |"Control snapshot lifetime exceeded the allowed bound."|;
    assert |ROLLED_BACK| != |"Control snapshot expired."|;
  }

  /** A snapshot signed at one time is fresh at another exactly inside its window and above the floor. */
  lemma FreshExactly(s: State, signedAt: int, now: int, floor: int, at: Reading)
    ensures ValidateFreshness(PublishPayload(s, signedAt, at), now, floor).Ok? <==>
      && 0 <= floor <= s.revision
      && signedAt <= now + 60_000
      && now < signedAt + 10 * 60 * 1000
  {
  }

  /** A client that raises its floor to each revision it has read is never told of a rollback. */
  lemma NeverToldOfRollback(earlier: seq<Step>, later: seq<Step>, now: int, at: Reading)
    requires ReadPublished(Run(earlier, at)).Some?
    ensures var first, second := ReadPublished(Run(earlier, at)), ReadPublished(Run(earlier + later, at));
      && second.Some? && first.value.revision <= second.value.revision
      && ValidateFreshness(second.value, now, first.value.revision) != Err(ROLLED_BACK)
  {
    hide Consistent, ReadPublished;
    var log := Run(earlier, at);
    RunFromAppend(START, earlier, later, at);
    var log' := RunFrom(log, later, at);
    RunExtends(log, later, at);
    RunConsistent(earlier, at);
    RunKeepsConsistent(log, later, at);
    NewestIsCurrent(log, at);
    NewestIsCurrent(log', at);
    assert log.published != map[];
    var k :| k in log.published;
    assert k in log'.published.Keys;
  }

  // ------------------------------------------------------------------ bounded snapshots

  /** The clock does not go back. */
  predicate Chronological(steps: seq<Step>, from: int) {
    steps == [] || (from <= steps[0].now && Chronological(steps[1..], steps[0].now))
  }

  function LastTime(steps: seq<Step>, from: int): int {
    if steps == [] then from else LastTime(steps[1..], steps[0].now)
  }

  ghost predicate Signable(log: Log, now: int, at: Reading) {
    Tidy(log.state) && Sign(log.state, now, at).Ok?
  }

  lemma NextSignable(log: Log, step: Step, from: int, at: Reading)
    requires Signable(log, from, at) && from <= step.now
    ensures Signable(Next(log, step, at), step.now, at)
  {
    hide Fingerprint, Sign, Apply;
    SignedOnceSignedAlways(log.state, from, step.now, at);
    if step.Submit? {
      ApplyKeepsTidy(log.state, step.envelope.command);
    }
  }

  lemma {:induction false} RunSignable(log: Log, steps: seq<Step>, from: int, at: Reading)
    requires Signable(log, from, at) && Chronological(steps, from)
    ensures Signable(RunFrom(log, steps, at), LastTime(steps, from), at)
    decreases |steps|
  {
    hide Signable, Next;
    if steps != [] {
      NextSignable(log, steps[0], from, at);
      RunSignable(Next(log, steps[0], at), steps[1..], steps[0].now, at);
    }
  }

  /** In every reachable state codes, schedules and disablements are bounded, and republishing always succeeds. */
  lemma RepublishNeverFails(steps: seq<Step>, from: int, now: int, at: Reading)
    requires Chronological(steps, from) && LastTime(steps, from) <= now
    ensures var log := Run(steps, at);
      && DistinctBy(log.state.codes, CodeKey) && |log.state.schedules| <= 3 && |log.state.disablements| <= 15
      && Republish(log, now, at).1.Ok?
      && WithinSchema(Republish(log, now, at).1.value)
  {
    assert Signable(START, from, at);
    RunSignable(START, steps, from, at);
    var log := Run(steps, at);
    SignedOnceSignedAlways(log.state, LastTime(steps, from), now, at);
    TidyIsBounded(log.state);
  }
}
