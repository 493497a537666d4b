/**
 * What each control command does to the state, and what is published from it, said of places in lists and of fields
 * alone.
 */
module CommandEffects {
  import opened Options
  import opened Sequences
  import opened ControlState
  import Ascii
  import CanonicalJson

  // ------------------------------------------------------------------ picking from a list

  ghost predicate Increasing(places: seq<nat>) {
    forall j, k :: 0 <= j < k < |places| ==> places[j] < places[k]
  }

  /** ys holds what xs has at these places, which are all those where nothing is dropped. */
  ghost predicate Picks<T(!new)>(xs: seq<T>, ys: seq<T>, drop: T -> bool, places: seq<nat>) {
    && Increasing(places) && |places| == |ys|
    && (forall i :: i in places <==> 0 <= i < |xs| && !drop(xs[i]))
    && (forall k :: 0 <= k < |ys| ==> places[k] < |xs| && ys[k] == xs[places[k]])
  }

  /** ys is xs without what is dropped, everything else kept in order. */
  ghost predicate Without<T(!new)>(xs: seq<T>, ys: seq<T>, drop: T -> bool) {
    exists places: seq<nat> :: Picks(xs, ys, drop, places)
  }

  lemma {:induction false} FilterIsWithout<T(!new)>(xs: seq<T>, keep: T -> bool, drop: T -> bool)
    requires forall x :: keep(x) <==> !drop(x)
    ensures Without(xs, Filter(xs, keep), drop)
    decreases |xs|
  {
    if xs == [] {
      assert Picks(xs, Filter(xs, keep), drop, []);
    } else {
      FilterIsWithout(xs[1..], keep, drop);
      var ys := Filter(xs[1..], keep);
      var places: seq<nat> :| Picks(xs[1..], ys, drop, places);
      PicksOneMore(xs, ys, drop, places);
    }
  }

  lemma PicksOneMore<T(!new)>(xs: seq<T>, ys: seq<T>, drop: T -> bool, places: seq<nat>)
    requires xs != [] && Picks(xs[1..], ys, drop, places)
    ensures Without(xs, if drop(xs[0]) then ys else [xs[0]] + ys, drop)
  {
    var shifted := PicksLater(xs, ys, drop, places);
    if drop(xs[0]) {
      assert Picks(xs, ys, drop, shifted);
    } else {
      PicksFirst(xs, ys, drop, shifted);
    }
  }

  /** The same elements, found one place later. */
  lemma PicksLater<T(!new)>(xs: seq<T>, ys: seq<T>, drop: T -> bool, places: seq<nat>) returns (shifted: seq<nat>)
    requires xs != [] && Picks(xs[1..], ys, drop, places)
    ensures Increasing(shifted) && |shifted| == |ys|
    ensures forall i :: i in shifted <==> 1 <= i < |xs| && !drop(xs[i])
    ensures forall k :: 0 <= k < |ys| ==> shifted[k] < |xs| && ys[k] == xs[shifted[k]]
  {
    shifted := seq(|places|, k requires 0 <= k < |places| => places[k] + 1);
    forall i ensures i in shifted <==> 1 <= i < |xs| && !drop(xs[i]) {
      ShiftedPlaces(places, shifted, i);
      if 1 <= i < |xs| { assert xs[1..][i - 1] == xs[i]; }
    }
    forall k | 0 <= k < |ys| ensures shifted[k] < |xs| && ys[k] == xs[shifted[k]] {
      assert xs[1..][places[k]] == xs[shifted[k]];
    }
  }

  lemma PicksFirst<T(!new)>(xs: seq<T>, ys: seq<T>, drop: T -> bool, shifted: seq<nat>)
    requires xs != [] && !drop(xs[0]) && Increasing(shifted) && |shifted| == |ys|
    requires forall i :: i in shifted <==> 1 <= i < |xs| && !drop(xs[i])
    requires forall k :: 0 <= k < |ys| ==> shifted[k] < |xs| && ys[k] == xs[shifted[k]]
    ensures Without(xs, [xs[0]] + ys, drop)
  {
    var places: seq<nat> := [0] + shifted;
    forall i ensures i in places <==> 0 <= i < |xs| && !drop(xs[i]) {
      assert i in places <==> i == 0 || i in shifted;
    }
    forall j, k | 0 <= j < k < |places| ensures places[j] < places[k] {
      assert places[k] == shifted[k - 1] && shifted[k - 1] in shifted;
      if j > 0 { assert places[j] == shifted[j - 1]; }
    }
    assert Picks(xs, [xs[0]] + ys, drop, places);
  }

  lemma ShiftedPlaces(places: seq<nat>, shifted: seq<nat>, i: int)
    requires |shifted| == |places| && forall k :: 0 <= k < |places| ==> shifted[k] == places[k] + 1
    ensures i in shifted <==> i > 0 && i - 1 in places
  {
    if i > 0 && i - 1 in places {
      var k :| 0 <= k < |places| && places[k] == i - 1;
      assert shifted[k] == i;
    }
  }

  // ------------------------------------------------------------------ letters without case

  predicate SameLetter(a: CanonicalJson.Unit, b: CanonicalJson.Unit) {
    a == b || (65 <= a <= 90 && b == a + 32) || (65 <= b <= 90 && a == b + 32)
  }

  /** Equal up to the case of ASCII letters. */
  predicate SameIgnoringCase(a: Text, b: Text) {
    |a| == |b| && forall i :: 0 <= i < |a| ==> SameLetter(a[i], b[i])
  }

  lemma LowerAgrees(a: Text, b: Text)
    ensures Ascii.Lower(a) == Ascii.Lower(b) <==> SameIgnoringCase(a, b)
  {
    var x, y := Ascii.Lower(a), Ascii.Lower(b);
    if x == y {
      forall i | 0 <= i < |a| ensures SameLetter(a[i], b[i]) { assert x[i] == y[i]; }
    }
    if SameIgnoringCase(a, b) {
      forall i | 0 <= i < |a| ensures x[i] == y[i] { assert SameLetter(a[i], b[i]); }
    }
  }

  // ------------------------------------------------------------------ one command

  function ThisCode(code: Text): Code -> bool { (item: Code) => SameIgnoringCase(item.code, code) }

  function ThisFeature(feature: Feature): Disablement -> bool { (item: Disablement) => item.feature == feature }

  function ThisKey(key: ScheduleKey): Schedule -> bool { (item: Schedule) => item.key == key }

  /** What a command leaves of a state; whatever a case does not mention is as it was. */
  ghost predicate Effect(s: State, c: Command, s': State) {
    match c
    case AddCode(code, expiresAt) =>
      && s' == s.(codes := s'.codes)
      && exists kept: seq<Code> :: Without(s.codes, kept, ThisCode(code)) && s'.codes == kept + [Code(code, expiresAt)]
    case RemoveCode(code) => s' == s.(codes := s'.codes) && Without(s.codes, s'.codes, ThisCode(code))
    case SetAvailability(available, message) =>
      && s' == s.(game := s'.game)
      && s'.game == Game(available, s.game.observedPublic, s.game.observedAt, message)
    case Observe(isPublic, observedAt) =>
      && s' == s.(game := s'.game)
      && s'.game == Game(s.game.operatorAvailable, Some(isPublic), Some(observedAt), s.game.message)
    case DisableFeature(feature, reason, expiresAt) =>
      && s' == s.(disablements := s'.disablements)
      && exists kept: seq<Disablement> :: Without(s.disablements, kept, ThisFeature(feature))
           && s'.disablements == kept + [Disablement(feature, reason, expiresAt)]
    case EnableFeature(feature) =>
      && s' == s.(disablements := s'.disablements)
      && Without(s.disablements, s'.disablements, ThisFeature(feature))
    case SetSchedule(key, nextAt, cadence) =>
      && s' == s.(schedules := s'.schedules)
      && exists kept: seq<Schedule> :: Without(s.schedules, kept, ThisKey(key))
           && s'.schedules == kept + [Schedule(key, nextAt, cadence)]
    case SetRelease(version, assets, pageUrl, installerUrl, publishedAt, verifiedAt) =>
      && s' == s.(release := s'.release, evidence := s'.evidence, releaseFloor := s'.releaseFloor)
      && s'.release == Some(Release(version, pageUrl, installerUrl, publishedAt))
      && s'.evidence == Some(Evidence(version, assets, verifiedAt))
      && s'.releaseFloor == Some(version)
    case ClearRelease =>
      && s' == s.(release := None, releaseFloor := s'.releaseFloor)
      && (s.releaseFloor.Some? ==> s'.releaseFloor == s.releaseFloor)
      && (s.releaseFloor.None? && s.evidence.Some? ==> s'.releaseFloor == Some(s.evidence.value.version))
      && (s.releaseFloor.None? && s.evidence.None? && s.release.Some? ==>
            s'.releaseFloor == Some(s.release.value.version))
      && (s.releaseFloor.None? && s.evidence.None? && s.release.None? ==> s'.releaseFloor == None)
  }

  lemma OtherCodesExactly(codes: seq<Code>, code: Text)
    ensures Without(codes, OtherCodes(codes, code), ThisCode(code))
  {
    forall item: Code ensures Ascii.Lower(item.code) != Ascii.Lower(code) <==> !SameIgnoringCase(item.code, code) {
      LowerAgrees(item.code, code);
    }
    hide SameIgnoringCase, Without;
    FilterIsWithout(codes, (item: Code) => Ascii.Lower(item.code) != Ascii.Lower(code), ThisCode(code));
  }

  lemma OtherDisablementsExactly(items: seq<Disablement>, feature: Feature)
    ensures Without(items, OtherDisablements(items, feature), ThisFeature(feature))
  {
    hide Without;
    FilterIsWithout(items, (item: Disablement) => item.feature != feature, ThisFeature(feature));
  }

  lemma OtherSchedulesExactly(items: seq<Schedule>, key: ScheduleKey)
    ensures Without(items, OtherSchedules(items, key), ThisKey(key))
  {
    hide Without;
    FilterIsWithout(items, (item: Schedule) => item.key != key, ThisKey(key));
  }

  /**
   * A new code, disablement or schedule goes last and takes the place of the one with its name; removing takes that
   * one alone; the rest keeps its order and every other field is as it was. Only setting a release can be refused.
   */
  lemma ApplyExactly(s: State, c: Command)
    ensures Apply(s, c).Err? ==> c.SetRelease?
    ensures Apply(s, c).Ok? ==> Effect(s, c, Apply(s, c).value)
  {
    hide Without, ThisCode, ThisFeature, ThisKey, OtherCodes, OtherDisablements, OtherSchedules;
    match c {
      case AddCode(code, _) => OtherCodesExactly(s.codes, code);
      case RemoveCode(code) => OtherCodesExactly(s.codes, code);
      case DisableFeature(feature, _, _) => OtherDisablementsExactly(s.disablements, feature);
      case EnableFeature(feature) => OtherDisablementsExactly(s.disablements, feature);
      case SetSchedule(key, _, _) => OtherSchedulesExactly(s.schedules, key);
      case _ =>
    }
  }

  // ------------------------------------------------------------------ publishing

  function CodeOver(now: int, at: Reading): Code -> bool {
    (item: Code) => item.expiresAt.Some? && at(item.expiresAt.value) <= now
  }

  function DisablementOver(now: int, at: Reading): Disablement -> bool {
    (item: Disablement) => item.expiresAt.Some? && at(item.expiresAt.value) <= now
  }

  /** The payload of a state: what has not expired, in order, for the next ten minutes. */
  ghost predicate Publishes(s: State, now: int, at: Reading, p: Payload) {
    && p.revision == s.revision
    && (p.available <==> s.game.operatorAvailable && s.game.observedPublic != Some(false))
    && (p.game, p.schedules, p.release) == (s.game, s.schedules, s.release)
    && Without(s.codes, p.codes, CodeOver(now, at))
    && Without(s.disablements, p.disablements, DisablementOver(now, at))
    && p.generatedAt == now && p.expiresAt == now + 600_000
  }

  lemma PayloadExactly(s: State, now: int, at: Reading)
    ensures Publishes(s, now, at, PublishPayload(s, now, at))
  {
    hide Without;
    FilterIsWithout(s.codes, (item: Code) => StillActive(item.expiresAt, now, at), CodeOver(now, at));
    FilterIsWithout(s.disablements, (item: Disablement) => StillActive(item.expiresAt, now, at),
                    DisablementOver(now, at));
  }

  /** Signing makes that payload, and fails exactly when it lists too much. */
  lemma SignExactly(s: State, now: int, at: Reading)
    ensures Publishes(s, now, at, PublishPayload(s, now, at))
    ensures Sign(s, now, at).Ok? ==> Sign(s, now, at).value == PublishPayload(s, now, at)
    ensures var p := PublishPayload(s, now, at);
      Sign(s, now, at).Ok? <==> |p.codes| <= 100 && |p.schedules| <= 20 && |p.disablements| <= 15
  {
    PayloadExactly(s, now, at);
    hide Publishes, PublishPayload;
  }
}
