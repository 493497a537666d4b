/**
 * Releases over whole runs: while every accepted version is one the rollback guard protects, versions never decrease
 * and a version keeps its assets; and what happens as soon as one is not.
 */
module ReleaseHistory {
  import opened Options
  import opened Powers
  import opened Numbers
  import opened Versions
  import opened ControlState
  import opened ControlLog

  predicate IsRelease(audit: seq<Entry>, i: int) {
    0 <= i < |audit| && audit[i].command.SetRelease?
  }

  /** The place of the last accepted release, or -1. */
  function LastRelease(audit: seq<Entry>): (k: int)
    ensures -1 <= k < |audit|
    ensures k >= 0 ==> IsRelease(audit, k)
    ensures forall i :: k < i < |audit| ==> !audit[i].command.SetRelease?
  {
    if audit == [] then -1
    else if audit[|audit| - 1].command.SetRelease? then |audit| - 1
    else LastRelease(audit[..|audit| - 1])
  }

  function EvidenceOf(c: Command): Evidence
    requires c.SetRelease?
  {
    Evidence(c.version, c.assets, c.verifiedAt)
  }

  /** The state remembers the last accepted release, through any number of clears. */
  ghost predicate Remembers(s: State, audit: seq<Entry>) {
    var k := LastRelease(audit);
    if k < 0 then Floor(s).None? && s.evidence.None?
    else
      && s.evidence == Some(EvidenceOf(audit[k].command))
      && Floor(s) == Some(audit[k].command.version)
      && (s.release.Some? ==> s.release.value.version == audit[k].command.version)
  }

  lemma ApplyRemembers(s: State, audit: seq<Entry>, after: State)
    requires audit != [] && Remembers(s, audit[..|audit| - 1])
    requires Apply(s, audit[|audit| - 1].command).Ok?
    requires after == Apply(s, audit[|audit| - 1].command).value.(revision := s.revision + 1)
    ensures Remembers(after, audit)
  {
    hide OtherCodes, OtherDisablements, OtherSchedules;
  }

  lemma {:induction false} FoldRemembers(audit: seq<Entry>)
    requires Fold(audit).Ok?
    ensures Remembers(Fold(audit).value, audit)
    decreases |audit|
  {
    hide Apply, Remembers;
    if audit != [] {
      var before := audit[..|audit| - 1];
      FoldRemembers(before);
      ApplyRemembers(Fold(before).value, audit, Fold(audit).value);
    } else {
      NothingRemembered();
    }
  }

  lemma NothingRemembered()
    ensures Remembers(DEFAULT, [])
  {
  }

  lemma {:induction false} FoldPrefix(audit: seq<Entry>, n: nat)
    requires Fold(audit).Ok? && n <= |audit|
    ensures Fold(audit[..n]).Ok?
    decreases |audit|
  {
    if n < |audit| {
      FoldPrefix(audit[..|audit| - 1], n);
      assert audit[..|audit| - 1][..n] == audit[..n];
    } else {
      assert audit[..n] == audit;
    }
  }

  /** Each audited command was accepted by the state its predecessors led to. */
  lemma AppliedAt(audit: seq<Entry>, j: nat)
    requires Fold(audit).Ok? && j < |audit|
    ensures Fold(audit[..j]).Ok? && Apply(Fold(audit[..j]).value, audit[j].command).Ok?
  {
    hide Apply;
    FoldPrefix(audit, j);
    FoldPrefix(audit, j + 1);
    assert audit[..j + 1][..j] == audit[..j];
  }

  lemma AcceptedBy(s: State, c: Command, remembered: Command)
    requires c.SetRelease? && remembered.SetRelease? && Apply(s, c).Ok?
    requires s.evidence == Some(EvidenceOf(remembered)) && Floor(s) == Some(remembered.version)
    ensures Compare(c.version, remembered.version) != Below
    ensures remembered.version == c.version ==> remembered.assets == c.assets
  {
    hide Compare;
  }

  /** What acceptance says of a release and the one accepted before it. */
  lemma AcceptedAfter(audit: seq<Entry>, j: nat)
    requires Fold(audit).Ok? && IsRelease(audit, j)
    ensures var k := LastRelease(audit[..j]);
      k >= 0 ==>
        && Compare(audit[j].command.version, audit[k].command.version) != Below
        && (audit[k].command.version == audit[j].command.version ==>
            audit[k].command.assets == audit[j].command.assets)
  {
    hide Remembers, Compare, Fold, Apply, Floor;
    AppliedAt(audit, j);
    FoldRemembers(audit[..j]);
    var k := LastRelease(audit[..j]);
    if k >= 0 {
      var s := Fold(audit[..j]).value;
      RememberedRelease(s, audit[..j]);
      assert audit[..j][k] == audit[k];
      AcceptedBy(s, audit[j].command, audit[k].command);
    }
  }

  lemma RememberedRelease(s: State, audit: seq<Entry>)
    requires Remembers(s, audit) && LastRelease(audit) >= 0
    ensures s.evidence == Some(EvidenceOf(audit[LastRelease(audit)].command))
    ensures Floor(s) == Some(audit[LastRelease(audit)].command.version)
  {
  }

  /** Every release accepted from place i on, before place j, is a floor that refuses everything before it. */
  ghost predicate GuardedBetween(audit: seq<Entry>, i: nat, j: nat) {
    forall k :: i <= k < j && IsRelease(audit, k) ==> Guarded(audit[k].command.version)
  }

  /** Accepted versions never decrease, clears or not, while they are guarded. */
  lemma {:induction false} VersionsNeverDecrease(audit: seq<Entry>, i: nat, j: nat)
    requires Fold(audit).Ok? && i < j && IsRelease(audit, i) && IsRelease(audit, j) && GuardedBetween(audit, i, j)
    ensures !Precedes(audit[j].command.version, audit[i].command.version)
    decreases j
  {
    hide Compare, Guarded;
    var k := LastRelease(audit[..j]);
    assert IsRelease(audit[..j], i);
    AcceptedAfter(audit, j);
    assert IsRelease(audit[..j], k) && IsRelease(audit, k);
    RollbackGuardedExactly(audit[k].command.version);
    if i < k {
      VersionsNeverDecrease(audit, i, k);
    }
  }

  /** The same numbers, perhaps spelled with other leading zeros. */
  predicate SameNumbers(v: Version, w: Version) { !Precedes(v, w) && !Precedes(w, v) }

  /** Every release accepted between two places that has the first one's numbers is spelled as it is. */
  ghost predicate SpelledAlike(audit: seq<Entry>, i: nat, j: nat)
    requires IsRelease(audit, i)
  {
    forall k :: i <= k <= j && IsRelease(audit, k)
      && SameNumbers(audit[i].command.version, audit[k].command.version)
      ==> audit[k].command.version == audit[i].command.version
  }

  lemma {:induction false} VersionKeepsAssets(audit: seq<Entry>, i: nat, j: nat)
    requires Fold(audit).Ok? && i < j && IsRelease(audit, i) && IsRelease(audit, j) && GuardedBetween(audit, i, j)
    requires audit[i].command.version == audit[j].command.version && SpelledAlike(audit, i, j)
    ensures audit[i].command.assets == audit[j].command.assets
    decreases j
  {
    hide Compare, Guarded;
    var k := LastRelease(audit[..j]);
    assert IsRelease(audit[..j], i);
    AcceptedAfter(audit, j);
    assert IsRelease(audit[..j], k) && IsRelease(audit, k);
    if i < k {
      VersionsNeverDecrease(audit, i, k);
      VersionsNeverDecrease(audit, k, j);
      assert SameNumbers(audit[i].command.version, audit[k].command.version);
      VersionKeepsAssets(audit, i, k);
    }
  }

  predicate CanonicalReleases(audit: seq<Entry>) {
    forall i :: 0 <= i < |audit| && audit[i].command.SetRelease? ==> Canonical(audit[i].command.version)
  }

  predicate GuardedReleases(audit: seq<Entry>) {
    forall i :: 0 <= i < |audit| && audit[i].command.SetRelease? ==> Guarded(audit[i].command.version)
  }

  /**
   * Over every run whose accepted versions are guarded, they never decrease; if they are canonical too, two with the
   * same numbers have the same tag, size, digest and source commit.
   */
  lemma ReleasesProgress(steps: seq<Step>, at: Reading, i: nat, j: nat)
    requires GuardedReleases(Run(steps, at).audit)
    requires i < j && IsRelease(Run(steps, at).audit, i) && IsRelease(Run(steps, at).audit, j)
    ensures var audit := Run(steps, at).audit;
      var earlier, later := audit[i].command, audit[j].command;
      && !Precedes(later.version, earlier.version)
      && (CanonicalReleases(audit) && SameNumbers(earlier.version, later.version) ==>
          earlier.version == later.version && earlier.assets == later.assets)
  {
    hide Run, Guarded;
    var audit := Run(steps, at).audit;
    StateIsFoldOfAudit(steps, at);
    VersionsNeverDecrease(audit, i, j);
    if CanonicalReleases(audit) && SameNumbers(audit[i].command.version, audit[j].command.version) {
      VersionKeepsAssets(audit, i, j);
    }
  }

  /** What the release probe offers: no leading zeros and at most nine digits a part. */
  predicate Probed(v: Version) {
    && Canonical(v)
    && v.major.value < 1_000_000_000 && v.minor.value < 1_000_000_000 && v.patch.value < 1_000_000_000
  }

  /** So a run whose releases come from the probe keeps both promises. */
  lemma ProbedReleasesProgress(steps: seq<Step>, at: Reading, i: nat, j: nat)
    requires forall k :: 0 <= k < |Run(steps, at).audit| && Run(steps, at).audit[k].command.SetRelease? ==>
      Probed(Run(steps, at).audit[k].command.version)
    requires i < j && IsRelease(Run(steps, at).audit, i) && IsRelease(Run(steps, at).audit, j)
    ensures var audit := Run(steps, at).audit;
      var earlier, later := audit[i].command, audit[j].command;
      && (earlier.version == later.version || Precedes(earlier.version, later.version))
      && (earlier.version == later.version ==> earlier.assets == later.assets)
  {
    hide Run, Guarded;
    var audit := Run(steps, at).audit;
    forall k | 0 <= k < |audit| && audit[k].command.SetRelease? ensures Guarded(audit[k].command.version) {
      SmallIsGuarded(audit[k].command.version);
    }
    ReleasesProgress(steps, at, i, j);
  }

  // ------------------------------------------------------------------ the guards exactly, and histories that pass

  /**
   * The assets test: acceptance of a version forces the remembered assets exactly if the version is spelled as the
   * remembered one, or is refused whatever its assets are.
   */
  lemma AssetsGuardedExactly(s: State, version: Version, url: Text, time: Text)
    requires s.evidence.Some? && Floor(s) == Some(s.evidence.value.version)
    ensures (forall assets ::
        Apply(s, SetRelease(version, assets, url, url, time, time)).Ok? ==> assets == s.evidence.value.assets)
      <==> version == s.evidence.value.version || Compare(version, s.evidence.value.version) == Below
  {
    hide Compare;
    if version != s.evidence.value.version && Compare(version, s.evidence.value.version) != Below {
      var known := s.evidence.value.assets;
      var other := known.(installerSize := known.installerSize + 1);
      assert Apply(s, SetRelease(version, other, url, url, time, time)).Ok? && other != known;
    }
  }

  function Publish(entry: Entry, version: Version, assets: Assets): Entry {
    entry.(command := SetRelease(version, assets, [], [], [], []))
  }

  /** A second release is accepted unless it compares below the first or changes its assets under its spelling. */
  lemma TwoReleases(entry: Entry, v: Version, a: Assets, w: Version, b: Assets)
    ensures Fold([Publish(entry, v, a)]).Ok?
    ensures Fold([Publish(entry, v, a), Publish(entry, w, b)]).Ok?
      <==> Compare(w, v) != Below && (v == w ==> a == b)
  {
    hide Compare;
    var one, two := Publish(entry, v, a), Publish(entry, w, b);
    FoldOne([], one);
    assert [] + [one] == [one];
    FoldOne([one], two);
    assert [one] + [two] == [one, two];
  }

  lemma ThreeReleases(entry: Entry, v: Version, a: Assets, w: Version, b: Assets)
    requires v != w && Compare(w, v) != Below && Compare(v, w) != Below
    ensures Fold([Publish(entry, v, a), Publish(entry, w, a), Publish(entry, v, b)]).Ok?
  {
    hide Compare;
    var one, two, three := Publish(entry, v, a), Publish(entry, w, a), Publish(entry, v, b);
    FoldOne([], one);
    assert [] + [one] == [one];
    FoldOne([one], two);
    assert [one] + [two] == [one, two];
    FoldOne([one, two], three);
    assert [one, two] + [three] == [one, two, three];
  }

  /**
   * Outside the condition both promises fail: after any version that is not guarded one that precedes it is
   * accepted, and then the first version again, with whatever assets.
   */
  lemma UnguardedForgetsAssets(entry: Entry, floor: Version, first: Assets, second: Assets)
    returns (lower: Version)
    requires !Guarded(floor)
    ensures Precedes(lower, floor)
    ensures Fold([Publish(entry, floor, first), Publish(entry, lower, first), Publish(entry, floor, second)]).Ok?
  {
    hide Guarded;
    lower := GuardMisses(floor);
    ThreeReleases(entry, floor, first, lower, second);
  }

  /** The input at which rounding begins: 0.0.9007199254740993 is read as 0.0.9007199254740992. */
  lemma LargeVersionForgetsAssets(entry: Entry, first: Assets, second: Assets)
    requires first != second
    ensures var large, larger := Plain(0, 0, 9007199254740992), Plain(0, 0, 9007199254740993);
      && Canonical(large) && Canonical(larger) && Precedes(large, larger) && !Guarded(larger)
      && Fold([Publish(entry, large, first), Publish(entry, large, second)]).Err?
      && Fold([Publish(entry, large, first), Publish(entry, larger, first), Publish(entry, large, second)]).Ok?
  {
    hide Compare;
    var large, larger := Plain(0, 0, 9007199254740992), Plain(0, 0, 9007199254740993);
    FirstRounded();
    RoundedAlike(large, larger);
    RoundedAlike(larger, large);
    TwoReleases(entry, large, first, large, second);
    ThreeReleases(entry, large, first, larger, second);
  }

  function Plain(major: nat, minor: nat, patch: nat): Version {
    Version(Part(0, major), Part(0, minor), Part(0, patch))
  }

  /** Parts from 2^1024 on are read as Infinity, and the difference of two of them is not a number. */
  lemma InfiniteVersionSkipsFloor(entry: Entry, v: Version, a: Assets, w: Version, b: Assets, exponent: nat)
    requires exponent == 1024 && v != w
    requires v.major.value >= Power2(exponent) && w.major.value >= Power2(exponent)
    ensures Fold([Publish(entry, v, a), Publish(entry, w, b)]).Ok?
  {
    hide Number, Fold;
    NumberInfinite(v.major.value, exponent);
    NumberInfinite(w.major.value, exponent);
    TwoReleases(entry, v, a, w, b);
  }

  lemma RoundedAlike(v: Version, w: Version)
    requires v.major == w.major && v.minor == w.minor && Number(v.patch.value) == Number(w.patch.value)
    ensures Compare(v, w) == Same || Compare(v, w) == NotANumber
  {
    hide Number;
  }

  /** Neither of two spellings of the same numbers compares below the other. */
  lemma SameNumbersTie(v: Version, w: Version)
    requires SameNumbers(v, w)
    ensures Compare(v, w) != Below
  {
    hide Number;
  }

  /**
   * Without one spelling a version's assets can change: after any version, any other spelling of its numbers is
   * accepted, and then the first one again, with whatever assets.
   */
  lemma RespellingForgetsAssets(entry: Entry, v: Version, w: Version, first: Assets, second: Assets)
    requires v != w && SameNumbers(v, w)
    ensures Fold([Publish(entry, v, first), Publish(entry, w, first), Publish(entry, v, second)]).Ok?
  {
    hide Compare;
    SameNumbersTie(v, w);
    SameNumbersTie(w, v);
    ThreeReleases(entry, v, first, w, second);
  }

  /** So one version that is not canonical is enough to change the assets of the canonical one with its numbers. */
  lemma UncanonicalForgetsAssets(entry: Entry, w: Version, first: Assets, second: Assets) returns (v: Version)
    requires !Canonical(w)
    ensures Canonical(v) && SameNumbers(v, w)
    ensures Fold([Publish(entry, v, first), Publish(entry, w, first), Publish(entry, v, second)]).Ok?
  {
    hide Compare, Fold;
    v := Plain(w.major.value, w.minor.value, w.patch.value);
    RespellingForgetsAssets(entry, v, w, first, second);
  }

  /** The command schema allows leading zeros, so this history with 1.02.0 in it is one it admits. */
  lemma LeadingZeroForgetsAssets(entry: Entry, first: Assets, second: Assets)
    requires first != second
    ensures var plain, zero := Plain(1, 2, 0), Version(Part(0, 1), Part(1, 2), Part(0, 0));
      && Guarded(plain) && Guarded(zero) && SameNumbers(plain, zero)
      && Fold([Publish(entry, plain, first), Publish(entry, plain, second)]).Err?
      && Fold([Publish(entry, plain, first), Publish(entry, zero, first), Publish(entry, plain, second)]).Ok?
  {
    hide Compare, Guarded;
    var plain, zero := Plain(1, 2, 0), Version(Part(0, 1), Part(1, 2), Part(0, 0));
    SmallIsGuarded(plain);
    SmallIsGuarded(zero);
    TwoReleases(entry, plain, first, plain, second);
    RespellingForgetsAssets(entry, plain, zero, first, second);
  }
}
