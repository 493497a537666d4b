/**
 * Fair eviction of whole archives when an incoming one does not fit.
 * The loop works on per-install queues; the specification works on the set of archives left.
 */
module Capacity {
  import opened Options
  import opened Sequences
  import opened Sorting

  /** ids stand for UUIDs; equal-shaped lowercase UUIDs collate as the numbers they denote. */
  datatype Archive = Archive(id: nat, install: string, sizeBytes: nat, createdAt: int, evictable: bool)

  function Size(a: Archive): nat { a.sizeBytes }

  function EvictableSize(a: Archive): nat { if a.evictable then a.sizeBytes else 0 }

  /** compareOldest orders by creation time, then by id. */
  function Age(a: Archive): Key { (a.createdAt, a.id) }

  predicate Older(a: Archive, b: Archive) { KeyLess(Age(a), Age(b)) }

  // ------------------------------------------------------------------ specification

  ghost predicate DistinctIds(left: set<Archive>) {
    forall a, b :: a in left && b in left && a.id == b.id ==> a == b
  }

  ghost function OfInstall(left: set<Archive>, install: string): set<Archive> {
    set a | a in left && a.install == install
  }

  ghost function Count(left: set<Archive>, install: string): nat { |OfInstall(left, install)| }

  /** a is evicted before b: its install holds more archives, or as many and a is older. */
  ghost predicate Precedes(left: set<Archive>, a: Archive, b: Archive) {
    || Count(left, a.install) > Count(left, b.install)
    || (Count(left, a.install) == Count(left, b.install) && Older(a, b))
  }

  /** Nothing among the candidates is evicted before a. */
  ghost predicate First(left: set<Archive>, candidates: set<Archive>, a: Archive) {
    a in candidates && forall b :: b in candidates && b != a ==> Precedes(left, a, b)
  }

  ghost function Evictable(left: set<Archive>): set<Archive> {
    set a | a in left && a.evictable
  }

  ghost predicate IsVictim(left: set<Archive>, a: Archive) {
    First(left, Evictable(left), a)
  }

  ghost function Victim(left: set<Archive>): (a: Archive)
    requires DistinctIds(left) && Evictable(left) != {}
    ensures a in left && a.evictable
  {
    FirstExists(left, Evictable(left));
    var a :| First(left, Evictable(left), a);
    a
  }

  /** Remove victims one at a time until enough bytes are free; None when they run out first. */
  ghost function Greedy(left: set<Archive>, need: int): (victims: Option<seq<Archive>>)
    requires DistinctIds(left)
  {
    if need <= 0 then Some([])
    else if Evictable(left) == {} then None
    else
      var v := Victim(left);
      Prepend([v], Greedy(left - {v}, need - v.sizeBytes))
  }

  ghost function Prepend(front: seq<Archive>, rest: Option<seq<Archive>>): Option<seq<Archive>> {
    match rest
    case None => None
    case Some(back) => Some(front + back)
  }

  function IdList(archives: seq<Archive>): (ids: seq<nat>)
    ensures |ids| == |archives| && forall i :: 0 <= i < |ids| ==> ids[i] == archives[i].id
  {
    seq(|archives|, i requires 0 <= i < |archives| => archives[i].id)
  }

  ghost function Ids(victims: Option<seq<Archive>>): Option<seq<nat>> {
    match victims
    case None => None
    case Some(archives) => Some(IdList(archives))
  }

  lemma PrecedesTransitive(left: set<Archive>, a: Archive, b: Archive, c: Archive)
    requires Precedes(left, a, b) && Precedes(left, b, c)
    ensures Precedes(left, a, c)
  {
  }

  lemma {:induction false} FirstExists(left: set<Archive>, among: set<Archive>)
    requires DistinctIds(left) && among <= left && among != {}
    ensures exists a :: First(left, among, a)
  {
    var x :| x in among;
    if among == {x} {
      assert First(left, among, x);
    } else {
      FirstExists(left, among - {x});
      var a :| First(left, among - {x}, a);
      if Precedes(left, a, x) {
        assert First(left, among, a);
      } else {
        assert x.id != a.id && Precedes(left, x, a);
        forall b | b in among && b != x ensures Precedes(left, x, b) {
          if b != a { PrecedesTransitive(left, x, a, b); }
        }
        assert First(left, among, x);
      }
    }
  }

  lemma VictimUnique(left: set<Archive>, a: Archive)
    requires DistinctIds(left) && IsVictim(left, a)
    ensures Evictable(left) != {} && Victim(left) == a
  {
    FirstExists(left, Evictable(left));
    assert a in Evictable(left);
    var v := Victim(left);
    assert v != a ==> Precedes(left, a, v) && Precedes(left, v, a);
  }

  // ------------------------------------------------------------------ what the specification gives

  /** The victims are distinct retained evictable archives. */
  lemma {:induction false} GreedyPicksEvictable(left: set<Archive>, need: int)
    requires DistinctIds(left) && Greedy(left, need).Some?
    ensures var victims := Greedy(left, need).value;
            && Distinct(victims)
            && (forall v :: v in victims ==> v in left && v.evictable)
    decreases left
  {
    if need > 0 {
      var v := Victim(left);
      GreedyPicksEvictable(left - {v}, need - v.sizeBytes);
      var rest := Greedy(left - {v}, need - v.sizeBytes).value;
      assert v !in rest;
      assert Greedy(left, need).value == [v] + rest;
    }
  }

  /** The victims free enough bytes, and no proper prefix of them does. */
  lemma {:induction false} GreedyFreesEnough(left: set<Archive>, need: int)
    requires DistinctIds(left) && Greedy(left, need).Some?
    ensures var victims := Greedy(left, need).value;
            && Sum(victims, Size) >= need
            && (forall k :: 0 <= k < |victims| ==> Sum(victims[..k], Size) < need)
    decreases left
  {
    if need > 0 {
      var v := Victim(left);
      var rest := Greedy(left - {v}, need - v.sizeBytes).value;
      GreedyFreesEnough(left - {v}, need - v.sizeBytes);
      var victims := [v] + rest;
      assert Greedy(left, need).value == victims && victims[1..] == rest;
      forall k | 0 <= k < |victims| ensures Sum(victims[..k], Size) < need {
        if k > 0 {
          assert victims[..k][1..] == rest[..k - 1];
        }
      }
    }
  }

  /** Admission is refused exactly when all evictable archives together are too small. */
  lemma {:induction false} GreedyFailsIffTooSmall(retained: seq<Archive>, need: int)
    requires Distinct(retained) && DistinctIds(Elements(retained))
    ensures Greedy(Elements(retained), need).None? <==> Sum(retained, EvictableSize) < need
    decreases |retained|
  {
    var left := Elements(retained);
    hide Sum, Distinct;
    if need <= 0 {
    } else if Evictable(left) == {} {
      NothingToSum(retained);
    } else {
      var v := Victim(left);
      var rest := TakeOut(retained, v);
      GreedyFailsIffTooSmall(rest, need - v.sizeBytes);
    }
  }

  lemma {:induction false} NothingToSum(retained: seq<Archive>)
    requires Evictable(Elements(retained)) == {}
    ensures Sum(retained, EvictableSize) == 0
  {
    if retained != [] {
      assert retained[0] in Elements(retained) && retained[0] !in Evictable(Elements(retained));
      assert Evictable(Elements(retained[1..])) <= Evictable(Elements(retained));
      NothingToSum(retained[1..]);
    }
  }

  lemma TakeOut(xs: seq<Archive>, v: Archive) returns (rest: seq<Archive>)
    requires v in xs && Distinct(xs)
    ensures |rest| < |xs| && Distinct(rest) && Elements(rest) == Elements(xs) - {v}
    ensures Sum(xs, EvictableSize) == EvictableSize(v) + Sum(rest, EvictableSize)
  {
    var i :| 0 <= i < |xs| && xs[i] == v;
    SumRemove(xs, i, EvictableSize);
    rest := xs[..i] + xs[i + 1..];
    assert forall k :: 0 <= k < |rest| ==> rest[k] == xs[if k < i then k else k + 1];
    forall x | x in Elements(xs) - {v} ensures x in rest {
      var k :| 0 <= k < |xs| && xs[k] == x;
      assert rest[if k < i then k else k - 1] == x;
    }
  }

  /**
   * Fairness: once the evictions are done, an install that still has an evictable archive
   * holds at most one archive more than any install that lost one.
   */
  lemma {:induction false} GreedyIsFair(left: set<Archive>, need: int, lost: Archive, kept: Archive)
    requires DistinctIds(left) && Greedy(left, need).Some?
    requires lost in Greedy(left, need).value
    requires kept in left && kept !in Greedy(left, need).value && kept.evictable
    ensures var final := left - Elements(Greedy(left, need).value);
            Count(final, kept.install) <= Count(final, lost.install) + 1
    decreases left
  {
    var v := Victim(left);
    var rest := Greedy(left - {v}, need - v.sizeBytes).value;
    var victims := [v] + rest;
    assert Greedy(left, need).value == victims;
    assert kept != v && kept !in rest;
    var final := left - Elements(victims);
    assert final == (left - {v}) - Elements(rest) by {
      assert forall x :: x in victims <==> x == v || x in rest;
    }
    if exists other :: other in rest && other.install == lost.install {
      var other :| other in rest && other.install == lost.install;
      GreedyIsFair(left - {v}, need - v.sizeBytes, other, kept);
    } else {
      assert lost == v;
      assert OfInstall(final, v.install) == OfInstall(left, v.install) - {v} by {
        forall x | x in OfInstall(left, v.install) - {v} ensures x in final {
          assert x !in rest;
        }
      }
      assert OfInstall(final, kept.install) <= OfInstall(left, kept.install);
      SubsetSize(OfInstall(final, kept.install), OfInstall(left, kept.install));
      assert Precedes(left, v, kept);
    }
  }

  lemma {:induction false} SubsetSize<T>(small: set<T>, big: set<T>)
    requires small <= big
    ensures |small| <= |big|
  {
    if small != {} {
      var x :| x in small;
      SubsetSize(small - {x}, big - {x});
    }
  }

  /** The outcome depends on which archives are retained, not on the order they are listed in. */
  lemma OrderDoesNotMatter(a: seq<Archive>, b: seq<Archive>, incomingBytes: int, maximumRetainedBytes: int)
    requires multiset(a) == multiset(b) && DistinctIds(Elements(a))
    ensures Elements(a) == Elements(b)
    ensures Greedy(Elements(a), Need(a, incomingBytes, maximumRetainedBytes))
         == Greedy(Elements(b), Need(b, incomingBytes, maximumRetainedBytes))
  {
    forall x ensures x in a <==> x in b {
      assert x in multiset(a) <==> x in multiset(b);
    }
    SumPermutation(a, b, Size);
  }

  function Need(retained: seq<Archive>, incomingBytes: int, maximumRetainedBytes: int): int {
    Sum(retained, Size) + incomingBytes - maximumRetainedBytes
  }

  // ------------------------------------------------------------------ whose turn it is, and nothing else

  ghost function Held(left: set<Archive>, install: string): nat {
    |set a | a in left && a.install == install|
  }

  /** The install of v holds more than that of b, or as many and v is older, or as old and its id is smaller. */
  ghost predicate TakenBefore(left: set<Archive>, v: Archive, b: Archive) {
    || Held(left, b.install) < Held(left, v.install)
    || (Held(left, b.install) == Held(left, v.install)
        && (v.createdAt < b.createdAt || (v.createdAt == b.createdAt && v.id < b.id)))
  }

  lemma PrecedesExactly(left: set<Archive>, v: Archive, b: Archive)
    ensures Precedes(left, v, b) <==> TakenBefore(left, v, b)
  {
    assert OfInstall(left, v.install) == set a | a in left && a.install == v.install;
    assert OfInstall(left, b.install) == set a | a in left && a.install == b.install;
  }

  /** The next victim is the evictable archive that is taken before every other one. */
  lemma VictimExactly(left: set<Archive>, a: Archive)
    requires DistinctIds(left)
    ensures Evictable(left) != {} && Victim(left) == a <==>
      && a in left && a.evictable
      && forall b :: b in left && b.evictable && b != a ==> TakenBefore(left, a, b)
  {
    hide Precedes, TakenBefore;
    forall v, b ensures Precedes(left, v, b) <==> TakenBefore(left, v, b) { PrecedesExactly(left, v, b); }
    if a in left && a.evictable && forall b :: b in left && b.evictable && b != a ==> TakenBefore(left, a, b) {
      assert IsVictim(left, a);
      VictimUnique(left, a);
    }
    if Evictable(left) != {} && Victim(left) == a {
      VictimIsFirst(left);
    }
  }

  lemma VictimIsFirst(left: set<Archive>)
    requires DistinctIds(left) && Evictable(left) != {}
    ensures IsVictim(left, Victim(left))
  {
    FirstExists(left, Evictable(left));
    var a :| First(left, Evictable(left), a);
    VictimUnique(left, a);
  }

  /** Each victim is taken before every evictable archive that is left beside it. */
  ghost predicate TakenInTurn(left: set<Archive>, victims: seq<Archive>) {
    forall k, b :: 0 <= k < |victims| && b in left - Elements(victims[..k]) && b.evictable && b != victims[k] ==>
      TakenBefore(left - Elements(victims[..k]), victims[k], b)
  }

  /** What the documentation promises of the evictions, in terms of counts, ages and sizes alone. */
  ghost predicate FairEvictions(left: set<Archive>, need: int, victims: seq<Archive>) {
    && Distinct(victims) && (forall v :: v in victims ==> v in left && v.evictable)
    && TakenInTurn(left, victims)
    && Sum(victims, Size) >= need
    && forall k :: 0 <= k < |victims| ==> Sum(victims[..k], Size) < need
  }

  lemma LaterLeft(left: set<Archive>, v: Archive, rest: seq<Archive>, k: nat)
    requires k <= |rest|
    ensures ([v] + rest)[..k + 1] == [v] + rest[..k]
    ensures left - Elements(([v] + rest)[..k + 1]) == (left - {v}) - Elements(rest[..k])
    ensures Sum(([v] + rest)[..k + 1], Size) == v.sizeBytes + Sum(rest[..k], Size)
  {
    assert ([v] + rest)[..k + 1] == [v] + rest[..k];
    assert forall x :: x in [v] + rest[..k] <==> x == v || x in rest[..k];
    SumCons(v, rest[..k], Size);
  }

  lemma TurnsAfter(left: set<Archive>, v: Archive, rest: seq<Archive>)
    requires TakenInTurn(left, [v] + rest)
    ensures TakenInTurn(left - {v}, rest)
    ensures forall b :: b in left && b.evictable && b != v ==> TakenBefore(left, v, b)
  {
    hide TakenBefore;
    var victims := [v] + rest;
    assert left - Elements(victims[..0]) == left && victims[0] == v;
    forall k, b | 0 <= k < |rest| && b in left - {v} - Elements(rest[..k]) && b.evictable && b != rest[k]
      ensures TakenBefore(left - {v} - Elements(rest[..k]), rest[k], b)
    {
      LaterLeft(left, v, rest, k);
      assert victims[k + 1] == rest[k];
    }
  }

  lemma TurnsBefore(left: set<Archive>, v: Archive, rest: seq<Archive>)
    requires TakenInTurn(left - {v}, rest)
    requires forall b :: b in left && b.evictable && b != v ==> TakenBefore(left, v, b)
    ensures TakenInTurn(left, [v] + rest)
  {
    hide TakenBefore;
    var victims := [v] + rest;
    forall k, b | 0 <= k < |victims| && b in left - Elements(victims[..k]) && b.evictable && b != victims[k]
      ensures TakenBefore(left - Elements(victims[..k]), victims[k], b)
    {
      if k == 0 {
        assert left - Elements(victims[..0]) == left;
      } else {
        LaterLeft(left, v, rest, k - 1);
        assert victims[k] == rest[k - 1];
      }
    }
  }

  /** The victims come in turn. */
  lemma {:induction false} GreedyTakesInTurn(left: set<Archive>, need: int)
    requires DistinctIds(left) && Greedy(left, need).Some?
    ensures TakenInTurn(left, Greedy(left, need).value)
    decreases left
  {
    if need > 0 {
      var v := Victim(left);
      hide TakenInTurn, TakenBefore;
      GreedyTakesInTurn(left - {v}, need - v.sizeBytes);
      VictimExactly(left, v);
      TurnsBefore(left, v, Greedy(left - {v}, need - v.sizeBytes).value);
    } else {
      assert Greedy(left, need).value == [];
    }
  }

  lemma FairAfter(left: set<Archive>, need: int, v: Archive, rest: seq<Archive>)
    requires FairEvictions(left, need, [v] + rest)
    ensures FairEvictions(left - {v}, need - v.sizeBytes, rest)
    ensures v in left && v.evictable && forall b :: b in left && b.evictable && b != v ==> TakenBefore(left, v, b)
  {
    hide TakenBefore, Sum, TakenInTurn;
    var victims := [v] + rest;
    TurnsAfter(left, v, rest);
    SumCons(v, rest, Size);
    assert victims[0] == v && victims[1..] == rest;
    forall x | x in rest ensures x in left - {v} && x.evictable {
      var i :| 0 <= i < |rest| && rest[i] == x;
      assert victims[i + 1] == x && x in victims;
    }
    assert v in victims;
    forall k | 0 <= k < |rest| ensures Sum(rest[..k], Size) < need - v.sizeBytes { LaterLeft(left, v, rest, k); }
    forall i, j | 0 <= i < j < |rest| ensures rest[i] != rest[j] {
      assert victims[i + 1] == rest[i] && victims[j + 1] == rest[j];
    }
  }

  lemma {:induction false} FairIsGreedy(left: set<Archive>, need: int, victims: seq<Archive>)
    requires DistinctIds(left) && FairEvictions(left, need, victims)
    ensures Greedy(left, need) == Some(victims)
    decreases |victims|
  {
    hide Greedy, FairEvictions, Victim, DistinctIds, Evictable, TakenBefore;
    if victims == [] {
      NothingNeeded(left, need);
    } else {
      var v, rest := victims[0], victims[1..];
      assert victims == [v] + rest;
      NeedIsPositive(left, need, victims);
      FairAfter(left, need, v, rest);
      VictimExactly(left, v);
      FewerDistinct(left, v);
      FairIsGreedy(left - {v}, need - v.sizeBytes, rest);
      GreedyTakesVictim(left, need, v);
    }
  }

  lemma FewerDistinct(left: set<Archive>, v: Archive)
    requires DistinctIds(left)
    ensures DistinctIds(left - {v})
  {
  }

  lemma NothingNeeded(left: set<Archive>, need: int)
    requires DistinctIds(left) && FairEvictions(left, need, [])
    ensures Greedy(left, need) == Some([])
  {
    hide TakenInTurn;
  }

  lemma NeedIsPositive(left: set<Archive>, need: int, victims: seq<Archive>)
    requires FairEvictions(left, need, victims) && victims != []
    ensures need > 0
  {
    hide TakenInTurn;
    assert Sum(victims[..0], Size) == 0;
  }

  lemma GreedyTakesVictim(left: set<Archive>, need: int, v: Archive)
    requires DistinctIds(left) && need > 0 && Evictable(left) != {} && Victim(left) == v
    ensures Greedy(left, need) == Prepend([v], Greedy(left - {v}, need - v.sizeBytes))
  {
    hide Victim, Evictable;
  }

  /** The specification's victims are the only fair evictions there are. */
  lemma GreedyExactly(left: set<Archive>, need: int, victims: seq<Archive>)
    requires DistinctIds(left)
    ensures Greedy(left, need) == Some(victims) <==> FairEvictions(left, need, victims)
  {
    if Greedy(left, need) == Some(victims) {
      hide Greedy, TakenInTurn;
      GreedyPicksEvictable(left, need);
      GreedyFreesEnough(left, need);
      GreedyTakesInTurn(left, need);
    }
    if FairEvictions(left, need, victims) {
      hide FairEvictions;
      FairIsGreedy(left, need, victims);
    }
  }

  /** The evictable archive whose turn it is. */
  ghost predicate IsNext(left: set<Archive>, a: Archive) {
    && a in left && a.evictable
    && forall b :: b in left && b.evictable && b != a ==> TakenBefore(left, a, b)
  }

  lemma VictimIsNext(left: set<Archive>, a: Archive)
    requires DistinctIds(left) && IsVictim(left, a)
    ensures IsNext(left, a)
  {
    hide TakenBefore, IsVictim;
    VictimUnique(left, a);
    VictimExactly(left, a);
  }

  /** The ids are those of fair evictions, or there are none. */
  ghost predicate EvictsFairly(left: set<Archive>, need: int, ids: Option<seq<nat>>) {
    match ids
    case None => forall victims :: !FairEvictions(left, need, victims)
    case Some(selected) => exists victims :: FairEvictions(left, need, victims) && selected == IdList(victims)
  }

  lemma GreedyEvictsFairly(left: set<Archive>, need: int)
    requires DistinctIds(left)
    ensures EvictsFairly(left, need, Ids(Greedy(left, need)))
  {
    hide Greedy, FairEvictions, IdList;
    forall victims ensures Greedy(left, need) == Some(victims) <==> FairEvictions(left, need, victims) {
      GreedyExactly(left, need, victims);
    }
  }
}
