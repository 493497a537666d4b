/** When the evictions of the fair rule are a minimum set, which they are not always. */
module MinimumEvictions {
  import opened Options
  import opened Sequences
  import opened Capacity

  ghost function Bytes(archives: set<Archive>): nat {
    if archives == {} then 0
    else
      var a :| a in archives;
      a.sizeBytes + Bytes(archives - {a})
  }

  /** No fewer evictable archives free enough bytes. */
  ghost predicate IsMinimum(left: set<Archive>, need: int)
    requires DistinctIds(left) && Greedy(left, need).Some?
  {
    forall some :: some <= Evictable(left) && Bytes(some) >= need ==> |some| >= |Greedy(left, need).value|
  }

  lemma {:induction false} BytesWithout(archives: set<Archive>, a: Archive)
    requires a in archives
    ensures Bytes(archives) == a.sizeBytes + Bytes(archives - {a})
  {
    var first :| first in archives && Bytes(archives) == first.sizeBytes + Bytes(archives - {first});
    if first != a {
      assert archives - {first} - {a} == archives - {a} - {first};
      BytesWithout(archives - {first}, a);
      BytesWithout(archives - {a}, first);
    }
  }

  lemma {:induction false} BytesOfElements(xs: seq<Archive>)
    requires Distinct(xs)
    ensures Bytes(Elements(xs)) == Sum(xs, Size) && |Elements(xs)| == |xs|
  {
    if xs == [] {
      assert Elements(xs) == {};
    } else {
      BytesOfElements(xs[1..]);
      assert xs[0] !in xs[1..];
      assert Elements(xs) - {xs[0]} == Elements(xs[1..]);
      BytesWithout(Elements(xs), xs[0]);
    }
  }

  // ------------------------------------------------------------------ the exact condition

  ghost predicate IsLargest(archives: set<Archive>, a: Archive) {
    a in archives && forall b :: b in archives ==> b.sizeBytes <= a.sizeBytes
  }

  lemma {:induction false} LargestExists(archives: set<Archive>)
    requires archives != {}
    ensures exists a :: IsLargest(archives, a)
  {
    var x :| x in archives;
    if archives == {x} {
      assert IsLargest(archives, x);
    } else {
      LargestExists(archives - {x});
      var a :| IsLargest(archives - {x}, a);
      assert IsLargest(archives, if a.sizeBytes >= x.sizeBytes then a else x);
    }
  }

  ghost function Largest(archives: set<Archive>): (a: Archive)
    requires archives != {}
    ensures IsLargest(archives, a)
  {
    LargestExists(archives);
    var a :| IsLargest(archives, a);
    a
  }

  /** The n largest, one at a time. */
  ghost function Top(archives: set<Archive>, n: nat): (top: set<Archive>)
    ensures top <= archives && |top| <= n
  {
    if n == 0 || archives == {} then {}
    else {Largest(archives)} + Top(archives - {Largest(archives)}, n - 1)
  }

  lemma TopBytes(archives: set<Archive>, n: nat)
    requires archives != {} && n > 0
    ensures Bytes(Top(archives, n))
         == Largest(archives).sizeBytes + Bytes(Top(archives - {Largest(archives)}, n - 1))
  {
    var a := Largest(archives);
    var rest := Top(archives - {a}, n - 1);
    assert {a} + rest - {a} == rest;
    BytesWithout({a} + rest, a);
  }

  /** What is left of some archives when one of them stands in for a: a itself if it is among them. */
  lemma StandIn(archives: set<Archive>, some: set<Archive>, a: Archive) returns (x: Archive)
    requires some <= archives && some != {} && a in archives
    ensures x in some && some - {x} <= archives - {a} && |some - {x}| == |some| - 1
  {
    if a in some {
      x := a;
    } else {
      x :| x in some;
    }
  }

  /** An exchange: any member for the largest archive, and so on, never loses bytes. */
  lemma {:induction false} TopHoldsMost(archives: set<Archive>, some: set<Archive>, n: nat)
    requires some <= archives && |some| <= n
    ensures Bytes(some) <= Bytes(Top(archives, n))
    decreases n
  {
    if some != {} {
      hide Bytes, Top;
      var a := Largest(archives);
      var x := StandIn(archives, some, a);
      BytesWithout(some, x);
      TopBytes(archives, n);
      TopHoldsMost(archives - {a}, some - {x}, n - 1);
    }
  }

  /** The victims are a minimum exactly when one archive fewer, however large, would not have been enough. */
  lemma MinimumExactly(left: set<Archive>, need: int)
    requires DistinctIds(left) && Greedy(left, need).Some?
    ensures var count := |Greedy(left, need).value|;
      IsMinimum(left, need) <==> count == 0 || Bytes(Top(Evictable(left), count - 1)) < need
  {
    hide Greedy, Evictable, Bytes, Top, DistinctIds;
    var count := |Greedy(left, need).value|;
    if count > 0 {
      var top := Top(Evictable(left), count - 1);
      forall some | some <= Evictable(left) && |some| < count ensures Bytes(some) <= Bytes(top) {
        TopHoldsMost(Evictable(left), some, count - 1);
      }
    }
  }

  // ------------------------------------------------------------------ for every need at once

  /** The order in which the rule would evict everything. */
  ghost function Order(left: set<Archive>): (order: seq<Archive>)
    requires DistinctIds(left)
  {
    if Evictable(left) == {} then []
    else
      var v := Victim(left);
      [v] + Order(left - {v})
  }

  ghost predicate LargestFirst(order: seq<Archive>) {
    forall i, j :: 0 <= i < j < |order| ==> order[i].sizeBytes >= order[j].sizeBytes
  }

  lemma EvictableWithout(left: set<Archive>, v: Archive)
    ensures Evictable(left - {v}) == Evictable(left) - {v}
  {
  }

  lemma {:induction false} OrderIsEvictable(left: set<Archive>)
    requires DistinctIds(left)
    ensures Distinct(Order(left)) && Elements(Order(left)) == Evictable(left)
  {
    if Evictable(left) != {} {
      var v := Victim(left);
      EvictableWithout(left, v);
      OrderIsEvictable(left - {v});
      var rest := Order(left - {v});
      assert forall x :: x in rest <==> x in Elements(rest);
      assert v !in rest;
    }
  }

  /** The victims come in that order. */
  lemma {:induction false} GreedyIsPrefix(left: set<Archive>, need: int)
    requires DistinctIds(left)
    ensures need <= Sum(Order(left), Size) ==> Greedy(left, need).Some?
    ensures Greedy(left, need).Some? ==> Greedy(left, need).value <= Order(left)
    decreases left
  {
    if need > 0 && Evictable(left) != {} {
      var v := Victim(left);
      GreedyIsPrefix(left - {v}, need - v.sizeBytes);
      assert Order(left)[1..] == Order(left - {v});
    }
  }

  lemma {:induction false} SumOfPrefix(xs: seq<Archive>, n: nat, m: nat)
    requires n <= m <= |xs|
    ensures Sum(xs[..n], Size) <= Sum(xs[..m], Size)
    decreases m
  {
    if n < m {
      SumLast(xs[..m], Size);
      assert xs[..m][..m - 1] == xs[..m - 1];
      SumOfPrefix(xs, n, m - 1);
    }
  }

  /** To free one byte more than the first j archives hold takes the next one too, if that is not empty. */
  lemma OneByteMore(left: set<Archive>, j: nat)
    requires DistinctIds(left) && j < |Order(left)| && Order(left)[j].sizeBytes > 0
    ensures Greedy(left, Sum(Order(left)[..j], Size) + 1) == Some(Order(left)[..j + 1])
  {
    hide Greedy, Order, Sum;
    var order := Order(left);
    var need := Sum(order[..j], Size) + 1;
    SumLast(order[..j + 1], Size);
    assert order[..j + 1][..j] == order[..j];
    SumOfPrefix(order, j + 1, |order|);
    assert order[..|order|] == order;
    GreedyIsPrefix(left, need);
    var victims := Greedy(left, need).value;
    GreedyFreesEnough(left, need);
    assert victims == order[..|victims|];
    SumOfPrefix(order, if |victims| < j then |victims| else j, j);
    assert |victims| > j;
    assert victims[..j + 1] == order[..j + 1];
  }

  /** While larger archives go first, no other archives as many hold more than the first of the order. */
  lemma {:induction false} FirstHoldMost(left: set<Archive>, some: set<Archive>, n: nat)
    requires DistinctIds(left) && LargestFirst(Order(left))
    requires some <= Evictable(left) && |some| <= n <= |Order(left)|
    ensures Bytes(some) <= Sum(Order(left)[..n], Size)
    decreases left
  {
    if some != {} {
      var v := Victim(left);
      var rest := Order(left - {v});
      assert Order(left) == [v] + rest && Order(left)[..n] == [v] + rest[..n - 1];
      SumCons(v, rest[..n - 1], Size);
      var x := StandIn(Evictable(left), some, v);
      BytesWithout(some, x);
      RestLargestFirst(v, rest);
      EvictableWithout(left, v);
      FirstIsLargest(left, x);
      FirstHoldMost(left - {v}, some - {x}, n - 1);
    }
  }

  lemma RestLargestFirst(v: Archive, rest: seq<Archive>)
    requires LargestFirst([v] + rest)
    ensures LargestFirst(rest)
  {
    forall i, j | 0 <= i < j < |rest| ensures rest[i].sizeBytes >= rest[j].sizeBytes {
      assert ([v] + rest)[i + 1] == rest[i] && ([v] + rest)[j + 1] == rest[j];
    }
  }

  lemma FirstIsLargest(left: set<Archive>, x: Archive)
    requires DistinctIds(left) && LargestFirst(Order(left)) && x in Evictable(left)
    ensures x.sizeBytes <= Victim(left).sizeBytes
  {
    OrderIsEvictable(left);
    assert Order(left)[0] == Victim(left);
    hide Order;
    assert x in Order(left);
  }

  lemma LargestFirstIsMinimum(left: set<Archive>, need: int)
    requires DistinctIds(left) && LargestFirst(Order(left)) && Greedy(left, need).Some?
    ensures IsMinimum(left, need)
  {
    hide Greedy, Order, Evictable, Sum, Bytes, LargestFirst;
    var victims := Greedy(left, need).value;
    GreedyIsPrefix(left, need);
    GreedyFreesEnough(left, need);
    forall some | some <= Evictable(left) && |some| < |victims| ensures Bytes(some) < need {
      FirstHoldMost(left, some, |some|);
      assert Order(left)[..|some|] == victims[..|some|];
    }
  }

  lemma Swapped(archives: set<Archive>, gone: Archive, come: Archive)
    requires gone in archives && come !in archives
    ensures var others := archives - {gone} + {come};
      |others| == |archives| && Bytes(others) == Bytes(archives) - gone.sizeBytes + come.sizeBytes
  {
    hide Bytes;
    var kept := archives - {gone};
    BytesWithout(archives, gone);
    BytesWithout(kept + {come}, come);
    assert kept + {come} - {come} == kept;
  }

  lemma EarlierOnes(order: seq<Archive>, j: nat)
    requires Distinct(order) && j < |order|
    ensures order[j] !in Elements(order[..j]) && Elements(order[..j]) <= Elements(order) && order[j] in Elements(order)
    ensures Bytes(Elements(order[..j])) == Sum(order[..j], Size) && |Elements(order[..j])| == j
  {
    BytesOfElements(order[..j]);
  }

  /** A larger archive that goes after a smaller one could have taken its place. */
  lemma LargerLaterMisses(left: set<Archive>, i: nat, j: nat) returns (need: int)
    requires DistinctIds(left) && i < j < |Order(left)| && Order(left)[i].sizeBytes < Order(left)[j].sizeBytes
    ensures Greedy(left, need).Some? && !IsMinimum(left, need)
  {
    hide Greedy, Order, Evictable, Sum, Bytes, Distinct, DistinctIds;
    var order := Order(left);
    need := Sum(order[..j], Size) + 1;
    OneByteMore(left, j);
    OrderIsEvictable(left);
    EarlierOnes(order, j);
    var taken := Elements(order[..j]);
    assert order[..j][i] == order[i];
    Swapped(taken, order[i], order[j]);
    hide Elements;
    var others := taken - {order[i]} + {order[j]};
    hide IsMinimum;
    FewerWouldDo(left, need, others);
  }

  lemma FewerWouldDo(left: set<Archive>, need: int, some: set<Archive>)
    requires DistinctIds(left) && Greedy(left, need).Some?
    requires some <= Evictable(left) && Bytes(some) >= need && |some| < |Greedy(left, need).value|
    ensures !IsMinimum(left, need)
  {
    hide Greedy, Bytes;
  }

  /** The evictions are a minimum whatever is needed exactly when the rule's order takes larger archives first. */
  lemma AlwaysMinimumExactly(left: set<Archive>)
    requires DistinctIds(left)
    ensures (forall need :: Greedy(left, need).Some? ==> IsMinimum(left, need)) <==> LargestFirst(Order(left))
  {
    hide Greedy, Order, IsMinimum;
    if LargestFirst(Order(left)) {
      forall need | Greedy(left, need).Some? ensures IsMinimum(left, need) { LargestFirstIsMinimum(left, need); }
    } else {
      var order := Order(left);
      var i, j :| 0 <= i < j < |order| && order[i].sizeBytes < order[j].sizeBytes;
      var need := LargerLaterMisses(left, i, j);
    }
  }

  /** The documented minimum is not reached on this input: the larger archive alone would do. */
  lemma NotAMinimumSet()
    ensures var small, large := Archive(1, "a", 1, 0, true), Archive(2, "b", 10, 5, true);
      && DistinctIds({small, large})
      && Greedy({small, large}, 5) == Some([small, large])
      && !IsMinimum({small, large}, 5)
  {
    var small, large := Archive(1, "a", 1, 0, true), Archive(2, "b", 10, 5, true);
    var left := {small, large};
    TwoInOrder(small, large);
    assert Bytes({large}) == 10 by { BytesWithout({large}, large); }
    hide Greedy;
    assert {large} <= Evictable(left);
  }

  lemma TwoInOrder(small: Archive, large: Archive)
    requires small == Archive(1, "a", 1, 0, true) && large == Archive(2, "b", 10, 5, true)
    ensures DistinctIds({small, large}) && Greedy({small, large}, 5) == Some([small, large])
  {
    var left := {small, large};
    assert OfInstall(left, "a") == {small} && OfInstall(left, "b") == {large};
    assert IsVictim(left, small) && IsVictim({large}, large);
    VictimUnique(left, small);
    VictimUnique({large}, large);
    hide IsVictim, OfInstall;
    assert left - {small} == {large};
    assert Greedy({large} - {large}, 4 - large.sizeBytes) == Some([]);
    assert [large] + [] == [large] && [small] + [large] == [small, large];
    assert Greedy({large}, 4) == Some([large]);
  }
}
