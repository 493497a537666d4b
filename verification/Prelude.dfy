/** Small shared vocabulary: optional values, results, and facts about sequences. */
module Options {
  datatype Option<+T> = None | Some(value: T)
  datatype Result<+T, +E> = Ok(value: T) | Err(error: E)
}

module Sequences {
  /** The elements of xs that satisfy keep, in order. */
  function Filter<T(!new)>(xs: seq<T>, keep: T -> bool): (ys: seq<T>)
    ensures |ys| <= |xs|
    ensures forall y :: y in ys <==> y in xs && keep(y)
  {
    if xs == [] then []
    else if keep(xs[0]) then [xs[0]] + Filter(xs[1..], keep)
    else Filter(xs[1..], keep)
  }

  function Map<T, U>(xs: seq<T>, f: T -> U): (ys: seq<U>)
    ensures |ys| == |xs|
    ensures forall i :: 0 <= i < |xs| ==> ys[i] == f(xs[i])
  {
    seq(|xs|, i requires 0 <= i < |xs| => f(xs[i]))
  }

  /** The sum of a natural weight over the elements of xs. */
  function Sum<T>(xs: seq<T>, weight: T -> nat): nat {
    if xs == [] then 0 else weight(xs[0]) + Sum(xs[1..], weight)
  }

  ghost predicate Distinct<T>(xs: seq<T>) {
    forall i, j :: 0 <= i < j < |xs| ==> xs[i] != xs[j]
  }

  ghost function Elements<T>(xs: seq<T>): set<T> {
    set x | x in xs
  }

  lemma {:induction false} FilterKeepsDistinct<T(!new)>(xs: seq<T>, keep: T -> bool)
    requires Distinct(xs)
    ensures Distinct(Filter(xs, keep))
  {
    if xs != [] {
      FilterKeepsDistinct(xs[1..], keep);
      assert forall y :: y in xs[1..] ==> y != xs[0];
    }
  }

  /** No two elements share a key. */
  ghost predicate DistinctBy<T, K>(xs: seq<T>, key: T -> K) {
    forall i, j :: 0 <= i < j < |xs| ==> key(xs[i]) != key(xs[j])
  }

  lemma {:induction false} FilterKeepsDistinctBy<T(!new), K>(xs: seq<T>, keep: T -> bool, key: T -> K)
    requires DistinctBy(xs, key)
    ensures DistinctBy(Filter(xs, keep), key)
  {
    if xs != [] {
      FilterKeepsDistinctBy(xs[1..], keep, key);
      assert forall y :: y in xs[1..] ==> key(y) != key(xs[0]);
    }
  }

  lemma {:induction false} DistinctByCount<T, K>(xs: seq<T>, key: T -> K, keys: set<K>)
    requires DistinctBy(xs, key)
    requires forall x :: x in xs ==> key(x) in keys
    ensures |xs| <= |keys|
  {
    if xs != [] {
      assert forall y :: y in xs[1..] ==> key(y) != key(xs[0]);
      assert xs[0] in xs;
      DistinctByCount(xs[1..], key, keys - {key(xs[0])});
    }
  }

  lemma {:induction false} FilterStronger<T(!new)>(xs: seq<T>, strong: T -> bool, weak: T -> bool)
    requires forall x :: strong(x) ==> weak(x)
    ensures |Filter(xs, strong)| <= |Filter(xs, weak)|
  {
    if xs != [] {
      FilterStronger(xs[1..], strong, weak);
    }
  }

  lemma {:induction false} SumAppend<T>(xs: seq<T>, ys: seq<T>, weight: T -> nat)
    ensures Sum(xs + ys, weight) == Sum(xs, weight) + Sum(ys, weight)
  {
    if xs == [] {
      assert xs + ys == ys;
    } else {
      assert (xs + ys)[1..] == xs[1..] + ys;
      SumAppend(xs[1..], ys, weight);
    }
  }

  /** Where a sequence of calls leads, one after the other. */
  function FoldLeft<W, C>(w: W, calls: seq<C>, next: (W, C) -> W): W
    decreases |calls|
  {
    if calls == [] then w else FoldLeft(next(w, calls[0]), calls[1..], next)
  }

  /** What every call keeps, any sequence of calls keeps. */
  lemma {:induction false} FoldKeeps<W(!new), C(!new)>(w: W, calls: seq<C>, next: (W, C) -> W, keeps: W -> bool)
    requires keeps(w) && forall v, call :: keeps(v) ==> keeps(next(v, call))
    ensures keeps(FoldLeft(w, calls, next))
    decreases |calls|
  {
    if calls != [] {
      FoldKeeps(next(w, calls[0]), calls[1..], next, keeps);
    }
  }

  lemma SumLast<T>(xs: seq<T>, weight: T -> nat)
    requires xs != []
    ensures Sum(xs, weight) == Sum(xs[..|xs| - 1], weight) + weight(xs[|xs| - 1])
  {
    var n := |xs| - 1;
    assert xs == xs[..n] + [xs[n]];
    SumAppend(xs[..n], [xs[n]], weight);
    SumCons(xs[n], [], weight);
    assert [xs[n]] + [] == [xs[n]];
  }

  lemma SumCons<T>(x: T, xs: seq<T>, weight: T -> nat)
    ensures Sum([x] + xs, weight) == weight(x) + Sum(xs, weight)
  {
    assert ([x] + xs)[1..] == xs;
  }

  /** Taking one occurrence of x out of a sequence takes its weight out of the sum. */
  lemma SumRemove<T>(xs: seq<T>, i: nat, weight: T -> nat)
    requires i < |xs|
    ensures Sum(xs, weight) == weight(xs[i]) + Sum(xs[..i] + xs[i + 1..], weight)
  {
    hide Sum;
    var front, back := xs[..i], xs[i + 1..];
    assert xs == front + ([xs[i]] + back);
    SumAppend(front, [xs[i]] + back, weight);
    SumCons(xs[i], back, weight);
    SumAppend(front, back, weight);
  }

  /** A sum does not depend on the order of its terms. */
  lemma {:induction false} SumPermutation<T>(xs: seq<T>, ys: seq<T>, weight: T -> nat)
    requires multiset(xs) == multiset(ys)
    ensures Sum(xs, weight) == Sum(ys, weight)
    decreases |xs|
  {
    if xs == [] {
      assert multiset(ys) == multiset{};
      assert |multiset(ys)| == |ys|;
    } else {
      var x := xs[0];
      assert x in multiset(xs);
      assert x in ys;
      var i :| 0 <= i < |ys| && ys[i] == x;
      var rest := ys[..i] + ys[i + 1..];
      assert ys == ys[..i] + [x] + ys[i + 1..];
      assert xs == [x] + xs[1..];
      assert multiset(rest) == multiset(ys) - multiset{x};
      assert multiset(xs[1..]) == multiset(xs) - multiset{x};
      SumRemove(ys, i, weight);
      SumPermutation(xs[1..], rest, weight);
    }
  }

  lemma {:induction false} DistinctCount<T>(xs: seq<T>, x: T)
    requires Distinct(xs)
    ensures multiset(xs)[x] == if x in xs then 1 else 0
  {
    if xs != [] {
      assert xs == [xs[0]] + xs[1..];
      assert forall i, j :: 0 <= i < j < |xs[1..]| ==> xs[1..][i] == xs[i + 1] && xs[1..][j] == xs[j + 1];
      DistinctCount(xs[1..], x);
      assert xs[0] !in xs[1..];
    }
  }

  lemma {:induction false} SumMonotone<T>(xs: seq<T>, ys: seq<T>, v: T -> nat, w: T -> nat)
    requires |xs| == |ys|
    requires forall i :: 0 <= i < |xs| ==> v(xs[i]) <= w(ys[i])
    ensures Sum(xs, v) <= Sum(ys, w)
  {
    if xs != [] {
      assert v(xs[0]) <= w(ys[0]);
      forall i | 0 <= i < |xs[1..]| ensures v(xs[1..][i]) <= w(ys[1..][i]) {
        assert v(xs[i + 1]) <= w(ys[i + 1]);
      }
      SumMonotone(xs[1..], ys[1..], v, w);
    }
  }

  /** Sums that agree everywhere but at one place differ by what they have there. */
  lemma SumChangedAt<T>(xs: seq<T>, ys: seq<T>, i: nat, v: T -> nat, w: T -> nat)
    requires |xs| == |ys| && i < |xs|
    requires forall k :: 0 <= k < |xs| && k != i ==> v(xs[k]) == w(ys[k])
    ensures Sum(xs, v) + w(ys[i]) == Sum(ys, w) + v(xs[i])
  {
    SumRemove(xs, i, v);
    SumRemove(ys, i, w);
    var xs', ys' := xs[..i] + xs[i + 1..], ys[..i] + ys[i + 1..];
    forall k | 0 <= k < |xs'| ensures v(xs'[k]) == w(ys'[k]) {
      var j := if k < i then k else k + 1;
      assert xs'[k] == xs[j] && ys'[k] == ys[j];
    }
    SumMonotone(xs', ys', v, w);
    SumMonotone(ys', xs', w, v);
  }
}

/** The stable sort that Array.prototype.sort performs, on pairs of numbers as keys. */
module Sorting {
  import opened Sequences

  type Key = (int, int)

  predicate KeyLess(a: Key, b: Key) {
    a.0 < b.0 || (a.0 == b.0 && a.1 < b.1)
  }

  function Insert<T>(x: T, xs: seq<T>, key: T -> Key): (ys: seq<T>)
    ensures multiset(ys) == multiset(xs) + multiset{x}
  {
    if xs == [] then [x]
    else if KeyLess(key(xs[0]), key(x)) then
      assert xs == [xs[0]] + xs[1..];
      [xs[0]] + Insert(x, xs[1..], key)
    else [x] + xs
  }

  /** Equal keys keep their order: an element is inserted before the later ones it ties with. */
  function StableSort<T>(xs: seq<T>, key: T -> Key): (ys: seq<T>)
    ensures multiset(ys) == multiset(xs)
  {
    if xs == [] then []
    else
      assert xs == [xs[0]] + xs[1..];
      Insert(xs[0], StableSort(xs[1..], key), key)
  }

  ghost predicate SortedByKey<T>(xs: seq<T>, key: T -> Key) {
    forall i, j :: 0 <= i < j < |xs| ==> !KeyLess(key(xs[j]), key(xs[i]))
  }

  lemma {:induction false} InsertSorted<T>(x: T, xs: seq<T>, key: T -> Key)
    requires SortedByKey(xs, key)
    ensures SortedByKey(Insert(x, xs, key), key)
  {
    if xs != [] && KeyLess(key(xs[0]), key(x)) {
      var rest := Insert(x, xs[1..], key);
      InsertSorted(x, xs[1..], key);
      forall y | y in rest ensures !KeyLess(key(y), key(xs[0])) {
        assert y in multiset(rest);
        assert y in multiset(xs[1..]) || y == x;
        if y in xs[1..] {
          var j :| 0 <= j < |xs[1..]| && xs[1..][j] == y;
          assert xs[j + 1] == y;
        }
      }
    }
  }

  lemma {:induction false} StableSortSorted<T>(xs: seq<T>, key: T -> Key)
    ensures SortedByKey(StableSort(xs, key), key)
  {
    if xs != [] {
      StableSortSorted(xs[1..], key);
      InsertSorted(xs[0], StableSort(xs[1..], key), key);
    }
  }

  /** a is listed before b. */
  ghost predicate ListedBefore<T>(xs: seq<T>, a: T, b: T) {
    exists i, j :: 0 <= i < j < |xs| && xs[i] == a && xs[j] == b
  }

  /** Smaller keys first, and equal ones as they were listed. */
  ghost predicate StablySorted<T(!new)>(xs: seq<T>, ys: seq<T>, key: T -> Key) {
    forall i, j :: 0 <= i < j < |ys| ==>
      KeyLess(key(ys[i]), key(ys[j])) || (key(ys[i]) == key(ys[j]) && ListedBefore(xs, ys[i], ys[j]))
  }

  lemma ListedLater<T>(xs: seq<T>, a: T, b: T)
    requires xs != [] && ListedBefore(xs[1..], a, b)
    ensures ListedBefore(xs, a, b)
  {
    var i, j :| 0 <= i < j < |xs[1..]| && xs[1..][i] == a && xs[1..][j] == b;
    assert xs[i + 1] == a && xs[j + 1] == b;
  }

  lemma ListedFirst<T>(xs: seq<T>, b: T)
    requires xs != [] && b in xs[1..]
    ensures ListedBefore(xs, xs[0], b)
  {
    var j :| 0 <= j < |xs[1..]| && xs[1..][j] == b;
    assert xs[j + 1] == b;
  }

  lemma {:induction false} InsertStable<T(!new)>(x: T, zs: seq<T>, key: T -> Key, xs: seq<T>)
    requires xs != [] && xs[0] == x && (forall z :: z in zs ==> z in xs[1..]) && StablySorted(xs[1..], zs, key)
    ensures StablySorted(xs, Insert(x, zs, key), key)
  {
    var ys := Insert(x, zs, key);
    forall a, b | ListedBefore(xs[1..], a, b) ensures ListedBefore(xs, a, b) { ListedLater(xs, a, b); }
    if zs != [] && KeyLess(key(zs[0]), key(x)) {
      InsertStable(x, zs[1..], key, xs);
      var rest := Insert(x, zs[1..], key);
      forall j | 0 <= j < |rest|
        ensures KeyLess(key(zs[0]), key(rest[j]))
          || (key(zs[0]) == key(rest[j]) && ListedBefore(xs, zs[0], rest[j]))
      {
        FromTail(x, zs, key, rest[j]);
        if rest[j] in zs[1..] { var k :| 0 <= k < |zs[1..]| && zs[1..][k] == rest[j]; assert zs[k + 1] == rest[j]; }
      }
    } else {
      forall j | 0 <= j < |zs|
        ensures KeyLess(key(x), key(zs[j])) || (key(x) == key(zs[j]) && ListedBefore(xs, x, zs[j]))
      {
        ListedFirst(xs, zs[j]);
      }
    }
  }

  lemma FromTail<T>(x: T, zs: seq<T>, key: T -> Key, y: T)
    requires zs != [] && y in Insert(x, zs[1..], key)
    ensures y == x || y in zs[1..]
  {
    assert y in multiset(Insert(x, zs[1..], key));
  }

  lemma {:induction false} StableSortStable<T(!new)>(xs: seq<T>, key: T -> Key)
    ensures StablySorted(xs, StableSort(xs, key), key)
  {
    if xs != [] {
      StableSortStable(xs[1..], key);
      SortedContents(xs[1..], key);
      InsertStable(xs[0], StableSort(xs[1..], key), key, xs);
    }
  }

  lemma {:induction false} FilterListed<T(!new)>(xs: seq<T>, keep: T -> bool, a: T, b: T)
    requires ListedBefore(Filter(xs, keep), a, b)
    ensures ListedBefore(xs, a, b)
  {
    var rest := Filter(xs[1..], keep);
    var i, j :| 0 <= i < j < |Filter(xs, keep)| && Filter(xs, keep)[i] == a && Filter(xs, keep)[j] == b;
    if keep(xs[0]) && i == 0 {
      assert b == rest[j - 1];
      ListedFirst(xs, b);
    } else {
      var shift := if keep(xs[0]) then 1 else 0;
      assert rest[i - shift] == a && rest[j - shift] == b;
      FilterListed(xs[1..], keep, a, b);
      ListedLater(xs, a, b);
    }
  }

  /** What every caller needs to know of the first elements taken from a sorted list. */
  lemma SortedContents<T>(xs: seq<T>, key: T -> Key)
    ensures |StableSort(xs, key)| == |xs|
    ensures forall x :: x in StableSort(xs, key) <==> x in xs
    ensures Distinct(xs) ==> Distinct(StableSort(xs, key))
  {
    var ys := StableSort(xs, key);
    assert |multiset(ys)| == |multiset(xs)|;
    forall x ensures x in ys <==> x in xs {
      assert x in multiset(ys) <==> x in multiset(xs);
    }
    if Distinct(xs) {
      forall i, j | 0 <= i < j < |ys| ensures ys[i] != ys[j] {
        if ys[i] == ys[j] {
          DistinctCount(xs, ys[i]);
          CountTwice(ys, i, j);
        }
      }
    }
  }

  lemma CountTwice<T>(xs: seq<T>, i: nat, j: nat)
    requires i < j < |xs| && xs[i] == xs[j]
    ensures multiset(xs)[xs[i]] >= 2
  {
    assert xs == xs[..i] + [xs[i]] + xs[i + 1..j] + [xs[j]] + xs[j + 1..];
  }
}

/** Powers of two. */
module Powers {
  function Power2(n: nat): (p: nat)
    ensures p > 0
  {
    if n == 0 then 1 else 2 * Power2(n - 1)
  }

  lemma {:induction false} PowersGrow(m: nat, n: nat)
    requires m <= n
    ensures Power2(m) <= Power2(n)
    ensures m < n ==> 2 * Power2(m) <= Power2(n)
    decreases n
  {
    if m < n {
      PowersGrow(m, n - 1);
    }
  }

  lemma {:induction false} PowersAdd(m: nat, n: nat)
    ensures Power2(m + n) == Power2(m) * Power2(n)
  {
    if m > 0 {
      PowersAdd(m - 1, n);
      Associate(Power2(m - 1), Power2(n));
    }
  }

  lemma Associate(a: int, b: int)
    ensures 2 * (a * b) == (2 * a) * b
  {
  }
}
