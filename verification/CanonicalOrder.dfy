/**
 * The order of keys in canonical text, in terms of code units and numbers alone: array indexes first, by the number
 * they spell, then the other keys as a dictionary has them.
 */
module CanonicalOrder {
  import opened CanonicalJson
  import opened JsonCanonicalForm

  /** A proper prefix, or smaller at the first place where they differ. */
  ghost predicate UnitsBefore(a: Text, b: Text) {
    a < b || exists k :: 0 <= k < |a| && k < |b| && a[..k] == b[..k] && a[k] < b[k]
  }

  /** The number that decimal digits spell. */
  function Spelled(digits: Text): int {
    if digits == [] then 0 else 10 * Spelled(digits[..|digits| - 1]) + (digits[|digits| - 1] as int - 48)
  }

  predicate AreDigits(key: Text) {
    key != [] && forall i :: 0 <= i < |key| ==> 48 <= key[i] <= 57
  }

  /** An array index of JavaScript: a number below 2^32 - 1 spelled without leading zeros. */
  predicate SpellsIndex(key: Text) {
    AreDigits(key) && (key[0] == 48 ==> |key| == 1) && Spelled(key) < 4_294_967_295
  }

  // ------------------------------------------------------------------ code units

  lemma {:induction false} LexExactly(a: Text, b: Text)
    ensures LexLess(a, b) <==> UnitsBefore(a, b)
  {
    if a == [] || b == [] {
    } else {
      LexExactly(a[1..], b[1..]);
      if a[0] == b[0] {
        LaterUnits(a, b);
      } else {
        DifferentHeads(a, b);
      }
    }
  }

  lemma LaterUnits(a: Text, b: Text)
    requires a != [] && b != [] && a[0] == b[0]
    ensures UnitsBefore(a, b) <==> UnitsBefore(a[1..], b[1..])
  {
    assert a < b <==> a[1..] < b[1..] by { PrefixTails(a, b); }
    if k :| 0 <= k < |a| && k < |b| && a[..k] == b[..k] && a[k] < b[k] {
      assert k > 0 && a[1..][..k - 1] == a[..k][1..] && b[1..][..k - 1] == b[..k][1..];
      assert a[1..][k - 1] == a[k] && b[1..][k - 1] == b[k];
    }
    if k :| 0 <= k < |a[1..]| && k < |b[1..]| && a[1..][..k] == b[1..][..k] && a[1..][k] < b[1..][k] {
      assert a[..k + 1] == [a[0]] + a[1..][..k] && b[..k + 1] == [b[0]] + b[1..][..k];
      assert a[k + 1] < b[k + 1];
    }
  }

  lemma PrefixTails(a: Text, b: Text)
    requires a != [] && b != [] && a[0] == b[0]
    ensures a < b <==> a[1..] < b[1..]
  {
    assert a == [a[0]] + a[1..] && b == [b[0]] + b[1..];
    if a < b { assert a[1..] == b[..|a|][1..] == b[1..][..|a| - 1]; }
    if a[1..] < b[1..] { assert b[..|a|] == [b[0]] + b[1..][..|a| - 1]; }
  }

  lemma DifferentHeads(a: Text, b: Text)
    requires a != [] && b != [] && a[0] != b[0]
    ensures UnitsBefore(a, b) <==> a[0] < b[0]
  {
    if a[0] < b[0] { assert a[..0] == b[..0]; }
    if k :| 0 <= k < |a| && k < |b| && a[..k] == b[..k] && a[k] < b[k] {
      if k > 0 { assert a[..k][0] == b[..k][0]; }
    }
  }

  // ------------------------------------------------------------------ numbers

  function Power10(n: nat): (p: nat)
    ensures p > 0
  {
    if n == 0 then 1 else 10 * Power10(n - 1)
  }

  /** n digits spell a number below 10^n, and without a leading zero one of at least 10^(n-1). */
  lemma {:induction false} SpelledBounds(key: Text)
    requires AreDigits(key)
    ensures 0 <= Spelled(key) < Power10(|key|)
    ensures key[0] != 48 ==> Power10(|key| - 1) <= Spelled(key)
  {
    var n := |key| - 1;
    if n == 0 {
      assert key[..0] == [];
    } else {
      SpelledBounds(key[..n]);
    }
  }

  /** Of digits as many, the smaller number is the one that comes first digit by digit. */
  lemma {:induction false} SameLengthNumbers(a: Text, b: Text)
    requires AreDigits(a) && AreDigits(b) && |a| == |b|
    ensures Spelled(a) < Spelled(b) <==> UnitsBefore(a, b)
  {
    var n := |a| - 1;
    var p, q := a[..n], b[..n];
    assert a == p + [a[n]] && b == q + [b[n]];
    if n == 0 {
      assert p == [] && q == [];
      DifferAtLast(a, b);
    } else {
      SameLengthNumbers(p, q);
      DifferAtLast(a, b);
      NumbersAgree(p, q);
    }
  }

  lemma {:induction false} NumbersAgree(a: Text, b: Text)
    requires AreDigits(a) && AreDigits(b) && |a| == |b|
    ensures Spelled(a) == Spelled(b) <==> a == b
  {
    var n := |a| - 1;
    assert a == a[..n] + [a[n]] && b == b[..n] + [b[n]];
    if n > 0 {
      NumbersAgree(a[..n], b[..n]);
    } else {
      assert a[..n] == [] && b[..n] == [];
    }
  }

  /** Texts of one length differ first before their last unit, or only there. */
  lemma DifferAtLast(a: Text, b: Text)
    requires |a| == |b| > 0
    ensures var n := |a| - 1;
      UnitsBefore(a, b) <==> UnitsBefore(a[..n], b[..n]) || (a[..n] == b[..n] && a[n] < b[n])
  {
    var n := |a| - 1;
    if k :| 0 <= k < |a| && k < |b| && a[..k] == b[..k] && a[k] < b[k] {
      if k < n { assert a[..n][..k] == a[..k] && b[..n][..k] == b[..k] && a[..n][k] == a[k] && b[..n][k] == b[k]; }
    }
    if k :| 0 <= k < n && a[..n][..k] == b[..n][..k] && a[..n][k] < b[..n][k] {
      assert a[..k] == a[..n][..k] && b[..k] == b[..n][..k];
    }
  }

  lemma {:induction false} PowersOfTen(m: nat, n: nat)
    requires m <= n
    ensures Power10(m) <= Power10(n)
  {
    if m < n { PowersOfTen(m, n - 1); }
  }

  /** Without leading zeros, fewer digits spell a smaller number. */
  lemma ShorterIsSmaller(a: Text, b: Text)
    requires AreDigits(a) && AreDigits(b) && (b[0] == 48 ==> |b| == 1) && |a| < |b|
    ensures Spelled(a) < Spelled(b)
  {
    SpelledBounds(a);
    SpelledBounds(b);
    PowersOfTen(|a|, |b| - 1);
  }

  lemma LargestIndex()
    ensures AreDigits(MAXIMUM_INDEX) && |MAXIMUM_INDEX| == 10 && Spelled(MAXIMUM_INDEX) == 4_294_967_295
  {
    var t := MAXIMUM_INDEX;
    assert Spelled(t[..0]) == 0;
    forall i | 0 <= i < 10 ensures Spelled(t[..i + 1]) == 10 * Spelled(t[..i]) + (t[i] as int - 48) {
      assert t[..i + 1][..i] == t[..i];
    }
    assert t[..10] == t;
    hide Spelled;
    assert Spelled(t[..1]) == 4 && Spelled(t[..2]) == 42 && Spelled(t[..3]) == 429 && Spelled(t[..4]) == 4294;
    assert Spelled(t[..5]) == 42949 && Spelled(t[..6]) == 429496 && Spelled(t[..7]) == 4294967;
    assert Spelled(t[..8]) == 42949672 && Spelled(t[..9]) == 429496729;
  }

  lemma IndexExactly(key: Text)
    ensures IsIndex(key) <==> SpellsIndex(key)
  {
    if AreDigits(key) && (key[0] == 48 ==> |key| == 1) {
      LargestIndex();
      LexExactly(key, MAXIMUM_INDEX);
      hide Spelled, LexLess, UnitsBefore;
      if |key| < 10 {
        ShorterIsSmaller(key, MAXIMUM_INDEX);
      } else if |key| > 10 {
        ShorterIsSmaller(MAXIMUM_INDEX, key);
      } else {
        SameLengthNumbers(key, MAXIMUM_INDEX);
      }
    }
    assert key != [] ==> ((forall c :: c in key ==> IsDigit(c)) <==> AreDigits(key)) by {
      if AreDigits(key) { forall c | c in key ensures IsDigit(c) {} }
      if forall c :: c in key ==> IsDigit(c) {
        forall i | 0 <= i < |key| ensures 48 <= key[i] <= 57 { assert key[i] in key; }
      }
    }
    hide Spelled, LexLess;
  }

  // ------------------------------------------------------------------ the order of keys

  ghost predicate ComesBefore(a: Text, b: Text) {
    if SpellsIndex(a) && SpellsIndex(b) then Spelled(a) < Spelled(b)
    else if SpellsIndex(a) || SpellsIndex(b) then SpellsIndex(a)
    else UnitsBefore(a, b)
  }

  lemma KeyBeforeExactly(a: Text, b: Text)
    ensures KeyBefore(a, b) <==> ComesBefore(a, b)
  {
    hide Spelled, LexLess, UnitsBefore, IsIndex;
    IndexExactly(a);
    IndexExactly(b);
    LexExactly(a, b);
    if SpellsIndex(a) && SpellsIndex(b) {
      if |a| < |b| {
        ShorterIsSmaller(a, b);
      } else if |b| < |a| {
        ShorterIsSmaller(b, a);
      } else {
        SameLengthNumbers(a, b);
      }
    }
  }

  /**
   * Canonical members are those of the object with canonical values, array indexes first by the number they spell,
   * then the other keys as code units compare.
   */
  lemma CanonicalMembers(members: seq<Member>)
    requires DistinctKeys(members)
    ensures var canonical := Canon(Obj(members));
      && canonical.Obj? && |canonical.members| == |members|
      && (forall m :: m in canonical.members <==>
            exists i :: 0 <= i < |members| && m == Member(members[i].key, Canon(members[i].value)))
      && (forall i, j :: 0 <= i < j < |members| ==>
            ComesBefore(canonical.members[i].key, canonical.members[j].key))
  {
    hide ComesBefore, KeyBefore;
    var ms := CanonMembers(members);
    ArrangeInOrder(ms);
    var arranged := Arrange(ms);
    forall i, j | 0 <= i < j < |arranged| ensures ComesBefore(arranged[i].key, arranged[j].key) {
      KeyBeforeExactly(arranged[i].key, arranged[j].key);
    }
    forall m ensures m in arranged
      <==> exists i :: 0 <= i < |members| && m == Member(members[i].key, Canon(members[i].value))
    {
      assert m in arranged <==> m in ms;
    }
  }
}
