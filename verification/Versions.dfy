/** Release versions: three groups of decimal digits, which may have leading zeros. */
module Versions {
  import opened Powers
  import opened Numbers

  /** One group of digits: its number and how many zeros are written before it. */
  datatype Part = Part(zeros: nat, value: nat)

  datatype Version = Version(major: Part, minor: Part, patch: Part)

  predicate Canonical(v: Version) {
    v.major.zeros == 0 && v.minor.zeros == 0 && v.patch.zeros == 0
  }

  /** Every group is a number below 2^53, so reading it rounds nothing. */
  predicate Small(v: Version) {
    v.major.value < EXACT && v.minor.value < EXACT && v.patch.value < EXACT
  }

  /** The sign of a difference of two numbers; Infinity minus Infinity has none. */
  datatype Relation = Below | Same | Above | NotANumber

  function Difference(left: Double, right: Double): Relation {
    if left.Infinite? && right.Infinite? then NotANumber
    else if Less(left, right) then Below
    else if Less(right, left) then Above
    else Same
  }

  /** The first difference that is not zero; NaN is not zero. */
  function Compare(left: Version, right: Version): Relation {
    var major := Difference(Number(left.major.value), Number(right.major.value));
    var minor := Difference(Number(left.minor.value), Number(right.minor.value));
    if major != Same then major
    else if minor != Same then minor
    else Difference(Number(left.patch.value), Number(right.patch.value))
  }

  /** The order of versions as their digits say, without any rounding. */
  predicate Precedes(v: Version, w: Version) {
    || v.major.value < w.major.value
    || (v.major.value == w.major.value && v.minor.value < w.minor.value)
    || (v.major.value == w.major.value && v.minor.value == w.minor.value && v.patch.value < w.patch.value)
  }

  /** Of small versions the comparison is the order of their digits; canonical ones compare the same only if equal. */
  lemma CompareIsOrder(v: Version, w: Version)
    requires Small(v) && Small(w)
    ensures Compare(v, w) == Below <==> Precedes(v, w)
    ensures Compare(v, w) == Above <==> Precedes(w, v)
    ensures Compare(v, w) != NotANumber
    ensures Compare(v, w) == Same && Canonical(v) && Canonical(w) ==> v == w
  {
    hide Number;
    NumberExact(v.major.value);
    NumberExact(v.minor.value);
    NumberExact(v.patch.value);
    NumberExact(w.major.value);
    NumberExact(w.minor.value);
    NumberExact(w.patch.value);
  }

  // ------------------------------------------------------------------ what the rollback guard catches

  /** Reading this number does not give the same as reading the one before it. */
  predicate Distinguished(n: nat) {
    n == 0 || Number(n - 1) != Number(n)
  }

  /** No smaller part is read as equal, and no part is compared after two that are both Infinity. */
  predicate Guarded(f: Version) {
    && Distinguished(f.major.value) && Distinguished(f.minor.value) && Distinguished(f.patch.value)
    && (Number(f.major.value).Infinite? ==> f.minor.value == 0 && f.patch.value == 0)
    && (Number(f.minor.value).Infinite? ==> f.patch.value == 0)
  }

  lemma DistinguishedFromAll(n: nat, m: nat)
    requires Distinguished(n) && m < n
    ensures Less(Number(m), Number(n))
  {
    hide Rounded;
    NumberMonotone(m, n - 1);
    NumberMonotone(n - 1, n);
    NumberMonotone(m, n);
  }

  /** A floor refuses every version before it exactly when it is guarded. */
  lemma RollbackGuardedExactly(floor: Version)
    ensures (forall v :: Precedes(v, floor) ==> Compare(v, floor) == Below) <==> Guarded(floor)
  {
    if Guarded(floor) {
      forall v | Precedes(v, floor) ensures Compare(v, floor) == Below { GuardCatches(v, floor); }
    } else {
      var v := GuardMisses(floor);
      assert Precedes(v, floor) && Compare(v, floor) != Below;
    }
  }

  lemma GuardCatches(v: Version, floor: Version)
    requires Guarded(floor) && Precedes(v, floor)
    ensures Compare(v, floor) == Below
  {
    hide Number;
    if v.major.value < floor.major.value {
      DistinguishedFromAll(floor.major.value, v.major.value);
    } else if v.minor.value < floor.minor.value {
      DistinguishedFromAll(floor.minor.value, v.minor.value);
    } else {
      DistinguishedFromAll(floor.patch.value, v.patch.value);
    }
  }

  lemma GuardMisses(floor: Version) returns (v: Version)
    requires !Guarded(floor)
    ensures Precedes(v, floor) && Compare(v, floor) != Below && Compare(floor, v) != Below
  {
    hide Number;
    var f := floor;
    v := if !Distinguished(f.major.value) then f.(major := Part(0, f.major.value - 1))
         else if !Distinguished(f.minor.value) then f.(minor := Part(0, f.minor.value - 1))
         else if !Distinguished(f.patch.value) then f.(patch := Part(0, f.patch.value - 1))
         else if Number(f.major.value).Infinite? && f.minor.value > 0 then f.(minor := Part(0, 0))
         else f.(patch := Part(0, 0));
  }

  lemma SmallIsGuarded(floor: Version)
    requires Small(floor)
    ensures Guarded(floor)
  {
    hide Number;
    SmallIsDistinguished(floor.major.value);
    SmallIsDistinguished(floor.minor.value);
    SmallIsDistinguished(floor.patch.value);
  }

  lemma SmallIsDistinguished(n: nat)
    requires n < EXACT
    ensures Distinguished(n) && Number(n).Finite?
  {
    hide Number;
    NumberExact(n);
    if n > 0 { NumberExact(n - 1); }
  }

  /** 2^53 + 1 is read as 2^53. */
  lemma FirstRounded()
    ensures Number(EXACT) == Number(EXACT + 1) == Finite(EXACT)
  {
    assert ExtraBits(EXACT) == 1 && ExtraBits(EXACT + 1) == 1;
    assert RoundTo(EXACT, 1) == EXACT && RoundTo(EXACT + 1, 1) == EXACT by { assert Power2(1) == 2; }
  }
}
