/** ASCII letters and digits. */
module Ascii {
  import opened CanonicalJson

  function LowerUnit(u: Unit): Unit {
    if 65 <= u <= 90 then u + 32 else u
  }

  function Lower(t: Text): (r: Text)
    ensures |r| == |t|
    ensures forall i :: 0 <= i < |t| ==> r[i] == LowerUnit(t[i])
  {
    seq(|t|, i requires 0 <= i < |t| => LowerUnit(t[i]))
  }

  predicate IsLowerHex(u: Unit) { 48 <= u <= 57 || 97 <= u <= 102 }

  /** A hexadecimal digit in either case. */
  predicate IsHex(u: Unit) { IsLowerHex(LowerUnit(u)) }
}
