/** JavaScript numbers read from decimal digits: integers rounded to 53 significant bits, half to even. */
module Numbers {
  import opened Powers

  datatype Double = Finite(n: nat) | Infinite

  /** 2^53: below it every integer is its own number. */
  const EXACT := 9007199254740992

  /** A double is at most 53 bits followed by this many zeros. */
  const SPARE_BITS := 971

  /** How many bits of n do not fit in 53. */
  function ExtraBits(n: nat): nat {
    if n < EXACT then 0 else 1 + ExtraBits(n / 2)
  }

  /** n rounded to a multiple of 2^e, to the even multiple on a tie. */
  function RoundTo(n: nat, e: nat): nat {
    var unit := Power2(e);
    var q, r := n / unit, n % unit;
    if 2 * r > unit || (2 * r == unit && q % 2 == 1) then (q + 1) * unit else q * unit
  }

  function Rounded(n: nat): nat { RoundTo(n, ExtraBits(n)) }

  function Number(n: nat): Double {
    if ExtraBits(Rounded(n)) <= SPARE_BITS then Finite(Rounded(n)) else Infinite
  }

  predicate Less(x: Double, y: Double) {
    x.Finite? && (y.Infinite? || x.n < y.n)
  }

  // ------------------------------------------------------------------ rounding

  lemma TenMore(n: nat)
    ensures Power2(n + 10) == 1024 * Power2(n)
  {
    FiveMore(n);
    FiveMore(n + 5);
  }

  lemma FiveMore(n: nat)
    ensures Power2(n + 5) == 32 * Power2(n)
  {
    assert Power2(n + 1) == 2 * Power2(n) && Power2(n + 2) == 2 * Power2(n + 1);
    assert Power2(n + 3) == 2 * Power2(n + 2) && Power2(n + 4) == 2 * Power2(n + 3);
    assert Power2(n + 5) == 2 * Power2(n + 4);
  }

  lemma ExactPower()
    ensures Power2(53) == EXACT
  {
    assert Power2(3) == 8;
    hide Power2;
    TenMore(3);
    TenMore(13);
    TenMore(23);
    TenMore(33);
    TenMore(43);
  }

  lemma {:induction false} BitsBound(n: nat)
    ensures n < Power2(53 + ExtraBits(n))
    ensures ExtraBits(n) > 0 ==> Power2(52 + ExtraBits(n)) <= n
  {
    ExactPower();
    if n >= EXACT {
      BitsBound(n / 2);
    }
  }

  lemma {:induction false} BitsGrow(a: nat, b: nat)
    requires a <= b
    ensures ExtraBits(a) <= ExtraBits(b)
  {
    if a >= EXACT {
      BitsGrow(a / 2, b / 2);
    }
  }

  lemma Divides(n: nat, unit: nat)
    requires unit > 0
    ensures n == n / unit * unit + n % unit
  {
  }

  lemma ProductsGrow(a: int, b: int, unit: nat)
    requires a <= b
    ensures a * unit <= b * unit
  {
  }

  lemma RoundedNear(n: nat, e: nat)
    ensures n / Power2(e) * Power2(e) <= RoundTo(n, e) <= (n / Power2(e) + 1) * Power2(e)
  {
    ProductsGrow(n / Power2(e), n / Power2(e) + 1, Power2(e));
  }

  lemma RoundMonotone(a: nat, b: nat, e: nat)
    requires a <= b
    ensures RoundTo(a, e) <= RoundTo(b, e)
  {
    var unit := Power2(e);
    var p, q := a / unit, b / unit;
    Divides(a, unit);
    Divides(b, unit);
    QuotientsGrow(a, b, unit);
    RoundedNear(a, e);
    RoundedNear(b, e);
    if p < q {
      ProductsGrow(p + 1, q, unit);
    } else {
      ProductsGrow(p, p + 1, unit);
      assert a % unit <= b % unit;
    }
  }

  lemma QuotientsGrow(a: nat, b: nat, unit: nat)
    requires a <= b && unit > 0
    ensures a / unit <= b / unit
  {
    if a / unit > b / unit {
      Divides(a, unit);
      Divides(b, unit);
      ProductsGrow(b / unit + 1, a / unit, unit);
      assert false;
    }
  }

  lemma QuotientOfMultiple(k: nat, unit: nat)
    requires unit > 0
    ensures k * unit / unit == k
  {
    Divides(k * unit, unit);
    var d := k * unit / unit;
    if d < k { ProductsGrow(d + 1, k, unit); }
    if d > k { ProductsGrow(k + 1, d, unit); }
  }

  /** Rounding stays between the powers of two around the number. */
  lemma RoundedBetween(n: nat)
    ensures Rounded(n) <= Power2(53 + ExtraBits(n))
    ensures ExtraBits(n) > 0 ==> Power2(52 + ExtraBits(n)) <= Rounded(n)
  {
    var e := ExtraBits(n);
    var unit := Power2(e);
    BitsBound(n);
    PowersAdd(53, e);
    PowersAdd(52, e);
    RoundedNear(n, e);
    Divides(n, unit);
    var q := n / unit;
    if q + 1 > Power2(53) { ProductsGrow(Power2(53), q, unit); }
    ProductsGrow(q + 1, Power2(53), unit);
    if e > 0 {
      QuotientsGrow(Power2(52) * unit, n, unit);
      QuotientOfMultiple(Power2(52), unit);
      ProductsGrow(Power2(52), q, unit);
    }
  }

  /** Reading numbers never turns their order round; it can only make them equal. */
  lemma NumberMonotone(a: nat, b: nat)
    requires a <= b
    ensures Rounded(a) <= Rounded(b)
    ensures !Less(Number(b), Number(a))
  {
    hide Rounded, ExtraBits;
    RoundedMonotone(a, b);
    BitsGrow(Rounded(a), Rounded(b));
  }

  lemma RoundedMonotone(a: nat, b: nat)
    requires a <= b
    ensures Rounded(a) <= Rounded(b)
  {
    hide RoundTo, ExtraBits;
    BitsGrow(a, b);
    var e, f := ExtraBits(a), ExtraBits(b);
    if e == f {
      RoundMonotone(a, b, e);
    } else {
      RoundedBetween(a);
      RoundedBetween(b);
      PowersGrow(53 + e, 52 + f);
    }
  }

  lemma NumberExact(n: nat)
    requires n < EXACT
    ensures Number(n) == Finite(n)
  {
    assert Power2(0) == 1;
  }

  /** What rounds to 2^1024 or more, and nothing else, is Infinity. */
  lemma InfiniteExactly(n: nat, exponent: nat)
    requires exponent == 1024
    ensures Number(n).Infinite? <==> Rounded(n) >= Power2(exponent)
  {
    hide Rounded, ExtraBits, Power2;
    var r := Rounded(n);
    var e := ExtraBits(r);
    BitsBound(r);
    if e <= SPARE_BITS { PowersGrow(53 + e, exponent); } else { PowersGrow(exponent, 52 + e); }
  }

  /** So is every number from 2^1024 on. */
  lemma NumberInfinite(n: nat, exponent: nat)
    requires exponent == 1024 && n >= Power2(exponent)
    ensures Number(n) == Infinite
  {
    hide RoundTo, ExtraBits, Number;
    var e := ExtraBits(n);
    BitsBound(n);
    RoundedBetween(n);
    if 53 + e <= exponent { PowersGrow(53 + e, exponent); }
    PowersGrow(exponent, 52 + e);
    InfiniteExactly(n, exponent);
  }

  // ------------------------------------------------------------------ the nearest double

  /** A double that is a whole number: 53 bits followed by zeros. */
  ghost predicate Representable(m: nat, k: nat, zeros: nat) {
    k < EXACT && m == k * Power2(zeros)
  }

  function Distance(a: nat, b: nat): nat { if a < b then b - a else a - b }

  lemma RoundedIsMultiple(n: nat)
    ensures exists k, zeros :: Representable(Rounded(n), k, zeros)
  {
    var e := ExtraBits(n);
    var unit := Power2(e);
    var q := n / unit;
    assert Power2(e + 1) == 2 * unit;
    assert Rounded(n) == q * unit || Rounded(n) == (q + 1) * unit;
    FewEnough(n);
    hide Rounded, ExtraBits, Power2;
    if Rounded(n) == q * unit {
      assert Representable(Rounded(n), q, e);
    } else if q + 1 < EXACT {
      assert Representable(Rounded(n), q + 1, e);
    } else {
      Doubled(EXACT / 2, unit);
      assert Representable(Rounded(n), EXACT / 2, e + 1);
    }
  }

  lemma FewEnough(n: nat)
    ensures n / Power2(ExtraBits(n)) < EXACT
  {
    var unit := Power2(ExtraBits(n));
    var q := n / unit;
    BitsBound(n);
    PowersAdd(53, ExtraBits(n));
    ExactPower();
    hide ExtraBits, Power2;
    Divides(n, unit);
    if q >= EXACT { ProductsGrow(EXACT, q, unit); }
  }

  lemma Doubled(half: int, unit: int)
    ensures (2 * half) * unit == half * (2 * unit)
  {
  }

  /** No double lies strictly between the two multiples around n. */
  lemma NoneBetween(n: nat, m: nat, k: nat, zeros: nat)
    requires Representable(m, k, zeros)
    ensures var unit := Power2(ExtraBits(n)); m <= n / unit * unit || (n / unit + 1) * unit <= m
  {
    var e := ExtraBits(n);
    var unit := Power2(e);
    var q := n / unit;
    BitsBound(n);
    ExactPower();
    Divides(n, unit);
    if zeros >= e {
      PowersAdd(zeros - e, e);
      var c := k * Power2(zeros - e);
      Regroup(k, Power2(zeros - e), unit);
      if c <= q { ProductsGrow(c, q, unit); } else { ProductsGrow(q + 1, c, unit); }
    } else {
      PowersAdd(53, zeros);
      PowersGrow(53 + zeros, 52 + e);
      ProductsGrow(k, EXACT, Power2(zeros));
      LeadingMultiple(n);
    }
  }

  lemma Regroup(a: int, b: int, c: int)
    ensures (a * b) * c == a * (b * c)
  {
  }

  /** The leading power of two is itself a multiple, so it is not above the one below n. */
  lemma LeadingMultiple(n: nat)
    requires ExtraBits(n) > 0
    ensures var unit := Power2(ExtraBits(n)); Power2(52 + ExtraBits(n)) <= n / unit * unit
  {
    var e := ExtraBits(n);
    var unit := Power2(e);
    BitsBound(n);
    PowersAdd(52, e);
    QuotientsGrow(Power2(52) * unit, n, unit);
    QuotientOfMultiple(Power2(52), unit);
    ProductsGrow(Power2(52), n / unit, unit);
  }

  /** The multiple of its unit at or below n, and what n has above it. */
  function Unit(n: nat): nat { Power2(ExtraBits(n)) }

  function Lower(n: nat): nat { n / Unit(n) * Unit(n) }

  function Above(n: nat): nat { n % Unit(n) }

  predicate IsOdd(n: nat) { n / Unit(n) % 2 == 1 }

  lemma Neighbours(n: nat)
    ensures n == Lower(n) + Above(n) && Above(n) < Unit(n)
    ensures Rounded(n)
      == if 2 * Above(n) > Unit(n) || (2 * Above(n) == Unit(n) && IsOdd(n)) then Lower(n) + Unit(n) else Lower(n)
  {
    Divides(n, Unit(n));
    hide ExtraBits, Power2;
    assert (n / Unit(n) + 1) * Unit(n) == Lower(n) + Unit(n);
  }

  lemma NoneBetweenThem(n: nat, m: nat, k: nat, zeros: nat)
    requires Representable(m, k, zeros)
    ensures m <= Lower(n) || Lower(n) + Unit(n) <= m
  {
    NoneBetween(n, m, k, zeros);
    hide ExtraBits, Power2;
    assert (n / Unit(n) + 1) * Unit(n) == Lower(n) + Unit(n);
  }

  lemma NoneNearer(n: nat, m: nat, k: nat, zeros: nat)
    requires Representable(m, k, zeros)
    ensures Distance(n, Rounded(n)) <= Distance(n, m)
    ensures Distance(n, Rounded(n)) == Distance(n, m) && m != Rounded(n) ==> 2 * Above(n) == Unit(n)
  {
    hide Rounded, Lower, Above, Unit, IsOdd, Representable;
    Neighbours(n);
    NoneBetweenThem(n, m, k, zeros);
  }

  lemma EvenNeighbour(n: nat)
    requires 2 * Above(n) == Unit(n)
    ensures exists half :: Rounded(n) == (2 * half) * Unit(n)
  {
    hide Rounded, ExtraBits, Power2;
    Neighbours(n);
    var q := n / Unit(n);
    hide Above, Unit;
    if q % 2 == 1 {
      assert Rounded(n) == (2 * ((q + 1) / 2)) * Unit(n);
    } else {
      assert Rounded(n) == (2 * (q / 2)) * Unit(n);
    }
  }

  /**
   * Reading digits gives the nearest double: none is nearer, and if another is as near, the one read is even among
   * the multiples of its unit.
   */
  lemma RoundedIsNearest(n: nat, m: nat, k: nat, zeros: nat)
    requires Representable(m, k, zeros)
    ensures exists own, ownZeros :: Representable(Rounded(n), own, ownZeros)
    ensures Distance(n, Rounded(n)) <= Distance(n, m)
    ensures Distance(n, Rounded(n)) == Distance(n, m) && m != Rounded(n) ==>
      exists half :: Rounded(n) == (2 * half) * Unit(n)
  {
    hide Rounded, Unit, Distance, Representable;
    RoundedIsMultiple(n);
    NoneNearer(n, m, k, zeros);
    if Distance(n, Rounded(n)) == Distance(n, m) && m != Rounded(n) { EvenNeighbour(n); }
  }
}
