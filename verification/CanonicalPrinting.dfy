/** How canonical text looks, unit by unit: numbers, strings, and a sample of each structure. */
module CanonicalPrinting {
  import opened Options
  import opened CanonicalJson
  import opened CanonicalOrder

  // ------------------------------------------------------------------ numbers

  lemma {:induction false} NaturalPrinted(n: nat)
    ensures AreDigits(PrintNat(n)) && Spelled(PrintNat(n)) == n
    ensures n > 0 ==> PrintNat(n)[0] != 48
    ensures n < 10 ==> |PrintNat(n)| == 1
  {
    var t := PrintNat(n);
    if n < 10 {
      assert t[..0] == [];
    } else {
      NaturalPrinted(n / 10);
      assert t[..|t| - 1] == PrintNat(n / 10);
    }
  }

  /** An integer is printed as its decimal digits without a leading zero, after a minus if it is negative. */
  lemma NumberPrinted(n: int)
    ensures CanonicalText(Num(n)).Ok?
    ensures var t := CanonicalText(Num(n)).value;
      var digits := if n < 0 then t[1..] else t;
      && t != [] && (n < 0 ==> t[0] == 45)
      && AreDigits(digits) && (|digits| > 1 ==> digits[0] != 48)
      && Spelled(digits) == if n < 0 then -n else n
  {
    var m := if n < 0 then -n else n;
    NaturalPrinted(m);
    assert ([MINUS] + PrintNat(m))[1..] == PrintNat(m);
    hide PrintNat, Spelled;
  }

  // ------------------------------------------------------------------ strings

  /** Printed as it is: not a control character, a quote, a backslash or half of a surrogate pair. */
  predicate IsPlain(c: Unit) { c >= 32 && c != 34 && c != 92 && !(0xD800 <= c <= 0xDFFF) }

  lemma {:induction false} PlainEscape(s: Text)
    requires forall i :: 0 <= i < |s| ==> IsPlain(s[i])
    ensures Escape(s) == s
  {
    if s != [] {
      PlainEscape(s[1..]);
      assert IsPlain(s[0]) && s == [s[0]] + s[1..];
    }
  }

  lemma PlainPrinted(s: Text)
    requires forall i :: 0 <= i < |s| ==> IsPlain(s[i])
    ensures CanonicalText(Str(s)) == Ok([34] + s + [34])
  {
    PlainEscape(s);
  }

  function HexUnit(d: int): Unit
    requires 0 <= d < 16
  {
    match d
    case 0 => 48 case 1 => 49 case 2 => 50 case 3 => 51 case 4 => 52 case 5 => 53 case 6 => 54 case 7 => 55
    case 8 => 56 case 9 => 57 case 10 => 97 case 11 => 98 case 12 => 99 case 13 => 100 case 14 => 101 case 15 => 102
  }

  /** The others by the short escapes of section 7 of RFC 8259 where there is one, else by four lower-case digits. */
  lemma UnitPrinted(c: Unit)
    requires !IsPlain(c)
    ensures CanonicalText(Str([c])) == Ok([34] + (
      if c == 34 then [92, 34] else if c == 92 then [92, 92]
      else if c == 8 then [92, 98] else if c == 9 then [92, 116] else if c == 10 then [92, 110]
      else if c == 12 then [92, 102] else if c == 13 then [92, 114]
      else [92, 117, HexUnit(c / 4096), HexUnit(c / 256 % 16), HexUnit(c / 16 % 16), HexUnit(c % 16)]) + [34])
  {
    assert [c][1..] == [] && Escape([]) == [];
    assert Escape([c]) == EscapeUnit(c) + [] == EscapeUnit(c);
    HexDigits(c / 4096);
    HexDigits(c / 256 % 16);
    HexDigits(c / 16 % 16);
    HexDigits(c % 16);
    hide HexDigit, HexUnit, Escape;
  }

  lemma HexDigits(d: int)
    requires 0 <= d < 16
    ensures HexDigit(d) == HexUnit(d)
  {
  }

  // ------------------------------------------------------------------ a sample of each structure

  /** null, true, false, 0 and -12 as section 3 of RFC 8259 writes them. */
  lemma SampleScalars()
    ensures CanonicalText(Null) == Ok([110, 117, 108, 108])
    ensures CanonicalText(Bool(true)) == Ok([116, 114, 117, 101])
    ensures CanonicalText(Bool(false)) == Ok([102, 97, 108, 115, 101])
    ensures CanonicalText(Num(0)) == Ok([48]) && CanonicalText(Num(-12)) == Ok([45, 49, 50])
  {
    assert PrintNat(1) == [49] && PrintNat(12) == [49, 50];
    assert [MINUS] + [49, 50] == [45, 49, 50];
  }

  /** [true,0] keeps its order. */
  lemma SampleArray()
    ensures CanonicalText(Arr([Bool(true), Num(0)])) == Ok([91, 116, 114, 117, 101, 44, 48, 93])
  {
    var items := [Bool(true), Num(0)];
    assert items[1..] == [Num(0)];
    assert CanonItems(items) == items;
    assert PrintItems([Num(0)]) == [48];
    assert PrintItems(items) == TRUE_TEXT + [COMMA] + [48] == [116, 114, 117, 101, 44, 48];
    assert [OPEN_BRACKET] + [116, 114, 117, 101, 44, 48] + [CLOSE_BRACKET] == [91, 116, 114, 117, 101, 44, 48, 93];
  }

  lemma SampleMember(m: Member)
    requires m == Member([98], Null) || m == Member([97], Num(0))
    ensures PrintMember(m) == [34, m.key[0], 34, 58] + if m.value == Null then [110, 117, 108, 108] else [48]
    ensures PrintMembers([m]) == PrintMember(m)
  {
    assert m.key[1..] == [] && Escape([]) == [] && Escape(m.key) == m.key + [];
    assert [QUOTE] + m.key + [QUOTE] == [34, m.key[0], 34];
    assert [34, m.key[0], 34] + [COLON] == [34, m.key[0], 34, 58];
  }

  lemma SampleMembers(b: Member, a: Member)
    requires b == Member([98], Null) && a == Member([97], Num(0))
    ensures PrintMembers([a, b]) == [34, 97, 34, 58, 48, 44, 34, 98, 34, 58, 110, 117, 108, 108]
  {
    SampleMember(a);
    SampleMember(b);
    assert [a, b][1..] == [b];
    hide PrintMember;
  }

  /** {"b":null,"a":0} is printed as {"a":0,"b":null}. */
  lemma SampleObject()
    ensures CanonicalText(Obj([Member([98], Null), Member([97], Num(0))]))
      == Ok([123, 34, 97, 34, 58, 48, 44, 34, 98, 34, 58, 110, 117, 108, 108, 125])
  {
    var b, a := Member([98], Null), Member([97], Num(0));
    SampleArrangement(b, a);
    SampleMembers(b, a);
    var printed := [34, 97, 34, 58, 48, 44, 34, 98, 34, 58, 110, 117, 108, 108];
    assert [OPEN_BRACE] + printed + [CLOSE_BRACE]
      == [123, 34, 97, 34, 58, 48, 44, 34, 98, 34, 58, 110, 117, 108, 108, 125];
    hide PrintMembers, Canon;
  }

  lemma SampleArrangement(b: Member, a: Member)
    requires b == Member([98], Null) && a == Member([97], Num(0))
    ensures Canon(Obj([b, a])) == Obj([a, b])
  {
    assert CanonMembers([b, a]) == [b, a];
    assert [b, a][1..] == [a] && [a][1..] == [];
    assert KeyBefore(a.key, b.key) by {
      assert 97 in a.key && !IsDigit(97) && 98 in b.key && !IsDigit(98);
    }
    assert Arrange([]) == [] && InsertMember(a, []) == [a];
    assert Arrange([a]) == InsertMember(a, Arrange([]));
    assert Arrange([b, a]) == InsertMember(b, [a]);
    assert InsertMember(b, [a]) == [a] + InsertMember(b, []);
  }
}
