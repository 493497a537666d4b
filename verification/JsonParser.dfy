/** A parser for the printed form, and the proof that it undoes the printer. */
module JsonParser {
  import opened Options
  import opened CanonicalJson

  type Parsed<T> = Option<(T, Text)>

  // ------------------------------------------------------------------ strings

  function HexValue(c: Unit): Option<int> {
    if 48 <= c <= 57 then Some(c - 48)
    else if 97 <= c <= 102 then Some(c - 87)
    else if 65 <= c <= 70 then Some(c - 55)
    else None
  }

  function ParseHex(t: Text): Option<Unit>
    requires |t| >= 4
  {
    var a, b, c, d := HexValue(t[0]), HexValue(t[1]), HexValue(t[2]), HexValue(t[3]);
    if a.Some? && b.Some? && c.Some? && d.Some? then
      var u := a.value * 4096 + b.value * 256 + c.value * 16 + d.value;
      if 0 <= u < 0x1_0000 then Some(u) else None
    else None
  }

  function SimpleEscape(c: Unit): Option<Unit> {
    if c == QUOTE || c == BACKSLASH || c == 47 then Some(c)
    else if c == 98 then Some(8)
    else if c == 102 then Some(12)
    else if c == 110 then Some(10)
    else if c == 114 then Some(13)
    else if c == 116 then Some(9)
    else None
  }

  /** One unit of a string's text, after any escape. */
  function ParseUnit(t: Text): (r: Parsed<Unit>)
    ensures r.Some? ==> |r.value.1| < |t|
  {
    if t == [] || t[0] == QUOTE || t[0] < 0x20 then None
    else if t[0] != BACKSLASH then Some((t[0], t[1..]))
    else if |t| < 2 then None
    else if t[1] == 117 then
      if |t| < 6 then None
      else
        match ParseHex(t[2..6])
        case None => None
        case Some(u) => Some((u, t[6..]))
    else
      match SimpleEscape(t[1])
      case None => None
      case Some(u) => Some((u, t[2..]))
  }

  /** The rest of a string after its opening quote. */
  function ParseString(t: Text): (r: Parsed<Text>)
    ensures r.Some? ==> |r.value.1| < |t|
    decreases |t|
  {
    if t != [] && t[0] == QUOTE then Some(([], t[1..]))
    else
      match ParseUnit(t)
      case None => None
      case Some((u, rest)) =>
        match ParseString(rest)
        case None => None
        case Some((s, rest')) => Some(([u] + s, rest'))
  }

  lemma HexDigitRoundTrip(d: int)
    requires 0 <= d < 16
    ensures HexValue(HexDigit(d)) == Some(d)
  {
  }

  lemma FourNibbles(c: Unit)
    ensures c == c / 4096 * 4096 + c / 256 % 16 * 256 + c / 16 % 16 * 16 + c % 16
  {
    assert c / 256 == c / 16 / 16 && c / 4096 == c / 256 / 16;
  }

  lemma HexRoundTrip(c: Unit)
    ensures ParseHex(HexEscape(c)[2..6]) == Some(c)
  {
    hide HexDigit, HexValue;
    HexDigitRoundTrip(c / 4096);
    HexDigitRoundTrip(c / 256 % 16);
    HexDigitRoundTrip(c / 16 % 16);
    HexDigitRoundTrip(c % 16);
    FourNibbles(c);
  }

  /** An escaped unit reads back as the unit, whatever follows. */
  lemma UnitRoundTrip(c: Unit, rest: Text)
    ensures ParseUnit(EscapeUnit(c) + rest) == Some((c, rest))
    ensures EscapeUnit(c)[0] != QUOTE
  {
    hide ParseHex, HexEscape;
    if IsHexEscaped(c) {
      HexText(c, rest);
    } else {
      var t := EscapeUnit(c) + rest;
      assert t[|EscapeUnit(c)|..] == rest;
    }
  }

  predicate IsHexEscaped(c: Unit) {
    EscapeUnit(c) == HexEscape(c)
  }

  lemma HexText(c: Unit, rest: Text)
    ensures ParseUnit(HexEscape(c) + rest) == Some((c, rest))
    ensures HexEscape(c)[0] != QUOTE
  {
    hide ParseHex;
    var t := HexEscape(c) + rest;
    HexRoundTrip(c);
    assert t[2..6] == HexEscape(c)[2..6] && t[6..] == rest;
  }

  lemma {:induction false} StringRoundTrip(s: Text, rest: Text)
    ensures ParseString(Escape(s) + [QUOTE] + rest) == Some((s, rest))
    decreases |s|
  {
    hide EscapeUnit, ParseUnit;
    if s == [] {
      var tail := [QUOTE] + rest;
      assert Escape(s) + [QUOTE] + rest == tail && tail[1..] == rest;
    } else if |s| > 1 && IsLead(s[0]) && IsTrail(s[1]) {
      StringRoundTrip(s[2..], rest);
      PairRoundTrip(s, rest);
    } else {
      StringRoundTrip(s[1..], rest);
      OneUnitRoundTrip(s, rest);
    }
  }

  lemma PairRoundTrip(s: Text, rest: Text)
    requires |s| > 1 && IsLead(s[0]) && IsTrail(s[1])
    requires ParseString(Escape(s[2..]) + [QUOTE] + rest) == Some((s[2..], rest))
    ensures ParseString(Escape(s) + [QUOTE] + rest) == Some((s, rest))
  {
    var after := Escape(s[2..]) + [QUOTE] + rest;
    assert Escape(s) + [QUOTE] + rest == [s[0]] + ([s[1]] + after);
    hide ParseUnit, ParseString, Escape;
    PlainUnit(s[1], after);
    PlainUnit(s[0], [s[1]] + after);
    ParseStringStep([s[1]] + after, s[1], after);
    ParseStringStep([s[0]] + ([s[1]] + after), s[0], [s[1]] + after);
    assert s == [s[0]] + ([s[1]] + s[2..]);
  }

  lemma Regrouped(a: Text, b: Text, c: Text, d: Text)
    ensures a + b + c + d == a + (b + c + d)
  {
  }

  lemma EscapeOne(s: Text)
    requires s != [] && !(|s| > 1 && IsLead(s[0]) && IsTrail(s[1]))
    ensures Escape(s) == EscapeUnit(s[0]) + Escape(s[1..])
  {
    hide EscapeUnit;
  }

  lemma OneUnitRoundTrip(s: Text, rest: Text)
    requires s != [] && !(|s| > 1 && IsLead(s[0]) && IsTrail(s[1]))
    requires ParseString(Escape(s[1..]) + [QUOTE] + rest) == Some((s[1..], rest))
    ensures ParseString(Escape(s) + [QUOTE] + rest) == Some((s, rest))
  {
    var after := Escape(s[1..]) + [QUOTE] + rest;
    var t := EscapeUnit(s[0]) + after;
    hide EscapeUnit, ParseUnit, ParseString, Escape;
    EscapeOne(s);
    Regrouped(EscapeUnit(s[0]), Escape(s[1..]), [QUOTE], rest);
    UnitRoundTrip(s[0], after);
    ParseStringStep(t, s[0], after);
    assert s == [s[0]] + s[1..];
  }

  lemma ParseStringStep(t: Text, c: Unit, after: Text)
    requires t != [] && t[0] != QUOTE && ParseUnit(t) == Some((c, after))
    ensures ParseString(after).Some? ==>
      ParseString(t) == Some(([c] + ParseString(after).value.0, ParseString(after).value.1))
  {
    hide ParseUnit;
  }

  lemma PlainUnit(c: Unit, rest: Text)
    requires c >= 0x20 && c != QUOTE && c != BACKSLASH
    ensures ParseUnit([c] + rest) == Some((c, rest))
  {
    assert ([c] + rest)[1..] == rest;
  }

  // ------------------------------------------------------------------ numbers

  function ParseDigits(t: Text, value: int): (r: (int, Text))
    ensures |r.1| <= |t|
  {
    if t != [] && IsDigit(t[0]) then ParseDigits(t[1..], value * 10 + (t[0] - 48)) else (value, t)
  }

  function ParseNumber(t: Text): (r: Parsed<int>)
    ensures r.Some? ==> |r.value.1| < |t|
  {
    if t != [] && IsDigit(t[0]) then
      var (n, rest) := ParseDigits(t[1..], t[0] - 48);
      Some((n, rest))
    else if |t| > 1 && t[0] == MINUS && IsDigit(t[1]) then
      var (n, rest) := ParseDigits(t[2..], t[1] - 48);
      Some((-n, rest))
    else None
  }

  lemma {:induction false} DigitsRoundTrip(n: nat, rest: Text)
    ensures ParseDigits(PrintNat(n) + rest, 0) == ParseDigits(rest, n)
  {
    if n < 10 {
      assert (PrintNat(n) + rest)[1..] == rest;
    } else {
      var last: Text := [48 + n % 10];
      assert PrintNat(n) + rest == PrintNat(n / 10) + (last + rest);
      DigitsRoundTrip(n / 10, last + rest);
      assert (last + rest)[1..] == rest;
    }
  }

  /** The text does not go on with a digit, so a number before it ends there. */
  predicate Ends(rest: Text) { rest == [] || !IsDigit(rest[0]) }

  /** Digits with their first digit taken off read as the number they print. */
  lemma NatRoundTrip(m: nat, rest: Text)
    requires Ends(rest)
    ensures var digits := PrintNat(m) + rest;
      && digits != [] && IsDigit(digits[0])
      && ParseDigits(digits[1..], digits[0] - 48) == (m, rest)
  {
    DigitsRoundTrip(m, rest);
    var digits := PrintNat(m) + rest;
    assert digits[0] == PrintNat(m)[0];
    hide PrintNat;
    assert ParseDigits(digits, 0) == ParseDigits(digits[1..], digits[0] - 48);
  }

  lemma NumberRoundTrip(n: int, rest: Text)
    requires Ends(rest)
    ensures ParseNumber(PrintInt(n) + rest) == Some((n, rest))
  {
    hide ParseDigits, PrintNat, Ends;
    if n < 0 {
      NatRoundTrip(-n, rest);
      var digits := PrintNat(-n) + rest;
      assert PrintInt(n) + rest == [MINUS] + digits;
      assert ([MINUS] + digits)[2..] == digits[1..];
    } else {
      NatRoundTrip(n, rest);
    }
  }

  // ------------------------------------------------------------------ values

  predicate StartsWith(t: Text, prefix: Text) {
    |t| >= |prefix| && t[..|prefix|] == prefix
  }

  function ParseValue(t: Text): (r: Parsed<Value>)
    ensures r.Some? ==> |r.value.1| < |t|
    decreases |t|, 0
  {
    if t == [] then None
    else if t[0] == OPEN_BRACKET then
      if |t| > 1 && t[1] == CLOSE_BRACKET then Some((Arr([]), t[2..]))
      else
        match ParseItems(t[1..])
        case None => None
        case Some((items, rest)) => Some((Arr(items), rest))
    else if t[0] == OPEN_BRACE then
      if |t| > 1 && t[1] == CLOSE_BRACE then Some((Obj([]), t[2..]))
      else
        match ParseMembers(t[1..])
        case None => None
        case Some((members, rest)) => Some((Obj(members), rest))
    else if t[0] == QUOTE then
      match ParseString(t[1..])
      case None => None
      case Some((s, rest)) => Some((Str(s), rest))
    else if StartsWith(t, NULL_TEXT) then Some((Null, t[4..]))
    else if StartsWith(t, TRUE_TEXT) then Some((Bool(true), t[4..]))
    else if StartsWith(t, FALSE_TEXT) then Some((Bool(false), t[5..]))
    else
      match ParseNumber(t)
      case None => None
      case Some((n, rest)) => Some((Num(n), rest))
  }

  /** One item or more, up to and including the closing bracket. */
  function ParseItems(t: Text): (r: Parsed<seq<Value>>)
    ensures r.Some? ==> |r.value.1| < |t|
    decreases |t|, 1
  {
    match ParseValue(t)
    case None => None
    case Some((v, rest)) =>
      if rest != [] && rest[0] == CLOSE_BRACKET then Some(([v], rest[1..]))
      else if rest != [] && rest[0] == COMMA then
        match ParseItems(rest[1..])
        case None => None
        case Some((items, rest')) => Some(([v] + items, rest'))
      else None
  }

  function ParseMember(t: Text): (r: Parsed<Member>)
    ensures r.Some? ==> |r.value.1| < |t|
    decreases |t|, 1
  {
    if t == [] || t[0] != QUOTE then None
    else
      match ParseString(t[1..])
      case None => None
      case Some((key, rest)) =>
        if rest == [] || rest[0] != COLON then None
        else
          match ParseValue(rest[1..])
          case None => None
          case Some((v, rest')) => Some((Member(key, v), rest'))
  }

  function ParseMembers(t: Text): (r: Parsed<seq<Member>>)
    ensures r.Some? ==> |r.value.1| < |t|
    decreases |t|, 2
  {
    match ParseMember(t)
    case None => None
    case Some((m, rest)) =>
      if rest != [] && rest[0] == CLOSE_BRACE then Some(([m], rest[1..]))
      else if rest != [] && rest[0] == COMMA then
        match ParseMembers(rest[1..])
        case None => None
        case Some((members, rest')) => Some(([m] + members, rest'))
      else None
  }

  // ------------------------------------------------------------------ the parser undoes the printer

  lemma PrintStarts(v: Value)
    requires Supported(v)
    ensures Print(v) != [] && Print(v)[0] != CLOSE_BRACKET && Print(v)[0] != CLOSE_BRACE
  {
  }

  lemma {:induction false} ValueRoundTrip(v: Value, rest: Text)
    requires Supported(v) && Ends(rest)
    ensures ParseValue(Print(v) + rest) == Some((v, rest))
    decreases v, 1
  {
    hide ParseValue;
    match v {
      case Null => LiteralRoundTrip(v, rest);
      case Bool(b) => LiteralRoundTrip(v, rest);
      case Num(n) => NumberText(n, rest);
      case Str(s) => StringText(s, rest);
      case Arr(items) => ArrayRoundTrip(items, rest);
      case Obj(members) => ObjectRoundTrip(members, rest);
    }
  }

  lemma NumberText(n: int, rest: Text)
    requires Ends(rest)
    ensures ParseValue(PrintInt(n) + rest) == Some((Num(n), rest))
  {
    NumberRoundTrip(n, rest);
    var t := PrintInt(n) + rest;
    assert t[0] == MINUS || IsDigit(t[0]);
    NotStarting(t, NULL_TEXT);
    NotStarting(t, TRUE_TEXT);
    NotStarting(t, FALSE_TEXT);
  }

  lemma NotStarting(t: Text, prefix: Text)
    requires t != [] && prefix != [] && t[0] != prefix[0]
    ensures !StartsWith(t, prefix)
  {
    if |t| >= |prefix| { assert t[..|prefix|][0] == t[0]; }
  }

  lemma LiteralRoundTrip(v: Value, rest: Text)
    requires v.Null? || v.Bool?
    ensures ParseValue(Print(v) + rest) == Some((v, rest))
  {
    var t := Print(v) + rest;
    assert t[..|Print(v)|] == Print(v) && t[|Print(v)|..] == rest;
    assert t[0] == Print(v)[0];
    if !v.Null? { NotStarting(t, NULL_TEXT); }
    if v.Bool? && !v.b { NotStarting(t, TRUE_TEXT); }
  }

  lemma StringText(s: Text, rest: Text)
    ensures ParseValue(PrintString(s) + rest) == Some((Str(s), rest))
  {
    hide Escape, ParseString;
    var t := PrintString(s) + rest;
    StringRoundTrip(s, rest);
    assert t[1..] == Escape(s) + [QUOTE] + rest;
  }

  lemma ArrayText(t: Text, items: seq<Value>, rest: Text)
    requires |t| > 1 && t[0] == OPEN_BRACKET && t[1] != CLOSE_BRACKET && ParseItems(t[1..]) == Some((items, rest))
    ensures ParseValue(t) == Some((Arr(items), rest))
  {
    hide ParseItems;
  }

  lemma EmptyTexts(rest: Text)
    ensures ParseValue([OPEN_BRACKET, CLOSE_BRACKET] + rest) == Some((Arr([]), rest))
    ensures ParseValue([OPEN_BRACE, CLOSE_BRACE] + rest) == Some((Obj([]), rest))
  {
    assert ([OPEN_BRACKET, CLOSE_BRACKET] + rest)[2..] == rest && ([OPEN_BRACE, CLOSE_BRACE] + rest)[2..] == rest;
  }

  lemma {:induction false} ArrayRoundTrip(items: seq<Value>, rest: Text)
    requires forall i :: 0 <= i < |items| ==> Supported(items[i])
    ensures ParseValue([OPEN_BRACKET] + PrintItems(items) + [CLOSE_BRACKET] + rest) == Some((Arr(items), rest))
    decreases items, 2
  {
    var t := [OPEN_BRACKET] + PrintItems(items) + [CLOSE_BRACKET] + rest;
    if items == [] {
      hide ParseValue;
      assert t == [OPEN_BRACKET, CLOSE_BRACKET] + rest;
      EmptyTexts(rest);
    } else {
      hide ParseValue, ParseItems, PrintItems;
      ItemsRoundTrip(items, rest);
      ItemsStart(items);
      Enclosed(OPEN_BRACKET, PrintItems(items), [CLOSE_BRACKET], rest);
      ArrayText(t, items, rest);
    }
  }

  lemma ItemsStart(items: seq<Value>)
    requires items != [] && forall i :: 0 <= i < |items| ==> Supported(items[i])
    ensures PrintItems(items) != [] && PrintItems(items)[0] != CLOSE_BRACKET
  {
    hide Print;
    PrintStarts(items[0]);
  }

  lemma Enclosed(open: Unit, inner: Text, close: Text, rest: Text)
    requires inner != []
    ensures var t := [open] + inner + close + rest;
      |t| > 1 && t[0] == open && t[1] == inner[0] && t[1..] == inner + close + rest
  {
  }

  lemma {:induction false} ItemsRoundTrip(items: seq<Value>, rest: Text)
    requires items != [] && forall i :: 0 <= i < |items| ==> Supported(items[i])
    ensures ParseItems(PrintItems(items) + [CLOSE_BRACKET] + rest) == Some((items, rest))
    decreases items, 1
  {
    hide Print, ParseValue;
    var t := PrintItems(items) + [CLOSE_BRACKET] + rest;
    if |items| == 1 {
      var after := [CLOSE_BRACKET] + rest;
      assert t == Print(items[0]) + after;
      ValueRoundTrip(items[0], after);
      assert after[1..] == rest && items == [items[0]];
    } else {
      var after := [COMMA] + (PrintItems(items[1..]) + [CLOSE_BRACKET] + rest);
      assert t == Print(items[0]) + after;
      ValueRoundTrip(items[0], after);
      ItemsRoundTrip(items[1..], rest);
      assert after[1..] == PrintItems(items[1..]) + [CLOSE_BRACKET] + rest;
      assert items == [items[0]] + items[1..];
    }
  }

  lemma ObjectText(t: Text, members: seq<Member>, rest: Text)
    requires |t| > 1 && t[0] == OPEN_BRACE && t[1] != CLOSE_BRACE && ParseMembers(t[1..]) == Some((members, rest))
    ensures ParseValue(t) == Some((Obj(members), rest))
  {
    hide ParseMembers;
  }

  lemma {:induction false} ObjectRoundTrip(members: seq<Member>, rest: Text)
    requires forall i :: 0 <= i < |members| ==> Supported(members[i].value)
    ensures ParseValue([OPEN_BRACE] + PrintMembers(members) + [CLOSE_BRACE] + rest) == Some((Obj(members), rest))
    decreases members, 2
  {
    var t := [OPEN_BRACE] + PrintMembers(members) + [CLOSE_BRACE] + rest;
    hide ParseValue, ParseMembers, Print;
    if members == [] {
      assert t == [OPEN_BRACE, CLOSE_BRACE] + rest;
      EmptyTexts(rest);
    } else {
      MembersRoundTrip(members, rest);
      MembersStart(members);
      hide PrintMembers;
      Enclosed(OPEN_BRACE, PrintMembers(members), [CLOSE_BRACE], rest);
      ObjectText(t, members, rest);
    }
  }

  lemma MembersStart(members: seq<Member>)
    requires members != [] && forall i :: 0 <= i < |members| ==> Supported(members[i].value)
    ensures PrintMembers(members) != [] && PrintMembers(members)[0] == QUOTE
  {
    hide Print, Escape;
  }

  lemma {:induction false} MemberRoundTrip(m: Member, rest: Text)
    requires Supported(m.value) && Ends(rest)
    ensures ParseMember(PrintMember(m) + rest) == Some((m, rest))
    decreases m, 2
  {
    hide Escape, ParseString, Print, ParseValue;
    var t := PrintMember(m) + rest;
    var after := [COLON] + (Print(m.value) + rest);
    assert t[1..] == Escape(m.key) + [QUOTE] + after;
    StringRoundTrip(m.key, after);
    assert after[1..] == Print(m.value) + rest;
    ValueRoundTrip(m.value, rest);
  }

  lemma {:induction false} MembersRoundTrip(members: seq<Member>, rest: Text)
    requires members != [] && forall i :: 0 <= i < |members| ==> Supported(members[i].value)
    ensures ParseMembers(PrintMembers(members) + [CLOSE_BRACE] + rest) == Some((members, rest))
    decreases members, 1
  {
    hide PrintMember, ParseMember;
    var t := PrintMembers(members) + [CLOSE_BRACE] + rest;
    if |members| == 1 {
      var after := [CLOSE_BRACE] + rest;
      assert t == PrintMember(members[0]) + after;
      MemberRoundTrip(members[0], after);
      assert after[1..] == rest && members == [members[0]];
    } else {
      var after := [COMMA] + (PrintMembers(members[1..]) + [CLOSE_BRACE] + rest);
      assert t == PrintMember(members[0]) + after;
      MemberRoundTrip(members[0], after);
      MembersRoundTrip(members[1..], rest);
      assert after[1..] == PrintMembers(members[1..]) + [CLOSE_BRACE] + rest;
      assert members == [members[0]] + members[1..];
    }
  }

  /** Parsing the canonical text of a supported value gives the canonical value, with nothing left over. */
  lemma CanonicalTextParses(v: Value)
    ensures CanonicalText(v).Ok? <==> Supported(v)
    ensures Supported(v) ==> ParseValue(CanonicalText(v).value) == Some((Canon(v), []))
  {
    if Supported(v) {
      CanonSupported(v);
      ValueRoundTrip(Canon(v), []);
      assert Print(Canon(v)) + [] == Print(Canon(v));
    }
  }
}
