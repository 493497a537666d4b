/**
 * Canonical JSON text: object keys sorted at every depth, then JSON.stringify. A parser undoes the printer, so
 * two values print the same exactly when they are equal up to the order of object keys.
 */
module CanonicalJson {
  import opened Options

  /** A JavaScript string is a sequence of UTF-16 code units. */
  type Unit = c: int | 0 <= c < 0x1_0000
  type Text = seq<Unit>

  datatype Refusal = NonFinite | BigInt | Undefined | Function

  /** Numbers are integers printed without an exponent; members are in the object's own enumeration order. */
  datatype Value =
    | Null
    | Bool(b: bool)
    | Num(n: int)
    | Str(s: Text)
    | Arr(items: seq<Value>)
    | Obj(members: seq<Member>)
    | Unsupported(refusal: Refusal)

  datatype Member = Member(key: Text, value: Value)

  // ------------------------------------------------------------------ the order of object keys

  predicate LexLess(a: Text, b: Text) {
    if b == [] then false
    else if a == [] then true
    else a[0] < b[0] || (a[0] == b[0] && LexLess(a[1..], b[1..]))
  }

  predicate IsDigit(c: Unit) { 48 <= c <= 57 }

  const MAXIMUM_INDEX: Text := [52, 50, 57, 52, 57, 54, 55, 50, 57, 53]

  /** An array index: the decimal digits of a number below 2^32 - 1, without leading zeros. */
  predicate IsIndex(key: Text) {
    && key != [] && (forall c :: c in key ==> IsDigit(c))
    && (key[0] == 48 ==> |key| == 1)
    && (|key| < 10 || (|key| == 10 && LexLess(key, MAXIMUM_INDEX)))
  }

  /**
   * The enumeration order of an object rebuilt from entries sorted by code units: array indexes first, in
   * numeric order (shorter first, then digit by digit), then the other keys as they were inserted.
   */
  predicate KeyBefore(a: Text, b: Text) {
    if IsIndex(a) && IsIndex(b) then |a| < |b| || (|a| == |b| && LexLess(a, b))
    else if IsIndex(a) || IsIndex(b) then IsIndex(a)
    else LexLess(a, b)
  }

  lemma {:induction false} LexIrreflexive(a: Text)
    ensures !LexLess(a, a)
  {
    if a != [] { LexIrreflexive(a[1..]); }
  }

  lemma {:induction false} LexTransitive(a: Text, b: Text, c: Text)
    requires LexLess(a, b) && LexLess(b, c)
    ensures LexLess(a, c)
  {
    if a != [] && a[0] == b[0] && b[0] == c[0] {
      LexTransitive(a[1..], b[1..], c[1..]);
    }
  }

  lemma {:induction false} LexTotal(a: Text, b: Text)
    requires a != b
    ensures LexLess(a, b) || LexLess(b, a)
  {
    if a != [] && b != [] && a[0] == b[0] {
      assert a == [a[0]] + a[1..] && b == [b[0]] + b[1..];
      LexTotal(a[1..], b[1..]);
    }
  }

  lemma KeyOrder(a: Text, b: Text, c: Text)
    ensures !KeyBefore(a, a)
    ensures KeyBefore(a, b) && KeyBefore(b, c) ==> KeyBefore(a, c)
    ensures a != b ==> KeyBefore(a, b) || KeyBefore(b, a)
    ensures !(KeyBefore(a, b) && KeyBefore(b, a))
  {
    LexIrreflexive(a);
    if LexLess(a, b) && LexLess(b, c) { LexTransitive(a, b, c); }
    if LexLess(a, b) && LexLess(b, a) { LexTransitive(a, b, a); }
    if a != b { LexTotal(a, b); }
  }

  // ------------------------------------------------------------------ canonicalization

  function InsertMember(m: Member, ms: seq<Member>): (r: seq<Member>)
    ensures |r| == |ms| + 1
    ensures forall x :: x in r <==> x == m || x in ms
  {
    if ms == [] then [m]
    else if KeyBefore(ms[0].key, m.key) then [ms[0]] + InsertMember(m, ms[1..])
    else [m] + ms
  }

  function Arrange(ms: seq<Member>): (r: seq<Member>)
    ensures |r| == |ms|
    ensures forall x :: x in r <==> x in ms
  {
    if ms == [] then [] else InsertMember(ms[0], Arrange(ms[1..]))
  }

  function Canon(v: Value): Value
    decreases v, 1
  {
    match v
    case Arr(items) => Arr(CanonItems(items))
    case Obj(members) => Obj(Arrange(CanonMembers(members)))
    case _ => v
  }

  function CanonItems(items: seq<Value>): (r: seq<Value>)
    ensures |r| == |items| && forall i :: 0 <= i < |items| ==> r[i] == Canon(items[i])
    decreases items, 0
  {
    if items == [] then [] else [Canon(items[0])] + CanonItems(items[1..])
  }

  function CanonMembers(members: seq<Member>): (r: seq<Member>)
    ensures |r| == |members|
    ensures forall i :: 0 <= i < |members| ==> r[i] == Member(members[i].key, Canon(members[i].value))
    decreases members, 0
  {
    if members == [] then []
    else [Member(members[0].key, Canon(members[0].value))] + CanonMembers(members[1..])
  }

  /** No number that is not finite, no bigint, undefined or function anywhere inside. */
  predicate Supported(v: Value) {
    match v
    case Unsupported(_) => false
    case Arr(items) => forall i :: 0 <= i < |items| ==> Supported(items[i])
    case Obj(members) => forall i :: 0 <= i < |members| ==> Supported(members[i].value)
    case _ => true
  }

  // ------------------------------------------------------------------ printing

  const COMMA: Unit := 44
  const COLON: Unit := 58
  const QUOTE: Unit := 34
  const BACKSLASH: Unit := 92
  const MINUS: Unit := 45
  const OPEN_BRACKET: Unit := 91
  const CLOSE_BRACKET: Unit := 93
  const OPEN_BRACE: Unit := 123
  const CLOSE_BRACE: Unit := 125
  const NULL_TEXT: Text := [110, 117, 108, 108]
  const TRUE_TEXT: Text := [116, 114, 117, 101]
  const FALSE_TEXT: Text := [102, 97, 108, 115, 101]

  function PrintNat(n: nat): (t: Text)
    ensures t != [] && IsDigit(t[0])
  {
    if n < 10 then [48 + n] else PrintNat(n / 10) + [48 + n % 10]
  }

  function PrintInt(n: int): Text {
    if n < 0 then [MINUS] + PrintNat(-n) else PrintNat(n)
  }

  predicate IsLead(c: Unit) { 0xD800 <= c <= 0xDBFF }

  predicate IsTrail(c: Unit) { 0xDC00 <= c <= 0xDFFF }

  function HexDigit(d: int): Unit
    requires 0 <= d < 16
  {
    if d < 10 then 48 + d else 87 + d
  }

  function HexEscape(c: Unit): Text {
    [BACKSLASH, 117, HexDigit(c / 4096), HexDigit(c / 256 % 16), HexDigit(c / 16 % 16), HexDigit(c % 16)]
  }

  /** One unit that is not half of a surrogate pair, as section 7 of RFC 8259 escapes it. */
  function EscapeUnit(c: Unit): (t: Text)
    ensures t != []
  {
    if c == QUOTE || c == BACKSLASH then [BACKSLASH, c]
    else if c == 8 then [BACKSLASH, 98]
    else if c == 12 then [BACKSLASH, 102]
    else if c == 10 then [BACKSLASH, 110]
    else if c == 13 then [BACKSLASH, 114]
    else if c == 9 then [BACKSLASH, 116]
    else if c < 0x20 || IsLead(c) || IsTrail(c) then HexEscape(c)
    else [c]
  }

  /** Surrogate pairs are kept, lone surrogates escaped. */
  function Escape(s: Text): Text {
    if s == [] then []
    else if |s| > 1 && IsLead(s[0]) && IsTrail(s[1]) then [s[0], s[1]] + Escape(s[2..])
    else EscapeUnit(s[0]) + Escape(s[1..])
  }

  function PrintString(s: Text): Text { [QUOTE] + Escape(s) + [QUOTE] }

  function Print(v: Value): Text
    requires Supported(v)
    decreases v, 1
  {
    match v
    case Null => NULL_TEXT
    case Bool(b) => if b then TRUE_TEXT else FALSE_TEXT
    case Num(n) => PrintInt(n)
    case Str(s) => PrintString(s)
    case Arr(items) => [OPEN_BRACKET] + PrintItems(items) + [CLOSE_BRACKET]
    case Obj(members) => [OPEN_BRACE] + PrintMembers(members) + [CLOSE_BRACE]
  }

  function PrintItems(items: seq<Value>): Text
    requires forall i :: 0 <= i < |items| ==> Supported(items[i])
    decreases items, 0
  {
    if items == [] then []
    else if |items| == 1 then Print(items[0])
    else Print(items[0]) + [COMMA] + PrintItems(items[1..])
  }

  function PrintMember(m: Member): Text
    requires Supported(m.value)
    decreases m, 2
  {
    PrintString(m.key) + [COLON] + Print(m.value)
  }

  function PrintMembers(members: seq<Member>): Text
    requires forall i :: 0 <= i < |members| ==> Supported(members[i].value)
    decreases members, 0
  {
    if members == [] then []
    else if |members| == 1 then PrintMember(members[0])
    else PrintMember(members[0]) + [COMMA] + PrintMembers(members[1..])
  }

  lemma {:induction false} CanonSupported(v: Value)
    requires Supported(v)
    ensures Supported(Canon(v))
  {
    match v {
      case Arr(items) =>
        forall i | 0 <= i < |items| ensures Supported(CanonItems(items)[i]) { CanonSupported(items[i]); }
      case Obj(members) =>
        var ms := CanonMembers(members);
        forall i | 0 <= i < |members| ensures Supported(ms[i].value) { CanonSupported(members[i].value); }
        forall i | 0 <= i < |Arrange(ms)| ensures Supported(Arrange(ms)[i].value) {
          assert Arrange(ms)[i] in Arrange(ms) && Arrange(ms)[i] in ms;
        }
      case _ =>
    }
  }

  /** canonicalJson: refuses an unsupported value anywhere inside, else prints the canonical value. */
  function CanonicalText(v: Value): Result<Text, string> {
    if !Supported(v) then Err("TypeError")
    else
      CanonSupported(v);
      Ok(Print(Canon(v)))
  }
}
