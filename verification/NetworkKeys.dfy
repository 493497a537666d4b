/** Network keys: an IPv6 address counts as its /64, however it is spelled. */
module NetworkKeys {
  import opened Options
  import opened CanonicalJson
  import opened Ascii

  const DOT: Unit := 46
  const PERCENT: Unit := 37

  // ------------------------------------------------------------------ splitting

  /** split('::'): at each non-overlapping occurrence, from the left. */
  function SplitPairs(t: Text): (r: seq<Text>)
    ensures |r| >= 1
  {
    if t == [] then [[]]
    else if |t| >= 2 && t[0] == COLON && t[1] == COLON then [[]] + SplitPairs(t[2..])
    else
      var r := SplitPairs(t[1..]);
      [[t[0]] + r[0]] + r[1..]
  }

  /** split(':'). */
  function SplitColons(t: Text): (r: seq<Text>)
    ensures |r| >= 1
  {
    if t == [] then [[]]
    else if t[0] == COLON then [[]] + SplitColons(t[1..])
    else
      var r := SplitColons(t[1..]);
      [[t[0]] + r[0]] + r[1..]
  }

  function Join(groups: seq<Text>): Text {
    if groups == [] then []
    else if |groups| == 1 then groups[0]
    else groups[0] + [COLON] + Join(groups[1..])
  }

  // ------------------------------------------------------------------ groups

  function HexNumber(u: Unit): int {
    var l := LowerUnit(u);
    if l <= 57 then l - 48 else l - 87
  }

  predicate IsGroup(g: Text) {
    1 <= |g| <= 4 && forall u :: u in g ==> IsHex(u)
  }

  predicate IsLowerGroup(g: Text) {
    1 <= |g| <= 4 && forall u :: u in g ==> IsLowerHex(u)
  }

  /** parseInt(group, 16), of hexadecimal digits. */
  function GroupValue(g: Text): int {
    if g == [] then 0 else GroupValue(g[..|g| - 1]) * 16 + HexNumber(g[|g| - 1])
  }

  function GroupValues(groups: seq<Text>): (r: seq<int>)
    ensures |r| == |groups| && forall i :: 0 <= i < |r| ==> r[i] == GroupValue(groups[i])
  {
    seq(|groups|, i requires 0 <= i < |groups| => GroupValue(groups[i]))
  }

  lemma LowerGroupIsGroup(g: Text)
    requires IsLowerGroup(g)
    ensures IsGroup(g)
  {
  }

  /** parseIpv6Groups: lower-case groups of one to four digits, or nothing at all. */
  function ParseGroups(t: Text): Option<seq<int>> {
    if t == [] then Some([])
    else
      var groups := SplitColons(t);
      if forall i :: 0 <= i < |groups| ==> IsLowerGroup(groups[i]) then
        Some(GroupValues(groups))
      else None
  }

  function Zeros(n: nat): (r: seq<int>)
    ensures |r| == n && forall i :: 0 <= i < n ==> r[i] == 0
  {
    seq(n, _ => 0)
  }

  /** expandIpv6. */
  function Expand(t: Text): Option<seq<int>> {
    var halves := SplitPairs(t);
    if |halves| > 2 then None
    else
      var left := ParseGroups(halves[0]);
      var right := ParseGroups(if |halves| == 2 then halves[1] else []);
      if left.None? || right.None? then None
      else
        var missing := 8 - |left.value| - |right.value|;
        if (|halves| == 1 && missing != 0) || (|halves| == 2 && missing < 1) then None
        else Some(left.value + Zeros(missing) + right.value)
  }

  // ------------------------------------------------------------------ spellings

  /** How section 2.2 of RFC 4291 spells an address: eight groups, or fewer around one "::". */
  datatype Spelling = Full(groups: seq<Text>) | Compressed(left: seq<Text>, right: seq<Text>)

  predicate AllGroups(groups: seq<Text>) {
    forall g :: g in groups ==> IsGroup(g)
  }

  predicate WellSpelled(s: Spelling) {
    match s
    case Full(groups) => |groups| == 8 && AllGroups(groups)
    case Compressed(left, right) => |left| + |right| <= 7 && AllGroups(left) && AllGroups(right)
  }

  function Write(s: Spelling): Text {
    match s
    case Full(groups) => Join(groups)
    case Compressed(left, right) => Join(left) + [COLON, COLON] + Join(right)
  }

  function Meaning(s: Spelling): (r: seq<int>)
    requires WellSpelled(s)
    ensures |r| == 8
  {
    match s
    case Full(groups) => GroupValues(groups)
    case Compressed(left, right) => GroupValues(left) + Zeros(8 - |left| - |right|) + GroupValues(right)
  }

  // ------------------------------------------------------------------ splitting undoes joining

  /** Colons apart from each other and not at the end. */
  predicate ColonsApart(t: Text) {
    forall i :: 0 <= i < |t| && t[i] == COLON ==> i + 1 < |t| && t[i + 1] != COLON
  }

  lemma {:induction false} SplitAtPair(t: Text, rest: Text)
    requires ColonsApart(t)
    ensures SplitPairs(t + [COLON, COLON] + rest) == [t] + SplitPairs(rest)
    decreases |t|
  {
    var whole := t + [COLON, COLON] + rest;
    if t == [] {
      assert whole[2..] == rest;
    } else {
      assert whole[1..] == t[1..] + [COLON, COLON] + rest;
      assert t[0] == COLON ==> whole[1] == t[1];
      SplitAtPair(t[1..], rest);
      assert [t[0]] + t[1..] == t;
    }
  }

  lemma {:induction false} NoPairs(t: Text)
    requires ColonsApart(t)
    ensures SplitPairs(t) == [t]
    decreases |t|
  {
    if t != [] {
      NoPairs(t[1..]);
      assert [t[0]] + t[1..] == t;
    }
  }

  lemma {:induction false} SplitGroup(g: Text, rest: Text)
    requires COLON !in g
    ensures SplitColons(g + [COLON] + rest) == [g] + SplitColons(rest)
    ensures SplitColons(g) == [g]
    decreases |g|
  {
    var whole := g + [COLON] + rest;
    if g == [] {
      assert whole[1..] == rest;
    } else {
      assert whole[1..] == g[1..] + [COLON] + rest;
      SplitGroup(g[1..], rest);
      assert [g[0]] + g[1..] == g;
    }
  }

  lemma {:induction false} SplitUndoesJoin(groups: seq<Text>)
    requires groups != [] && forall g :: g in groups ==> COLON !in g
    ensures SplitColons(Join(groups)) == groups
    decreases |groups|
  {
    assert groups[0] in groups;
    if |groups| == 1 {
      SplitGroup(groups[0], []);
      assert groups == [groups[0]];
    } else {
      SplitGroup(groups[0], Join(groups[1..]));
      SplitUndoesJoin(groups[1..]);
      assert groups == [groups[0]] + groups[1..];
    }
  }

  lemma GroupHasNoColon(g: Text)
    requires IsGroup(g)
    ensures COLON !in g && g[0] != COLON
  {
    assert !IsHex(COLON) && g[0] in g;
  }

  lemma {:induction false} JoinedApart(groups: seq<Text>)
    requires AllGroups(groups)
    ensures ColonsApart(Join(groups))
    ensures groups != [] ==> Join(groups) != [] && Join(groups)[0] != COLON
    decreases |groups|
  {
    if groups != [] {
      assert groups[0] in groups;
      GroupHasNoColon(groups[0]);
      if |groups| > 1 {
        JoinedApart(groups[1..]);
        AppendApart(groups[0], Join(groups[1..]));
      }
    }
  }

  lemma AppendApart(g: Text, rest: Text)
    requires COLON !in g && ColonsApart(rest) && rest != [] && rest[0] != COLON
    ensures ColonsApart(g + [COLON] + rest)
  {
    var t := g + [COLON] + rest;
    forall i | 0 <= i < |t| && t[i] == COLON ensures i + 1 < |t| && t[i + 1] != COLON {
      if i > |g| { assert rest[i - |g| - 1] == COLON; }
      assert i >= |g|;
      assert t[i + 1] == rest[i - |g|];
    }
  }

  lemma ParseJoined(groups: seq<Text>)
    requires AllGroups(groups) && forall g :: g in groups ==> IsLowerGroup(g)
    ensures ParseGroups(Join(groups)) == Some(GroupValues(groups))
  {
    if groups != [] {
      forall g | g in groups ensures COLON !in g { GroupHasNoColon(g); }
      SplitUndoesJoin(groups);
      JoinedApart(groups);
    }
  }

  predicate LowerSpelled(s: Spelling) {
    match s
    case Full(groups) => forall g :: g in groups ==> IsLowerGroup(g)
    case Compressed(left, right) => forall g :: g in left + right ==> IsLowerGroup(g)
  }

  /** Expansion undoes every lower-case spelling. */
  lemma ExpandUndoesWrite(s: Spelling)
    requires WellSpelled(s) && LowerSpelled(s)
    ensures Expand(Write(s)) == Some(Meaning(s))
  {
    hide ParseGroups, SplitPairs;
    match s {
      case Full(groups) =>
        JoinedApart(groups);
        NoPairs(Join(groups));
        ParseJoined(groups);
        NothingParses();
        assert GroupValues(groups) + Zeros(0) + [] == GroupValues(groups);
      case Compressed(left, right) =>
        JoinedApart(left);
        JoinedApart(right);
        SplitAtPair(Join(left), Join(right));
        NoPairs(Join(right));
        ParseJoined(left);
        ParseJoined(right);
    }
  }

  lemma NothingParses()
    ensures ParseGroups([]) == Some([])
  {
  }

  // ------------------------------------------------------------------ only spellings expand

  lemma {:induction false} JoinUndoesSplit(t: Text)
    ensures Join(SplitColons(t)) == t
    decreases |t|
  {
    if t != [] {
      JoinUndoesSplit(t[1..]);
      var r := SplitColons(t[1..]);
      if t[0] == COLON {
        var s := [[]] + r;
        assert s[1..] == r;
        assert Join(s) == [] + [COLON] + t[1..];
      } else {
        var s := [[t[0]] + r[0]] + r[1..];
        assert s[1..] == r[1..];
        assert Join(s) == [t[0]] + Join(r);
      }
    }
  }

  /** One part is the text itself, two parts have the separator between them. */
  predicate Rejoins(parts: seq<Text>, t: Text) {
    && (|parts| == 1 ==> t == parts[0])
    && (|parts| == 2 ==> t == parts[0] + [COLON, COLON] + parts[1])
  }

  lemma RejoinsOneMore(parts: seq<Text>, t: Text, c: Unit)
    requires |parts| >= 1 && Rejoins(parts, t)
    ensures Rejoins([[c] + parts[0]] + parts[1..], [c] + t)
  {
    if |parts| == 2 { assert [c] + t == [c] + parts[0] + [COLON, COLON] + parts[1]; }
  }

  lemma RejoinsAfterColons(parts: seq<Text>, t: Text)
    requires |parts| >= 1 && Rejoins(parts, t)
    ensures Rejoins([[]] + parts, [COLON, COLON] + t)
  {
    assert [] + [COLON, COLON] + t == [COLON, COLON] + t;
  }

  lemma {:induction false} PairsRejoin(t: Text)
    ensures Rejoins(SplitPairs(t), t)
    decreases |t|
  {
    hide Rejoins;
    if t == [] {
      EmptyRejoins();
    } else if |t| >= 2 && t[0] == COLON && t[1] == COLON {
      PairsRejoin(t[2..]);
      RejoinsAfterColons(SplitPairs(t[2..]), t[2..]);
      assert t == [COLON, COLON] + t[2..];
    } else {
      PairsRejoin(t[1..]);
      RejoinsOneMore(SplitPairs(t[1..]), t[1..], t[0]);
      assert t == [t[0]] + t[1..];
    }
  }

  lemma EmptyRejoins()
    ensures Rejoins([[]], [])
  {
  }

  lemma ParsedAreGroups(t: Text) returns (groups: seq<Text>)
    requires ParseGroups(t).Some?
    ensures AllGroups(groups) && (forall g :: g in groups ==> IsLowerGroup(g))
    ensures Join(groups) == t && ParseGroups(t) == Some(GroupValues(groups))
  {
    if t == [] {
      groups := [];
    } else {
      groups := SplitColons(t);
      JoinUndoesSplit(t);
      forall g | g in groups ensures IsLowerGroup(g) && IsGroup(g) { LowerGroupIsGroup(g); }
    }
  }

  /** Only the spellings of RFC 4291 expand, and each to what it means. */
  lemma ExpandedIsSpelled(t: Text) returns (s: Spelling)
    requires Expand(t).Some?
    ensures WellSpelled(s) && LowerSpelled(s) && Write(s) == t && Expand(t) == Some(Meaning(s))
  {
    hide ParseGroups, SplitPairs;
    PairsRejoin(t);
    var halves := SplitPairs(t);
    var left := ParsedAreGroups(halves[0]);
    if |halves| == 1 {
      NothingParses();
      s := Full(left);
      assert GroupValues(left) + Zeros(0) + [] == GroupValues(left);
    } else {
      var right := ParsedAreGroups(halves[1]);
      s := Compressed(left, right);
    }
  }

  // ------------------------------------------------------------------ letter case

  function LowerGroups(groups: seq<Text>): (r: seq<Text>)
    ensures |r| == |groups| && forall i :: 0 <= i < |r| ==> r[i] == Lower(groups[i])
  {
    seq(|groups|, i requires 0 <= i < |groups| => Lower(groups[i]))
  }

  function LowerSpelling(s: Spelling): Spelling {
    match s
    case Full(groups) => Full(LowerGroups(groups))
    case Compressed(left, right) => Compressed(LowerGroups(left), LowerGroups(right))
  }

  lemma LowerAppend(a: Text, b: Text)
    ensures Lower(a + b) == Lower(a) + Lower(b)
  {
  }

  lemma {:induction false} LowerJoin(groups: seq<Text>)
    ensures Lower(Join(groups)) == Join(LowerGroups(groups))
    decreases |groups|
  {
    if groups == [] {
      assert LowerGroups(groups) == [];
    } else if |groups| == 1 {
      assert LowerGroups(groups) == [Lower(groups[0])];
    } else {
      LowerJoin(groups[1..]);
      LowerAppend(groups[0] + [COLON], Join(groups[1..]));
      LowerAppend(groups[0], [COLON]);
      assert LowerGroups(groups)[1..] == LowerGroups(groups[1..]);
      assert Lower([COLON]) == [COLON];
    }
  }

  lemma {:induction false} LowerGroupValue(g: Text)
    requires forall u :: u in g ==> IsHex(u)
    ensures forall u :: u in Lower(g) ==> IsLowerHex(u) && IsHex(u)
    ensures GroupValue(Lower(g)) == GroupValue(g)
    decreases |g|
  {
    var l := Lower(g);
    forall i | 0 <= i < |l| ensures IsLowerHex(l[i]) && IsHex(l[i]) { assert g[i] in g; }
    if g != [] {
      var n := |g| - 1;
      LowerGroupValue(g[..n]);
      assert l[..n] == Lower(g[..n]);
      assert g[n] in g;
    }
  }

  lemma LowerGroupsKeepValues(groups: seq<Text>)
    requires AllGroups(groups)
    ensures AllGroups(LowerGroups(groups)) && forall g :: g in LowerGroups(groups) ==> IsLowerGroup(g)
    ensures GroupValues(LowerGroups(groups)) == GroupValues(groups)
  {
    hide GroupValue, IsHex, IsLowerHex;
    var r := LowerGroups(groups);
    forall i | 0 <= i < |r| ensures IsGroup(r[i]) && IsLowerGroup(r[i]) && GroupValue(r[i]) == GroupValue(groups[i]) {
      assert groups[i] in groups;
      LowerGroupValue(groups[i]);
    }
  }

  lemma LowerWrite(s: Spelling)
    requires WellSpelled(s)
    ensures WellSpelled(LowerSpelling(s)) && LowerSpelled(LowerSpelling(s))
    ensures Write(LowerSpelling(s)) == Lower(Write(s))
    ensures Meaning(LowerSpelling(s)) == Meaning(s)
  {
    hide IsGroup, IsLowerGroup, Lower;
    match s {
      case Full(groups) =>
        LowerJoin(groups);
        LowerGroupsKeepValues(groups);
      case Compressed(left, right) =>
        LowerJoin(left);
        LowerJoin(right);
        LowerGroupsKeepValues(left);
        LowerGroupsKeepValues(right);
        LowerAppend(Join(left) + [COLON, COLON], Join(right));
        LowerAppend(Join(left), [COLON, COLON]);
        LowerColons();
    }
  }

  lemma LowerColons()
    ensures Lower([COLON, COLON]) == [COLON, COLON]
  {
  }

  // ------------------------------------------------------------------ the network key

  /** The length of an address family, 4 or 6, or 0 when a text is no address: isIP, kept abstract. */
  type Family = Text -> int

  /** All that is assumed of it: dotted quads have dots, and every hexadecimal spelling is version 6. */
  ghost predicate KnowsAddresses(family: Family) {
    && (forall t :: family(t) == 4 ==> DOT in t)
    && forall s :: WellSpelled(s) ==> family(Write(s)) == 6
  }

  predicate IsSpace(u: Unit) {
    9 <= u <= 13 || 0x2000 <= u <= 0x200A || u in {32, 0xA0, 0x1680, 0x2028, 0x2029, 0x202F, 0x205F, 0x3000, 0xFEFF}
  }

  function TrimStart(t: Text): Text {
    if t != [] && IsSpace(t[0]) then TrimStart(t[1..]) else t
  }

  function TrimEnd(t: Text): Text {
    if t != [] && IsSpace(t[|t| - 1]) then TrimEnd(t[..|t| - 1]) else t
  }

  /** "unidentified-peer" */
  const UNIDENTIFIED: Text :=
    [117, 110, 105, 100, 101, 110, 116, 105, 102, 105, 101, 100, 45, 112, 101, 101, 114]

  /** "::ffff:" */
  const MAPPED: Text := [58, 58, 102, 102, 102, 102, 58]

  /** "::/64" */
  const PREFIX_64: Text := [58, 58, 47, 54, 52]

  /** toString(16). */
  function HexText(n: nat): (t: Text)
    ensures |t| >= 1 && forall u :: u in t ==> IsLowerHex(u)
  {
    if n < 16 then [HexDigit(n)] else HexText(n / 16) + [HexDigit(n % 16)]
  }

  function HexTexts(groups: seq<int>): (r: seq<Text>)
    requires forall i :: 0 <= i < |groups| ==> groups[i] >= 0
    ensures |r| == |groups| && forall i :: 0 <= i < |groups| ==> r[i] == HexText(groups[i])
  {
    seq(|groups|, i requires 0 <= i < |groups| => HexText(groups[i]))
  }

  predicate Natural(groups: seq<int>) {
    forall i :: 0 <= i < |groups| ==> groups[i] >= 0
  }

  function KeyOf(address: seq<int>): Text
    requires |address| == 8 && Natural(address)
  {
    Join(HexTexts(address[..4])) + PREFIX_64
  }

  /** normalizeAddress; None where it throws. */
  function NormalizeAddress(address: Text, family: Family): Option<Text> {
    var value := Lower(TrimEnd(TrimStart(address)));
    if value == UNIDENTIFIED then Some(value)
    else if |value| >= 7 && value[..7] == MAPPED && family(value[7..]) == 4 then Some(value[7..])
    else if family(value) == 4 then Some(value)
    else if family(value) != 6 || PERCENT in value then None
    else
      match Expand(value)
      case None => None
      case Some(groups) =>
        ExpandedShape(value);
        Some(KeyOf(groups))
  }

  lemma {:induction false} GroupValueNatural(g: Text)
    requires forall u :: u in g ==> IsHex(u)
    ensures GroupValue(g) >= 0
    decreases |g|
  {
    if g != [] {
      GroupValueNatural(g[..|g| - 1]);
      assert g[|g| - 1] in g;
    }
  }

  lemma MeaningNatural(s: Spelling)
    requires WellSpelled(s)
    ensures Natural(Meaning(s))
  {
    hide GroupValue, IsHex;
    var groups := match s case Full(groups) => groups case Compressed(left, right) => left + right;
    forall g | g in groups ensures GroupValue(g) >= 0 { GroupValueNatural(g); }
  }

  lemma ExpandedShape(t: Text)
    requires Expand(t).Some?
    ensures |Expand(t).value| == 8 && Natural(Expand(t).value)
  {
    var s := ExpandedIsSpelled(t);
    MeaningNatural(s);
  }

  lemma {:induction false} HexTextValue(n: nat)
    ensures GroupValue(HexText(n)) == n
  {
    if n < 16 {
      assert HexText(n)[..0] == [];
    } else {
      HexTextValue(n / 16);
      assert HexText(n)[..|HexText(n)| - 1] == HexText(n / 16);
    }
  }

  /** Keys agree exactly when the first four groups do. */
  lemma KeysAgree(a: seq<int>, b: seq<int>)
    requires |a| == |b| == 8 && Natural(a) && Natural(b)
    ensures KeyOf(a) == KeyOf(b) <==> a[..4] == b[..4]
  {
    hide HexText;
    if KeyOf(a) == KeyOf(b) {
      var p, q := HexTexts(a[..4]), HexTexts(b[..4]);
      assert Join(p) == KeyOf(a)[..|KeyOf(a)| - 5] && Join(q) == KeyOf(b)[..|KeyOf(b)| - 5];
      NoColons(a[..4]);
      NoColons(b[..4]);
      SplitUndoesJoin(p);
      SplitUndoesJoin(q);
      forall i | 0 <= i < 4 ensures a[i] == b[i] {
        HexTextValue(a[i]);
        HexTextValue(b[i]);
        assert p[i] == HexText(a[..4][i]) && q[i] == HexText(b[..4][i]);
      }
    }
  }

  lemma NoColons(groups: seq<int>)
    requires Natural(groups)
    ensures forall g :: g in HexTexts(groups) ==> COLON !in g
  {
    hide HexText;
    assert !IsLowerHex(COLON);
  }

  // ------------------------------------------------------------------ spellings under normalization

  predicate HexOrColon(t: Text) {
    forall u :: u in t ==> IsHex(u) || u == COLON
  }

  lemma {:induction false} JoinedPlain(groups: seq<Text>)
    requires AllGroups(groups)
    ensures HexOrColon(Join(groups))
    decreases |groups|
  {
    if groups != [] {
      assert groups[0] in groups;
      if |groups| > 1 { JoinedPlain(groups[1..]); }
    }
  }

  lemma WrittenPlain(s: Spelling)
    requires WellSpelled(s)
    ensures HexOrColon(Write(s))
    ensures DOT !in Write(s) && PERCENT !in Write(s) && Write(s) != UNIDENTIFIED
    ensures TrimEnd(TrimStart(Write(s))) == Write(s)
  {
    match s {
      case Full(groups) => JoinedPlain(groups);
      case Compressed(left, right) => JoinedPlain(left); JoinedPlain(right);
    }
    PlainText(Write(s));
  }

  lemma PlainText(t: Text)
    requires HexOrColon(t)
    ensures DOT !in t && PERCENT !in t && t != UNIDENTIFIED && TrimEnd(TrimStart(t)) == t
  {
    assert !IsHex(DOT) && !IsHex(PERCENT) && !IsHex(117);
    assert UNIDENTIFIED[0] in UNIDENTIFIED;
    if t != [] { assert t[0] in t && t[|t| - 1] in t; }
  }

  lemma NotQuad(t: Text, family: Family)
    requires KnowsAddresses(family) && DOT !in t
    ensures family(t) != 4
  {
  }

  /** A hexadecimal spelling is keyed by what it means. */
  lemma SpellingKey(s: Spelling, family: Family)
    requires WellSpelled(s) && KnowsAddresses(family)
    ensures Natural(Meaning(s)) && NormalizeAddress(Write(s), family) == Some(KeyOf(Meaning(s)))
  {
    hide Expand, Lower, Write, Meaning, WellSpelled, TrimEnd, TrimStart, KeyOf, Natural;
    WrittenPlain(s);
    LowerWrite(s);
    var lower := LowerSpelling(s);
    WrittenPlain(lower);
    var value := Write(lower);
    assert family(value) == 6;
    if |value| >= 7 { NotQuad(value[7..], family); }
    ExpandUndoesWrite(lower);
    MeaningNatural(s);
  }

  /** Two hexadecimal spellings get the same network key exactly when their first four groups are equal. */
  lemma SameNetworkKey(s: Spelling, t: Spelling, family: Family)
    requires WellSpelled(s) && WellSpelled(t) && KnowsAddresses(family)
    ensures NormalizeAddress(Write(s), family) == NormalizeAddress(Write(t), family)
      <==> Meaning(s)[..4] == Meaning(t)[..4]
  {
    hide NormalizeAddress, KeyOf, Write, WellSpelled, Meaning;
    SpellingKey(s, family);
    SpellingKey(t, family);
    KeysAgree(Meaning(s), Meaning(t));
  }
}
