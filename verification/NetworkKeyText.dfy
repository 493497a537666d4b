/** What a network key spells, digit by digit. */
module NetworkKeyText {
  import opened Options
  import opened CanonicalJson
  import opened Ascii
  import opened NetworkKeys

  /** What a hexadecimal digit stands for, in either case. */
  function DigitValue(u: Unit): int {
    if 48 <= u <= 57 then u - 48 else if 65 <= u <= 70 then u - 55 else if 97 <= u <= 102 then u - 87 else 0
  }

  function Reads(g: Text): int {
    if g == [] then 0 else 16 * Reads(g[..|g| - 1]) + DigitValue(g[|g| - 1])
  }

  lemma {:induction false} GroupReads(g: Text)
    requires forall u :: u in g ==> IsHex(u)
    ensures GroupValue(g) == Reads(g)
    decreases |g|
  {
    if g != [] {
      GroupReads(g[..|g| - 1]);
      assert g[|g| - 1] in g;
    }
  }

  /** Lower-case digits, the first of them not 0 unless it is the only one. */
  predicate ShortestDigits(t: Text) {
    && t != [] && (|t| > 1 ==> t[0] != 48)
    && forall i :: 0 <= i < |t| ==> 48 <= t[i] <= 57 || 97 <= t[i] <= 102
  }

  lemma {:induction false} HexTextExactly(n: nat)
    ensures Reads(HexText(n)) == n && ShortestDigits(HexText(n))
    ensures n > 0 ==> HexText(n)[0] != 48
  {
    var t := HexText(n);
    if n < 16 {
      assert t[..0] == [];
    } else {
      HexTextExactly(n / 16);
      assert t[..|t| - 1] == HexText(n / 16);
      assert t[0] == HexText(n / 16)[0];
    }
  }

  /** The four groups with colons between, and "::/64". */
  ghost predicate Spells(key: Text, address: seq<int>)
    requires |address| == 8
  {
    exists a, b, c, d ::
      && key == a + [58] + b + [58] + c + [58] + d + [58, 58, 47, 54, 52]
      && ShortestDigits(a) && ShortestDigits(b) && ShortestDigits(c) && ShortestDigits(d)
      && Reads(a) == address[0] && Reads(b) == address[1] && Reads(c) == address[2] && Reads(d) == address[3]
  }

  lemma JoinFour(a: Text, b: Text, c: Text, d: Text)
    ensures Join([a, b, c, d]) == a + [58] + b + [58] + c + [58] + d
  {
    assert [a, b, c, d][1..] == [b, c, d] && [b, c, d][1..] == [c, d] && [c, d][1..] == [d];
    assert Join([d]) == d && Join([c, d]) == c + [COLON] + d;
    assert Join([b, c, d]) == b + [COLON] + Join([c, d]);
    assert Join([a, b, c, d]) == a + [COLON] + Join([b, c, d]);
  }

  lemma KeySpells(address: seq<int>)
    requires |address| == 8 && Natural(address)
    ensures Spells(KeyOf(address), address)
  {
    hide HexText, Reads, ShortestDigits, Join;
    forall i | 0 <= i < 4 ensures Reads(HexText(address[i])) == address[i] && ShortestDigits(HexText(address[i])) {
      HexTextExactly(address[i]);
    }
    var a, b, c, d := HexText(address[0]), HexText(address[1]), HexText(address[2]), HexText(address[3]);
    assert HexTexts(address[..4]) == [a, b, c, d];
    JoinFour(a, b, c, d);
  }

  /** The groups of a spelling, read digit by digit, with as many zeros at its "::" as it lacks. */
  ghost predicate Denotes(s: Spelling, address: seq<int>) {
    && |address| == 8
    && match s
       case Full(groups) => |groups| == 8 && forall i :: 0 <= i < 8 ==> address[i] == Reads(groups[i])
       case Compressed(left, right) =>
         && |left| + |right| <= 7
         && (forall i :: 0 <= i < |left| ==> address[i] == Reads(left[i]))
         && (forall i :: |left| <= i < 8 - |right| ==> address[i] == 0)
         && (forall i :: 0 <= i < |right| ==> address[8 - |right| + i] == Reads(right[i]))
  }

  lemma MeaningExactly(s: Spelling)
    requires WellSpelled(s)
    ensures Denotes(s, Meaning(s))
  {
    hide Reads, GroupValue, IsHex;
    var groups := match s case Full(groups) => groups case Compressed(left, right) => left + right;
    forall g | g in groups ensures GroupValue(g) == Reads(g) {
      assert IsGroup(g);
      GroupReads(g);
    }
  }

  /** The key of a spelled address is the text of its first four groups. */
  lemma KeyTextExactly(s: Spelling, family: Family)
    requires WellSpelled(s) && KnowsAddresses(family)
    ensures NormalizeAddress(Write(s), family).Some?
    ensures exists address :: Denotes(s, address) && Spells(NormalizeAddress(Write(s), family).value, address)
  {
    hide NormalizeAddress, KeyOf, Write, WellSpelled, Meaning, Spells, Denotes, KnowsAddresses;
    SpellingKey(s, family);
    KeySpells(Meaning(s));
    MeaningExactly(s);
  }

  predicate DigitsAndDots(t: Text) {
    t != [] && forall i :: 0 <= i < |t| ==> 48 <= t[i] <= 57 || t[i] == 46
  }

  lemma DottedAsIs(t: Text)
    requires DigitsAndDots(t)
    ensures TrimStart(t) == t && TrimEnd(t) == t && Lower(t) == t
    ensures TrimEnd(MAPPED + t) == MAPPED + t && Lower(MAPPED + t) == MAPPED + t
  {
    var mapped := MAPPED + t;
    assert mapped[|mapped| - 1] == t[|t| - 1];
    forall i | 0 <= i < |mapped| ensures LowerUnit(mapped[i]) == mapped[i] {
      if i >= 7 { assert mapped[i] == t[i - 7]; }
    }
  }

  lemma NotUnidentified(t: Text)
    requires t != [] && t[0] != 117
    ensures t != UNIDENTIFIED
  {
  }

  lemma NotMapped(t: Text)
    requires |t| >= 7 && t[0] != COLON
    ensures t[..7] != MAPPED
  {
    assert t[..7][0] == t[0];
  }

  lemma PlainKey(t: Text, family: Family)
    requires DigitsAndDots(t) && family(t) != 6
    ensures NormalizeAddress(t, family) == if family(t) == 4 then Some(t) else None
  {
    hide TrimStart, TrimEnd, Lower, Expand;
    DottedAsIs(t);
    NotUnidentified(t);
    if |t| >= 7 { NotMapped(t); }
  }

  lemma MappedKey(t: Text, mapped: Text, family: Family)
    requires DigitsAndDots(t) && family(t) == 4 && mapped == MAPPED + t
    ensures NormalizeAddress(mapped, family) == Some(t)
  {
    DottedAsIs(t);
    assert mapped[..7] == MAPPED && mapped[7..] == t;
    assert mapped[0] == COLON && TrimStart(mapped) == mapped;
    hide TrimStart, TrimEnd, Lower, Expand;
    NotUnidentified(mapped);
  }

  /** A dotted quad is its own key, also when it comes mapped into IPv6; another text of digits and dots has none. */
  lemma DottedKeys(t: Text, family: Family)
    requires DigitsAndDots(t) && family(t) != 6
    ensures NormalizeAddress(t, family) == if family(t) == 4 then Some(t) else None
    ensures family(t) == 4 ==> NormalizeAddress([58, 58, 102, 102, 102, 102, 58] + t, family) == Some(t)
  {
    hide NormalizeAddress;
    PlainKey(t, family);
    if family(t) == 4 { MappedKey(t, MAPPED + t, family); }
  }

  /** "unidentified-peer" is kept, in any case and with any spaces around. */
  lemma UnidentifiedKey(t: Text, family: Family)
    requires Lower(TrimEnd(TrimStart(t)))
      == [117, 110, 105, 100, 101, 110, 116, 105, 102, 105, 101, 100, 45, 112, 101, 101, 114]
    ensures NormalizeAddress(t, family)
      == Some([117, 110, 105, 100, 101, 110, 116, 105, 102, 105, 101, 100, 45, 112, 101, 101, 114])
  {
    hide TrimStart, TrimEnd, Lower, Expand;
  }
}
