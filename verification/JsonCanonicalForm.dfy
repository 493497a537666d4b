/** Canonical JSON is a canonical form: equal texts mean equal data, and printing what was parsed changes nothing. */
module JsonCanonicalForm {
  import opened Options
  import opened CanonicalJson
  import opened JsonParser

  /** Equal up to the order of object keys, at every depth. */
  predicate SameData(a: Value, b: Value)
    decreases a
  {
    match (a, b)
    case (Arr(xs), Arr(ys)) =>
      |xs| == |ys| && forall i :: 0 <= i < |xs| ==> SameData(xs[i], ys[i])
    case (Obj(ms), Obj(ns)) =>
      && |ms| == |ns|
      && forall i :: 0 <= i < |ms| ==>
        exists j :: 0 <= j < |ns| && ms[i].key == ns[j].key && SameData(ms[i].value, ns[j].value)
    case _ => a == b
  }

  predicate DistinctKeys(ms: seq<Member>) {
    forall i, j :: 0 <= i < j < |ms| ==> ms[i].key != ms[j].key
  }

  /** A JavaScript object holds each key once. */
  predicate IsData(v: Value) {
    match v
    case Arr(items) => forall i :: 0 <= i < |items| ==> IsData(items[i])
    case Obj(members) => DistinctKeys(members) && forall i :: 0 <= i < |members| ==> IsData(members[i].value)
    case _ => true
  }

  predicate InOrder(ms: seq<Member>) {
    forall i, j :: 0 <= i < j < |ms| ==> KeyBefore(ms[i].key, ms[j].key)
  }

  // ------------------------------------------------------------------ arranging members

  lemma {:induction false} InsertInOrder(m: Member, ms: seq<Member>)
    requires InOrder(ms) && forall x :: x in ms ==> x.key != m.key
    ensures InOrder(InsertMember(m, ms))
  {
    hide KeyBefore;
    if ms != [] {
      var r := InsertMember(m, ms);
      forall x | x in ms ensures KeyBefore(ms[0].key, x.key) || x == ms[0] {}
      KeyOrder(ms[0].key, m.key, m.key);
      if KeyBefore(ms[0].key, m.key) {
        InsertInOrder(m, ms[1..]);
        forall i | 0 < i < |r| ensures KeyBefore(r[0].key, r[i].key) {
          assert r[i] in InsertMember(m, ms[1..]);
        }
      } else {
        forall i | 0 < i < |r| ensures KeyBefore(r[0].key, r[i].key) {
          KeyOrder(m.key, ms[0].key, r[i].key);
        }
      }
    }
  }

  lemma {:induction false} ArrangeInOrder(ms: seq<Member>)
    requires DistinctKeys(ms)
    ensures InOrder(Arrange(ms))
  {
    if ms != [] {
      ArrangeInOrder(ms[1..]);
      InsertInOrder(ms[0], Arrange(ms[1..]));
    }
  }

  lemma {:induction false} OrderedListsAgree(p: seq<Member>, q: seq<Member>)
    requires InOrder(p) && InOrder(q) && forall x :: x in p <==> x in q
    ensures p == q
  {
    hide KeyBefore;
    assert q != [] ==> q[0] in q;
    if p != [] {
      assert p[0] in p && p[0] in q && q[0] in q && q[0] in p;
      KeyOrder(p[0].key, q[0].key, p[0].key);
      assert p[0] == q[0];
      TailsAgree(p, q);
      TailsAgree(q, p);
      OrderedListsAgree(p[1..], q[1..]);
    }
  }

  lemma TailsAgree(p: seq<Member>, q: seq<Member>)
    requires InOrder(p) && p != [] && q != [] && p[0] == q[0] && forall x :: x in p ==> x in q
    ensures forall x :: x in p[1..] ==> x in q[1..]
  {
    hide KeyBefore;
    forall i | 1 <= i < |p| ensures p[i] in q[1..] {
      KeyOrder(p[0].key, p[0].key, p[0].key);
      assert p[i] in p;
    }
  }

  /** Two lists of members with distinct keys, as long as each other and one inside the other, arrange alike. */
  lemma ArrangedAlike(ms: seq<Member>, ns: seq<Member>)
    requires DistinctKeys(ms) && DistinctKeys(ns) && |ms| == |ns| && forall x :: x in ms ==> x in ns
    ensures Arrange(ms) == Arrange(ns)
  {
    var s, t := set x | x in ms, set x | x in ns;
    ElementCount(ms);
    ElementCount(ns);
    SameSet(s, t);
    forall x ensures x in ms <==> x in ns { assert x in s <==> x in t; }
    ArrangeInOrder(ms);
    ArrangeInOrder(ns);
    OrderedListsAgree(Arrange(ms), Arrange(ns));
  }

  lemma {:induction false} ElementCount(ms: seq<Member>)
    requires DistinctKeys(ms)
    ensures |set x | x in ms| == |ms|
  {
    if ms != [] {
      ElementCount(ms[1..]);
      assert (set x | x in ms) == {ms[0]} + set x | x in ms[1..];
    }
  }

  lemma SameSet(s: set<Member>, t: set<Member>)
    requires s <= t && |s| == |t|
    ensures s == t
  {
    assert |t - s| == |t| - |s|;
  }

  // ------------------------------------------------------------------ canonical values

  lemma {:induction false} SameCanonSameData(a: Value, b: Value)
    requires Canon(a) == Canon(b)
    ensures SameData(a, b)
    decreases a
  {
    match (a, b) {
      case (Arr(xs), Arr(ys)) =>
        assert CanonItems(xs) == CanonItems(ys);
        forall i | 0 <= i < |xs| ensures SameData(xs[i], ys[i]) {
          assert CanonItems(xs)[i] == CanonItems(ys)[i];
          SameCanonSameData(xs[i], ys[i]);
        }
      case (Obj(ms), Obj(ns)) =>
        var p, q := CanonMembers(ms), CanonMembers(ns);
        assert Arrange(p) == Arrange(q);
        forall i | 0 <= i < |ms|
          ensures exists j :: 0 <= j < |ns| && ms[i].key == ns[j].key && SameData(ms[i].value, ns[j].value)
        {
          assert p[i] in p && p[i] in Arrange(q);
          var j :| 0 <= j < |q| && q[j] == p[i];
          SameCanonSameData(ms[i].value, ns[j].value);
        }
      case _ =>
    }
  }

  lemma {:induction false} SameDataSameCanon(a: Value, b: Value)
    requires IsData(a) && IsData(b) && SameData(a, b)
    ensures Canon(a) == Canon(b)
    decreases a
  {
    match (a, b) {
      case (Arr(xs), Arr(ys)) =>
        forall i | 0 <= i < |xs| ensures CanonItems(xs)[i] == CanonItems(ys)[i] {
          SameDataSameCanon(xs[i], ys[i]);
        }
        assert CanonItems(xs) == CanonItems(ys);
      case (Obj(ms), Obj(ns)) =>
        var p, q := CanonMembers(ms), CanonMembers(ns);
        forall i | 0 <= i < |p| ensures p[i] in q {
          var j :| 0 <= j < |ns| && ms[i].key == ns[j].key && SameData(ms[i].value, ns[j].value);
          SameDataSameCanon(ms[i].value, ns[j].value);
          assert q[j] == p[i];
        }
        ArrangedAlike(p, q);
      case _ =>
    }
  }

  lemma {:induction false} CanonTwice(v: Value)
    requires IsData(v)
    ensures Canon(Canon(v)) == Canon(v)
  {
    match v {
      case Arr(items) =>
        var r := CanonItems(items);
        forall i | 0 <= i < |r| ensures CanonItems(r)[i] == r[i] { CanonTwice(items[i]); }
        assert CanonItems(r) == r;
      case Obj(members) =>
        var p := CanonMembers(members);
        var q := Arrange(p);
        forall i | 0 <= i < |q| ensures Canon(q[i].value) == q[i].value {
          assert q[i] in q && q[i] in p;
          var j :| 0 <= j < |p| && p[j] == q[i];
          CanonTwice(members[j].value);
        }
        assert CanonMembers(q) == q;
        ArrangeInOrder(p);
        InOrderDistinct(q);
        ArrangeInOrder(q);
        OrderedListsAgree(Arrange(q), q);
      case _ =>
    }
  }

  lemma InOrderDistinct(ms: seq<Member>)
    requires InOrder(ms)
    ensures DistinctKeys(ms)
  {
    hide KeyBefore;
    forall i, j | 0 <= i < j < |ms| ensures ms[i].key != ms[j].key {
      KeyOrder(ms[i].key, ms[j].key, ms[j].key);
    }
  }

  // ------------------------------------------------------------------ the canonical form

  /** The text is a canonical form: two values print the same exactly when they hold the same data. */
  lemma EqualTextsMeanEqualData(a: Value, b: Value)
    requires Supported(a) && Supported(b) && IsData(a) && IsData(b)
    ensures CanonicalText(a) == CanonicalText(b) <==> SameData(a, b)
  {
    if CanonicalText(a) == CanonicalText(b) {
      CanonicalTextParses(a);
      CanonicalTextParses(b);
      SameCanonSameData(a, b);
    }
    if SameData(a, b) {
      SameDataSameCanon(a, b);
    }
  }

  /** A reader that parses a canonical text and prints what it read gets the text back: signatures still match. */
  lemma ReprintingChangesNothing(v: Value)
    requires Supported(v) && IsData(v)
    ensures var text := CanonicalText(v).value;
      && ParseValue(text).Some? && ParseValue(text).value.1 == []
      && CanonicalText(ParseValue(text).value.0) == Ok(text)
      && SameData(v, ParseValue(text).value.0)
  {
    CanonicalTextParses(v);
    CanonSupported(v);
    CanonTwice(v);
    SameCanonSameData(v, Canon(v));
  }
}
