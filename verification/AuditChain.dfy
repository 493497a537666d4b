/** The hash chain over audit entries: equal last hashes mean equal histories, unless the hash collides. */
module AuditChain {
  import opened Options
  import opened CanonicalJson
  import opened JsonCanonicalForm
  import opened ControlState
  import opened CommandText
  import opened ControlLog

  datatype Row = Row(previousHash: Option<Text>, commandId: Text, actor: Actor, command: Command,
                     resultingRevision: nat, createdAt: Text, entryHash: Text)

  /** SHA-256 in hexadecimal, of which nothing is assumed here. */
  type Hash = Text -> Text

  /** How an instant is spelled in ISO form. */
  type Spelling = int -> Text

  function RowMembers(row: Row): seq<Member> {
    [Field("previousHash", Optional(row.previousHash)), Field("commandId", Str(row.commandId)),
     Field("actorKind", Named(KindName(row.actor.kind))), Field("actorId", Str(row.actor.userId)),
     Field("command", CommandData(row.command)), Field("resultingRevision", Num(row.resultingRevision)),
     Field("createdAt", Str(row.createdAt))]
  }

  lemma RowKeysDistinct(row: Row)
    ensures DistinctKeys(RowMembers(row))
  {
    hide Chars, CommandData, KindName;
    NamesDiffer("commandId", "actorKind", 0);
    NamesDiffer("commandId", "createdAt", 1);
    NamesDiffer("actorKind", "createdAt", 0);
    NamesDiffer("actorId", "command", 0);
    var ms := RowMembers(row);
    assert |ms[0].key| == 12 && |ms[1].key| == 9 && |ms[2].key| == 9 && |ms[3].key| == 7;
    assert |ms[4].key| == 7 && |ms[5].key| == 17 && |ms[6].key| == 9;
  }

  lemma RowIsData(row: Row)
    ensures IsData(Obj(RowMembers(row))) && Supported(Obj(RowMembers(row)))
  {
    hide Chars, CommandData, KindName;
    RowKeysDistinct(row);
    CommandIsData(row.command);
  }

  /** The text that auditEntryHash hashes. */
  function RowText(row: Row): Text {
    RowIsData(row);
    CanonicalText(Obj(RowMembers(row))).value
  }

  /** The same row with another hash. */
  predicate SameContent(r: Row, q: Row) {
    r.(entryHash := []) == q.(entryHash := [])
  }

  lemma SameTextSameContent(r: Row, q: Row)
    requires RowText(r) == RowText(q)
    ensures SameContent(r, q)
  {
    hide Chars, CommandData, KindName, RowMembers;
    RowIsData(r);
    RowIsData(q);
    EqualTextsMeanEqualData(Obj(RowMembers(r)), Obj(RowMembers(q)));
    SameRowData(r, q);
  }

  lemma SameRowData(r: Row, q: Row)
    requires SameData(Obj(RowMembers(r)), Obj(RowMembers(q)))
    ensures SameContent(r, q)
  {
    hide Chars, CommandData, KindName, SameData, DistinctKeys;
    var ms, ns := RowMembers(r), RowMembers(q);
    RowKeysDistinct(q);
    forall i | 0 <= i < 7 ensures SameData(ms[i].value, ns[i].value) { SameLayout(ms, ns, i); }
    assert SameData(ms[4].value, ns[4].value);
    DataDeterminesCommand(r.command, q.command);
    SameAtoms(ms[0].value, ns[0].value);
    SameAtoms(ms[1].value, ns[1].value);
    SameAtoms(ms[2].value, ns[2].value);
    SameAtoms(ms[3].value, ns[3].value);
    SameAtoms(ms[5].value, ns[5].value);
    SameAtoms(ms[6].value, ns[6].value);
    OtherNamesDiffer();
  }

  // ------------------------------------------------------------------ chains

  function PreviousHash(rows: seq<Row>, i: nat): Option<Text>
    requires i <= |rows|
  {
    if i == 0 then None else Some(rows[i - 1].entryHash)
  }

  ghost predicate IsChain(rows: seq<Row>, hash: Hash) {
    forall i :: 0 <= i < |rows| ==>
      rows[i].previousHash == PreviousHash(rows, i) && rows[i].entryHash == hash(RowText(rows[i]))
  }

  /** The hash does not collide on the texts of these rows. */
  ghost predicate NoCollision(a: seq<Row>, b: seq<Row>, hash: Hash) {
    forall i, j :: 0 <= i < |a| && 0 <= j < |b| && hash(RowText(a[i])) == hash(RowText(b[j])) ==>
      RowText(a[i]) == RowText(b[j])
  }

  /** Two chains that end in the same hash are the same, entry by entry, back to the first. */
  lemma {:induction false} EqualEndsEqualChains(a: seq<Row>, b: seq<Row>, hash: Hash)
    requires IsChain(a, hash) && IsChain(b, hash) && NoCollision(a, b, hash)
    requires a != [] && b != [] && a[|a| - 1].entryHash == b[|b| - 1].entryHash
    ensures a == b
    decreases |a|
  {
    hide RowText, IsChain;
    var m, n := |a| - 1, |b| - 1;
    Links(a, m, hash);
    Links(b, n, hash);
    assert RowText(a[m]) == RowText(b[n]);
    SameTextSameContent(a[m], b[n]);
    assert a[m] == b[n];
    PrefixIsChain(a, hash);
    PrefixIsChain(b, hash);
    if m > 0 && n > 0 {
      EqualEndsEqualChains(a[..m], b[..n], hash);
    }
    assert a == a[..m] + [a[m]] && b == b[..n] + [b[n]];
  }

  lemma Links(rows: seq<Row>, i: nat, hash: Hash)
    requires IsChain(rows, hash) && i < |rows|
    ensures rows[i].previousHash == PreviousHash(rows, i) && rows[i].entryHash == hash(RowText(rows[i]))
  {
    hide RowText;
  }

  lemma PrefixIsChain(rows: seq<Row>, hash: Hash)
    requires IsChain(rows, hash) && rows != []
    ensures IsChain(rows[..|rows| - 1], hash)
  {
    hide RowText;
    var p := rows[..|rows| - 1];
    forall i | 0 <= i < |p|
      ensures p[i].previousHash == PreviousHash(p, i) && p[i].entryHash == hash(RowText(p[i]))
    {
      assert p[i] == rows[i] && PreviousHash(p, i) == PreviousHash(rows, i);
    }
  }

  // ------------------------------------------------------------------ the rows the repository writes

  /** The place of the row with the greatest resulting revision, or -1. */
  function NewestRow(rows: seq<Row>): (k: int)
    ensures -1 <= k < |rows|
    ensures rows != [] ==> k >= 0 && forall i :: 0 <= i < |rows| ==> rows[i].resultingRevision <= rows[k].resultingRevision
  {
    if rows == [] then -1
    else
      var n := |rows| - 1;
      var k := NewestRow(rows[..n]);
      if k >= 0 && rows[k].resultingRevision >= rows[n].resultingRevision then k else n
  }

  /** The row for an entry, linked to the newest row there is. */
  function NewRow(rows: seq<Row>, entry: Entry, hash: Hash, iso: Spelling): Row {
    var k := NewestRow(rows);
    var previous := if k < 0 then None else Some(rows[k].entryHash);
    var row := Row(previous, entry.commandId, entry.actor, entry.command, entry.resultingRevision,
                   iso(entry.createdAt), []);
    row.(entryHash := hash(RowText(row)))
  }

  /** The rows written for an audit, one per applied command. */
  function Rows(audit: seq<Entry>, hash: Hash, iso: Spelling): (rows: seq<Row>)
    ensures |rows| == |audit|
  {
    if audit == [] then []
    else
      var before := Rows(audit[..|audit| - 1], hash, iso);
      before + [NewRow(before, audit[|audit| - 1], hash, iso)]
  }

  ghost predicate Records(row: Row, entry: Entry) {
    row.commandId == entry.commandId && row.actor == entry.actor && row.command == entry.command
    && row.resultingRevision == entry.resultingRevision
  }

  lemma HashIgnoresItself(row: Row, h: Text)
    ensures RowText(row) == RowText(row.(entryHash := h))
  {
    RowIsData(row);
    assert RowMembers(row) == RowMembers(row.(entryHash := h));
  }

  lemma ChainGrows(rows: seq<Row>, row: Row, hash: Hash)
    requires IsChain(rows, hash)
    requires row.previousHash == PreviousHash(rows, |rows|) && row.entryHash == hash(RowText(row))
    ensures IsChain(rows + [row], hash)
  {
    hide RowText, PreviousHash;
    var longer := rows + [row];
    forall i | 0 <= i < |longer|
      ensures longer[i].previousHash == PreviousHash(longer, i) && longer[i].entryHash == hash(RowText(longer[i]))
    {
      SamePrevious(rows, row, i);
      if i < |rows| { Links(rows, i, hash); }
    }
  }

  lemma SamePrevious(rows: seq<Row>, row: Row, i: nat)
    requires i <= |rows|
    ensures PreviousHash(rows + [row], i) == PreviousHash(rows, i)
  {
  }

  lemma NewRowLinks(rows: seq<Row>, entry: Entry, hash: Hash, iso: Spelling)
    requires forall i :: 0 <= i < |rows| ==> rows[i].resultingRevision == i + 1
    ensures var row := NewRow(rows, entry, hash, iso);
      && row.previousHash == PreviousHash(rows, |rows|)
      && row.entryHash == hash(RowText(row))
      && Records(row, entry)
  {
    hide RowText;
    assert NewestRow(rows) == |rows| - 1;
    HashIgnoresItself(NewRow(rows, entry, hash, iso), []);
  }

  /** The repository's rows form a chain that records the audit. */
  lemma {:induction false} RowsAreChain(audit: seq<Entry>, hash: Hash, iso: Spelling)
    requires Numbered(audit)
    ensures IsChain(Rows(audit, hash, iso), hash)
    ensures forall i :: 0 <= i < |audit| ==> Records(Rows(audit, hash, iso)[i], audit[i])
    decreases |audit|
  {
    hide RowText, IsChain, NewRow;
    if audit != [] {
      var n := |audit| - 1;
      var before := Rows(audit[..n], hash, iso);
      RowsAreChain(audit[..n], hash, iso);
      assert forall i :: 0 <= i < n ==> Records(before[i], audit[..n][i]);
      NewRowLinks(before, audit[n], hash, iso);
      ChainGrows(before, NewRow(before, audit[n], hash, iso), hash);
    } else {
      EmptyIsChain(hash);
    }
  }

  lemma EmptyIsChain(hash: Hash)
    ensures IsChain([], hash)
  {
  }

  lemma {:induction false} FoldReadsCommands(a: seq<Entry>, b: seq<Entry>)
    requires |a| == |b| && forall i :: 0 <= i < |a| ==> a[i].command == b[i].command
    ensures Fold(a) == Fold(b)
    decreases |a|
  {
    hide Apply;
    if a != [] {
      FoldReadsCommands(a[..|a| - 1], b[..|b| - 1]);
    }
  }

  /** After any two runs, equal newest hashes mean the same commands by the same actors, and so the same state. */
  lemma NewestHashDeterminesState(first: seq<Step>, second: seq<Step>, at: Reading, hash: Hash, iso: Spelling)
    requires Run(first, at).audit != [] && Run(second, at).audit != []
    requires var a, b := Rows(Run(first, at).audit, hash, iso), Rows(Run(second, at).audit, hash, iso);
      NoCollision(a, b, hash) && a[|a| - 1].entryHash == b[|b| - 1].entryHash
    ensures var log, log' := Run(first, at), Run(second, at);
      && log.state == log'.state && |log.audit| == |log'.audit|
      && forall i :: 0 <= i < |log.audit| ==>
          && log.audit[i].commandId == log'.audit[i].commandId
          && log.audit[i].actor == log'.audit[i].actor
          && log.audit[i].command == log'.audit[i].command
  {
    hide Run, RowText, Fold;
    var log, log' := Run(first, at), Run(second, at);
    StateIsFoldOfAudit(first, at);
    StateIsFoldOfAudit(second, at);
    RowsAreChain(log.audit, hash, iso);
    RowsAreChain(log'.audit, hash, iso);
    EqualEndsEqualChains(Rows(log.audit, hash, iso), Rows(log'.audit, hash, iso), hash);
    forall i | 0 <= i < |log.audit|
      ensures log.audit[i].commandId == log'.audit[i].commandId && log.audit[i].actor == log'.audit[i].actor
        && log.audit[i].command == log'.audit[i].command
    {
      assert Records(Rows(log.audit, hash, iso)[i], log.audit[i]);
      assert Records(Rows(log'.audit, hash, iso)[i], log'.audit[i]);
    }
    FoldReadsCommands(log.audit, log'.audit);
  }
}
