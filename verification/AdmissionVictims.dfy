/** What an admission evicts and stores, in terms of the records alone, and when a creation succeeds in a run. */
module AdmissionVictims {
  import opened Options
  import opened Sequences
  import opened Policy
  import opened Uploads
  import opened AdmissionExactly
  import opened Lifecycle
  import opened LifecycleRuns
  import Capacity

  // ------------------------------------------------------------------ fair victims

  /** The records that still hold bytes once some are gone. */
  ghost function KeptIds(r: Repo, gone: seq<Id>, install: string): set<Id> {
    set id | id in r.records && IsKept(r.records[id], r.released) && id !in gone && r.records[id].install == install
  }

  /** The install of v holds more than that of b, or as many and v is older, or as old and its id is smaller. */
  ghost predicate GoesBefore(r: Repo, gone: seq<Id>, v: Id, b: Id)
    requires v in r.records && b in r.records
  {
    var mine, other := |KeptIds(r, gone, r.records[v].install)|, |KeptIds(r, gone, r.records[b].install)|;
    || other < mine
    || (other == mine
        && (|| r.records[v].createdAt < r.records[b].createdAt
            || (r.records[v].createdAt == r.records[b].createdAt && v < b)))
  }

  predicate MayBeEvicted(r: Repo, id: Id) {
    id in r.records && IsKept(r.records[id], r.released) && MayGo(r.records[id])
  }

  function Freed(r: Repo, ids: seq<Id>): nat
    requires forall id :: id in ids ==> id in r.records
  {
    if ids == [] then 0 else r.records[ids[0]].sizeBytes + Freed(r, ids[1..])
  }

  ghost predicate InTurn(r: Repo, ids: seq<Id>)
    requires forall id :: id in ids ==> id in r.records
  {
    forall k, b :: 0 <= k < |ids| && MayBeEvicted(r, b) && b !in ids[..k] && b != ids[k] ==>
      GoesBefore(r, ids[..k], ids[k], b)
  }

  /** Evicted one at a time, each in its turn, until enough is free and not longer. */
  ghost predicate FairVictims(r: Repo, ids: seq<Id>, need: int) {
    && Distinct(ids) && (forall id :: id in ids ==> MayBeEvicted(r, id))
    && InTurn(r, ids)
    && Freed(r, ids) >= need
    && forall k :: 0 <= k < |ids| ==> Freed(r, ids[..k]) < need
  }

  ghost function Archives(r: Repo): set<Capacity.Archive>
    requires WellFormed(r)
  {
    Elements(RetainedArchives(Values(r), r.released))
  }

  /** The archives of a repository are its kept records. */
  lemma ArchivesExactly(r: Repo, a: Capacity.Archive)
    requires WellFormed(r)
    ensures a in Archives(r) <==>
      && a.id in r.records && IsKept(r.records[a.id], r.released)
      && a == Capacity.Archive(a.id, r.records[a.id].install, r.records[a.id].sizeBytes, r.records[a.id].createdAt,
                               MayGo(r.records[a.id]))
  {
    hide IsKept, IsRetained, MayGo;
    RetainedDistinct(r);
    if a.id in r.records { KeptIsRetained(r.records[a.id], r.released); }
    if a.id in r.records && IsKept(r.records[a.id], r.released) && a == ToArchive(r.records[a.id]) {
      var kept := Filter(Values(r), (u: Upload) => IsRetained(u, r.released));
      ValuesDistinct(r);
      assert r.records[a.id] in kept;
      var i :| 0 <= i < |kept| && kept[i] == r.records[a.id];
      assert RetainedArchives(Values(r), r.released)[i] == a;
    }
  }

  /** Counting archives is counting their ids. */
  lemma {:induction false} CountByIds(archives: set<Capacity.Archive>, ids: set<Id>)
    requires Capacity.DistinctIds(archives)
    requires forall a :: a in archives ==> a.id in ids
    requires forall id :: id in ids ==> exists a :: a in archives && a.id == id
    ensures |archives| == |ids|
  {
    if archives == {} {
      assert ids == {};
    } else {
      var a :| a in archives;
      forall id | id in ids - {a.id} ensures exists b :: b in archives - {a} && b.id == id {
        var b :| b in archives && b.id == id;
        assert b in archives - {a};
      }
      CountByIds(archives - {a}, ids - {a.id});
    }
  }

  lemma NotGone(gone: seq<Capacity.Archive>, a: Capacity.Archive)
    requires a.id !in Capacity.IdList(gone)
    ensures a !in gone
  {
    forall i | 0 <= i < |gone| ensures gone[i] != a { assert Capacity.IdList(gone)[i] == gone[i].id; }
  }

  lemma SameHeld(r: Repo, gone: seq<Capacity.Archive>, install: string)
    requires WellFormed(r) && forall v :: v in gone ==> v in Archives(r)
    ensures Capacity.Held(Archives(r) - Elements(gone), install) == |KeptIds(r, Capacity.IdList(gone), install)|
  {
    hide IsKept, MayGo, WellFormed;
    var left := Archives(r) - Elements(gone);
    var archives := set a | a in left && a.install == install;
    var ids := KeptIds(r, Capacity.IdList(gone), install);
    forall a | a in archives ensures a.id in ids {
      ArchivesExactly(r, a);
      if i :| 0 <= i < |gone| && gone[i].id == a.id { ArchivesExactly(r, gone[i]); }
    }
    forall id | id in ids ensures exists a :: a in archives && a.id == id {
      var u := r.records[id];
      var a := Capacity.Archive(id, u.install, u.sizeBytes, u.createdAt, MayGo(u));
      ArchivesExactly(r, a);
      NotGone(gone, a);
      assert a in archives;
    }
    DistinctArchives(r);
    CountByIds(archives, ids);
  }

  lemma DistinctArchives(r: Repo)
    requires WellFormed(r)
    ensures Capacity.DistinctIds(Archives(r))
  {
    RetainedDistinct(r);
  }

  lemma {:induction false} SameFreed(r: Repo, victims: seq<Capacity.Archive>)
    requires WellFormed(r) && forall v :: v in victims ==> v in Archives(r)
    ensures forall id :: id in Capacity.IdList(victims) ==> id in r.records
    ensures Freed(r, Capacity.IdList(victims)) == Sum(victims, Capacity.Size)
  {
    hide WellFormed, IsKept, MayGo, Archives;
    forall v | v in victims ensures v.id in r.records && r.records[v.id].sizeBytes == v.sizeBytes {
      ArchivesExactly(r, v);
    }
    if victims != [] {
      assert victims[0] in victims;
      SameFreed(r, victims[1..]);
      assert Capacity.IdList(victims)[1..] == Capacity.IdList(victims[1..]);
    }
  }

  lemma IdsUpTo(victims: seq<Capacity.Archive>, k: nat)
    requires k <= |victims|
    ensures Capacity.IdList(victims)[..k] == Capacity.IdList(victims[..k])
  {
  }

  lemma SameTurns(r: Repo, victims: seq<Capacity.Archive>)
    requires WellFormed(r) && Capacity.TakenInTurn(Archives(r), victims)
    requires forall v :: v in victims ==> v in Archives(r)
    requires forall id :: id in Capacity.IdList(victims) ==> id in r.records
    ensures InTurn(r, Capacity.IdList(victims))
  {
    hide IsKept, MayGo, WellFormed, Archives, Capacity.TakenBefore, GoesBefore;
    var ids := Capacity.IdList(victims);
    forall k, b | 0 <= k < |ids| && MayBeEvicted(r, b) && b !in ids[..k] && b != ids[k]
      ensures GoesBefore(r, ids[..k], ids[k], b)
    {
      TurnOf(r, victims, k, b);
    }
  }

  lemma TurnOf(r: Repo, victims: seq<Capacity.Archive>, k: nat, b: Id)
    requires WellFormed(r) && Capacity.TakenInTurn(Archives(r), victims) && k < |victims|
    requires forall v :: v in victims ==> v in Archives(r)
    requires MayBeEvicted(r, b) && b !in Capacity.IdList(victims)[..k] && b != victims[k].id
    ensures victims[k].id in r.records && GoesBefore(r, Capacity.IdList(victims)[..k], victims[k].id, b)
  {
    hide IsKept, MayGo, WellFormed, Archives, KeptIds, Capacity.Held;
    var u := r.records[b];
    var a := Capacity.Archive(b, u.install, u.sizeBytes, u.createdAt, MayGo(u));
    ArchivesExactly(r, a);
    var v := victims[k];
    assert v in victims;
    ArchivesExactly(r, v);
    IdsUpTo(victims, k);
    var gone := victims[..k];
    NotGone(gone, a);
    assert a in Archives(r) - Elements(gone) && a.evictable && a != v;
    SameHeld(r, gone, v.install);
    SameHeld(r, gone, a.install);
    assert Capacity.TakenBefore(Archives(r) - Elements(gone), v, a);
  }

  lemma VictimMayGo(r: Repo, v: Capacity.Archive)
    requires WellFormed(r) && v in Archives(r) && v.evictable
    ensures MayBeEvicted(r, v.id)
  {
    hide Archives, WellFormed;
    ArchivesExactly(r, v);
  }

  lemma SameFair(r: Repo, victims: seq<Capacity.Archive>, need: int)
    requires WellFormed(r) && Capacity.FairEvictions(Archives(r), need, victims)
    ensures FairVictims(r, Capacity.IdList(victims), need)
  {
    hide WellFormed, Capacity.TakenInTurn, InTurn, Archives, MayBeEvicted, Sum, Freed;
    var ids := Capacity.IdList(victims);
    SameFreed(r, victims);
    SameTurns(r, victims);
    forall k | 0 <= k < |victims| ensures Freed(r, ids[..k]) < need {
      SameFreed(r, victims[..k]);
      IdsUpTo(victims, k);
    }
    forall id | id in ids ensures MayBeEvicted(r, id) {
      var i :| 0 <= i < |victims| && victims[i].id == id;
      VictimMayGo(r, victims[i]);
    }
    VictimsDiffer(r, victims);
  }

  lemma VictimsDiffer(r: Repo, victims: seq<Capacity.Archive>)
    requires WellFormed(r) && Distinct(victims) && forall v :: v in victims ==> v in Archives(r)
    ensures Distinct(Capacity.IdList(victims))
  {
    DistinctArchives(r);
    hide WellFormed, Archives;
  }

  /** The capacity rule's victims are fair ones. */
  lemma EvictionsAreFair(r: Repo, record: Upload, limits: QuotaLimits)
    requires WellFormed(r) && Evictions(r, record, limits).Some?
    ensures FairVictims(r, Capacity.IdList(Evictions(r, record, limits).value),
                        Bytes(Values(r), Kept(r.released)) + record.sizeBytes - limits.globalRetainedBytes)
  {
    hide Evictions, Archives, FairVictims, Capacity.FairEvictions, Capacity.Greedy, Bytes, Kept, Capacity.DistinctIds;
    var need := Bytes(Values(r), Kept(r.released)) + record.sizeBytes - limits.globalRetainedBytes;
    var victims := Evictions(r, record, limits).value;
    NeedExactly(r, record, limits);
    Capacity.GreedyExactly(Archives(r), need, victims);
    SameFair(r, victims, need);
  }

  lemma NeedExactly(r: Repo, record: Upload, limits: QuotaLimits)
    requires WellFormed(r)
    ensures Capacity.DistinctIds(Archives(r))
    ensures Evictions(r, record, limits)
      == Capacity.Greedy(Archives(r),
                         Bytes(Values(r), Kept(r.released)) + record.sizeBytes - limits.globalRetainedBytes)
  {
    hide RetainedArchives, Kept, Capacity.Greedy, Bytes, Sum, Capacity.DistinctIds;
    ArchiveBytes(Values(r), r.released);
    DistinctArchives(r);
  }

  // ------------------------------------------------------------------ what is stored

  /** The victims expire and give up their bytes, one audit event each; the rest is as it was. */
  ghost predicate Evicted(r: Repo, ids: seq<Id>, at: int, r': Repo)
    requires forall id :: id in ids ==> id in r.records
  {
    && r'.records.Keys == r.records.Keys
    && (forall id :: id in r.records ==>
          r'.records[id] == if id in ids then r.records[id].(status := Expired, updatedAt := at) else r.records[id])
    && r'.order == r.order
    && (forall id :: id in r'.released <==> id in r.released || id in ids)
    && |r'.audit| == |r.audit| + |ids| && r.audit <= r'.audit
    && forall k :: 0 <= k < |ids| ==>
         r'.audit[|r.audit| + k] == AuditRecord(|r.audit| + k + 1, ids[k], Event(RetentionEvicted, at))
  }

  lemma {:induction false} EvictAllExactly(r: Repo, ids: seq<Id>, at: int)
    requires forall id :: id in ids ==> id in r.records
    ensures Evicted(r, ids, at, EvictAll(r, ids, at))
  {
    if ids != [] {
      var n := |ids| - 1;
      assert ids == ids[..n] + [ids[n]];
      EvictAllExactly(r, ids[..n], at);
      EvictOneMore(r, ids[..n], ids[n], at, EvictAll(r, ids[..n], at));
    }
  }

  lemma EvictOneMore(r: Repo, ids: seq<Id>, last: Id, at: int, middle: Repo)
    requires (forall id :: id in ids ==> id in r.records) && last in r.records && Evicted(r, ids, at, middle)
    ensures Evicted(r, ids + [last], at, Evict(middle, last, at))
  {
    var more := ids + [last];
    assert forall id :: id in more <==> id in ids || id == last;
  }

  /** Admitted: fair victims are evicted, the record is stored last, and its event ends the audit. */
  ghost predicate Admitted(r: Repo, record: Upload, event: Event, need: int, r': Repo) {
    exists ids: seq<Id>, middle: Repo ::
      && FairVictims(r, ids, need) && Evicted(r, ids, record.createdAt, middle)
      && r' == Repo(middle.records[record.id := record], middle.order + [record.id], middle.released,
                    middle.audit + [AuditRecord(|middle.audit| + 1, record.id, event)])
  }

  lemma AddedIsAdmitted(r: Repo, record: Upload, event: Event, need: int, ids: seq<Id>, middle: Repo)
    requires FairVictims(r, ids, need) && (forall id :: id in ids ==> id in r.records)
    requires Evicted(r, ids, record.createdAt, middle)
    ensures Admitted(r, record, event, need, Add(middle, record, event))
  {
    hide FairVictims, Evicted;
  }

  /** An admission evicts fair victims and stores the record, and nothing else. */
  lemma AdmissionStores(r: Repo, record: Upload, since: int, limits: QuotaLimits, event: Event)
    requires WellFormed(r) && record.id !in r.records
    requires InsertWithinQuota(r, record, since, limits, event).Ok?
    requires InsertWithinQuota(r, record, since, limits, event).value.1
    ensures Admitted(r, record, event,
                     Bytes(Values(r), Kept(r.released)) + record.sizeBytes - limits.globalRetainedBytes,
                     InsertWithinQuota(r, record, since, limits, event).value.0)
  {
    hide InsertWithinQuota, Evictions, FairVictims, Evicted, Bytes, Kept, Admitted, EvictAll, Add;
    AdmissionShape(r, record, since, limits, event);
    EvictionsAreFair(r, record, limits);
    var ids := Capacity.IdList(Evictions(r, record, limits).value);
    EvictAllExactly(r, ids, record.createdAt);
    var need := Bytes(Values(r), Kept(r.released)) + record.sizeBytes - limits.globalRetainedBytes;
    AddedIsAdmitted(r, record, event, need, ids, EvictAll(r, ids, record.createdAt));
  }

  // ------------------------------------------------------------------ creations of a run

  /** The numbers of the diagnostic policy. */
  ghost predicate CreationAllowed(r: Repo, install: string, network: string, sizeBytes: nat, now: int)
    requires forall id :: id in r.order ==> id in r.records
  {
    var us, since := Values(r), now - 86_400_000;
    && install != "" && 1 <= sizeBytes <= 3_221_225_472
    && Many(us, TodayOf(install, since)) < 8 && Many(us, TodayFrom(network, since)) < 40
    && Many(us, BusyOf(install, since)) < 2 && Many(us, BusyFrom(network, since)) < 8
    && Many(us, Today(since)) < 1000 && Many(us, BusyToday(since)) < 32
    && Bytes(us, TodayOf(install, since)) + sizeBytes <= 42_949_672_960
    && Bytes(us, TodayFrom(network, since)) + sizeBytes <= 128_849_018_880
    && Bytes(us, Today(since)) + sizeBytes <= 536_870_912_000
    && RoomEnough(us, r.released, sizeBytes, 1_000_000_000_000)
  }

  lemma AllowedExactly(r: Repo, record: Upload, now: int)
    requires WellFormed(r) && record.install != "" && 1 <= record.sizeBytes <= 3_221_225_472
    ensures CreationAllowed(r, record.install, record.network, record.sizeBytes, now) <==>
      && QuotasAllow(Values(r), record, now - 24 * MILLIS_PER_HOUR, DIAGNOSTIC_QUOTA)
      && RoomEnough(Values(r), r.released, record.sizeBytes, DIAGNOSTIC_QUOTA.globalRetainedBytes)
  {
    hide Many, Bytes, RoomEnough;
  }

  /**
   * In every run a creation under a new id succeeds exactly when the policy's numbers allow it. Then it evicts fair
   * victims, stores the upload to expire after 72 hours and audits it; otherwise nothing changes.
   */
  lemma CreatedExactly(steps: seq<Step>, id: Id, install: string, network: string, sizeBytes: nat)
    requires id !in Run(steps).repo.records
    ensures WellFormed(Run(steps).repo)
    ensures var s := Run(steps);
      var s' := Next(s, OnUpload(Create(id, install, network, sizeBytes)));
      var record := Upload(id, install, network, sizeBytes, Uploading, s.now, None, s.now + 259_200_000, None, map[],
                           0, None, 0, None, s.now);
      if CreationAllowed(s.repo, install, network, sizeBytes, s.now) then
        && s' == s.(repo := s'.repo, restored := 0)
        && Admitted(s.repo, record, Event(UploadCreated, s.now),
                    Bytes(Values(s.repo), Kept(s.repo.released)) + sizeBytes - 1_000_000_000_000, s'.repo)
      else s' == s
  {
    hide Run, InsertWithinQuota, Admitted, QuotasAllow, RoomEnough, Bytes, Many;
    var s := Run(steps);
    SafeIsWellFormed(s);
    hide Safe;
    if install != "" && 1 <= sizeBytes <= 3_221_225_472 {
      var record := NewUpload(id, install, network, sizeBytes, s.now, s.now + 72 * MILLIS_PER_HOUR);
      var since := s.now - 24 * MILLIS_PER_HOUR;
      AllowedExactly(s.repo, record, s.now);
      AdmittedExactly(s.repo, record, since, DIAGNOSTIC_QUOTA, Event(UploadCreated, s.now));
      if InsertWithinQuota(s.repo, record, since, DIAGNOSTIC_QUOTA, Event(UploadCreated, s.now)).value.1 {
        AdmissionStores(s.repo, record, since, DIAGNOSTIC_QUOTA, Event(UploadCreated, s.now));
      }
    }
  }
}
