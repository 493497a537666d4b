/** The ledger of retained bytes over whole runs: admissions bring it under the limit, failed deletions restore. */
module RetainedLedger {
  import opened Options
  import opened Sequences
  import opened Policy
  import opened Uploads
  import opened Lifecycle
  import opened Multipart
  import opened LifecycleSafety
  import opened LifecycleRuns
  import Capacity

  /** Rewriting one record changes the ledger by that record's change of weight. */
  lemma PutLedger(r: Repo, id: Id, v: Upload, released: set<Id>)
    requires WellFormed(r) && id in r.records && v.id == id
    requires forall other :: other in r.records && other != id ==> (other in released <==> other in r.released)
    ensures Ledger(Put(r, id, v).(released := released)) + Weight(r.released)(r.records[id])
         == Ledger(r) + Weight(released)(v)
  {
    var r' := Put(r, id, v).(released := released);
    var us, vs := Values(r), Values(r');
    var i :| 0 <= i < |r.order| && r.order[i] == id;
    forall k | 0 <= k < |us| && k != i ensures Weight(r.released)(us[k]) == Weight(released)(vs[k]) {
      assert r.order[k] != id;
    }
    SumChangedAt(us, vs, i, Weight(r.released), Weight(released));
  }

  lemma LegalWeight(u: Upload, v: Upload, released: set<Id>)
    requires LegalMove(u, v)
    ensures Weight(released)(v) <= Weight(released)(u)
  {
  }

  /** Moving on never makes a record count for more. */
  lemma EvolvingLedger(r: Repo, r': Repo)
    requires Evolves(r, r') && r'.order == r.order && r'.released == r.released
    ensures Ledger(r') <= Ledger(r)
  {
    var us, vs := Values(r), Values(r');
    forall i | 0 <= i < |vs| ensures Weight(r'.released)(vs[i]) <= Weight(r.released)(us[i]) {
      assert LegalMove(r.records[r.order[i]], r'.records[r.order[i]]);
      LegalWeight(us[i], vs[i], r.released);
    }
    hide Evolves, WellFormed, Weight, LegalMove;
    SumMonotone(vs, us, Weight(r'.released), Weight(r.released));
  }

  // ------------------------------------------------------------------ admission

  /** The ledger is the total size of the archives the eviction rule looks at. */
  lemma {:induction false} LedgerIsRetained(us: seq<Upload>, released: set<Id>)
    ensures Sum(us, Weight(released)) == Sum(RetainedArchives(us, released), Capacity.Size)
  {
    if us != [] {
      LedgerIsRetained(us[1..], released);
      var rest := RetainedArchives(us[1..], released);
      if IsRetained(us[0], released) {
        assert RetainedArchives(us, released) == [ToArchive(us[0])] + rest;
        assert ([ToArchive(us[0])] + rest)[1..] == rest;
      } else {
        assert RetainedArchives(us, released) == rest;
      }
    }
  }

  lemma EvictLedger(r: Repo, id: Id, at: int)
    requires WellFormed(r) && id in r.records && IsRetained(r.records[id], r.released)
    ensures WellFormed(Evict(r, id, at))
    ensures Ledger(Evict(r, id, at)) + r.records[id].sizeBytes == Ledger(r)
  {
    EvictWellFormed(r, id, at);
    var v := r.records[id].(status := Expired, updatedAt := at);
    PutLedger(r, id, v, r.released + {id});
    assert Values(Evict(r, id, at)) == Values(Put(r, id, v).(released := r.released + {id}));
  }

  /** Evictions release exactly the evicted ids and touch no other record. */
  lemma {:induction false} EvictAllFrame(r: Repo, ids: seq<Id>, at: int)
    requires forall id :: id in ids ==> id in r.records
    ensures forall id :: id in EvictAll(r, ids, at).released <==> id in r.released || id in ids
    ensures forall id :: id in r.records && id !in ids ==> EvictAll(r, ids, at).records[id] == r.records[id]
  {
    if ids != [] {
      EvictAllFrame(r, ids[..|ids| - 1], at);
      assert ids == ids[..|ids| - 1] + [ids[|ids| - 1]];
    }
  }

  /** The archive stands for a stored record that is retained. */
  ghost predicate StandsFor(r: Repo, v: Capacity.Archive) {
    v.id in r.records && IsRetained(r.records[v.id], r.released) && v == ToArchive(r.records[v.id])
  }

  lemma VictimIds(r: Repo, victims: seq<Capacity.Archive>)
    requires forall v :: v in victims ==> StandsFor(r, v)
    ensures forall id :: id in Capacity.IdList(victims) ==> id in r.records
  {
    assert forall i :: 0 <= i < |victims| ==> victims[i] in victims;
  }

  lemma EvictLastLedger(r: Repo, ids: seq<Id>, last: Capacity.Archive, at: int)
    requires WellFormed(r) && Distinct(ids) && |ids| > 0 && ids[|ids| - 1] == last.id
    requires forall id :: id in ids ==> id in r.records
    requires StandsFor(r, last)
    ensures WellFormed(EvictAll(r, ids[..|ids| - 1], at)) && WellFormed(EvictAll(r, ids, at))
    ensures Ledger(EvictAll(r, ids, at)) + last.sizeBytes == Ledger(EvictAll(r, ids[..|ids| - 1], at))
  {
    var front := ids[..|ids| - 1];
    EvictAllWellFormed(r, front, at);
    EvictAllFrame(r, front, at);
    assert last.id !in front;
    EvictLedger(EvictAll(r, front, at), last.id, at);
  }

  lemma FrontIds(r: Repo, victims: seq<Capacity.Archive>)
    requires victims != [] && Distinct(Capacity.IdList(victims))
    requires forall v :: v in victims ==> StandsFor(r, v)
    ensures var front := victims[..|victims| - 1];
      && Capacity.IdList(victims)[..|front|] == Capacity.IdList(front) && Distinct(Capacity.IdList(front))
      && forall v :: v in front ==> StandsFor(r, v)
  {
    hide StandsFor;
  }

  /** Evicting the victims takes exactly their bytes off the ledger. */
  lemma {:induction false} EvictAllLedger(r: Repo, victims: seq<Capacity.Archive>, at: int)
    requires WellFormed(r) && Distinct(Capacity.IdList(victims))
    requires forall v :: v in victims ==> StandsFor(r, v)
    requires forall id :: id in Capacity.IdList(victims) ==> id in r.records
    ensures var r' := EvictAll(r, Capacity.IdList(victims), at);
      WellFormed(r') && Ledger(r') + Sum(victims, Capacity.Size) == Ledger(r)
  {
    hide WellFormed, Ledger, StandsFor, Distinct;
    if victims != [] {
      hide EvictAll;
      var n := |victims| - 1;
      var front, ids := victims[..n], Capacity.IdList(victims);
      FrontIds(r, victims);
      VictimIds(r, front);
      EvictAllLedger(r, front, at);
      assert victims[n] in victims;
      EvictLastLedger(r, ids, victims[n], at);
      SumLast(victims, Capacity.Size);
    }
  }

  lemma AddLedger(r: Repo, record: Upload, event: Event)
    requires WellFormed(r) && record.id !in r.records && record.install != ""
    ensures WellFormed(Add(r, record, event))
    ensures Ledger(Add(r, record, event)) <= Ledger(r) + record.sizeBytes
  {
    AddWellFormed(r, record, event);
    assert Values(Add(r, record, event)) == Values(r) + [record];
    SumAppend(Values(r), [record], Weight(r.released));
  }

  /** Right after any successful admission the retained bytes are within the global limit. */
  lemma AdmissionWithinLimit(r: Repo, record: Upload, since: int, limits: QuotaLimits, event: Event)
    requires WellFormed(r) && record.install != ""
    requires InsertWithinQuota(r, record, since, limits, event).Ok?
    requires InsertWithinQuota(r, record, since, limits, event).value.1
    ensures var r' := InsertWithinQuota(r, record, since, limits, event).value.0;
            WellFormed(r') && Ledger(r') <= limits.globalRetainedBytes
  {
    AdmissionShape(r, record, since, limits, event);
    EvictionsKnown(r, record, limits);
    RetainedDistinct(r);
    var retained := RetainedArchives(Values(r), r.released);
    var victims := Evictions(r, record, limits).value;
    Capacity.GreedyFreesEnough(Elements(retained), Capacity.Need(retained, record.sizeBytes, limits.globalRetainedBytes));
    LedgerIsRetained(Values(r), r.released);
    hide InsertWithinQuota, Evictions;
    VictimIds(r, victims);
    EvictAllLedger(r, victims, record.createdAt);
    AddLedger(EvictAll(r, Capacity.IdList(victims), record.createdAt), record, event);
  }

  // ------------------------------------------------------------------ every step

  ghost predicate WithinLimit(s: System) {
    WellFormed(s.repo) && Ledger(s.repo) <= DIAGNOSTIC_QUOTA.globalRetainedBytes + s.restored
  }

  lemma CreateLedger(s: System, id: Id, install: string, network: string, sizeBytes: nat)
    requires WithinLimit(s)
    ensures WithinLimit(DoCreate(s, id, install, network, sizeBytes))
  {
    hide InsertWithinQuota, Ledger, WellFormed;
    var s' := DoCreate(s, id, install, network, sizeBytes);
    if s' != s {
      var record := NewUpload(id, install, network, sizeBytes, s.now, s.now + 72 * MILLIS_PER_HOUR);
      AdmissionWithinLimit(s.repo, record, s.now - 24 * MILLIS_PER_HOUR, DIAGNOSTIC_QUOTA, Event(UploadCreated, s.now));
    }
  }

  /** Only admissions add records, and only admissions and deletion retries change what is released. */
  lemma UploadFrame(s: System, step: UploadStep)
    requires WellFormed(s.repo) && !step.Create?
    ensures var s' := UploadNext(s, step);
            (s'.repo.order, s'.repo.released, s'.restored) == (s.repo.order, s.repo.released, s.restored)
  {
  }

  lemma CompletionFrame(s: System, step: CompletionStep)
    ensures var s' := CompletionNext(s, step);
            (s'.repo.order, s'.repo.released, s'.restored) == (s.repo.order, s.repo.released, s.restored)
  {
    AttemptKeepsOrder(s);
    hide Attempt, ValidateParts;
  }

  lemma AdministratorFrame(s: System, step: AdministratorStep)
    ensures var s' := AdministratorNext(s, step);
            (s'.repo.order, s'.repo.released, s'.restored) == (s.repo.order, s.repo.released, s.restored)
  {
    AttemptKeepsOrder(s);
    hide Attempt;
  }

  lemma VerificationFrame(s: System, step: VerificationStep)
    requires WellFormed(s.repo)
    ensures var s' := VerificationNext(s, step);
            (s'.repo.order, s'.repo.released, s'.restored) == (s.repo.order, s.repo.released, s.restored)
  {
    AttemptKeepsOrder(s);
    hide Attempt;
  }

  lemma RemovalFrame(s: System, step: RemovalStep)
    requires WellFormed(s.repo) && !step.RetryRemoval?
    ensures var s' := RemovalNext(s, step);
            (s'.repo.order, s'.repo.released, s'.restored) == (s.repo.order, s.repo.released, s.restored)
  {
    AttemptKeepsOrder(s);
    hide Attempt;
  }

  lemma AttemptKeepsOrder(s: System)
    ensures forall id, expected, change ::
              var r := Attempt(s, id, expected, change).0; r.order == s.repo.order && r.released == s.repo.released
  {
  }

  lemma LoggedLedger(r: Repo, id: Id, event: Event)
    requires WellFormed(r) && WellFormed(Logged(r, id, event))
    ensures Ledger(Logged(r, id, event)) == Ledger(r)
  {
    assert Values(Logged(r, id, event)) == Values(r);
  }

  /** A failed deletion restores at most the archive's own bytes, and only when they had been released. */
  lemma RetryLedger(r: Repo, id: Id, failed: Upload, event: Event)
    requires WellFormed(r) && id in r.records && r.records[id].status == Deleting
    requires failed.id == r.records[id].id && failed.sizeBytes == r.records[id].sizeBytes
    requires failed.install == r.records[id].install
    ensures var r' := Logged(Put(r, id, failed).(released := r.released - {id}), id, event);
            WellFormed(r') && Ledger(r') <= Ledger(r) + if id in r.released then failed.sizeBytes else 0
  {
    hide Ledger;
    var put := Put(r, id, failed).(released := r.released - {id});
    PutLedger(r, id, failed, r.released - {id});
    PutWellFormed(r, id, failed);
    LoggedWellFormed(put, id, event);
    LoggedLedger(put, id, event);
  }

  lemma RetryRemovalLedger(s: System, p: nat)
    requires WithinLimit(s) && Readings(s) && RemovalAt(s, p, Stuck)
    ensures WithinLimit(DoRetryRemoval(s, p))
  {
    hide Ledger, WellFormed;
    var seen := s.removals[p].seen;
    assert Earlier(s.repo, seen);
    var u := s.repo.records[seen.id];
    if u.status == Deleting {
      var at := s.now + DeletionRetryDelay(seen.deletionAttempts + 1);
      RetryLedger(s.repo, seen.id, u.(status := Failed, deletionAttempts := u.deletionAttempts + 1,
                                      nextDeletionAttemptAt := Some(at), updatedAt := s.now),
                  Event(DeletionRetryScheduled, s.now));
    }
  }

  ghost predicate SameLedgerParts(s: System, s': System) {
    (s'.repo.order, s'.repo.released, s'.restored) == (s.repo.order, s.repo.released, s.restored)
  }

  lemma FrameKeepsWithinLimit(s: System, s': System)
    requires WithinLimit(s) && Evolves(s.repo, s'.repo) && SameLedgerParts(s, s')
    ensures WithinLimit(s')
  {
    EvolvesIsWellFormed(s.repo, s'.repo);
    hide WellFormed, Evolves, Ledger;
    EvolvingLedger(s.repo, s'.repo);
  }

  lemma EvolvesIsWellFormed(r: Repo, r': Repo)
    requires Evolves(r, r')
    ensures WellFormed(r) && WellFormed(r')
  {
  }

  lemma UploadKeepsWithinLimit(s: System, step: UploadStep)
    requires WellFormed(s.repo) && WithinLimit(s) && Evolves(s.repo, UploadNext(s, step).repo)
    ensures WithinLimit(UploadNext(s, step))
  {
    if step.Create? {
      hide WithinLimit, DoCreate, Evolves;
      CreateLedger(s, step.id, step.install, step.network, step.sizeBytes);
    } else {
      hide WithinLimit, UploadNext, Evolves;
      UploadFrame(s, step);
      FrameKeepsWithinLimit(s, UploadNext(s, step));
    }
  }

  lemma RemovalKeepsWithinLimit(s: System, step: RemovalStep)
    requires WellFormed(s.repo) && WithinLimit(s) && Readings(s) && Evolves(s.repo, RemovalNext(s, step).repo)
    ensures WithinLimit(RemovalNext(s, step))
  {
    if step.RetryRemoval? {
      hide WithinLimit, Evolves, Readings, DeletionRetryDelay, ScheduleDeletionRetry;
      if RemovalAt(s, step.p, Stuck) { RetryRemovalLedger(s, step.p); }
    } else {
      hide WithinLimit, RemovalNext, Evolves;
      RemovalFrame(s, step);
      FrameKeepsWithinLimit(s, RemovalNext(s, step));
    }
  }

  /** Steps of the clock, the provider and the requests neither insert, release nor restore. */
  lemma OtherFrame(s: System, step: Step)
    requires WellFormed(s.repo) && !step.OnUpload? && !step.OnRemoval?
    ensures SameLedgerParts(s, Next(s, step))
  {
    hide WellFormed, CompletionNext, AdministratorNext, VerificationNext;
    match step {
      case Tick(_) =>
      case OnProvider(_) =>
      case OnCompletion(completion) => CompletionFrame(s, completion);
      case ByAdministrator(request) => AdministratorFrame(s, request);
      case OnVerification(verification) => VerificationFrame(s, verification);
    }
  }

  lemma StepKeepsWithinLimit(s: System, step: Step)
    requires Safe(s) && WithinLimit(s)
    ensures WithinLimit(Next(s, step))
  {
    hide WithinLimit, SafeRepo, Readings, DownloadsMatch, Evolves, WellFormed, SameLedgerParts, UploadNext, RemovalNext,
         CompletionNext, AdministratorNext, VerificationNext, ProviderNext;
    SafeIsWellFormed(s);
    StepEvolves(s, step);
    match step {
      case OnUpload(upload) => UploadKeepsWithinLimit(s, upload);
      case OnRemoval(removal) => RemovalKeepsWithinLimit(s, removal);
      case _ =>
        OtherFrame(s, step);
        FrameKeepsWithinLimit(s, Next(s, step));
    }
  }

  /**
   * At every moment of every run the bytes of retained, unreleased archives exceed the global limit by at most
   * the bytes restored by failed deletions since the last admission.
   */
  lemma {:induction false} LedgerWithinLimit(s: System, steps: seq<Step>)
    requires Safe(s) && WithinLimit(s)
    ensures WithinLimit(RunFrom(s, steps))
    decreases |steps|
  {
    if steps != [] {
      StepKeepsSafe(s, steps[0]);
      StepKeepsWithinLimit(s, steps[0]);
      LedgerWithinLimit(Next(s, steps[0]), steps[1..]);
    }
  }

  lemma RunWithinLimit(steps: seq<Step>)
    ensures WithinLimit(Run(steps))
    ensures forall id :: id in Run(steps).repo.released ==>
              id in Run(steps).repo.records && Releasable(Run(steps).repo.records[id].status)
  {
    StartIsSafe();
    assert Values(START.repo) == [];
    LedgerWithinLimit(START, steps);
  }

  /** The admission that ends any run leaves nothing restored and the retained bytes within the limit. */
  lemma AdmittedWithinLimit(steps: seq<Step>, id: Id, install: string, network: string, sizeBytes: nat)
    requires id !in Run(steps).repo.records
    requires id in Next(Run(steps), OnUpload(Create(id, install, network, sizeBytes))).repo.records
    ensures var s := Next(Run(steps), OnUpload(Create(id, install, network, sizeBytes)));
            WellFormed(s.repo) && s.restored == 0 && Ledger(s.repo) <= DIAGNOSTIC_QUOTA.globalRetainedBytes
  {
    var s := Run(steps);
    var s' := DoCreate(s, id, install, network, sizeBytes);
    RunWithinLimit(steps);
    CreateLedger(s, id, install, network, sizeBytes);
    hide Ledger, InsertWithinQuota;
    assert s'.repo != s.repo;
    assert s'.restored == 0;
  }
}
