/** What a claim for verification or deletion takes, and what it makes of the records it takes. */
module ClaimsExactly {
  import opened Options
  import opened Uploads
  import opened Lifecycle

  // ------------------------------------------------------------------ which records qualify

  /**
   * Stored and not asked for yet, if those are included; asked for and past the backoff; or claimed six hours ago and
   * still not verified.
   */
  predicate Ready(u: Upload, now: int, includeStored: bool) {
    match u.status
    case Pending => includeStored && u.acceptanceDeadline.None?
    case Verifying => u.nextVerificationAttemptAt.Some? ==> u.nextVerificationAttemptAt.value <= now
    case VerifyingActive => u.updatedAt + 21_600_000 <= now
    case _ => false
  }

  /** The end of a verification: its deadline, or a day after creation without one. */
  predicate VerificationOver(u: Upload, now: int) {
    || u.verificationAttempts >= 8
    || (u.acceptanceDeadline.Some? && u.acceptanceDeadline.value <= now)
    || (u.acceptanceDeadline.None? && u.createdAt + 86_400_000 <= now)
  }

  predicate Due(u: Upload, now: int) {
    match u.status
    case Uploading => u.createdAt + 43_200_000 <= now
    case Completing => u.updatedAt + 43_200_000 <= now
    case Pending => u.expiresAt <= now || (u.acceptanceDeadline.Some? && u.acceptanceDeadline.value <= now)
    case Verifying => VerificationOver(u, now)
    case VerifyingActive => VerificationOver(u, now)
    case Accepted => u.expiresAt <= now
    case Expired => true
    case Deleting => u.updatedAt + 900_000 <= now
    case Failed => u.nextDeletionAttemptAt.Some? ==> u.nextDeletionAttemptAt.value <= now
    case _ => false
  }

  lemma ReadyExactly(u: Upload, now: int, includeStored: bool)
    ensures WantsVerification(u, now, now - STALE_CLAIM, includeStored) <==> Ready(u, now, includeStored)
  {
  }

  lemma DueExactly(u: Upload, now: int)
    ensures WantsDeletion(u, now) <==> Due(u, now)
  {
  }

  // ------------------------------------------------------------------ what a claim takes

  /**
   * The records taken: different stored ones that qualify, at most the limit; one that qualifies is left out only for a
   * full batch that goes before it.
   */
  ghost predicate Takes(r: Repo, batch: seq<Upload>, qualifies: Upload -> bool,
                        before: (Upload, Upload) -> bool, limit: nat)
  {
    && |batch| <= limit && DistinctUploads(batch)
    && (forall u :: u in batch ==> u.id in r.records && r.records[u.id] == u && qualifies(u))
    && forall id :: id in r.records && qualifies(r.records[id]) && r.records[id] !in batch ==>
         |batch| == limit && forall v :: v in batch ==> before(v, r.records[id])
  }

  function ReadyNow(now: int, includeStored: bool): Upload -> bool { (u: Upload) => Ready(u, now, includeStored) }

  function DueNow(now: int): Upload -> bool { (u: Upload) => Due(u, now) }

  ghost function MostUrgentFirst(r: Repo): (Upload, Upload) -> bool { (v: Upload, u: Upload) => MoreUrgent(r, v, u) }

  ghost function FirstDueFirst(r: Repo): (Upload, Upload) -> bool { (v: Upload, u: Upload) => DueBefore(r, v, u) }

  /** Each record taken has the new status from now on; everything else of the repository is as it was. */
  ghost predicate Claims(r: Repo, batch: seq<Upload>, status: Status, now: int, r': Repo) {
    && r'.records.Keys == r.records.Keys
    && (forall id :: id in r.records ==>
          r'.records[id] ==
          if r.records[id] in batch then r.records[id].(status := status, updatedAt := now) else r.records[id])
    && (r'.order, r'.released, r'.audit) == (r.order, r.released, r.audit)
  }

  lemma ClaimAllExactly(r: Repo, batch: seq<Upload>, status: Status, now: int)
    requires WellFormed(r) && forall u :: u in batch ==> u.id in r.records && r.records[u.id] == u
    ensures Claims(r, batch, status, now, ClaimAll(r, batch, status, now))
  {
    forall id | id in r.records ensures InBatch(batch, id) <==> r.records[id] in batch {
      if InBatch(batch, id) {
        var u :| u in batch && u.id == id;
      }
    }
  }

  lemma BatchSize(us: seq<Upload>, released: set<Id>, now: int, staleBefore: int, limit: nat, includeStored: bool)
    ensures |VerificationBatch(us, now, staleBefore, limit, includeStored)| <= limit
    ensures |DeletionBatch(us, released, now, limit)| <= limit
  {
  }

  lemma LeftForMoreUrgent(r: Repo, now: int, limit: nat, includeStored: bool, id: Id)
    requires WellFormed(r) && id in r.records && ReadyNow(now, includeStored)(r.records[id])
    ensures var batch := VerificationBatch(Values(r), now, now - STALE_CLAIM, limit, includeStored);
      || r.records[id] in batch
      || (|batch| == limit && forall v :: v in batch ==> MostUrgentFirst(r)(v, r.records[id]))
  {
    hide WantsVerification, Ready, VerificationBatch, MoreUrgent, WellFormed;
    ReadyExactly(r.records[id], now, includeStored);
    VerificationTakesFirst(r, now, now - STALE_CLAIM, limit, includeStored, id);
  }

  lemma BatchIsReady(r: Repo, now: int, limit: nat, includeStored: bool)
    requires WellFormed(r)
    ensures var batch := VerificationBatch(Values(r), now, now - STALE_CLAIM, limit, includeStored);
      && |batch| <= limit && DistinctUploads(batch)
      && forall u :: u in batch ==> u.id in r.records && r.records[u.id] == u && ReadyNow(now, includeStored)(u)
  {
    hide WantsVerification, Ready, VerificationBatch, DistinctUploads;
    BatchKnown(r, now, now - STALE_CLAIM, limit, includeStored);
    BatchSize(Values(r), r.released, now, now - STALE_CLAIM, limit, includeStored);
    hide WellFormed;
    forall u ensures WantsVerification(u, now, now - STALE_CLAIM, includeStored) <==> ReadyNow(now, includeStored)(u) {
      ReadyExactly(u, now, includeStored);
    }
  }

  lemma VerificationTakes(r: Repo, now: int, limit: nat, includeStored: bool)
    requires WellFormed(r)
    ensures Takes(r, VerificationBatch(Values(r), now, now - STALE_CLAIM, limit, includeStored),
                  ReadyNow(now, includeStored), MostUrgentFirst(r), limit)
  {
    hide ReadyNow, MostUrgentFirst, VerificationBatch, DistinctUploads;
    var batch := VerificationBatch(Values(r), now, now - STALE_CLAIM, limit, includeStored);
    BatchIsReady(r, now, limit, includeStored);
    forall id | id in r.records && ReadyNow(now, includeStored)(r.records[id]) && r.records[id] !in batch
      ensures |batch| == limit && forall v :: v in batch ==> MostUrgentFirst(r)(v, r.records[id])
    {
      LeftForMoreUrgent(r, now, limit, includeStored, id);
    }
    hide WellFormed;
  }

  lemma DeletionTakes(r: Repo, now: int, limit: nat)
    requires WellFormed(r)
    ensures Takes(r, DeletionBatch(Values(r), r.released, now, limit), DueNow(now), FirstDueFirst(r), limit)
  {
    hide WantsDeletion, Due, DeletionBatch, DueBefore, DistinctUploads;
    var batch := DeletionBatch(Values(r), r.released, now, limit);
    forall u ensures WantsDeletion(u, now) <==> DueNow(now)(u) { DueExactly(u, now); }
    DeletionBatchKnown(r, now, limit);
    BatchSize(Values(r), r.released, now, now, limit, false);
    forall id | id in r.records && DueNow(now)(r.records[id]) && r.records[id] !in batch
      ensures |batch| == limit && forall v :: v in batch ==> FirstDueFirst(r)(v, r.records[id])
    {
      DeletionTakesFirst(r, now, limit, id);
    }
    hide DueNow, FirstDueFirst, WellFormed;
  }

  // ------------------------------------------------------------------ the two claims

  ghost predicate VerifiersStart(s: System, batch: seq<Upload>, s': System) {
    && |s'.verifications| == |s.verifications| + |batch| && s.verifications <= s'.verifications
    && (forall k :: 0 <= k < |batch| ==>
          s'.verifications[|s.verifications| + k]
          == Verification(batch[k].(status := VerifyingActive, updatedAt := s.now), s.now, Checking))
    && s' == s.(repo := s'.repo, verifications := s'.verifications)
  }

  ghost predicate RemoversStart(s: System, batch: seq<Upload>, s': System) {
    && |s'.removals| == |s.removals| + |batch| && s.removals <= s'.removals
    && (forall k :: 0 <= k < |batch| ==>
          s'.removals[|s.removals| + k]
          == Removal(batch[k].(status := Deleting, updatedAt := s.now), Retention, Claimed))
    && s' == s.(repo := s'.repo, removals := s'.removals)
  }

  lemma StartedAppended(s: System, batch: seq<Upload>, s': System)
    requires s' == s.(repo := s'.repo,
                      verifications := s.verifications + Started(ClaimedBatch(batch, VerifyingActive, s.now)))
    ensures VerifiersStart(s, batch, s')
  {
  }

  lemma RemovalsAppended(s: System, batch: seq<Upload>, s': System)
    requires s' == s.(repo := s'.repo, removals := s.removals + Removals(ClaimedBatch(batch, Deleting, s.now)))
    ensures RemoversStart(s, batch, s')
  {
  }

  /** A verifier starts on each record taken, at least one and at most eight at a time. */
  lemma VerificationClaim(s: System, limit: nat, includeStored: bool)
    requires WellFormed(s.repo)
    ensures var n := if limit < 1 then 1 else if limit > 8 then 8 else limit;
      var s' := DoClaimForVerification(s, limit, includeStored);
      exists batch: seq<Upload> ::
        && Takes(s.repo, batch, ReadyNow(s.now, includeStored), MostUrgentFirst(s.repo), n)
        && Claims(s.repo, batch, VerifyingActive, s.now, s'.repo) && VerifiersStart(s, batch, s')
  {
    hide Takes, Claims, VerificationBatch, ClaimAll, MostUrgentFirst, ReadyNow, VerifiersStart;
    var n := if limit < 1 then 1 else if limit > 8 then 8 else limit;
    var batch := VerificationBatch(Values(s.repo), s.now, s.now - STALE_CLAIM, n, includeStored);
    VerificationTakes(s.repo, s.now, n, includeStored);
    BatchKnown(s.repo, s.now, s.now - STALE_CLAIM, n, includeStored);
    ClaimAllExactly(s.repo, batch, VerifyingActive, s.now);
    hide WellFormed;
    StartedAppended(s, batch, DoClaimForVerification(s, limit, includeStored));
    assert Claims(s.repo, batch, VerifyingActive, s.now, DoClaimForVerification(s, limit, includeStored).repo);
  }

  /** A remover starts on each record taken. */
  lemma DeletionClaim(s: System, limit: nat)
    requires WellFormed(s.repo)
    ensures var s' := DoClaimForDeletion(s, limit);
      exists batch: seq<Upload> ::
        && Takes(s.repo, batch, DueNow(s.now), FirstDueFirst(s.repo), limit)
        && Claims(s.repo, batch, Deleting, s.now, s'.repo) && RemoversStart(s, batch, s')
  {
    hide Takes, Claims, DeletionBatch, ClaimAll, FirstDueFirst, DueNow, RemoversStart;
    var batch := DeletionBatch(Values(s.repo), s.repo.released, s.now, limit);
    DeletionTakes(s.repo, s.now, limit);
    DeletionBatchKnown(s.repo, s.now, limit);
    ClaimAllExactly(s.repo, batch, Deleting, s.now);
    hide WellFormed;
    RemovalsAppended(s, batch, DoClaimForDeletion(s, limit));
    assert Claims(s.repo, batch, Deleting, s.now, DoClaimForDeletion(s, limit).repo);
  }
}
