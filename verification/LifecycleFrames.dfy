/** Which records each kind of step may change at all. */
module LifecycleFrames {
  import opened Options
  import opened Policy
  import opened Uploads
  import opened Multipart
  import opened Lifecycle
  import Capacity

  /** Only records in the given statuses change, and only a Deleting record can become terminal. */
  ghost predicate ChangesOnly(r: Repo, r': Repo, statuses: set<Status>) {
    forall id :: id in r.records ==>
      && id in r'.records
      && (r'.records[id] == r.records[id] || r.records[id].status in statuses)
      && (Terminal(r'.records[id].status) && !Terminal(r.records[id].status) ==> Deleting in statuses)
  }

  /** And no record changes its count of verification attempts. */
  ghost predicate Touches(r: Repo, r': Repo, statuses: set<Status>) {
    && ChangesOnly(r, r', statuses)
    && forall id :: id in r.records ==> r'.records[id].verificationAttempts == r.records[id].verificationAttempts
  }

  /** A compare-and-swap changes at most its own record, and only from an expected status. */
  lemma AttemptFrame(s: System, id: Id, expected: set<Status>, change: Change)
    requires Terminal(change.status) ==> Deleting in expected
    ensures Touches(s.repo, Attempt(s, id, expected, change).0, expected)
    ensures forall other :: other in s.repo.records && other != id ==>
              Attempt(s, id, expected, change).0.records[other] == s.repo.records[other]
    ensures Attempt(s, id, expected, change).1 <==>
              id in s.repo.records && TransitionApplies(s.repo.records[id], expected, change)
    ensures Attempt(s, id, expected, change).1 ==>
              Attempt(s, id, expected, change).0.records[id] == Changed(s.repo.records[id], change, s.now)
    ensures !Attempt(s, id, expected, change).1 ==> Attempt(s, id, expected, change).0 == s.repo
    ensures Attempt(s, id, expected, change).0.records.Keys == s.repo.records.Keys
  {
  }

  const BEFORE_CLAIM := {Uploading, Pending, Accepted, Failed, Expired}

  lemma {:induction false} EvictionsTouch(r: Repo, ids: seq<Id>, at: int)
    requires forall id :: id in ids ==> id in r.records && r.records[id].status in BEFORE_CLAIM
    ensures Touches(r, EvictAll(r, ids, at), BEFORE_CLAIM)
  {
    if ids != [] {
      EvictionsTouch(r, ids[..|ids| - 1], at);
    }
  }

  /** An admission changes only its victims and adds only the new record. */
  ghost predicate Admits(r: Repo, r': Repo, record: Upload) {
    && Touches(r, r', BEFORE_CLAIM)
    && record.id in r'.records && r'.records[record.id] == record
    && r'.records.Keys == r.records.Keys + {record.id}
  }

  lemma AdmissionTouches(r: Repo, record: Upload, ids: seq<Id>, event: Event)
    requires record.id !in r.records
    requires forall id :: id in ids ==> id in r.records && CanEvict(r.records[id].status)
    ensures Admits(r, Add(EvictAll(r, ids, record.createdAt), record, event), record)
  {
    EvictionsTouch(r, ids, record.createdAt);
  }

  lemma CreateTouches(s: System, id: Id, install: string, network: string, sizeBytes: nat)
    requires WellFormed(s.repo)
    ensures var s' := DoCreate(s, id, install, network, sizeBytes);
            || s' == s
            || (id !in s.repo.records && Admits(s.repo, s'.repo, NewUpload(id, install, network, sizeBytes, s.now,
                                                                           s.now + 72 * MILLIS_PER_HOUR)))
  {
    hide InsertWithinQuota, Admits;
    var s' := DoCreate(s, id, install, network, sizeBytes);
    if s' != s {
      var record := NewUpload(id, install, network, sizeBytes, s.now, s.now + 72 * MILLIS_PER_HOUR);
      InsertAdmits(s.repo, record, s.now - 24 * MILLIS_PER_HOUR, DIAGNOSTIC_QUOTA, Event(UploadCreated, s.now));
    }
  }

  lemma InsertAdmits(r: Repo, record: Upload, since: int, limits: QuotaLimits, event: Event)
    requires WellFormed(r) && record.id !in r.records
    requires InsertWithinQuota(r, record, since, limits, event).Ok?
    requires InsertWithinQuota(r, record, since, limits, event).value.1
    ensures Admits(r, InsertWithinQuota(r, record, since, limits, event).value.0, record)
  {
    hide InsertWithinQuota, Admits;
    AdmissionShape(r, record, since, limits, event);
    EvictionsKnown(r, record, limits);
    hide Evictions;
    AdmissionTouches(r, record, Capacity.IdList(Evictions(r, record, limits).value), event);
  }

  // ------------------------------------------------------------------ single operations

  lemma NothingTouched(r: Repo, statuses: set<Status>)
    ensures Touches(r, r, statuses)
  {
  }

  lemma AuditedTouches(r: Repo, id: Id, event: Event, statuses: set<Status>)
    ensures Touches(r, Audited(r, id, event), statuses) && Audited(r, id, event).records == r.records
  {
  }

  lemma BoundTouches(r: Repo, id: Id, uploadId: string, now: int)
    ensures Touches(r, Outcome(r, SetProviderUploadId(r, id, uploadId, now)).0, BEFORE_CLAIM)
    ensures Outcome(r, SetProviderUploadId(r, id, uploadId, now)).0.records.Keys == r.records.Keys
  {
  }

  lemma GrantTouches(r: Repo, id: Id, partNumber: int, grant: Grant, now: int)
    ensures Touches(r, Outcome(r, RegisterPartGrant(r, id, partNumber, grant, now)).0, BEFORE_CLAIM)
    ensures Outcome(r, RegisterPartGrant(r, id, partNumber, grant, now)).0.records.Keys == r.records.Keys
  {
  }

  lemma DeletionRetryTouches(r: Repo, id: Id, at: int, event: Event, now: int)
    ensures Touches(r, Outcome(r, ScheduleDeletionRetry(r, id, at, event, now)).0, {Deleting})
    ensures Outcome(r, ScheduleDeletionRetry(r, id, at, event, now)).0.records.Keys == r.records.Keys
  {
  }

  lemma VerificationRetryChanges(r: Repo, id: Id, at: int, now: int)
    ensures ChangesOnly(r, Outcome(r, ScheduleVerificationRetry(r, id, at, now)).0, {VerifyingActive})
  {
  }

  lemma TouchesMore(r: Repo, r': Repo, few: set<Status>, many: set<Status>)
    requires Touches(r, r', few) && few <= many
    ensures Touches(r, r', many)
  {
  }

  lemma ChangesMore(r: Repo, r': Repo, few: set<Status>, many: set<Status>)
    requires ChangesOnly(r, r', few) && few <= many
    ensures ChangesOnly(r, r', many)
  {
  }

  // ------------------------------------------------------------------ uploads

  lemma BindTouches(s: System, id: Id, uploadId: string)
    ensures Touches(s.repo, DoBindProvider(s, id, uploadId).repo, BEFORE_CLAIM)
    ensures DoBindProvider(s, id, uploadId).repo.records.Keys == s.repo.records.Keys
  {
    hide Touches, Outcome, SetProviderUploadId;
    NothingTouched(s.repo, BEFORE_CLAIM);
    BoundTouches(s.repo, id, uploadId, s.now);
  }

  lemma GrantPartTouches(s: System, id: Id, partNumber: int, grant: Grant)
    ensures Touches(s.repo, DoGrantPart(s, id, partNumber, grant).repo, BEFORE_CLAIM)
    ensures DoGrantPart(s, id, partNumber, grant).repo.records.Keys == s.repo.records.Keys
  {
    hide Touches, Outcome, RegisterPartGrant;
    NothingTouched(s.repo, BEFORE_CLAIM);
    GrantTouches(s.repo, id, partNumber, grant, s.now);
  }

  lemma UploadTouches(s: System, step: UploadStep)
    requires WellFormed(s.repo)
    ensures Touches(s.repo, UploadNext(s, step).repo, BEFORE_CLAIM)
    ensures forall id :: id in UploadNext(s, step).repo.records && id !in s.repo.records ==>
              UploadNext(s, step).repo.records[id].status == Uploading
              && UploadNext(s, step).repo.records[id].verificationAttempts == 0
  {
    hide Touches, Attempt, Audited, DoCreate, DoBindProvider, DoGrantPart;
    match step {
      case Create(id, install, network, size) =>
        NothingTouched(s.repo, BEFORE_CLAIM);
        CreateTouches(s, id, install, network, size);
      case AbandonCreation(id) =>
        AttemptFrame(s, id, {Uploading}, To(Failed));
        TouchesMore(s.repo, Attempt(s, id, {Uploading}, To(Failed)).0, {Uploading}, BEFORE_CLAIM);
      case BindProvider(id, uploadId) => BindTouches(s, id, uploadId);
      case NoteCompensationFailure(id) => AuditedTouches(s.repo, id, Event(CompensationFailed, s.now), BEFORE_CLAIM);
      case GrantPart(id, partNumber, grant) => GrantPartTouches(s, id, partNumber, grant);
    }
  }

  // ------------------------------------------------------------------ completions

  lemma WinTouches(s: System, p: nat)
    ensures Touches(s.repo, DoWinCompletion(s, p).repo, {Uploading})
    ensures DoWinCompletion(s, p).repo.records.Keys == s.repo.records.Keys
  {
    hide Touches, Attempt;
    NothingTouched(s.repo, {Uploading});
    if CompletionAt(s, p, Loaded) { AttemptFrame(s, s.completions[p].seen.id, {Uploading}, To(Completing)); }
  }

  lemma FinishTouches(s: System, p: nat)
    ensures Touches(s.repo, DoFinishCompletion(s, p).repo, {Completing})
    ensures DoFinishCompletion(s, p).repo.records.Keys == s.repo.records.Keys
  {
    hide Touches, Attempt;
    NothingTouched(s.repo, {Completing});
    if CompletionAt(s, p, Finishing) {
      AttemptFrame(s, s.completions[p].seen.id, {Completing},
                   To(Pending).(providerUploadId := Some(None), audit := Some(Event(UploadCompleted, s.now))));
    }
  }

  lemma FailTouches(s: System, p: nat)
    ensures Touches(s.repo, DoFailCompletion(s, p).repo, {Completing})
    ensures DoFailCompletion(s, p).repo.records.Keys == s.repo.records.Keys
  {
    hide Touches, Attempt;
    NothingTouched(s.repo, {Completing});
    if CompletionAt(s, p, Failing) { AttemptFrame(s, s.completions[p].seen.id, {Completing}, To(Failed)); }
  }

  lemma CompletionTouches(s: System, step: CompletionStep)
    ensures Touches(s.repo, CompletionNext(s, step).repo, {Uploading, Completing})
    ensures CompletionNext(s, step).repo.records.Keys == s.repo.records.Keys
  {
    var s' := CompletionNext(s, step);
    hide Touches, DoWinCompletion, DoFinishCompletion, DoFailCompletion, ValidateParts;
    match step {
      case WinCompletion(p) =>
        WinTouches(s, p);
        TouchesMore(s.repo, s'.repo, {Uploading}, {Uploading, Completing});
      case FinishCompletion(p) =>
        FinishTouches(s, p);
        TouchesMore(s.repo, s'.repo, {Completing}, {Uploading, Completing});
      case FailCompletion(p) =>
        FailTouches(s, p);
        TouchesMore(s.repo, s'.repo, {Completing}, {Uploading, Completing});
      case _ =>
        NothingTouched(s.repo, {Uploading, Completing});
    }
  }

  // ------------------------------------------------------------------ administrators

  lemma AdministratorDeletionTouches(s: System, id: Id, seen: Status)
    ensures Touches(s.repo, DoDeleteByAdministrator(s, id, seen).repo, BEFORE_CLAIM + {Verifying})
    ensures DoDeleteByAdministrator(s, id, seen).repo.records.Keys == s.repo.records.Keys
  {
    hide Touches, Attempt;
    NothingTouched(s.repo, BEFORE_CLAIM + {Verifying});
    if Deletable(seen) {
      AttemptFrame(s, id, {seen}, To(Expired).(audit := Some(Event(ModerationDelete, s.now))));
      TouchesMore(s.repo, DoDeleteByAdministrator(s, id, seen).repo, {seen}, BEFORE_CLAIM + {Verifying});
    }
  }

  lemma QueueTouches(s: System, p: nat)
    ensures Touches(s.repo, DoQueueVerification(s, p).repo, {Pending})
    ensures DoQueueVerification(s, p).repo.records.Keys == s.repo.records.Keys
  {
    hide Touches, Attempt;
    NothingTouched(s.repo, {Pending});
    if DownloadAt(s, p, Found) {
      var d := s.downloads[p];
      var deadline := Min(d.seen.expiresAt, d.startedAt + 24 * MILLIS_PER_HOUR);
      AttemptFrame(s, d.seen.id, {Pending}, To(Verifying).(acceptanceDeadline := Some(Some(deadline)),
                                              audit := Some(Event(VerificationRequested, d.startedAt))));
    }
  }

  lemma AdministratorTouches(s: System, step: AdministratorStep)
    ensures Touches(s.repo, AdministratorNext(s, step).repo, BEFORE_CLAIM + {Verifying})
    ensures AdministratorNext(s, step).repo.records.Keys == s.repo.records.Keys
  {
    hide Touches, Audited, DoDeleteByAdministrator, DoQueueVerification;
    NothingTouched(s.repo, BEFORE_CLAIM + {Verifying});
    match step {
      case DeleteByAdministrator(id, seen) => AdministratorDeletionTouches(s, id, seen);
      case QueueVerification(p) =>
        QueueTouches(s, p);
        TouchesMore(s.repo, DoQueueVerification(s, p).repo, {Pending}, BEFORE_CLAIM + {Verifying});
      case RecordDownload(p) =>
        if p < |s.downloads| {
          AuditedTouches(s.repo, s.downloads[p].seen.id, Event(DownloadRequested, s.downloads[p].startedAt),
                         BEFORE_CLAIM + {Verifying});
        }
      case _ =>
    }
  }

  // ------------------------------------------------------------------ verifications

  const UNDER_VERIFICATION := {Pending, Verifying, VerifyingActive}

  lemma AcceptTouches(s: System, p: nat)
    ensures Touches(s.repo, DoAcceptVerified(s, p).repo, {VerifyingActive})
  {
    hide Touches, Attempt;
    NothingTouched(s.repo, {VerifyingActive});
    if VerificationAt(s, p, Confirmed) {
      AttemptFrame(s, s.verifications[p].seen.id, {VerifyingActive}, To(Accepted).(
        acceptanceDeadline := Some(None), audit := Some(Event(VerificationSucceeded, s.now))));
    }
  }

  lemma RejectTouches(s: System, p: nat)
    ensures Touches(s.repo, DoRejectDamaged(s, p).repo, {VerifyingActive})
  {
    hide Touches, Attempt;
    NothingTouched(s.repo, {VerifyingActive});
    if VerificationAt(s, p, Rejecting) {
      AttemptFrame(s, s.verifications[p].seen.id, {VerifyingActive},
                   To(Deleting).(audit := Some(Event(VerificationFailed, s.now))));
    }
  }

  lemma RetryVerificationChanges(s: System, p: nat)
    ensures ChangesOnly(s.repo, DoRetryVerification(s, p).repo, {VerifyingActive})
  {
    hide ChangesOnly, Attempt, Outcome, ScheduleVerificationRetry, VerificationRetryDelay;
    NothingChanged(s.repo, {VerifyingActive});
    if VerificationAt(s, p, Retrying) {
      var seen := s.verifications[p].seen;
      AttemptChanges(s, seen.id, {VerifyingActive}, To(Expired).(audit := Some(Event(VerificationFailed, s.now))));
      VerificationRetryChanges(s.repo, seen.id, s.now + VerificationRetryDelay(seen.verificationAttempts + 1), s.now);
    }
  }

  lemma NothingChanged(r: Repo, statuses: set<Status>)
    ensures ChangesOnly(r, r, statuses)
  {
  }

  lemma AttemptChanges(s: System, id: Id, expected: set<Status>, change: Change)
    requires Terminal(change.status) ==> Deleting in expected
    ensures ChangesOnly(s.repo, Attempt(s, id, expected, change).0, expected)
  {
    hide Attempt;
    AttemptFrame(s, id, expected, change);
  }

  lemma TouchesIsChange(r: Repo, r': Repo, few: set<Status>, many: set<Status>)
    requires Touches(r, r', few) && few <= many
    ensures ChangesOnly(r, r', many)
  {
  }

  lemma VerificationChanges(s: System, step: VerificationStep)
    requires WellFormed(s.repo)
    ensures ChangesOnly(s.repo, VerificationNext(s, step).repo, UNDER_VERIFICATION)
  {
    var s' := VerificationNext(s, step);
    hide ChangesOnly, Touches, WellFormed, StartVerifications, DoAcceptVerified, DoRejectDamaged, DoRetryVerification;
    match step {
      case ClaimForVerification(limit, includeStored) => ClaimChanges(s, Min(Max(limit, 1), 8), includeStored);
      case AcceptVerified(p) =>
        AcceptTouches(s, p);
        TouchesIsChange(s.repo, s'.repo, {VerifyingActive}, UNDER_VERIFICATION);
      case RejectDamaged(p) =>
        RejectTouches(s, p);
        TouchesIsChange(s.repo, s'.repo, {VerifyingActive}, UNDER_VERIFICATION);
      case RetryVerification(p) =>
        RetryVerificationChanges(s, p);
        ChangesMore(s.repo, s'.repo, {VerifyingActive}, UNDER_VERIFICATION);
      case _ => NothingChanged(s.repo, UNDER_VERIFICATION);
    }
  }

  lemma WantedIsUnderVerification(u: Upload, now: int, staleBefore: int, includeStored: bool)
    requires WantsVerification(u, now, staleBefore, includeStored)
    ensures u.status in UNDER_VERIFICATION
  {
  }

  lemma BatchIsUnderVerification(r: Repo, now: int, limit: nat, includeStored: bool)
    requires WellFormed(r)
    ensures var batch := VerificationBatch(Values(r), now, now - STALE_CLAIM, limit, includeStored);
            forall id :: id in r.records && InBatch(batch, id) ==> r.records[id].status in UNDER_VERIFICATION
  {
    hide VerificationBatch, WantsVerification;
    BatchKnown(r, now, now - STALE_CLAIM, limit, includeStored);
    var batch := VerificationBatch(Values(r), now, now - STALE_CLAIM, limit, includeStored);
    hide WellFormed;
    forall id | id in r.records && InBatch(batch, id) ensures r.records[id].status in UNDER_VERIFICATION {
      var u :| u in batch && u.id == id;
      WantedIsUnderVerification(u, now, now - STALE_CLAIM, includeStored);
    }
  }

  lemma ClaimChanges(s: System, limit: nat, includeStored: bool)
    requires WellFormed(s.repo)
    ensures ChangesOnly(s.repo, StartVerifications(s, limit, includeStored).repo, UNDER_VERIFICATION)
  {
    hide VerificationBatch, WellFormed, InBatch;
    BatchIsUnderVerification(s.repo, s.now, limit, includeStored);
  }

  // ------------------------------------------------------------------ removals

  lemma FinishRemovalTouches(s: System, p: nat)
    ensures Touches(s.repo, DoFinishRemoval(s, p).repo, {Deleting})
    ensures DoFinishRemoval(s, p).repo.records.Keys == s.repo.records.Keys
  {
    hide Touches, Attempt;
    NothingTouched(s.repo, {Deleting});
    if RemovalAt(s, p, Gone) {
      AttemptFrame(s, s.removals[p].seen.id, {Deleting}, RemovalChange(s.removals[p].reason, s.now));
    }
  }

  lemma RetryRemovalTouches(s: System, p: nat)
    ensures Touches(s.repo, DoRetryRemoval(s, p).repo, {Deleting})
    ensures DoRetryRemoval(s, p).repo.records.Keys == s.repo.records.Keys
  {
    hide Touches, Outcome, ScheduleDeletionRetry, DeletionRetryDelay;
    NothingTouched(s.repo, {Deleting});
    if RemovalAt(s, p, Stuck) {
      var seen := s.removals[p].seen;
      DeletionRetryTouches(s.repo, seen.id, s.now + DeletionRetryDelay(seen.deletionAttempts + 1),
                           Event(DeletionRetryScheduled, s.now), s.now);
    }
  }

  /** Removal steps other than claims only touch records that are being deleted. */
  lemma RemovalTouches(s: System, step: RemovalStep)
    requires WellFormed(s.repo) && !step.ClaimForDeletion?
    ensures Touches(s.repo, RemovalNext(s, step).repo, {Deleting})
    ensures RemovalNext(s, step).repo.records.Keys == s.repo.records.Keys
  {
    hide Touches, WellFormed, Audited, DoFinishRemoval, DoRetryRemoval;
    NothingTouched(s.repo, {Deleting});
    match step {
      case AnnounceRemoval(p) =>
        if p < |s.removals| {
          AuditedTouches(s.repo, s.removals[p].seen.id, Event(DeletionClaimed, s.now), {Deleting});
        }
      case FinishRemoval(p) => FinishRemovalTouches(s, p);
      case RetryRemoval(p) => RetryRemovalTouches(s, p);
      case _ =>
    }
  }

  /** A deletion claim changes exactly records that are due, and only to Deleting. */
  ghost predicate ClaimsDue(r: Repo, r': Repo, now: int) {
    && r'.records.Keys == r.records.Keys
    && forall id :: id in r.records ==>
         || r'.records[id] == r.records[id]
         || (WantsDeletion(r.records[id], now) && r'.records[id] == ClaimedAs(r.records[id], Deleting, now))
  }

  lemma DeletionClaimsDue(s: System, limit: nat)
    requires WellFormed(s.repo)
    ensures ClaimsDue(s.repo, ClaimExpired(s.repo, s.now, limit), s.now)
  {
    DeletionBatchKnown(s.repo, s.now, limit);
    var batch := DeletionBatch(Values(s.repo), s.repo.released, s.now, limit);
    hide DeletionBatch, WellFormed, WantsDeletion;
    forall id | id in s.repo.records && InBatch(batch, id) ensures WantsDeletion(s.repo.records[id], s.now) {
      var u :| u in batch && u.id == id;
    }
  }

  // ------------------------------------------------------------------ upload ids

  /** The archive is complete: its multipart upload has been assembled. */
  predicate Stored(status: Status) { status in {Pending, Verifying, VerifyingActive, Accepted} }

  predicate KeepsUploadId(u: Upload, v: Upload) {
    v.providerUploadId == u.providerUploadId && (Stored(v.status) ==> Stored(u.status))
  }

  /** Every record keeps its upload id, and none becomes Stored that was not. */
  ghost predicate KeepsUploadIds(r: Repo, r': Repo) {
    forall id :: id in r.records ==> id in r'.records && KeepsUploadId(r.records[id], r'.records[id])
  }

  lemma SameRecordsKeepUploadIds(r: Repo, r': Repo)
    requires r'.records == r.records
    ensures KeepsUploadIds(r, r')
  {
  }

  lemma AttemptKeepsUploadIds(s: System, id: Id, expected: set<Status>, change: Change)
    requires change.providerUploadId.None?
    requires Stored(change.status) ==> forall status :: status in expected ==> Stored(status)
    ensures KeepsUploadIds(s.repo, Attempt(s, id, expected, change).0)
  {
  }

  lemma {:induction false} EvictionsKeepUploadIds(r: Repo, ids: seq<Id>, at: int)
    requires forall id :: id in ids ==> id in r.records
    ensures KeepsUploadIds(r, EvictAll(r, ids, at))
  {
    if ids != [] {
      EvictionsKeepUploadIds(r, ids[..|ids| - 1], at);
    }
  }

  lemma AdmissionKeepsUploadIds(r: Repo, record: Upload, since: int, limits: QuotaLimits, event: Event)
    requires WellFormed(r) && record.id !in r.records
    requires InsertWithinQuota(r, record, since, limits, event).Ok?
    ensures KeepsUploadIds(r, InsertWithinQuota(r, record, since, limits, event).value.0)
  {
    hide InsertWithinQuota, Evictions, WellFormed;
    AdmissionShape(r, record, since, limits, event);
    if InsertWithinQuota(r, record, since, limits, event).value.1 {
      EvictionsKeepUploadIds(r, Capacity.IdList(Evictions(r, record, limits).value), record.createdAt);
    }
  }

  lemma CreateKeepsUploadIds(s: System, id: Id, install: string, network: string, sizeBytes: nat)
    requires WellFormed(s.repo)
    ensures KeepsUploadIds(s.repo, DoCreate(s, id, install, network, sizeBytes).repo)
  {
    hide InsertWithinQuota, WellFormed, KeepsUploadIds;
    SameRecordsKeepUploadIds(s.repo, s.repo);
    if DoCreate(s, id, install, network, sizeBytes).repo != s.repo {
      var record := NewUpload(id, install, network, sizeBytes, s.now, s.now + 72 * MILLIS_PER_HOUR);
      AdmissionKeepsUploadIds(s.repo, record, s.now - 24 * MILLIS_PER_HOUR, DIAGNOSTIC_QUOTA,
                              Event(UploadCreated, s.now));
    }
  }

  lemma GrantKeepsUploadIds(s: System, id: Id, partNumber: int, grant: Grant)
    ensures KeepsUploadIds(s.repo, DoGrantPart(s, id, partNumber, grant).repo)
  {
    hide PartCount, PartLength;
  }

  lemma UploadKeepsUploadIds(s: System, step: UploadStep)
    requires WellFormed(s.repo) && !step.BindProvider?
    ensures KeepsUploadIds(s.repo, UploadNext(s, step).repo)
  {
    hide DoCreate, DoGrantPart, Attempt, Audited, WellFormed, KeepsUploadIds;
    match step {
      case Create(id, install, network, size) => CreateKeepsUploadIds(s, id, install, network, size);
      case AbandonCreation(id) => AttemptKeepsUploadIds(s, id, {Uploading}, To(Failed));
      case NoteCompensationFailure(id) =>
        AuditedTouches(s.repo, id, Event(CompensationFailed, s.now), BEFORE_CLAIM);
        SameRecordsKeepUploadIds(s.repo, Audited(s.repo, id, Event(CompensationFailed, s.now)));
      case GrantPart(id, partNumber, grant) => GrantKeepsUploadIds(s, id, partNumber, grant);
    }
  }

  lemma CompletionKeepsUploadIds(s: System, step: CompletionStep)
    requires !step.FinishCompletion?
    ensures KeepsUploadIds(s.repo, CompletionNext(s, step).repo)
  {
    hide Attempt, ValidateParts, KeepsUploadIds;
    SameRecordsKeepUploadIds(s.repo, s.repo);
    if step.WinCompletion? && step.p < |s.completions| {
      AttemptKeepsUploadIds(s, s.completions[step.p].seen.id, {Uploading}, To(Completing));
    } else if step.FailCompletion? && step.p < |s.completions| {
      AttemptKeepsUploadIds(s, s.completions[step.p].seen.id, {Completing}, To(Failed));
    }
  }

  lemma AdministratorKeepsUploadIds(s: System, step: AdministratorStep)
    ensures KeepsUploadIds(s.repo, AdministratorNext(s, step).repo)
  {
    hide Attempt, Audited, KeepsUploadIds;
    SameRecordsKeepUploadIds(s.repo, s.repo);
    match step {
      case DeleteByAdministrator(id, seen) =>
        AttemptKeepsUploadIds(s, id, {seen}, To(Expired).(audit := Some(Event(ModerationDelete, s.now))));
      case QueueVerification(p) =>
        if p < |s.downloads| {
          var d := s.downloads[p];
          var deadline := Min(d.seen.expiresAt, d.startedAt + 24 * MILLIS_PER_HOUR);
          AttemptKeepsUploadIds(s, d.seen.id, {Pending}, To(Verifying).(
            acceptanceDeadline := Some(Some(deadline)), audit := Some(Event(VerificationRequested, d.startedAt))));
        }
      case RecordDownload(p) =>
        if p < |s.downloads| {
          var event := Event(DownloadRequested, s.downloads[p].startedAt);
          AuditedTouches(s.repo, s.downloads[p].seen.id, event, BEFORE_CLAIM);
          SameRecordsKeepUploadIds(s.repo, Audited(s.repo, s.downloads[p].seen.id, event));
        }
      case _ =>
    }
  }

  lemma ClaimKeepsUploadIds(s: System, limit: nat, includeStored: bool)
    requires WellFormed(s.repo)
    ensures KeepsUploadIds(s.repo, StartVerifications(s, limit, includeStored).repo)
  {
    hide VerificationBatch, WellFormed, InBatch;
    BatchIsUnderVerification(s.repo, s.now, limit, includeStored);
  }

  lemma VerificationRetryKeepsUploadIds(r: Repo, id: Id, at: int, now: int)
    ensures KeepsUploadIds(r, Outcome(r, ScheduleVerificationRetry(r, id, at, now)).0)
  {
  }

  lemma RetryVerificationKeepsUploadIds(s: System, p: nat)
    ensures KeepsUploadIds(s.repo, DoRetryVerification(s, p).repo)
  {
    hide Attempt, Outcome, ScheduleVerificationRetry, VerificationRetryDelay, KeepsUploadIds;
    SameRecordsKeepUploadIds(s.repo, s.repo);
    if VerificationAt(s, p, Retrying) {
      var seen := s.verifications[p].seen;
      AttemptKeepsUploadIds(s, seen.id, {VerifyingActive},
                            To(Expired).(audit := Some(Event(VerificationFailed, s.now))));
      VerificationRetryKeepsUploadIds(s.repo, seen.id,
                                      s.now + VerificationRetryDelay(seen.verificationAttempts + 1), s.now);
    }
  }

  lemma VerificationKeepsUploadIds(s: System, step: VerificationStep)
    requires WellFormed(s.repo)
    ensures KeepsUploadIds(s.repo, VerificationNext(s, step).repo)
  {
    hide Attempt, WellFormed, StartVerifications, DoRetryVerification, KeepsUploadIds;
    SameRecordsKeepUploadIds(s.repo, s.repo);
    match step {
      case ClaimForVerification(limit, includeStored) =>
        ClaimKeepsUploadIds(s, Min(Max(limit, 1), 8), includeStored);
      case AcceptVerified(p) =>
        if p < |s.verifications| {
          AttemptKeepsUploadIds(s, s.verifications[p].seen.id, {VerifyingActive}, To(Accepted).(
            acceptanceDeadline := Some(None), audit := Some(Event(VerificationSucceeded, s.now))));
        }
      case RejectDamaged(p) =>
        if p < |s.verifications| {
          AttemptKeepsUploadIds(s, s.verifications[p].seen.id, {VerifyingActive},
                                To(Deleting).(audit := Some(Event(VerificationFailed, s.now))));
        }
      case RetryVerification(p) => RetryVerificationKeepsUploadIds(s, p);
      case _ =>
    }
  }
}
