/**
 * The end of retention without any hypothesis on the state: no lease and no backoff reaches further than 72 hours
 * ahead, so after 72 quiet hours every live record of every reachable state is due, and cleanups empty the store.
 */
module QuietRetention {
  import opened Options
  import opened Policy
  import opened Uploads
  import opened Multipart
  import opened Lifecycle
  import opened LifecycleSafety
  import opened LifecycleRuns
  import opened LifecycleFrames
  import opened RetentionEnd
  import opened RetentionRounds
  import Capacity

  // ------------------------------------------------------------------ nothing reaches far ahead

  /** Created and last written in the past, and the next deletion attempt at most six hours ahead. */
  predicate Timely(u: Upload, now: int) {
    && u.createdAt <= now && u.updatedAt <= now
    && (u.nextDeletionAttemptAt.Some? ==> u.nextDeletionAttemptAt.value <= now + 6 * MILLIS_PER_HOUR)
  }

  ghost predicate AllTimely(r: Repo, now: int) {
    forall id :: id in r.records ==> Timely(r.records[id], now)
  }

  lemma SameRecordsTimely(r: Repo, r': Repo, now: int)
    requires AllTimely(r, now) && r'.records == r.records
    ensures AllTimely(r', now)
  {
  }

  lemma LaterTimely(r: Repo, now: int, later: int)
    requires AllTimely(r, now) && now <= later
    ensures AllTimely(r, later)
  {
  }

  lemma AttemptTimely(s: System, id: Id, expected: set<Status>, change: Change)
    requires AllTimely(s.repo, s.now)
    ensures AllTimely(Attempt(s, id, expected, change).0, s.now)
  {
  }

  lemma BoundTimely(r: Repo, id: Id, uploadId: string, now: int)
    requires AllTimely(r, now)
    ensures AllTimely(Outcome(r, SetProviderUploadId(r, id, uploadId, now)).0, now)
  {
  }

  lemma GrantTimely(r: Repo, id: Id, partNumber: int, grant: Grant, now: int)
    requires AllTimely(r, now)
    ensures AllTimely(Outcome(r, RegisterPartGrant(r, id, partNumber, grant, now)).0, now)
  {
  }

  lemma VerificationRetryTimely(r: Repo, id: Id, at: int, now: int)
    requires AllTimely(r, now)
    ensures AllTimely(Outcome(r, ScheduleVerificationRetry(r, id, at, now)).0, now)
  {
  }

  lemma DeletionRetryTimely(r: Repo, id: Id, at: int, event: Event, now: int)
    requires AllTimely(r, now) && at <= now + 6 * MILLIS_PER_HOUR
    ensures AllTimely(Outcome(r, ScheduleDeletionRetry(r, id, at, event, now)).0, now)
  {
  }

  lemma ClaimTimely(r: Repo, batch: seq<Upload>, status: Status, now: int)
    requires AllTimely(r, now)
    ensures AllTimely(ClaimAll(r, batch, status, now), now)
  {
  }

  lemma {:induction false} EvictionsTimely(r: Repo, ids: seq<Id>, now: int)
    requires AllTimely(r, now) && forall id :: id in ids ==> id in r.records
    ensures AllTimely(EvictAll(r, ids, now), now)
  {
    if ids != [] {
      EvictionsTimely(r, ids[..|ids| - 1], now);
    }
  }

  lemma AdmissionTimely(r: Repo, record: Upload, since: int, limits: QuotaLimits, event: Event)
    requires WellFormed(r) && record.id !in r.records && AllTimely(r, record.createdAt)
    requires Timely(record, record.createdAt)
    requires InsertWithinQuota(r, record, since, limits, event).Ok?
    ensures AllTimely(InsertWithinQuota(r, record, since, limits, event).value.0, record.createdAt)
  {
    hide InsertWithinQuota, Evictions, WellFormed, EvictAll, Timely;
    AdmissionShape(r, record, since, limits, event);
    if InsertWithinQuota(r, record, since, limits, event).value.1 {
      EvictionsKnown(r, record, limits);
      EvictionsTimely(r, Capacity.IdList(Evictions(r, record, limits).value), record.createdAt);
    }
  }

  lemma CreateTimely(s: System, id: Id, install: string, network: string, sizeBytes: nat)
    requires WellFormed(s.repo) && AllTimely(s.repo, s.now)
    ensures AllTimely(DoCreate(s, id, install, network, sizeBytes).repo, s.now)
  {
    hide InsertWithinQuota, WellFormed, AllTimely;
    if DoCreate(s, id, install, network, sizeBytes).repo != s.repo {
      var record := NewUpload(id, install, network, sizeBytes, s.now, s.now + 72 * MILLIS_PER_HOUR);
      AdmissionTimely(s.repo, record, s.now - 24 * MILLIS_PER_HOUR, DIAGNOSTIC_QUOTA, Event(UploadCreated, s.now));
    }
  }

  // ------------------------------------------------------------------ every step

  lemma UploadTimely(s: System, step: UploadStep)
    requires WellFormed(s.repo) && AllTimely(s.repo, s.now)
    ensures AllTimely(UploadNext(s, step).repo, s.now)
  {
    hide AllTimely, WellFormed, Attempt, Audited, Outcome, DoCreate, SetProviderUploadId, RegisterPartGrant;
    match step {
      case Create(id, install, network, size) => CreateTimely(s, id, install, network, size);
      case BindProvider(id, uploadId) => BoundTimely(s.repo, id, uploadId, s.now);
      case AbandonCreation(id) => AttemptTimely(s, id, {Uploading}, To(Failed));
      case NoteCompensationFailure(id) => AuditedTimely(s.repo, id, Event(CompensationFailed, s.now), s.now);
      case GrantPart(id, partNumber, grant) => GrantTimely(s.repo, id, partNumber, grant, s.now);
    }
  }

  lemma AuditedTimely(r: Repo, id: Id, event: Event, now: int)
    requires AllTimely(r, now)
    ensures AllTimely(Audited(r, id, event), now)
  {
    AuditedTouches(r, id, event, {});
    SameRecordsTimely(r, Audited(r, id, event), now);
  }

  lemma CompletionTimely(s: System, step: CompletionStep)
    requires AllTimely(s.repo, s.now)
    ensures AllTimely(CompletionNext(s, step).repo, s.now)
  {
    hide AllTimely, Attempt, ValidateParts;
    if step.WinCompletion? && step.p < |s.completions| {
      AttemptTimely(s, s.completions[step.p].seen.id, {Uploading}, To(Completing));
    } else if step.FinishCompletion? && step.p < |s.completions| {
      AttemptTimely(s, s.completions[step.p].seen.id, {Completing},
                    To(Pending).(providerUploadId := Some(None), audit := Some(Event(UploadCompleted, s.now))));
    } else if step.FailCompletion? && step.p < |s.completions| {
      AttemptTimely(s, s.completions[step.p].seen.id, {Completing}, To(Failed));
    }
  }

  lemma AdministratorTimely(s: System, step: AdministratorStep)
    requires AllTimely(s.repo, s.now)
    ensures AllTimely(AdministratorNext(s, step).repo, s.now)
  {
    hide AllTimely, Attempt, Audited;
    match step {
      case DeleteByAdministrator(id, seen) =>
        AttemptTimely(s, id, {seen}, To(Expired).(audit := Some(Event(ModerationDelete, s.now))));
      case QueueVerification(p) =>
        if p < |s.downloads| {
          var d := s.downloads[p];
          var deadline := Min(d.seen.expiresAt, d.startedAt + 24 * MILLIS_PER_HOUR);
          AttemptTimely(s, d.seen.id, {Pending}, To(Verifying).(acceptanceDeadline := Some(Some(deadline)),
                                                    audit := Some(Event(VerificationRequested, d.startedAt))));
        }
      case RecordDownload(p) =>
        if p < |s.downloads| {
          AuditedTimely(s.repo, s.downloads[p].seen.id, Event(DownloadRequested, s.downloads[p].startedAt), s.now);
        }
      case _ =>
    }
  }

  lemma RetryVerificationTimely(s: System, p: nat)
    requires AllTimely(s.repo, s.now)
    ensures AllTimely(DoRetryVerification(s, p).repo, s.now)
  {
    hide AllTimely, Attempt, Outcome, ScheduleVerificationRetry, VerificationRetryDelay;
    if VerificationAt(s, p, Retrying) {
      var seen := s.verifications[p].seen;
      AttemptTimely(s, seen.id, {VerifyingActive}, To(Expired).(audit := Some(Event(VerificationFailed, s.now))));
      VerificationRetryTimely(s.repo, seen.id, s.now + VerificationRetryDelay(seen.verificationAttempts + 1), s.now);
    }
  }

  lemma StartTimely(s: System, limit: nat, includeStored: bool)
    requires WellFormed(s.repo) && AllTimely(s.repo, s.now)
    ensures AllTimely(StartVerifications(s, limit, includeStored).repo, s.now)
  {
    hide AllTimely, VerificationBatch, ClaimAll;
    var batch := VerificationBatch(Values(s.repo), s.now, s.now - STALE_CLAIM, limit, includeStored);
    hide WellFormed;
    ClaimTimely(s.repo, batch, VerifyingActive, s.now);
  }

  lemma VerificationTimely(s: System, step: VerificationStep)
    requires WellFormed(s.repo) && AllTimely(s.repo, s.now)
    ensures AllTimely(VerificationNext(s, step).repo, s.now)
  {
    hide AllTimely, WellFormed, Attempt, StartVerifications, DoRetryVerification;
    match step {
      case ClaimForVerification(limit, includeStored) => StartTimely(s, Min(Max(limit, 1), 8), includeStored);
      case AcceptVerified(p) =>
        if p < |s.verifications| {
          AttemptTimely(s, s.verifications[p].seen.id, {VerifyingActive}, To(Accepted).(
            acceptanceDeadline := Some(None), audit := Some(Event(VerificationSucceeded, s.now))));
        }
      case RejectDamaged(p) =>
        if p < |s.verifications| {
          AttemptTimely(s, s.verifications[p].seen.id, {VerifyingActive},
                        To(Deleting).(audit := Some(Event(VerificationFailed, s.now))));
        }
      case RetryVerification(p) => RetryVerificationTimely(s, p);
      case _ =>
    }
  }

  lemma DeletionClaimTimely(s: System, limit: nat)
    requires WellFormed(s.repo) && AllTimely(s.repo, s.now)
    ensures AllTimely(DoClaimForDeletion(s, limit).repo, s.now)
  {
    hide AllTimely, DeletionBatch, ClaimAll;
    var batch := DeletionBatch(Values(s.repo), s.repo.released, s.now, limit);
    hide WellFormed;
    ClaimTimely(s.repo, batch, Deleting, s.now);
  }

  lemma RetryRemovalTimely(s: System, p: nat)
    requires AllTimely(s.repo, s.now)
    ensures AllTimely(DoRetryRemoval(s, p).repo, s.now)
  {
    hide AllTimely, Outcome, ScheduleDeletionRetry;
    if RemovalAt(s, p, Stuck) {
      var seen := s.removals[p].seen;
      DeletionRetryTimely(s.repo, seen.id, s.now + DeletionRetryDelay(seen.deletionAttempts + 1),
                          Event(DeletionRetryScheduled, s.now), s.now);
    }
  }

  lemma RemovalTimely(s: System, step: RemovalStep)
    requires WellFormed(s.repo) && AllTimely(s.repo, s.now)
    ensures AllTimely(RemovalNext(s, step).repo, s.now)
  {
    hide AllTimely, WellFormed, Attempt, Audited, DoClaimForDeletion, DoRetryRemoval;
    match step {
      case ClaimForDeletion(limit) => DeletionClaimTimely(s, limit);
      case AnnounceRemoval(p) =>
        if p < |s.removals| {
          AuditedTimely(s.repo, s.removals[p].seen.id, Event(DeletionClaimed, s.now), s.now);
        }
      case FinishRemoval(p) =>
        if p < |s.removals| {
          AttemptTimely(s, s.removals[p].seen.id, {Deleting}, RemovalChange(s.removals[p].reason, s.now));
        }
      case RetryRemoval(p) => RetryRemovalTimely(s, p);
      case _ =>
    }
  }

  lemma ClockGoesOn(s: System, step: Step)
    requires WellFormed(s.repo)
    ensures Next(s, step).now == if step.Tick? then s.now + step.elapsed else s.now
  {
    hide WellFormed, Attempt, Audited, Outcome, InsertWithinQuota, ValidateParts, VerificationBatch, DeletionBatch,
         ClaimAll;
  }

  lemma StepKeepsTimely(s: System, step: Step)
    requires Safe(s) && AllTimely(s.repo, s.now)
    ensures AllTimely(Next(s, step).repo, Next(s, step).now)
  {
    hide Safe, WellFormed, AllTimely, UploadNext, CompletionNext, AdministratorNext, VerificationNext, RemovalNext;
    SafeIsWellFormed(s);
    ClockGoesOn(s, step);
    match step {
      case Tick(elapsed) => LaterTimely(s.repo, s.now, s.now + elapsed);
      case OnProvider(_) =>
      case OnUpload(upload) => UploadTimely(s, upload);
      case OnCompletion(completion) => CompletionTimely(s, completion);
      case ByAdministrator(request) => AdministratorTimely(s, request);
      case OnVerification(verification) => VerificationTimely(s, verification);
      case OnRemoval(removal) => RemovalTimely(s, removal);
    }
  }

  lemma {:induction false} RunKeepsTimely(s: System, steps: seq<Step>)
    requires Safe(s) && AllTimely(s.repo, s.now)
    ensures AllTimely(RunFrom(s, steps).repo, RunFrom(s, steps).now)
    decreases |steps|
  {
    hide Safe, AllTimely, Next;
    if steps != [] {
      StepKeepsSafe(s, steps[0]);
      StepKeepsTimely(s, steps[0]);
      RunKeepsTimely(Next(s, steps[0]), steps[1..]);
    }
  }

  lemma RunIsTimely(steps: seq<Step>)
    ensures AllTimely(Run(steps).repo, Run(steps).now)
  {
    hide Safe, Run, RunFrom;
    StartIsSafe();
    RunIsRunFrom(steps);
    RunKeepsTimely(START, steps);
  }

  // ------------------------------------------------------------------ 72 quiet hours

  /** Every live record is past its 72 hours, and outside the leases and the backoff that excuse it. */
  ghost predicate PastEnd(s: System) {
    forall id :: id in Alive(s.repo) ==>
      && s.now >= s.repo.records[id].createdAt + 72 * MILLIS_PER_HOUR
      && !Excused(s.repo.records[id], s.now)
  }

  lemma PastEndIsDue(s: System)
    requires Safe(s) && PastEnd(s)
    ensures AllDue(s.repo, s.now)
  {
    forall id | id in s.repo.records && !Terminal(s.repo.records[id].status)
      ensures WantsDeletion(s.repo.records[id], s.now)
    {
      assert id in Alive(s.repo) && Sound(s.repo.records[id]);
      SoundIsClaimed(s.repo.records[id], s.now);
    }
  }

  /** 72 hours outlast every lease and every backoff, and end every retention. */
  lemma QuietHoursEnd(s: System, quiet: nat)
    requires AllTimely(s.repo, s.now) && quiet >= 72 * MILLIS_PER_HOUR
    ensures PastEnd(s.(now := s.now + quiet))
  {
  }

  lemma DueStaysDue(u: Upload, now: int, later: int)
    requires WantsDeletion(u, now) && now <= later
    ensures WantsDeletion(u, later)
  {
  }

  lemma AfterTick(s: System, elapsed: nat)
    requires Safe(s)
    ensures RunFrom(s, [Tick(elapsed)]) == s.(now := s.now + elapsed)
  {
    hide Safe, RunFrom;
    RunCons(s, Tick(elapsed), []);
    assert [Tick(elapsed)] + [] == [Tick(elapsed)];
    RunNothing(Next(s, Tick(elapsed)));
  }

  lemma AllStayDue(r: Repo, now: int, later: int)
    requires AllDue(r, now) && now <= later
    ensures AllDue(r, later)
  {
    hide WantsDeletion, Terminal;
    forall id | id in r.records && !Terminal(r.records[id].status) ensures WantsDeletion(r.records[id], later) {
      DueStaysDue(r.records[id], now, later);
    }
  }

  // ------------------------------------------------------------------ cleanups after any waits

  /** A round in which only the clock and the cleanup itself move. */
  ghost function QuietRound(s: System, elapsed: nat, limit: nat): Round
    requires Safe(s)
  {
    var before := [Tick(elapsed)];
    Round(before, RemovalSteps(AtClaim(s, Round(before, [])), limit))
  }

  ghost function QuietRounds(s: System, elapsed: seq<nat>, limit: nat): (rounds: seq<Round>)
    requires Safe(s)
    ensures |rounds| == |elapsed|
    decreases |elapsed|
  {
    if elapsed == [] then []
    else
      var round := QuietRound(s, elapsed[0], limit);
      [round] + QuietRounds(AfterRound(s, round, limit), elapsed[1..], limit)
  }

  lemma {:induction false} Undisturbed(own: seq<Step>)
    ensures Interleaves(own, own)
  {
    if own != [] { Undisturbed(own[1..]); }
  }

  lemma QuietRoundIsCleanup(s: System, elapsed: nat, limit: nat)
    requires Safe(s)
    ensures var found := AtClaim(s, QuietRound(s, elapsed, limit));
      AfterRound(s, QuietRound(s, elapsed, limit), limit) == RunFrom(found, CleanupSteps(found, limit))
  {
    hide Safe, RunFrom, Next, WellFormed, RemoveAll, DeletionBatch;
    var found := AtClaim(s, QuietRound(s, elapsed, limit));
    RunCons(found, OnRemoval(ClaimForDeletion(limit)), RemovalSteps(found, limit));
  }

  /** A quiet round that finds all due fits, and leaves all due. */
  lemma QuietRoundFits(s: System, elapsed: nat, limit: nat)
    requires Safe(s) && AllDue(s.repo, s.now + elapsed)
    ensures RoundFits(s, QuietRound(s, elapsed, limit), limit)
    ensures var after := AfterRound(s, QuietRound(s, elapsed, limit), limit); AllDue(after.repo, after.now)
  {
    hide Safe, AllDue, RunFrom, CleanupSteps, CleanedUp, Alive, AfterRound, RemovalSteps, Interleaves;
    var round := QuietRound(s, elapsed, limit);
    var found := AtClaim(s, round);
    AfterTick(s, elapsed);
    Undisturbed(round.work);
    QuietRoundIsCleanup(s, elapsed, limit);
    CleanupStepsCleanUp(found, limit);
    CleanupShrinks(found.repo, found.now, limit);
  }

  lemma {:induction false} QuietRoundsFit(s: System, elapsed: seq<nat>, limit: nat)
    requires Safe(s) && (elapsed != [] ==> AllDue(s.repo, s.now + elapsed[0]))
    ensures RoundsFit(s, QuietRounds(s, elapsed, limit), limit)
    decreases |elapsed|
  {
    hide Safe, AllDue, RoundFits, QuietRound, AfterRound;
    if elapsed != [] {
      var round := QuietRound(s, elapsed[0], limit);
      var after := AfterRound(s, round, limit);
      QuietRoundFits(s, elapsed[0], limit);
      if |elapsed| > 1 { AllStayDue(after.repo, after.now, after.now + elapsed[1]); }
      QuietRoundsFit(after, elapsed[1..], limit);
      assert QuietRounds(s, elapsed, limit)[1..] == QuietRounds(after, elapsed[1..], limit);
    }
  }

  /**
   * From every reachable state, whatever it is, cleanups that begin after 72 quiet hours and follow at any later
   * times leave no live record as soon as they are enough.
   */
  lemma QuietStoreEmpties(steps: seq<Step>, elapsed: seq<nat>, limit: nat)
    requires elapsed != [] && elapsed[0] >= 72 * MILLIS_PER_HOUR
    requires |Alive(Run(steps).repo)| <= Batches(|elapsed|, limit)
    ensures Alive(AfterRounds(Run(steps), QuietRounds(Run(steps), elapsed, limit), limit).repo) == {}
  {
    hide Run, AfterRounds, QuietRounds, RoundsFit, Safe, PastEnd, AllTimely, Batches;
    var s := Run(steps);
    RunIsTimely(steps);
    QuietHoursEnd(s, elapsed[0]);
    LaterIsSafe(s, elapsed[0]);
    PastEndIsDue(s.(now := s.now + elapsed[0]));
    QuietRoundsFit(s, elapsed, limit);
    ReachableStoreEmpties(steps, QuietRounds(s, elapsed, limit), limit);
  }

  lemma LaterIsSafe(s: System, elapsed: nat)
    requires Safe(s)
    ensures Safe(s.(now := s.now + elapsed))
  {
    hide Safe, RunFrom;
    AfterTick(s, elapsed);
  }
}
