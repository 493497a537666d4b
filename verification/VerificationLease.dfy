/**
 * The verification lease. A check ends by its deadline, which is at most two hours after the claim; when the
 * status write follows within four more hours, a claim is never retaken while its verifier is still alive.
 */
module VerificationLease {
  import opened Options
  import opened Policy
  import opened Uploads
  import opened Multipart
  import opened Lifecycle
  import opened LifecycleSafety
  import opened LifecycleRuns
  import opened LifecycleFrames

  /** The deadline for one verification is at least ten minutes and at most two hours, whatever the size. */
  lemma DeadlineBounds(expectedBytes: nat)
    ensures 10 * 60 * 1000 <= VerificationDeadline(expectedBytes) <= 2 * MILLIS_PER_HOUR
    ensures 2 * MILLIS_PER_HOUR + WRITE_TIME == STALE_CLAIM
  {
  }

  /** It is the time to read the archive at 5 MiB a second, rounded up, plus five minutes, between those bounds. */
  lemma DeadlineExactly(expectedBytes: nat, transfer: nat)
    requires (transfer - 1) * 5_242_880 < expectedBytes * 1000 <= transfer * 5_242_880
    ensures VerificationDeadline(expectedBytes)
      == if transfer <= 300_000 then 600_000 else if transfer >= 6_900_000 then 7_200_000 else transfer + 300_000
  {
  }

  /** What is left of the six hours after the longest check. */
  const WRITE_TIME := 4 * MILLIS_PER_HOUR

  predicate Live(v: Verification) { v.stage != Closed }

  /** A check is stopped by its deadline, and a worker whose check ended writes the status within WRITE_TIME. */
  ghost predicate Prompt(s: System) {
    forall p :: 0 <= p < |s.verifications| && Live(s.verifications[p]) ==>
      var v := s.verifications[p];
      if v.stage == Checking then s.now <= v.seen.updatedAt + VerificationDeadline(v.seen.sizeBytes)
      else s.now < v.checkedAt + WRITE_TIME
  }

  /** The record a live verifier holds is still exactly as it was claimed, or is past verification for good. */
  ghost predicate Holds(r: Repo, v: Verification) {
    && v.seen.status == VerifyingActive
    && v.seen.id in r.records
    && (v.stage != Checking ==> v.checkedAt <= v.seen.updatedAt + 2 * MILLIS_PER_HOUR)
    && (r.records[v.seen.id] == v.seen || Phase(r.records[v.seen.id].status) >= 5)
  }

  ghost predicate NoTwoLive(vs: seq<Verification>) {
    forall p, q :: 0 <= p < q < |vs| && Live(vs[p]) && Live(vs[q]) ==> vs[p].seen.id != vs[q].seen.id
  }

  ghost predicate FewAttempts(r: Repo) {
    forall id :: id in r.records ==> r.records[id].verificationAttempts <= 7
  }

  ghost predicate Leased(s: System) {
    && NoTwoLive(s.verifications)
    && FewAttempts(s.repo)
    && forall p :: 0 <= p < |s.verifications| && Live(s.verifications[p]) ==> Holds(s.repo, s.verifications[p])
  }

  // ------------------------------------------------------------------ steps of the other processes

  /** A step that touches no record under verification keeps every verifier's hold. */
  lemma OtherStepKeepsLeased(s: System, s': System, statuses: set<Status>)
    requires Leased(s) && Evolves(s.repo, s'.repo) && Touches(s.repo, s'.repo, statuses) && VerifyingActive !in statuses
    requires forall id :: id in s'.repo.records && id !in s.repo.records ==> s'.repo.records[id].verificationAttempts == 0
    requires s'.verifications == s.verifications
    ensures Leased(s')
  {
    forall p | 0 <= p < |s.verifications| && Live(s.verifications[p]) ensures Holds(s'.repo, s.verifications[p]) {
      var id := s.verifications[p].seen.id;
      assert Holds(s.repo, s.verifications[p]);
      assert LegalMove(s.repo.records[id], s'.repo.records[id]);
    }
    hide Evolves;
  }

  lemma DeletionClaimKeepsLeased(s: System, limit: nat)
    requires Safe(s) && Leased(s)
    ensures Leased(DoClaimForDeletion(s, limit))
  {
    DeletionClaimsDue(s, limit);
    var s' := DoClaimForDeletion(s, limit);
    DueKeepsFewAttempts(s.repo, s'.repo, s.now);
    hide ClaimExpired, Safe, ClaimsDue, FewAttempts, Holds, DeletionBatch;
    forall p | 0 <= p < |s.verifications| && Live(s.verifications[p]) ensures Holds(s'.repo, s.verifications[p]) {
      DueKeepsHolds(s.repo, s'.repo, s.verifications[p], s.now);
    }
  }

  lemma DueKeepsHolds(r: Repo, r': Repo, v: Verification, now: int)
    requires ClaimsDue(r, r', now) && Holds(r, v)
    ensures Holds(r', v)
  {
    hide WantsDeletion;
  }

  lemma DueKeepsFewAttempts(r: Repo, r': Repo, now: int)
    requires ClaimsDue(r, r', now) && FewAttempts(r)
    ensures FewAttempts(r')
  {
    hide WantsDeletion;
  }

  // ------------------------------------------------------------------ steps of the verifiers

  /** Closing verifier p, whatever it did to its own record, keeps the others' holds. */
  lemma ClosingKeepsLeased(s: System, s': System, p: nat)
    requires Leased(s) && p < |s.verifications| && Live(s.verifications[p])
    requires s'.verifications == s.verifications[p := s.verifications[p].(stage := Closed)]
    requires s'.repo.records.Keys == s.repo.records.Keys
    requires forall id :: id in s.repo.records && id != s.verifications[p].seen.id ==> s'.repo.records[id] == s.repo.records[id]
    requires s.verifications[p].seen.id in s'.repo.records ==>
               s'.repo.records[s.verifications[p].seen.id].verificationAttempts <= 7
    ensures Leased(s')
  {
    forall q | 0 <= q < |s'.verifications| && Live(s'.verifications[q]) ensures Holds(s'.repo, s'.verifications[q]) {
      assert q != p && s'.verifications[q] == s.verifications[q];
      assert Holds(s.repo, s.verifications[q]);
      assert s.verifications[q].seen.id != s.verifications[p].seen.id;
    }
  }

  /** Moving verifier p to another live stage keeps the lease when its record is as it was. */
  lemma StagingKeepsLeased(s: System, s': System, p: nat, v: Verification)
    requires Leased(s) && p < |s.verifications| && Live(s.verifications[p])
    requires s'.verifications == s.verifications[p := v] && v.seen == s.verifications[p].seen && Holds(s.repo, v)
    requires s'.repo == s.repo
    ensures Leased(s')
  {
  }

  lemma CheckKeepsLeased(s: System, p: nat, outcome: CheckOutcome)
    requires Leased(s) && Prompt(s)
    ensures Leased(DoCheckObject(s, p, outcome))
  {
    if VerificationAt(s, p, Checking) {
      var v := s.verifications[p];
      assert Holds(s.repo, v);
      DeadlineBounds(v.seen.sizeBytes);
      StagingKeepsLeased(s, DoCheckObject(s, p, outcome), p, DoCheckObject(s, p, outcome).verifications[p]);
    }
  }

  lemma AcceptKeepsLeased(s: System, p: nat)
    requires Leased(s)
    ensures Leased(DoAcceptVerified(s, p))
  {
    if VerificationAt(s, p, Confirmed) {
      var v := s.verifications[p];
      var change := To(Accepted).(acceptanceDeadline := Some(None), audit := Some(Event(VerificationSucceeded, s.now)));
      assert Holds(s.repo, v);
      AttemptFrame(s, v.seen.id, {VerifyingActive}, change);
      hide Attempt;
      var s' := DoAcceptVerified(s, p);
      if s'.verifications[p].stage == Closed {
        ClosingKeepsLeased(s, s', p);
      } else {
        StagingKeepsLeased(s, s', p, v.(stage := Retrying));
      }
    }
  }

  lemma RejectKeepsLeased(s: System, p: nat)
    requires Leased(s)
    ensures Leased(DoRejectDamaged(s, p))
  {
    if VerificationAt(s, p, Rejecting) {
      var v := s.verifications[p];
      assert Holds(s.repo, v);
      AttemptFrame(s, v.seen.id, {VerifyingActive}, To(Deleting).(audit := Some(Event(VerificationFailed, s.now))));
      hide Attempt;
      ClosingKeepsLeased(s, DoRejectDamaged(s, p), p);
    }
  }

  /** What a retry writes to its own record, and to no other. */
  lemma RetryWrites(s: System, p: nat)
    requires VerificationAt(s, p, Retrying)
    ensures var s' := DoRetryVerification(s, p);
      var id := s.verifications[p].seen.id;
      && s'.repo.records.Keys == s.repo.records.Keys
      && s'.verifications == s.verifications[p := s.verifications[p].(stage := Closed)]
      && (forall other :: other in s.repo.records && other != id ==> s'.repo.records[other] == s.repo.records[other])
  {
    hide VerificationRetryDelay, VerificationEnd;
  }

  /** The eighth failed attempt is never stored: the count a verifier read is the stored one. */
  lemma RetryKeepsLeased(s: System, p: nat)
    requires Leased(s)
    ensures Leased(DoRetryVerification(s, p))
  {
    if VerificationAt(s, p, Retrying) {
      assert Holds(s.repo, s.verifications[p]);
      HeldRetryRecordsFailure(s, p);
      RetryWrites(s, p);
      hide DoRetryVerification, VerificationRetryDelay, VerificationEnd;
      ClosingKeepsLeased(s, DoRetryVerification(s, p), p);
    }
  }

  lemma AbandonKeepsLeased(s: System, p: nat)
    requires Leased(s)
    ensures Leased(DoAbandonVerification(s, p))
  {
    if p < |s.verifications| && Live(s.verifications[p]) {
      assert Holds(s.repo, s.verifications[p]);
      ClosingKeepsLeased(s, DoAbandonVerification(s, p), p);
    } else if p < |s.verifications| {
      assert DoAbandonVerification(s, p).verifications == s.verifications;
    }
  }

  /** Nothing that a live verifier holds is up for a claim. */
  lemma ClaimAvoidsLive(s: System, u: Upload, includeStored: bool, p: nat)
    requires Leased(s) && Prompt(s)
    requires u.id in s.repo.records && s.repo.records[u.id] == u
    requires WantsVerification(u, s.now, s.now - STALE_CLAIM, includeStored)
    requires p < |s.verifications| && Live(s.verifications[p])
    ensures s.verifications[p].seen.id != u.id
  {
    assert Holds(s.repo, s.verifications[p]);
    DeadlineBounds(s.verifications[p].seen.sizeBytes);
  }

  lemma BatchAvoidsLive(s: System, batch: seq<Upload>, includeStored: bool)
    requires Leased(s) && Prompt(s)
    requires forall u :: u in batch ==>
               && u.id in s.repo.records && s.repo.records[u.id] == u
               && WantsVerification(u, s.now, s.now - STALE_CLAIM, includeStored)
    ensures forall p, i :: 0 <= p < |s.verifications| && Live(s.verifications[p]) && 0 <= i < |batch| ==>
              s.verifications[p].seen.id != batch[i].id
  {
    hide Leased, Prompt, WantsVerification, Live;
    forall p, i | 0 <= p < |s.verifications| && Live(s.verifications[p]) && 0 <= i < |batch|
      ensures s.verifications[p].seen.id != batch[i].id
    {
      assert batch[i] in batch;
      ClaimAvoidsLive(s, batch[i], includeStored, p);
    }
  }

  lemma ClaimKeepsLeased(s: System, limit: nat, includeStored: bool)
    requires WellFormed(s.repo) && Leased(s) && Prompt(s)
    ensures Leased(StartVerifications(s, limit, includeStored))
  {
    hide Leased, Prompt, VerificationBatch, ClaimAll, WantsVerification;
    var batch := VerificationBatch(Values(s.repo), s.now, s.now - STALE_CLAIM, limit, includeStored);
    BatchKnown(s.repo, s.now, s.now - STALE_CLAIM, limit, includeStored);
    BatchAvoidsLive(s, batch, includeStored);
    hide WellFormed;
    BatchKeepsLeased(s, StartVerifications(s, limit, includeStored), batch);
  }

  /** The verifications in s' are those of s and one for each claimed record, none of which is under way in s. */
  ghost predicate StartsBatch(s: System, s': System, batch: seq<Upload>) {
    && DistinctUploads(batch)
    && (forall u :: u in batch ==> u.id in s.repo.records && s.repo.records[u.id] == u)
    && s'.repo == ClaimAll(s.repo, batch, VerifyingActive, s.now)
    && s'.verifications == s.verifications + Started(ClaimedBatch(batch, VerifyingActive, s.now))
    && forall p, i :: 0 <= p < |s.verifications| && Live(s.verifications[p]) && 0 <= i < |batch| ==>
         s.verifications[p].seen.id != batch[i].id
  }

  lemma BatchVerifierHolds(s: System, s': System, batch: seq<Upload>, p: nat)
    requires Leased(s) && StartsBatch(s, s', batch) && p < |s'.verifications| && Live(s'.verifications[p])
    ensures Holds(s'.repo, s'.verifications[p])
  {
    var n := |s.verifications|;
    var v := s'.verifications[p];
    if p < n {
      assert Holds(s.repo, v);
      assert !InBatch(batch, v.seen.id);
    } else {
      assert v.seen == ClaimedAs(batch[p - n], VerifyingActive, s.now);
      assert batch[p - n] in batch && InBatch(batch, v.seen.id);
    }
  }

  lemma BatchVerifiersDiffer(s: System, s': System, batch: seq<Upload>, p: nat, q: nat)
    requires Leased(s) && StartsBatch(s, s', batch) && p < q < |s'.verifications|
    requires Live(s'.verifications[p]) && Live(s'.verifications[q])
    ensures s'.verifications[p].seen.id != s'.verifications[q].seen.id
  {
    hide ClaimAll, FewAttempts, Holds;
    var n := |s.verifications|;
    if q >= n {
      assert s'.verifications[q].seen == ClaimedAs(batch[q - n], VerifyingActive, s.now);
      if p >= n {
        assert s'.verifications[p].seen == ClaimedAs(batch[p - n], VerifyingActive, s.now);
      }
    }
  }

  lemma BatchKeepsFewAttempts(s: System, s': System, batch: seq<Upload>)
    requires Leased(s) && StartsBatch(s, s', batch)
    ensures FewAttempts(s'.repo)
  {
    hide NoTwoLive, Holds;
  }

  lemma BatchKeepsLeased(s: System, s': System, batch: seq<Upload>)
    requires Leased(s) && StartsBatch(s, s', batch)
    ensures Leased(s')
  {
    BatchKeepsFewAttempts(s, s', batch);
    hide StartsBatch, Holds, FewAttempts;
    forall p | 0 <= p < |s'.verifications| && Live(s'.verifications[p]) ensures Holds(s'.repo, s'.verifications[p]) {
      BatchVerifierHolds(s, s', batch, p);
    }
    forall p, q | 0 <= p < q < |s'.verifications| && Live(s'.verifications[p]) && Live(s'.verifications[q])
      ensures s'.verifications[p].seen.id != s'.verifications[q].seen.id
    {
      BatchVerifiersDiffer(s, s', batch, p, q);
    }
  }

  lemma VerifierStepKeepsLeased(s: System, step: VerificationStep)
    requires WellFormed(s.repo) && Leased(s) && Prompt(s)
    ensures Leased(VerificationNext(s, step))
  {
    hide Leased, Prompt;
    match step {
      case ClaimForVerification(limit, includeStored) => ClaimKeepsLeased(s, Min(Max(limit, 1), 8), includeStored);
      case CheckObject(p, outcome) => CheckKeepsLeased(s, p, outcome);
      case AcceptVerified(p) => AcceptKeepsLeased(s, p);
      case RejectDamaged(p) => RejectKeepsLeased(s, p);
      case RetryVerification(p) => RetryKeepsLeased(s, p);
      case AbandonVerification(p) => AbandonKeepsLeased(s, p);
    }
  }

  lemma UploadKeepsLeased(s: System, step: UploadStep)
    requires WellFormed(s.repo) && Leased(s) && Evolves(s.repo, UploadNext(s, step).repo)
    ensures Leased(UploadNext(s, step))
  {
    hide Leased, Evolves, Touches, WellFormed, UploadNext;
    UploadTouches(s, step);
    UploadKeepsProcesses(s, step);
    OtherStepKeepsLeased(s, UploadNext(s, step), BEFORE_CLAIM);
  }

  lemma CompletionKeepsLeased(s: System, step: CompletionStep)
    requires Leased(s) && Evolves(s.repo, CompletionNext(s, step).repo)
    ensures Leased(CompletionNext(s, step))
  {
    hide Leased, Evolves, Touches, CompletionNext;
    CompletionTouches(s, step);
    CompletionKeepsVerifications(s, step);
    OtherStepKeepsLeased(s, CompletionNext(s, step), {Uploading, Completing});
  }

  lemma CompletionKeepsVerifications(s: System, step: CompletionStep)
    ensures CompletionNext(s, step).verifications == s.verifications
  {
    hide Attempt, ValidateParts;
  }

  lemma AdministratorKeepsLeased(s: System, step: AdministratorStep)
    requires Leased(s) && Evolves(s.repo, AdministratorNext(s, step).repo)
    ensures Leased(AdministratorNext(s, step))
  {
    hide Leased, Evolves, Touches, AdministratorNext;
    AdministratorTouches(s, step);
    AdministratorKeepsProcesses(s, step);
    OtherStepKeepsLeased(s, AdministratorNext(s, step), BEFORE_CLAIM + {Verifying});
  }

  lemma StepKeepsLeased(s: System, step: Step)
    requires Safe(s) && Leased(s) && Prompt(s)
    ensures Leased(Next(s, step))
  {
    hide Leased, Prompt, Evolves, UploadNext, CompletionNext, AdministratorNext, VerificationNext, RemovalNext;
    StepEvolves(s, step);
    match step {
      case Tick(_) => TickKeepsLeased(s, Next(s, step));
      case OnProvider(_) => TickKeepsLeased(s, Next(s, step));
      case OnUpload(upload) => UploadKeepsLeased(s, upload);
      case OnCompletion(completion) => CompletionKeepsLeased(s, completion);
      case ByAdministrator(request) => AdministratorKeepsLeased(s, request);
      case OnVerification(verification) => VerifierStepKeepsLeased(s, verification);
      case OnRemoval(removal) => RemovalStepKeepsLeased(s, removal);
    }
  }

  lemma TickKeepsLeased(s: System, s': System)
    requires Leased(s) && s'.repo == s.repo && s'.verifications == s.verifications
    ensures Leased(s')
  {
  }

  lemma RemovalStepKeepsLeased(s: System, removal: RemovalStep)
    requires Safe(s) && Leased(s)
    ensures Leased(RemovalNext(s, removal))
  {
    hide Leased, Evolves, Touches;
    if removal.ClaimForDeletion? {
      DeletionClaimKeepsLeased(s, removal.limit);
    } else {
      RemovalStepEvolves(s, removal);
      RemovalTouches(s, removal);
      RemovalKeepsVerifications(s, removal);
      OtherStepKeepsLeased(s, RemovalNext(s, removal), {Deleting});
    }
  }

  lemma RemovalKeepsVerifications(s: System, step: RemovalStep)
    requires WellFormed(s.repo)
    ensures RemovalNext(s, step).verifications == s.verifications
    ensures RemovalNext(s, step).completions == s.completions
  {
    hide Attempt, ClaimExpired, DeletionBatch;
  }

  // ------------------------------------------------------------------ runs

  /** The timing assumption at every moment of the run. */
  ghost predicate PromptRun(s: System, steps: seq<Step>)
    requires Safe(s)
    decreases |steps|
  {
    if steps == [] then Prompt(s)
    else
      StepKeepsSafe(s, steps[0]);
      Prompt(s) && PromptRun(Next(s, steps[0]), steps[1..])
  }

  /**
   * In every prompt run no record ever has two live verifiers, and the stored number of verification attempts
   * never passes seven.
   */
  lemma {:induction false} NeverTwoVerifiers(s: System, steps: seq<Step>)
    requires Safe(s) && Leased(s) && PromptRun(s, steps)
    ensures Leased(RunFrom(s, steps))
    decreases |steps|
  {
    if steps != [] {
      StepKeepsSafe(s, steps[0]);
      StepKeepsLeased(s, steps[0]);
      NeverTwoVerifiers(Next(s, steps[0]), steps[1..]);
    }
  }

  ghost predicate PromptFromStart(steps: seq<Step>) {
    StartIsSafe();
    PromptRun(START, steps)
  }

  lemma StartIsLeased()
    ensures Leased(START)
  {
  }

  lemma PromptRunIsLeased(steps: seq<Step>)
    requires PromptFromStart(steps)
    ensures Leased(Run(steps))
  {
    hide Leased, Safe, PromptRun, RunFrom, Run;
    StartIsSafe();
    StartIsLeased();
    RunIsRunFrom(steps);
    NeverTwoVerifiers(START, steps);
  }

  lemma OneVerifierFewAttempts(steps: seq<Step>)
    requires PromptFromStart(steps)
    ensures NoTwoLive(Run(steps).verifications) && FewAttempts(Run(steps).repo)
  {
    PromptRunIsLeased(steps);
  }

  /** What recording one more transient failure makes of a record. */
  predicate RecordsFailure(before: Upload, after: Upload, now: int) {
    if before.verificationAttempts == 7 || VerificationEnd(before) <= now then
      after.status == Expired && after.verificationAttempts == before.verificationAttempts
    else
      && after.status == Verifying && after.verificationAttempts == before.verificationAttempts + 1
      && after.nextVerificationAttemptAt == Some(now + VerificationRetryDelay(after.verificationAttempts))
  }

  lemma RetryRecordsFailure(s: System, p: nat)
    requires Leased(s) && VerificationAt(s, p, Retrying)
    ensures var id := s.verifications[p].seen.id;
            var s' := DoRetryVerification(s, p);
            && id in s.repo.records && id in s'.repo.records
            && if s.repo.records[id].status == VerifyingActive then
                 RecordsFailure(s.repo.records[id], s'.repo.records[id], s.now)
               else
                 s'.repo == s.repo && Phase(s.repo.records[id].status) >= 5
  {
    assert Holds(s.repo, s.verifications[p]);
    HeldRetryRecordsFailure(s, p);
  }

  lemma HeldRetryRecordsFailure(s: System, p: nat)
    requires VerificationAt(s, p, Retrying) && Holds(s.repo, s.verifications[p]) && FewAttempts(s.repo)
    ensures var id := s.verifications[p].seen.id;
            var s' := DoRetryVerification(s, p);
            && id in s.repo.records && id in s'.repo.records
            && if s.repo.records[id].status == VerifyingActive then
                 RecordsFailure(s.repo.records[id], s'.repo.records[id], s.now)
               else
                 s'.repo == s.repo && Phase(s.repo.records[id].status) >= 5
  {
    hide Attempt, Touches, Outcome, ScheduleVerificationRetry, VerificationRetryDelay, VerificationEnd, Phase;
    var seen := s.verifications[p].seen;
    StillActive(s.repo, s.verifications[p]);
    if seen.verificationAttempts + 1 >= VERIFICATION_MAXIMUM_ATTEMPTS || VerificationEnd(seen) <= s.now {
      AttemptFrame(s, seen.id, {VerifyingActive}, To(Expired).(audit := Some(Event(VerificationFailed, s.now))));
    } else {
      RetryShape(s.repo, seen.id, s.now + VerificationRetryDelay(seen.verificationAttempts + 1), s.now);
    }
  }

  lemma StillActive(r: Repo, v: Verification)
    requires Holds(r, v)
    ensures if r.records[v.seen.id].status == VerifyingActive then r.records[v.seen.id] == v.seen
            else Phase(r.records[v.seen.id].status) >= 5
  {
  }

  /** A recorded failure counts one attempt on a record under verification, and leaves any other alone. */
  lemma RetryShape(r: Repo, id: Id, nextAttemptAt: int, now: int)
    requires id in r.records
    ensures var r' := Outcome(r, ScheduleVerificationRetry(r, id, nextAttemptAt, now)).0;
      && id in r'.records
      && if r.records[id].status != VerifyingActive then r' == r
         else
           && r'.records[id].status == Verifying
           && r'.records[id].verificationAttempts == r.records[id].verificationAttempts + 1
           && r'.records[id].nextVerificationAttemptAt == Some(nextAttemptAt)
  {
  }

  /**
   * In a prompt run, a transient failure recorded on a record still under verification expires it exactly when
   * it is the eighth or time has run out, and otherwise counts one more attempt; a record taken over by the
   * deletion side is left alone.
   */
  lemma EighthFailureExpires(steps: seq<Step>, p: nat)
    requires PromptFromStart(steps)
    requires VerificationAt(Run(steps), p, Retrying)
    ensures var s := Run(steps);
            var id := s.verifications[p].seen.id;
            var s' := Next(s, OnVerification(RetryVerification(p)));
            && id in s.repo.records && id in s'.repo.records
            && if s.repo.records[id].status == VerifyingActive then
                 RecordsFailure(s.repo.records[id], s'.repo.records[id], s.now)
               else
                 s'.repo == s.repo && Phase(s.repo.records[id].status) >= 5
  {
    hide Leased, Safe, DoRetryVerification, RecordsFailure, Phase, Run, PromptFromStart;
    PromptRunIsLeased(steps);
    SafeIsWellFormed(Run(steps));
    RetryRecordsFailure(Run(steps), p);
  }
}
