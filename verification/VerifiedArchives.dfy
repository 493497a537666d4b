/**
 * What a verification decides: only an archive that a verifier found intact is ever accepted or downloaded, and each
 * outcome of a check leads where it should.
 */
module VerifiedArchives {
  import opened Options
  import opened Policy
  import opened Uploads
  import opened Lifecycle
  import opened LifecycleSafety
  import opened LifecycleRuns
  import Capacity

  // ------------------------------------------------------------------ checks in a run

  /** Step k of the run is the check of verifier p, which has this record and has not checked it yet. */
  ghost predicate ChecksAt(steps: seq<Step>, k: nat, p: nat, id: Id, outcome: CheckOutcome) {
    && k < |steps| && steps[k] == OnVerification(CheckObject(p, outcome))
    && VerificationAt(Run(steps[..k]), p, Checking) && Run(steps[..k]).verifications[p].seen.id == id
  }

  ghost predicate Checked(steps: seq<Step>, p: nat, id: Id, outcome: CheckOutcome) {
    exists k: nat :: ChecksAt(steps, k, p, id, outcome)
  }

  ghost predicate FoundIntact(steps: seq<Step>, id: Id) {
    exists p: nat :: Checked(steps, p, id, Intact)
  }

  lemma RunOneMore(steps: seq<Step>, step: Step)
    ensures WellFormed(Run(steps).repo) && Run(steps + [step]) == Next(Run(steps), step)
  {
    RunIsRunFrom(steps);
    RunIsRunFrom(steps + [step]);
    RunFromAppend(START, steps, [step]);
    RunCons(Run(steps), step, []);
    hide Run, RunFrom, Safe, Next;
    assert [step] + [] == [step];
    NoSteps(Next(Run(steps), step));
  }

  lemma NoSteps(s: System)
    requires Safe(s)
    ensures RunFrom(s, []) == s
  {
  }

  ghost predicate ChecksNow(s: System, step: Step, p: nat, id: Id, outcome: CheckOutcome) {
    && step == OnVerification(CheckObject(p, outcome))
    && VerificationAt(s, p, Checking) && s.verifications[p].seen.id == id
  }

  lemma CheckedOneMore(steps: seq<Step>, step: Step, p: nat, id: Id, outcome: CheckOutcome)
    ensures Checked(steps + [step], p, id, outcome)
      <==> Checked(steps, p, id, outcome) || ChecksNow(Run(steps), step, p, id, outcome)
  {
    hide Run;
    var longer := steps + [step];
    var n := |steps|;
    assert longer[..n] == steps && longer[n] == step;
    if k: nat :| ChecksAt(longer, k, p, id, outcome) {
      if k < n {
        assert longer[..k] == steps[..k] && longer[k] == steps[k];
        assert ChecksAt(steps, k, p, id, outcome);
      }
    }
    if k: nat :| ChecksAt(steps, k, p, id, outcome) {
      assert longer[..k] == steps[..k] && longer[k] == steps[k];
      assert ChecksAt(longer, k, p, id, outcome);
    }
    if ChecksNow(Run(steps), step, p, id, outcome) {
      assert ChecksAt(longer, n, p, id, outcome);
    }
  }

  // ------------------------------------------------------------------ how a step moves a verifier

  /** Where a verifier goes: a check sends it where its outcome says, and every other step on from there. */
  ghost predicate Moves(step: Step, p: nat, before: VerificationStage, after: VerificationStage) {
    || after == before || after == Closed
    || (before == Checking && step == OnVerification(CheckObject(p, Intact)) && after == Confirmed)
    || (before == Checking && step == OnVerification(CheckObject(p, Damaged)) && after == Rejecting)
    || (before == Checking && step == OnVerification(CheckObject(p, Unavailable)) && after == Retrying)
    || (before == Confirmed && step == OnVerification(AcceptVerified(p)) && after == Retrying)
  }

  ghost predicate VerifiersMove(s: System, step: Step, s': System) {
    && |s.verifications| <= |s'.verifications|
    && (forall p :: 0 <= p < |s.verifications| ==>
          && s'.verifications[p].seen == s.verifications[p].seen
          && Moves(step, p, s.verifications[p].stage, s'.verifications[p].stage))
    && (forall p :: |s.verifications| <= p < |s'.verifications| ==> s'.verifications[p].stage == Checking)
    && (forall p: nat, outcome :: step == OnVerification(CheckObject(p, outcome)) && VerificationAt(s, p, Checking) ==>
          s'.verifications[p].stage != Checking && s'.verifications[p].stage != Closed)
  }

  lemma VerifierStepMoves(s: System, step: VerificationStep)
    requires WellFormed(s.repo)
    ensures VerifiersMove(s, OnVerification(step), VerificationNext(s, step))
  {
    hide WellFormed, Attempt, VerificationBatch, ClaimAll, Outcome, VerificationEnd;
  }

  lemma StepMoves(s: System, step: Step)
    requires WellFormed(s.repo)
    ensures VerifiersMove(s, step, Next(s, step))
  {
    hide WellFormed, VerifiersMove, UploadNext, CompletionNext, AdministratorNext, VerificationNext, RemovalNext;
    var s' := Next(s, step);
    match step {
      case OnVerification(verification) => VerifierStepMoves(s, verification);
      case OnCompletion(completion) => CompletionLeavesVerifiers(s, completion); StillMoves(s, step, s');
      case OnRemoval(removal) => RemovalLeavesVerifiers(s, removal); StillMoves(s, step, s');
      case _ => OthersKeepProcesses(s, step); StillMoves(s, step, s');
    }
  }

  lemma StillMoves(s: System, step: Step, s': System)
    requires s'.verifications == s.verifications && !step.OnVerification?
    ensures VerifiersMove(s, step, s')
  {
  }

  lemma CompletionLeavesVerifiers(s: System, step: CompletionStep)
    ensures CompletionNext(s, step).verifications == s.verifications
  {
    hide Attempt;
  }

  lemma RemovalLeavesVerifiers(s: System, step: RemovalStep)
    requires WellFormed(s.repo)
    ensures RemovalNext(s, step).verifications == s.verifications
  {
    hide Attempt, WellFormed;
  }

  // ------------------------------------------------------------------ who records a success

  /** What a step appends to the audit names no success, except of this record. */
  ghost predicate SucceedsOnly(r: Repo, r': Repo, id: Option<Id>) {
    && r.audit <= r'.audit
    && forall i :: |r.audit| <= i < |r'.audit| && r'.audit[i].event.action == VerificationSucceeded ==>
         id == Some(r'.audit[i].uploadId)
  }

  lemma SameAudit(r: Repo, r': Repo)
    requires r'.audit == r.audit
    ensures SucceedsOnly(r, r', None)
  {
  }

  lemma AttemptSucceeds(s: System, id: Id, expected: set<Status>, change: Change)
    ensures SucceedsOnly(s.repo, Attempt(s, id, expected, change).0,
                         if change.audit.Some? && change.audit.value.action == VerificationSucceeded then Some(id) else None)
  {
  }

  lemma AuditedSucceeds(r: Repo, id: Id, event: Event)
    requires event.action != VerificationSucceeded
    ensures SucceedsOnly(r, Audited(r, id, event), None)
  {
  }

  lemma {:induction false} EvictionsSucceed(r: Repo, ids: seq<Id>, at: int)
    requires forall id :: id in ids ==> id in r.records
    ensures SucceedsOnly(r, EvictAll(r, ids, at), None)
  {
    if ids != [] { EvictionsSucceed(r, ids[..|ids| - 1], at); }
  }

  lemma CreateSucceeds(s: System, id: Id, install: string, network: string, sizeBytes: nat)
    requires WellFormed(s.repo)
    ensures SucceedsOnly(s.repo, DoCreate(s, id, install, network, sizeBytes).repo, None)
  {
    hide InsertWithinQuota, SucceedsOnly;
    SameAudit(s.repo, s.repo);
    var s' := DoCreate(s, id, install, network, sizeBytes);
    if s' != s {
      var record := NewUpload(id, install, network, sizeBytes, s.now, s.now + 72 * MILLIS_PER_HOUR);
      InsertSucceeds(s.repo, record, s.now - 24 * MILLIS_PER_HOUR, DIAGNOSTIC_QUOTA, Event(UploadCreated, s.now));
    }
  }

  lemma InsertSucceeds(r: Repo, record: Upload, since: int, limits: QuotaLimits, event: Event)
    requires WellFormed(r) && record.id !in r.records && event.action != VerificationSucceeded
    requires InsertWithinQuota(r, record, since, limits, event).Ok?
    ensures SucceedsOnly(r, InsertWithinQuota(r, record, since, limits, event).value.0, None)
  {
    hide InsertWithinQuota;
    AdmissionShape(r, record, since, limits, event);
    if InsertWithinQuota(r, record, since, limits, event).value.1 {
      EvictionsKnown(r, record, limits);
      hide Evictions, WellFormed;
      EvictionsSucceed(r, Capacity.IdList(Evictions(r, record, limits).value), record.createdAt);
    }
  }

  lemma UploadSucceeds(s: System, step: UploadStep)
    requires WellFormed(s.repo)
    ensures SucceedsOnly(s.repo, UploadNext(s, step).repo, None)
  {
    hide SucceedsOnly, Attempt, Audited, DoCreate, WellFormed;
    match step {
      case Create(id, install, network, size) => CreateSucceeds(s, id, install, network, size);
      case BindProvider(_, _) => SameAudit(s.repo, UploadNext(s, step).repo);
      case AbandonCreation(id) => AttemptSucceeds(s, id, {Uploading}, To(Failed));
      case NoteCompensationFailure(id) => AuditedSucceeds(s.repo, id, Event(CompensationFailed, s.now));
      case GrantPart(_, _, _) => SameAudit(s.repo, UploadNext(s, step).repo);
    }
  }

  lemma CompletionSucceeds(s: System, step: CompletionStep)
    ensures SucceedsOnly(s.repo, CompletionNext(s, step).repo, None)
  {
    hide SucceedsOnly, Attempt;
    SameAudit(s.repo, s.repo);
    if step.WinCompletion? && CompletionAt(s, step.p, Loaded) {
      AttemptSucceeds(s, s.completions[step.p].seen.id, {Uploading}, To(Completing));
    } else if step.FinishCompletion? && CompletionAt(s, step.p, Finishing) {
      AttemptSucceeds(s, s.completions[step.p].seen.id, {Completing},
                      To(Pending).(providerUploadId := Some(None), audit := Some(Event(UploadCompleted, s.now))));
    } else if step.FailCompletion? && CompletionAt(s, step.p, Failing) {
      AttemptSucceeds(s, s.completions[step.p].seen.id, {Completing}, To(Failed));
    }
  }

  lemma AdministratorSucceeds(s: System, step: AdministratorStep)
    ensures SucceedsOnly(s.repo, AdministratorNext(s, step).repo, None)
  {
    hide SucceedsOnly, Attempt, Audited;
    SameAudit(s.repo, s.repo);
    match step {
      case DeleteByAdministrator(id, seen) =>
        AttemptSucceeds(s, id, {seen}, To(Expired).(audit := Some(Event(ModerationDelete, s.now))));
      case QueueVerification(p) =>
        if DownloadAt(s, p, Found) {
          var d := s.downloads[p];
          var deadline := Min(d.seen.expiresAt, d.startedAt + 24 * MILLIS_PER_HOUR);
          AttemptSucceeds(s, d.seen.id, {Pending},
                          To(Verifying).(acceptanceDeadline := Some(Some(deadline)),
                                         audit := Some(Event(VerificationRequested, d.startedAt))));
        }
      case RecordDownload(p) =>
        if DownloadAt(s, p, Granted) {
          AuditedSucceeds(s.repo, s.downloads[p].seen.id, Event(DownloadRequested, s.downloads[p].startedAt));
        }
      case _ =>
    }
  }

  lemma RemovalSucceeds(s: System, step: RemovalStep)
    requires WellFormed(s.repo)
    ensures SucceedsOnly(s.repo, RemovalNext(s, step).repo, None)
  {
    hide SucceedsOnly, Attempt, Audited, WellFormed;
    SameAudit(s.repo, s.repo);
    match step {
      case ClaimForDeletion(_) => SameAudit(s.repo, RemovalNext(s, step).repo);
      case AnnounceRemoval(p) =>
        if RemovalAt(s, p, Claimed) {
          AuditedSucceeds(s.repo, s.removals[p].seen.id, Event(DeletionClaimed, s.now));
        }
      case FinishRemoval(p) =>
        if RemovalAt(s, p, Gone) {
          AttemptSucceeds(s, s.removals[p].seen.id, {Deleting}, RemovalChange(s.removals[p].reason, s.now));
        }
      case RetryRemoval(p) => RemovalRetrySucceeds(s, p);
      case _ =>
    }
  }

  lemma RemovalRetrySucceeds(s: System, p: nat)
    ensures SucceedsOnly(s.repo, DoRetryRemoval(s, p).repo, None)
  {
  }

  /** Only the acceptance of a verifier whose check was good. */
  ghost function Accepting(s: System, step: Step): Option<Id> {
    match step
    case OnVerification(AcceptVerified(p)) =>
      if VerificationAt(s, p, Confirmed) then Some(s.verifications[p].seen.id) else None
    case _ => None
  }

  lemma VerificationSucceeds(s: System, step: VerificationStep)
    requires WellFormed(s.repo)
    ensures SucceedsOnly(s.repo, VerificationNext(s, step).repo, Accepting(s, OnVerification(step)))
  {
    hide SucceedsOnly, Attempt, WellFormed;
    SameAudit(s.repo, s.repo);
    match step {
      case ClaimForVerification(_, _) => SameAudit(s.repo, VerificationNext(s, step).repo);
      case AcceptVerified(p) =>
        if VerificationAt(s, p, Confirmed) {
          AttemptSucceeds(s, s.verifications[p].seen.id, {VerifyingActive},
                          To(Accepted).(acceptanceDeadline := Some(None), audit := Some(Event(VerificationSucceeded, s.now))));
        }
      case RejectDamaged(p) =>
        if VerificationAt(s, p, Rejecting) {
          AttemptSucceeds(s, s.verifications[p].seen.id, {VerifyingActive},
                          To(Deleting).(audit := Some(Event(VerificationFailed, s.now))));
        }
      case RetryVerification(p) => VerificationRetrySucceeds(s, p);
      case _ =>
    }
  }

  lemma VerificationRetrySucceeds(s: System, p: nat)
    ensures SucceedsOnly(s.repo, DoRetryVerification(s, p).repo, None)
  {
    hide VerificationRetryDelay, VerificationEnd;
  }

  lemma StepSucceeds(s: System, step: Step)
    requires WellFormed(s.repo)
    ensures SucceedsOnly(s.repo, Next(s, step).repo, Accepting(s, step))
  {
    hide SucceedsOnly, UploadNext, CompletionNext, AdministratorNext, VerificationNext, RemovalNext, WellFormed;
    match step {
      case Tick(_) => SameAudit(s.repo, s.repo);
      case OnProvider(_) => SameAudit(s.repo, s.repo);
      case OnUpload(upload) => UploadSucceeds(s, upload);
      case OnCompletion(completion) => CompletionSucceeds(s, completion);
      case ByAdministrator(request) => AdministratorSucceeds(s, request);
      case OnVerification(verification) => VerificationSucceeds(s, verification);
      case OnRemoval(removal) => RemovalSucceeds(s, removal);
    }
  }

  lemma SuccessCounts(r: Repo, r': Repo, accepting: Option<Id>, id: Id)
    requires SucceedsOnly(r, r', accepting) && accepting != Some(id)
    ensures Occurrences(r'.audit, id, VerificationSucceeded) == Occurrences(r.audit, id, VerificationSucceeded)
  {
    var more := r'.audit[|r.audit|..];
    assert r'.audit == r.audit + more;
    OccurrencesAppend(r.audit, more, id, VerificationSucceeded);
    forall i | 0 <= i < |more| && more[i].event.action == VerificationSucceeded ensures more[i].uploadId != id {
      assert more[i] == r'.audit[|r.audit| + i];
    }
    NoOccurrence(more, id);
  }

  lemma {:induction false} NoOccurrence(more: seq<AuditRecord>, id: Id)
    requires forall i :: 0 <= i < |more| && more[i].event.action == VerificationSucceeded ==> more[i].uploadId != id
    ensures Occurrences(more, id, VerificationSucceeded) == 0
  {
    if more != [] { NoOccurrence(more[1..], id); }
  }

  // ------------------------------------------------------------------ what every run keeps

  /** A verifier stands where its check sent it, and it checks once. */
  ghost predicate StageFits(steps: seq<Step>, p: nat, id: Id, stage: VerificationStage) {
    && (stage == Checking ==> forall outcome :: !Checked(steps, p, id, outcome))
    && (stage == Confirmed ==> Checked(steps, p, id, Intact))
    && (stage == Rejecting ==> Checked(steps, p, id, Damaged))
    && (Checked(steps, p, id, Damaged) ==> stage == Rejecting || stage == Closed)
    && (Checked(steps, p, id, Unavailable) ==> stage == Retrying || stage == Closed)
    && (Checked(steps, p, id, Intact) ==> stage == Confirmed || stage == Retrying || stage == Closed)
    && forall a, b :: Checked(steps, p, id, a) && Checked(steps, p, id, b) ==> a == b
  }

  ghost predicate StagesFit(steps: seq<Step>, s: System) {
    && (forall p :: 0 <= p < |s.verifications| ==>
          StageFits(steps, p, s.verifications[p].seen.id, s.verifications[p].stage))
    && (forall p: nat, id, outcome :: Checked(steps, p, id, outcome) ==>
          p < |s.verifications| && s.verifications[p].seen.id == id)
  }

  /** Nothing is accepted, or was read as accepted, that was not found intact. */
  ghost predicate SuccessesFound(steps: seq<Step>, s: System) {
    && (forall id :: Occurrences(s.repo.audit, id, VerificationSucceeded) > 0 ==> FoundIntact(steps, id))
    && (forall p :: 0 <= p < |s.downloads| && s.downloads[p].seen.status == Accepted ==>
          FoundIntact(steps, s.downloads[p].seen.id))
  }

  lemma StageStep(steps: seq<Step>, step: Step, s: System, s': System, p: nat)
    requires s == Run(steps) && p < |s.verifications|
    requires VerifiersMove(s, step, s')
    requires StageFits(steps, p, s.verifications[p].seen.id, s.verifications[p].stage)
    ensures StageFits(steps + [step], p, s.verifications[p].seen.id, s'.verifications[p].stage)
  {
    hide Run, Checked;
    var id := s.verifications[p].seen.id;
    forall outcome
      ensures Checked(steps + [step], p, id, outcome)
        <==> Checked(steps, p, id, outcome) || ChecksNow(s, step, p, id, outcome)
    {
      CheckedOneMore(steps, step, p, id, outcome);
    }
  }

  lemma StagesStep(steps: seq<Step>, step: Step)
    requires WellFormed(Run(steps).repo) && StagesFit(steps, Run(steps))
    ensures StagesFit(steps + [step], Next(Run(steps), step))
  {
    hide Run, Checked, StageFits, Next, WellFormed;
    var s, s' := Run(steps), Next(Run(steps), step);
    StepMoves(s, step);
    forall p | 0 <= p < |s'.verifications|
      ensures StageFits(steps + [step], p, s'.verifications[p].seen.id, s'.verifications[p].stage)
    {
      if p < |s.verifications| {
        StageStep(steps, step, s, s', p);
      } else {
        NewStage(steps, step, s, s', p);
      }
    }
    forall p: nat, id, outcome | Checked(steps + [step], p, id, outcome)
      ensures p < |s'.verifications| && s'.verifications[p].seen.id == id
    {
      CheckedOneMore(steps, step, p, id, outcome);
    }
  }

  lemma NewStage(steps: seq<Step>, step: Step, s: System, s': System, p: nat)
    requires s == Run(steps) && VerifiersMove(s, step, s') && |s.verifications| <= p < |s'.verifications|
    requires StagesFit(steps, s)
    ensures StageFits(steps + [step], p, s'.verifications[p].seen.id, s'.verifications[p].stage)
  {
    hide Run, Checked, StageFits, Moves;
    var id := s'.verifications[p].seen.id;
    forall outcome ensures !Checked(steps + [step], p, id, outcome) { CheckedOneMore(steps, step, p, id, outcome); }
    NeverChecked(steps + [step], p, id);
  }

  lemma NeverChecked(steps: seq<Step>, p: nat, id: Id)
    requires forall outcome :: !Checked(steps, p, id, outcome)
    ensures StageFits(steps, p, id, Checking)
  {
  }

  lemma FoundStill(steps: seq<Step>, step: Step, id: Id)
    requires FoundIntact(steps, id)
    ensures FoundIntact(steps + [step], id)
  {
    hide Checked;
    var p: nat :| Checked(steps, p, id, Intact);
    CheckedOneMore(steps, step, p, id, Intact);
  }

  lemma AcceptingFound(steps: seq<Step>, step: Step, id: Id)
    requires StagesFit(steps, Run(steps)) && Accepting(Run(steps), step) == Some(id)
    ensures FoundIntact(steps, id)
  {
    hide Run, Checked;
    var p := step.verification.p;
    assert StageFits(steps, p, id, Confirmed);
  }

  lemma SuccessesStep(steps: seq<Step>, step: Step)
    requires WellFormed(Run(steps).repo) && StagesFit(steps, Run(steps)) && SuccessesFound(steps, Run(steps))
    ensures SuccessesFound(steps + [step], Next(Run(steps), step))
  {
    hide Run, StagesFit, Next, WellFormed, FoundIntact, SucceedsOnly, Accepting;
    var s, s' := Run(steps), Next(Run(steps), step);
    forall id: Id | Occurrences(s'.repo.audit, id, VerificationSucceeded) > 0 ensures FoundIntact(steps + [step], id) {
      StepSucceeds(s, step);
      if Accepting(s, step) == Some(id) {
        AcceptingFound(steps, step, id);
      } else {
        SuccessCounts(s.repo, s'.repo, Accepting(s, step), id);
      }
      FoundStill(steps, step, id);
    }
    forall p | 0 <= p < |s'.downloads| && s'.downloads[p].seen.status == Accepted
      ensures FoundIntact(steps + [step], s'.downloads[p].seen.id)
    {
      ReadingFound(steps, step, p);
      FoundStill(steps, step, s'.downloads[p].seen.id);
    }
  }

  lemma ReadingFound(steps: seq<Step>, step: Step, p: nat)
    requires WellFormed(Run(steps).repo) && SuccessesFound(steps, Run(steps))
    requires p < |Next(Run(steps), step).downloads|
    ensures var d := Next(Run(steps), step).downloads[p];
      d.seen.status == Accepted ==> FoundIntact(steps, d.seen.id)
  {
    hide Run, FoundIntact, Safe, WellFormed, AdministratorNext;
    var s := Run(steps);
    var d := Next(s, step).downloads[p];
    if step.ByAdministrator? {
      DownloadsDerived(s, step.request, p);
      if d.seen.status == Accepted && d.seen.id in s.repo.records && d.seen == s.repo.records[d.seen.id] {
        AcceptedIsAudited(s, d.seen.id);
      }
    } else {
      OthersKeepDownloads(s, step);
    }
  }

  lemma AcceptedIsAudited(s: System, id: Id)
    requires Safe(s) && id in s.repo.records && s.repo.records[id].status == Accepted
    ensures Occurrences(s.repo.audit, id, VerificationSucceeded) > 0
  {
    assert Owed(s.repo.records[id].status, VerificationSucceeded);
  }

  lemma {:induction false} RunFits(steps: seq<Step>)
    ensures StagesFit(steps, Run(steps)) && SuccessesFound(steps, Run(steps))
    decreases |steps|
  {
    if steps == [] {
      assert Run(steps) == START;
    } else {
      hide Run, StagesFit, SuccessesFound, Next;
      var n := |steps| - 1;
      var before, step := steps[..n], steps[n];
      assert steps == before + [step];
      RunFits(before);
      RunOneMore(before, step);
      StagesStep(before, step);
      SuccessesStep(before, step);
    }
  }

  /**
   * A record that is Accepted, or has a success in its audit, was found intact earlier by a verifier that held it;
   * and so was every archive whose download was granted.
   */
  lemma AcceptedWasIntact(steps: seq<Step>, id: Id)
    requires id in Run(steps).repo.records
    requires Run(steps).repo.records[id].status == Accepted
      || Occurrences(Run(steps).repo.audit, id, VerificationSucceeded) > 0
    ensures exists k: nat, p: nat ::
      && k < |steps| && steps[k] == OnVerification(CheckObject(p, Intact))
      && VerificationAt(Run(steps[..k]), p, Checking) && Run(steps[..k]).verifications[p].seen.id == id
  {
    hide Run, Safe;
    RunFits(steps);
    if Run(steps).repo.records[id].status == Accepted { AcceptedIsAudited(Run(steps), id); }
    var p: nat :| Checked(steps, p, id, Intact);
    var k: nat :| ChecksAt(steps, k, p, id, Intact);
  }

  lemma GrantedWasIntact(steps: seq<Step>, q: nat)
    requires q < |Run(steps).downloads| && Run(steps).downloads[q].stage == Granted
    ensures FoundIntact(steps, Run(steps).downloads[q].seen.id)
  {
    RunFits(steps);
    NoDownloadAfterRetention(steps, q);
    hide Run;
  }

  /**
   * The step that makes a record Accepted is the acceptance of a verifier that holds it and found it intact; one
   * that found it damaged, or could not tell, accepts nothing.
   */
  lemma AcceptedByIntactOnly(steps: seq<Step>, step: Step, id: Id)
    requires id in Run(steps).repo.records && Run(steps).repo.records[id].status != Accepted
    requires WellFormed(Run(steps).repo) && id in Next(Run(steps), step).repo.records
    requires Next(Run(steps), step).repo.records[id].status == Accepted
    ensures exists p: nat ::
      && step == OnVerification(AcceptVerified(p))
      && Checked(steps, p, id, Intact) && !Checked(steps, p, id, Damaged) && !Checked(steps, p, id, Unavailable)
  {
    hide Run, Safe, Next, Checked, SucceedsOnly;
    var s := Run(steps);
    RunFits(steps);
    StepKeepsSafe(s, step);
    AcceptancePaid(s.repo, Next(s, step).repo, id);
    StepSucceeds(s, step);
    if Accepting(s, step) != Some(id) { SuccessCounts(s.repo, Next(s, step).repo, Accepting(s, step), id); }
    var p := step.verification.p;
    assert StageFits(steps, p, id, Confirmed);
  }

  lemma AcceptancePaid(r: Repo, r': Repo, id: Id)
    requires Evolves(r, r') && id in r.records && id in r'.records
    requires r.records[id].status != Accepted && r'.records[id].status == Accepted
    ensures Occurrences(r.audit, id, VerificationSucceeded) < Occurrences(r'.audit, id, VerificationSucceeded)
  {
    assert NewlyOwed(r.records[id].status, r'.records[id].status, VerificationSucceeded);
  }

  /** A verifier that found damage, or could not tell, never changes anything by accepting. */
  lemma DamagedAcceptsNothing(steps: seq<Step>, p: nat, id: Id, outcome: CheckOutcome)
    requires Checked(steps, p, id, outcome) && outcome != Intact
    requires WellFormed(Run(steps).repo)
    ensures Next(Run(steps), OnVerification(AcceptVerified(p))) == Run(steps)
  {
    hide Run, Checked;
    RunFits(steps);
    assert StageFits(steps, p, id, Run(steps).verifications[p].stage);
  }

  // ------------------------------------------------------------------ where each outcome leads

  /** The verifier is about to check a record that still awaits it. */
  ghost predicate AboutToCheck(s: System, p: nat) {
    && Safe(s) && VerificationAt(s, p, Checking) && s.verifications[p].seen.id in s.repo.records
    && s.repo.records[s.verifications[p].seen.id].status == VerifyingActive
  }

  ghost predicate RecordBecomes(r: Repo, r': Repo, id: Id, u: Upload, action: AuditAction, at: int) {
    && r'.records == r.records[id := u] && (r'.order, r'.released) == (r.order, r.released)
    && r'.audit == r.audit + [AuditRecord(|r.audit| + 1, id, Event(action, at))]
  }

  /** Found intact, then accepted: Accepted without a deadline, with the success in the audit. */
  lemma IntactIsAccepted(s: System, p: nat)
    requires AboutToCheck(s, p)
    ensures var u := s.repo.records[s.verifications[p].seen.id];
      var s' := DoAcceptVerified(DoCheckObject(s, p, Intact), p);
      && RecordBecomes(s.repo, s'.repo, u.id, u.(status := Accepted, acceptanceDeadline := None, updatedAt := s.now),
                       VerificationSucceeded, s.now)
      && VerificationAt(s', p, Closed) && s'.removals == s.removals
  {
    hide MilestonesOnce, MilestonesPaid, DownloadsMatch, Readings, AllSound, ReleasedOnDeletionSide;
  }

  /** Found damaged, then rejected: Deleting, with a removal under way that makes it Invalid. */
  lemma DamagedIsDeleted(s: System, p: nat)
    requires AboutToCheck(s, p)
    ensures var u := s.repo.records[s.verifications[p].seen.id];
      var s' := DoRejectDamaged(DoCheckObject(s, p, Damaged), p);
      && RecordBecomes(s.repo, s'.repo, u.id, u.(status := Deleting, updatedAt := s.now), VerificationFailed, s.now)
      && VerificationAt(s', p, Closed)
      && s'.removals == s.removals + [Removal(s.verifications[p].seen, Integrity, Announced)]
  {
    hide MilestonesOnce, MilestonesPaid, DownloadsMatch, Readings, AllSound, ReleasedOnDeletionSide;
  }

  /** When its record is given up: the acceptance deadline, or a day after creation without one. */
  ghost predicate GivenUp(u: Upload, now: int) {
    match u.acceptanceDeadline
    case Some(deadline) => deadline <= now
    case None => u.createdAt + 86_400_000 <= now
  }

  /** Not checked: back to Verifying with the attempt counted, or Expired after the eighth or the deadline. */
  lemma UnavailableIsRetried(s: System, p: nat)
    requires AboutToCheck(s, p)
    ensures var seen := s.verifications[p].seen;
      var u := s.repo.records[seen.id];
      var s' := DoRetryVerification(DoCheckObject(s, p, Unavailable), p);
      && (seen.verificationAttempts >= 7 || GivenUp(seen, s.now) ==>
            RecordBecomes(s.repo, s'.repo, u.id, u.(status := Expired, updatedAt := s.now), VerificationFailed, s.now))
      && (seen.verificationAttempts < 7 && !GivenUp(seen, s.now) ==>
            s'.repo == s.repo.(records := s.repo.records[u.id :=
              u.(status := Verifying, verificationAttempts := u.verificationAttempts + 1,
                 nextVerificationAttemptAt := Some(s.now + VerificationRetryDelay(seen.verificationAttempts + 1)),
                 updatedAt := s.now)]))
      && VerificationAt(s', p, Closed) && s'.removals == s.removals
  {
    hide MilestonesOnce, MilestonesPaid, DownloadsMatch, Readings, AllSound, ReleasedOnDeletionSide,
         VerificationRetryDelay;
  }

  /** A verifier whose record was taken from it changes no record: it gives up, after a retry that does nothing. */
  lemma LostChangesNothing(s: System, p: nat, id: Id)
    requires p < |s.verifications| && s.verifications[p].seen.id == id && id in s.repo.records
    requires s.repo.records[id].status != VerifyingActive
    ensures VerificationAt(s, p, Confirmed) ==> Ends(s, DoRetryVerification(DoAcceptVerified(s, p), p), p)
    ensures VerificationAt(s, p, Rejecting) ==> Ends(s, DoRejectDamaged(s, p), p)
    ensures VerificationAt(s, p, Retrying) ==> Ends(s, DoRetryVerification(s, p), p)
  {
    hide VerificationRetryDelay, VerificationEnd;
  }

  ghost predicate Ends(s: System, s': System, p: nat) {
    VerificationAt(s', p, Closed) && s' == s.(verifications := s'.verifications)
  }
}
