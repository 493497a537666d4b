/**
 * Provider-confirmed deletion: the provider is asked to assemble an archive at most once per record, and a
 * record is Deleted or Invalid only when its stored object is gone and can never appear again. Nothing is assumed
 * about time: a completion may give up while the provider is still at work, and a remover may be overtaken.
 */
module ProviderDeletion {
  import opened Options
  import opened Policy
  import opened Uploads
  import opened Multipart
  import opened Lifecycle
  import opened LifecycleSafety
  import opened LifecycleRuns
  import opened LifecycleFrames

  // ------------------------------------------------------------------ at most one provider call

  /** The stages of a completion that won the record. */
  predicate Won(c: Completion) { c.stage in {Owning, Calling, Sizing, Finishing, Failing} }

  ghost predicate OneOwner(cs: seq<Completion>) {
    forall p, q :: 0 <= p < q < |cs| && Won(cs[p]) && Won(cs[q]) ==> cs[p].seen.id != cs[q].seen.id
  }

  ghost predicate CalledOnce(s: System) {
    && OneOwner(s.completions)
    && (forall id :: s.calls[id] <= 1)
    && (forall id :: s.calls[id] == 1 ==> id in s.repo.records && Phase(s.repo.records[id].status) >= 1)
    && (forall p :: 0 <= p < |s.completions| && Won(s.completions[p]) ==>
          var id := s.completions[p].seen.id;
          && id in s.repo.records && Phase(s.repo.records[id].status) >= 1
          && (s.completions[p].stage == Owning ==> s.calls[id] == 0))
  }

  lemma OthersKeepCalledOnce(s: System, s': System)
    requires CalledOnce(s) && Evolves(s.repo, s'.repo)
    requires s'.completions == s.completions && s'.calls == s.calls
    ensures CalledOnce(s')
  {
    forall id | id in s.repo.records
      ensures id in s'.repo.records && Phase(s'.repo.records[id].status) >= Phase(s.repo.records[id].status)
    {
      assert LegalMove(s.repo.records[id], s'.repo.records[id]);
    }
    hide Evolves;
  }

  /** Completion p keeps its reading, the others are as they were. */
  ghost predicate Restaged(s: System, s': System, p: nat) {
    && p < |s.completions| == |s'.completions|
    && s'.completions[p].seen == s.completions[p].seen
    && forall q :: 0 <= q < |s.completions| && q != p ==> s'.completions[q] == s.completions[q]
  }

  /** Winning needs the record still Uploading, so nobody else owns it and nothing has been called for it. */
  lemma OwningKeepsCalledOnce(s: System, s': System, p: nat)
    requires CalledOnce(s) && Restaged(s, s', p)
    requires s.completions[p].seen.id in s.repo.records && s.repo.records[s.completions[p].seen.id].status == Uploading
    requires s.completions[p].seen.id in s'.repo.records && s'.repo.records[s.completions[p].seen.id].status == Completing
    requires s'.calls == s.calls
    requires forall id :: id in s.repo.records ==>
               id in s'.repo.records && Phase(s'.repo.records[id].status) >= Phase(s.repo.records[id].status)
    ensures CalledOnce(s')
  {
    var id := s.completions[p].seen.id;
    assert s.calls[id] == 0;
    forall q | 0 <= q < |s.completions| && Won(s.completions[q]) ensures s.completions[q].seen.id != id {
    }
  }

  lemma WinShape(s: System, p: nat)
    requires CompletionAt(s, p, Loaded)
    ensures var s' := DoWinCompletion(s, p);
      var id := s.completions[p].seen.id;
      && Restaged(s, s', p) && s'.calls == s.calls
      && (s'.completions[p].stage == Over || s'.completions[p].stage == Owning)
      && (s'.completions[p].stage == Owning ==>
            && id in s.repo.records && s.repo.records[id].status == Uploading
            && id in s'.repo.records && s'.repo.records[id].status == Completing)
  {
    AttemptFrame(s, s.completions[p].seen.id, {Uploading}, To(Completing));
    hide Attempt, Touches;
  }

  lemma WinKeepsCalledOnce(s: System, p: nat)
    requires WellFormed(s.repo) && CalledOnce(s)
    ensures CalledOnce(DoWinCompletion(s, p))
  {
    if CompletionAt(s, p, Loaded) {
      hide CalledOnce, Phase, Restaged, DoWinCompletion, WellFormed;
      var s' := DoWinCompletion(s, p);
      WinShape(s, p);
      CompletionAdvances(s, WinCompletion(p));
      if s'.completions[p].stage == Owning {
        OwningKeepsCalledOnce(s, s', p);
      } else {
        StagingKeepsCalledOnce(s, s', p);
      }
    }
  }

  /** Staging completion p without touching the records keeps it. */
  lemma StagingKeepsCalledOnce(s: System, s': System, p: nat)
    requires CalledOnce(s) && Restaged(s, s', p)
    requires Won(s'.completions[p]) ==> Won(s.completions[p]) && s'.completions[p].stage != Owning
    requires s'.calls == s.calls
    requires forall id :: id in s.repo.records ==>
               id in s'.repo.records && Phase(s'.repo.records[id].status) >= Phase(s.repo.records[id].status)
    ensures CalledOnce(s')
  {
  }

  lemma CallKeepsCalledOnce(s: System, p: nat, parts: seq<Part>)
    requires CalledOnce(s)
    ensures CalledOnce(DoCallProvider(s, p, parts))
  {
    hide ValidateParts;
    if CompletionAt(s, p, Owning) {
      var s' := DoCallProvider(s, p, parts);
      if s'.calls == s.calls {
        StagingKeepsCalledOnce(s, s', p);
      } else {
        assert Restaged(s, s', p);
      }
    }
  }

  lemma CompletionKeepsCalledOnce(s: System, step: CompletionStep)
    requires WellFormed(s.repo) && CalledOnce(s)
    ensures CalledOnce(CompletionNext(s, step))
  {
    hide CalledOnce, Evolves, Attempt, ValidateParts;
    match step {
      case LoadForCompletion(id) => LoadKeepsCalledOnce(s, id);
      case WinCompletion(p) => WinKeepsCalledOnce(s, p);
      case CallProvider(p, parts) => CallKeepsCalledOnce(s, p, parts);
      case ProviderReturns(p, ok) => LaterStageKeepsCalledOnce(s, step, p);
      case SizeChecked(p, ok) => LaterStageKeepsCalledOnce(s, step, p);
      case FinishCompletion(p) => LaterStageKeepsCalledOnce(s, step, p);
      case FailCompletion(p) => LaterStageKeepsCalledOnce(s, step, p);
      case AbandonCompletion(p) => LaterStageKeepsCalledOnce(s, step, p);
    }
  }

  lemma LoadKeepsCalledOnce(s: System, id: Id)
    requires CalledOnce(s)
    ensures CalledOnce(DoLoadForCompletion(s, id))
  {
  }

  lemma SameCalledOnce(s: System, s': System)
    requires CalledOnce(s) && s'.repo == s.repo && s'.completions == s.completions && s'.calls == s.calls
    ensures CalledOnce(s')
  {
  }

  /** A completion step moves no record back. */
  lemma CompletionAdvances(s: System, step: CompletionStep)
    requires WellFormed(s.repo)
    ensures forall id :: id in s.repo.records ==>
              && id in CompletionNext(s, step).repo.records
              && Phase(CompletionNext(s, step).repo.records[id].status) >= Phase(s.repo.records[id].status)
  {
    CompletionStepEvolves(s, step);
    hide CompletionNext, Phase;
    var s' := CompletionNext(s, step);
    forall id | id in s.repo.records
      ensures id in s'.repo.records && Phase(s'.repo.records[id].status) >= Phase(s.repo.records[id].status)
    {
      assert LegalMove(s.repo.records[id], s'.repo.records[id]);
    }
  }

  predicate IsLaterStage(step: CompletionStep) {
    step.ProviderReturns? || step.SizeChecked? || step.FinishCompletion? || step.FailCompletion?
    || step.AbandonCompletion?
  }

  lemma LaterStageIdle(s: System, step: CompletionStep)
    requires IsLaterStage(step)
    ensures step.p >= |s.completions| || CompletionNext(s, step).completions == s.completions ==>
      CompletionNext(s, step).repo == s.repo && CompletionNext(s, step).calls == s.calls
      && CompletionNext(s, step).completions == s.completions
  {
    hide Phase, Attempt;
  }

  /** What a later stage makes of its own completion: the same reading, and won only if it was. */
  lemma LaterStageShape(s: System, step: CompletionStep)
    requires IsLaterStage(step) && step.p < |s.completions| && CompletionNext(s, step).completions != s.completions
    ensures var s' := CompletionNext(s, step);
      && Restaged(s, s', step.p) && s'.calls == s.calls
      && (Won(s'.completions[step.p]) ==> Won(s.completions[step.p]) && s'.completions[step.p].stage != Owning)
  {
    hide Attempt;
  }

  lemma LaterStageKeepsCalledOnce(s: System, step: CompletionStep, p: nat)
    requires WellFormed(s.repo) && CalledOnce(s) && IsLaterStage(step) && step.p == p
    ensures CalledOnce(CompletionNext(s, step))
  {
    hide CalledOnce, WellFormed, Phase, CompletionNext, Won, Restaged;
    var s' := CompletionNext(s, step);
    CompletionAdvances(s, step);
    LaterStageIdle(s, step);
    if p < |s.completions| && s'.completions != s.completions {
      LaterStageShape(s, step);
      StagingKeepsCalledOnce(s, s', p);
    } else {
      SameCalledOnce(s, s');
    }
  }

  lemma StepKeepsCalledOnce(s: System, step: Step)
    requires Safe(s) && CalledOnce(s)
    ensures CalledOnce(Next(s, step))
  {
    hide CalledOnce, Evolves;
    StepEvolves(s, step);
    match step {
      case Tick(_) => OthersKeepCalledOnce(s, Next(s, step));
      case OnProvider(_) => OthersKeepCalledOnce(s, Next(s, step));
      case OnUpload(upload) =>
        UploadKeepsProcesses(s, upload);
        OthersKeepCalledOnce(s, Next(s, step));
      case OnCompletion(completion) => CompletionKeepsCalledOnce(s, completion);
      case ByAdministrator(request) =>
        AdministratorKeepsProcesses(s, request);
        OthersKeepCalledOnce(s, Next(s, step));
      case OnVerification(verification) =>
        VerificationKeepsCalls(s, verification);
        OthersKeepCalledOnce(s, Next(s, step));
      case OnRemoval(removal) =>
        RemovalKeepsCalls(s, removal);
        OthersKeepCalledOnce(s, Next(s, step));
    }
  }

  lemma VerificationKeepsCalls(s: System, step: VerificationStep)
    requires WellFormed(s.repo)
    ensures VerificationNext(s, step).completions == s.completions && VerificationNext(s, step).calls == s.calls
    ensures VerificationNext(s, step).objects == s.objects && VerificationNext(s, step).uploads == s.uploads
  {
    hide Attempt, VerificationBatch, ClaimVerification;
  }

  lemma RemovalKeepsCalls(s: System, step: RemovalStep)
    requires WellFormed(s.repo)
    ensures RemovalNext(s, step).completions == s.completions && RemovalNext(s, step).calls == s.calls
  {
    hide Attempt, ClaimExpired, DeletionBatch;
  }

  lemma {:induction false} RunKeepsCalledOnce(s: System, steps: seq<Step>)
    requires Safe(s) && CalledOnce(s)
    ensures CalledOnce(RunFrom(s, steps))
    decreases |steps|
  {
    if steps != [] {
      StepKeepsSafe(s, steps[0]);
      StepKeepsCalledOnce(s, steps[0]);
      RunKeepsCalledOnce(Next(s, steps[0]), steps[1..]);
    }
  }

  /** In every run, completeMultipart is called at most once per record. */
  lemma ProviderCalledAtMostOnce(steps: seq<Step>, id: Id)
    ensures Run(steps).calls[id] <= 1
  {
    StartIsSafe();
    RunKeepsCalledOnce(START, steps);
  }

  // ------------------------------------------------------------------ deletion is confirmed

  predicate IsOpen(s: System, id: Id) { UploadAt(s, id, Open) }

  /** A record with an open upload knows its id, and is neither Stored nor terminal. */
  ghost predicate UploadFits(r: Repo, id: Id, upload: MultipartUpload) {
    && id in r.records
    && (r.records[id].providerUploadId.Some? || Phase(r.records[id].status) >= 2)
    && (upload == Open ==>
          && r.records[id].providerUploadId.Some?
          && !Stored(r.records[id].status) && !Terminal(r.records[id].status))
  }

  /** A completion past its provider call saw the archive assembled. */
  predicate CompletionFits(s: System, c: Completion) {
    c.stage == Sizing || c.stage == Finishing ==> UploadAt(s, c.seen.id, Assembled)
  }

  /**
   * A remover at work holds a record on the deletion side. Unless it has an upload to abort first, or did not get
   * an answer, that upload is closed; and once the provider listed no version, the object is gone.
   */
  ghost predicate RemoverHolds(s: System, removal: Removal) {
    && removal.seen.id in s.repo.records && Phase(s.repo.records[removal.seen.id].status) >= 5
    && (!NamesUpload(removal) || removal.stage == Cut || removal.stage == Gone ==> !IsOpen(s, removal.seen.id))
    && (removal.stage == Gone ==> removal.seen.id !in s.objects)
  }

  ghost predicate UploadsFit(s: System) {
    forall id :: id in s.uploads ==> UploadFits(s.repo, id, s.uploads[id])
  }

  ghost predicate ObjectsAlive(s: System) {
    forall id :: id in s.objects ==> id in s.repo.records && !Terminal(s.repo.records[id].status)
  }

  ghost predicate CompletionsFit(s: System) {
    forall p :: 0 <= p < |s.completions| ==> CompletionFits(s, s.completions[p])
  }

  ghost predicate RemoversHold(s: System) {
    forall p :: 0 <= p < |s.removals| && s.removals[p].stage != Settled ==> RemoverHolds(s, s.removals[p])
  }

  ghost predicate Confirmed(s: System) {
    UploadsFit(s) && ObjectsAlive(s) && CompletionsFit(s) && RemoversHold(s)
  }

  // ------------------------------------------------------------------ steps that leave the provider alone

  /** No record goes back a phase or ends, and all keep their upload ids. */
  ghost predicate Keeps(r: Repo, r': Repo) {
    forall id :: id in r.records ==> id in r'.records && KeepsRecord(r.records[id], r'.records[id])
  }

  predicate KeepsRecord(u: Upload, v: Upload) {
    && Phase(u.status) <= Phase(v.status)
    && KeepsUploadId(u, v)
    && (Terminal(v.status) ==> Terminal(u.status))
  }

  lemma StepKeeps(r: Repo, r': Repo, statuses: set<Status>)
    requires Evolves(r, r') && ChangesOnly(r, r', statuses) && Deleting !in statuses && KeepsUploadIds(r, r')
    ensures Keeps(r, r')
  {
    hide KeepsUploadId, Phase, Terminal;
    forall id | id in r.records ensures id in r'.records && KeepsRecord(r.records[id], r'.records[id]) {
      assert LegalMove(r.records[id], r'.records[id]);
    }
  }

  lemma SameRecordsKeep(r: Repo, r': Repo)
    requires r'.records == r.records
    ensures Keeps(r, r')
  {
  }

  lemma KeptUploadFits(r: Repo, r': Repo, id: Id, upload: MultipartUpload)
    requires UploadFits(r, id, upload) && Keeps(r, r')
    ensures UploadFits(r', id, upload)
  {
  }

  lemma KeptRemoverHolds(s: System, s': System, removal: Removal)
    requires RemoverHolds(s, removal) && Keeps(s.repo, s'.repo) && s'.uploads == s.uploads && s'.objects == s.objects
    ensures RemoverHolds(s', removal)
  {
    hide KeepsUploadId;
  }

  lemma KeptObjects(s: System, s': System)
    requires ObjectsAlive(s) && Keeps(s.repo, s'.repo) && s'.objects <= s.objects
    ensures ObjectsAlive(s')
  {
    hide Phase, KeepsUploadId;
  }

  /** The provider and the completions stay as they are; removals may be added if they hold. */
  lemma OthersKeepConfirmed(s: System, s': System)
    requires Confirmed(s) && Keeps(s.repo, s'.repo)
    requires s'.completions == s.completions && s'.objects == s.objects && s'.uploads == s.uploads
    requires |s'.removals| >= |s.removals|
    requires forall p :: 0 <= p < |s.removals| ==> s'.removals[p] == s.removals[p]
    requires forall p :: |s.removals| <= p < |s'.removals| ==> RemoverHolds(s', s'.removals[p])
    ensures Confirmed(s')
  {
    hide UploadFits, RemoverHolds, Keeps, ObjectsAlive;
    KeptObjects(s, s');
    forall id | id in s'.uploads ensures UploadFits(s'.repo, id, s'.uploads[id]) {
      KeptUploadFits(s.repo, s'.repo, id, s.uploads[id]);
    }
    forall p | 0 <= p < |s'.removals| && s'.removals[p].stage != Settled ensures RemoverHolds(s', s'.removals[p]) {
      if p < |s.removals| { KeptRemoverHolds(s, s', s.removals[p]); }
    }
    forall p | 0 <= p < |s'.completions| ensures CompletionFits(s', s'.completions[p]) {
      assert CompletionFits(s, s.completions[p]);
    }
  }

  lemma VerificationKeepsConfirmed(s: System, step: VerificationStep)
    requires Safe(s) && Confirmed(s)
    ensures Confirmed(VerificationNext(s, step))
  {
    hide Confirmed, Evolves, ChangesOnly, KeepsUploadIds, Keeps, RemoverHolds;
    var s' := VerificationNext(s, step);
    VerificationStepEvolves(s, step);
    VerificationChanges(s, step);
    VerificationKeepsUploadIds(s, step);
    StepKeeps(s.repo, s'.repo, UNDER_VERIFICATION);
    VerificationKeepsCalls(s, step);
    VerificationAddsRejections(s, step);
    OthersKeepConfirmed(s, s');
  }

  /** The only removal a verification step starts is that of a damaged archive, whose upload was assembled. */
  lemma VerificationAddsRejections(s: System, step: VerificationStep)
    requires WellFormed(s.repo) && Confirmed(s)
    ensures var s' := VerificationNext(s, step);
            && |s'.removals| >= |s.removals|
            && (forall p :: 0 <= p < |s.removals| ==> s'.removals[p] == s.removals[p])
            && (forall p :: |s.removals| <= p < |s'.removals| ==> RemoverHolds(s', s'.removals[p]))
  {
    hide Attempt, WellFormed, VerificationBatch, ClaimVerification, Confirmed, RemoverHolds, VerificationRetryDelay;
    match step {
      case RejectDamaged(p) => RejectionHolds(s, p);
      case _ =>
    }
  }

  lemma RejectionHolds(s: System, p: nat)
    requires Confirmed(s)
    ensures var s' := DoRejectDamaged(s, p);
            && |s'.removals| >= |s.removals|
            && (forall q :: 0 <= q < |s.removals| ==> s'.removals[q] == s.removals[q])
            && (forall q :: |s.removals| <= q < |s'.removals| ==> RemoverHolds(s', s'.removals[q]))
  {
    hide Attempt, Touches, Confirmed;
    if VerificationAt(s, p, Rejecting) {
      var id := s.verifications[p].seen.id;
      var change := To(Deleting).(audit := Some(Event(VerificationFailed, s.now)));
      AttemptFrame(s, id, {VerifyingActive}, change);
      if Attempt(s, id, {VerifyingActive}, change).1 { StoredIsClosed(s, id); }
    }
  }

  lemma StoredIsClosed(s: System, id: Id)
    requires Confirmed(s) && id in s.repo.records && Stored(s.repo.records[id].status)
    ensures !IsOpen(s, id)
  {
    assert id in s.uploads ==> UploadFits(s.repo, id, s.uploads[id]);
  }

  lemma NamelessIsClosed(s: System, id: Id)
    requires Confirmed(s) && id in s.repo.records && s.repo.records[id].providerUploadId.None?
    ensures !IsOpen(s, id)
  {
    assert id in s.uploads ==> UploadFits(s.repo, id, s.uploads[id]);
  }

  // ------------------------------------------------------------------ steps of the provider, and binding an upload

  /** An upload that closes, or an archive that appears from an open one. */
  lemma ClosingKeepsConfirmed(s: System, s': System, id: Id)
    requires Confirmed(s) && IsOpen(s, id)
    requires id in s'.uploads && s'.uploads == s.uploads[id := s'.uploads[id]] && s'.uploads[id] != Open
    requires s'.objects == s.objects || s'.objects == s.objects + {id}
    requires (s'.repo, s'.completions, s'.removals) == (s.repo, s.completions, s.removals)
    ensures Confirmed(s')
  {
    assert UploadFits(s.repo, id, s.uploads[id]);
    forall p | 0 <= p < |s'.removals| && s'.removals[p].stage != Settled ensures RemoverHolds(s', s'.removals[p]) {
      assert RemoverHolds(s, s.removals[p]);
    }
    forall p | 0 <= p < |s'.completions| ensures CompletionFits(s', s'.completions[p]) {
      assert CompletionFits(s, s.completions[p]);
    }
  }

  lemma ProviderKeepsConfirmed(s: System, step: ProviderStep)
    requires Confirmed(s)
    ensures Confirmed(ProviderNext(s, step))
  {
    hide Confirmed;
    var id := step.id;
    if IsOpen(s, id) && ProviderNext(s, step) != s {
      ClosingKeepsConfirmed(s, ProviderNext(s, step), id);
    }
  }

  /** Binding opens an upload for an Uploading record that had none. */
  lemma BindKeepsConfirmed(s: System, id: Id, uploadId: string)
    requires Confirmed(s)
    ensures Confirmed(DoBindProvider(s, id, uploadId))
  {
    var s' := DoBindProvider(s, id, uploadId);
    if s' != s {
      assert id in s.uploads ==> UploadFits(s.repo, id, s.uploads[id]);
      assert id !in s.uploads;
      BoundShape(s, id, uploadId);
      hide DoBindProvider;
      forall p | 0 <= p < |s'.removals| && s'.removals[p].stage != Settled ensures RemoverHolds(s', s'.removals[p]) {
        assert RemoverHolds(s, s.removals[p]);
      }
      forall p | 0 <= p < |s'.completions| ensures CompletionFits(s', s'.completions[p]) {
        assert CompletionFits(s, s.completions[p]);
      }
    }
  }

  lemma BoundShape(s: System, id: Id, uploadId: string)
    requires DoBindProvider(s, id, uploadId) != s
    ensures var s' := DoBindProvider(s, id, uploadId);
            && id in s.repo.records && s.repo.records[id].status == Uploading
            && id in s'.repo.records && s'.repo.records[id].status == Uploading
            && s'.repo.records[id].providerUploadId.Some?
            && s'.repo.records == s.repo.records[id := s'.repo.records[id]]
            && s'.uploads == s.uploads[id := Open]
            && (s'.objects, s'.completions, s'.removals) == (s.objects, s.completions, s.removals)
  {
  }

  lemma UploadKeepsConfirmed(s: System, step: UploadStep)
    requires Safe(s) && Confirmed(s)
    ensures Confirmed(UploadNext(s, step))
  {
    hide Confirmed, Evolves, ChangesOnly, KeepsUploadIds, Keeps, Safe;
    match step {
      case BindProvider(id, uploadId) => BindKeepsConfirmed(s, id, uploadId);
      case _ => QuietUploadKeepsConfirmed(s, step);
    }
  }

  lemma QuietUploadKeepsConfirmed(s: System, step: UploadStep)
    requires Safe(s) && Confirmed(s) && !step.BindProvider?
    ensures Confirmed(UploadNext(s, step))
  {
    hide Confirmed, Evolves, ChangesOnly, KeepsUploadIds, Keeps;
    var s' := UploadNext(s, step);
    UploadStepEvolves(s, step);
    UploadTouches(s, step);
    UploadKeepsUploadIds(s, step);
    StepKeeps(s.repo, s'.repo, BEFORE_CLAIM);
    UploadKeepsProcesses(s, step);
    QuietUploadKeepsUploads(s, step);
    OthersKeepConfirmed(s, s');
  }

  lemma QuietUploadKeepsUploads(s: System, step: UploadStep)
    requires WellFormed(s.repo) && !step.BindProvider?
    ensures UploadNext(s, step).uploads == s.uploads
  {
    hide Attempt, Audited, InsertWithinQuota;
  }

  lemma AdministratorKeepsConfirmed(s: System, step: AdministratorStep)
    requires Safe(s) && Confirmed(s)
    ensures Confirmed(AdministratorNext(s, step))
  {
    hide Confirmed, Evolves, ChangesOnly, KeepsUploadIds, Keeps;
    var s' := AdministratorNext(s, step);
    AdministratorStepEvolves(s, step);
    AdministratorTouches(s, step);
    AdministratorKeepsUploadIds(s, step);
    StepKeeps(s.repo, s'.repo, BEFORE_CLAIM + {Verifying});
    AdministratorKeepsProcesses(s, step);
    OthersKeepConfirmed(s, s');
  }

  // ------------------------------------------------------------------ completion steps

  /** A completion step that changes no upload id keeps the provider's books; so far as it moves on, it fits. */
  lemma StagingKeepsConfirmed(s: System, s': System)
    requires Confirmed(s) && Keeps(s.repo, s'.repo)
    requires s'.objects == s.objects && s'.uploads == s.uploads && s'.removals == s.removals
    requires CompletionsFit(s')
    ensures Confirmed(s')
  {
    hide UploadFits, RemoverHolds, Keeps, ObjectsAlive;
    KeptObjects(s, s');
    forall id | id in s'.uploads ensures UploadFits(s'.repo, id, s'.uploads[id]) {
      KeptUploadFits(s.repo, s'.repo, id, s.uploads[id]);
    }
    forall p | 0 <= p < |s'.removals| && s'.removals[p].stage != Settled ensures RemoverHolds(s', s'.removals[p]) {
      KeptRemoverHolds(s, s', s.removals[p]);
    }
  }

  lemma CompletionStagesFit(s: System, step: CompletionStep)
    requires CompletionsFit(s)
    ensures CompletionsFit(CompletionNext(s, step))
    ensures var s' := CompletionNext(s, step);
      (s'.objects, s'.uploads, s'.removals) == (s.objects, s.uploads, s.removals)
  {
    hide Attempt, ValidateParts;
  }

  lemma QuietCompletionKeepsConfirmed(s: System, step: CompletionStep)
    requires Safe(s) && Confirmed(s) && !step.FinishCompletion?
    ensures Confirmed(CompletionNext(s, step))
  {
    var s' := CompletionNext(s, step);
    CompletionStagesFit(s, step);
    hide Confirmed, Evolves, ChangesOnly, KeepsUploadIds, Keeps, CompletionNext, CompletionsFit;
    CompletionStepEvolves(s, step);
    CompletionTouches(s, step);
    CompletionKeepsUploadIds(s, step);
    StepKeeps(s.repo, s'.repo, {Uploading, Completing});
    StagingKeepsConfirmed(s, s');
  }

  /** A finished completion becomes Stored and forgets its upload id, which is that of an assembled upload. */
  lemma FinishCompletionKeepsConfirmed(s: System, p: nat)
    requires Confirmed(s)
    ensures Confirmed(DoFinishCompletion(s, p))
  {
    var s' := DoFinishCompletion(s, p);
    CompletionStagesFit(s, FinishCompletion(p));
    hide Confirmed, Keeps, CompletionsFit, Attempt, Touches;
    if CompletionAt(s, p, Finishing) && s'.repo != s.repo {
      var id := s.completions[p].seen.id;
      AttemptFrame(s, id, {Completing},
                   To(Pending).(providerUploadId := Some(None), audit := Some(Event(UploadCompleted, s.now))));
      FinishingIsAssembled(s, p);
      AssembledKeepsConfirmed(s, s', id);
    } else {
      SameRecordsKeep(s.repo, s'.repo);
      StagingKeepsConfirmed(s, s');
    }
  }

  lemma FinishingIsAssembled(s: System, p: nat)
    requires Confirmed(s) && CompletionAt(s, p, Finishing)
    ensures UploadAt(s, s.completions[p].seen.id, Assembled)
  {
    assert CompletionFits(s, s.completions[p]);
  }

  lemma AssembledKeepsConfirmed(s: System, s': System, id: Id)
    requires Confirmed(s) && UploadAt(s, id, Assembled) && CompletionsFit(s')
    requires id in s.repo.records && s.repo.records[id].status == Completing
    requires id in s'.repo.records && s'.repo.records[id].status == Pending
    requires s'.repo.records.Keys == s.repo.records.Keys
    requires forall other :: other in s.repo.records && other != id ==> s'.repo.records[other] == s.repo.records[other]
    requires s'.objects == s.objects && s'.uploads == s.uploads && s'.removals == s.removals
    ensures Confirmed(s')
  {
    forall q | 0 <= q < |s'.removals| && s'.removals[q].stage != Settled ensures RemoverHolds(s', s'.removals[q]) {
      assert RemoverHolds(s, s.removals[q]);
    }
    forall other | other in s'.uploads ensures UploadFits(s'.repo, other, s'.uploads[other]) {
      assert UploadFits(s.repo, other, s.uploads[other]);
    }
  }

  lemma CompletionKeepsConfirmed(s: System, step: CompletionStep)
    requires Safe(s) && Confirmed(s)
    ensures Confirmed(CompletionNext(s, step))
  {
    hide Confirmed, Safe, DoFinishCompletion;
    if step.FinishCompletion? {
      FinishCompletionKeepsConfirmed(s, step.p);
    } else {
      QuietCompletionKeepsConfirmed(s, step);
    }
  }

  // ------------------------------------------------------------------ removal steps

  lemma DueKeeps(r: Repo, r': Repo, now: int)
    requires ClaimsDue(r, r', now)
    ensures Keeps(r, r')
  {
    forall id | id in r.records ensures id in r'.records && KeepsRecord(r.records[id], r'.records[id]) {
      if r'.records[id] != r.records[id] { DueIsLive(r.records[id], now); }
    }
  }

  lemma DueIsLive(u: Upload, now: int)
    requires WantsDeletion(u, now)
    ensures Phase(u.status) <= 5
  {
  }

  /** The i-th of the removals that a claim adds. */
  lemma NewRemoval(s: System, limit: nat, i: nat)
    requires WellFormed(s.repo)
    requires i < |DeletionBatch(Values(s.repo), s.repo.released, s.now, limit)|
    ensures var u := DeletionBatch(Values(s.repo), s.repo.released, s.now, limit)[i];
      var s' := DoClaimForDeletion(s, limit);
      && |s'.removals| > |s.removals| + i
      && s'.removals[|s.removals| + i] == Removal(ClaimedAs(u, Deleting, s.now), Retention, Claimed)
      && s'.objects == s.objects && s'.uploads == s.uploads
  {
    var batch := DeletionBatch(Values(s.repo), s.repo.released, s.now, limit);
    hide WellFormed, DeletionBatch, ClaimExpired;
    assert Removals(ClaimedBatch(batch, Deleting, s.now))[i]
        == Removal(ClaimedAs(batch[i], Deleting, s.now), Retention, Claimed);
  }

  lemma NewlyClaimed(s: System, limit: nat, i: nat)
    requires WellFormed(s.repo)
    requires i < |DeletionBatch(Values(s.repo), s.repo.released, s.now, limit)|
    ensures var u := DeletionBatch(Values(s.repo), s.repo.released, s.now, limit)[i];
      && u.id in s.repo.records && s.repo.records[u.id] == u
      && u.id in ClaimExpired(s.repo, s.now, limit).records
      && ClaimExpired(s.repo, s.now, limit).records[u.id].status == Deleting
  {
    var batch := DeletionBatch(Values(s.repo), s.repo.released, s.now, limit);
    DeletionBatchKnown(s.repo, s.now, limit);
    hide WellFormed, DeletionBatch, WantsDeletion;
    assert batch[i] in batch && InBatch(batch, batch[i].id);
  }

  /** A claimed record that names no upload has none open. */
  lemma NewRemovalHolds(s: System, limit: nat, i: nat)
    requires WellFormed(s.repo) && Confirmed(s)
    requires i < |DeletionBatch(Values(s.repo), s.repo.released, s.now, limit)|
    ensures var s' := DoClaimForDeletion(s, limit);
            |s'.removals| > |s.removals| + i && RemoverHolds(s', s'.removals[|s.removals| + i])
  {
    var u := DeletionBatch(Values(s.repo), s.repo.released, s.now, limit)[i];
    NewRemoval(s, limit, i);
    NewlyClaimed(s, limit, i);
    hide DeletionBatch, Confirmed, ClaimExpired, RemoverHolds, ClaimedBatch, IsOpen;
    if u.providerUploadId.None? { NamelessIsClosed(s, u.id); }
    ClaimedHolds(s, DoClaimForDeletion(s, limit), u);
  }

  lemma ClaimedHolds(s: System, s': System, u: Upload)
    requires u.id in s'.repo.records && s'.repo.records[u.id].status == Deleting && s'.uploads == s.uploads
    requires u.providerUploadId.None? ==> !IsOpen(s, u.id)
    ensures RemoverHolds(s', Removal(ClaimedAs(u, Deleting, s.now), Retention, Claimed))
  {
  }

  lemma DeletionClaimKeepsConfirmed(s: System, limit: nat)
    requires WellFormed(s.repo) && Confirmed(s)
    ensures Confirmed(DoClaimForDeletion(s, limit))
  {
    hide Confirmed, ClaimExpired, DeletionBatch, ClaimsDue, Keeps, RemoverHolds;
    var s' := DoClaimForDeletion(s, limit);
    DeletionClaimsDue(s, limit);
    DueKeeps(s.repo, s'.repo, s.now);
    forall p | |s.removals| <= p < |s'.removals| ensures RemoverHolds(s', s'.removals[p]) {
      NewRemovalHolds(s, limit, p - |s.removals|);
    }
    OthersKeepConfirmed(s, s');
  }

  /** Removal p moves on with the records kept: its upload may close, its object may go away. */
  lemma RemovingKeepsConfirmed(s: System, s': System, p: nat)
    requires Confirmed(s) && Keeps(s.repo, s'.repo) && p < |s.removals| == |s'.removals|
    requires forall q :: 0 <= q < |s.removals| && q != p ==> s'.removals[q] == s.removals[q]
    requires s'.removals[p].seen == s.removals[p].seen && s'.removals[p].reason == s.removals[p].reason
    requires s'.removals[p].stage != Settled ==> s.removals[p].stage != Settled
    requires s'.removals[p].stage == Cut || s'.removals[p].stage == Gone ==> !IsOpen(s', s.removals[p].seen.id)
    requires s'.removals[p].stage == Gone ==> s.removals[p].seen.id !in s'.objects
    requires s'.objects <= s.objects && s'.completions == s.completions
    requires s'.uploads == s.uploads || s'.uploads == Discard(s.uploads, s.removals[p].seen.id)
    ensures Confirmed(s')
  {
    hide Keeps, UploadFits, RemoverHolds, ObjectsAlive;
    KeptObjects(s, s');
    forall id | id in s'.uploads ensures UploadFits(s'.repo, id, s'.uploads[id]) {
      KeptUploadFits(s.repo, s'.repo, id, s.uploads[id]);
      if s'.uploads[id] != s.uploads[id] { ClosedUploadFits(s'.repo, id, s.uploads[id], s'.uploads[id]); }
    }
    forall q | 0 <= q < |s'.removals| && s'.removals[q].stage != Settled ensures RemoverHolds(s', s'.removals[q]) {
      if q != p { StillHolds(s, s', s.removals[q]); } else { MovedHolds(s, s', s.removals[p], s'.removals[p]); }
    }
    forall q | 0 <= q < |s'.completions| ensures CompletionFits(s', s'.completions[q]) {
      assert CompletionFits(s, s.completions[q]);
    }
  }

  lemma ClosedUploadFits(r: Repo, id: Id, before: MultipartUpload, after: MultipartUpload)
    requires UploadFits(r, id, before) && after != Open
    ensures UploadFits(r, id, after)
  {
  }

  lemma StillHolds(s: System, s': System, removal: Removal)
    requires RemoverHolds(s, removal) && Keeps(s.repo, s'.repo)
    requires s'.objects <= s.objects && forall id :: IsOpen(s', id) ==> IsOpen(s, id)
    ensures RemoverHolds(s', removal)
  {
  }

  lemma MovedHolds(s: System, s': System, before: Removal, after: Removal)
    requires RemoverHolds(s, before) && Keeps(s.repo, s'.repo)
    requires after.seen == before.seen && after.reason == before.reason
    requires after.stage == Cut || after.stage == Gone ==> !IsOpen(s', after.seen.id)
    requires after.stage == Gone ==> after.seen.id !in s'.objects
    requires forall id :: IsOpen(s', id) ==> IsOpen(s, id)
    ensures RemoverHolds(s', after)
  {
  }

  lemma HoldsAt(s: System, p: nat)
    requires Confirmed(s) && p < |s.removals| && s.removals[p].stage != Settled
    ensures RemoverHolds(s, s.removals[p])
  {
  }

  lemma AbortKeepsConfirmed(s: System, p: nat, answered: bool, effective: bool)
    requires Confirmed(s)
    ensures Confirmed(DoAbortUpload(s, p, answered, effective))
  {
    hide Confirmed, Keeps;
    var s' := DoAbortUpload(s, p, answered, effective);
    SameRecordsKeep(s.repo, s'.repo);
    if RemovalAt(s, p, Announced) {
      HoldsAt(s, p);
      RemovingKeepsConfirmed(s, s', p);
    }
  }

  lemma DeleteKeepsConfirmed(s: System, p: nat, ok: bool, gone: bool)
    requires Confirmed(s)
    ensures Confirmed(DoDeleteVersions(s, p, ok, gone))
  {
    hide Confirmed, Keeps;
    var s' := DoDeleteVersions(s, p, ok, gone);
    SameRecordsKeep(s.repo, s'.repo);
    if RemovalAt(s, p, Cut) || RemovalAt(s, p, Uncut) {
      HoldsAt(s, p);
      RemovingKeepsConfirmed(s, s', p);
    }
  }

  /** Only a confirmed removal makes a record Deleted or Invalid. */
  lemma FinishKeepsConfirmed(s: System, p: nat)
    requires Confirmed(s)
    ensures Confirmed(DoFinishRemoval(s, p))
  {
    hide Confirmed, Keeps, Attempt, Touches;
    if RemovalAt(s, p, Gone) {
      var s' := DoFinishRemoval(s, p);
      var id := s.removals[p].seen.id;
      HoldsAt(s, p);
      AttemptFrame(s, id, {Deleting}, RemovalChange(s.removals[p].reason, s.now));
      if s'.repo == s.repo {
        SameRecordsKeep(s.repo, s'.repo);
        RemovingKeepsConfirmed(s, s', p);
      } else {
        EndingKeepsConfirmed(s, s', p, id);
      }
    }
  }

  /** A record whose object is gone and whose upload is closed may end. */
  lemma EndingKeepsConfirmed(s: System, s': System, p: nat, id: Id)
    requires Confirmed(s) && p < |s.removals| == |s'.removals|
    requires forall q :: 0 <= q < |s.removals| && q != p ==> s'.removals[q] == s.removals[q]
    requires s'.removals[p].stage == Settled
    requires id !in s.objects && !IsOpen(s, id)
    requires id in s.repo.records && s'.repo.records.Keys == s.repo.records.Keys
    requires Phase(s'.repo.records[id].status) >= 5
    requires forall other :: other in s.repo.records && other != id ==> s'.repo.records[other] == s.repo.records[other]
    requires s'.objects == s.objects && s'.uploads == s.uploads && s'.completions == s.completions
    ensures Confirmed(s')
  {
    forall q | 0 <= q < |s'.removals| && s'.removals[q].stage != Settled ensures RemoverHolds(s', s'.removals[q]) {
      assert RemoverHolds(s, s.removals[q]);
    }
    forall other | other in s'.uploads ensures UploadFits(s'.repo, other, s'.uploads[other]) {
      assert UploadFits(s.repo, other, s.uploads[other]);
    }
    forall q | 0 <= q < |s'.completions| ensures CompletionFits(s', s'.completions[q]) {
      assert CompletionFits(s, s.completions[q]);
    }
  }

  lemma RetryKeepsConfirmed(s: System, p: nat)
    requires WellFormed(s.repo) && Confirmed(s)
    ensures Confirmed(DoRetryRemoval(s, p))
  {
    hide Confirmed, Keeps, WellFormed;
    if RemovalAt(s, p, Stuck) {
      RetryKeeps(s, p);
      hide Outcome, ScheduleDeletionRetry, DeletionRetryDelay;
      RemovingKeepsConfirmed(s, DoRetryRemoval(s, p), p);
    }
  }

  lemma RetryKeeps(s: System, p: nat)
    ensures Keeps(s.repo, DoRetryRemoval(s, p).repo)
  {
    hide DeletionRetryDelay;
  }

  lemma AnnounceKeepsConfirmed(s: System, p: nat)
    requires Confirmed(s)
    ensures Confirmed(DoAnnounceRemoval(s, p))
  {
    hide Confirmed, Keeps, Audited;
    if RemovalAt(s, p, Claimed) {
      var event := Event(DeletionClaimed, s.now);
      AuditedTouches(s.repo, s.removals[p].seen.id, event, {Deleting});
      SameRecordsKeep(s.repo, Audited(s.repo, s.removals[p].seen.id, event));
      RemovingKeepsConfirmed(s, DoAnnounceRemoval(s, p), p);
    }
  }

  lemma RemovalKeepsConfirmed(s: System, step: RemovalStep)
    requires WellFormed(s.repo) && Confirmed(s)
    ensures Confirmed(RemovalNext(s, step))
  {
    hide Confirmed, WellFormed, Keeps, DoClaimForDeletion, DoAnnounceRemoval, DoAbortUpload, DoDeleteVersions,
         DoFinishRemoval, DoRetryRemoval;
    SameRecordsKeep(s.repo, s.repo);
    var s' := RemovalNext(s, step);
    match step {
      case ClaimForDeletion(limit) => DeletionClaimKeepsConfirmed(s, limit);
      case AnnounceRemoval(p) => AnnounceKeepsConfirmed(s, p);
      case AbortUpload(p, answered, effective) => AbortKeepsConfirmed(s, p, answered, effective);
      case DeleteVersions(p, ok, gone) => DeleteKeepsConfirmed(s, p, ok, gone);
      case FinishRemoval(p) => FinishKeepsConfirmed(s, p);
      case FailRemoval(p) =>
        if RemovalAt(s, p, Gone) || RemovalAt(s, p, Claimed) { RemovingKeepsConfirmed(s, s', p); }
      case RetryRemoval(p) => RetryKeepsConfirmed(s, p);
      case AbandonRemoval(p) => if p < |s.removals| { RemovingKeepsConfirmed(s, s', p); }
    }
  }

  // ------------------------------------------------------------------ every step, every run

  lemma StepKeepsConfirmed(s: System, step: Step)
    requires Safe(s) && Confirmed(s)
    ensures Confirmed(Next(s, step))
  {
    hide Confirmed, UploadNext, CompletionNext, AdministratorNext, VerificationNext, RemovalNext;
    match step {
      case Tick(_) => TickKeepsConfirmed(s, Next(s, step));
      case OnProvider(provider) => ProviderKeepsConfirmed(s, provider);
      case OnUpload(upload) => UploadKeepsConfirmed(s, upload);
      case OnCompletion(completion) => CompletionKeepsConfirmed(s, completion);
      case ByAdministrator(request) => AdministratorKeepsConfirmed(s, request);
      case OnVerification(verification) => VerificationKeepsConfirmed(s, verification);
      case OnRemoval(removal) => RemovalKeepsConfirmed(s, removal);
    }
  }

  lemma TickKeepsConfirmed(s: System, s': System)
    requires Confirmed(s)
    requires (s'.repo, s'.completions, s'.removals) == (s.repo, s.completions, s.removals)
    requires (s'.objects, s'.uploads) == (s.objects, s.uploads)
    ensures Confirmed(s')
  {
    hide Keeps, Confirmed, RemoverHolds;
    SameRecordsKeep(s.repo, s'.repo);
    OthersKeepConfirmed(s, s');
  }

  lemma {:induction false} RunKeepsConfirmed(s: System, steps: seq<Step>)
    requires Safe(s) && Confirmed(s)
    ensures Confirmed(RunFrom(s, steps))
    decreases |steps|
  {
    hide Confirmed, Safe;
    if steps != [] {
      StepKeepsSafe(s, steps[0]);
      StepKeepsConfirmed(s, steps[0]);
      RunKeepsConfirmed(Next(s, steps[0]), steps[1..]);
    }
  }

  /**
   * In every run, a record that is Deleted or Invalid has no stored object and no open upload, and however the run
   * goes on its object never appears again. Completions may have timed out or crashed in their provider call, and
   * two removers may hold the same record: the statement is about every reachable state.
   */
  lemma DeletedMeansGone(steps: seq<Step>, more: seq<Step>, id: Id)
    requires id in Run(steps).repo.records && Run(steps).repo.records[id].status in {Deleted, Invalid}
    ensures id !in Run(steps).objects && !IsOpen(Run(steps), id)
    ensures id !in RunFrom(Run(steps), more).objects && !IsOpen(RunFrom(Run(steps), more), id)
  {
    hide Confirmed, Safe, Run, RunFrom;
    StartIsSafe();
    StartIsConfirmed();
    RunIsRunFrom(steps);
    RunKeepsConfirmed(START, steps);
    TerminalIsGone(Run(steps), id);
    RunKeepsConfirmed(Run(steps), more);
    PhaseNeverGoesBack(Run(steps), more, id);
    TerminalIsGone(RunFrom(Run(steps), more), id);
  }

  lemma StartIsConfirmed()
    ensures Confirmed(START)
  {
  }

  lemma TerminalIsGone(s: System, id: Id)
    requires Confirmed(s) && id in s.repo.records && Phase(s.repo.records[id].status) == 6
    ensures id !in s.objects && !IsOpen(s, id)
  {
    assert id in s.uploads ==> UploadFits(s.repo, id, s.uploads[id]);
  }
}
