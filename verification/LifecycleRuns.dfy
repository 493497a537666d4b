/** Whole runs: phases only advance, milestones are recorded once, deletion ends downloads. */
module LifecycleRuns {
  import opened Sequences
  import opened Policy
  import opened Uploads
  import opened Multipart
  import opened Lifecycle
  import opened LifecycleSafety

  /** Each milestone action is recorded at most once for a record, and only once its phase is reached. */
  ghost predicate MilestonesOnce(r: Repo) {
    forall id, action :: id in r.records && Milestone(action) > 0 ==>
      Occurrences(r.audit, id, action) <= if Reached(r.records[id].status, action) then 1 else 0
  }

  /** Every action a record owes is recorded. */
  ghost predicate MilestonesPaid(r: Repo) {
    forall id, action :: id in r.records && Owed(r.records[id].status, action) ==>
      Occurrences(r.audit, id, action) > 0
  }

  ghost predicate AllSound(r: Repo) {
    forall id :: id in r.records ==> Sound(r.records[id])
  }

  ghost predicate SafeRepo(r: Repo) {
    WellFormed(r) && MilestonesOnce(r) && MilestonesPaid(r) && AllSound(r) && ReleasedOnDeletionSide(r)
  }

  ghost predicate Safe(s: System) {
    SafeRepo(s.repo) && DownloadsMatch(s) && Readings(s)
  }

  /** The stored record has made a legal move since it was read. */
  ghost predicate Earlier(r: Repo, seen: Upload) {
    seen.id in r.records && LegalMove(seen, r.records[seen.id])
  }

  /** Whatever a process holds is an earlier version of a stored record. */
  ghost predicate Readings(s: System) {
    && (forall p :: 0 <= p < |s.completions| ==> Earlier(s.repo, s.completions[p].seen))
    && (forall p :: 0 <= p < |s.verifications| ==> Earlier(s.repo, s.verifications[p].seen))
    && (forall p :: 0 <= p < |s.removals| ==> Earlier(s.repo, s.removals[p].seen))
  }

  lemma EvolvesKeepsEarlier(r: Repo, r': Repo, seen: Upload)
    requires Evolves(r, r') && Earlier(r, seen)
    ensures Earlier(r', seen)
  {
    assert LegalMove(r.records[seen.id], r'.records[seen.id]);
  }

  lemma StoredIsEarlier(r: Repo, id: Id)
    requires WellFormed(r) && id in r.records
    ensures Earlier(r, r.records[id])
  {
  }

  /** A claim hands out the records as it leaves them. */
  lemma ClaimedIsEarlier(r: Repo, batch: seq<Upload>, status: Status, now: int)
    requires WellFormed(r)
    requires forall u :: u in batch ==> u.id in r.records && r.records[u.id] == u
    ensures forall v :: v in ClaimedBatch(batch, status, now) ==> Earlier(ClaimAll(r, batch, status, now), v)
  {
    forall v | v in ClaimedBatch(batch, status, now) ensures Earlier(ClaimAll(r, batch, status, now), v) {
      var i :| 0 <= i < |batch| && ClaimedBatch(batch, status, now)[i] == v;
      assert batch[i] in batch && InBatch(batch, batch[i].id);
    }
  }

  /** The later system holds the earlier one's readings, one of them perhaps handed on to a removal. */
  ghost predicate HandsOn(s: System, s': System) {
    && |s'.completions| == |s.completions|
    && (forall p :: 0 <= p < |s.completions| ==> s'.completions[p].seen == s.completions[p].seen)
    && |s'.verifications| == |s.verifications|
    && (forall p :: 0 <= p < |s.verifications| ==> s'.verifications[p].seen == s.verifications[p].seen)
    && |s'.removals| >= |s.removals|
    && (forall p :: 0 <= p < |s.removals| ==> s'.removals[p].seen == s.removals[p].seen)
    && (forall p :: |s.removals| <= p < |s'.removals| ==>
          exists q :: 0 <= q < |s.verifications| && s'.removals[p].seen == s.verifications[q].seen)
  }

  lemma HandedOnReadings(s: System, s': System)
    requires Readings(s.(repo := s'.repo)) && HandsOn(s, s')
    ensures Readings(s')
  {
    hide Earlier;
  }

  lemma KeptReadings(s: System, s': System)
    requires Readings(s) && Evolves(s.repo, s'.repo) && HandsOn(s, s')
    ensures Readings(s')
  {
    hide Evolves, HandsOn, Readings;
    ReadingsCarryOver(s, s'.repo);
    HandedOnReadings(s, s');
  }

  lemma SameProcessesHandOn(s: System, s': System)
    requires (s'.completions, s'.verifications, s'.removals) == (s.completions, s.verifications, s.removals)
    ensures HandsOn(s, s')
  {
  }

  lemma LoadKeepsReadings(s: System, id: Id)
    requires WellFormed(s.repo) && Readings(s)
    ensures Readings(DoLoadForCompletion(s, id))
  {
    if id in s.repo.records { StoredIsEarlier(s.repo, id); }
    hide Earlier, WellFormed;
  }

  lemma RestagedHandsOn(s: System, s': System, p: nat)
    requires p < |s.completions| == |s'.completions| && s'.completions[p].seen == s.completions[p].seen
    requires forall q :: 0 <= q < |s.completions| && q != p ==> s'.completions[q] == s.completions[q]
    requires (s'.verifications, s'.removals) == (s.verifications, s.removals)
    ensures HandsOn(s, s')
  {
  }

  lemma CompletionHandsOn(s: System, step: CompletionStep)
    requires !step.LoadForCompletion?
    ensures HandsOn(s, CompletionNext(s, step))
  {
    hide Attempt, ValidateParts, HandsOn, UploadAt;
    if step.p < |s.completions| {
      RestagedHandsOn(s, CompletionNext(s, step), step.p);
    } else {
      SameProcessesHandOn(s, CompletionNext(s, step));
    }
  }

  lemma CompletionKeepsReadings(s: System, step: CompletionStep)
    requires WellFormed(s.repo) && Readings(s) && Evolves(s.repo, CompletionNext(s, step).repo)
    ensures Readings(CompletionNext(s, step))
  {
    if step.LoadForCompletion? {
      hide WellFormed, Evolves, Readings, DoLoadForCompletion;
      LoadKeepsReadings(s, step.id);
    } else {
      hide WellFormed, Evolves, Readings, HandsOn, CompletionNext;
      CompletionHandsOn(s, step);
      KeptReadings(s, CompletionNext(s, step));
    }
  }

  lemma VerificationHandsOn(s: System, step: VerificationStep)
    requires WellFormed(s.repo) && !step.ClaimForVerification?
    ensures HandsOn(s, VerificationNext(s, step))
  {
    hide Attempt, WellFormed;
  }

  lemma VerificationKeepsReadings(s: System, step: VerificationStep)
    requires WellFormed(s.repo) && Readings(s) && Evolves(s.repo, VerificationNext(s, step).repo)
    ensures Readings(VerificationNext(s, step))
  {
    hide Evolves, VerificationNext, WellFormed, HandsOn, Readings;
    var s' := VerificationNext(s, step);
    if step.ClaimForVerification? {
      ReadingsCarryOver(s, s'.repo);
      ClaimStepReadings(s, step);
    } else {
      VerificationHandsOn(s, step);
      KeptReadings(s, s');
    }
  }

  lemma ReadingsCarryOver(s: System, r': Repo)
    requires Readings(s) && Evolves(s.repo, r')
    ensures Readings(s.(repo := r'))
  {
    forall p | 0 <= p < |s.completions| ensures Earlier(r', s.completions[p].seen) {
      EvolvesKeepsEarlier(s.repo, r', s.completions[p].seen);
    }
    forall p | 0 <= p < |s.verifications| ensures Earlier(r', s.verifications[p].seen) {
      EvolvesKeepsEarlier(s.repo, r', s.verifications[p].seen);
    }
    forall p | 0 <= p < |s.removals| ensures Earlier(r', s.removals[p].seen) {
      EvolvesKeepsEarlier(s.repo, r', s.removals[p].seen);
    }
  }

  lemma VerificationClaimReadings(s: System, limit: nat, includeStored: bool)
    requires WellFormed(s.repo)
    ensures var s' := StartVerifications(s, limit, includeStored);
            && s'.completions == s.completions && s'.removals == s.removals
            && |s.verifications| <= |s'.verifications|
            && (forall p :: 0 <= p < |s.verifications| ==> s'.verifications[p] == s.verifications[p])
            && (forall p :: |s.verifications| <= p < |s'.verifications| ==> Earlier(s'.repo, s'.verifications[p].seen))
  {
    hide Earlier, VerificationBatch, ClaimAll;
    var batch := VerificationBatch(Values(s.repo), s.now, s.now - STALE_CLAIM, limit, includeStored);
    var claimed := ClaimedBatch(batch, VerifyingActive, s.now);
    var s' := StartVerifications(s, limit, includeStored);
    BatchKnown(s.repo, s.now, s.now - STALE_CLAIM, limit, includeStored);
    ClaimedIsEarlier(s.repo, batch, VerifyingActive, s.now);
    hide WellFormed;
    forall p | |s.verifications| <= p < |s'.verifications| ensures Earlier(s'.repo, s'.verifications[p].seen) {
      assert s'.verifications[p].seen == claimed[p - |s.verifications|];
    }
  }

  lemma ClaimStepReadings(s: System, step: VerificationStep)
    requires WellFormed(s.repo) && step.ClaimForVerification?
    requires Readings(s.(repo := VerificationNext(s, step).repo))
    ensures Readings(VerificationNext(s, step))
  {
    hide Earlier, WellFormed, StartVerifications;
    VerificationClaimReadings(s, Min(Max(step.limit, 1), 8), step.includeStored);
  }

  lemma RemovalClaimReadings(s: System, limit: nat)
    requires WellFormed(s.repo)
    ensures var s' := RemovalNext(s, ClaimForDeletion(limit));
            && s'.completions == s.completions && s'.verifications == s.verifications
            && |s.removals| <= |s'.removals|
            && (forall p :: 0 <= p < |s.removals| ==> s'.removals[p] == s.removals[p])
            && (forall p :: |s.removals| <= p < |s'.removals| ==> Earlier(s'.repo, s'.removals[p].seen))
  {
    hide Earlier, DeletionBatch, ClaimAll;
    var batch := DeletionBatch(Values(s.repo), s.repo.released, s.now, limit);
    var claimed := ClaimedBatch(batch, Deleting, s.now);
    var s' := DoClaimForDeletion(s, limit);
    DeletionBatchKnown(s.repo, s.now, limit);
    ClaimedIsEarlier(s.repo, batch, Deleting, s.now);
    hide WellFormed;
    forall p | |s.removals| <= p < |s'.removals| ensures Earlier(s'.repo, s'.removals[p].seen) {
      assert s'.removals[p].seen == claimed[p - |s.removals|];
    }
  }

  lemma ClaimedRemovalReadings(s: System, limit: nat)
    requires WellFormed(s.repo) && Readings(s.(repo := RemovalNext(s, ClaimForDeletion(limit)).repo))
    ensures Readings(RemovalNext(s, ClaimForDeletion(limit)))
  {
    hide Earlier, WellFormed, RemovalNext;
    RemovalClaimReadings(s, limit);
  }

  lemma RemovalHandsOn(s: System, step: RemovalStep)
    requires WellFormed(s.repo) && !step.ClaimForDeletion?
    ensures HandsOn(s, RemovalNext(s, step))
  {
    hide Attempt, WellFormed;
  }

  lemma RemovalKeepsReadings(s: System, step: RemovalStep)
    requires WellFormed(s.repo) && Readings(s) && Evolves(s.repo, RemovalNext(s, step).repo)
    ensures Readings(RemovalNext(s, step))
  {
    var s' := RemovalNext(s, step);
    if step.ClaimForDeletion? {
      hide Evolves, RemovalNext, WellFormed, Readings;
      ReadingsCarryOver(s, s'.repo);
      ClaimedRemovalReadings(s, step.limit);
    } else {
      hide Evolves, RemovalNext, WellFormed, HandsOn, Readings;
      RemovalHandsOn(s, step);
      KeptReadings(s, s');
    }
  }

  lemma StepKeepsReadings(s: System, step: Step)
    requires WellFormed(s.repo) && Readings(s) && Evolves(s.repo, Next(s, step).repo)
    ensures Readings(Next(s, step))
  {
    hide WellFormed, Evolves, Readings, HandsOn, UploadNext, CompletionNext, AdministratorNext, VerificationNext,
         RemovalNext;
    var s' := Next(s, step);
    match step {
      case OnCompletion(completion) => CompletionKeepsReadings(s, completion);
      case OnVerification(verification) => VerificationKeepsReadings(s, verification);
      case OnRemoval(removal) => RemovalKeepsReadings(s, removal);
      case _ =>
        OthersKeepProcesses(s, step);
        SameProcessesHandOn(s, s');
        KeptReadings(s, s');
    }
  }

  /** Only completion, verification and removal steps move a worker. */
  lemma OthersKeepProcesses(s: System, step: Step)
    requires WellFormed(s.repo) && !step.OnCompletion? && !step.OnVerification? && !step.OnRemoval?
    ensures var s' := Next(s, step);
      (s'.completions, s'.verifications, s'.removals) == (s.completions, s.verifications, s.removals)
  {
    hide WellFormed, UploadNext, AdministratorNext;
    match step {
      case OnUpload(upload) => UploadKeepsProcesses(s, upload);
      case ByAdministrator(request) => AdministratorKeepsProcesses(s, request);
      case _ =>
    }
  }

  /** Upload and administrator steps leave every worker as it is. */
  lemma UploadKeepsProcesses(s: System, step: UploadStep)
    requires WellFormed(s.repo)
    ensures var s' := UploadNext(s, step);
            && (s'.completions, s'.verifications, s'.removals, s'.downloads)
            == (s.completions, s.verifications, s.removals, s.downloads)
            && (s'.now, s'.objects, s'.calls) == (s.now, s.objects, s.calls)
  {
  }

  lemma AdministratorKeepsProcesses(s: System, step: AdministratorStep)
    ensures var s' := AdministratorNext(s, step);
            && (s'.completions, s'.verifications, s'.removals) == (s.completions, s.verifications, s.removals)
            && (s'.now, s'.objects, s'.uploads, s'.calls, s'.restored)
            == (s.now, s.objects, s.uploads, s.calls, s.restored)
  {
    hide Attempt, Audited;
  }

  lemma EvolvesKeepsSafe(r: Repo, r': Repo)
    requires SafeRepo(r) && Evolves(r, r')
    ensures SafeRepo(r')
  {
    forall id, action | id in r'.records && Milestone(action) > 0
      ensures Occurrences(r'.audit, id, action) <= if Reached(r'.records[id].status, action) then 1 else 0
    {
      if id in r.records {
        assert LegalMove(r.records[id], r'.records[id]);
        assert Occurrences(r.audit, id, action) <= if Reached(r.records[id].status, action) then 1 else 0;
      }
    }
    EvolvesKeepsPaid(r, r');
  }

  lemma EvolvesKeepsPaid(r: Repo, r': Repo)
    requires MilestonesPaid(r) && Evolves(r, r')
    ensures MilestonesPaid(r')
  {
    hide Owed, WellFormed, MovesLegally, CountsMilestones;
    NothingOwedYet();
    forall id, action | id in r'.records && Owed(r'.records[id].status, action)
      ensures Occurrences(r'.audit, id, action) > 0
    {
      assert id in r.records;
      assert r'.audit == r.audit + r'.audit[|r.audit|..];
      OccurrencesAppend(r.audit, r'.audit[|r.audit|..], id, action);
    }
  }

  lemma NothingOwedYet()
    ensures forall action :: !Owed(Uploading, action)
  {
  }

  /** A request's reading stays an earlier version of its record. */
  lemma EvolvesKeepsDownload(r: Repo, r': Repo, d: Download)
    requires SafeRepo(r) && Evolves(r, r') && DownloadMatches(r, d)
    ensures DownloadMatches(r', d)
  {
    assert LegalMove(r.records[d.seen.id], r'.records[d.seen.id]);
  }

  /** What a step makes of the p-th request: its earlier reading, or a fresh one of the current record. */
  ghost predicate Derived(s: System, p: nat, d: Download) {
    && (p < |s.downloads| ==> d.startedAt == s.downloads[p].startedAt && d.seen.id == s.downloads[p].seen.id)
    && (|| (p < |s.downloads| && d.seen == s.downloads[p].seen)
        || (d.seen.id in s.repo.records && d.seen == s.repo.records[d.seen.id]))
    && (p >= |s.downloads| ==> d.startedAt < d.seen.expiresAt)
    && (d.stage == Granted ==> d.seen.status == Accepted)
  }

  lemma RequestMoves(s: System, step: AdministratorStep, p: nat)
    requires p < |s.downloads|
    ensures p < |AdministratorNext(s, step).downloads|
    ensures var d, e := AdministratorNext(s, step).downloads[p], s.downloads[p];
      && d.startedAt == e.startedAt
      && (d.seen == e.seen || (e.seen.id in s.repo.records && d.seen == s.repo.records[e.seen.id]))
      && (d.stage == Granted ==> d.seen.status == Accepted || d == e)
  {
    hide Attempt, Audited, AwaitsVerification;
  }

  lemma RequestStarts(s: System, step: AdministratorStep, p: nat)
    requires |s.downloads| <= p < |AdministratorNext(s, step).downloads|
    ensures var d := AdministratorNext(s, step).downloads[p];
      && step.LoadForDownload? && step.id in s.repo.records && d.seen == s.repo.records[step.id]
      && d.startedAt < d.seen.expiresAt && d.stage == Found
  {
    hide Attempt, Audited, AwaitsVerification;
  }

  lemma DownloadsDerived(s: System, step: AdministratorStep, p: nat)
    requires Safe(s) && p < |AdministratorNext(s, step).downloads|
    ensures Derived(s, p, AdministratorNext(s, step).downloads[p])
  {
    SafeIsWellFormed(s);
    if p < |s.downloads| {
      assert DownloadMatches(s.repo, s.downloads[p]);
      RequestMoves(s, step, p);
    } else {
      RequestStarts(s, step, p);
    }
    hide Safe, AdministratorNext;
  }

  lemma DerivedMatches(s: System, p: nat, d: Download, r': Repo)
    requires Safe(s) && Derived(s, p, d) && Evolves(s.repo, r')
    ensures DownloadMatches(r', d)
  {
    assert p < |s.downloads| ==> DownloadMatches(s.repo, s.downloads[p]);
    EvolvesKeepsDownload(s.repo, r', d);
  }

  lemma AdministratorKeepsDownloads(s: System, step: AdministratorStep)
    requires Safe(s)
    ensures DownloadsMatch(AdministratorNext(s, step))
    ensures |AdministratorNext(s, step).downloads| >= |s.downloads|
  {
    hide Evolves, DownloadMatches, Derived;
    var s' := AdministratorNext(s, step);
    AdministratorStepEvolves(s, step);
    forall p | 0 <= p < |s'.downloads| ensures DownloadMatches(s'.repo, s'.downloads[p]) {
      DownloadsDerived(s, step, p);
      DerivedMatches(s, p, s'.downloads[p], s'.repo);
    }
  }

  lemma CompletionKeepsDownloads(s: System, step: CompletionStep)
    ensures CompletionNext(s, step).downloads == s.downloads
  {
    hide Attempt, ValidateParts;
  }

  lemma VerificationKeepsDownloads(s: System, step: VerificationStep)
    requires WellFormed(s.repo)
    ensures VerificationNext(s, step).downloads == s.downloads
  {
    hide WellFormed, Attempt, VerificationBatch, ClaimAll;
  }

  lemma RemovalKeepsDownloads(s: System, step: RemovalStep)
    requires WellFormed(s.repo)
    ensures RemovalNext(s, step).downloads == s.downloads
  {
    hide WellFormed, Attempt, Audited, DeletionBatch, ClaimAll;
  }

  lemma OthersKeepDownloads(s: System, step: Step)
    requires WellFormed(s.repo) && !step.ByAdministrator?
    ensures Next(s, step).downloads == s.downloads
  {
    hide WellFormed, UploadNext, CompletionNext, VerificationNext, RemovalNext;
    match step {
      case Tick(_) =>
      case OnProvider(_) =>
      case OnUpload(upload) => UploadKeepsProcesses(s, upload);
      case OnCompletion(completion) => CompletionKeepsDownloads(s, completion);
      case OnVerification(verification) => VerificationKeepsDownloads(s, verification);
      case OnRemoval(removal) => RemovalKeepsDownloads(s, removal);
    }
  }

  lemma StepKeepsSafe(s: System, step: Step)
    requires Safe(s)
    ensures Safe(Next(s, step)) && Evolves(s.repo, Next(s, step).repo)
    ensures |Next(s, step).downloads| >= |s.downloads|
  {
    hide Evolves;
    var s' := Next(s, step);
    StepEvolves(s, step);
    EvolvesKeepsSafe(s.repo, s'.repo);
    StepKeepsReadings(s, step);
    match step {
      case ByAdministrator(request) => AdministratorKeepsDownloads(s, request);
      case _ =>
        OthersKeepDownloads(s, step);
        forall p | 0 <= p < |s'.downloads| ensures DownloadMatches(s'.repo, s'.downloads[p]) {
          EvolvesKeepsDownload(s.repo, s'.repo, s.downloads[p]);
        }
    }
  }

  /** Where a run of the given steps leads. */
  ghost function RunFrom(s: System, steps: seq<Step>): (t: System)
    requires Safe(s)
    ensures Safe(t)
    decreases |steps|
  {
    if steps == [] then s
    else
      StepKeepsSafe(s, steps[0]);
      RunFrom(Next(s, steps[0]), steps[1..])
  }

  lemma {:induction false} RunFromAppend(s: System, first: seq<Step>, second: seq<Step>)
    requires Safe(s)
    ensures RunFrom(s, first + second) == RunFrom(RunFrom(s, first), second)
    decreases |first|
  {
    hide Safe, Next;
    if first == [] {
      assert first + second == second;
    } else {
      assert (first + second)[1..] == first[1..] + second;
      StepKeepsSafe(s, first[0]);
      RunFromAppend(Next(s, first[0]), first[1..], second);
    }
  }

  lemma RunCons(s: System, step: Step, rest: seq<Step>)
    requires Safe(s)
    ensures WellFormed(s.repo) && Safe(Next(s, step))
    ensures RunFrom(s, [step] + rest) == RunFrom(Next(s, step), rest)
  {
    SafeIsWellFormed(s);
    hide Safe, Next, WellFormed;
    StepKeepsSafe(s, step);
    assert ([step] + rest)[1..] == rest;
  }

  lemma SafeIsWellFormed(s: System)
    requires Safe(s)
    ensures WellFormed(s.repo)
  {
  }

  lemma StartIsSafe()
    ensures Safe(START)
  {
  }

  ghost function Run(steps: seq<Step>): (t: System)
    ensures Safe(t)
  {
    StartIsSafe();
    RunFrom(START, steps)
  }

  lemma RunIsRunFrom(steps: seq<Step>)
    ensures Safe(START) && Run(steps) == RunFrom(START, steps)
  {
    StartIsSafe();
  }

  // ------------------------------------------------------------------ what holds of every run

  /** A record never moves to an earlier phase, keeps its identity, and its grants are never rebound. */
  lemma {:induction false} PhaseNeverGoesBack(s: System, steps: seq<Step>, id: Id)
    requires Safe(s) && id in s.repo.records
    ensures id in RunFrom(s, steps).repo.records
    ensures LegalMove(s.repo.records[id], RunFrom(s, steps).repo.records[id])
    decreases |steps|
  {
    if steps != [] {
      StepKeepsSafe(s, steps[0]);
      var next := Next(s, steps[0]);
      assert LegalMove(s.repo.records[id], next.repo.records[id]);
      PhaseNeverGoesBack(next, steps[1..], id);
    }
  }

  /** In every run each of the four milestone actions is audited at most once per upload. */
  lemma MilestonesAuditedOnce(steps: seq<Step>, id: Id, action: AuditAction)
    requires action in {UploadCompleted, VerificationRequested, VerificationSucceeded, DeletionSucceeded}
    ensures Occurrences(Run(steps).repo.audit, id, action) <= 1
    ensures Occurrences(Run(steps).repo.audit, id, action) == 1 ==>
              id in Run(steps).repo.records && Reached(Run(steps).repo.records[id].status, action)
  {
    var r := Run(steps).repo;
    if id !in r.records {
      OccurrencesOfUnknown(r.audit, id, action);
    }
  }

  /**
   * And it is recorded exactly once when the record is where only that action leads: completed uploads, accepted
   * archives and confirmed deletions are all accounted for.
   */
  lemma MilestonesAuditedExactly(steps: seq<Step>, id: Id)
    requires id in Run(steps).repo.records
    ensures var r := Run(steps).repo;
      var status := r.records[id].status;
      && (status in {Pending, Verifying, VerifyingActive, Accepted} ==> Occurrences(r.audit, id, UploadCompleted) == 1)
      && (status == Accepted ==> Occurrences(r.audit, id, VerificationSucceeded) == 1)
      && (status in {Deleted, Invalid} ==> Occurrences(r.audit, id, DeletionSucceeded) == 1)
  {
    var r := Run(steps).repo;
    var status := r.records[id].status;
    hide Run;
    assert Owed(status, UploadCompleted) ==> Occurrences(r.audit, id, UploadCompleted) > 0;
    assert Owed(status, VerificationSucceeded) ==> Occurrences(r.audit, id, VerificationSucceeded) > 0;
    assert Owed(status, DeletionSucceeded) ==> Occurrences(r.audit, id, DeletionSucceeded) > 0;
    MilestonesAuditedOnce(steps, id, UploadCompleted);
    MilestonesAuditedOnce(steps, id, VerificationSucceeded);
    MilestonesAuditedOnce(steps, id, DeletionSucceeded);
  }

  /** Every request that starts after n others and reads this record reads it on the deletion side or later. */
  ghost predicate LateReadings(s: System, n: nat, id: Id) {
    && id in s.repo.records && Phase(s.repo.records[id].status) >= 5
    && forall p :: n <= p < |s.downloads| && s.downloads[p].seen.id == id ==> Phase(s.downloads[p].seen.status) >= 5
  }

  lemma StepKeepsLateReadings(s: System, step: Step, n: nat, id: Id)
    requires Safe(s) && LateReadings(s, n, id)
    ensures LateReadings(Next(s, step), n, id)
  {
    hide Evolves, Phase, SafeRepo, Readings, UploadNext, CompletionNext, AdministratorNext, VerificationNext,
         RemovalNext, ProviderNext;
    SafeIsWellFormed(s);
    StepEvolves(s, step);
    StillLate(s.repo, Next(s, step).repo, id);
    match step {
      case ByAdministrator(request) => RequestKeepsLateReadings(s, request, n, id);
      case _ => OthersKeepDownloads(s, step);
    }
  }

  lemma StillLate(r: Repo, r': Repo, id: Id)
    requires Evolves(r, r') && id in r.records && Phase(r.records[id].status) >= 5
    ensures id in r'.records && Phase(r'.records[id].status) >= 5
  {
    assert LegalMove(r.records[id], r'.records[id]);
  }

  lemma RequestKeepsLateReadings(s: System, request: AdministratorStep, n: nat, id: Id)
    requires Safe(s) && LateReadings(s, n, id)
    ensures var s' := AdministratorNext(s, request);
      forall p :: n <= p < |s'.downloads| && s'.downloads[p].seen.id == id ==> Phase(s'.downloads[p].seen.status) >= 5
  {
    hide Safe, SafeRepo, Phase, AdministratorNext;
    var s' := AdministratorNext(s, request);
    forall p | n <= p < |s'.downloads| && s'.downloads[p].seen.id == id
      ensures Phase(s'.downloads[p].seen.status) >= 5
    {
      DownloadsDerived(s, request, p);
    }
  }

  /**
   * Once a record is Expired, Deleting or Failed (or deleted), no download request that starts afterwards is
   * ever granted for it, however the run goes on.
   */
  lemma {:induction false} NoDownloadOnceDeleting(s: System, steps: seq<Step>, n: nat, id: Id)
    requires Safe(s) && LateReadings(s, n, id)
    ensures forall p :: n <= p < |RunFrom(s, steps).downloads| && RunFrom(s, steps).downloads[p].seen.id == id ==>
              RunFrom(s, steps).downloads[p].stage != Granted
    decreases |steps|
  {
    if steps == [] {
      forall p | n <= p < |s.downloads| && s.downloads[p].seen.id == id ensures s.downloads[p].stage != Granted {
        assert DownloadMatches(s.repo, s.downloads[p]);
      }
    } else {
      StepKeepsSafe(s, steps[0]);
      StepKeepsLateReadings(s, steps[0], n, id);
      NoDownloadOnceDeleting(Next(s, steps[0]), steps[1..], n, id);
    }
  }

  /** The same from the start: after any run that leaves a record on the deletion side or terminal. */
  lemma NeverDownloadableAgain(steps: seq<Step>, more: seq<Step>, id: Id)
    requires id in Run(steps).repo.records
    requires Run(steps).repo.records[id].status in {Expired, Deleting, Failed, Deleted, Invalid, Rejected}
    ensures var later := RunFrom(Run(steps), more);
      && id in later.repo.records
      && later.repo.records[id].status in {Expired, Deleting, Failed, Deleted, Invalid, Rejected}
      && forall p :: |Run(steps).downloads| <= p < |later.downloads| && later.downloads[p].seen.id == id ==>
           later.downloads[p].stage != Granted
  {
    var s := Run(steps);
    hide Run, RunFrom;
    NoDownloadOnceDeleting(s, more, |s.downloads|, id);
    PhaseNeverGoesBack(s, more, id);
  }

  /** No download is granted to a request that started at or after the end of the 72-hour retention. */
  lemma NoDownloadAfterRetention(steps: seq<Step>, p: nat)
    requires p < |Run(steps).downloads| && Run(steps).downloads[p].stage == Granted
    ensures var s := Run(steps);
            var d := s.downloads[p];
            && d.seen.id in s.repo.records
            && d.startedAt < s.repo.records[d.seen.id].createdAt + 72 * MILLIS_PER_HOUR
            && d.seen.status == Accepted
  {
    var s := Run(steps);
    assert DownloadMatches(s.repo, s.downloads[p]);
    assert Sound(s.repo.records[s.downloads[p].seen.id]);
  }

  /** A completion list accepted against any earlier reading covers the archive with the grants still bound now. */
  lemma CompletionUsesBoundGrants(s: System, steps: seq<Step>, id: Id, parts: seq<Part>)
    requires Safe(s) && id in s.repo.records
    requires ValidateParts(parts, s.repo.records[id]).Ok?
    ensures id in RunFrom(s, steps).repo.records
    ensures var later := RunFrom(s, steps).repo.records[id];
            var completed := ValidateParts(parts, s.repo.records[id]).value;
            && UsesEachOnce(parts, PartCount(later.sizeBytes))
            && |completed| == |parts|
            && (forall i :: 0 <= i < |parts| ==>
                  && parts[i].number in later.multipartParts
                  && completed[i].checksum == later.multipartParts[parts[i].number].sha256
                  && later.multipartParts[parts[i].number].sizeBytes == PartLength(later.sizeBytes, parts[i].number))
            && Sum(Map(parts, PartNumber), GrantedLength(s.repo.records[id])) == later.sizeBytes
  {
    var u := s.repo.records[id];
    assert Sound(u);
    PhaseNeverGoesBack(s, steps, id);
    AcceptedIffEachPartOnce(parts, u);
    AcceptedListCoversTheArchive(parts, u);
    assert forall i :: 0 <= i < |parts| ==> parts[i] in parts;
  }
}
