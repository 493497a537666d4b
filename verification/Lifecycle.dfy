/**
 * The diagnostic lifecycle as a state machine. API requests, verification workers and cleanup workers are
 * processes whose only atomic steps are single repository calls and single storage calls, so a run is any
 * sequence of steps: every interleaving, every storage outcome, and every crash (a process that is never
 * stepped again) is one. A step whose guard does not hold changes nothing.
 *
 * The provider is a process of its own: it may assemble an archive any time after it was asked to, whether or not
 * the asker still waits. What is assumed of it is that a multipart upload is assembled or discarded, never both, so
 * that an answered abort, also by "no such upload", leaves nothing to assemble.
 */
module Lifecycle {
  import opened Options
  import opened Policy
  import opened Uploads
  import opened Multipart

  // ------------------------------------------------------------------ processes

  datatype CompletionStage = Loaded | Owning | Calling | Sizing | Finishing | Failing | Over

  /** A completion request: what it read, and since when it owns the Completing status. */
  datatype Completion = Completion(seen: Upload, since: int, stage: CompletionStage)

  datatype CheckOutcome = Intact | Damaged | Unavailable

  datatype VerificationStage = Checking | Confirmed | Rejecting | Retrying | Closed

  /** A claimed verification: the record as claimed (updatedAt is the claim time), and when its check ended. */
  datatype Verification = Verification(seen: Upload, checkedAt: int, stage: VerificationStage)

  datatype RemovalReason = Retention | Integrity

  /** Cut: the multipart upload is not open any more; Gone: and no version of the object is left. */
  datatype RemovalStage = Claimed | Announced | Cut | Uncut | Gone | Stuck | Settled

  datatype Removal = Removal(seen: Upload, reason: RemovalReason, stage: RemovalStage)

  datatype DownloadStage = Found | Conflicted | Reread | Granted | Refused

  datatype Download = Download(seen: Upload, startedAt: int, stage: DownloadStage)

  /** What became of a record's multipart upload at the provider. */
  datatype MultipartUpload = Open | Assembled | Discarded

  /**
   * objects are the archives the provider stores, uploads its multipart uploads, calls the completion requests it
   * was sent; restored is history for the proofs.
   */
  datatype System = System(
    now: int, repo: Repo, completions: seq<Completion>, verifications: seq<Verification>, removals: seq<Removal>,
    downloads: seq<Download>, objects: set<Id>, uploads: map<Id, MultipartUpload>, calls: multiset<Id>, restored: nat)

  const START := System(0, EMPTY_REPO, [], [], [], [], {}, map[], multiset{}, 0)

  /** Creating an upload and granting its parts. */
  datatype UploadStep =
    | Create(id: Id, install: string, network: string, sizeBytes: nat)
    | BindProvider(id: Id, uploadId: string)
    | AbandonCreation(id: Id)
    | NoteCompensationFailure(id: Id)
    | GrantPart(id: Id, partNumber: int, grant: Grant)

  /** A completion request; p says which one. */
  datatype CompletionStep =
    | LoadForCompletion(id: Id)
    | WinCompletion(p: nat)
    | CallProvider(p: nat, parts: seq<Part>)
    | ProviderReturns(p: nat, ok: bool)
    | SizeChecked(p: nat, ok: bool)
    | FinishCompletion(p: nat)
    | FailCompletion(p: nat)
    | AbandonCompletion(p: nat)

  datatype AdministratorStep =
    | DeleteByAdministrator(id: Id, seen: Status)
    | LoadForDownload(id: Id)
    | QueueVerification(p: nat)
    | ReloadDownload(p: nat)
    | DecideDownload(p: nat)
    | RecordDownload(p: nat)

  datatype VerificationStep =
    | ClaimForVerification(limit: nat, includeStored: bool)
    | CheckObject(p: nat, outcome: CheckOutcome)
    | AcceptVerified(p: nat)
    | RejectDamaged(p: nat)
    | RetryVerification(p: nat)
    | AbandonVerification(p: nat)

  datatype RemovalStep =
    | ClaimForDeletion(limit: nat)
    | AnnounceRemoval(p: nat)
    | AbortUpload(p: nat, answered: bool, effective: bool)
    | DeleteVersions(p: nat, ok: bool, gone: bool)
    | FinishRemoval(p: nat)
    | FailRemoval(p: nat)
    | RetryRemoval(p: nat)
    | AbandonRemoval(p: nat)

  /** The provider assembling an archive, or dropping an unfinished upload by its lifecycle rule or when told to. */
  datatype ProviderStep =
    | Assemble(id: Id)
    | DropUnfinished(id: Id)

  datatype Step =
    | Tick(elapsed: nat)
    | OnProvider(provider: ProviderStep)
    | OnUpload(upload: UploadStep)
    | OnCompletion(completion: CompletionStep)
    | ByAdministrator(request: AdministratorStep)
    | OnVerification(verification: VerificationStep)
    | OnRemoval(removal: RemovalStep)

  // ------------------------------------------------------------------ requests

  function NewUpload(id: Id, install: string, network: string, sizeBytes: nat, now: int, expiresAt: int): Upload {
    Upload(id, install, network, sizeBytes, Uploading, now, None, expiresAt, None, map[], 0, None, 0, None, now)
  }

  /** The request schema admits positive sizes up to the maximum; ids are fresh random UUIDs. */
  ghost function DoCreate(s: System, id: Id, install: string, network: string, sizeBytes: nat): System
    requires WellFormed(s.repo)
  {
    if id in s.repo.records || install == "" || sizeBytes < 1 then s
    else
      match DecideUpload(sizeBytes, s.now)
      case Err(_) => s
      case Ok(decision) =>
        var record := NewUpload(id, install, network, sizeBytes, s.now, decision.expiresAt);
        match InsertWithinQuota(s.repo, record, s.now - 24 * MILLIS_PER_HOUR, DIAGNOSTIC_QUOTA, Event(UploadCreated, s.now))
        case Err(_) => s
        case Ok(outcome) => if outcome.1 then s.(repo := outcome.0, restored := 0) else s
  }

  /** The state after a repository call, and whether it applied; a call that throws changes nothing. */
  function Outcome(r: Repo, result: Result<(Repo, bool), Failure>): (Repo, bool) {
    match result case Err(_) => (r, false) case Ok(outcome) => outcome
  }

  function Attempt(s: System, id: Id, expected: set<Status>, change: Change): (Repo, bool) {
    Outcome(s.repo, Transition(s.repo, id, expected, change, s.now))
  }

  function Audited(r: Repo, id: Id, event: Event): Repo {
    match AppendAudit(r, id, event) case Err(_) => r case Ok(r') => r'
  }

  /** A creation binds its one multipart upload once; an upload that could not be bound is known to nobody. */
  function DoBindProvider(s: System, id: Id, uploadId: string): System {
    if id !in s.repo.records || s.repo.records[id].providerUploadId.Some? then s
    else
      var (repo, bound) := Outcome(s.repo, SetProviderUploadId(s.repo, id, uploadId, s.now));
      if bound then s.(repo := repo, uploads := s.uploads[id := Open]) else s
  }

  function DoAbandonCreation(s: System, id: Id): System {
    s.(repo := Attempt(s, id, {Uploading}, To(Failed)).0)
  }

  /** A grant is registered only for a declared part, with that part's length, on a multipart upload. */
  function DoGrantPart(s: System, id: Id, partNumber: int, grant: Grant): System {
    if id !in s.repo.records || s.repo.records[id].providerUploadId.None? then s
    else
      var size := s.repo.records[id].sizeBytes;
      if partNumber < 1 || partNumber > PartCount(size) || grant.sizeBytes != PartLength(size, partNumber) then s
      else s.(repo := Outcome(s.repo, RegisterPartGrant(s.repo, id, partNumber, grant, s.now)).0)
  }

  // ------------------------------------------------------------------ the provider

  predicate UploadAt(s: System, id: Id, state: MultipartUpload) {
    id in s.uploads && s.uploads[id] == state
  }

  function Discard(uploads: map<Id, MultipartUpload>, id: Id): map<Id, MultipartUpload> {
    if id in uploads && uploads[id] == Open then uploads[id := Discarded] else uploads
  }

  function DoAssemble(s: System, id: Id): System {
    if s.calls[id] > 0 && UploadAt(s, id, Open) then
      s.(objects := s.objects + {id}, uploads := s.uploads[id := Assembled])
    else s
  }

  function ProviderNext(s: System, step: ProviderStep): System {
    match step
    case Assemble(id) => DoAssemble(s, id)
    case DropUnfinished(id) => s.(uploads := Discard(s.uploads, id))
  }

  // ------------------------------------------------------------------ completion

  predicate StillUploading(u: Upload, now: int) {
    u.status == Uploading && u.createdAt + 12 * MILLIS_PER_HOUR > now
  }

  function DoLoadForCompletion(s: System, id: Id): System {
    if id !in s.repo.records || !StillUploading(s.repo.records[id], s.now) then s
    else s.(completions := s.completions + [Completion(s.repo.records[id], s.now, Loaded)])
  }

  predicate CompletionAt(s: System, p: nat, stage: CompletionStage) {
    p < |s.completions| && s.completions[p].stage == stage
  }

  function SetCompletion(s: System, p: nat, stage: CompletionStage): System
    requires p < |s.completions|
  {
    s.(completions := s.completions[p := s.completions[p].(stage := stage)])
  }

  function DoWinCompletion(s: System, p: nat): System {
    if !CompletionAt(s, p, Loaded) then s
    else
      var (repo, won) := Attempt(s, s.completions[p].seen.id, {Uploading}, To(Completing));
      if !won then SetCompletion(s, p, Over)
      else s.(repo := repo, completions := s.completions[p := s.completions[p].(since := s.now, stage := Owning)])
  }

  function DoCallProvider(s: System, p: nat, parts: seq<Part>): System {
    if !CompletionAt(s, p, Owning) then s
    else
      var seen := s.completions[p].seen;
      if seen.providerUploadId.None? || ValidateParts(parts, seen).Err? then SetCompletion(s, p, Failing)
      else SetCompletion(s, p, Calling).(calls := s.calls + multiset{seen.id})
  }

  /** Success is answered only for an assembled archive; an error, a timeout for one, says nothing about it. */
  function DoProviderReturns(s: System, p: nat, ok: bool): System {
    if !CompletionAt(s, p, Calling) then s
    else if !ok then SetCompletion(s, p, Failing)
    else if UploadAt(s, s.completions[p].seen.id, Assembled) then SetCompletion(s, p, Sizing)
    else s
  }

  function DoSizeChecked(s: System, p: nat, ok: bool): System {
    if !CompletionAt(s, p, Sizing) then s else SetCompletion(s, p, if ok then Finishing else Failing)
  }

  function DoFinishCompletion(s: System, p: nat): System {
    if !CompletionAt(s, p, Finishing) then s
    else
      var change := To(Pending).(providerUploadId := Some(None), audit := Some(Event(UploadCompleted, s.now)));
      var (repo, done) := Attempt(s, s.completions[p].seen.id, {Completing}, change);
      SetCompletion(s, p, if done then Over else Failing).(repo := repo)
  }

  function DoFailCompletion(s: System, p: nat): System {
    if !CompletionAt(s, p, Failing) then s
    else SetCompletion(s, p, Over).(repo := Attempt(s, s.completions[p].seen.id, {Completing}, To(Failed)).0)
  }

  function DoAbandonCompletion(s: System, p: nat): System {
    if p < |s.completions| then SetCompletion(s, p, Over) else s
  }

  // ------------------------------------------------------------------ administrators

  predicate Deletable(status: Status) {
    status in {Uploading, Verifying, Pending, Accepted, Failed, Expired}
  }

  function DoDeleteByAdministrator(s: System, id: Id, seen: Status): System {
    if !Deletable(seen) then s
    else s.(repo := Attempt(s, id, {seen}, To(Expired).(audit := Some(Event(ModerationDelete, s.now)))).0)
  }

  function DoLoadForDownload(s: System, id: Id): System {
    if id !in s.repo.records || s.repo.records[id].expiresAt <= s.now then s
    else s.(downloads := s.downloads + [Download(s.repo.records[id], s.now, Found)])
  }

  predicate DownloadAt(s: System, p: nat, stage: DownloadStage) {
    p < |s.downloads| && s.downloads[p].stage == stage
  }

  function SetDownload(s: System, p: nat, stage: DownloadStage): System
    requires p < |s.downloads|
  {
    s.(downloads := s.downloads[p := s.downloads[p].(stage := stage)])
  }

  predicate AwaitsVerification(u: Upload) { u.status == Pending && u.acceptanceDeadline.None? }

  function DoQueueVerification(s: System, p: nat): System {
    if !DownloadAt(s, p, Found) || !AwaitsVerification(s.downloads[p].seen) then s
    else
      var d := s.downloads[p];
      var deadline := Min(d.seen.expiresAt, d.startedAt + 24 * MILLIS_PER_HOUR);
      var change := To(Verifying).(acceptanceDeadline := Some(Some(deadline)),
                                   audit := Some(Event(VerificationRequested, d.startedAt)));
      var (repo, queued) := Attempt(s, d.seen.id, {Pending}, change);
      SetDownload(s, p, if queued then Refused else Conflicted).(repo := repo)
  }

  function DoReloadDownload(s: System, p: nat): System {
    if !DownloadAt(s, p, Conflicted) || s.downloads[p].seen.id !in s.repo.records then s
    else
      var d := s.downloads[p];
      s.(downloads := s.downloads[p := Download(s.repo.records[d.seen.id], d.startedAt, Reread)])
  }

  /** The address is handed out exactly when the record as last read is Accepted. */
  function DoDecideDownload(s: System, p: nat): System {
    if DownloadAt(s, p, Reread) || (DownloadAt(s, p, Found) && !AwaitsVerification(s.downloads[p].seen)) then
      SetDownload(s, p, if s.downloads[p].seen.status == Accepted then Granted else Refused)
    else s
  }

  function DoRecordDownload(s: System, p: nat): System {
    if !DownloadAt(s, p, Granted) then s
    else s.(repo := Audited(s.repo, s.downloads[p].seen.id, Event(DownloadRequested, s.downloads[p].startedAt)))
  }

  // ------------------------------------------------------------------ verification worker

  const STALE_CLAIM := 6 * MILLIS_PER_HOUR

  function Started(batch: seq<Upload>): (vs: seq<Verification>)
    ensures |vs| == |batch| && forall i :: 0 <= i < |vs| ==> vs[i] == Verification(batch[i], batch[i].updatedAt, Checking)
  {
    seq(|batch|, i requires 0 <= i < |batch| => Verification(batch[i], batch[i].updatedAt, Checking))
  }

  /** verifyPending claims at least one and at most eight records at a time. */
  function DoClaimForVerification(s: System, limit: nat, includeStored: bool): System
    requires WellFormed(s.repo)
  {
    StartVerifications(s, Min(Max(limit, 1), 8), includeStored)
  }

  function StartVerifications(s: System, limit: nat, includeStored: bool): System
    requires WellFormed(s.repo)
  {
    var batch := VerificationBatch(Values(s.repo), s.now, s.now - STALE_CLAIM, limit, includeStored);
    s.(repo := ClaimVerification(s.repo, s.now, s.now - STALE_CLAIM, limit, includeStored),
       verifications := s.verifications + Started(ClaimedBatch(batch, VerifyingActive, s.now)))
  }

  predicate VerificationAt(s: System, p: nat, stage: VerificationStage) {
    p < |s.verifications| && s.verifications[p].stage == stage
  }

  function SetVerification(s: System, p: nat, stage: VerificationStage): System
    requires p < |s.verifications|
  {
    s.(verifications := s.verifications[p := s.verifications[p].(stage := stage)])
  }

  function DoCheckObject(s: System, p: nat, outcome: CheckOutcome): System {
    if !VerificationAt(s, p, Checking) then s
    else
      var stage := match outcome case Intact => Confirmed case Damaged => Rejecting case Unavailable => Retrying;
      s.(verifications := s.verifications[p := s.verifications[p].(checkedAt := s.now, stage := stage)])
  }

  /** A finalization that lost its record is an error that is not permanent, so it falls through to the retry. */
  function DoAcceptVerified(s: System, p: nat): System {
    if !VerificationAt(s, p, Confirmed) then s
    else
      var change := To(Accepted).(acceptanceDeadline := Some(None), audit := Some(Event(VerificationSucceeded, s.now)));
      var (repo, accepted) := Attempt(s, s.verifications[p].seen.id, {VerifyingActive}, change);
      SetVerification(s, p, if accepted then Closed else Retrying).(repo := repo)
  }

  function DoRejectDamaged(s: System, p: nat): System {
    if !VerificationAt(s, p, Rejecting) then s
    else
      var seen := s.verifications[p].seen;
      var change := To(Deleting).(audit := Some(Event(VerificationFailed, s.now)));
      var (repo, rejected) := Attempt(s, seen.id, {VerifyingActive}, change);
      var closed := SetVerification(s, p, Closed).(repo := repo);
      if rejected then closed.(removals := s.removals + [Removal(seen, Integrity, Announced)]) else closed
  }

  function DoRetryVerification(s: System, p: nat): System {
    if !VerificationAt(s, p, Retrying) then s
    else
      var seen := s.verifications[p].seen;
      var attempt := seen.verificationAttempts + 1;
      var repo :=
        if attempt >= VERIFICATION_MAXIMUM_ATTEMPTS || VerificationEnd(seen) <= s.now then
          Attempt(s, seen.id, {VerifyingActive}, To(Expired).(audit := Some(Event(VerificationFailed, s.now)))).0
        else
          Outcome(s.repo, ScheduleVerificationRetry(s.repo, seen.id, s.now + VerificationRetryDelay(attempt), s.now)).0;
      SetVerification(s, p, Closed).(repo := repo)
  }

  function DoAbandonVerification(s: System, p: nat): System {
    if p < |s.verifications| then SetVerification(s, p, Closed) else s
  }

  // ------------------------------------------------------------------ cleanup worker

  function Removals(batch: seq<Upload>): (rs: seq<Removal>)
    ensures |rs| == |batch| && forall i :: 0 <= i < |rs| ==> rs[i] == Removal(batch[i], Retention, Claimed)
  {
    seq(|batch|, i requires 0 <= i < |batch| => Removal(batch[i], Retention, Claimed))
  }

  function DoClaimForDeletion(s: System, limit: nat): System
    requires WellFormed(s.repo)
  {
    var batch := DeletionBatch(Values(s.repo), s.repo.released, s.now, limit);
    s.(repo := ClaimExpired(s.repo, s.now, limit),
       removals := s.removals + Removals(ClaimedBatch(batch, Deleting, s.now)))
  }

  predicate RemovalAt(s: System, p: nat, stage: RemovalStage) {
    p < |s.removals| && s.removals[p].stage == stage
  }

  function SetRemoval(s: System, p: nat, stage: RemovalStage): System
    requires p < |s.removals|
  {
    s.(removals := s.removals[p := s.removals[p].(stage := stage)])
  }

  function DoAnnounceRemoval(s: System, p: nat): System {
    if !RemovalAt(s, p, Claimed) then s
    else SetRemoval(s, p, Announced).(repo := Audited(s.repo, s.removals[p].seen.id, Event(DeletionClaimed, s.now)))
  }

  /** Cleanup passes the upload id it read, an integrity rejection none. */
  predicate NamesUpload(removal: Removal) {
    removal.reason == Retention && removal.seen.providerUploadId.Some?
  }

  /** The first half of remove: abort the multipart upload, if one is named; an unanswered abort may still work. */
  function DoAbortUpload(s: System, p: nat, answered: bool, effective: bool): System {
    if !RemovalAt(s, p, Announced) then s
    else if !NamesUpload(s.removals[p]) then SetRemoval(s, p, Cut)
    else
      var uploads := if answered || effective then Discard(s.uploads, s.removals[p].seen.id) else s.uploads;
      SetRemoval(s, p, if answered then Cut else Uncut).(uploads := uploads)
  }

  /**
   * The second half: delete every version and list none. A failed deletion may have worked too, and a deletion after
   * a failed abort ends in that error.
   */
  function DoDeleteVersions(s: System, p: nat, ok: bool, gone: bool): System {
    if !RemovalAt(s, p, Cut) && !RemovalAt(s, p, Uncut) then s
    else
      var objects := if ok || gone then s.objects - {s.removals[p].seen.id} else s.objects;
      SetRemoval(s, p, if ok && s.removals[p].stage == Cut then Gone else Stuck).(objects := objects)
  }

  function RemovalChange(reason: RemovalReason, now: int): Change {
    match reason
    case Retention => To(Deleted).(providerUploadId := Some(None), audit := Some(Event(DeletionSucceeded, now)))
    case Integrity => To(Invalid).(audit := Some(Event(DeletionSucceeded, now)))
  }

  /** Cleanup ignores a lost record; an integrity rejection treats it as a failure and schedules a retry. */
  function DoFinishRemoval(s: System, p: nat): System {
    if !RemovalAt(s, p, Gone) then s
    else
      var removal := s.removals[p];
      var (repo, done) := Attempt(s, removal.seen.id, {Deleting}, RemovalChange(removal.reason, s.now));
      SetRemoval(s, p, if !done && removal.reason == Integrity then Stuck else Settled).(repo := repo)
  }

  /** A repository error in the finishing call also ends in the retry. */
  function DoFailRemoval(s: System, p: nat): System {
    if RemovalAt(s, p, Gone) || RemovalAt(s, p, Claimed) then SetRemoval(s, p, Stuck) else s
  }

  function DoRetryRemoval(s: System, p: nat): System {
    if !RemovalAt(s, p, Stuck) then s
    else
      var seen := s.removals[p].seen;
      var delay := DeletionRetryDelay(seen.deletionAttempts + 1);
      var (repo, scheduled) := Outcome(s.repo, ScheduleDeletionRetry(s.repo, seen.id, s.now + delay,
                                                                     Event(DeletionRetryScheduled, s.now), s.now));
      var back := if scheduled && seen.id in s.repo.released then seen.sizeBytes else 0;
      SetRemoval(s, p, Settled).(repo := repo, restored := s.restored + back)
  }

  function DoAbandonRemoval(s: System, p: nat): System {
    if p < |s.removals| then SetRemoval(s, p, Settled) else s
  }

  // ------------------------------------------------------------------ runs

  ghost function UploadNext(s: System, step: UploadStep): System
    requires WellFormed(s.repo)
  {
    match step
    case Create(id, install, network, size) => DoCreate(s, id, install, network, size)
    case BindProvider(id, uploadId) => DoBindProvider(s, id, uploadId)
    case AbandonCreation(id) => DoAbandonCreation(s, id)
    case NoteCompensationFailure(id) => s.(repo := Audited(s.repo, id, Event(CompensationFailed, s.now)))
    case GrantPart(id, partNumber, grant) => DoGrantPart(s, id, partNumber, grant)
  }

  function CompletionNext(s: System, step: CompletionStep): System {
    match step
    case LoadForCompletion(id) => DoLoadForCompletion(s, id)
    case WinCompletion(p) => DoWinCompletion(s, p)
    case CallProvider(p, parts) => DoCallProvider(s, p, parts)
    case ProviderReturns(p, ok) => DoProviderReturns(s, p, ok)
    case SizeChecked(p, ok) => DoSizeChecked(s, p, ok)
    case FinishCompletion(p) => DoFinishCompletion(s, p)
    case FailCompletion(p) => DoFailCompletion(s, p)
    case AbandonCompletion(p) => DoAbandonCompletion(s, p)
  }

  function AdministratorNext(s: System, step: AdministratorStep): System {
    match step
    case DeleteByAdministrator(id, seen) => DoDeleteByAdministrator(s, id, seen)
    case LoadForDownload(id) => DoLoadForDownload(s, id)
    case QueueVerification(p) => DoQueueVerification(s, p)
    case ReloadDownload(p) => DoReloadDownload(s, p)
    case DecideDownload(p) => DoDecideDownload(s, p)
    case RecordDownload(p) => DoRecordDownload(s, p)
  }

  function VerificationNext(s: System, step: VerificationStep): System
    requires WellFormed(s.repo)
  {
    match step
    case ClaimForVerification(limit, includeStored) => DoClaimForVerification(s, limit, includeStored)
    case CheckObject(p, outcome) => DoCheckObject(s, p, outcome)
    case AcceptVerified(p) => DoAcceptVerified(s, p)
    case RejectDamaged(p) => DoRejectDamaged(s, p)
    case RetryVerification(p) => DoRetryVerification(s, p)
    case AbandonVerification(p) => DoAbandonVerification(s, p)
  }

  function RemovalNext(s: System, step: RemovalStep): System
    requires WellFormed(s.repo)
  {
    match step
    case ClaimForDeletion(limit) => DoClaimForDeletion(s, limit)
    case AnnounceRemoval(p) => DoAnnounceRemoval(s, p)
    case AbortUpload(p, answered, effective) => DoAbortUpload(s, p, answered, effective)
    case DeleteVersions(p, ok, gone) => DoDeleteVersions(s, p, ok, gone)
    case FinishRemoval(p) => DoFinishRemoval(s, p)
    case FailRemoval(p) => DoFailRemoval(s, p)
    case RetryRemoval(p) => DoRetryRemoval(s, p)
    case AbandonRemoval(p) => DoAbandonRemoval(s, p)
  }

  ghost function Next(s: System, step: Step): System
    requires WellFormed(s.repo)
  {
    match step
    case Tick(elapsed) => s.(now := s.now + elapsed)
    case OnProvider(provider) => ProviderNext(s, provider)
    case OnUpload(upload) => UploadNext(s, upload)
    case OnCompletion(completion) => CompletionNext(s, completion)
    case ByAdministrator(request) => AdministratorNext(s, request)
    case OnVerification(verification) => VerificationNext(s, verification)
    case OnRemoval(removal) => RemovalNext(s, removal)
  }
}
