/**
 * Whole service calls, from first step to last, when nothing comes between: a completion, a download request and a
 * removal, each with what it leaves of the record, the audit and the provider.
 */
module ServiceCalls {
  import opened Options
  import opened Uploads
  import opened Multipart
  import opened Lifecycle
  import Policy

  /** One record becomes u and one event is appended; nothing else of the repository changes. */
  ghost predicate Becomes(r: Repo, r': Repo, u: Upload, action: AuditAction, at: int) {
    && r'.records == r.records[u.id := u] && (r'.order, r'.released) == (r.order, r.released)
    && r'.audit == r.audit + [AuditRecord(|r.audit| + 1, u.id, Event(action, at))]
  }

  ghost predicate Stored(r: Repo, id: Id, u: Upload) {
    id in r.records && r.records[id] == u && u.id == id
  }

  /** One record becomes u without an audit event. */
  ghost predicate QuietlyBecomes(s: System, s': System, u: Upload) {
    && s'.repo == s.repo.(records := s.repo.records[u.id := u])
    && (s'.now, s'.objects, s'.calls, s'.completions, s'.verifications, s'.removals, s'.downloads)
      == (s.now, s.objects, s.calls, s.completions, s.verifications, s.removals, s.downloads)
  }

  // ------------------------------------------------------------------ uploading

  /** A creation binds its multipart upload to a record still Uploading that has none, and opens it. */
  lemma BindStores(s: System, id: Id, uploadId: string, u: Upload)
    requires Stored(s.repo, id, u)
    ensures var s' := DoBindProvider(s, id, uploadId);
      if u.status == Uploading && u.providerUploadId.None? then
        QuietlyBecomes(s, s', u.(providerUploadId := Some(uploadId), updatedAt := s.now))
        && s'.uploads == s.uploads[id := Open]
      else s' == s
  {
  }

  /** A creation that failed gives its record up. */
  lemma AbandonStores(s: System, id: Id, u: Upload)
    requires Stored(s.repo, id, u)
    ensures var s' := DoAbandonCreation(s, id);
      if u.status == Uploading then QuietlyBecomes(s, s', u.(status := Failed, updatedAt := s.now))
      else s' == s
  {
  }

  /** A part is granted with its own length, on a bound record still Uploading, and never granted otherwise again. */
  lemma GrantStores(s: System, id: Id, part: int, grant: Grant, u: Upload)
    requires Stored(s.repo, id, u)
    ensures var s' := DoGrantPart(s, id, part, grant);
      if && u.status == Uploading && u.providerUploadId.Some?
         && 1 <= part <= Policy.PartCount(u.sizeBytes) && grant.sizeBytes == Policy.PartLength(u.sizeBytes, part)
         && (part in u.multipartParts ==> u.multipartParts[part] == grant)
      then QuietlyBecomes(s, s', u.(multipartParts := u.multipartParts[part := grant], updatedAt := s.now))
      else s' == s
  {
    hide Policy.PartCount, Policy.PartLength;
  }

  /** An administrator's deletion of a record as it was seen: expired from now on, and audited. */
  lemma DeletionStores(s: System, id: Id, seen: Status, u: Upload)
    requires Stored(s.repo, id, u)
    ensures var s' := DoDeleteByAdministrator(s, id, seen);
      if u.status == seen && seen != Completing && seen != VerifyingActive && seen != Deleting && !Terminal(seen) then
        Becomes(s.repo, s'.repo, u.(status := Expired, updatedAt := s.now), ModerationDelete, s.now)
        && s' == s.(repo := s'.repo)
      else s' == s
  {
  }

  // ------------------------------------------------------------------ completion

  /** Read, claimed, and sent to the provider, which assembles the archive and says so. */
  function AfterAssembly(s: System, id: Id, parts: seq<Part>): System {
    var p := |s.completions|;
    var called := DoCallProvider(DoWinCompletion(DoLoadForCompletion(s, id), p), p, parts);
    DoProviderReturns(DoAssemble(called, id), p, true)
  }

  lemma AssemblySteps(s: System, id: Id, parts: seq<Part>, u: Upload)
    requires Stored(s.repo, id, u) && u.status == Uploading && s.now < u.createdAt + 43_200_000
    requires u.providerUploadId.Some? && ValidateParts(parts, u).Ok? && UploadAt(s, id, Open)
    ensures var s' := AfterAssembly(s, id, parts);
      && s'.repo == s.repo.(records := s.repo.records[id := u.(status := Completing, updatedAt := s.now)])
      && (s'.now, s'.objects, s'.calls) == (s.now, s.objects + {id}, s.calls + multiset{id})
      && UploadAt(s', id, Assembled)
      && CompletionAt(s', |s.completions|, Sizing) && s'.completions[|s.completions|].seen == u
  {
    hide ValidateParts;
    var p := |s.completions|;
    var loaded := DoLoadForCompletion(s, id);
    assert CompletionAt(loaded, p, Loaded) && loaded.completions[p].seen == u && loaded.repo == s.repo;
    var won := DoWinCompletion(loaded, p);
    assert CompletionAt(won, p, Owning) && won.completions[p].seen == u;
    assert won.repo == s.repo.(records := s.repo.records[id := u.(status := Completing, updatedAt := s.now)]);
    hide DoWinCompletion, DoLoadForCompletion, Attempt;
    var called := DoCallProvider(won, p, parts);
    assert CompletionAt(called, p, Calling) && called.calls[id] > 0;
  }

  /** A size that agrees makes it Pending, with the provider's id cleared and the completion in the audit. */
  lemma CompletionStores(s: System, id: Id, parts: seq<Part>, u: Upload)
    requires Stored(s.repo, id, u) && u.status == Uploading && s.now < u.createdAt + 43_200_000
    requires u.providerUploadId.Some? && ValidateParts(parts, u).Ok? && UploadAt(s, id, Open)
    ensures var p := |s.completions|;
      var s' := DoFinishCompletion(DoSizeChecked(AfterAssembly(s, id, parts), p, true), p);
      && Becomes(s.repo, s'.repo, u.(status := Pending, providerUploadId := None, updatedAt := s.now),
                 UploadCompleted, s.now)
      && id in s'.objects && UploadAt(s', id, Assembled) && CompletionAt(s', p, Over)
  {
    hide ValidateParts, AfterAssembly, DoFinishCompletion, Becomes;
    AssemblySteps(s, id, parts, u);
    var p := |s.completions|;
    var middle := AfterAssembly(s, id, parts);
    SizeConfirmed(middle, p);
    var sized := DoSizeChecked(middle, p, true);
    hide DoSizeChecked;
    FinishBecomes(sized, p, u);
    BecomesInStages(s.repo, middle.repo, DoFinishCompletion(sized, p).repo, u.(status := Completing, updatedAt := s.now),
                    u.(status := Pending, providerUploadId := None, updatedAt := s.now), UploadCompleted, s.now);
  }

  lemma SizeConfirmed(s: System, p: nat)
    requires CompletionAt(s, p, Sizing)
    ensures var s' := DoSizeChecked(s, p, true);
      && CompletionAt(s', p, Finishing) && s'.completions[p].seen == s.completions[p].seen
      && (s'.now, s'.repo, s'.objects, s'.uploads) == (s.now, s.repo, s.objects, s.uploads)
  {
  }

  lemma BecomesInStages(r: Repo, middle: Repo, r': Repo, first: Upload, last: Upload, action: AuditAction, at: int)
    requires middle == r.(records := r.records[first.id := first]) && first.id == last.id
    requires Becomes(middle, r', last, action, at)
    ensures Becomes(r, r', last, action, at)
  {
    assert middle.records[last.id := last] == r.records[last.id := last];
  }

  lemma FinishBecomes(s: System, p: nat, u: Upload)
    requires CompletionAt(s, p, Finishing) && s.completions[p].seen == u
    requires Stored(s.repo, u.id, u.(status := Completing, updatedAt := s.now))
    ensures var s' := DoFinishCompletion(s, p);
      && Becomes(s.repo, s'.repo, u.(status := Pending, providerUploadId := None, updatedAt := s.now),
                 UploadCompleted, s.now)
      && (s'.objects, s'.uploads) == (s.objects, s.uploads) && CompletionAt(s', p, Over)
  {
  }

  /** The record a request read, as it is now, is no longer Uploading. */
  predicate NotUploading(r: Repo, id: Id) { id in r.records ==> r.records[id].status != Uploading }

  /** A completion begins only while its record is Uploading and less than twelve hours old, and only one claims it. */
  lemma CompletionIsRefused(s: System, id: Id, p: nat)
    ensures NotUploading(s.repo, id) ==> DoLoadForCompletion(s, id) == s
    ensures id in s.repo.records && s.repo.records[id].createdAt + 43_200_000 <= s.now ==> DoLoadForCompletion(s, id) == s
    ensures CompletionAt(s, p, Loaded) && NotUploading(s.repo, s.completions[p].seen.id) ==>
      var s' := DoWinCompletion(s, p);
      CompletionAt(s', p, Over) && s' == s.(completions := s'.completions)
  {
  }

  /** A size that disagrees, a list that is refused or an error of the provider makes it Failed. */
  lemma CompletionFails(s: System, p: nat, u: Upload, parts: seq<Part>)
    requires p < |s.completions| && s.completions[p].seen == u
    requires u.id in s.repo.records && s.repo.records[u.id].status == Completing && s.repo.records[u.id].id == u.id
    ensures CompletionAt(s, p, Owning) && (u.providerUploadId.None? || ValidateParts(parts, u).Err?) ==>
      FailsInstead(s, DoFailCompletion(DoCallProvider(s, p, parts), p), u.id)
    ensures CompletionAt(s, p, Calling) ==> FailsInstead(s, DoFailCompletion(DoProviderReturns(s, p, false), p), u.id)
    ensures CompletionAt(s, p, Sizing) ==> FailsInstead(s, DoFailCompletion(DoSizeChecked(s, p, false), p), u.id)
  {
    hide ValidateParts;
  }

  ghost predicate FailsInstead(s: System, s': System, id: Id)
    requires id in s.repo.records
  {
    && s'.repo == s.repo.(records := s.repo.records[id := s.repo.records[id].(status := Failed, updatedAt := s.now)])
    && (s'.objects, s'.uploads, s'.calls) == (s.objects, s.uploads, s.calls)
  }

  // ------------------------------------------------------------------ download

  /**
   * An expired record is not found. An Accepted one is granted, and the grant is audited; any other that is not to be
   * queued is refused.
   */
  lemma RequestDecides(s: System, id: Id, u: Upload)
    requires Stored(s.repo, id, u) && !(u.status == Pending && u.acceptanceDeadline.None?)
    ensures u.expiresAt <= s.now ==> DoLoadForDownload(s, id) == s
    ensures s.now < u.expiresAt ==>
      var p := |s.downloads|;
      var decided := DoDecideDownload(DoLoadForDownload(s, id), p);
      && decided == s.(downloads := s.downloads + [Download(u, s.now, if u.status == Accepted then Granted else Refused)])
      && (u.status == Accepted ==> Becomes(s.repo, DoRecordDownload(decided, p).repo, u, DownloadRequested, s.now))
      && (u.status != Accepted ==> DoRecordDownload(decided, p) == decided)
  {
    if s.now < u.expiresAt {
      var p := |s.downloads|;
      var loaded := DoLoadForDownload(s, id);
      assert loaded.downloads[p := Download(u, s.now, Granted)] == s.downloads + [Download(u, s.now, Granted)];
      assert loaded.downloads[p := Download(u, s.now, Refused)] == s.downloads + [Download(u, s.now, Refused)];
    }
    assert s.repo.records[id := u] == s.repo.records;
  }

  /** A stored record that nobody verified yet is queued, until a day later or its expiry, and refused for now. */
  lemma RequestQueues(s: System, id: Id, u: Upload)
    requires Stored(s.repo, id, u) && s.now < u.expiresAt && u.status == Pending && u.acceptanceDeadline.None?
    ensures var p := |s.downloads|;
      var loaded := DoLoadForDownload(s, id);
      var queued := DoQueueVerification(loaded, p);
      var deadline := if u.expiresAt < s.now + 86_400_000 then u.expiresAt else s.now + 86_400_000;
      && DoDecideDownload(loaded, p) == loaded
      && Becomes(s.repo, queued.repo, u.(status := Verifying, acceptanceDeadline := Some(deadline), updatedAt := s.now),
                 VerificationRequested, s.now)
      && DownloadAt(queued, p, Refused)
  {
  }

  /** A request that lost its record to another one decides by what it reads then. */
  lemma ConflictRereads(s: System, p: nat)
    requires DownloadAt(s, p, Found) && AwaitsVerification(s.downloads[p].seen)
    requires s.downloads[p].seen.id in s.repo.records && s.repo.records[s.downloads[p].seen.id].status != Pending
    ensures var d := s.downloads[p];
      var u := s.repo.records[d.seen.id];
      DoDecideDownload(DoReloadDownload(DoQueueVerification(s, p), p), p)
      == s.(downloads := s.downloads[p := Download(u, d.startedAt, if u.status == Accepted then Granted else Refused)])
  {
    var d := s.downloads[p];
    var u := s.repo.records[d.seen.id];
    var conflicted := DoQueueVerification(s, p);
    assert conflicted == s.(downloads := s.downloads[p := d.(stage := Conflicted)]);
    var reread := DoReloadDownload(conflicted, p);
    assert reread.downloads == s.downloads[p := Download(u, d.startedAt, Reread)];
    var last := Download(u, d.startedAt, if u.status == Accepted then Granted else Refused);
    assert reread.downloads[p := last] == s.downloads[p := last];
  }

  // ------------------------------------------------------------------ removal

  /** A claimed removal is announced in the audit before anything is deleted. */
  lemma RemovalAnnounces(s: System, p: nat, u: Upload)
    requires RemovalAt(s, p, Claimed) && s.removals[p].seen.id == u.id && Stored(s.repo, u.id, u)
    ensures var s' := DoAnnounceRemoval(s, p);
      && Becomes(s.repo, s'.repo, u, DeletionClaimed, s.now)
      && RemovalAt(s', p, Announced) && s' == s.(repo := s'.repo, removals := s'.removals)
  {
    assert s.repo.records[u.id := u] == s.repo.records;
  }

  /** A removal is stuck, to be retried, once its abort was not answered, its deletion failed or its last call did. */
  lemma RemovalFails(s: System, p: nat, effective: bool, ok: bool, gone: bool)
    ensures RemovalAt(s, p, Announced) && s.removals[p].reason == Retention && s.removals[p].seen.providerUploadId.Some? ==>
      RemovalAt(DoDeleteVersions(DoAbortUpload(s, p, false, effective), p, ok, gone), p, Stuck)
    ensures RemovalAt(s, p, Cut) ==> RemovalAt(DoDeleteVersions(s, p, false, gone), p, Stuck)
    ensures RemovalAt(s, p, Claimed) || RemovalAt(s, p, Gone) ==>
      var s' := DoFailRemoval(s, p);
      RemovalAt(s', p, Stuck) && s' == s.(removals := s'.removals)
  {
    hide Discard;
  }

  /** Of a record that was taken from it, cleanup is done; a rejection for damage still schedules a retry. */
  lemma RemovalIsLost(s: System, p: nat)
    requires RemovalAt(s, p, Gone) && s.removals[p].seen.id in s.repo.records
    requires s.repo.records[s.removals[p].seen.id].status != Deleting
    ensures var s' := DoFinishRemoval(s, p);
      && s' == s.(removals := s'.removals)
      && RemovalAt(s', p, if s.removals[p].reason == Retention then Settled else Stuck)
  {
  }

  /** An announced removal whose calls are all answered: the object is gone, the record Deleted or Invalid. */
  lemma RemovalDeletes(s: System, p: nat, u: Upload)
    requires RemovalAt(s, p, Announced) && s.removals[p].seen.id == u.id
    requires Stored(s.repo, u.id, u) && u.status == Deleting
    ensures var removal := s.removals[p];
      var s' := DoFinishRemoval(DoDeleteVersions(DoAbortUpload(s, p, true, true), p, true, true), p);
      && Becomes(s.repo, s'.repo,
                 if removal.reason == Retention then u.(status := Deleted, providerUploadId := None, updatedAt := s.now)
                 else u.(status := Invalid, updatedAt := s.now),
                 DeletionSucceeded, s.now)
      && s'.objects == s.objects - {u.id}
      && (removal.reason == Retention && removal.seen.providerUploadId.Some? ==> !UploadAt(s', u.id, Open))
      && RemovalAt(s', p, Settled)
  {
    var cut := DoAbortUpload(s, p, true, true);
    assert RemovalAt(cut, p, Cut) && cut.removals[p] == s.removals[p].(stage := Cut) && cut.repo == s.repo;
    var gone := DoDeleteVersions(cut, p, true, true);
    assert RemovalAt(gone, p, Gone) && gone.removals[p] == s.removals[p].(stage := Gone) && gone.repo == s.repo;
    hide DoAbortUpload, DoDeleteVersions;
    FinishRemoves(gone, p, u);
  }

  lemma FinishRemoves(s: System, p: nat, u: Upload)
    requires RemovalAt(s, p, Gone) && s.removals[p].seen.id == u.id
    requires Stored(s.repo, u.id, u) && u.status == Deleting
    ensures var s' := DoFinishRemoval(s, p);
      && Becomes(s.repo, s'.repo,
                 if s.removals[p].reason == Retention then
                   u.(status := Deleted, providerUploadId := None, updatedAt := s.now)
                 else u.(status := Invalid, updatedAt := s.now),
                 DeletionSucceeded, s.now)
      && (s'.objects, s'.uploads) == (s.objects, s.uploads) && RemovalAt(s', p, Settled)
  {
  }

  /** A failed removal goes back: Failed, one attempt more, the next after the backoff, its bytes retained again. */
  lemma RemovalRetries(s: System, p: nat, u: Upload)
    requires RemovalAt(s, p, Stuck) && s.removals[p].seen.id == u.id
    requires Stored(s.repo, u.id, u) && u.status == Deleting
    ensures var delay := Policy.DeletionRetryDelay(s.removals[p].seen.deletionAttempts + 1);
      var s' := DoRetryRemoval(s, p);
      && s'.repo.records == s.repo.records[u.id := u.(status := Failed, deletionAttempts := u.deletionAttempts + 1,
                                                      nextDeletionAttemptAt := Some(s.now + delay), updatedAt := s.now)]
      && (s'.repo.order, s'.repo.released) == (s.repo.order, s.repo.released - {u.id})
      && s'.repo.audit
        == s.repo.audit + [AuditRecord(|s.repo.audit| + 1, u.id, Event(DeletionRetryScheduled, s.now))]
      && RemovalAt(s', p, Settled)
  {
    hide Policy.DeletionRetryDelay;
  }

  // ------------------------------------------------------------------ crashes

  /** A process that gives up changes nothing but its own stage, and does nothing ever after. */
  lemma AbandonsOnlyItself(s: System, p: nat)
    ensures p < |s.completions| ==>
      DoAbandonCompletion(s, p) == s.(completions := s.completions[p := s.completions[p].(stage := Over)])
    ensures p < |s.verifications| ==>
      DoAbandonVerification(s, p) == s.(verifications := s.verifications[p := s.verifications[p].(stage := Closed)])
    ensures p < |s.removals| ==>
      DoAbandonRemoval(s, p) == s.(removals := s.removals[p := s.removals[p].(stage := Settled)])
  {
  }
}
