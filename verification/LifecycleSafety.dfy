/** What every step of the lifecycle keeps, and what follows for whole runs. */
module LifecycleSafety {
  import opened Options
  import opened Sequences
  import opened Policy
  import opened Uploads
  import opened Multipart
  import opened Lifecycle
  import Capacity

  /** The order in which a record may move; nothing ever moves it to an earlier phase. */
  function Phase(status: Status): nat {
    match status
    case Uploading => 0
    case Completing => 1
    case Pending => 2
    case Verifying => 3
    case VerifyingActive => 3
    case Accepted => 4
    case Expired => 5
    case Deleting => 5
    case Failed => 5
    case Deleted => 6
    case Invalid => 6
    case Rejected => 6
  }

  /** The phase a once-only audit action marks the entry of; 0 for actions that may repeat. */
  function Milestone(action: AuditAction): nat {
    match action
    case UploadCompleted => 2
    case VerificationRequested => 3
    case VerificationSucceeded => 4
    case DeletionSucceeded => 6
    case _ => 0
  }

  predicate Reached(status: Status, action: AuditAction) { Phase(status) >= Milestone(action) }

  /** A record in this status must have had this action recorded. */
  predicate Owed(status: Status, action: AuditAction) {
    match action
    case UploadCompleted => status in {Pending, Verifying, VerifyingActive, Accepted}
    case VerificationSucceeded => status == Accepted
    case DeletionSucceeded => status in {Deleted, Invalid}
    case _ => false
  }

  predicate NewlyOwed(before: Status, after: Status, action: AuditAction) {
    Owed(after, action) && !Owed(before, action)
  }

  /** How often an action is recorded for an upload. */
  function Occurrences(audit: seq<AuditRecord>, id: Id, action: AuditAction): nat {
    if audit == [] then 0
    else (if audit[0].uploadId == id && audit[0].event.action == action then 1 else 0) + Occurrences(audit[1..], id, action)
  }

  predicate Releasable(status: Status) { status in {Expired, Deleting, Deleted, Invalid} }

  ghost predicate ReleasedOnDeletionSide(r: Repo) {
    forall id :: id in r.released && id in r.records ==> Releasable(r.records[id].status)
  }

  /** What the policy fixed at creation, and what the grants and deadlines keep to. */
  ghost predicate Sound(u: Upload) {
    && 1 <= u.sizeBytes <= MAXIMUM_ARCHIVE_BYTES
    && u.expiresAt == u.createdAt + 72 * MILLIS_PER_HOUR
    && (u.acceptanceDeadline.Some? ==> u.acceptanceDeadline.value <= u.expiresAt)
    && GrantsFit(u)
  }

  ghost predicate LegalMove(u: Upload, v: Upload) {
    && (v.id, v.install, v.network, v.sizeBytes, v.createdAt) == (u.id, u.install, u.network, u.sizeBytes, u.createdAt)
    && Phase(u.status) <= Phase(v.status)
    && (forall n :: n in u.multipartParts ==> n in v.multipartParts && v.multipartParts[n] == u.multipartParts[n])
    && (Sound(u) ==> Sound(v))
  }

  /** The bytes a record counts for in the retained ledger. */
  function Weight(released: set<Id>): Upload -> nat {
    (u: Upload) => if IsRetained(u, released) then u.sizeBytes else 0
  }

  function Ledger(r: Repo): nat
    requires forall id :: id in r.order ==> id in r.records
  {
    Sum(Values(r), Weight(r.released))
  }

  /** A record that comes to owe an action has it recorded in the same step; new records are Uploading. */
  ghost predicate Pays(r: Repo, r': Repo) {
    && (forall id, action ::
          id in r.records && id in r'.records && NewlyOwed(r.records[id].status, r'.records[id].status, action) ==>
          Occurrences(r.audit, id, action) < Occurrences(r'.audit, id, action))
    && (forall id :: id in r'.records && id !in r.records ==> r'.records[id].status == Uploading)
  }

  /** A milestone is recorded at most as it is crossed, and never for a record that is new. */
  ghost predicate CountsMilestones(r: Repo, r': Repo) {
    && (forall id, action :: id in r.records && Milestone(action) > 0 ==>
          Occurrences(r'.audit, id, action) <= Occurrences(r.audit, id, action) +
            if id in r'.records && !Reached(r.records[id].status, action) && Reached(r'.records[id].status, action)
            then 1 else 0)
    && (forall id, action :: id in r'.records && id !in r.records && Milestone(action) > 0 ==>
          Occurrences(r'.audit, id, action) == 0)
  }

  ghost predicate MovesLegally(r: Repo, r': Repo) {
    && (forall id :: id in r.records ==> id in r'.records && LegalMove(r.records[id], r'.records[id]))
    && (forall id :: id in r'.records && id !in r.records ==> Sound(r'.records[id]))
  }

  /** One step of the repository: every record makes a legal move, milestones are recorded as they are crossed. */
  ghost predicate Evolves(r: Repo, r': Repo) {
    && WellFormed(r) && WellFormed(r')
    && r.audit <= r'.audit
    && MovesLegally(r, r')
    && CountsMilestones(r, r')
    && (ReleasedOnDeletionSide(r) ==> ReleasedOnDeletionSide(r'))
    && Pays(r, r')
  }

  lemma {:induction false} OccurrencesAppend(a: seq<AuditRecord>, b: seq<AuditRecord>, id: Id, action: AuditAction)
    ensures Occurrences(a + b, id, action) == Occurrences(a, id, action) + Occurrences(b, id, action)
  {
    if a == [] {
      assert a + b == b;
    } else {
      assert (a + b)[1..] == a[1..] + b;
      OccurrencesAppend(a[1..], b, id, action);
    }
  }

  lemma {:induction false} OccurrencesOfUnknown(audit: seq<AuditRecord>, id: Id, action: AuditAction)
    requires forall i :: 0 <= i < |audit| ==> audit[i].uploadId != id
    ensures Occurrences(audit, id, action) == 0
  {
    if audit != [] {
      OccurrencesOfUnknown(audit[1..], id, action);
    }
  }

  lemma OccurrencesLogged(r: Repo, id: Id, event: Event, other: Id, action: AuditAction)
    ensures Occurrences(Logged(r, id, event).audit, other, action)
         == Occurrences(r.audit, other, action) + if other == id && event.action == action then 1 else 0
  {
    var entry := AuditRecord(|r.audit| + 1, id, event);
    OccurrencesAppend(r.audit, [entry], other, action);
    assert Occurrences([entry], other, action) == (if other == id && event.action == action then 1 else 0) by {
      assert [entry][1..] == [];
    }
  }

  // ------------------------------------------------------------------ one record moves

  function MaybeLogged(r: Repo, id: Id, event: Option<Event>): Repo {
    match event case None => r case Some(e) => Logged(r, id, e)
  }

  /** Moving between these statuses records every action that comes to be owed. */
  ghost predicate Records(before: Status, after: Status, event: Option<Event>) {
    forall action :: NewlyOwed(before, after, action) ==> event.Some? && event.value.action == action
  }

  lemma MovePays(r: Repo, id: Id, v: Upload, released: set<Id>, event: Option<Event>)
    requires id in r.records && Records(r.records[id].status, v.status, event)
    ensures Pays(r, MaybeLogged(Put(r, id, v).(released := released), id, event))
  {
    var moved := Put(r, id, v).(released := released);
    hide Owed;
    forall other, action | other in r.records
        && NewlyOwed(r.records[other].status, moved.records[other].status, action)
      ensures Occurrences(r.audit, other, action) < Occurrences(MaybeLogged(moved, id, event).audit, other, action)
    {
      OccurrencesLogged(moved, id, event.value, other, action);
    }
  }

  lemma MoveMilestones(r: Repo, id: Id, v: Upload, released: set<Id>, event: Option<Event>, other: Id, action: AuditAction)
    requires id in r.records && other in r.records && Milestone(action) > 0
    requires event.Some? && Milestone(event.value.action) > 0 ==>
               !Reached(r.records[id].status, event.value.action) && Reached(v.status, event.value.action)
    ensures var r' := MaybeLogged(Put(r, id, v).(released := released), id, event);
      && r'.records.Keys == r.records.Keys
      && Occurrences(r'.audit, other, action) <= Occurrences(r.audit, other, action) +
           if !Reached(r.records[other].status, action) && Reached(r'.records[other].status, action) then 1 else 0
  {
    hide Reached, Occurrences;
    if event.Some? {
      OccurrencesLogged(Put(r, id, v).(released := released), id, event.value, other, action);
    }
  }

  /** An update of one record with at most one audit event is a step when the move is legal. */
  lemma MoveEvolves(r: Repo, id: Id, v: Upload, released: set<Id>, event: Option<Event>)
    requires WellFormed(r) && id in r.records && LegalMove(r.records[id], v)
    requires released <= r.released
    requires Releasable(r.records[id].status) && id in released ==> Releasable(v.status)
    requires event.Some? && Milestone(event.value.action) > 0 ==>
               !Reached(r.records[id].status, event.value.action) && Reached(v.status, event.value.action)
    requires Records(r.records[id].status, v.status, event)
    ensures Evolves(r, MaybeLogged(Put(r, id, v).(released := released), id, event))
  {
    var moved := Put(r, id, v).(released := released);
    var r' := MaybeLogged(moved, id, event);
    PutWellFormed(r, id, v);
    ReleasedWellFormed(Put(r, id, v), released);
    if event.Some? { LoggedWellFormed(moved, id, event.value); }
    MovePays(r, id, v, released, event);
    MoveCounts(r, id, v, released, event);
    MoveKeepsRest(r, id, v, released, event);
    hide WellFormed, Pays, Records, LegalMove, MovesLegally, Releasable, ReleasedOnDeletionSide, CountsMilestones, MaybeLogged;
  }

  lemma MoveCounts(r: Repo, id: Id, v: Upload, released: set<Id>, event: Option<Event>)
    requires id in r.records
    requires event.Some? && Milestone(event.value.action) > 0 ==>
               !Reached(r.records[id].status, event.value.action) && Reached(v.status, event.value.action)
    ensures CountsMilestones(r, MaybeLogged(Put(r, id, v).(released := released), id, event))
  {
    hide Reached, Occurrences, Milestone;
    var r' := MaybeLogged(Put(r, id, v).(released := released), id, event);
    forall other, action | other in r.records && Milestone(action) > 0
      ensures Occurrences(r'.audit, other, action) <= Occurrences(r.audit, other, action) +
                if !Reached(r.records[other].status, action) && Reached(r'.records[other].status, action) then 1 else 0
    {
      MoveMilestones(r, id, v, released, event, other, action);
    }
    assert r'.records.Keys == r.records.Keys;
    hide MaybeLogged;
  }

  lemma MoveKeepsRest(r: Repo, id: Id, v: Upload, released: set<Id>, event: Option<Event>)
    requires id in r.records && LegalMove(r.records[id], v) && released <= r.released
    requires Releasable(r.records[id].status) && id in released ==> Releasable(v.status)
    ensures var r' := MaybeLogged(Put(r, id, v).(released := released), id, event);
      && r'.records.Keys == r.records.Keys && r.audit <= r'.audit && MovesLegally(r, r')
      && (ReleasedOnDeletionSide(r) ==> ReleasedOnDeletionSide(r'))
  {
    hide Sound, Releasable;
  }

  lemma StaysEvolves(r: Repo)
    requires WellFormed(r)
    ensures Evolves(r, r)
  {
  }

  lemma AuditedEvolves(r: Repo, id: Id, event: Event)
    requires WellFormed(r) && Milestone(event.action) == 0
    ensures Evolves(r, Audited(r, id, event))
  {
    hide Evolves;
    if id in r.records {
      assert r.records[id := r.records[id]] == r.records;
      MoveEvolves(r, id, r.records[id], r.released, Some(event));
    } else {
      StaysEvolves(r);
    }
  }

  /** A transition the services ask for: forward in phase, deadlines within the expiry, milestones crossed. */
  ghost predicate Orderly(expected: set<Status>, change: Change) {
    && change.expiresAt.None?
    && (forall status :: status in expected ==>
          && Phase(status) <= Phase(change.status)
          && (Releasable(status) ==> Releasable(change.status))
          && Records(status, change.status, change.audit)
          && (change.audit.Some? && Milestone(change.audit.value.action) > 0 ==>
                !Reached(status, change.audit.value.action) && Reached(change.status, change.audit.value.action)))
  }

  lemma AttemptEvolves(s: System, id: Id, expected: set<Status>, change: Change)
    requires WellFormed(s.repo) && Orderly(expected, change)
    requires change.acceptanceDeadline.Some? && change.acceptanceDeadline.value.Some? && id in s.repo.records ==>
               change.acceptanceDeadline.value.value <= s.repo.records[id].expiresAt
    ensures Evolves(s.repo, Attempt(s, id, expected, change).0)
    ensures Attempt(s, id, expected, change).1 ==>
              id in s.repo.records && s.repo.records[id].status in expected
  {
    hide Evolves;
    if id in s.repo.records && TransitionApplies(s.repo.records[id], expected, change) {
      var v := Changed(s.repo.records[id], change, s.now);
      MoveEvolves(s.repo, id, v, s.repo.released, change.audit);
      assert Put(s.repo, id, v).(released := s.repo.released) == Put(s.repo, id, v);
    } else {
      StaysEvolves(s.repo);
    }
  }

  // ------------------------------------------------------------------ claims and admission

  lemma ClaimEvolves(r: Repo, batch: seq<Upload>, status: Status, now: int)
    requires WellFormed(r)
    requires forall u :: u in batch ==>
               && u.id in r.records && r.records[u.id] == u
               && Phase(u.status) <= Phase(status) && (Releasable(u.status) ==> Releasable(status))
               && Records(u.status, status, None)
    ensures Evolves(r, ClaimAll(r, batch, status, now))
  {
    ClaimAllWellFormed(r, batch, status, now);
    var r' := ClaimAll(r, batch, status, now);
    forall id | id in r.records
      ensures LegalMove(r.records[id], r'.records[id])
      ensures Releasable(r.records[id].status) ==> Releasable(r'.records[id].status)
    {
      ClaimMoves(r, batch, status, now, id);
    }
    ClaimPays(r, batch, status, now);
    assert r'.audit == r.audit && r'.released == r.released && r'.records.Keys == r.records.Keys;
    assert CountsMilestones(r, r') by { hide WellFormed, ClaimAll, LegalMove, Reached, Milestone; }
    hide WellFormed, ClaimAll, LegalMove, CountsMilestones, Pays;
  }

  lemma ClaimPays(r: Repo, batch: seq<Upload>, status: Status, now: int)
    requires forall u :: u in batch ==> u.id in r.records && r.records[u.id] == u && Records(u.status, status, None)
    ensures Pays(r, ClaimAll(r, batch, status, now))
  {
    hide Owed;
    var r' := ClaimAll(r, batch, status, now);
    forall id, action | id in r.records ensures !NewlyOwed(r.records[id].status, r'.records[id].status, action) {
      if InBatch(batch, id) {
        var u :| u in batch && u.id == id;
        assert Records(u.status, status, None);
      }
    }
  }

  lemma ClaimMoves(r: Repo, batch: seq<Upload>, status: Status, now: int, id: Id)
    requires WellFormed(r) && id in r.records
    requires forall u :: u in batch ==>
               && u.id in r.records && r.records[u.id] == u
               && Phase(u.status) <= Phase(status) && (Releasable(u.status) ==> Releasable(status))
    ensures var r' := ClaimAll(r, batch, status, now);
      && id in r'.records && LegalMove(r.records[id], r'.records[id])
      && (Releasable(r.records[id].status) ==> Releasable(r'.records[id].status))
  {
    assert r.records[id].id == id && (InBatch(batch, id) ==> r.records[id] in batch) by {
      hide Phase, Releasable;
    }
    hide WellFormed, InBatch;
    var u := r.records[id];
    if u in batch { ClaimedMove(u, status, now); }
  }

  lemma ClaimedMove(u: Upload, status: Status, now: int)
    requires Phase(u.status) <= Phase(status)
    ensures LegalMove(u, ClaimedAs(u, status, now))
  {
    hide Phase;
  }

  lemma DueBatch(r: Repo, now: int, limit: nat)
    requires WellFormed(r)
    ensures forall u :: u in DeletionBatch(Values(r), r.released, now, limit) ==>
              u.id in r.records && r.records[u.id] == u && Phase(u.status) <= 5 && Records(u.status, Deleting, None)
  {
    hide DeletionBatch, WantsDeletion, Records, Phase;
    DeletionBatchKnown(r, now, limit);
    var batch := DeletionBatch(Values(r), r.released, now, limit);
    hide WellFormed;
    forall u | u in batch ensures Phase(u.status) <= 5 && Records(u.status, Deleting, None) {
      WantedForDeletion(u, now);
    }
  }

  /** Claiming for deletion never loses an archive that is on the deletion side. */
  lemma DeletionClaimEvolves(s: System, limit: nat)
    requires WellFormed(s.repo)
    ensures Evolves(s.repo, ClaimExpired(s.repo, s.now, limit))
  {
    hide Evolves, DeletionBatch, ClaimAll, Records;
    DueBatch(s.repo, s.now, limit);
    ClaimEvolves(s.repo, DeletionBatch(Values(s.repo), s.repo.released, s.now, limit), Deleting, s.now);
  }

  lemma WantedForDeletion(u: Upload, now: int)
    requires WantsDeletion(u, now)
    ensures Phase(u.status) <= 5 && Records(u.status, Deleting, None)
  {
  }

  lemma WantedIsEarly(u: Upload, now: int, staleBefore: int, includeStored: bool)
    requires WantsVerification(u, now, staleBefore, includeStored)
    ensures Phase(u.status) <= 3 && !Releasable(u.status) && Records(u.status, VerifyingActive, None)
  {
  }

  lemma EarlyBatch(r: Repo, now: int, staleBefore: int, limit: nat, includeStored: bool)
    requires WellFormed(r)
    ensures forall u :: u in VerificationBatch(Values(r), now, staleBefore, limit, includeStored) ==>
              u.id in r.records && r.records[u.id] == u && Phase(u.status) <= 3 && !Releasable(u.status)
              && Records(u.status, VerifyingActive, None)
  {
    BatchKnown(r, now, staleBefore, limit, includeStored);
    var batch := VerificationBatch(Values(r), now, staleBefore, limit, includeStored);
    hide VerificationBatch, WellFormed;
    hide Records;
    forall u | u in batch
      ensures Phase(u.status) <= 3 && !Releasable(u.status) && Records(u.status, VerifyingActive, None)
    {
      WantedIsEarly(u, now, staleBefore, includeStored);
    }
  }

  lemma VerificationClaimEvolves(s: System, limit: nat, includeStored: bool)
    requires WellFormed(s.repo)
    ensures Evolves(s.repo, DoClaimForVerification(s, limit, includeStored).repo)
  {
    hide Evolves, ClaimAll, VerificationBatch;
    var bounded := Min(Max(limit, 1), 8);
    EarlyBatch(s.repo, s.now, s.now - STALE_CLAIM, bounded, includeStored);
    ClaimEvolves(s.repo, VerificationBatch(Values(s.repo), s.now, s.now - STALE_CLAIM, bounded, includeStored),
                 VerifyingActive, s.now);
  }

  ghost predicate SameMilestones(r: Repo, r': Repo) {
    forall id, action :: Milestone(action) > 0 ==> Occurrences(r'.audit, id, action) == Occurrences(r.audit, id, action)
  }

  /** Steps without milestones in their audit, which is what evictions are, compose. */
  ghost predicate QuietlyEvolves(r: Repo, r': Repo) {
    && WellFormed(r) && WellFormed(r') && r'.records.Keys == r.records.Keys
    && r.audit <= r'.audit
    && (forall id :: id in r.records ==> LegalMove(r.records[id], r'.records[id]))
    && (forall id :: id in r.records ==>
          r'.records[id].status == r.records[id].status || r'.records[id].status == Expired)
    && SameMilestones(r, r')
    && (ReleasedOnDeletionSide(r) ==> ReleasedOnDeletionSide(r'))
  }

  lemma EvictMoves(r: Repo, id: Id, at: int, other: Id)
    requires id in r.records && other in r.records && r.records[id].id == id && Phase(r.records[id].status) <= 5
    ensures var v := Evict(r, id, at).records[other];
      LegalMove(r.records[other], v) && (v.status == r.records[other].status || v.status == Expired)
  {
  }

  lemma EvictReleases(r: Repo, id: Id, at: int)
    requires id in r.records
    ensures Evict(r, id, at).records.Keys == r.records.Keys
    ensures ReleasedOnDeletionSide(r) ==> ReleasedOnDeletionSide(Evict(r, id, at))
  {
  }

  lemma EvictQuiet(r: Repo, id: Id, at: int)
    requires WellFormed(r) && id in r.records && Phase(r.records[id].status) <= 5
    ensures QuietlyEvolves(r, Evict(r, id, at))
  {
    var r' := Evict(r, id, at);
    EvictWellFormed(r, id, at);
    EvictReleases(r, id, at);
    assert r.audit <= r'.audit && r.records[id].id == id;
    forall other | other in r.records
      ensures LegalMove(r.records[other], r'.records[other])
      ensures r'.records[other].status == r.records[other].status || r'.records[other].status == Expired
    {
      EvictMoves(r, id, at, other);
    }
    EvictCounts(r, id, at);
    hide WellFormed, Evict, LegalMove, ReleasedOnDeletionSide, SameMilestones, Phase;
  }

  lemma EvictCounts(r: Repo, id: Id, at: int)
    requires id in r.records
    ensures SameMilestones(r, Evict(r, id, at))
  {
    var moved := Put(r, id, r.records[id].(status := Expired, updatedAt := at)).(released := r.released + {id});
    hide Occurrences;
    forall other, action | Milestone(action) > 0
      ensures Occurrences(Evict(r, id, at).audit, other, action) == Occurrences(r.audit, other, action)
    {
      OccurrencesLogged(moved, id, Event(RetentionEvicted, at), other, action);
    }
  }

  lemma QuietComposes(r: Repo, mid: Repo, r': Repo)
    requires QuietlyEvolves(r, mid) && QuietlyEvolves(mid, r')
    ensures QuietlyEvolves(r, r')
  {
    hide WellFormed, ReleasedOnDeletionSide, Occurrences, Milestone, Sound;
  }

  lemma QuietlyStays(r: Repo)
    requires WellFormed(r)
    ensures QuietlyEvolves(r, r)
  {
  }

  lemma {:induction false} EvictAllQuiet(r: Repo, ids: seq<Id>, at: int)
    requires WellFormed(r) && forall id :: id in ids ==> id in r.records && Phase(r.records[id].status) <= 5
    requires Distinct(ids)
    ensures QuietlyEvolves(r, EvictAll(r, ids, at))
    ensures forall id :: id in r.records && id !in ids ==> EvictAll(r, ids, at).records[id] == r.records[id]
  {
    hide WellFormed, QuietlyEvolves, Phase;
    if ids == [] {
      QuietlyStays(r);
    } else {
      var front := ids[..|ids| - 1];
      var last := ids[|ids| - 1];
      EvictAllQuiet(r, front, at);
      assert last in ids && last !in front;
      var mid := EvictAll(r, front, at);
      QuietIsWellFormed(r, mid);
      EvictQuiet(mid, last, at);
      QuietComposes(r, mid, Evict(mid, last, at));
    }
  }

  lemma CreateEvolves(s: System, id: Id, install: string, network: string, sizeBytes: nat)
    requires WellFormed(s.repo)
    ensures Evolves(s.repo, DoCreate(s, id, install, network, sizeBytes).repo)
  {
    hide Evolves, InsertWithinQuota, WellFormed;
    var s' := DoCreate(s, id, install, network, sizeBytes);
    if s'.repo == s.repo {
      StaysEvolves(s.repo);
    } else {
      var record := NewUpload(id, install, network, sizeBytes, s.now, s.now + 72 * MILLIS_PER_HOUR);
      AdmissionEvolves(s.repo, record, s.now - 24 * MILLIS_PER_HOUR, DIAGNOSTIC_QUOTA, Event(UploadCreated, s.now));
    }
  }

  lemma AdmissionEvolves(r: Repo, record: Upload, since: int, limits: QuotaLimits, event: Event)
    requires WellFormed(r) && record.id !in r.records && record.install != "" && Sound(record)
    requires record.status == Uploading && Milestone(event.action) == 0
    requires InsertWithinQuota(r, record, since, limits, event).Ok?
    ensures Evolves(r, InsertWithinQuota(r, record, since, limits, event).value.0)
  {
    hide Evolves;
    AdmissionShape(r, record, since, limits, event);
    if InsertWithinQuota(r, record, since, limits, event).value.1 {
      EvictionsKnown(r, record, limits);
      VictimsEvolve(r, record, event, Capacity.IdList(Evictions(r, record, limits).value));
    } else {
      StaysEvolves(r);
    }
  }

  lemma VictimsEvolve(r: Repo, record: Upload, event: Event, ids: seq<Id>)
    requires WellFormed(r) && record.id !in r.records && record.install != "" && Sound(record)
    requires record.status == Uploading && Milestone(event.action) == 0 && Distinct(ids)
    requires forall id :: id in ids ==> id in r.records && CanEvict(r.records[id].status)
    ensures Evolves(r, Add(EvictAll(r, ids, record.createdAt), record, event))
  {
    hide Evolves, WellFormed, QuietlyEvolves, EvictAll, Add, Sound, Distinct, Milestone;
    EvictAllQuiet(r, ids, record.createdAt);
    AddEvolves(r, EvictAll(r, ids, record.createdAt), record, event);
  }

  lemma AddPays(r: Repo, mid: Repo, record: Upload, event: Event)
    requires QuietlyEvolves(r, mid) && record.id !in r.records && record.status == Uploading
    ensures Pays(r, Add(mid, record, event))
  {
    hide WellFormed, LegalMove, Milestone, Occurrences;
  }

  lemma AddCounts(r: Repo, mid: Repo, record: Upload, event: Event, id: Id, action: AuditAction)
    requires QuietlyEvolves(r, mid) && Milestone(action) > 0 && Milestone(event.action) == 0
    ensures Occurrences(Add(mid, record, event).audit, id, action) == Occurrences(r.audit, id, action)
    ensures id !in r.records ==> Occurrences(r.audit, id, action) == 0
  {
    hide Milestone, LegalMove;
    var stored := mid.(records := mid.records[record.id := record], order := mid.order + [record.id]);
    OccurrencesLogged(stored, record.id, event, id, action);
    if id !in r.records { OccurrencesOfUnknown(r.audit, id, action); }
  }

  lemma AddKeepsRest(r: Repo, mid: Repo, record: Upload, event: Event)
    requires QuietlyEvolves(r, mid) && record.id !in r.records && record.status == Uploading && Sound(record)
    ensures var r' := Add(mid, record, event);
      && r.audit <= r'.audit && MovesLegally(r, r')
      && (ReleasedOnDeletionSide(r) ==> ReleasedOnDeletionSide(r'))
  {
    hide LegalMove, Sound, SameMilestones, Releasable;
  }

  lemma AddEvolves(r: Repo, mid: Repo, record: Upload, event: Event)
    requires QuietlyEvolves(r, mid) && record.id !in r.records && record.install != "" && Sound(record)
    requires record.status == Uploading && Milestone(event.action) == 0
    ensures Evolves(r, Add(mid, record, event))
  {
    var r' := Add(mid, record, event);
    AddWellFormed(mid, record, event);
    AddPays(r, mid, record, event);
    AddKeepsRest(r, mid, record, event);
    AddCountsMilestones(r, mid, record, event);
    QuietIsWellFormed(r, mid);
    hide Pays, WellFormed, MovesLegally, CountsMilestones, ReleasedOnDeletionSide, QuietlyEvolves, Add;
  }

  lemma AddCountsMilestones(r: Repo, mid: Repo, record: Upload, event: Event)
    requires QuietlyEvolves(r, mid) && Milestone(event.action) == 0
    ensures CountsMilestones(r, Add(mid, record, event))
  {
    hide QuietlyEvolves, Add, Reached, Occurrences, Milestone;
    var r' := Add(mid, record, event);
    forall id, action | Milestone(action) > 0
      ensures Occurrences(r'.audit, id, action) == Occurrences(r.audit, id, action)
      ensures id !in r.records ==> Occurrences(r'.audit, id, action) == 0
    {
      AddCounts(r, mid, record, event, id, action);
    }
  }

  lemma QuietIsWellFormed(r: Repo, mid: Repo)
    requires QuietlyEvolves(r, mid)
    ensures WellFormed(r) && WellFormed(mid)
  {
  }

  // ------------------------------------------------------------------ every step

  lemma BindProviderEvolves(s: System, id: Id, uploadId: string)
    requires WellFormed(s.repo)
    ensures Evolves(s.repo, DoBindProvider(s, id, uploadId).repo)
  {
    hide Evolves;
    StaysEvolves(s.repo);
    if id in s.repo.records && s.repo.records[id].providerUploadId.None? && s.repo.records[id].status == Uploading {
      var v := s.repo.records[id].(providerUploadId := Some(uploadId), updatedAt := s.now);
      MoveEvolves(s.repo, id, v, s.repo.released, None);
    }
  }

  lemma GrantPartEvolves(s: System, id: Id, partNumber: int, grant: Grant)
    requires WellFormed(s.repo)
    ensures Evolves(s.repo, DoGrantPart(s, id, partNumber, grant).repo)
  {
    hide Evolves;
    if DoGrantPart(s, id, partNumber, grant).repo != s.repo {
      var u := s.repo.records[id];
      var v := u.(multipartParts := u.multipartParts[partNumber := grant], updatedAt := s.now);
      MoveEvolves(s.repo, id, v, s.repo.released, None);
    } else {
      StaysEvolves(s.repo);
    }
  }

  lemma VerificationRetryEvolves(s: System, id: Id, at: int)
    requires WellFormed(s.repo)
    ensures Evolves(s.repo, Outcome(s.repo, ScheduleVerificationRetry(s.repo, id, at, s.now)).0)
  {
    hide Evolves;
    if id in s.repo.records && s.repo.records[id].status == VerifyingActive {
      var u := s.repo.records[id];
      var v := u.(status := Verifying, verificationAttempts := u.verificationAttempts + 1,
                  nextVerificationAttemptAt := Some(at), updatedAt := s.now);
      MoveEvolves(s.repo, id, v, s.repo.released, None);
    } else {
      StaysEvolves(s.repo);
    }
  }

  lemma DeletionRetryEvolves(s: System, id: Id, at: int)
    requires WellFormed(s.repo)
    ensures Evolves(s.repo, Outcome(s.repo, ScheduleDeletionRetry(s.repo, id, at, Event(DeletionRetryScheduled, s.now),
                                                                  s.now)).0)
  {
    hide Evolves;
    if id in s.repo.records && s.repo.records[id].status == Deleting {
      var u := s.repo.records[id];
      var v := u.(status := Failed, deletionAttempts := u.deletionAttempts + 1,
                  nextDeletionAttemptAt := Some(at), updatedAt := s.now);
      MoveEvolves(s.repo, id, v, s.repo.released - {id}, Some(Event(DeletionRetryScheduled, s.now)));
    } else {
      StaysEvolves(s.repo);
    }
  }

  lemma WinCompletionEvolves(s: System, p: nat)
    requires WellFormed(s.repo)
    ensures Evolves(s.repo, DoWinCompletion(s, p).repo)
  {
    hide Evolves;
    StaysEvolves(s.repo);
    if CompletionAt(s, p, Loaded) {
      AttemptEvolves(s, s.completions[p].seen.id, {Uploading}, To(Completing));
    }
  }

  lemma FinishCompletionEvolves(s: System, p: nat)
    requires WellFormed(s.repo)
    ensures Evolves(s.repo, DoFinishCompletion(s, p).repo)
  {
    hide Evolves;
    StaysEvolves(s.repo);
    if CompletionAt(s, p, Finishing) {
      AttemptEvolves(s, s.completions[p].seen.id, {Completing},
                     To(Pending).(providerUploadId := Some(None), audit := Some(Event(UploadCompleted, s.now))));
    }
  }

  lemma FailCompletionEvolves(s: System, p: nat)
    requires WellFormed(s.repo)
    ensures Evolves(s.repo, DoFailCompletion(s, p).repo)
  {
    hide Evolves;
    StaysEvolves(s.repo);
    if CompletionAt(s, p, Failing) {
      AttemptEvolves(s, s.completions[p].seen.id, {Completing}, To(Failed));
    }
  }

  lemma QueueVerificationEvolves(s: System, p: nat)
    requires WellFormed(s.repo) && DownloadsMatch(s)
    ensures Evolves(s.repo, DoQueueVerification(s, p).repo)
  {
    hide Evolves;
    if DownloadAt(s, p, Found) && AwaitsVerification(s.downloads[p].seen) {
      var d := s.downloads[p];
      var deadline := Min(d.seen.expiresAt, d.startedAt + 24 * MILLIS_PER_HOUR);
      AttemptEvolves(s, d.seen.id, {Pending}, To(Verifying).(acceptanceDeadline := Some(Some(deadline)),
                                                audit := Some(Event(VerificationRequested, d.startedAt))));
    } else {
      StaysEvolves(s.repo);
    }
  }

  lemma AcceptVerifiedEvolves(s: System, p: nat)
    requires WellFormed(s.repo)
    ensures Evolves(s.repo, DoAcceptVerified(s, p).repo)
  {
    hide Evolves;
    if VerificationAt(s, p, Confirmed) {
      AttemptEvolves(s, s.verifications[p].seen.id, {VerifyingActive},
                     To(Accepted).(acceptanceDeadline := Some(None), audit := Some(Event(VerificationSucceeded, s.now))));
    } else {
      StaysEvolves(s.repo);
    }
  }

  lemma RejectDamagedEvolves(s: System, p: nat)
    requires WellFormed(s.repo)
    ensures Evolves(s.repo, DoRejectDamaged(s, p).repo)
  {
    hide Evolves;
    if VerificationAt(s, p, Rejecting) {
      AttemptEvolves(s, s.verifications[p].seen.id, {VerifyingActive},
                     To(Deleting).(audit := Some(Event(VerificationFailed, s.now))));
    } else {
      StaysEvolves(s.repo);
    }
  }

  lemma RetryVerificationEvolves(s: System, p: nat)
    requires WellFormed(s.repo)
    ensures Evolves(s.repo, DoRetryVerification(s, p).repo)
  {
    hide Evolves;
    if VerificationAt(s, p, Retrying) {
      var seen := s.verifications[p].seen;
      AttemptEvolves(s, seen.id, {VerifyingActive}, To(Expired).(audit := Some(Event(VerificationFailed, s.now))));
      VerificationRetryEvolves(s, seen.id, s.now + VerificationRetryDelay(seen.verificationAttempts + 1));
    } else {
      StaysEvolves(s.repo);
    }
  }

  lemma FinishRemovalEvolves(s: System, p: nat)
    requires WellFormed(s.repo)
    ensures Evolves(s.repo, DoFinishRemoval(s, p).repo)
  {
    hide Evolves;
    if RemovalAt(s, p, Gone) {
      AttemptEvolves(s, s.removals[p].seen.id, {Deleting}, RemovalChange(s.removals[p].reason, s.now));
    } else {
      StaysEvolves(s.repo);
    }
  }

  lemma RetryRemovalEvolves(s: System, p: nat)
    requires WellFormed(s.repo)
    ensures Evolves(s.repo, DoRetryRemoval(s, p).repo)
  {
    hide Evolves;
    if RemovalAt(s, p, Stuck) {
      var seen := s.removals[p].seen;
      DeletionRetryEvolves(s, seen.id, s.now + DeletionRetryDelay(seen.deletionAttempts + 1));
    } else {
      StaysEvolves(s.repo);
    }
  }

  lemma AdministratorDeletionEvolves(s: System, id: Id, seen: Status)
    requires WellFormed(s.repo)
    ensures Evolves(s.repo, DoDeleteByAdministrator(s, id, seen).repo)
  {
    hide Evolves;
    if Deletable(seen) {
      AttemptEvolves(s, id, {seen}, To(Expired).(audit := Some(Event(ModerationDelete, s.now))));
    } else {
      StaysEvolves(s.repo);
    }
  }

  /** What a request read is an earlier version of the stored record: in particular its expiry is the record's. */
  ghost predicate DownloadsMatch(s: System) {
    forall p :: 0 <= p < |s.downloads| ==> DownloadMatches(s.repo, s.downloads[p])
  }

  ghost predicate DownloadMatches(r: Repo, d: Download) {
    && d.seen.id in r.records
    && r.records[d.seen.id].expiresAt == d.seen.expiresAt
    && d.startedAt < d.seen.expiresAt
    && Phase(d.seen.status) <= Phase(r.records[d.seen.id].status)
    && (d.stage == Granted ==> d.seen.status == Accepted)
  }

  lemma UploadStepEvolves(s: System, step: UploadStep)
    requires WellFormed(s.repo)
    ensures Evolves(s.repo, UploadNext(s, step).repo)
  {
    hide Evolves;
    match step {
      case Create(id, install, network, size) => CreateEvolves(s, id, install, network, size);
      case BindProvider(id, uploadId) => BindProviderEvolves(s, id, uploadId);
      case AbandonCreation(id) => AttemptEvolves(s, id, {Uploading}, To(Failed));
      case NoteCompensationFailure(id) => AuditedEvolves(s.repo, id, Event(CompensationFailed, s.now));
      case GrantPart(id, partNumber, grant) => GrantPartEvolves(s, id, partNumber, grant);
    }
  }

  lemma CompletionStepEvolves(s: System, step: CompletionStep)
    requires WellFormed(s.repo)
    ensures Evolves(s.repo, CompletionNext(s, step).repo)
  {
    hide Evolves;
    StaysEvolves(s.repo);
    if step.WinCompletion? {
      WinCompletionEvolves(s, step.p);
    } else if step.FinishCompletion? {
      FinishCompletionEvolves(s, step.p);
    } else if step.FailCompletion? {
      FailCompletionEvolves(s, step.p);
    } else {
      assert CompletionNext(s, step).repo == s.repo;
    }
  }

  lemma AdministratorStepEvolves(s: System, step: AdministratorStep)
    requires WellFormed(s.repo) && DownloadsMatch(s)
    ensures Evolves(s.repo, AdministratorNext(s, step).repo)
  {
    hide Evolves;
    StaysEvolves(s.repo);
    match step {
      case DeleteByAdministrator(id, seen) => AdministratorDeletionEvolves(s, id, seen);
      case QueueVerification(p) => QueueVerificationEvolves(s, p);
      case RecordDownload(p) =>
        if DownloadAt(s, p, Granted) {
          AuditedEvolves(s.repo, s.downloads[p].seen.id, Event(DownloadRequested, s.downloads[p].startedAt));
        }
      case LoadForDownload(_) =>
      case ReloadDownload(_) =>
      case DecideDownload(_) =>
    }
  }

  lemma VerificationStepEvolves(s: System, step: VerificationStep)
    requires WellFormed(s.repo)
    ensures Evolves(s.repo, VerificationNext(s, step).repo)
  {
    hide Evolves;
    StaysEvolves(s.repo);
    match step {
      case ClaimForVerification(limit, includeStored) => VerificationClaimEvolves(s, limit, includeStored);
      case AcceptVerified(p) => AcceptVerifiedEvolves(s, p);
      case RejectDamaged(p) => RejectDamagedEvolves(s, p);
      case RetryVerification(p) => RetryVerificationEvolves(s, p);
      case CheckObject(_, _) =>
      case AbandonVerification(_) =>
    }
  }

  lemma RemovalStepEvolves(s: System, step: RemovalStep)
    requires WellFormed(s.repo)
    ensures Evolves(s.repo, RemovalNext(s, step).repo)
  {
    hide Evolves;
    StaysEvolves(s.repo);
    match step {
      case ClaimForDeletion(limit) => DeletionClaimEvolves(s, limit);
      case AnnounceRemoval(p) =>
        if RemovalAt(s, p, Claimed) { AuditedEvolves(s.repo, s.removals[p].seen.id, Event(DeletionClaimed, s.now)); }
      case FinishRemoval(p) => FinishRemovalEvolves(s, p);
      case RetryRemoval(p) => RetryRemovalEvolves(s, p);
      case AbortUpload(_, _, _) =>
      case DeleteVersions(_, _, _) =>
      case FailRemoval(_) =>
      case AbandonRemoval(_) =>
    }
  }

  lemma StepEvolves(s: System, step: Step)
    requires WellFormed(s.repo) && DownloadsMatch(s)
    ensures Evolves(s.repo, Next(s, step).repo)
  {
    hide Evolves;
    match step {
      case Tick(_) => StaysEvolves(s.repo);
      case OnProvider(_) => StaysEvolves(s.repo);
      case OnUpload(upload) => UploadStepEvolves(s, upload);
      case OnCompletion(completion) => CompletionStepEvolves(s, completion);
      case ByAdministrator(request) => AdministratorStepEvolves(s, request);
      case OnVerification(verification) => VerificationStepEvolves(s, verification);
      case OnRemoval(removal) => RemovalStepEvolves(s, removal);
    }
  }
}
