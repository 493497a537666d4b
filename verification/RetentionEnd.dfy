/** The end of retention: what cleanup claims, what one cleanup does, and the steps it takes. */
module RetentionEnd {
  import opened Options
  import opened Sequences
  import opened Sorting
  import opened Policy
  import opened Uploads
  import opened Lifecycle
  import opened LifecycleSafety
  import opened LifecycleRuns
  import opened UploadRepository

  /** The reasons a record past its expiry may still not be claimed. */
  predicate Excused(u: Upload, now: int) {
    || Terminal(u.status)
    || (u.status == Deleting && now < u.updatedAt + DELETING_LEASE)
    || (u.status == Completing && now < u.updatedAt + COMPLETING_LEASE)
    || (u.status == Failed && u.nextDeletionAttemptAt.Some? && now < u.nextDeletionAttemptAt.value)
  }

  /**
   * In every reachable state the expiry is 72 hours after creation, and from the expiry on cleanup claims every
   * record except terminal ones, those inside a Deleting or Completing lease and those in Failed backoff.
   */
  lemma ExpiredIsClaimedUnlessExcused(steps: seq<Step>, id: Id, now: int)
    requires id in Run(steps).repo.records
    requires now >= Run(steps).repo.records[id].createdAt + 72 * MILLIS_PER_HOUR
    ensures var u := Run(steps).repo.records[id];
            WantsDeletion(u, now) <==> !Excused(u, now)
  {
    assert Sound(Run(steps).repo.records[id]);
    SoundIsClaimed(Run(steps).repo.records[id], now);
  }

  lemma SoundIsClaimed(u: Upload, now: int)
    requires Sound(u) && now >= u.createdAt + 72 * MILLIS_PER_HOUR
    ensures WantsDeletion(u, now) <==> !Excused(u, now)
  {
  }

  // ------------------------------------------------------------------ one cleanup

  /** What cleanup does with one claimed record, given whether the provider confirmed the removal. */
  function CleanOne(r: Repo, u: Upload, removed: bool, now: int): Repo {
    var audited := Audited(r, u.id, Event(DeletionClaimed, now));
    if removed then
      Outcome(audited, Transition(audited, u.id, {Deleting}, RemovalChange(Retention, now), now)).0
    else
      var delay := DeletionRetryDelay(u.deletionAttempts + 1);
      Outcome(audited, ScheduleDeletionRetry(audited, u.id, now + delay, Event(DeletionRetryScheduled, now), now)).0
  }

  function CleanEach(r: Repo, claimed: seq<Upload>, removed: Id -> bool, now: int): Repo {
    if claimed == [] then r
    else
      var last := claimed[|claimed| - 1];
      CleanOne(CleanEach(r, claimed[..|claimed| - 1], removed, now), last, removed(last.id), now)
  }

  function CleanedUp(r: Repo, now: int, limit: nat, removed: Id -> bool): Repo
    requires forall id :: id in r.order ==> id in r.records
  {
    var claimed := ClaimedBatch(DeletionBatch(Values(r), r.released, now, limit), Deleting, now);
    CleanEach(ClaimExpired(r, now, limit), claimed, removed, now)
  }

  lemma CleanNone(r: Repo, removed: Id -> bool, now: int)
    ensures CleanEach(r, [], removed, now) == r
  {
  }

  lemma CleanOneMore(r: Repo, claimed: seq<Upload>, k: nat, removed: Id -> bool, now: int)
    requires k < |claimed|
    ensures CleanEach(r, claimed[..k + 1], removed, now)
         == CleanOne(CleanEach(r, claimed[..k], removed, now), claimed[k], removed(claimed[k].id), now)
  {
    assert claimed[..k + 1][..k] == claimed[..k];
  }

  /** The cleanup loop of the maintenance service over an undisturbed repository. */
  class MaintenanceService {
    const repository: MemoryDiagnosticRepository

    constructor (repository: MemoryDiagnosticRepository)
      ensures this.repository == repository
    {
      this.repository := repository;
    }

    /** removed says of which objects the provider confirms the removal. */
    method Cleanup(now: int, limit: nat, removed: Id -> bool) returns (count: nat)
      requires repository.Valid()
      modifies repository
      ensures repository.Valid()
      ensures repository.State() == CleanedUp(old(repository.State()), now, limit, removed)
      ensures count == |DeletionBatch(Values(old(repository.State())), old(repository.capacityReleased), now, limit)|
    {
      hide CleanOne, CleanEach, DeletionBatch, ClaimExpired;
      var claimed := repository.ClaimExpired(now, limit);
      ghost var start := repository.State();
      CleanNone(start, removed, now);
      for k := 0 to |claimed|
        invariant repository.Valid() && repository.State() == CleanEach(start, claimed[..k], removed, now)
      {
        CleanOneMore(start, claimed, k, removed, now);
        RemoveOne(claimed[k], removed(claimed[k].id), now);
      }
      assert claimed[..|claimed|] == claimed;
      count := |claimed|;
    }

    method RemoveOne(record: Upload, removed: bool, now: int)
      requires repository.Valid()
      modifies repository
      ensures repository.Valid() && repository.State() == CleanOne(old(repository.State()), record, removed, now)
    {
      hide Uploads.AppendAudit, Uploads.Transition, Uploads.ScheduleDeletionRetry, WellFormed, DeletionRetryDelay;
      ghost var start := repository.State();
      var _ := repository.AppendAudit(record.id, Event(DeletionClaimed, now));
      ghost var audited := repository.State();
      assert audited == Audited(start, record.id, Event(DeletionClaimed, now));
      if removed {
        var _ := repository.Transition(record.id, {Deleting}, RemovalChange(Retention, now), now);
        assert repository.State()
            == Outcome(audited, Transition(audited, record.id, {Deleting}, RemovalChange(Retention, now), now)).0;
      } else {
        var delay := DeletionRetryDelay(record.deletionAttempts + 1);
        var _ := repository.ScheduleDeletionRetry(record.id, now + delay, Event(DeletionRetryScheduled, now), now);
      }
    }
  }

  // ------------------------------------------------------------------ repeated cleanups

  /** The records that are not yet terminal. */
  ghost function Alive(r: Repo): set<Id> {
    set id | id in r.records && !Terminal(r.records[id].status)
  }

  /** All deadlines have passed: every live record is due for deletion. */
  ghost predicate AllDue(r: Repo, now: int) {
    forall id :: id in r.records && !Terminal(r.records[id].status) ==> WantsDeletion(r.records[id], now)
  }

  ghost function BatchIds(batch: seq<Upload>): set<Id> {
    set u | u in batch :: u.id
  }

  /** The provider confirms every removal. */
  function AllRemoved(id: Id): bool { true }

  /** Confirmed removals make exactly the claimed records Deleted. */
  ghost predicate Removed(r: Repo, r': Repo, ids: set<Id>) {
    && r'.records.Keys == r.records.Keys
    && forall id :: id in r.records ==> if id in ids then r'.records[id].status == Deleted else r'.records[id] == r.records[id]
  }

  lemma CleanOneRemoves(r: Repo, u: Upload, now: int)
    requires WellFormed(r) && u.id in r.records && r.records[u.id].status == Deleting
    ensures WellFormed(CleanOne(r, u, true, now)) && Removed(r, CleanOne(r, u, true, now), {u.id})
  {
  }

  lemma RemovedTogether(r: Repo, mid: Repo, r': Repo, ids: set<Id>, id: Id)
    requires Removed(r, mid, ids) && Removed(mid, r', {id}) && id !in ids
    ensures Removed(r, r', ids + {id})
  {
  }

  lemma LastId(claimed: seq<Upload>)
    requires DistinctUploads(claimed) && claimed != []
    ensures var n := |claimed| - 1;
            && DistinctUploads(claimed[..n]) && claimed[n].id !in BatchIds(claimed[..n])
            && BatchIds(claimed) == BatchIds(claimed[..n]) + {claimed[n].id}
  {
    var n := |claimed| - 1;
    assert claimed == claimed[..n] + [claimed[n]];
  }

  lemma {:induction false} CleanEachRemoves(r: Repo, claimed: seq<Upload>, now: int)
    requires WellFormed(r) && DistinctUploads(claimed)
    requires forall u :: u in claimed ==> u.id in r.records && r.records[u.id].status == Deleting
    ensures WellFormed(CleanEach(r, claimed, AllRemoved, now))
    ensures Removed(r, CleanEach(r, claimed, AllRemoved, now), BatchIds(claimed))
  {
    hide WellFormed, CleanOne;
    if claimed != [] {
      var n := |claimed| - 1;
      LastId(claimed);
      CleanEachRemoves(r, claimed[..n], now);
      var mid := CleanEach(r, claimed[..n], AllRemoved, now);
      assert mid.records[claimed[n].id] == r.records[claimed[n].id];
      CleanOneRemoves(mid, claimed[n], now);
      RemovedTogether(r, mid, CleanOne(mid, claimed[n], true, now), BatchIds(claimed[..n]), claimed[n].id);
    }
  }

  lemma {:induction false} IdsCount(batch: seq<Upload>)
    requires DistinctUploads(batch)
    ensures |BatchIds(batch)| == |batch|
  {
    if batch != [] {
      var n := |batch| - 1;
      IdsCount(batch[..n]);
      assert batch == batch[..n] + [batch[n]];
      assert BatchIds(batch) == BatchIds(batch[..n]) + {batch[n].id};
      assert batch[n].id !in BatchIds(batch[..n]);
    }
  }

  /** The due records are the live ones, so a batch holds all of them or as many as the limit allows. */
  lemma DueAreAlive(r: Repo, now: int, due: seq<Upload>)
    requires WellFormed(r) && AllDue(r, now) && Distinct(due)
    requires forall u :: u in due <==> u in Values(r) && WantsDeletion(u, now)
    ensures |due| == |Alive(r)|
  {
    ValuesDistinct(r);
    forall i, j | 0 <= i < j < |due| ensures due[i].id != due[j].id {
      assert due[i] in due && due[j] in due && due[i] != due[j];
    }
    IdsCount(due);
    forall id ensures id in BatchIds(due) <==> id in Alive(r) {
      if id in Alive(r) {
        assert r.records[id] in Values(r) && r.records[id] in due;
      }
      if id in BatchIds(due) {
        var u :| u in due && u.id == id;
        DueIsAlive(u, now);
      }
    }
    assert BatchIds(due) == Alive(r);
  }

  lemma BatchSize(r: Repo, now: int, limit: nat)
    requires WellFormed(r) && AllDue(r, now)
    ensures var batch := DeletionBatch(Values(r), r.released, now, limit);
            |batch| == if |Alive(r)| < limit then |Alive(r)| else limit
  {
    var want := (u: Upload) => WantsDeletion(u, now);
    var due := Filter(Values(r), want);
    ValuesDistinct(r);
    FilterKeepsDistinct(Values(r), want);
    SortedContents(due, DeletionKey(r.released));
    hide WantsDeletion, WellFormed;
    DueAreAlive(r, now, due);
  }

  /** When every live record is due and removals succeed, one cleanup removes a full batch of them. */
  lemma CleanupShrinks(r: Repo, now: int, limit: nat)
    requires WellFormed(r) && AllDue(r, now)
    ensures var r' := CleanedUp(r, now, limit, AllRemoved);
            && WellFormed(r') && AllDue(r', now)
            && Alive(r') <= Alive(r)
            && |Alive(r')| == if |Alive(r)| < limit then 0 else |Alive(r)| - limit
  {
    var batch := DeletionBatch(Values(r), r.released, now, limit);
    var claimed := ClaimedBatch(batch, Deleting, now);
    var mid := ClaimExpired(r, now, limit);
    DeletionBatchKnown(r, now, limit);
    BatchSize(r, now, limit);
    IdsCount(batch);
    ClaimAllWellFormed(r, batch, Deleting, now);
    hide DeletionBatch;
    ClaimedAreDeleting(r, batch, now);
    CleanEachRemoves(mid, claimed, now);
    var r' := CleanedUp(r, now, limit, AllRemoved);
    assert BatchIds(claimed) == BatchIds(batch) by { SameIds(batch, now); }
    BatchIsAlive(r, batch, now);
    ClaimedThenRemoved(r, mid, r', batch, now);
    AliveAfter(r, r', BatchIds(batch), now);
  }

  lemma SameIds(batch: seq<Upload>, now: int)
    ensures BatchIds(ClaimedBatch(batch, Deleting, now)) == BatchIds(batch)
  {
    var claimed := ClaimedBatch(batch, Deleting, now);
    forall u | u in batch ensures u.id in BatchIds(claimed) {
      var i :| 0 <= i < |batch| && batch[i] == u;
      assert claimed[i] in claimed;
    }
    forall v | v in claimed ensures v.id in BatchIds(batch) {
      var i :| 0 <= i < |claimed| && claimed[i] == v;
      assert batch[i] in batch;
    }
  }

  lemma ClaimedAreDeleting(r: Repo, batch: seq<Upload>, now: int)
    requires DistinctUploads(batch) && forall u :: u in batch ==> u.id in r.records && r.records[u.id] == u
    ensures var claimed := ClaimedBatch(batch, Deleting, now);
            && DistinctUploads(claimed)
            && forall v :: v in claimed ==>
                 v.id in ClaimAll(r, batch, Deleting, now).records
                 && ClaimAll(r, batch, Deleting, now).records[v.id].status == Deleting
  {
    var claimed := ClaimedBatch(batch, Deleting, now);
    forall v | v in claimed
      ensures v.id in r.records && InBatch(batch, v.id)
    {
      var i :| 0 <= i < |claimed| && claimed[i] == v;
      assert batch[i] in batch;
    }
  }

  lemma BatchIsAlive(r: Repo, batch: seq<Upload>, now: int)
    requires forall u :: u in batch ==> u.id in r.records && r.records[u.id] == u && WantsDeletion(u, now)
    ensures BatchIds(batch) <= Alive(r)
  {
    hide WantsDeletion;
    forall u | u in batch ensures !Terminal(u.status) { DueIsAlive(u, now); }
  }

  /** A claimed and removed batch is gone; every other record is as it was. */
  lemma ClaimedThenRemoved(r: Repo, mid: Repo, r': Repo, batch: seq<Upload>, now: int)
    requires WellFormed(r)
    requires mid == ClaimAll(r, batch, Deleting, now) && Removed(mid, r', BatchIds(batch))
    ensures Removed(r, r', BatchIds(batch))
  {
    hide WellFormed;
    forall id | id in r.records && id !in BatchIds(batch) ensures r'.records[id] == r.records[id] {
      assert !InBatch(batch, id);
    }
  }

  /** Removing some of the live records leaves the others, still due. */
  lemma AliveAfter(r: Repo, r': Repo, ids: set<Id>, now: int)
    requires AllDue(r, now) && Removed(r, r', ids) && ids <= Alive(r)
    ensures Alive(r') == Alive(r) - ids && |Alive(r')| == |Alive(r)| - |ids|
    ensures AllDue(r', now)
  {
    hide WantsDeletion;
    assert Alive(r') == Alive(r) - ids;
    StillDue(r, r', now);
    hide Alive, AllDue, Removed;
  }

  lemma StillDue(r: Repo, r': Repo, now: int)
    requires AllDue(r, now) && r'.records.Keys == r.records.Keys
    requires forall id :: id in r.records ==> Terminal(r'.records[id].status) || r'.records[id] == r.records[id]
    ensures AllDue(r', now)
  {
    hide WantsDeletion, Terminal;
  }

  lemma DueIsAlive(u: Upload, now: int)
    requires WantsDeletion(u, now)
    ensures !Terminal(u.status)
  {
  }

  // ------------------------------------------------------------------ a cleanup as a run of steps

  /** What cleanup does with removal p when the provider answers: announce, abort, delete, finish. */
  function RemoveSteps(p: nat): seq<Step> {
    [OnRemoval(AnnounceRemoval(p)), OnRemoval(AbortUpload(p, true, true)), OnRemoval(DeleteVersions(p, true, true)),
     OnRemoval(FinishRemoval(p))]
  }

  function RemoveAll(p: nat, count: nat): seq<Step>
    decreases count
  {
    if count == 0 then [] else RemoveSteps(p) + RemoveAll(p + 1, count - 1)
  }

  /** One whole cleanup: the claim, then every claimed record in turn. */
  ghost function CleanupSteps(s: System, limit: nat): seq<Step>
    requires WellFormed(s.repo)
  {
    [OnRemoval(ClaimForDeletion(limit))]
    + RemoveAll(|s.removals|, |DeletionBatch(Values(s.repo), s.repo.released, s.now, limit)|)
  }

  /** The system after one record has been removed. */
  ghost predicate RemovedAt(s: System, s': System, p: nat)
    requires p < |s.removals|
  {
    && s'.repo == CleanOne(s.repo, s.removals[p].seen, true, s.now) && s'.now == s.now
    && |s'.removals| == |s.removals|
    && forall q :: 0 <= q < |s.removals| && q != p ==> s'.removals[q] == s.removals[q]
  }

  lemma AnnounceShape(s: System, p: nat)
    requires RemovalAt(s, p, Claimed)
    ensures var s' := DoAnnounceRemoval(s, p);
      && s'.repo == Audited(s.repo, s.removals[p].seen.id, Event(DeletionClaimed, s.now)) && s'.now == s.now
      && s'.removals == s.removals[p := s.removals[p].(stage := Announced)]
  {
    hide Audited;
  }

  lemma AbortShape(s: System, p: nat)
    requires RemovalAt(s, p, Announced)
    ensures var s' := DoAbortUpload(s, p, true, true);
      (s'.repo, s'.now, s'.removals) == (s.repo, s.now, s.removals[p := s.removals[p].(stage := Cut)])
  {
  }

  lemma DeleteShape(s: System, p: nat)
    requires RemovalAt(s, p, Cut)
    ensures var s' := DoDeleteVersions(s, p, true, true);
      (s'.repo, s'.now, s'.removals) == (s.repo, s.now, s.removals[p := s.removals[p].(stage := Gone)])
  {
  }

  lemma FinishShape(s: System, p: nat)
    requires RemovalAt(s, p, Gone) && s.removals[p].reason == Retention
    ensures var s' := DoFinishRemoval(s, p);
      && s'.repo == Attempt(s, s.removals[p].seen.id, {Deleting}, RemovalChange(Retention, s.now)).0
      && s'.now == s.now
      && s'.removals == s.removals[p := s.removals[p].(stage := Settled)]
  {
    hide Attempt;
  }

  lemma RemoveStepsRemove(s: System, p: nat)
    requires Safe(s) && RemovalAt(s, p, Claimed) && s.removals[p].reason == Retention
    ensures RemovedAt(s, RunFrom(s, RemoveSteps(p)), p)
  {
    hide Safe, WellFormed, DoAnnounceRemoval, DoAbortUpload, DoDeleteVersions, DoFinishRemoval, Audited, Attempt,
         RunFrom;
    SafeIsWellFormed(s);
    var s1 := DoAnnounceRemoval(s, p);
    var s2 := DoAbortUpload(s1, p, true, true);
    var s3 := DoDeleteVersions(s2, p, true, true);
    AnnounceShape(s, p);
    AbortShape(s1, p);
    DeleteShape(s2, p);
    FinishShape(s3, p);
    RemoveStepsRun(s, p);
    CleanOneShape(s3, s.repo, s.removals[p].seen);
  }

  lemma CleanOneShape(s: System, r: Repo, u: Upload)
    requires s.repo == Audited(r, u.id, Event(DeletionClaimed, s.now))
    ensures CleanOne(r, u, true, s.now) == Attempt(s, u.id, {Deleting}, RemovalChange(Retention, s.now)).0
  {
    hide Audited, Transition, Outcome;
  }

  lemma RemoveStepsRun(s: System, p: nat)
    requires Safe(s)
    ensures RunFrom(s, RemoveSteps(p))
         == DoFinishRemoval(DoDeleteVersions(DoAbortUpload(DoAnnounceRemoval(s, p), p, true, true), p, true, true), p)
  {
    hide Safe, WellFormed, DoAnnounceRemoval, DoAbortUpload, DoDeleteVersions, DoFinishRemoval;
    var steps := RemoveSteps(p);
    var s1 := DoAnnounceRemoval(s, p);
    var s2 := DoAbortUpload(s1, p, true, true);
    var s3 := DoDeleteVersions(s2, p, true, true);
    RunCons(s, steps[0], steps[1..]);
    RunCons(s1, steps[1], steps[2..]);
    RunCons(s2, steps[2], steps[3..]);
    RunCons(s3, steps[3], []);
    hide RunFrom;
    assert steps == [steps[0]] + steps[1..] && steps[1..] == [steps[1]] + steps[2..];
    assert steps[2..] == [steps[2]] + steps[3..] && steps[3..] == [steps[3]] + [];
    RunNothing(DoFinishRemoval(s3, p));
  }

  lemma RunNothing(s: System)
    requires Safe(s)
    ensures RunFrom(s, []) == s
  {
    hide Safe;
  }

  /** From the given place on, the removals of the claimed records from k on have not begun. */
  ghost predicate AwaitRemoval(s: System, claimed: seq<Upload>, first: nat, k: nat) {
    && |s.removals| == first + |claimed|
    && forall i :: k <= i < |claimed| ==> s.removals[first + i] == Removal(claimed[i], Retention, Claimed)
  }

  lemma OneLessAwaited(s: System, t: System, claimed: seq<Upload>, first: nat, k: nat)
    requires k < |claimed| && AwaitRemoval(s, claimed, first, k) && RemovedAt(s, t, first + k)
    ensures AwaitRemoval(t, claimed, first, k + 1)
  {
    hide CleanOne;
  }

  /** Removing the claimed records from place k on completes the cleanup. */
  lemma {:induction false} RemoveAllRemoves(s: System, start: Repo, claimed: seq<Upload>, first: nat, k: nat)
    requires Safe(s) && k <= |claimed| && AwaitRemoval(s, claimed, first, k)
    requires s.repo == CleanEach(start, claimed[..k], AllRemoved, s.now)
    ensures var s' := RunFrom(s, RemoveAll(first + k, |claimed| - k));
      s'.repo == CleanEach(start, claimed, AllRemoved, s.now) && s'.now == s.now
    decreases |claimed| - k
  {
    hide Safe, CleanOne, CleanEach, RunFrom, RemoveSteps;
    if k == |claimed| {
      assert claimed[..k] == claimed;
      RunNothing(s);
    } else {
      var p := first + k;
      assert s.removals[p] == Removal(claimed[k], Retention, Claimed);
      RemoveStepsRemove(s, p);
      var t := RunFrom(s, RemoveSteps(p));
      CleanOneMore(start, claimed, k, AllRemoved, s.now);
      OneLessAwaited(s, t, claimed, first, k);
      RunFromAppend(s, RemoveSteps(p), RemoveAll(p + 1, |claimed| - k - 1));
      hide AwaitRemoval;
      RemoveAllRemoves(t, start, claimed, first, k + 1);
    }
  }

  /** Undisturbed and with every removal confirmed, the steps of a cleanup have the effect of the cleanup method. */
  lemma CleanupStepsCleanUp(s: System, limit: nat)
    requires Safe(s)
    ensures WellFormed(s.repo)
    ensures var s' := RunFrom(s, CleanupSteps(s, limit));
      s'.repo == CleanedUp(s.repo, s.now, limit, AllRemoved) && s'.now == s.now
  {
    hide Safe, WellFormed, DeletionBatch, ClaimExpired, CleanEach, DoClaimForDeletion, RunFrom, RemoveAll,
         AllRemoved, AwaitRemoval, ClaimedBatch;
    SafeIsWellFormed(s);
    var batch := DeletionBatch(Values(s.repo), s.repo.released, s.now, limit);
    var claimed := ClaimedBatch(batch, Deleting, s.now);
    var rest := RemoveAll(|s.removals|, |batch|);
    var t := DoClaimForDeletion(s, limit);
    RunCons(s, OnRemoval(ClaimForDeletion(limit)), rest);
    ClaimShape(s, limit);
    RemoveAllFromStart(t, claimed, |s.removals|);
  }

  lemma RemoveAllFromStart(s: System, claimed: seq<Upload>, first: nat)
    requires Safe(s) && AwaitRemoval(s, claimed, first, 0)
    ensures var s' := RunFrom(s, RemoveAll(first, |claimed|));
      s'.repo == CleanEach(s.repo, claimed, AllRemoved, s.now) && s'.now == s.now
  {
    hide Safe, CleanEach, RunFrom, RemoveAll, AwaitRemoval;
    CleanNone(s.repo, AllRemoved, s.now);
    assert claimed[..0] == [];
    RemoveAllRemoves(s, s.repo, claimed, first, 0);
  }

  lemma ClaimShape(s: System, limit: nat)
    requires WellFormed(s.repo)
    ensures var s' := DoClaimForDeletion(s, limit);
      var claimed := ClaimedBatch(DeletionBatch(Values(s.repo), s.repo.released, s.now, limit), Deleting, s.now);
      && s'.repo == ClaimExpired(s.repo, s.now, limit) && s'.now == s.now
      && AwaitRemoval(s', claimed, |s.removals|, 0)
  {
    var claimed := ClaimedBatch(DeletionBatch(Values(s.repo), s.repo.released, s.now, limit), Deleting, s.now);
    hide WellFormed, DeletionBatch, ClaimExpired, ClaimedBatch, AwaitRemoval;
    FreshRemovals(s, DoClaimForDeletion(s, limit), claimed);
  }

  lemma FreshRemovals(s: System, s': System, claimed: seq<Upload>)
    requires s'.removals == s.removals + Removals(claimed)
    ensures AwaitRemoval(s', claimed, |s.removals|, 0)
  {
  }
}
