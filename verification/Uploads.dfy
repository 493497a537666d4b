/** What the policy decides about an upload when it is created, and when its parts are checked. */
module Policy {
  import opened Options
  import opened Powers

  const MILLIS_PER_HOUR := 60 * 60 * 1000
  const ONE_GIB := 1024 * 1024 * 1024
  const MAXIMUM_ARCHIVE_BYTES := 3 * ONE_GIB
  const PART_BYTES := 128 * 1024 * 1024

  datatype QuotaLimits = QuotaLimits(
    installDailyBytes: nat, networkDailyBytes: nat, installDailyUploads: nat, networkDailyUploads: nat,
    installActiveUploads: nat, networkActiveUploads: nat, globalDailyBytes: nat, globalDailyUploads: nat,
    globalActiveUploads: nat, globalRetainedBytes: nat)

  const DIAGNOSTIC_QUOTA := QuotaLimits(
    40 * ONE_GIB, 120 * ONE_GIB, 8, 40, 2, 8, 500 * ONE_GIB, 1000, 32, 1_000_000_000_000)

  datatype Decision = Decision(partSizeBytes: nat, partCount: nat, expiresAt: int)

  /** The number of parts is the size divided by the part size, rounded up. */
  function PartCount(sizeBytes: nat): nat { (sizeBytes + PART_BYTES - 1) / PART_BYTES }

  /** A decided upload always starts on the way to Accepted, without an acceptance deadline. */
  function DecideUpload(sizeBytes: nat, now: int): Result<Decision, string> {
    if sizeBytes > MAXIMUM_ARCHIVE_BYTES then Err("Diagnostic archive exceeds 3 GiB.")
    else Ok(Decision(PART_BYTES, PartCount(sizeBytes), now + 72 * MILLIS_PER_HOUR))
  }

  /** Every part is full except possibly the last, which holds what is left. */
  function PartLength(sizeBytes: nat, partNumber: int): int {
    var left := sizeBytes - (partNumber - 1) * PART_BYTES;
    if PART_BYTES < left then PART_BYTES else left
  }

  const VERIFICATION_MAXIMUM_ATTEMPTS := 8

  function Min(a: int, b: int): int { if a < b then a else b }

  function Max(a: int, b: int): int { if a < b then b else a }

  /** How long one verification may take: time to read the archive at 5 MiB a second, plus five minutes, within bounds. */
  function VerificationDeadline(expectedBytes: nat): int {
    var rate := 5 * 1024 * 1024;
    var transfer := (expectedBytes * 1000 + rate - 1) / rate;
    Min(2 * MILLIS_PER_HOUR, Max(10 * 60 * 1000, transfer + 5 * 60 * 1000))
  }

  /** Half a minute doubled for every earlier attempt, at most an hour. */
  function VerificationRetryDelay(attempt: int): int
    requires attempt >= 1
  {
    Min(MILLIS_PER_HOUR, 30_000 * Power2(Min(attempt - 1, 7)))
  }

  /** Each further attempt doubles the delay, up to an hour. */
  lemma VerificationDelayDoubles(attempt: int)
    requires attempt >= 1
    ensures VerificationRetryDelay(1) == 30_000
    ensures VerificationRetryDelay(attempt + 1) == Min(MILLIS_PER_HOUR, 2 * VerificationRetryDelay(attempt))
  {
    assert Power2(6) == 64 && Power2(7) == 128 by { SmallPowers(); }
  }

  lemma SmallPowers()
    ensures Power2(3) == 8 && Power2(6) == 64 && Power2(7) == 128 && Power2(9) == 512
  {
    assert Power2(4) == 2 * Power2(3) && Power2(5) == 2 * Power2(4) && Power2(8) == 2 * Power2(7);
  }

  /** A minute doubled for every earlier attempt, at most six hours. */
  function DeletionRetryDelay(attempt: int): int
    requires attempt >= 1
  {
    Min(6 * MILLIS_PER_HOUR, 60_000 * Power2(Min(attempt - 1, 9)))
  }

  /** Each further attempt doubles the delay, up to six hours. */
  lemma DeletionDelayDoubles(attempt: int)
    requires attempt >= 1
    ensures DeletionRetryDelay(1) == 60_000
    ensures DeletionRetryDelay(attempt + 1) == Min(6 * MILLIS_PER_HOUR, 2 * DeletionRetryDelay(attempt))
  {
    SmallPowers();
  }
}

/** The diagnostic upload records and, as pure functions, what each repository operation does to them. */
module Uploads {
  import opened Options
  import opened Sequences
  import opened Sorting
  import opened Policy
  import Capacity

  type Id = nat

  datatype Status =
    | Uploading | Completing | Pending | Verifying | VerifyingActive | Accepted
    | Expired | Deleting | Failed
    | Deleted | Invalid | Rejected

  datatype Grant = Grant(sizeBytes: nat, sha256: string)

  datatype Upload = Upload(
    id: Id, install: string, network: string, sizeBytes: nat, status: Status, createdAt: int,
    acceptanceDeadline: Option<int>, expiresAt: int, providerUploadId: Option<string>,
    multipartParts: map<int, Grant>, verificationAttempts: nat, nextVerificationAttemptAt: Option<int>,
    deletionAttempts: nat, nextDeletionAttemptAt: Option<int>, updatedAt: int)

  datatype AuditAction =
    | UploadCreated | UploadCompleted | VerificationRequested | VerificationSucceeded | VerificationFailed
    | ModerationDelete | DownloadRequested | RetentionEvicted | DeletionClaimed | DeletionSucceeded
    | DeletionRetryScheduled | CompensationFailed

  datatype Event = Event(action: AuditAction, createdAt: int)

  datatype AuditRecord = AuditRecord(number: nat, uploadId: Id, event: Event)

  /** The repository's state; order is the insertion order of the record map. */
  datatype Repo = Repo(records: map<Id, Upload>, order: seq<Id>, released: set<Id>, audit: seq<AuditRecord>)

  datatype Failure = NotFound | AlreadyExists

  const EMPTY_REPO := Repo(map[], [], {}, [])

  ghost predicate WellFormed(r: Repo) {
    && Distinct(r.order)
    && (forall id :: id in r.order <==> id in r.records)
    && (forall id :: id in r.records ==> r.records[id].id == id && r.records[id].install != "")
    && r.released <= r.records.Keys
    && (forall i :: 0 <= i < |r.audit| ==> r.audit[i].number == i + 1 && r.audit[i].uploadId in r.records)
  }

  /** The records in insertion order. */
  function Values(r: Repo): (us: seq<Upload>)
    requires forall id :: id in r.order ==> id in r.records
    ensures |us| == |r.order| && forall i :: 0 <= i < |us| ==> us[i] == r.records[r.order[i]]
  {
    seq(|r.order|, i requires 0 <= i < |r.order| => r.records[r.order[i]])
  }

  predicate Terminal(s: Status) { s == Deleted || s == Rejected || s == Invalid }

  predicate CanEvict(s: Status) { s == Pending || s == Accepted || s == Failed || s == Expired }

  predicate IsActive(u: Upload) {
    || u.status in {Uploading, Completing, Verifying, VerifyingActive, Deleting}
    || (u.status == Pending && u.acceptanceDeadline.Some?)
  }

  // ------------------------------------------------------------------ single-record operations

  function Logged(r: Repo, id: Id, event: Event): Repo {
    r.(audit := r.audit + [AuditRecord(|r.audit| + 1, id, event)])
  }

  function Put(r: Repo, id: Id, u: Upload): Repo { r.(records := r.records[id := u]) }

  function SetProviderUploadId(r: Repo, id: Id, uploadId: string, now: int): Result<(Repo, bool), Failure> {
    if id !in r.records then Err(NotFound)
    else
      var u := r.records[id];
      if u.status != Uploading then Ok((r, false))
      else Ok((Put(r, id, u.(providerUploadId := Some(uploadId), updatedAt := now)), true))
  }

  function RegisterPartGrant(r: Repo, id: Id, partNumber: int, grant: Grant, now: int): Result<(Repo, bool), Failure> {
    if id !in r.records then Err(NotFound)
    else
      var u := r.records[id];
      if u.status != Uploading then Ok((r, false))
      else if partNumber in u.multipartParts && u.multipartParts[partNumber] != grant then Ok((r, false))
      else Ok((Put(r, id, u.(multipartParts := u.multipartParts[partNumber := grant], updatedAt := now)), true))
  }

  /** The fields a status transition may set; an outer None leaves the field as it is. */
  datatype Change = Change(
    status: Status, expiresAt: Option<int>, acceptanceDeadline: Option<Option<int>>,
    acceptanceDeadlineAfter: Option<int>, providerUploadId: Option<Option<string>>, audit: Option<Event>)

  /** A change of status alone. */
  function To(status: Status): Change { Change(status, None, None, None, None, None) }

  function Choose<T>(chosen: Option<T>, otherwise: T): T {
    match chosen case Some(value) => value case None => otherwise
  }

  predicate TransitionApplies(u: Upload, expected: set<Status>, change: Change) {
    && u.status in expected
    && (change.acceptanceDeadlineAfter.Some? ==>
          u.acceptanceDeadline.Some? && u.acceptanceDeadline.value > change.acceptanceDeadlineAfter.value)
  }

  function Changed(u: Upload, change: Change, now: int): Upload {
    u.(status := change.status,
       expiresAt := Choose(change.expiresAt, u.expiresAt),
       acceptanceDeadline := Choose(change.acceptanceDeadline, u.acceptanceDeadline),
       providerUploadId := Choose(change.providerUploadId, u.providerUploadId),
       updatedAt := now)
  }

  /** Compare-and-swap on the status, with the audit event appended in the same step. */
  function Transition(r: Repo, id: Id, expected: set<Status>, change: Change, now: int): Result<(Repo, bool), Failure> {
    if id !in r.records then Err(NotFound)
    else if !TransitionApplies(r.records[id], expected, change) then Ok((r, false))
    else
      var moved := Put(r, id, Changed(r.records[id], change, now));
      Ok((if change.audit.Some? then Logged(moved, id, change.audit.value) else moved, true))
  }

  function AppendAudit(r: Repo, id: Id, event: Event): Result<Repo, Failure> {
    if id !in r.records then Err(NotFound) else Ok(Logged(r, id, event))
  }

  /** A failed deletion takes the archive's bytes back into the ledger. */
  function ScheduleDeletionRetry(r: Repo, id: Id, nextAttemptAt: int, event: Event, now: int): Result<(Repo, bool), Failure> {
    if id !in r.records then Err(NotFound)
    else
      var u := r.records[id];
      if u.status != Deleting then Ok((r, false))
      else
        var failed := u.(status := Failed, deletionAttempts := u.deletionAttempts + 1,
                         nextDeletionAttemptAt := Some(nextAttemptAt), updatedAt := now);
        Ok((Logged(Put(r, id, failed).(released := r.released - {id}), id, event), true))
  }

  function ScheduleVerificationRetry(r: Repo, id: Id, nextAttemptAt: int, now: int): Result<(Repo, bool), Failure> {
    if id !in r.records then Err(NotFound)
    else
      var u := r.records[id];
      if u.status != VerifyingActive then Ok((r, false))
      else Ok((Put(r, id, u.(status := Verifying, verificationAttempts := u.verificationAttempts + 1,
                         nextVerificationAttemptAt := Some(nextAttemptAt), updatedAt := now)), true))
  }

  // ------------------------------------------------------------------ claims

  predicate WantsVerification(u: Upload, now: int, staleBefore: int, includeStored: bool) {
    || (includeStored && u.status == Pending && u.acceptanceDeadline.None?)
    || (u.status == Verifying && (u.nextVerificationAttemptAt.None? || u.nextVerificationAttemptAt.value <= now))
    || (u.status == VerifyingActive && u.updatedAt <= staleBefore)
  }

  function VerificationKey(u: Upload): Key { (if u.status == Pending then 1 else 0, u.updatedAt) }

  /** From this moment a verification is given up: the acceptance deadline, else a day after creation. */
  function VerificationEnd(u: Upload): int {
    if u.acceptanceDeadline.Some? then u.acceptanceDeadline.value else u.createdAt + 24 * MILLIS_PER_HOUR
  }

  /** How long a remover, or a completion, has its record to itself. */
  const DELETING_LEASE := 15 * 60 * 1000
  const COMPLETING_LEASE := 12 * MILLIS_PER_HOUR

  predicate WantsDeletion(u: Upload, now: int) {
    match u.status
    case Deleting => u.updatedAt + DELETING_LEASE <= now
    case Accepted => u.expiresAt <= now
    case Pending => u.expiresAt <= now || (u.acceptanceDeadline.Some? && u.acceptanceDeadline.value <= now)
    case Uploading => u.createdAt + 12 * MILLIS_PER_HOUR <= now
    case Completing => u.updatedAt + COMPLETING_LEASE <= now
    case Verifying => VerificationEnd(u) <= now || u.verificationAttempts >= 8
    case VerifyingActive => VerificationEnd(u) <= now || u.verificationAttempts >= 8
    case Expired => true
    case Failed => u.nextDeletionAttemptAt.None? || u.nextDeletionAttemptAt.value <= now
    case Deleted => false
    case Rejected => false
    case Invalid => false
  }

  /** Archives whose bytes are already released go first, then the earliest expiry. */
  function DeletionKey(released: set<Id>): Upload -> Key {
    (u: Upload) => (if u.id in released then 0 else 1, u.expiresAt)
  }

  function Take<T>(xs: seq<T>, limit: nat): (ys: seq<T>)
    ensures |ys| == if |xs| < limit then |xs| else limit
    ensures forall i :: 0 <= i < |ys| ==> ys[i] == xs[i]
  {
    if |xs| < limit then xs else xs[..limit]
  }

  function VerificationBatch(us: seq<Upload>, now: int, staleBefore: int, limit: nat, includeStored: bool): seq<Upload> {
    Take(StableSort(Filter(us, (u: Upload) => WantsVerification(u, now, staleBefore, includeStored)), VerificationKey), limit)
  }

  function DeletionBatch(us: seq<Upload>, released: set<Id>, now: int, limit: nat): seq<Upload> {
    Take(StableSort(Filter(us, (u: Upload) => WantsDeletion(u, now)), DeletionKey(released)), limit)
  }

  function ClaimedAs(u: Upload, status: Status, now: int): Upload { u.(status := status, updatedAt := now) }

  predicate InBatch(batch: seq<Upload>, id: Id) { exists u :: u in batch && u.id == id }

  /** Every record of the batch takes the claiming status; nothing else changes. */
  function ClaimRecords(records: map<Id, Upload>, batch: seq<Upload>, status: Status, now: int): map<Id, Upload> {
    map id | id in records :: if InBatch(batch, id) then ClaimedAs(records[id], status, now) else records[id]
  }

  function ClaimAll(r: Repo, batch: seq<Upload>, status: Status, now: int): Repo {
    r.(records := ClaimRecords(r.records, batch, status, now))
  }

  function ClaimVerification(r: Repo, now: int, staleBefore: int, limit: nat, includeStored: bool): Repo
    requires forall id :: id in r.order ==> id in r.records
  {
    ClaimAll(r, VerificationBatch(Values(r), now, staleBefore, limit, includeStored), VerifyingActive, now)
  }

  function ClaimExpired(r: Repo, now: int, limit: nat): Repo
    requires forall id :: id in r.order ==> id in r.records
  {
    ClaimAll(r, DeletionBatch(Values(r), r.released, now, limit), Deleting, now)
  }

  // ------------------------------------------------------------------ admission

  function SizeOf(u: Upload): nat { u.sizeBytes }

  function Recent(us: seq<Upload>, since: int): seq<Upload> { Filter(us, (u: Upload) => u.createdAt >= since) }

  function OfInstall(us: seq<Upload>, install: string): seq<Upload> { Filter(us, (u: Upload) => u.install == install) }

  function OfNetwork(us: seq<Upload>, network: string): seq<Upload> { Filter(us, (u: Upload) => u.network == network) }

  function Active(us: seq<Upload>): seq<Upload> { Filter(us, IsActive) }

  /** The nine admission quotas, counted over the uploads of the last day. */
  predicate QuotaRefuses(us: seq<Upload>, record: Upload, since: int, limits: QuotaLimits) {
    var recent := Recent(us, since);
    var install := OfInstall(recent, record.install);
    var network := OfNetwork(recent, record.network);
    || |install| >= limits.installDailyUploads
    || |network| >= limits.networkDailyUploads
    || |OfInstall(Active(recent), record.install)| >= limits.installActiveUploads
    || |OfNetwork(Active(recent), record.network)| >= limits.networkActiveUploads
    || |recent| >= limits.globalDailyUploads
    || |Active(recent)| >= limits.globalActiveUploads
    || Sum(install, SizeOf) + record.sizeBytes > limits.installDailyBytes
    || Sum(network, SizeOf) + record.sizeBytes > limits.networkDailyBytes
    || Sum(recent, SizeOf) + record.sizeBytes > limits.globalDailyBytes
  }

  function ToArchive(u: Upload): Capacity.Archive {
    Capacity.Archive(u.id, u.install, u.sizeBytes, u.createdAt, CanEvict(u.status))
  }

  predicate IsRetained(u: Upload, released: set<Id>) { !Terminal(u.status) && u.id !in released }

  /** The archives whose bytes count against the global limit. */
  function RetainedArchives(us: seq<Upload>, released: set<Id>): seq<Capacity.Archive> {
    Map(Filter(us, (u: Upload) => IsRetained(u, released)), ToArchive)
  }

  function Evict(r: Repo, id: Id, at: int): Repo
    requires id in r.records
  {
    Logged(Put(r, id, r.records[id].(status := Expired, updatedAt := at)).(released := r.released + {id}), id,
           Event(RetentionEvicted, at))
  }

  function EvictAll(r: Repo, ids: seq<Id>, at: int): (r': Repo)
    requires forall id :: id in ids ==> id in r.records
    ensures r'.records.Keys == r.records.Keys
  {
    if ids == [] then r
    else Evict(EvictAll(r, ids[..|ids| - 1], at), ids[|ids| - 1], at)
  }

  function Add(r: Repo, record: Upload, event: Event): Repo {
    Logged(r.(records := r.records[record.id := record], order := r.order + [record.id]), record.id, event)
  }

  /** The archives the capacity rule evicts for an incoming record, None when they do not suffice. */
  ghost function Evictions(r: Repo, record: Upload, limits: QuotaLimits): Option<seq<Capacity.Archive>>
    requires WellFormed(r)
  {
    var retained := RetainedArchives(Values(r), r.released);
    RetainedDistinct(r);
    Capacity.Greedy(Elements(retained), Capacity.Need(retained, record.sizeBytes, limits.globalRetainedBytes))
  }

  ghost function InsertWithinQuota(r: Repo, record: Upload, since: int, limits: QuotaLimits, event: Event)
    : Result<(Repo, bool), Failure>
    requires WellFormed(r)
  {
    if record.id in r.records then Err(AlreadyExists)
    else if QuotaRefuses(Values(r), record, since, limits) then Ok((r, false))
    else
      match Evictions(r, record, limits)
      case None => Ok((r, false))
      case Some(victims) =>
        EvictionsKnown(r, record, limits);
        Ok((Add(EvictAll(r, Capacity.IdList(victims), record.createdAt), record, event), true))
  }

  // ------------------------------------------------------------------ facts the operations rest on

  lemma ValuesDistinct(r: Repo)
    requires WellFormed(r)
    ensures Distinct(Values(r))
    ensures forall u :: u in Values(r) <==> u.id in r.records && r.records[u.id] == u
  {
    var us := Values(r);
    forall u: Upload | u.id in r.records && r.records[u.id] == u ensures u in us {
      var i :| 0 <= i < |r.order| && r.order[i] == u.id;
      assert us[i] == u;
    }
    forall i, j | 0 <= i < j < |us| ensures us[i] != us[j] {
      assert us[i].id == r.order[i] && us[j].id == r.order[j];
    }
  }

  /** Distinct records give distinct archives with distinct ids. */
  lemma RetainedDistinct(r: Repo)
    requires WellFormed(r)
    ensures var retained := RetainedArchives(Values(r), r.released);
            Distinct(retained) && Capacity.DistinctIds(Elements(retained))
    ensures forall a :: a in RetainedArchives(Values(r), r.released) ==>
              a.id in r.records && IsRetained(r.records[a.id], r.released) && a == ToArchive(r.records[a.id])
  {
    ValuesDistinct(r);
    var kept := Filter(Values(r), (u: Upload) => IsRetained(u, r.released));
    FilterKeepsDistinct(Values(r), (u: Upload) => IsRetained(u, r.released));
    var retained := RetainedArchives(Values(r), r.released);
    forall i, j | 0 <= i < j < |retained| ensures retained[i] != retained[j] {
      assert kept[i] in kept && kept[j] in kept && kept[i] != kept[j];
    }
    forall a | a in retained
      ensures a.id in r.records && IsRetained(r.records[a.id], r.released) && a == ToArchive(r.records[a.id])
    {
      var i :| 0 <= i < |retained| && retained[i] == a;
      assert kept[i] in kept && kept[i] in Values(r);
    }
  }

  /** Victims are evictable retained records. */
  lemma EvictionsKnown(r: Repo, record: Upload, limits: QuotaLimits)
    requires WellFormed(r) && Evictions(r, record, limits).Some?
    ensures var victims := Evictions(r, record, limits).value;
            && Distinct(Capacity.IdList(victims))
            && forall v :: v in victims ==>
                 v.id in r.records && IsRetained(r.records[v.id], r.released) && CanEvict(r.records[v.id].status)
                 && v == ToArchive(r.records[v.id])
    ensures forall id :: id in Capacity.IdList(Evictions(r, record, limits).value) ==>
              id in r.records && IsRetained(r.records[id], r.released) && CanEvict(r.records[id].status)
  {
    var retained := RetainedArchives(Values(r), r.released);
    RetainedDistinct(r);
    Capacity.GreedyPicksEvictable(Elements(retained), Capacity.Need(retained, record.sizeBytes, limits.globalRetainedBytes));
    var victims := Evictions(r, record, limits).value;
    var ids := Capacity.IdList(victims);
    forall i, j | 0 <= i < j < |ids| ensures ids[i] != ids[j] {
      assert victims[i] in Elements(retained) && victims[j] in Elements(retained);
    }
  }

  function ClaimedBatch(batch: seq<Upload>, status: Status, now: int): (claimed: seq<Upload>)
    ensures |claimed| == |batch| && forall i :: 0 <= i < |batch| ==> claimed[i] == ClaimedAs(batch[i], status, now)
  {
    seq(|batch|, i requires 0 <= i < |batch| => ClaimedAs(batch[i], status, now))
  }

  ghost predicate DistinctUploads(batch: seq<Upload>) {
    forall i, j :: 0 <= i < j < |batch| ==> batch[i].id != batch[j].id
  }

  /** A batch taken from the sorted eligible records is made of distinct stored records. */
  lemma TakenKnown(r: Repo, want: Upload -> bool, key: Upload -> Key, limit: nat)
    requires WellFormed(r)
    ensures var batch := Take(StableSort(Filter(Values(r), want), key), limit);
            && DistinctUploads(batch)
            && forall u :: u in batch ==> u.id in r.records && r.records[u.id] == u && want(u)
  {
    ValuesDistinct(r);
    FilterKeepsDistinct(Values(r), want);
    var wanted := Filter(Values(r), want);
    SortedContents(wanted, key);
    var sorted := StableSort(wanted, key);
    var batch := Take(sorted, limit);
    forall u | u in batch ensures u.id in r.records && r.records[u.id] == u && want(u) {
      assert u in sorted && u in wanted && u in Values(r);
    }
    forall i, j | 0 <= i < j < |batch| ensures batch[i].id != batch[j].id {
      assert batch[i] in batch && batch[j] in batch;
      assert sorted[i] != sorted[j];
    }
  }

  lemma BatchKnown(r: Repo, now: int, staleBefore: int, limit: nat, includeStored: bool)
    requires WellFormed(r)
    ensures var batch := VerificationBatch(Values(r), now, staleBefore, limit, includeStored);
            && DistinctUploads(batch)
            && forall u :: u in batch ==>
                 u.id in r.records && r.records[u.id] == u && WantsVerification(u, now, staleBefore, includeStored)
  {
    TakenKnown(r, (u: Upload) => WantsVerification(u, now, staleBefore, includeStored), VerificationKey, limit);
  }

  lemma DeletionBatchKnown(r: Repo, now: int, limit: nat)
    requires WellFormed(r)
    ensures var batch := DeletionBatch(Values(r), r.released, now, limit);
            && DistinctUploads(batch)
            && forall u :: u in batch ==> u.id in r.records && r.records[u.id] == u && WantsDeletion(u, now)
  {
    TakenKnown(r, (u: Upload) => WantsDeletion(u, now), DeletionKey(r.released), limit);
  }

  /** v goes before u: a smaller key, or the same and inserted earlier. */
  ghost predicate GoesFirst(r: Repo, key: Upload -> Key, v: Upload, u: Upload) {
    KeyLess(key(v), key(u)) || (key(v) == key(u) && ListedBefore(r.order, v.id, u.id))
  }

  /** A record that qualifies is left out only when the batch is full, and then all that was taken goes before it. */
  lemma LeftOutLast(r: Repo, want: Upload -> bool, key: Upload -> Key, limit: nat, id: Id)
    requires WellFormed(r) && id in r.records && want(r.records[id])
    ensures var batch := Take(StableSort(Filter(Values(r), want), key), limit);
            || r.records[id] in batch
            || (|batch| == limit && forall v :: v in batch ==> GoesFirst(r, key, v, r.records[id]))
  {
    ValuesDistinct(r);
    var u := r.records[id];
    var wanted := Filter(Values(r), want);
    SortedContents(wanted, key);
    StableSortStable(wanted, key);
    assert u in wanted;
    hide StableSort, Filter, ListedBefore;
    forall v | ListedBefore(wanted, v, u) ensures ListedBefore(r.order, v.id, u.id) {
      FilterListed(Values(r), want, v, u);
      ValuesListed(r, v, u);
    }
    hide WellFormed;
    TakenFirst(r, wanted, StableSort(wanted, key), key, limit, u);
  }

  lemma ValuesListed(r: Repo, v: Upload, u: Upload)
    requires WellFormed(r) && ListedBefore(Values(r), v, u)
    ensures ListedBefore(r.order, v.id, u.id)
  {
    var i, j :| 0 <= i < j < |Values(r)| && Values(r)[i] == v && Values(r)[j] == u;
    assert r.order[i] == v.id && r.order[j] == u.id;
  }

  lemma TakenFirst(r: Repo, wanted: seq<Upload>, sorted: seq<Upload>, key: Upload -> Key, limit: nat, u: Upload)
    requires StablySorted(wanted, sorted, key) && u in sorted
    requires forall v :: ListedBefore(wanted, v, u) ==> ListedBefore(r.order, v.id, u.id)
    ensures var batch := Take(sorted, limit);
      u in batch || (|batch| == limit && forall v :: v in batch ==> GoesFirst(r, key, v, u))
  {
    hide ListedBefore;
    var j :| 0 <= j < |sorted| && sorted[j] == u;
    var batch := Take(sorted, limit);
    if j < limit {
      assert batch[j] == u;
    } else {
      forall v | v in batch ensures GoesFirst(r, key, v, u) {
        var i :| 0 <= i < |batch| && batch[i] == v;
        assert sorted[i] == v;
      }
    }
  }

  /**
   * v is claimed for verification before u: requested ones before stored ones, then the longest waiting, then the one
   * inserted earlier.
   */
  ghost predicate MoreUrgent(r: Repo, v: Upload, u: Upload) {
    || (v.status != Pending && u.status == Pending)
    || ((v.status == Pending <==> u.status == Pending)
        && (v.updatedAt < u.updatedAt || (v.updatedAt == u.updatedAt && ListedBefore(r.order, v.id, u.id))))
  }

  /**
   * v is claimed for deletion before u: those whose bytes are released already, then the earliest expiry, then the one
   * inserted earlier.
   */
  ghost predicate DueBefore(r: Repo, v: Upload, u: Upload) {
    || (v.id in r.released && u.id !in r.released)
    || ((v.id in r.released <==> u.id in r.released)
        && (v.expiresAt < u.expiresAt || (v.expiresAt == u.expiresAt && ListedBefore(r.order, v.id, u.id))))
  }

  /** Claims for verification leave a record that qualifies only for others that are more urgent. */
  lemma VerificationTakesFirst(r: Repo, now: int, staleBefore: int, limit: nat, includeStored: bool, id: Id)
    requires WellFormed(r) && id in r.records
    requires WantsVerification(r.records[id], now, staleBefore, includeStored)
    ensures var batch := VerificationBatch(Values(r), now, staleBefore, limit, includeStored);
            || r.records[id] in batch
            || (|batch| == limit && forall v :: v in batch ==> MoreUrgent(r, v, r.records[id]))
  {
    LeftOutLast(r, (u: Upload) => WantsVerification(u, now, staleBefore, includeStored), VerificationKey, limit, id);
    hide ListedBefore, VerificationBatch, WantsVerification, WellFormed;
  }

  /** Claims for deletion leave a record that is due only for others that come before it. */
  lemma DeletionTakesFirst(r: Repo, now: int, limit: nat, id: Id)
    requires WellFormed(r) && id in r.records && WantsDeletion(r.records[id], now)
    ensures var batch := DeletionBatch(Values(r), r.released, now, limit);
            || r.records[id] in batch
            || (|batch| == limit && forall v :: v in batch ==> DueBefore(r, v, r.records[id]))
  {
    LeftOutLast(r, (u: Upload) => WantsDeletion(u, now), DeletionKey(r.released), limit, id);
    hide ListedBefore, WantsDeletion, WellFormed;
  }

  /** Claiming record by record builds up the claimed map. */
  lemma ClaimOneMore(records: map<Id, Upload>, batch: seq<Upload>, k: nat, status: Status, now: int)
    requires k < |batch| && DistinctUploads(batch)
    requires forall u :: u in batch ==> u.id in records && records[u.id] == u
    ensures var u := batch[k];
            var before := ClaimRecords(records, batch[..k], status, now);
            && u.id in before && before[u.id] == u
            && ClaimRecords(records, batch[..k + 1], status, now) == before[u.id := ClaimedAs(u, status, now)]
    ensures ClaimedBatch(batch[..k + 1], status, now)
         == ClaimedBatch(batch[..k], status, now) + [ClaimedAs(batch[k], status, now)]
  {
    var u := batch[k];
    assert u in batch;
    assert batch[..k + 1] == batch[..k] + [u];
    assert !InBatch(batch[..k], u.id);
    forall id ensures InBatch(batch[..k + 1], id) <==> InBatch(batch[..k], id) || id == u.id {
      if InBatch(batch[..k], id) {
        var v :| v in batch[..k] && v.id == id;
        assert v in batch[..k + 1];
      }
      assert u in batch[..k + 1];
    }
  }

  lemma ClaimNone(records: map<Id, Upload>, status: Status, now: int)
    ensures ClaimRecords(records, [], status, now) == records
  {
  }

  /** An admission evicts its victims and adds the record; a refusal changes nothing. */
  lemma AdmissionShape(r: Repo, record: Upload, since: int, limits: QuotaLimits, event: Event)
    requires WellFormed(r) && record.id !in r.records
    ensures InsertWithinQuota(r, record, since, limits, event).Ok?
    ensures var outcome := InsertWithinQuota(r, record, since, limits, event).value;
            if outcome.1 then
              && Evictions(r, record, limits).Some?
              && (forall id :: id in Capacity.IdList(Evictions(r, record, limits).value) ==> id in r.records)
              && outcome.0 == Add(EvictAll(r, Capacity.IdList(Evictions(r, record, limits).value), record.createdAt),
                                  record, event)
            else outcome.0 == r
  {
    if Evictions(r, record, limits).Some? {
      EvictionsKnown(r, record, limits);
    }
  }

  // ------------------------------------------------------------------ the operations keep the repository well-formed

  lemma LoggedWellFormed(r: Repo, id: Id, event: Event)
    requires WellFormed(r) && id in r.records
    ensures WellFormed(Logged(r, id, event))
  {
  }

  lemma PutWellFormed(r: Repo, id: Id, u: Upload)
    requires WellFormed(r) && id in r.records && u.id == id && u.install != ""
    ensures WellFormed(Put(r, id, u))
  {
  }

  lemma ReleasedWellFormed(r: Repo, released: set<Id>)
    requires WellFormed(r) && released <= r.released
    ensures WellFormed(r.(released := released))
  {
  }

  lemma TransitionWellFormed(r: Repo, id: Id, expected: set<Status>, change: Change, now: int)
    requires WellFormed(r)
    ensures Transition(r, id, expected, change, now).Ok? ==>
              WellFormed(Transition(r, id, expected, change, now).value.0)
  {
    if id in r.records && TransitionApplies(r.records[id], expected, change) {
      var changed := Changed(r.records[id], change, now);
      PutWellFormed(r, id, changed);
      hide WellFormed;
      if change.audit.Some? {
        LoggedWellFormed(Put(r, id, changed), id, change.audit.value);
      }
    }
  }

  lemma ClaimAllWellFormed(r: Repo, batch: seq<Upload>, status: Status, now: int)
    requires WellFormed(r)
    ensures WellFormed(ClaimAll(r, batch, status, now))
  {
  }

  lemma EvictWellFormed(r: Repo, id: Id, at: int)
    requires WellFormed(r) && id in r.records
    ensures WellFormed(Evict(r, id, at))
  {
    PutWellFormed(r, id, r.records[id].(status := Expired, updatedAt := at));
  }

  lemma {:induction false} EvictAllWellFormed(r: Repo, ids: seq<Id>, at: int)
    requires WellFormed(r) && forall id :: id in ids ==> id in r.records
    ensures WellFormed(EvictAll(r, ids, at))
    ensures EvictAll(r, ids, at).order == r.order
  {
    if ids != [] {
      EvictAllWellFormed(r, ids[..|ids| - 1], at);
      EvictWellFormed(EvictAll(r, ids[..|ids| - 1], at), ids[|ids| - 1], at);
    }
  }

  lemma EvictAllStep(r: Repo, ids: seq<Id>, k: nat, at: int)
    requires k < |ids| && forall id :: id in ids ==> id in r.records
    ensures EvictAll(r, ids[..k + 1], at) == Evict(EvictAll(r, ids[..k], at), ids[k], at)
  {
    assert ids[..k + 1][..k] == ids[..k];
  }

  lemma AddWellFormed(r: Repo, record: Upload, event: Event)
    requires WellFormed(r) && record.id !in r.records && record.install != ""
    ensures WellFormed(Add(r, record, event))
  {
  }
}
