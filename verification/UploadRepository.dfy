/** The in-memory repository: each method updates its fields in place and does what the specification says. */
module UploadRepository {
  import opened Options
  import opened Sequences
  import opened Sorting
  import opened Policy
  import opened Uploads
  import opened AdmissionExactly
  import CapacityLoop

  class MemoryDiagnosticRepository {
    var records: map<Id, Upload>
    var order: seq<Id>
    var capacityReleased: set<Id>
    var audit: seq<AuditRecord>
    var nextAuditId: nat

    ghost function State(): Repo
      reads this
    {
      Repo(records, order, capacityReleased, audit)
    }

    ghost predicate Valid()
      reads this
    {
      WellFormed(State()) && nextAuditId == |audit| + 1
    }

    constructor ()
      ensures Valid() && State() == EMPTY_REPO
    {
      records, order, capacityReleased, audit, nextAuditId := map[], [], {}, [], 1;
    }

    method RecordAudit(id: Id, event: Event)
      requires Valid() && id in records
      modifies this`audit, this`nextAuditId
      ensures Valid() && State() == Logged(old(State()), id, event)
    {
      audit := audit + [AuditRecord(nextAuditId, id, event)];
      nextAuditId := nextAuditId + 1;
    }

    method CurrentValues() returns (us: seq<Upload>)
      requires Valid()
      ensures us == Values(State())
    {
      us := Values(Repo(records, order, capacityReleased, audit));
    }

    method InsertWithinQuota(record: Upload, since: int, limits: QuotaLimits, event: Event)
      returns (result: Result<bool, Failure>)
      requires Valid() && record.install != ""
      modifies this
      ensures Valid()
      ensures Uploads.InsertWithinQuota(old(State()), record, since, limits, event) == After(result)
      ensures result == Ok(true) <==>
        && record.id !in old(records)
        && QuotasAllow(Values(old(State())), record, since, limits)
        && RoomEnough(Values(old(State())), old(capacityReleased), record.sizeBytes, limits.globalRetainedBytes)
      ensures result != Ok(true) ==> State() == old(State())
    {
      AdmittedExactly(State(), record, since, limits, event);
      hide QuotasAllow, RoomEnough;
      if record.id in records {
        return Err(AlreadyExists);
      }
      var values := CurrentValues();
      if QuotaRefuses(values, record, since, limits) {
        return Ok(false);
      }
      var retained := RetainedArchives(values, capacityReleased);
      RetainedDistinct(State());
      var evictionIds := CapacityLoop.SelectCapacityEvictions(retained, record.sizeBytes, limits.globalRetainedBytes);
      if evictionIds.None? {
        return Ok(false);
      }
      EvictionsKnown(State(), record, limits);
      Admit(record, evictionIds.value, event);
      result := Ok(true);
    }

    /** Evicts the victims, then stores the new record and its audit event. */
    method Admit(record: Upload, evictionIds: seq<Id>, event: Event)
      requires Valid() && record.id !in records && record.install != ""
      requires forall id :: id in evictionIds ==> id in records
      modifies this
      ensures Valid() && State() == Add(EvictAll(old(State()), evictionIds, record.createdAt), record, event)
    {
      EvictEach(evictionIds, record.createdAt);
      AddWellFormed(State(), record, event);
      records := records[record.id := record];
      order := order + [record.id];
      audit := audit + [AuditRecord(nextAuditId, record.id, event)];
      nextAuditId := nextAuditId + 1;
    }

    method EvictEach(ids: seq<Id>, at: int)
      requires Valid() && forall id :: id in ids ==> id in records
      modifies this
      ensures Valid() && State() == EvictAll(old(State()), ids, at)
    {
      ghost var start := State();
      for k := 0 to |ids|
        invariant Valid() && records.Keys == start.records.Keys
        invariant State() == EvictAll(start, ids[..k], at)
      {
        EvictAllStep(start, ids, k, at);
        EvictOne(ids[k], at);
      }
      assert ids[..|ids|] == ids;
    }

    method EvictOne(id: Id, at: int)
      requires Valid() && id in records
      modifies this
      ensures Valid() && State() == Evict(old(State()), id, at)
    {
      EvictWellFormed(State(), id, at);
      records := records[id := records[id].(status := Expired, updatedAt := at)];
      capacityReleased := capacityReleased + {id};
      audit := audit + [AuditRecord(nextAuditId, id, Event(RetentionEvicted, at))];
      nextAuditId := nextAuditId + 1;
    }

    method SetProviderUploadId(id: Id, uploadId: string, now: int) returns (result: Result<bool, Failure>)
      requires Valid()
      modifies this`records
      ensures Valid()
      ensures Uploads.SetProviderUploadId(old(State()), id, uploadId, now) == After(result)
      ensures result != Ok(true) ==> State() == old(State())
    {
      if id !in records {
        return Err(NotFound);
      }
      if records[id].status != Uploading {
        return Ok(false);
      }
      records := records[id := records[id].(providerUploadId := Some(uploadId), updatedAt := now)];
      result := Ok(true);
    }

    /** The specification's result that goes with a method's result and the state it leaves. */
    ghost function After<T>(result: Result<T, Failure>): Result<(Repo, T), Failure>
      reads this
    {
      match result case Err(e) => Err(e) case Ok(value) => Ok((State(), value))
    }

    method RegisterPartGrant(id: Id, partNumber: int, grant: Grant, now: int) returns (result: Result<bool, Failure>)
      requires Valid()
      modifies this`records
      ensures Valid()
      ensures Uploads.RegisterPartGrant(old(State()), id, partNumber, grant, now) == After(result)
      ensures result != Ok(true) ==> State() == old(State())
    {
      if id !in records {
        return Err(NotFound);
      }
      var record := records[id];
      if record.status != Uploading {
        return Ok(false);
      }
      if partNumber in record.multipartParts {
        var existing := record.multipartParts[partNumber];
        if existing.sizeBytes != grant.sizeBytes || existing.sha256 != grant.sha256 {
          return Ok(false);
        }
      }
      records := records[id := record.(multipartParts := record.multipartParts[partNumber := grant], updatedAt := now)];
      result := Ok(true);
    }

    method Transition(id: Id, expected: set<Status>, change: Change, now: int) returns (result: Result<bool, Failure>)
      requires Valid()
      modifies this
      ensures Valid()
      ensures Uploads.Transition(old(State()), id, expected, change, now) == After(result)
      ensures result != Ok(true) ==> State() == old(State())
    {
      if id !in records {
        return Err(NotFound);
      }
      var record := records[id];
      if record.status !in expected {
        return Ok(false);
      }
      if change.acceptanceDeadlineAfter.Some? {
        if record.acceptanceDeadline.None? || record.acceptanceDeadline.value <= change.acceptanceDeadlineAfter.value {
          return Ok(false);
        }
      }
      record := record.(status := change.status);
      if change.expiresAt.Some? {
        record := record.(expiresAt := change.expiresAt.value);
      }
      if change.acceptanceDeadline.Some? {
        record := record.(acceptanceDeadline := change.acceptanceDeadline.value);
      }
      if change.providerUploadId.Some? {
        record := record.(providerUploadId := change.providerUploadId.value);
      }
      records := records[id := record.(updatedAt := now)];
      if change.audit.Some? {
        RecordAudit(id, change.audit.value);
      }
      result := Ok(true);
    }

    method AppendAudit(id: Id, event: Event) returns (result: Result<(), Failure>)
      requires Valid()
      modifies this`audit, this`nextAuditId
      ensures Valid()
      ensures Uploads.AppendAudit(old(State()), id, event) == match result case Err(e) => Err(e) case Ok(_) => Ok(State())
      ensures result.Err? ==> State() == old(State())
    {
      if id !in records {
        return Err(NotFound);
      }
      RecordAudit(id, event);
      result := Ok(());
    }

    method ScheduleDeletionRetry(id: Id, nextAttemptAt: int, event: Event, now: int) returns (result: Result<bool, Failure>)
      requires Valid()
      modifies this
      ensures Valid()
      ensures Uploads.ScheduleDeletionRetry(old(State()), id, nextAttemptAt, event, now) == After(result)
      ensures result != Ok(true) ==> State() == old(State())
    {
      if id !in records {
        return Err(NotFound);
      }
      var record := records[id];
      if record.status != Deleting {
        return Ok(false);
      }
      records := records[id := record.(status := Failed, deletionAttempts := record.deletionAttempts + 1,
                                       nextDeletionAttemptAt := Some(nextAttemptAt), updatedAt := now)];
      capacityReleased := capacityReleased - {id};
      RecordAudit(id, event);
      result := Ok(true);
    }

    method ScheduleVerificationRetry(id: Id, nextAttemptAt: int, now: int) returns (result: Result<bool, Failure>)
      requires Valid()
      modifies this`records
      ensures Valid()
      ensures Uploads.ScheduleVerificationRetry(old(State()), id, nextAttemptAt, now) == After(result)
      ensures result != Ok(true) ==> State() == old(State())
    {
      if id !in records {
        return Err(NotFound);
      }
      var record := records[id];
      if record.status != VerifyingActive {
        return Ok(false);
      }
      records := records[id := record.(status := Verifying, verificationAttempts := record.verificationAttempts + 1,
                                       nextVerificationAttemptAt := Some(nextAttemptAt), updatedAt := now)];
      result := Ok(true);
    }

    method ClaimVerification(now: int, staleBefore: int, limit: nat, includeStored: bool) returns (claimed: seq<Upload>)
      requires Valid()
      modifies this`records
      ensures Valid() && State() == Uploads.ClaimVerification(old(State()), now, staleBefore, limit, includeStored)
      ensures claimed == ClaimedBatch(VerificationBatch(Values(old(State())), now, staleBefore, limit, includeStored),
                                      VerifyingActive, now)
    {
      var values := CurrentValues();
      var wanted := Filter(values, (u: Upload) => WantsVerification(u, now, staleBefore, includeStored));
      var batch := Take(StableSort(wanted, VerificationKey), limit);
      BatchKnown(old(State()), now, staleBefore, limit, includeStored);
      claimed := ClaimEach(batch, VerifyingActive, now);
    }

    method ClaimExpired(now: int, limit: nat) returns (claimed: seq<Upload>)
      requires Valid()
      modifies this`records
      ensures Valid() && State() == Uploads.ClaimExpired(old(State()), now, limit)
      ensures claimed == ClaimedBatch(DeletionBatch(Values(old(State())), old(capacityReleased), now, limit), Deleting, now)
    {
      var values := CurrentValues();
      var wanted := Filter(values, (u: Upload) => WantsDeletion(u, now));
      var batch := Take(StableSort(wanted, DeletionKey(capacityReleased)), limit);
      DeletionBatchKnown(old(State()), now, limit);
      claimed := ClaimEach(batch, Deleting, now);
    }

    /** The shared tail of both claims: mark every record of the batch. */
    method ClaimEach(batch: seq<Upload>, status: Status, now: int) returns (claimed: seq<Upload>)
      requires Valid() && DistinctUploads(batch)
      requires forall u :: u in batch ==> u.id in records && records[u.id] == u
      modifies this`records
      ensures Valid() && State() == ClaimAll(old(State()), batch, status, now)
      ensures claimed == ClaimedBatch(batch, status, now)
    {
      claimed := [];
      ClaimNone(records, status, now);
      for k := 0 to |batch|
        invariant claimed == ClaimedBatch(batch[..k], status, now)
        invariant records == ClaimRecords(old(records), batch[..k], status, now)
      {
        ClaimOneMore(old(records), batch, k, status, now);
        var record := ClaimedAs(records[batch[k].id], status, now);
        records := records[record.id := record];
        claimed := claimed + [record];
      }
      assert batch[..|batch|] == batch;
      ClaimAllWellFormed(old(State()), batch, status, now);
    }
  }
}
