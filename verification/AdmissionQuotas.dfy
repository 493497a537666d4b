/** Right after an admission the nine quotas hold, with the admitted upload counted in. */
module AdmissionQuotas {
  import opened Sequences
  import opened Policy
  import opened Uploads
  import opened Lifecycle
  import opened LifecycleRuns
  import Capacity

  /** The quotas as limits on what is stored. */
  ghost predicate WithinQuotas(us: seq<Upload>, install: string, network: string, since: int, limits: QuotaLimits) {
    var recent := Recent(us, since);
    && |OfInstall(recent, install)| <= limits.installDailyUploads
    && |OfNetwork(recent, network)| <= limits.networkDailyUploads
    && |OfInstall(Active(recent), install)| <= limits.installActiveUploads
    && |OfNetwork(Active(recent), network)| <= limits.networkActiveUploads
    && |recent| <= limits.globalDailyUploads
    && |Active(recent)| <= limits.globalActiveUploads
    && Sum(OfInstall(recent, install), SizeOf) <= limits.installDailyBytes
    && Sum(OfNetwork(recent, network), SizeOf) <= limits.networkDailyBytes
    && Sum(recent, SizeOf) <= limits.globalDailyBytes
  }

  /** What the quotas read of an upload is the same, except that it may no longer be active. */
  predicate Shadows(u: Upload, v: Upload) {
    && v.createdAt == u.createdAt && v.install == u.install && v.network == u.network && v.sizeBytes == u.sizeBytes
    && (IsActive(v) ==> IsActive(u))
  }

  ghost predicate AllShadow(us: seq<Upload>, vs: seq<Upload>) {
    |us| == |vs| && forall i :: 0 <= i < |us| ==> Shadows(us[i], vs[i])
  }

  ghost predicate Blind(keep: Upload -> bool) {
    forall u, v :: Shadows(u, v) ==> keep(u) == keep(v)
  }

  lemma {:induction false} FilterShadows(us: seq<Upload>, vs: seq<Upload>, keep: Upload -> bool)
    requires AllShadow(us, vs) && Blind(keep)
    ensures AllShadow(Filter(us, keep), Filter(vs, keep))
  {
    hide Shadows;
    if us != [] {
      FilterShadows(us[1..], vs[1..], keep);
      assert Shadows(us[0], vs[0]);
    }
  }

  lemma {:induction false} ActiveThins(us: seq<Upload>, vs: seq<Upload>, keep: Upload -> bool)
    requires AllShadow(us, vs) && Blind(keep)
    ensures |Filter(Active(vs), keep)| <= |Filter(Active(us), keep)|
  {
    hide IsActive;
    if us != [] {
      assert Shadows(us[0], vs[0]);
      ActiveThins(us[1..], vs[1..], keep);
    }
  }

  lemma {:induction false} ActiveThinsAll(us: seq<Upload>, vs: seq<Upload>)
    requires AllShadow(us, vs)
    ensures |Active(vs)| <= |Active(us)|
  {
    hide IsActive;
    if us != [] {
      assert Shadows(us[0], vs[0]);
      ActiveThinsAll(us[1..], vs[1..]);
    }
  }

  lemma {:induction false} SumShadows(us: seq<Upload>, vs: seq<Upload>)
    requires AllShadow(us, vs)
    ensures Sum(us, SizeOf) == Sum(vs, SizeOf)
  {
    if us != [] {
      assert Shadows(us[0], vs[0]);
      SumShadows(us[1..], vs[1..]);
    }
  }

  lemma {:induction false} FilterLast(us: seq<Upload>, last: Upload, keep: Upload -> bool)
    ensures Filter(us + [last], keep) == Filter(us, keep) + if keep(last) then [last] else []
  {
    if us == [] {
      assert us + [last] == [last];
    } else {
      assert (us + [last])[1..] == us[1..] + [last];
      FilterLast(us[1..], last, keep);
    }
  }

  /** The stored uploads after an admission shadow those before it, up to the admitted one. */
  lemma {:induction false} EvictedShadow(r: Repo, ids: seq<Id>, at: int)
    requires forall id :: id in r.order ==> id in r.records
    requires forall id :: id in ids ==> id in r.records && CanEvict(r.records[id].status)
    ensures EvictAll(r, ids, at).order == r.order
    ensures forall id :: id in r.records ==> Shadows(r.records[id], EvictAll(r, ids, at).records[id])
  {
    if ids != [] {
      EvictedShadow(r, ids[..|ids| - 1], at);
      var middle := EvictAll(r, ids[..|ids| - 1], at);
      EvictOneShadows(middle, ids[|ids| - 1], at);
    }
  }

  lemma EvictOneShadows(r: Repo, id: Id, at: int)
    requires id in r.records
    ensures Evict(r, id, at).order == r.order && Evict(r, id, at).records.Keys == r.records.Keys
    ensures forall other :: other in r.records ==> Shadows(r.records[other], Evict(r, id, at).records[other])
  {
  }

  lemma EvictedValues(r: Repo, ids: seq<Id>, at: int)
    requires forall id :: id in r.order ==> id in r.records
    requires forall id :: id in ids ==> id in r.records && CanEvict(r.records[id].status)
    ensures EvictAll(r, ids, at).order == r.order
    ensures AllShadow(Values(r), Values(EvictAll(r, ids, at)))
  {
    hide Shadows;
    EvictedShadow(r, ids, at);
    hide EvictAll;
    assert forall i :: 0 <= i < |r.order| ==> r.order[i] in r.records;
  }

  lemma AddedValues(r: Repo, record: Upload, event: Event)
    requires record.id !in r.records && forall id :: id in r.order ==> id in r.records
    ensures var r' := Add(r, record, event);
      (forall id :: id in r'.order ==> id in r'.records) && Values(r') == Values(r) + [record]
  {
  }

  lemma AdmittedValues(r: Repo, record: Upload, since: int, limits: QuotaLimits, event: Event)
    returns (vs: seq<Upload>)
    requires WellFormed(r) && record.id !in r.records
    requires InsertWithinQuota(r, record, since, limits, event).value.1
    ensures AllShadow(Values(r), vs)
    ensures var r' := InsertWithinQuota(r, record, since, limits, event).value.0;
      (forall id :: id in r'.order ==> id in r'.records) && Values(r') == vs + [record]
  {
    hide InsertWithinQuota, AllShadow;
    AdmissionShape(r, record, since, limits, event);
    EvictionsKnown(r, record, limits);
    hide Evictions, EvictAll, Add;
    var ids := Capacity.IdList(Evictions(r, record, limits).value);
    EvictedValues(r, ids, record.createdAt);
    var evicted := EvictAll(r, ids, record.createdAt);
    vs := Values(evicted);
    AddedValues(evicted, record, event);
  }

  lemma {:induction false} SumWithLast(us: seq<Upload>, last: Upload)
    ensures Sum(us + [last], SizeOf) == Sum(us, SizeOf) + last.sizeBytes
  {
    SumAppend(us, [last], SizeOf);
    assert Sum([last], SizeOf) == last.sizeBytes;
  }

  lemma RecentShadow(us: seq<Upload>, vs: seq<Upload>, record: Upload, since: int)
    requires AllShadow(us, vs) && record.createdAt >= since
    ensures AllShadow(Recent(us, since), Recent(vs, since))
    ensures Recent(vs + [record], since) == Recent(vs, since) + [record]
  {
    FilterShadows(us, vs, (u: Upload) => u.createdAt >= since);
    FilterLast(vs, record, (u: Upload) => u.createdAt >= since);
  }

  /** One selection of the recent uploads grows by at most the admitted upload. */
  lemma SelectionGrows(us: seq<Upload>, vs: seq<Upload>, record: Upload, keep: Upload -> bool)
    requires AllShadow(us, vs) && Blind(keep) && keep(record) && IsActive(record)
    ensures |Filter(vs + [record], keep)| == |Filter(us, keep)| + 1
    ensures Sum(Filter(vs + [record], keep), SizeOf) == Sum(Filter(us, keep), SizeOf) + record.sizeBytes
    ensures |Filter(Active(vs + [record]), keep)| <= |Filter(Active(us), keep)| + 1
    ensures |Active(vs + [record])| <= |Active(us)| + 1
  {
    hide Shadows, IsActive;
    FilterShadows(us, vs, keep);
    SumShadows(Filter(us, keep), Filter(vs, keep));
    FilterLast(vs, record, keep);
    SumWithLast(Filter(vs, keep), record);
    FilterLast(vs, record, IsActive);
    FilterLast(Active(vs), record, keep);
    ActiveThins(us, vs, keep);
    ActiveThinsAll(us, vs);
  }

  lemma EverythingGrows(us: seq<Upload>, vs: seq<Upload>, record: Upload)
    requires AllShadow(us, vs)
    ensures |vs + [record]| == |us| + 1 && Sum(vs + [record], SizeOf) == Sum(us, SizeOf) + record.sizeBytes
  {
    SumShadows(us, vs);
    SumWithLast(vs, record);
  }

  lemma InstallGrows(us: seq<Upload>, vs: seq<Upload>, record: Upload)
    requires AllShadow(us, vs) && IsActive(record)
    ensures |OfInstall(vs + [record], record.install)| == |OfInstall(us, record.install)| + 1
    ensures Sum(OfInstall(vs + [record], record.install), SizeOf)
      == Sum(OfInstall(us, record.install), SizeOf) + record.sizeBytes
    ensures |OfInstall(Active(vs + [record]), record.install)| <= |OfInstall(Active(us), record.install)| + 1
  {
    SelectionGrows(us, vs, record, (u: Upload) => u.install == record.install);
  }

  lemma NetworkGrows(us: seq<Upload>, vs: seq<Upload>, record: Upload)
    requires AllShadow(us, vs) && IsActive(record)
    ensures |OfNetwork(vs + [record], record.network)| == |OfNetwork(us, record.network)| + 1
    ensures Sum(OfNetwork(vs + [record], record.network), SizeOf)
      == Sum(OfNetwork(us, record.network), SizeOf) + record.sizeBytes
    ensures |OfNetwork(Active(vs + [record]), record.network)| <= |OfNetwork(Active(us), record.network)| + 1
    ensures |Active(vs + [record])| <= |Active(us)| + 1
  {
    SelectionGrows(us, vs, record, (u: Upload) => u.network == record.network);
  }

  lemma GrownWithinQuotas(us: seq<Upload>, vs: seq<Upload>, record: Upload, since: int, limits: QuotaLimits)
    requires AllShadow(us, vs) && IsActive(record) && record.createdAt >= since
    requires !QuotaRefuses(us, record, since, limits)
    ensures WithinQuotas(vs + [record], record.install, record.network, since, limits)
  {
    hide Recent, Active, OfInstall, OfNetwork, AllShadow, IsActive, Sum;
    RecentShadow(us, vs, record, since);
    InstallGrows(Recent(us, since), Recent(vs, since), record);
    NetworkGrows(Recent(us, since), Recent(vs, since), record);
    EverythingGrows(Recent(us, since), Recent(vs, since), record);
  }

  /**
   * After a successful admission each quota holds of the stored uploads: evictions only lower the active counts,
   * and the new upload is counted exactly once in each.
   */
  lemma AdmissionWithinQuotas(r: Repo, record: Upload, since: int, limits: QuotaLimits, event: Event)
    requires WellFormed(r) && record.id !in r.records && record.createdAt >= since && IsActive(record)
    requires InsertWithinQuota(r, record, since, limits, event).value.1
    ensures var r' := InsertWithinQuota(r, record, since, limits, event).value.0;
      && (forall id :: id in r'.order ==> id in r'.records)
      && WithinQuotas(Values(r'), record.install, record.network, since, limits)
  {
    var vs := AdmittedValues(r, record, since, limits, event);
    assert !QuotaRefuses(Values(r), record, since, limits);
    hide InsertWithinQuota, QuotaRefuses, WithinQuotas, AllShadow;
    GrownWithinQuotas(Values(r), vs, record, since, limits);
  }

  /** In every run a creation that is admitted leaves all nine quotas satisfied over the last 24 hours. */
  lemma AdmittedWithinQuotas(steps: seq<Step>, id: Id, install: string, network: string, sizeBytes: nat)
    requires id !in Run(steps).repo.records
    requires id in Next(Run(steps), OnUpload(Create(id, install, network, sizeBytes))).repo.records
    ensures var s := Next(Run(steps), OnUpload(Create(id, install, network, sizeBytes)));
      && (forall other :: other in s.repo.order ==> other in s.repo.records)
      && WithinQuotas(Values(s.repo), install, network, s.now - 24 * MILLIS_PER_HOUR, DIAGNOSTIC_QUOTA)
  {
    var s := Run(steps);
    var record := NewUpload(id, install, network, sizeBytes, s.now, s.now + 72 * MILLIS_PER_HOUR);
    hide Run, InsertWithinQuota, WithinQuotas;
    assert DoCreate(s, id, install, network, sizeBytes).repo != s.repo;
    AdmissionWithinQuotas(s.repo, record, s.now - 24 * MILLIS_PER_HOUR, DIAGNOSTIC_QUOTA, Event(UploadCreated, s.now));
  }
}
