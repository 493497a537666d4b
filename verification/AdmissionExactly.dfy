/** When an upload is admitted, counted upload by upload. */
module AdmissionExactly {
  import opened Options
  import opened Sequences
  import opened Policy
  import opened Uploads
  import Capacity

  // ------------------------------------------------------------------ counting

  function Many(us: seq<Upload>, counted: Upload -> bool): nat {
    if us == [] then 0 else (if counted(us[0]) then 1 else 0) + Many(us[1..], counted)
  }

  function Bytes(us: seq<Upload>, counted: Upload -> bool): nat {
    if us == [] then 0 else (if counted(us[0]) then us[0].sizeBytes else 0) + Bytes(us[1..], counted)
  }

  predicate IsBusy(u: Upload) {
    match u.status
    case Uploading => true
    case Completing => true
    case Verifying => true
    case VerifyingActive => true
    case Deleting => true
    case Pending => u.acceptanceDeadline.Some?
    case _ => false
  }

  /** Its bytes count against the global limit. */
  predicate IsKept(u: Upload, released: set<Id>) {
    u.status != Deleted && u.status != Rejected && u.status != Invalid && u.id !in released
  }

  predicate MayGo(u: Upload) {
    u.status == Pending || u.status == Accepted || u.status == Failed || u.status == Expired
  }

  function Today(since: int): Upload -> bool { (u: Upload) => u.createdAt >= since }

  function TodayOf(install: string, since: int): Upload -> bool {
    (u: Upload) => u.createdAt >= since && u.install == install
  }

  function TodayFrom(network: string, since: int): Upload -> bool {
    (u: Upload) => u.createdAt >= since && u.network == network
  }

  function BusyToday(since: int): Upload -> bool { (u: Upload) => u.createdAt >= since && IsBusy(u) }

  function BusyOf(install: string, since: int): Upload -> bool {
    (u: Upload) => u.createdAt >= since && IsBusy(u) && u.install == install
  }

  function BusyFrom(network: string, since: int): Upload -> bool {
    (u: Upload) => u.createdAt >= since && IsBusy(u) && u.network == network
  }

  function Kept(released: set<Id>): Upload -> bool { (u: Upload) => IsKept(u, released) }

  function KeptMayGo(released: set<Id>): Upload -> bool { (u: Upload) => IsKept(u, released) && MayGo(u) }

  /** With one more upload of this size none of the nine quotas is exceeded. */
  predicate QuotasAllow(us: seq<Upload>, record: Upload, since: int, limits: QuotaLimits) {
    && Many(us, TodayOf(record.install, since)) + 1 <= limits.installDailyUploads
    && Many(us, TodayFrom(record.network, since)) + 1 <= limits.networkDailyUploads
    && Many(us, BusyOf(record.install, since)) + 1 <= limits.installActiveUploads
    && Many(us, BusyFrom(record.network, since)) + 1 <= limits.networkActiveUploads
    && Many(us, Today(since)) + 1 <= limits.globalDailyUploads
    && Many(us, BusyToday(since)) + 1 <= limits.globalActiveUploads
    && Bytes(us, TodayOf(record.install, since)) + record.sizeBytes <= limits.installDailyBytes
    && Bytes(us, TodayFrom(record.network, since)) + record.sizeBytes <= limits.networkDailyBytes
    && Bytes(us, Today(since)) + record.sizeBytes <= limits.globalDailyBytes
  }

  /** What may be evicted is enough to bring the bytes kept, the new ones included, within the global limit. */
  predicate RoomEnough(us: seq<Upload>, released: set<Id>, sizeBytes: nat, limit: nat) {
    Bytes(us, Kept(released)) + sizeBytes <= limit + Bytes(us, KeptMayGo(released))
  }

  lemma {:induction false} FilterMany(us: seq<Upload>, keep: Upload -> bool)
    ensures |Filter(us, keep)| == Many(us, keep)
    ensures Sum(Filter(us, keep), SizeOf) == Bytes(us, keep)
  {
    if us != [] {
      FilterMany(us[1..], keep);
      if keep(us[0]) { SumCons(us[0], Filter(us[1..], keep), SizeOf); }
    }
  }

  lemma {:induction false} FilterTwice(us: seq<Upload>, first: Upload -> bool, second: Upload -> bool,
                                       both: Upload -> bool)
    requires forall u :: both(u) <==> first(u) && second(u)
    ensures Filter(Filter(us, first), second) == Filter(us, both)
  {
    if us != [] {
      FilterTwice(us[1..], first, second, both);
      if first(us[0]) { assert ([us[0]] + Filter(us[1..], first))[1..] == Filter(us[1..], first); }
    }
  }

  lemma {:induction false} FilterAlike(us: seq<Upload>, first: Upload -> bool, second: Upload -> bool)
    requires forall u :: first(u) <==> second(u)
    ensures Filter(us, first) == Filter(us, second)
  {
    if us != [] { FilterAlike(us[1..], first, second); }
  }

  lemma RecentCounts(us: seq<Upload>, since: int)
    ensures |Recent(us, since)| == Many(us, Today(since))
    ensures Sum(Recent(us, since), SizeOf) == Bytes(us, Today(since))
  {
    FilterAlike(us, (u: Upload) => u.createdAt >= since, Today(since));
    FilterMany(us, Today(since));
  }

  lemma InstallCounts(us: seq<Upload>, install: string, since: int)
    ensures |OfInstall(Recent(us, since), install)| == Many(us, TodayOf(install, since))
    ensures Sum(OfInstall(Recent(us, since), install), SizeOf) == Bytes(us, TodayOf(install, since))
  {
    FilterTwice(us, (u: Upload) => u.createdAt >= since, (u: Upload) => u.install == install, TodayOf(install, since));
    FilterMany(us, TodayOf(install, since));
  }

  lemma NetworkCounts(us: seq<Upload>, network: string, since: int)
    ensures |OfNetwork(Recent(us, since), network)| == Many(us, TodayFrom(network, since))
    ensures Sum(OfNetwork(Recent(us, since), network), SizeOf) == Bytes(us, TodayFrom(network, since))
  {
    FilterTwice(us, (u: Upload) => u.createdAt >= since, (u: Upload) => u.network == network,
                TodayFrom(network, since));
    FilterMany(us, TodayFrom(network, since));
  }

  lemma BusyIsActive(u: Upload)
    ensures IsBusy(u) <==> IsActive(u)
  {
  }

  lemma ActiveIsBusy(us: seq<Upload>, since: int)
    ensures Active(Recent(us, since)) == Filter(us, BusyToday(since))
  {
    forall u ensures IsBusy(u) <==> IsActive(u) { BusyIsActive(u); }
    hide IsBusy, IsActive;
    FilterTwice(us, (u: Upload) => u.createdAt >= since, IsActive, BusyToday(since));
  }

  lemma ActiveCounts(us: seq<Upload>, install: string, network: string, since: int)
    ensures |Active(Recent(us, since))| == Many(us, BusyToday(since))
    ensures |OfInstall(Active(Recent(us, since)), install)| == Many(us, BusyOf(install, since))
    ensures |OfNetwork(Active(Recent(us, since)), network)| == Many(us, BusyFrom(network, since))
  {
    hide IsBusy, Filter, Many;
    ActiveIsBusy(us, since);
    FilterMany(us, BusyToday(since));
    FilterTwice(us, BusyToday(since), (u: Upload) => u.install == install, BusyOf(install, since));
    FilterMany(us, BusyOf(install, since));
    FilterTwice(us, BusyToday(since), (u: Upload) => u.network == network, BusyFrom(network, since));
    FilterMany(us, BusyFrom(network, since));
  }

  /** An upload is refused for a quota exactly when it would exceed one. */
  lemma RefusedExactly(us: seq<Upload>, record: Upload, since: int, limits: QuotaLimits)
    ensures QuotaRefuses(us, record, since, limits) <==> !QuotasAllow(us, record, since, limits)
  {
    hide Recent, OfInstall, OfNetwork, Active, Many, Bytes, Sum;
    RecentCounts(us, since);
    InstallCounts(us, record.install, since);
    NetworkCounts(us, record.network, since);
    ActiveCounts(us, record.install, record.network, since);
  }

  // ------------------------------------------------------------------ room

  lemma KeptIsRetained(u: Upload, released: set<Id>)
    ensures IsKept(u, released) <==> IsRetained(u, released)
    ensures ToArchive(u) == Capacity.Archive(u.id, u.install, u.sizeBytes, u.createdAt, MayGo(u))
  {
  }

  lemma {:induction false} ArchiveBytes(us: seq<Upload>, released: set<Id>)
    ensures var retained := RetainedArchives(us, released);
      && Sum(retained, Capacity.Size) == Bytes(us, Kept(released))
      && Sum(retained, Capacity.EvictableSize) == Bytes(us, KeptMayGo(released))
  {
    if us != [] {
      ArchiveBytes(us[1..], released);
      KeptIsRetained(us[0], released);
      hide IsRetained, IsKept, ToArchive, MayGo;
      var rest := RetainedArchives(us[1..], released);
      if IsRetained(us[0], released) {
        RetainedFirst(us, released);
        SumCons(ToArchive(us[0]), rest, Capacity.Size);
        SumCons(ToArchive(us[0]), rest, Capacity.EvictableSize);
      } else {
        RetainedFirst(us, released);
      }
    }
  }

  lemma RetainedFirst(us: seq<Upload>, released: set<Id>)
    requires us != []
    ensures RetainedArchives(us, released)
      == (if IsRetained(us[0], released) then [ToArchive(us[0])] else []) + RetainedArchives(us[1..], released)
  {
    hide IsRetained, ToArchive;
  }

  /** The capacity rule finds victims exactly when what may go is enough. */
  lemma VictimsExactly(r: Repo, record: Upload, limits: QuotaLimits)
    requires WellFormed(r)
    ensures Evictions(r, record, limits).Some?
      <==> RoomEnough(Values(r), r.released, record.sizeBytes, limits.globalRetainedBytes)
  {
    hide RetainedArchives, Kept, KeptMayGo, Capacity.Greedy;
    var retained := RetainedArchives(Values(r), r.released);
    RetainedDistinct(r);
    ArchiveBytes(Values(r), r.released);
    Capacity.GreedyFailsIffTooSmall(retained, Capacity.Need(retained, record.sizeBytes, limits.globalRetainedBytes));
  }

  /** A new upload is admitted exactly when no quota would be exceeded and there is room enough. */
  lemma AdmittedExactly(r: Repo, record: Upload, since: int, limits: QuotaLimits, event: Event)
    requires WellFormed(r)
    ensures record.id in r.records ==> InsertWithinQuota(r, record, since, limits, event) == Err(AlreadyExists)
    ensures record.id !in r.records ==>
      var answer := InsertWithinQuota(r, record, since, limits, event);
      && answer.Ok?
      && (answer.value.1 <==>
            && QuotasAllow(Values(r), record, since, limits)
            && RoomEnough(Values(r), r.released, record.sizeBytes, limits.globalRetainedBytes))
      && (!answer.value.1 ==> answer.value.0 == r)
  {
    hide QuotaRefuses, QuotasAllow, RoomEnough, Evictions;
    RefusedExactly(Values(r), record, since, limits);
    VictimsExactly(r, record, limits);
    if record.id !in r.records { AdmissionShape(r, record, since, limits, event); }
  }
}
