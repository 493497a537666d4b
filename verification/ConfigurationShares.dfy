/** Shared configurations: a reservation that compensates by hand when its second half is refused. */
module ConfigurationShares {
  import opened Options
  import opened Sequences
  import opened Ascii
  import opened TwoLevelQuota

  datatype Share = Share(payload: Text, payloadSha256: Text, createdAt: int, expiresAt: int)

  datatype Request = Request(codeHash: Text, payload: Text, payloadSha256: Text, network: Text, createdAt: int,
                             expiresAt: int)

  datatype Outcome = Created | Invalid | Collision | Capacity

  datatype Store = Store(shares: map<Text, Share>, counters: Counters)

  const MINUTE := 60_000
  const LARGEST_PAYLOAD := 245_000
  const LIMITS := Limits(Usage(1000, 134_217_728), Usage(20, 5_242_880))

  predicate IsDigest(t: Text) {
    |t| == 64 && forall u :: u in t ==> IsLowerHex(u)
  }

  predicate IsPayload(t: Text) {
    && 1 <= |t| <= LARGEST_PAYLOAD
    && forall u :: u in t ==> 48 <= u <= 57 || 65 <= u <= 90 || 97 <= u <= 122 || u == 95 || u == 45
  }

  predicate IsNetwork(t: Text) { 40 <= |t| <= 64 }

  predicate Acceptable(r: Request, now: int) {
    && IsDigest(r.codeHash) && IsPayload(r.payload) && IsDigest(r.payloadSha256) && IsNetwork(r.network)
    && r.createdAt <= now + MINUTE
    && r.expiresAt > r.createdAt && r.expiresAt > now
    && r.expiresAt <= r.createdAt + 30 * DAY && r.expiresAt <= now + 30 * DAY
  }

  /** A payload is ASCII, so its bytes are its characters. */
  function AmountOf(r: Request): Usage { Usage(1, |r.payload|) }

  /** The result of a request, without saying how it is reached: nothing changes unless a share is created. */
  function CreateShare(s: Store, r: Request, now: int): (Store, Outcome) {
    if !Acceptable(r, now) then (s, Invalid)
    else if r.codeHash in s.shares then (s, Collision)
    else if !Fits(s.counters, LIMITS, DayOf(now), r.network, AmountOf(r)) then (s, Capacity)
    else
      (Store(s.shares[r.codeHash := Share(r.payload, r.payloadSha256, r.createdAt, r.expiresAt)],
             Charge(s.counters, DayOf(now), r.network, AmountOf(r))),
       Created)
  }

  // ------------------------------------------------------------------ the stored procedures

  class ShareTables {
    var shares: map<Text, Share>
    var daily: map<Day, Usage>
    var networkDaily: map<NetworkDay, Usage>

    ghost function Value(): Store
      reads this
    {
      Store(shares, Counters(daily, networkDaily))
    }

    /** A day's row is deleted when its count falls to zero. */
    ghost predicate Valid()
      reads this
    {
      forall day :: day in daily ==> daily[day].count > 0
    }

    constructor ()
      ensures Valid() && Value() == Store(map[], Counters(map[], map[]))
    {
      shares, daily, networkDaily := map[], map[], map[];
    }

    /** An upsert whose update applies only where the limits hold. */
    method ReserveDay(day: Day, bytes: nat) returns (reserved: bool)
      requires Valid() && bytes <= LARGEST_PAYLOAD
      modifies this`daily
      ensures reserved <==> Within(Plus(Used(old(daily), day), Usage(1, bytes)), LIMITS.daily)
      ensures daily == if reserved then old(daily)[day := Plus(Used(old(daily), day), Usage(1, bytes))] else old(daily)
    {
      if day !in daily {
        daily := daily[day := Usage(1, bytes)];
        return true;
      }
      var row := daily[day];
      reserved := row.count + 1 <= 1000 && row.bytes + bytes <= 134_217_728;
      if reserved {
        daily := daily[day := Usage(row.count + 1, row.bytes + bytes)];
      }
    }

    method ReserveNetwork(key: NetworkDay, bytes: nat) returns (reserved: bool)
      requires bytes <= LARGEST_PAYLOAD
      modifies this`networkDaily
      ensures reserved <==> Within(Plus(Used(old(networkDaily), key), Usage(1, bytes)), LIMITS.network)
      ensures networkDaily
        == if reserved then old(networkDaily)[key := Plus(Used(old(networkDaily), key), Usage(1, bytes))]
           else old(networkDaily)
    {
      if key !in networkDaily {
        networkDaily := networkDaily[key := Usage(1, bytes)];
        return true;
      }
      var row := networkDaily[key];
      reserved := row.count + 1 <= 20 && row.bytes + bytes <= 5_242_880;
      if reserved {
        networkDaily := networkDaily[key := Usage(row.count + 1, row.bytes + bytes)];
      }
    }

    /** Takes the day's reservation back when the network's is refused, so a refusal changes neither table. */
    method ReserveCapacity(network: Text, bytes: nat, now: int) returns (reserved: bool)
      requires Valid()
      modifies this`daily, this`networkDaily
      ensures Valid()
      ensures reserved <==>
        && IsNetwork(network) && 1 <= bytes <= LARGEST_PAYLOAD
        && Fits(old(Value()).counters, LIMITS, DayOf(now), network, Usage(1, bytes))
      ensures Value().counters
        == if reserved then Charge(old(Value()).counters, DayOf(now), network, Usage(1, bytes))
           else old(Value()).counters
    {
      if !IsNetwork(network) || bytes < 1 || bytes > LARGEST_PAYLOAD {
        return false;
      }
      var day := DayOf(now);
      reserved := ReserveDay(day, bytes);
      if !reserved {
        return false;
      }
      reserved := ReserveNetwork((day, network), bytes);
      if !reserved {
        daily := daily[day := Usage(daily[day].count - 1, daily[day].bytes - bytes)];
        if daily[day].count == 0 {
          daily := daily - {day};
        }
        assert daily == old(daily);
      }
    }

    method Create(r: Request, now: int) returns (outcome: Outcome)
      requires Valid()
      modifies this
      ensures Valid()
      ensures (Value(), outcome) == CreateShare(old(Value()), r, now)
    {
      if !Acceptable(r, now) {
        return Invalid;
      }
      if r.codeHash in shares {
        return Collision;
      }
      shares := shares[r.codeHash := Share(r.payload, r.payloadSha256, r.createdAt, r.expiresAt)];
      var reserved := ReserveCapacity(r.network, |r.payload|, now);
      if !reserved {
        shares := shares - {r.codeHash};
        assert shares == old(shares);
        return Capacity;
      }
      return Created;
    }
  }

  // ------------------------------------------------------------------ any sequence of requests

  /** Cleanup deletes some of the expired shares, and counters more than 31 days old. */
  datatype Call = Create(request: Request, now: int) | DeleteExpired(now: int, removed: set<Text>)

  /** The store, and the ledger of created shares with the first day whose counters are still kept. */
  datatype World = World(store: Store, grants: seq<Grant>, firstKept: Day)

  function Next(w: World, call: Call): World {
    match call
    case Create(r, now) =>
      var (store, outcome) := CreateShare(w.store, r, now);
      World(store,
            if outcome == Created then w.grants + [Grant(DayOf(now), r.network, AmountOf(r))] else w.grants,
            w.firstKept)
    case DeleteExpired(now, removed) =>
      var expired := set hash | hash in removed && hash in w.store.shares && w.store.shares[hash].expiresAt <= now;
      var from := DayOf(now) - 31;
      World(Store(w.store.shares - expired, Purge(w.store.counters, from)), w.grants,
            if from > w.firstKept then from else w.firstKept)
  }

  function Run(w: World, calls: seq<Call>): World { FoldLeft(w, calls, Next) }

  const EMPTY := Store(map[], Counters(map[], map[]))

  ghost predicate BytesFollowCount(c: Counters) {
    forall key :: key in c.networkDaily ==> c.networkDaily[key].bytes <= LARGEST_PAYLOAD * c.networkDaily[key].count
  }

  ghost predicate InOrder(w: World) {
    Balanced(w.store.counters, LIMITS, w.grants, w.firstKept) && BytesFollowCount(w.store.counters)
  }

  lemma ChargeBytes(c: Counters, day: Day, r: Request)
    requires BytesFollowCount(c) && |r.payload| <= LARGEST_PAYLOAD
    ensures BytesFollowCount(Charge(c, day, r.network, AmountOf(r)))
  {
    var c' := Charge(c, day, r.network, AmountOf(r));
    var own := (day, r.network);
    forall key | key in c'.networkDaily
      ensures c'.networkDaily[key].bytes <= LARGEST_PAYLOAD * c'.networkDaily[key].count
    {
      if key == own {
        assert Used(c.networkDaily, own).bytes <= LARGEST_PAYLOAD * Used(c.networkDaily, own).count;
      }
    }
  }

  lemma NextInOrder(w: World, call: Call)
    requires InOrder(w)
    ensures InOrder(Next(w, call))
  {
    hide Balanced, Fits, Charge;
    match call {
      case Create(r, now) =>
        if CreateShare(w.store, r, now).1 == Created {
          ChargeKeepsBalanced(w.store.counters, LIMITS, w.grants, w.firstKept, DayOf(now), r.network, AmountOf(r));
          ChargeBytes(w.store.counters, DayOf(now), r);
        }
      case DeleteExpired(now, removed) =>
        PurgeKeepsBalanced(w.store.counters, LIMITS, w.grants, w.firstKept, DayOf(now) - 31);
    }
  }

  lemma RunInOrder(w: World, calls: seq<Call>)
    requires InOrder(w)
    ensures InOrder(Run(w, calls))
  {
    hide InOrder, Next;
    forall v, call | InOrder(v) ensures InOrder(Next(v, call)) { NextInOrder(v, call); }
    FoldKeeps(w, calls, Next, (v: World) => InOrder(v));
  }

  lemma EmptyInOrder(day: Day)
    ensures InOrder(World(EMPTY, [], day))
  {
    NothingIsBalanced(LIMITS, day);
  }

  /**
   * After any created, refused and colliding requests and any cleanups, each day's global counters are the sums
   * over its networks, both levels are within their limits, and for every day not yet purged both are the totals of
   * shares created.
   */
  lemma SharesAreConserved(calls: seq<Call>, start: Day, day: Day, network: Text)
    ensures var w := Run(World(EMPTY, [], start), calls);
      var used := Used(w.store.counters.daily, day);
      var own := Used(w.store.counters.networkDaily, (day, network));
      && used == Total(OfDay(w.store.counters.networkDaily, day))
      && used.count <= 1000 && used.bytes <= 134_217_728
      && own.count <= 20 && own.bytes <= 5_242_880
      && (day >= w.firstKept ==> used == GrantedOn(w.grants, day) && own == GrantedTo(w.grants, (day, network)))
  {
    hide Total, GrantedOn, GrantedTo, Run, BytesFollowCount;
    EmptyInOrder(start);
    RunInOrder(World(EMPTY, [], start), calls);
  }

  /** The per-network byte limit never decides: the count limit is always the tighter one. */
  lemma NetworkByteLimitNeverBinds(calls: seq<Call>, start: Day, r: Request, now: int)
    ensures var w := Run(World(EMPTY, [], start), calls);
      var day := DayOf(now);
      CreateShare(w.store, r, now).1 == Created <==>
        && Acceptable(r, now) && r.codeHash !in w.store.shares
        && Within(Plus(Used(w.store.counters.daily, day), AmountOf(r)), LIMITS.daily)
        && Used(w.store.counters.networkDaily, (day, r.network)).count < 20
  {
    hide Balanced, Run;
    EmptyInOrder(start);
    RunInOrder(World(EMPTY, [], start), calls);
    var w := Run(World(EMPTY, [], start), calls);
    var row := Used(w.store.counters.networkDaily, (DayOf(now), r.network));
    assert row.bytes <= LARGEST_PAYLOAD * row.count;
  }

  // ------------------------------------------------------------------ one request, number by number

  predicate SpellsDigest(t: Text) {
    |t| == 64 && forall i :: 0 <= i < 64 ==> 48 <= t[i] <= 57 || 97 <= t[i] <= 102
  }

  predicate SpellsPayload(t: Text) {
    && 1 <= |t| <= 245_000
    && forall i :: 0 <= i < |t| ==>
         48 <= t[i] <= 57 || 65 <= t[i] <= 90 || 97 <= t[i] <= 122 || t[i] == 95 || t[i] == 45
  }

  predicate WellFormedRequest(r: Request, now: int) {
    && SpellsDigest(r.codeHash) && SpellsPayload(r.payload) && SpellsDigest(r.payloadSha256) && 40 <= |r.network| <= 64
    && r.createdAt <= now + 60_000
    && r.createdAt < r.expiresAt && now < r.expiresAt
    && r.expiresAt <= r.createdAt + 2_592_000_000 && r.expiresAt <= now + 2_592_000_000
  }

  lemma AcceptableExactly(r: Request, now: int)
    ensures Acceptable(r, now) <==> WellFormedRequest(r, now)
  {
    forall t: Text ensures IsDigest(t) <==> SpellsDigest(t) {
      if IsDigest(t) { forall i | 0 <= i < 64 ensures 48 <= t[i] <= 57 || 97 <= t[i] <= 102 { assert t[i] in t; } }
    }
    PayloadExactly(r.payload);
    hide IsDigest, SpellsDigest, IsPayload, SpellsPayload;
  }

  lemma PayloadExactly(t: Text)
    ensures IsPayload(t) <==> SpellsPayload(t)
  {
    if IsPayload(t) {
      forall i | 0 <= i < |t|
        ensures 48 <= t[i] <= 57 || 65 <= t[i] <= 90 || 97 <= t[i] <= 122 || t[i] == 95 || t[i] == 45
      {
        assert t[i] in t;
      }
    }
  }

  /**
   * A share is created exactly for a well-formed request with a new code, within 1000 shares and 128 MiB of the day
   * and 20 shares and 5 MiB of the network. It is stored as asked for and counted once at both levels; any other
   * request changes nothing.
   */
  lemma CreatedExactly(s: Store, r: Request, now: int, day: int)
    requires day * 86_400_000 <= now < (day + 1) * 86_400_000
    ensures var (s', outcome) := CreateShare(s, r, now);
      var everyone := if day in s.counters.daily then s.counters.daily[day] else Usage(0, 0);
      var key := (day, r.network);
      var own := if key in s.counters.networkDaily then s.counters.networkDaily[key] else Usage(0, 0);
      var bytes := |r.payload|;
      && (outcome == Created <==>
            && WellFormedRequest(r, now) && r.codeHash !in s.shares
            && everyone.count < 1000 && everyone.bytes + bytes <= 134_217_728
            && own.count < 20 && own.bytes + bytes <= 5_242_880)
      && (outcome == Invalid <==> !WellFormedRequest(r, now))
      && (outcome == Collision <==> WellFormedRequest(r, now) && r.codeHash in s.shares)
      && (outcome != Created ==> s' == s)
      && (outcome == Created ==>
            && s'.shares.Keys == s.shares.Keys + {r.codeHash}
            && s'.shares[r.codeHash].payload == r.payload && s'.shares[r.codeHash].payloadSha256 == r.payloadSha256
            && s'.shares[r.codeHash].createdAt == r.createdAt && s'.shares[r.codeHash].expiresAt == r.expiresAt
            && (forall hash :: hash in s.shares ==> s'.shares[hash] == s.shares[hash])
            && s'.counters.daily == s.counters.daily[day := Usage(everyone.count + 1, everyone.bytes + bytes)]
            && s'.counters.networkDaily
              == s.counters.networkDaily[key := Usage(own.count + 1, own.bytes + bytes)])
  {
    AcceptableExactly(r, now);
    hide Acceptable, WellFormedRequest;
    assert DayOf(now) == day;
  }

  /** Cleanup deletes shares that have expired, and the counters of days more than 31 days ago. */
  lemma CleanupExactly(w: World, now: int, removed: set<Text>, today: int)
    requires today * 86_400_000 <= now < (today + 1) * 86_400_000
    ensures var s, s' := w.store, Next(w, DeleteExpired(now, removed)).store;
      && (forall hash :: hash in s'.shares <==>
            hash in s.shares && (hash in removed ==> now < s.shares[hash].expiresAt))
      && (forall hash :: hash in s'.shares ==> s'.shares[hash] == s.shares[hash])
      && (forall day :: day in s'.counters.daily <==> day in s.counters.daily && day >= today - 31)
      && (forall day :: day in s'.counters.daily ==> s'.counters.daily[day] == s.counters.daily[day])
      && (forall key :: key in s'.counters.networkDaily <==> key in s.counters.networkDaily && key.0 >= today - 31)
      && (forall key :: key in s'.counters.networkDaily ==>
            s'.counters.networkDaily[key] == s.counters.networkDaily[key])
  {
    assert DayOf(now) == today;
  }

  // ------------------------------------------------------------------ shares last

  datatype Found = Found(payload: Text, payloadSha256: Text, expiresAt: int)

  /** configuration_share_find: a share that has expired by the caller's clock or the database's is not found. */
  function Find(s: Store, codeHash: Text, given: int, now: int): Option<Found> {
    if codeHash in s.shares && s.shares[codeHash].expiresAt > (if given < now then now else given) then
      var share := s.shares[codeHash];
      Some(Found(share.payload, share.payloadSha256, share.expiresAt))
    else None
  }

  /** No cleanup among the calls comes at or after this time. */
  predicate NoCleanupFrom(calls: seq<Call>, time: int) {
    forall i :: 0 <= i < |calls| && calls[i].DeleteExpired? ==> calls[i].now < time
  }

  lemma {:induction false} ShareLasts(w: World, calls: seq<Call>, codeHash: Text)
    requires codeHash in w.store.shares && NoCleanupFrom(calls, w.store.shares[codeHash].expiresAt)
    ensures var s := Run(w, calls).store; codeHash in s.shares && s.shares[codeHash] == w.store.shares[codeHash]
    decreases |calls|
  {
    hide Acceptable, Fits, Charge, Purge;
    if calls != [] {
      assert calls[0] in calls;
      ShareLasts(Next(w, calls[0]), calls[1..], codeHash);
    }
  }

  /**
   * Whoever knows the code of a created share finds what was shared until it expires, whatever other requests and
   * cleanups come in between; afterwards it is not found.
   */
  lemma CreatedIsFound(w: World, r: Request, now: int, calls: seq<Call>, given: int, later: int)
    requires CreateShare(w.store, r, now).1 == Created && NoCleanupFrom(calls, r.expiresAt)
    ensures Find(Run(Next(w, Create(r, now)), calls).store, r.codeHash, given, later)
      == if given < r.expiresAt && later < r.expiresAt then Some(Found(r.payload, r.payloadSha256, r.expiresAt))
         else None
  {
    hide Acceptable, Fits, Charge, Run;
    ShareLasts(Next(w, Create(r, now)), calls, r.codeHash);
  }
}
