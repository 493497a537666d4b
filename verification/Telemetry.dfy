/** Telemetry batches: the same two counters, kept equal because a refused or failed batch is rolled back. */
module Telemetry {
  import opened Options
  import opened Sequences
  import opened TwoLevelQuota

  const LIMITS := Limits(Usage(100_000, 67_108_864), Usage(2048, 4_194_304))

  predicate Acceptable(network: Text, amount: Usage) {
    40 <= |network| <= 64 && 1 <= amount.count <= 64 && 1 <= amount.bytes <= 65536
  }

  datatype Store = Store(counters: Counters, batches: seq<Grant>)

  const EMPTY := Store(Counters(map[], map[]), [])

  const INSERT_FAILED := "insert failed"

  /** A batch as the transaction leaves it: all of it or nothing. */
  function InsertBatch(s: Store, network: Text, amount: Usage, now: int, insertFails: bool)
    : (Store, Result<bool, string>)
  {
    var day := DayOf(now);
    if !Acceptable(network, amount) || !Fits(s.counters, LIMITS, day, network, amount) then (s, Ok(false))
    else if insertFails then (s, Err(INSERT_FAILED))
    else (Store(Charge(s.counters, day, network, amount), s.batches + [Grant(day, network, amount)]), Ok(true))
  }

  /** What the procedure leaves when it refuses: the day is charged already if only the network's counter is full. */
  function Refused(c: Counters, network: Text, amount: Usage, now: int): Counters {
    var total := Plus(Used(c.daily, DayOf(now)), amount);
    if Acceptable(network, amount) && Within(total, LIMITS.daily) then c.(daily := c.daily[DayOf(now) := total])
    else c
  }

  class TelemetryRepository {
    var daily: map<Day, Usage>
    var networkDaily: map<NetworkDay, Usage>
    var batches: seq<Grant>

    ghost function Value(): Store
      reads this
    {
      Store(Counters(daily, networkDaily), batches)
    }

    constructor ()
      ensures Value() == EMPTY
    {
      daily, networkDaily, batches := map[], map[], [];
    }

    /** The stored procedure: a refusal by the network's counter leaves the day's counter charged. */
    method ReserveCapacity(network: Text, amount: Usage, now: int) returns (reserved: bool)
      modifies this`daily, this`networkDaily
      ensures reserved <==>
        Acceptable(network, amount) && Fits(old(Value()).counters, LIMITS, DayOf(now), network, amount)
      ensures reserved ==> Value().counters == Charge(old(Value()).counters, DayOf(now), network, amount)
      ensures !reserved ==> Value().counters == Refused(old(Value()).counters, network, amount, now)
    {
      if !Acceptable(network, amount) {
        return false;
      }
      var day := DayOf(now);
      var total := Plus(Used(daily, day), amount);
      if day in daily && !Within(total, LIMITS.daily) {
        return false;
      }
      daily := daily[day := total];
      var key := (day, network);
      var own := Plus(Used(networkDaily, key), amount);
      if key in networkDaily && !Within(own, LIMITS.network) {
        return false;
      }
      networkDaily := networkDaily[key := own];
      return true;
    }

    /** insertBatch: reserve, insert, commit; on a refusal or a failed insert everything since BEGIN is undone. */
    method Insert(network: Text, amount: Usage, now: int, insertFails: bool) returns (r: Result<bool, string>)
      modifies this
      ensures (Value(), r) == InsertBatch(old(Value()), network, amount, now, insertFails)
    {
      var begin := (daily, networkDaily, batches);
      var reserved := ReserveCapacity(network, amount, now);
      if !reserved {
        daily, networkDaily, batches := begin.0, begin.1, begin.2;
        return Ok(false);
      }
      if insertFails {
        daily, networkDaily, batches := begin.0, begin.1, begin.2;
        return Err(INSERT_FAILED);
      }
      batches := batches + [Grant(DayOf(now), network, amount)];
      return Ok(true);
    }
  }

  /** The procedure alone does not keep the totals equal: the rollback around it does. */
  lemma RefusalAloneUnbalances(c: Counters, network: Text, amount: Usage, now: int)
    requires TotalsAgree(c) && Acceptable(network, amount) && !Fits(c, LIMITS, DayOf(now), network, amount)
    ensures TotalsAgree(Refused(c, network, amount, now))
      <==> !Within(Plus(Used(c.daily, DayOf(now)), amount), LIMITS.daily)
  {
    hide Total;
    var day := DayOf(now);
    assert Total(OfDay(c.networkDaily, day)) == Used(c.daily, day);
    assert Used(Refused(c, network, amount, now).daily, day) == Used(c.daily, day)
      <==> !Within(Plus(Used(c.daily, day), amount), LIMITS.daily);
  }

  /**
   * A batch is accepted exactly for 1 to 64 events in 1 to 65536 bytes of a network known by 40 to 64 characters, within
   * 100000 events and 64 MiB of the day and 2048 events and 4 MiB of the network, if its insert does not fail. Then it
   * is counted once at both levels; otherwise nothing changes.
   */
  lemma InsertedExactly(s: Store, network: Text, amount: Usage, now: int, insertFails: bool, day: int)
    requires day * 86_400_000 <= now < (day + 1) * 86_400_000
    ensures var (s', result) := InsertBatch(s, network, amount, now, insertFails);
      var everyone := if day in s.counters.daily then s.counters.daily[day] else Usage(0, 0);
      var key := (day, network);
      var own := if key in s.counters.networkDaily then s.counters.networkDaily[key] else Usage(0, 0);
      var total, mine := Usage(everyone.count + amount.count, everyone.bytes + amount.bytes),
                         Usage(own.count + amount.count, own.bytes + amount.bytes);
      var fits :=
        && 40 <= |network| <= 64 && 1 <= amount.count <= 64 && 1 <= amount.bytes <= 65_536
        && total.count <= 100_000 && total.bytes <= 67_108_864 && mine.count <= 2048 && mine.bytes <= 4_194_304;
      && (result == Ok(true) <==> fits && !insertFails)
      && (result == Ok(false) <==> !fits)
      && (result != Ok(true) ==> s' == s)
      && (result == Ok(true) ==>
            && s'.counters.daily == s.counters.daily[day := total]
            && s'.counters.networkDaily == s.counters.networkDaily[key := mine]
            && s'.batches == s.batches + [Grant(day, network, amount)])
  {
    assert DayOf(now) == day;
  }

  datatype Call = Insert(network: Text, amount: Usage, now: int, insertFails: bool) | DeleteBefore(now: int)

  datatype World = World(store: Store, firstKept: Day)

  function Next(w: World, call: Call): World {
    match call
    case Insert(network, amount, now, insertFails) =>
      w.(store := InsertBatch(w.store, network, amount, now, insertFails).0)
    case DeleteBefore(now) =>
      var from := DayOf(now) - 90;
      World(w.store.(counters := Purge(w.store.counters, from)), if from > w.firstKept then from else w.firstKept)
  }

  /** Cleanup deletes the counters of days more than 90 days ago. */
  lemma CleanupExactly(w: World, now: int, today: int)
    requires today * 86_400_000 <= now < (today + 1) * 86_400_000
    ensures var s, s' := w.store, Next(w, DeleteBefore(now)).store;
      && s'.batches == s.batches
      && (forall day :: day in s'.counters.daily <==> day in s.counters.daily && day >= today - 90)
      && (forall day :: day in s'.counters.daily ==> s'.counters.daily[day] == s.counters.daily[day])
      && (forall key :: key in s'.counters.networkDaily <==> key in s.counters.networkDaily && key.0 >= today - 90)
      && (forall key :: key in s'.counters.networkDaily ==>
            s'.counters.networkDaily[key] == s.counters.networkDaily[key])
  {
    assert DayOf(now) == today;
  }

  function Run(w: World, calls: seq<Call>): World { FoldLeft(w, calls, Next) }

  ghost predicate InOrder(w: World) {
    Balanced(w.store.counters, LIMITS, w.store.batches, w.firstKept)
  }

  lemma NextInOrder(w: World, call: Call)
    requires InOrder(w)
    ensures InOrder(Next(w, call))
  {
    hide Balanced, Fits, Charge;
    match call {
      case Insert(network, amount, now, insertFails) =>
        if InsertBatch(w.store, network, amount, now, insertFails).1 == Ok(true) {
          ChargeKeepsBalanced(w.store.counters, LIMITS, w.store.batches, w.firstKept, DayOf(now), network, amount);
        }
      case DeleteBefore(now) =>
        PurgeKeepsBalanced(w.store.counters, LIMITS, w.store.batches, w.firstKept, DayOf(now) - 90);
    }
  }

  lemma RunInOrder(w: World, calls: seq<Call>)
    requires InOrder(w)
    ensures InOrder(Run(w, calls))
  {
    hide InOrder, Next;
    forall v, call | InOrder(v) ensures InOrder(Next(v, call)) { NextInOrder(v, call); }
    FoldKeeps(w, calls, Next, (v: World) => InOrder(v));
  }

  /**
   * After any accepted, refused and failed batches, each day's global counters are the sums over its networks, both
   * levels are within their limits, and for every day not yet purged both are the totals of accepted batches.
   */
  lemma BatchesAreConserved(calls: seq<Call>, start: Day, day: Day, network: Text)
    ensures var w := Run(World(EMPTY, start), calls);
      var used := Used(w.store.counters.daily, day);
      var own := Used(w.store.counters.networkDaily, (day, network));
      && used == Total(OfDay(w.store.counters.networkDaily, day))
      && used.count <= 100_000 && used.bytes <= 67_108_864
      && own.count <= 2048 && own.bytes <= 4_194_304
      && (day >= w.firstKept ==>
            used == GrantedOn(w.store.batches, day) && own == GrantedTo(w.store.batches, (day, network)))
  {
    hide Total, GrantedOn, GrantedTo, Run, Next;
    NothingIsBalanced(LIMITS, start);
    RunInOrder(World(EMPTY, start), calls);
  }
}
