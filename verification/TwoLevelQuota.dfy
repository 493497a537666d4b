/** Daily counters kept twice, once for everyone and once for each network, that must agree in total. */
module TwoLevelQuota {
  import CanonicalJson

  type Text = CanonicalJson.Text
  type Day = int

  const DAY := 86_400_000

  /** The UTC day of an instant in milliseconds. */
  function DayOf(now: int): Day { now / DAY }

  datatype Usage = Usage(count: nat, bytes: nat)

  const NOTHING := Usage(0, 0)

  function Plus(a: Usage, b: Usage): Usage { Usage(a.count + b.count, a.bytes + b.bytes) }

  type NetworkDay = (Day, Text)

  /** The two tables; a missing row means nothing was used. */
  datatype Counters = Counters(daily: map<Day, Usage>, networkDaily: map<NetworkDay, Usage>)

  datatype Limits = Limits(daily: Usage, network: Usage)

  function Used<K>(rows: map<K, Usage>, key: K): Usage {
    if key in rows then rows[key] else NOTHING
  }

  predicate Within(u: Usage, limit: Usage) {
    u.count <= limit.count && u.bytes <= limit.bytes
  }

  predicate Fits(c: Counters, limits: Limits, day: Day, network: Text, amount: Usage) {
    && Within(Plus(Used(c.daily, day), amount), limits.daily)
    && Within(Plus(Used(c.networkDaily, (day, network)), amount), limits.network)
  }

  function Charge(c: Counters, day: Day, network: Text, amount: Usage): Counters {
    Counters(c.daily[day := Plus(Used(c.daily, day), amount)],
             c.networkDaily[(day, network) := Plus(Used(c.networkDaily, (day, network)), amount)])
  }

  /** Forget the days before the first one kept, in both tables. */
  function Purge(c: Counters, firstKept: Day): Counters {
    Counters(map day | day in c.daily && day >= firstKept :: c.daily[day],
             map key | key in c.networkDaily && key.0 >= firstKept :: c.networkDaily[key])
  }

  // ------------------------------------------------------------------ totals over all networks

  ghost function Total<K>(rows: map<K, Usage>): Usage
    decreases |rows|
  {
    if rows == map[] then NOTHING
    else
      var key :| key in rows;
      Plus(rows[key], Total(rows - {key}))
  }

  lemma {:induction false} TotalWithout<K>(rows: map<K, Usage>, key: K)
    requires key in rows
    ensures Total(rows) == Plus(rows[key], Total(rows - {key}))
    decreases |rows|
  {
    var first :| first in rows && Total(rows) == Plus(rows[first], Total(rows - {first}));
    if first != key {
      var both := rows - {first} - {key};
      assert both == rows - {key} - {first};
      TotalWithout(rows - {first}, key);
      TotalWithout(rows - {key}, first);
      assert Total(rows) == Plus(rows[first], Plus(rows[key], Total(both)));
      assert Total(rows - {key}) == Plus(rows[first], Total(both));
    }
  }

  lemma TotalUpdated<K>(rows: map<K, Usage>, key: K, value: Usage)
    ensures Plus(Total(rows[key := value]), Used(rows, key)) == Plus(Total(rows), value)
  {
    var updated := rows[key := value];
    TotalWithout(updated, key);
    if key in rows {
      TotalWithout(rows, key);
      assert updated - {key} == rows - {key};
    } else {
      assert updated - {key} == rows;
    }
  }

  ghost function OfDay(rows: map<NetworkDay, Usage>, day: Day): map<NetworkDay, Usage> {
    map key | key in rows && key.0 == day :: rows[key]
  }

  // ------------------------------------------------------------------ the ledger of what was granted

  datatype Grant = Grant(day: Day, network: Text, amount: Usage)

  /** What was granted on a day, or on a day to one network. */
  function GrantedOn(grants: seq<Grant>, day: Day): Usage {
    if grants == [] then NOTHING
    else
      var last := grants[|grants| - 1];
      Plus(GrantedOn(grants[..|grants| - 1], day), if last.day == day then last.amount else NOTHING)
  }

  function GrantedTo(grants: seq<Grant>, key: NetworkDay): Usage {
    if grants == [] then NOTHING
    else
      var last := grants[|grants| - 1];
      Plus(GrantedTo(grants[..|grants| - 1], key), if (last.day, last.network) == key then last.amount else NOTHING)
  }

  ghost predicate WithinLimits(c: Counters, limits: Limits) {
    && (forall day :: day in c.daily ==> Within(c.daily[day], limits.daily) && c.daily[day].count > 0)
    && forall key :: key in c.networkDaily ==> Within(c.networkDaily[key], limits.network)
  }

  ghost predicate TotalsAgree(c: Counters) {
    forall day :: Total(OfDay(c.networkDaily, day)) == Used(c.daily, day)
  }

  /** For every day still kept, the counters are what the ledger says. */
  ghost predicate Accounted(c: Counters, grants: seq<Grant>, firstKept: Day) {
    && (forall day :: day >= firstKept ==> Used(c.daily, day) == GrantedOn(grants, day))
    && forall key: NetworkDay :: key.0 >= firstKept ==> Used(c.networkDaily, key) == GrantedTo(grants, key)
  }

  ghost predicate Balanced(c: Counters, limits: Limits, grants: seq<Grant>, firstKept: Day) {
    WithinLimits(c, limits) && TotalsAgree(c) && Accounted(c, grants, firstKept)
  }

  lemma ChargeTotals(c: Counters, day: Day, network: Text, amount: Usage)
    requires TotalsAgree(c)
    ensures TotalsAgree(Charge(c, day, network, amount))
  {
    hide Total;
    var c' := Charge(c, day, network, amount);
    var key := (day, network);
    forall d ensures Total(OfDay(c'.networkDaily, d)) == Used(c'.daily, d) {
      var rows, rows' := OfDay(c.networkDaily, d), OfDay(c'.networkDaily, d);
      assert Total(rows) == Used(c.daily, d);
      if d == day {
        assert rows' == rows[key := c'.networkDaily[key]];
        TotalUpdated(rows, key, c'.networkDaily[key]);
        assert Used(rows, key) == Used(c.networkDaily, key);
      } else {
        assert rows' == rows;
      }
    }
  }

  lemma GrantOne(grants: seq<Grant>, grant: Grant, day: Day, key: NetworkDay)
    ensures GrantedOn(grants + [grant], day)
      == Plus(GrantedOn(grants, day), if grant.day == day then grant.amount else NOTHING)
    ensures GrantedTo(grants + [grant], key)
      == Plus(GrantedTo(grants, key), if (grant.day, grant.network) == key then grant.amount else NOTHING)
  {
    assert (grants + [grant])[..|grants + [grant]| - 1] == grants;
  }

  lemma UsedUpdated<K>(rows: map<K, Usage>, key: K, value: Usage, k: K)
    ensures Used(rows[key := value], k) == if k == key then value else Used(rows, k)
  {
  }

  lemma NothingAdded(u: Usage)
    ensures Plus(u, NOTHING) == u
  {
  }

  lemma ChargeUsed(c: Counters, grant: Grant, day: Day, key: NetworkDay)
    ensures Used(Charge(c, grant.day, grant.network, grant.amount).daily, day)
      == Plus(Used(c.daily, day), if grant.day == day then grant.amount else NOTHING)
    ensures Used(Charge(c, grant.day, grant.network, grant.amount).networkDaily, key)
      == Plus(Used(c.networkDaily, key), if (grant.day, grant.network) == key then grant.amount else NOTHING)
  {
    hide Used, Plus;
    var own := (grant.day, grant.network);
    UsedUpdated(c.daily, grant.day, Plus(Used(c.daily, grant.day), grant.amount), day);
    UsedUpdated(c.networkDaily, own, Plus(Used(c.networkDaily, own), grant.amount), key);
    NothingAdded(Used(c.daily, day));
    NothingAdded(Used(c.networkDaily, key));
  }

  lemma ChargeAccounted(c: Counters, grants: seq<Grant>, firstKept: Day, day: Day, network: Text, amount: Usage)
    requires Accounted(c, grants, firstKept)
    ensures Accounted(Charge(c, day, network, amount), grants + [Grant(day, network, amount)], firstKept)
  {
    hide GrantedOn, GrantedTo, Used, Charge;
    var c' := Charge(c, day, network, amount);
    var grant := Grant(day, network, amount);
    forall d | d >= firstKept ensures Used(c'.daily, d) == GrantedOn(grants + [grant], d) {
      GrantOne(grants, grant, d, (d, network));
      ChargeUsed(c, grant, d, (d, network));
    }
    forall key: NetworkDay | key.0 >= firstKept
      ensures Used(c'.networkDaily, key) == GrantedTo(grants + [grant], key)
    {
      GrantOne(grants, grant, day, key);
      ChargeUsed(c, grant, day, key);
    }
  }

  /** A charge that fits keeps the books: both limits, equal totals, and the ledger. */
  lemma ChargeKeepsBalanced(c: Counters, limits: Limits, grants: seq<Grant>, firstKept: Day, day: Day, network: Text,
                            amount: Usage)
    requires Balanced(c, limits, grants, firstKept) && Fits(c, limits, day, network, amount) && amount.count > 0
    ensures Balanced(Charge(c, day, network, amount), limits, grants + [Grant(day, network, amount)], firstKept)
  {
    hide TotalsAgree, Accounted;
    ChargeTotals(c, day, network, amount);
    ChargeAccounted(c, grants, firstKept, day, network, amount);
  }

  lemma PurgeKeepsBalanced(c: Counters, limits: Limits, grants: seq<Grant>, firstKept: Day, from: Day)
    requires Balanced(c, limits, grants, firstKept)
    ensures Balanced(Purge(c, from), limits, grants, if from > firstKept then from else firstKept)
  {
    hide Total;
    var c' := Purge(c, from);
    forall d ensures Total(OfDay(c'.networkDaily, d)) == Used(c'.daily, d) {
      var rows, rows' := OfDay(c.networkDaily, d), OfDay(c'.networkDaily, d);
      assert Total(rows) == Used(c.daily, d);
      if d >= from {
        assert rows' == rows;
      } else {
        assert rows' == map[];
        NoTotal();
      }
    }
  }

  lemma NoTotal()
    ensures Total<NetworkDay>(map[]) == NOTHING
  {
  }

  lemma NothingIsBalanced(limits: Limits, day: Day)
    ensures Balanced(Counters(map[], map[]), limits, [], day)
  {
    forall d ensures Total(OfDay(map[], d)) == NOTHING {
      assert OfDay(map[], d) == map[];
      NoTotal();
    }
  }
}
