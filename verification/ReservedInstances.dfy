/** The Reserved Instance allocation of checks/aws/ec2_reserved_instances.py: count running
    instances and reservations, apply zonal reservations, then spread the regional ones.

    Instance type, platform, tenancy, zone and scope are taken as already normalised. */
module ReservedInstances {
  import opened Prelude
  import opened PyText

  datatype Base = Base(instanceType: string, platform: string, tenancy: string)
  datatype Zone = Zone(base: Base, az: string)
  datatype Instance = Instance(base: Base, az: string)
  datatype Reservation = Reservation(base: Base, count: int, scope: string, az: string)

  type Counts = map<Zone, nat>

  function Get<K>(m: map<K, nat>, k: K): nat {
    if k in m then m[k] else 0
  }

  function Add<K>(m: map<K, nat>, k: K, n: nat): map<K, nat> {
    m[k := Get(m, k) + n]
  }

  // ---------- Sums over zones ----------

  /** The counts of `zones` added up. */
  ghost function Total(zones: set<Zone>, m: Counts): nat {
    if zones == {} then 0
    else
      var z :| z in zones;
      Get(m, z) + Total(zones - {z}, m)
  }

  lemma {:induction false} TotalRemove(zones: set<Zone>, m: Counts, z: Zone)
    requires z in zones
    ensures Total(zones, m) == Get(m, z) + Total(zones - {z}, m)
  {
    var y :| y in zones && Total(zones, m) == Get(m, y) + Total(zones - {y}, m);
    if y != z {
      TotalRemove(zones - {y}, m, z);
      TotalRemove(zones - {z}, m, y);
      assert zones - {y} - {z} == zones - {z} - {y};
    }
  }

  lemma TotalInsert(zones: set<Zone>, m: Counts, z: Zone)
    ensures Total(zones + {z}, m) == Total(zones, m) + if z in zones then 0 else Get(m, z)
  {
    if z in zones {
      assert zones + {z} == zones;
    } else {
      TotalRemove(zones + {z}, m, z);
      assert zones + {z} - {z} == zones;
    }
  }

  lemma {:induction false} TotalAgrees(zones: set<Zone>, m: Counts, n: Counts)
    requires forall z :: z in zones ==> Get(m, z) == Get(n, z)
    ensures Total(zones, m) == Total(zones, n)
  {
    if zones != {} {
      var z :| z in zones;
      TotalRemove(zones, m, z);
      TotalRemove(zones, n, z);
      TotalAgrees(zones - {z}, m, n);
    }
  }

  /** Zone by zone `a + b <= c` (or `==`) gives the same of the sums. */
  lemma {:induction false} TotalAdds(zones: set<Zone>, a: Counts, b: Counts, c: Counts)
    requires forall z :: z in zones ==> Get(a, z) + Get(b, z) <= Get(c, z)
    ensures Total(zones, a) + Total(zones, b) <= Total(zones, c)
    ensures (forall z :: z in zones ==> Get(a, z) + Get(b, z) == Get(c, z)) ==>
      Total(zones, a) + Total(zones, b) == Total(zones, c)
  {
    if zones != {} {
      var z :| z in zones;
      TotalRemove(zones, a, z);
      TotalRemove(zones, b, z);
      TotalRemove(zones, c, z);
      TotalAdds(zones - {z}, a, b, c);
    }
  }

  lemma {:induction false} TotalPositive(zones: set<Zone>, m: Counts)
    ensures Total(zones, m) > 0 <==> exists z :: z in zones && Get(m, z) > 0
  {
    if zones != {} {
      var z :| z in zones;
      TotalRemove(zones, m, z);
      TotalPositive(zones - {z}, m);
    }
  }

  function Elems(zones: seq<Zone>): set<Zone> {
    set z | z in zones
  }

  function ZonesOf(keys: set<Zone>, base: Base): set<Zone> {
    set z | z in keys && z.base == base
  }

  // ---------- The order of the keys ----------

  /** Python's order of the key tuples. */
  predicate ZoneLeq(y: Zone, z: Zone) {
    if y.base.instanceType != z.base.instanceType then TextLeq(y.base.instanceType, z.base.instanceType)
    else if y.base.platform != z.base.platform then TextLeq(y.base.platform, z.base.platform)
    else if y.base.tenancy != z.base.tenancy then TextLeq(y.base.tenancy, z.base.tenancy)
    else TextLeq(y.az, z.az)
  }

  predicate Before(y: Zone, z: Zone) {
    y != z && ZoneLeq(y, z)
  }

  lemma ZoneOrder(y: Zone, z: Zone)
    ensures ZoneLeq(y, z) || ZoneLeq(z, y)
    ensures ZoneLeq(y, z) && ZoneLeq(z, y) ==> y == z
  {
    TextOrder(y.base.instanceType, z.base.instanceType);
    TextOrder(y.base.platform, z.base.platform);
    TextOrder(y.base.tenancy, z.base.tenancy);
    TextOrder(y.az, z.az);
  }

  lemma ZoneTransitive(x: Zone, y: Zone, z: Zone)
    requires ZoneLeq(x, y) && ZoneLeq(y, z)
    ensures ZoneLeq(x, z)
  {
    ZoneOrder(x, y);
    ZoneOrder(y, z);
    TransitiveIf(x.base.instanceType, y.base.instanceType, z.base.instanceType);
    TransitiveIf(x.base.platform, y.base.platform, z.base.platform);
    TransitiveIf(x.base.tenancy, y.base.tenancy, z.base.tenancy);
    TransitiveIf(x.az, y.az, z.az);
    TextOrder(x.base.instanceType, y.base.instanceType);
    TextOrder(x.base.platform, y.base.platform);
    TextOrder(x.base.tenancy, y.base.tenancy);
  }

  lemma TransitiveIf(a: string, b: string, c: string)
    ensures TextLeq(a, b) && TextLeq(b, c) ==> TextLeq(a, c)
  {
    if TextLeq(a, b) && TextLeq(b, c) {
      TextTransitive(a, b, c);
    }
  }

  lemma {:induction false} LeastZone(zones: set<Zone>) returns (z: Zone)
    requires zones != {}
    ensures z in zones && forall y :: y in zones ==> ZoneLeq(z, y)
  {
    hide ZoneLeq;
    z :| z in zones;
    ZoneOrder(z, z);
    if zones != {z} {
      var rest := zones - {z};
      var y := LeastZone(rest);
      ZoneOrder(y, z);
      if ZoneLeq(y, z) {
        z := y;
      } else {
        forall x | x in rest ensures ZoneLeq(z, x) {
          ZoneTransitive(z, y, x);
        }
      }
    }
  }

  // ---------- Counting ----------

  /** How many of the instances fall under one key. */
  function InstancesAt(xs: seq<Instance>, z: Zone): nat {
    if xs == [] then 0
    else InstancesAt(xs[..|xs| - 1], z) + if ZoneOf(xs[|xs| - 1]) == Some(z) then 1 else 0
  }

  /** The key an instance is counted under, None when it has no instance type. */
  function ZoneOf(x: Instance): Option<Zone> {
    if x.base.instanceType == "" then None else Some(Zone(x.base, if x.az == "" then "unknown" else x.az))
  }

  method CountRunning(xs: seq<Instance>) returns (running: Counts)
    ensures forall z :: Get(running, z) == InstancesAt(xs, z)
  {
    running := map[];
    for n := 0 to |xs|
      invariant forall z :: Get(running, z) == InstancesAt(xs[..n], z)
    {
      assert xs[..n + 1][..n] == xs[..n];
      var x := xs[n];
      if x.base.instanceType == "" {
        continue;
      }
      var az := if x.az == "" then "unknown" else x.az;
      running := Add(running, Zone(x.base, az), 1);
    }
    assert xs[..|xs|] == xs;
  }

  predicate Contains(s: string, t: string) {
    exists i :: 0 <= i <= |s| && t <= s[i..]
  }

  /** The reservation counts, and counts for its zone only. */
  predicate Zonal(r: Reservation) {
    Contains(r.scope, "availability") && r.az != ""
  }

  predicate Counted(r: Reservation) {
    r.base.instanceType != "" && r.count > 0
  }

  function ReservedAt(rs: seq<Reservation>, z: Zone): nat {
    if rs == [] then 0
    else
      var r := rs[|rs| - 1];
      ReservedAt(rs[..|rs| - 1], z) + if Counted(r) && Zonal(r) && Zone(r.base, r.az) == z then r.count else 0
  }

  function ReservedRegionally(rs: seq<Reservation>, base: Base): nat {
    if rs == [] then 0
    else
      var r := rs[|rs| - 1];
      ReservedRegionally(rs[..|rs| - 1], base) + if Counted(r) && !Zonal(r) && r.base == base then r.count else 0
  }

  method CountReserved(rs: seq<Reservation>) returns (zonal: Counts, regional: map<Base, nat>)
    ensures forall z :: Get(zonal, z) == ReservedAt(rs, z)
    ensures forall b :: Get(regional, b) == ReservedRegionally(rs, b)
  {
    hide Zonal;
    zonal, regional := map[], map[];
    for n := 0 to |rs|
      invariant forall z :: Get(zonal, z) == ReservedAt(rs[..n], z)
      invariant forall b :: Get(regional, b) == ReservedRegionally(rs[..n], b)
    {
      assert rs[..n + 1][..n] == rs[..n];
      var r := rs[n];
      if r.base.instanceType == "" || r.count <= 0 {
        continue;
      }
      if Zonal(r) {
        zonal := Add(zonal, Zone(r.base, r.az), r.count);
      } else {
        regional := Add(regional, r.base, r.count);
      }
    }
    assert rs[..|rs|] == rs;
  }

  // ---------- What the allocation is to achieve ----------

  /** Zonal reservations that find an instance in their own zone. */
  function ZonalCover(running: Counts, zonal: Counts): Counts {
    map z | z in running :: Min(Get(zonal, z), running[z])
  }

  /** What the zonal reservations leave. */
  function Uncovered(running: Counts, zonal: Counts): Counts {
    map z | z in running :: running[z] - ZonalCover(running, zonal)[z]
  }

  /** The instances of `base` that the reservations can cover. */
  ghost function Coverable(running: Counts, zonal: Counts, regional: map<Base, nat>, base: Base): nat {
    var zones := ZonesOf(running.Keys, base);
    Min(Total(zones, running), Total(zones, ZonalCover(running, zonal)) + Get(regional, base))
  }

  /** The remaining counts and the used reservations of a finished allocation. */
  ghost predicate Allocated(running: Counts, zonal: Counts, regional: map<Base, nat>, remaining: Counts,
                            used: map<Base, nat>)
  {
    && remaining.Keys == running.Keys
    && (forall z :: z in running ==> remaining[z] <= Uncovered(running, zonal)[z])
    && EarlierFirst(Uncovered(running, zonal), remaining)
    && forall b :: AllocatedFor(running, zonal, regional, remaining, used, b)
  }

  /** Within a class no zone is taken from while an earlier one still has instances. */
  ghost predicate EarlierFirst(first: Counts, rest: Counts)
    requires rest.Keys == first.Keys
  {
    forall y, z :: y in first && z in first && y.base == z.base && Before(y, z) && rest[z] < first[z] ==> rest[y] == 0
  }

  ghost predicate AllocatedFor(running: Counts, zonal: Counts, regional: map<Base, nat>, remaining: Counts,
                               used: map<Base, nat>, b: Base)
  {
    && Get(used, b) == Coverable(running, zonal, regional, b)
    && Get(used, b) + Total(ZonesOf(running.Keys, b), remaining) == Total(ZonesOf(running.Keys, b), running)
  }

  // ---------- The two phases ----------

  /** The two maps that the phases update. */
  datatype Phase = Phase(rest: Counts, used: map<Base, nat>)

  function BasesOf(zones: set<Zone>): set<Base> {
    set z | z in zones :: z.base
  }

  /** Each key once. */
  method Sorted<K(==)>(keys: set<K>) returns (s: seq<K>)
    ensures forall k :: k in s <==> k in keys
    ensures forall i, j :: 0 <= i < j < |s| ==> s[i] != s[j]
  {
    s := [];
    var rest := keys;
    while rest != {}
      invariant rest <= keys && forall k :: k in s <==> k in keys && k !in rest
      invariant forall i, j :: 0 <= i < j < |s| ==> s[i] != s[j]
      decreases |rest|
    {
      var k :| k in rest;
      s, rest := s + [k], rest - {k};
    }
  }

  /** The keys in Python's order, each once. */
  method SortedZones(keys: set<Zone>) returns (s: seq<Zone>)
    ensures forall k :: k in s <==> k in keys
    ensures forall i, j :: 0 <= i < j < |s| ==> Before(s[i], s[j])
  {
    hide ZoneLeq;
    s := [];
    var rest := keys;
    while rest != {}
      invariant rest <= keys && forall k :: k in s <==> k in keys && k !in rest
      invariant forall i, j :: 0 <= i < j < |s| ==> Before(s[i], s[j])
      invariant forall y, z :: y in s && z in rest ==> Before(y, z)
      decreases |rest|
    {
      ghost var least := LeastZone(rest);
      var k :| k in rest && forall y :: y in rest ==> ZoneLeq(k, y);
      s, rest := s + [k], rest - {k};
    }
  }

  /** The zonal phase when the keys in `done` have been served. */
  ghost predicate ZonalDone(running: Counts, zonal: Counts, remaining: Counts, used: map<Base, nat>, done: set<Zone>) {
    && remaining.Keys == running.Keys
    && (forall z :: z in running ==>
          remaining[z] == running[z] - if z in done then ZonalCover(running, zonal)[z] else 0)
    && forall b :: Get(used, b) == Total(ZonesOf(done * running.Keys, b), ZonalCover(running, zonal))
  }

  method ApplyZonal(running: Counts, zonal: Counts) returns (remaining: Counts, used: map<Base, nat>)
    ensures remaining == Uncovered(running, zonal)
    ensures forall b :: Get(used, b) == Total(ZonesOf(running.Keys, b), ZonalCover(running, zonal))
  {
    remaining, used := running, map[];
    var keys := SortedZones(zonal.Keys);
    ghost var done: set<Zone> := {};
    ZonalStart(running, zonal);
    hide ZonalDone, ZoneLeq;
    for i := 0 to |keys|
      invariant done == Elems(keys[..i])
      invariant remaining.Keys == running.Keys
      invariant ZonalDone(running, zonal, remaining, used, done)
    {
      var key := keys[i];
      assert key !in done;
      ZonalStep(running, zonal, remaining, used, done, key);
      done := done + {key};
      var reservedCount, runningCount := Get(zonal, key), Get(remaining, key);
      if reservedCount <= 0 || runningCount <= 0 {
        continue;
      }
      var covered := Min(reservedCount, runningCount);
      remaining := remaining[key := runningCount - covered];
      used := Add(used, key.base, covered);
    }
    assert done == zonal.Keys;
    ZonalEnd(running, zonal, remaining, used);
  }

  lemma ZonalStart(running: Counts, zonal: Counts)
    ensures ZonalDone(running, zonal, running, map[], {})
  {
    assert forall b :: ZonesOf({} * running.Keys, b) == {};
    TotalEmpty(ZonalCover(running, zonal));
  }

  lemma ZonalStep(running: Counts, zonal: Counts, remaining: Counts, used: map<Base, nat>, done: set<Zone>, key: Zone)
    requires ZonalDone(running, zonal, remaining, used, done) && key !in done
    ensures var covered := Min(Get(zonal, key), Get(remaining, key));
      if covered <= 0 then ZonalDone(running, zonal, remaining, used, done + {key})
      else
        key in running
        && var rest := remaining[key := remaining[key] - covered];
           ZonalDone(running, zonal, rest, Add(used, key.base, covered), done + {key})
  {
    hide Total;
    var some := done * running.Keys;
    ZonesOfInsert(some, key, ZonalCover(running, zonal));
    assert (done + {key}) * running.Keys == if key in running then some + {key} else some;
  }

  lemma ZonalEnd(running: Counts, zonal: Counts, remaining: Counts, used: map<Base, nat>)
    requires ZonalDone(running, zonal, remaining, used, zonal.Keys)
    ensures remaining == Uncovered(running, zonal)
    ensures forall b :: Get(used, b) == Total(ZonesOf(running.Keys, b), ZonalCover(running, zonal))
  {
    forall b
      ensures Get(used, b) == Total(ZonesOf(running.Keys, b), ZonalCover(running, zonal))
    {
      Widen(ZonesOf(zonal.Keys * running.Keys, b), ZonesOf(running.Keys, b), ZonalCover(running, zonal));
    }
  }

  lemma ZonesOfInsert(zones: set<Zone>, z: Zone, m: Counts)
    requires z !in zones
    ensures forall b ::
      Total(ZonesOf(zones + {z}, b), m) == Total(ZonesOf(zones, b), m) + if b == z.base then Get(m, z) else 0
  {
    forall b
      ensures Total(ZonesOf(zones + {z}, b), m) == Total(ZonesOf(zones, b), m) + if b == z.base then Get(m, z) else 0
    {
      TotalInsert(ZonesOf(zones, b), m, z);
      assert ZonesOf(zones + {z}, b) == if b == z.base then ZonesOf(zones, b) + {z} else ZonesOf(zones, b);
    }
  }

  /** Zones that count nothing change no sum. */
  lemma {:induction false} Widen(some: set<Zone>, all: set<Zone>, m: Counts)
    requires some <= all && forall z :: z in all - some ==> Get(m, z) == 0
    ensures Total(some, m) == Total(all, m)
  {
    if all <= some {
      assert some == all;
    } else {
      var z :| z in all && z !in some;
      TotalRemove(all, m, z);
      Widen(some, all - {z}, m);
    }
  }

  /** The inner loop: take `amount` from the zones in order, as much from each as it has. */
  method Spread(counts: Counts, zones: seq<Zone>, amount: nat) returns (rest: Counts)
    requires forall i, j :: 0 <= i < j < |zones| ==> zones[i] != zones[j]
    requires forall z :: z in zones ==> z in counts
    requires amount <= Total(Elems(zones), counts)
    ensures rest.Keys == counts.Keys
    ensures forall z :: z in counts ==> rest[z] <= counts[z] && (z !in zones ==> rest[z] == counts[z])
    ensures Total(Elems(zones), rest) == Total(Elems(zones), counts) - amount
    ensures forall i, j :: 0 <= i < j < |zones| && rest[zones[j]] < counts[zones[j]] ==> rest[zones[i]] == 0
  {
    hide Total;
    rest := counts;
    var left: nat := amount;
    var i := 0;
    ghost var all := Elems(zones);
    assert zones[0..] == zones;
    while i < |zones|
      invariant 0 <= i <= |zones|
      invariant rest.Keys == counts.Keys && left <= amount
      invariant forall z :: z in counts ==> rest[z] <= counts[z] && (z !in zones ==> rest[z] == counts[z])
      invariant left > 0 ==> forall m :: 0 <= m < i ==> rest[zones[m]] == 0
      invariant forall m :: i <= m < |zones| ==> rest[zones[m]] == counts[zones[m]]
      invariant forall m, j :: 0 <= m < j < i && rest[zones[j]] < counts[zones[j]] ==> rest[zones[m]] == 0
      invariant left <= Total(Elems(zones[i..]), rest)
      invariant Total(all, rest) == Total(all, counts) - (amount - left)
    {
      if left <= 0 {
        break;
      }
      var z := zones[i];
      ghost var before, todo := rest, Elems(zones[i..]);
      assert z in todo && todo - {z} == Elems(zones[i + 1..]);
      var current := Get(rest, z);
      var usedHere := Min(current, left);
      if current > 0 {
        rest := rest[z := current - usedHere];
        left := left - usedHere;
      }
      TotalRemove(todo, before, z);
      TotalAgrees(todo - {z}, before, rest);
      TotalRemove(all, before, z);
      TotalRemove(all, rest, z);
      TotalAgrees(all - {z}, before, rest);
      i := i + 1;
    }
    if i == |zones| {
      assert Elems(zones[i..]) == {};
      TotalEmpty(rest);
    }
  }

  lemma TotalEmpty(m: Counts)
    ensures Total({}, m) == 0
  {
  }

  /** The class `base` has spent what it can of its `available` reservations, earlier zones first, and
      no other class has changed. */
  ghost predicate Covered(base: Base, available: nat, before: Phase, after: Phase)
    requires after.rest.Keys == before.rest.Keys
  {
    var zones := ZonesOf(before.rest.Keys, base);
    var spent := Min(Total(zones, before.rest), available);
    && (forall z :: z in before.rest ==>
          after.rest[z] <= before.rest[z] && (z.base != base ==> after.rest[z] == before.rest[z]))
    && Total(zones, after.rest) == Total(zones, before.rest) - spent
    && (forall b :: Get(after.used, b) == Get(before.used, b) + if b == base then spent else 0)
    && EarlierFirst(before.rest, after.rest)
  }

  /** The body of the loop over the classes: spend the regional reservations of `base`. */
  method CoverRegionally(base: Base, available: nat, keys: seq<Zone>, counts: Counts, used: map<Base, nat>)
    returns (rest: Counts, used': map<Base, nat>)
    requires forall i, j :: 0 <= i < j < |keys| ==> Before(keys[i], keys[j])
    requires forall z :: z in keys <==> z in counts
    ensures rest.Keys == counts.Keys && Covered(base, available, Phase(counts, used), Phase(rest, used'))
  {
    hide KeysOf, ZoneLeq;
    rest, used' := counts, used;
    if available <= 0 {
      return;
    }
    var mine := KeysOf(keys, base);
    assert Elems(mine) == ZonesOf(counts.Keys, base);
    var remainingRunning := SumOf(counts, mine);
    if remainingRunning <= 0 {
      return;
    }
    var covered := Min(remainingRunning, available);
    used' := Add(used, base, covered);
    rest := Spread(counts, mine, covered);
    SpreadEarlierFirst(counts, rest, mine, base);
  }

  lemma SpreadEarlierFirst(counts: Counts, rest: Counts, mine: seq<Zone>, base: Base)
    requires rest.Keys == counts.Keys && forall z :: z in counts && z.base != base ==> rest[z] == counts[z]
    requires forall z :: z in mine <==> z in counts && z.base == base
    requires forall i, j :: 0 <= i < j < |mine| ==> Before(mine[i], mine[j])
    requires forall i, j :: 0 <= i < j < |mine| && rest[mine[j]] < counts[mine[j]] ==> rest[mine[i]] == 0
    ensures EarlierFirst(counts, rest)
  {
    hide ZoneLeq;
    forall y, z | y in counts && z in counts && y.base == z.base && Before(y, z) && rest[z] < counts[z]
      ensures rest[y] == 0
    {
      var i :| 0 <= i < |mine| && mine[i] == y;
      var j :| 0 <= j < |mine| && mine[j] == z;
      ZoneOrder(y, z);
      assert i < j;
    }
  }

  method Allocate(running: Counts, zonal: Counts, regional: map<Base, nat>)
    returns (remaining: Counts, used: map<Base, nat>)
    ensures Allocated(running, zonal, regional, remaining, used)
  {
    remaining, used := ApplyZonal(running, zonal);
    ghost var first := Phase(remaining, used);
    var keys := SortedZones(remaining.Keys);
    var bases := Sorted(BasesOf(running.Keys) + regional.Keys + BasesOf(zonal.Keys));
    ghost var done: set<Base> := {};
    RegionalStart(running, regional, first);
    hide ZonalCover, Total, ZoneLeq, RegionalDone, Covered, Allocated, BasesOf, ZonesOf;
    for i := 0 to |bases|
      invariant forall j :: 0 <= j < |bases| ==> (bases[j] in done <==> j < i)
      invariant remaining.Keys == running.Keys
      invariant RegionalDone(running, regional, first, Phase(remaining, used), done)
    {
      var base := bases[i];
      ghost var before := Phase(remaining, used);
      remaining, used := CoverRegionally(base, Get(regional, base), keys, remaining, used);
      RegionalStep(running, regional, first, before, Phase(remaining, used), done, base);
      done := done + {base};
    }
    assert forall b :: b in bases ==> b in done;
    RegionalEnd(running, zonal, regional, first, Phase(remaining, used), done);
  }

  /** The regional phase, begun with `first`, when the classes in `done` have been served. */
  ghost predicate RegionalDone(running: Counts, regional: map<Base, nat>, first: Phase, now: Phase, done: set<Base>) {
    && now.rest.Keys == first.rest.Keys == running.Keys
    && (forall z :: z in running ==>
          now.rest[z] <= first.rest[z] && (z.base !in done ==> now.rest[z] == first.rest[z]))
    && EarlierFirst(first.rest, now.rest)
    && forall b :: SpentOn(running, regional, first, now, b, b in done)
  }

  /** What the regional phase makes of base `b`: nothing yet, or as much as it can. */
  ghost predicate SpentOn(running: Counts, regional: map<Base, nat>, first: Phase, now: Phase, b: Base, done: bool) {
    var zones := ZonesOf(running.Keys, b);
    var spent := if done then Min(Total(zones, first.rest), Get(regional, b)) else 0;
    Total(zones, now.rest) == Total(zones, first.rest) - spent && Get(now.used, b) == Get(first.used, b) + spent
  }

  lemma RegionalStart(running: Counts, regional: map<Base, nat>, first: Phase)
    requires first.rest.Keys == running.Keys
    ensures RegionalDone(running, regional, first, first, {})
  {
    hide Total;
  }

  lemma RegionalStep(running: Counts, regional: map<Base, nat>, first: Phase, before: Phase, after: Phase,
                     done: set<Base>, base: Base)
    requires RegionalDone(running, regional, first, before, done) && base !in done
    requires after.rest.Keys == before.rest.Keys
    requires Covered(base, Get(regional, base), before, after)
    ensures RegionalDone(running, regional, first, after, done + {base})
  {
    hide Total, Before;
    assert SpentOn(running, regional, first, before, base, false);
    forall b
      ensures SpentOn(running, regional, first, after, b, b in done + {base})
    {
      assert SpentOn(running, regional, first, before, b, b in done);
      if b != base {
        TotalAgrees(ZonesOf(running.Keys, b), before.rest, after.rest);
      }
    }
  }

  lemma RegionalEnd(running: Counts, zonal: Counts, regional: map<Base, nat>, first: Phase, now: Phase, done: set<Base>)
    requires first.rest == Uncovered(running, zonal)
    requires forall b :: Get(first.used, b) == Total(ZonesOf(running.Keys, b), ZonalCover(running, zonal))
    requires RegionalDone(running, regional, first, now, done)
    requires BasesOf(running.Keys) + regional.Keys <= done
    ensures Allocated(running, zonal, regional, now.rest, now.used)
  {
    hide ZonalCover, Total, Before;
    forall b
      ensures AllocatedFor(running, zonal, regional, now.rest, now.used, b)
    {
      assert SpentOn(running, regional, first, now, b, b in done);
      UnknownBase(running, regional, first.rest, b);
      AllocatedOnce(running, zonal, regional, first, now, b);
    }
  }

  lemma UnknownBase(running: Counts, regional: map<Base, nat>, first: Counts, b: Base)
    ensures (forall z :: z in running ==> z.base != b) ==> Total(ZonesOf(running.Keys, b), first) == 0
  {
    if forall z :: z in running ==> z.base != b {
      assert ZonesOf(running.Keys, b) == {};
      TotalEmpty(first);
    }
  }

  lemma AllocatedOnce(running: Counts, zonal: Counts, regional: map<Base, nat>, first: Phase, now: Phase, b: Base)
    requires first.rest == Uncovered(running, zonal)
    requires Get(first.used, b) == Total(ZonesOf(running.Keys, b), ZonalCover(running, zonal))
    requires SpentOn(running, regional, first, now, b, true)
    ensures AllocatedFor(running, zonal, regional, now.rest, now.used, b)
  {
    TotalAdds(ZonesOf(running.Keys, b), first.rest, ZonalCover(running, zonal), running);
  }

  function KeysOf(keys: seq<Zone>, base: Base): (r: seq<Zone>)
    ensures forall z :: z in r <==> z in keys && z.base == base
    ensures (forall i, j :: 0 <= i < j < |keys| ==> Before(keys[i], keys[j]))
            ==> forall i, j :: 0 <= i < j < |r| ==> Before(r[i], r[j])
  {
    if keys == [] then []
    else (if keys[0].base == base then [keys[0]] else []) + KeysOf(keys[1..], base)
  }

  method SumOf(m: Counts, zones: seq<Zone>) returns (sum: nat)
    requires forall i, j :: 0 <= i < j < |zones| ==> zones[i] != zones[j]
    ensures sum == Total(Elems(zones), m)
  {
    sum := 0;
    TotalEmpty(m);
    assert Elems(zones[..0]) == {};
    for i := 0 to |zones|
      invariant sum == Total(Elems(zones[..i]), m)
    {
      assert Elems(zones[..i + 1]) == Elems(zones[..i]) + {zones[i]};
      TotalInsert(Elems(zones[..i]), m, zones[i]);
      sum := sum + Get(m, zones[i]);
    }
    assert zones[..|zones|] == zones;
  }

  // ---------- The allocation is optimal ----------

  /** Any way of assigning the reservations of one class: `zonalUse` in their own zones,
      `regionalUse` anywhere. */
  ghost predicate Assignment(zones: set<Zone>, running: Counts, zonal: Counts, available: nat, zonalUse: Counts,
                             regionalUse: Counts)
  {
    && (forall z :: z in zones ==>
      Get(zonalUse, z) <= Get(zonal, z) && Get(zonalUse, z) + Get(regionalUse, z) <= Get(running, z))
    && Total(zones, regionalUse) <= available
  }

  /** No assignment covers more instances of a class than the two greedy phases. */
  lemma NoAssignmentCoversMore(running: Counts, zonal: Counts, regional: map<Base, nat>, remaining: Counts,
                               used: map<Base, nat>,
                               b: Base, zonalUse: Counts, regionalUse: Counts)
    requires Allocated(running, zonal, regional, remaining, used)
    requires Assignment(ZonesOf(running.Keys, b), running, zonal, Get(regional, b), zonalUse, regionalUse)
    ensures Total(ZonesOf(running.Keys, b), zonalUse) + Total(ZonesOf(running.Keys, b), regionalUse) <= Get(used, b)
  {
    hide Total, EarlierFirst;
    var zones := ZonesOf(running.Keys, b);
    assert AllocatedFor(running, zonal, regional, remaining, used, b);
    TotalAdds(zones, zonalUse, regionalUse, running);
    var nothing: Counts := map[];
    TotalAdds(zones, zonalUse, nothing, ZonalCover(running, zonal));
  }

  /** The allocation is itself an assignment, so its bound is reached. */
  lemma AllocationIsAnAssignment(running: Counts, zonal: Counts, regional: map<Base, nat>, remaining: Counts,
                                 used: map<Base, nat>, b: Base)
    returns (zonalUse: Counts, regionalUse: Counts)
    requires Allocated(running, zonal, regional, remaining, used)
    ensures Assignment(ZonesOf(running.Keys, b), running, zonal, Get(regional, b), zonalUse, regionalUse)
    ensures Total(ZonesOf(running.Keys, b), zonalUse) + Total(ZonesOf(running.Keys, b), regionalUse) == Get(used, b)
    ensures forall z :: z in running ==> remaining[z] == running[z] - Get(zonalUse, z) - Get(regionalUse, z)
  {
    hide Total, EarlierFirst;
    var zones := ZonesOf(running.Keys, b);
    assert AllocatedFor(running, zonal, regional, remaining, used, b);
    zonalUse := ZonalCover(running, zonal);
    regionalUse := map z | z in running :: running[z] - zonalUse[z] - remaining[z];
    var both: Counts := map z | z in running :: zonalUse[z] + regionalUse[z];
    TotalAdds(zones, zonalUse, regionalUse, both);
    TotalAdds(zones, both, remaining, running);
  }

  /** If instances stay uncovered, every regional reservation of the class is spent, and no zonal
      one is idle in a zone with uncovered instances. */
  lemma NothingIdleWhileUncovered(running: Counts, zonal: Counts, regional: map<Base, nat>, remaining: Counts,
                                  used: map<Base, nat>, z: Zone)
    requires Allocated(running, zonal, regional, remaining, used) && z in running && remaining[z] > 0
    ensures ZonalCover(running, zonal)[z] == Get(zonal, z)
    ensures Get(used, z.base) ==
      Total(ZonesOf(running.Keys, z.base), ZonalCover(running, zonal)) + Get(regional, z.base)
  {
    hide Total, EarlierFirst;
    assert AllocatedFor(running, zonal, regional, remaining, used, z.base);
    TotalPositive(ZonesOf(running.Keys, z.base), remaining);
    assert z in ZonesOf(running.Keys, z.base) && Get(remaining, z) > 0;
  }

  lemma {:induction false} TotalStrict(zones: set<Zone>, a: Counts, b: Counts, z: Zone)
    requires z in zones && Get(a, z) < Get(b, z) && forall y :: y in zones ==> Get(a, y) <= Get(b, y)
    ensures Total(zones, a) < Total(zones, b)
  {
    var nothing: Counts := map[];
    TotalRemove(zones, a, z);
    TotalRemove(zones, b, z);
    TotalAdds(zones - {z}, a, nothing, b);
  }

  /** The allocation is determined by its inputs: which zones keep uncovered instances, and every
      count. */
  lemma AllocationIsDetermined(running: Counts, zonal: Counts, regional: map<Base, nat>, remaining: Counts,
                               used: map<Base, nat>, other: Counts, otherUsed: map<Base, nat>)
    requires Allocated(running, zonal, regional, remaining, used)
    requires Allocated(running, zonal, regional, other, otherUsed)
    ensures remaining == other && forall b :: Get(used, b) == Get(otherUsed, b)
  {
    hide Total, ZoneLeq, Coverable, EarlierFirst, ZonalCover;
    forall b
      ensures Get(used, b) == Get(otherUsed, b)
    {
      assert AllocatedFor(running, zonal, regional, remaining, used, b);
      assert AllocatedFor(running, zonal, regional, other, otherUsed, b);
    }
    forall z | z in running
      ensures remaining[z] == other[z]
    {
      SameTotal(running, zonal, regional, remaining, used, other, otherUsed, z.base);
      if remaining[z] < other[z] {
        NotLess(Uncovered(running, zonal), remaining, other, z);
      } else if other[z] < remaining[z] {
        NotLess(Uncovered(running, zonal), other, remaining, z);
      }
    }
  }

  lemma SameTotal(running: Counts, zonal: Counts, regional: map<Base, nat>, remaining: Counts,
                  used: map<Base, nat>, other: Counts, otherUsed: map<Base, nat>, b: Base)
    requires Allocated(running, zonal, regional, remaining, used)
    requires Allocated(running, zonal, regional, other, otherUsed)
    ensures Total(ZonesOf(running.Keys, b), remaining) == Total(ZonesOf(running.Keys, b), other)
  {
    hide Total, Coverable, EarlierFirst;
    assert AllocatedFor(running, zonal, regional, remaining, used, b);
    assert AllocatedFor(running, zonal, regional, other, otherUsed, b);
  }

  /** Two ways to take the same number from the zones of a class, both earlier zones first, leave no
      zone with less. */
  lemma NotLess(first: Counts, a: Counts, b: Counts, z: Zone)
    requires a.Keys == b.Keys == first.Keys && z in first
    requires forall y :: y in first ==> a[y] <= first[y] && b[y] <= first[y]
    requires EarlierFirst(first, a) && EarlierFirst(first, b)
    requires Total(ZonesOf(first.Keys, z.base), a) == Total(ZonesOf(first.Keys, z.base), b)
    ensures a[z] >= b[z]
  {
    hide Total, ZoneLeq;
    if a[z] < b[z] {
      var zones := ZonesOf(first.Keys, z.base);
      if forall y :: y in zones ==> Get(a, y) <= Get(b, y) {
        TotalStrict(zones, a, b, z);
        assert false;
      }
      var y :| y in zones && Get(a, y) > Get(b, y);
      ZoneOrder(y, z);
      assert false;
    }
  }

  // ---------- The figures reported per class ----------

  datatype Summary = Summary(running: nat, reserved: nat, used: nat, uncovered: nat, unused: nat,
                             uncoveredAzs: set<string>)

  method SumByBase(m: Counts) returns (sums: map<Base, nat>)
    ensures forall b :: Get(sums, b) == Total(ZonesOf(m.Keys, b), m)
  {
    hide Total;
    sums := map[];
    var keys := Sorted(m.Keys);
    ghost var done: set<Zone> := {};
    TotalEmpty(m);
    assert forall b :: ZonesOf({}, b) == {};
    for i := 0 to |keys|
      invariant forall z :: z in done <==> z in keys[..i]
      invariant forall b :: Get(sums, b) == Total(ZonesOf(done, b), m)
    {
      var z := keys[i];
      ZonesOfInsert(done, z, m);
      done := done + {z};
      sums := Add(sums, z.base, m[z]);
    }
    assert done == m.Keys;
  }

  lemma CoverIsReserved(running: Counts, zonal: Counts, b: Base)
    ensures Total(ZonesOf(running.Keys, b), ZonalCover(running, zonal)) <= Total(ZonesOf(zonal.Keys, b), zonal)
  {
    var all := ZonesOf(running.Keys + zonal.Keys, b);
    var cover, nothing: Counts := ZonalCover(running, zonal), map[];
    Widen(ZonesOf(running.Keys, b), all, cover);
    Widen(ZonesOf(zonal.Keys, b), all, zonal);
    TotalAdds(all, cover, nothing, zonal);
  }

  /** The figures of one class never contradict each other: the two `max(0, ...)` of the source
      never bind, uncovered instances are those left in the zones, and the uncovered zones are those
      with any left. */
  ghost predicate Consistent(s: Summary, b: Base, running: Counts, zonal: Counts, regional: map<Base, nat>,
                             remaining: Counts)
  {
    && s.running == Total(ZonesOf(running.Keys, b), running)
    && s.reserved == Total(ZonesOf(zonal.Keys, b), zonal) + Get(regional, b)
    && s.running == s.used + s.uncovered
    && s.reserved == s.used + s.unused
    && s.uncovered == Total(ZonesOf(running.Keys, b), remaining)
    && (forall az :: az in s.uncoveredAzs <==> Zone(b, az) in remaining && remaining[Zone(b, az)] > 0)
    && (s.uncovered > 0 <==> s.uncoveredAzs != {})
  }

  method SummaryOf(base: Base, runningCount: nat, reservedCount: nat, usedReserved: nat, remaining: Counts,
                   ghost running: Counts, ghost zonal: Counts, ghost regional: map<Base, nat>,
                   ghost used: map<Base, nat>)
    returns (s: Summary)
    requires Allocated(running, zonal, regional, remaining, used)
    requires runningCount == Total(ZonesOf(running.Keys, base), running)
    requires reservedCount == Total(ZonesOf(zonal.Keys, base), zonal) + Get(regional, base)
    requires usedReserved == Get(used, base)
    ensures Consistent(s, base, running, zonal, regional, remaining) && s.used == usedReserved
  {
    hide Total, EarlierFirst;
    assert AllocatedFor(running, zonal, regional, remaining, used, base);
    CoverIsReserved(running, zonal, base);
    var uncoveredAzs := set z | z in remaining && z.base == base && remaining[z] > 0 :: z.az;
    TotalPositive(ZonesOf(running.Keys, base), remaining);
    UncoveredZones(running, remaining, base, uncoveredAzs);
    s := Summary(runningCount, reservedCount, usedReserved,
                 Max(0, runningCount - usedReserved), Max(0, reservedCount - usedReserved), uncoveredAzs);
  }

  method Summarise(running: Counts, zonal: Counts, regional: map<Base, nat>, remaining: Counts, used: map<Base, nat>)
    returns (rows: map<Base, Summary>)
    requires Allocated(running, zonal, regional, remaining, used)
    ensures forall b :: b in rows ==>
      Consistent(rows[b], b, running, zonal, regional, remaining) && rows[b].used == Get(used, b)
    ensures forall b :: b in rows <==>
      Total(ZonesOf(running.Keys, b), running) > 0 || Total(ZonesOf(zonal.Keys, b), zonal) + Get(regional, b) > 0
  {
    hide Total, Consistent, Allocated;
    var runningByBase := SumByBase(running);
    var zonalByBase := SumByBase(zonal);
    var allBases := BasesOf(running.Keys) + regional.Keys + BasesOf(zonal.Keys);
    var bases := Sorted(allBases);
    rows := map[];
    ghost var done: set<Base> := {};
    for i := 0 to |bases|
      invariant forall b :: b in done <==> b in bases[..i]
      invariant forall b :: b in rows ==>
        Consistent(rows[b], b, running, zonal, regional, remaining) && rows[b].used == Get(used, b)
      invariant forall b :: b in rows ==> b in done
      invariant forall b :: b in done ==> (b in rows <==>
        Total(ZonesOf(running.Keys, b), running) > 0 || Total(ZonesOf(zonal.Keys, b), zonal) + Get(regional, b) > 0)
    {
      var base := bases[i];
      done := done + {base};
      var runningCount, reservedCount := Get(runningByBase, base), Get(zonalByBase, base) + Get(regional, base);
      if runningCount <= 0 && reservedCount <= 0 {
        continue;
      }
      var s := SummaryOf(base, runningCount, reservedCount, Get(used, base), remaining, running, zonal, regional, used);
      rows := rows[base := s];
    }
    assert bases[..|bases|] == bases;
    forall b | b !in done
      ensures Total(ZonesOf(running.Keys, b), running) == 0
      ensures Total(ZonesOf(zonal.Keys, b), zonal) == 0 && Get(regional, b) == 0
    {
      assert b !in allBases;
      assert forall z :: z in running || z in zonal ==> z.base in allBases;
      UnknownBase(running, regional, running, b);
      UnknownBase(zonal, regional, zonal, b);
    }
  }

  lemma UncoveredZones(running: Counts, remaining: Counts, base: Base, azs: set<string>)
    requires remaining.Keys == running.Keys
    requires azs == set z | z in remaining && z.base == base && remaining[z] > 0 :: z.az
    ensures azs != {} <==> exists z :: z in ZonesOf(running.Keys, base) && Get(remaining, z) > 0
    ensures forall az :: az in azs <==> Zone(base, az) in remaining && remaining[Zone(base, az)] > 0
  {
    forall z | z in ZonesOf(running.Keys, base) && Get(remaining, z) > 0
      ensures z.az in azs
    {
    }
    forall az | Zone(base, az) in remaining && remaining[Zone(base, az)] > 0
      ensures az in azs
    {
      var z := Zone(base, az);
      assert z in remaining && z.base == base && remaining[z] > 0;
    }
  }
}
