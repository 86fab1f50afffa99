/** The whole analysis of checks/aws/ec2_reserved_instances.py, from the instances and reservations
    listed to the figures of each class, and what its counts mean. */
module ReservedReport {
  import opened Prelude
  import opened PyText
  import opened ReservedInstances

  // ---------- What is counted where ----------

  /** The instance is counted in the zone: it has a type, and no zone counts as `unknown`. */
  predicate CountsAt(x: Instance, z: Zone) {
    && x.base == z.base && x.base.instanceType != ""
    && ((x.az == z.az && x.az != "") || (x.az == "" && z.az == "unknown"))
  }

  /** Each zone counts every instance in it once. */
  lemma {:induction false} InstancesAtExactly(xs: seq<Instance>, z: Zone)
    ensures InstancesAt(xs, z) == |set i | 0 <= i < |xs| && CountsAt(xs[i], z)|
  {
    hide CountsAt, ZoneOf;
    if xs != [] {
      var n := |xs| - 1;
      InstancesAtExactly(xs[..n], z);
      KeyOfInstance(xs[n], z);
      OneMoreCounted(xs, z);
    }
  }

  lemma KeyOfInstance(x: Instance, z: Zone)
    ensures ZoneOf(x) == Some(z) <==> CountsAt(x, z)
  {
  }

  lemma OneMoreCounted(xs: seq<Instance>, z: Zone)
    requires xs != []
    ensures var n := |xs| - 1;
      |set i | 0 <= i < |xs| && CountsAt(xs[i], z)| ==
      |set i | 0 <= i < n && CountsAt(xs[..n][i], z)| + if CountsAt(xs[n], z) then 1 else 0
  {
    hide CountsAt;
    var n := |xs| - 1;
    var before, after := set i | 0 <= i < n && CountsAt(xs[..n][i], z), set i | 0 <= i < |xs| && CountsAt(xs[i], z);
    assert after == if CountsAt(xs[n], z) then before + {n} else before;
  }

  lemma ContainsExactly(s: string, t: string)
    ensures Contains(s, t) <==> exists a, b :: s == a + t + b
  {
    if i :| 0 <= i <= |s| && t <= s[i..] {
      assert s == s[..i] + t + s[i + |t|..];
    }
    if a, b :| s == a + t + b {
      assert s[|a|..] == t + b;
    }
  }

  /** A reservation has no part in the counts without a type or with a count of none; otherwise its count
      goes to its own zone when its scope speaks of availability and it has one, else to the region. */
  lemma ReservationCounts(rs: seq<Reservation>, r: Reservation, z: Zone, b: Base)
    ensures ReservedAt([], z) == 0 && ReservedRegionally([], b) == 0
    ensures var inZone := (exists x, y :: r.scope == x + "availability" + y) && r.az != "";
      var counts := r.base.instanceType != "" && r.count >= 1;
      && ReservedAt(rs + [r], z) ==
        ReservedAt(rs, z) + (if counts && inZone && r.base == z.base && r.az == z.az then r.count else 0)
      && ReservedRegionally(rs + [r], b) ==
        ReservedRegionally(rs, b) + (if counts && !inZone && r.base == b then r.count else 0)
  {
    ContainsExactly(r.scope, "availability");
    hide Contains;
    assert (rs + [r])[..|rs|] == rs;
  }

  /** Of two zones of a class, the later by name gets a regional reservation only when nothing is left
      uncovered in the earlier. */
  lemma EarlierZonesFirst(running: Counts, zonal: Counts, regional: map<Base, nat>, remaining: Counts,
                          used: map<Base, nat>, b: Base, az: string, later: string)
    requires Allocated(running, zonal, regional, remaining, used)
    requires Zone(b, az) in running && Zone(b, later) in running && az != later && TextLeq(az, later)
    requires Get(zonal, Zone(b, later)) + remaining[Zone(b, later)] < running[Zone(b, later)]
    ensures remaining[Zone(b, az)] == 0
  {
    hide AllocatedFor, TextLeq;
    assert Before(Zone(b, az), Zone(b, later));
  }

  // ---------- Whole classes ----------

  /** The instances of a class, in whatever zone. */
  function InstancesOf(xs: seq<Instance>, b: Base): nat {
    if xs == [] then 0
    else InstancesOf(xs[..|xs| - 1], b) + if xs[|xs| - 1].base == b && b.instanceType != "" then 1 else 0
  }

  /** The reservations of a class, zonal or regional. */
  function ReservationsOf(rs: seq<Reservation>, b: Base): nat {
    if rs == [] then 0
    else
      var r := rs[|rs| - 1];
      ReservationsOf(rs[..|rs| - 1], b) + if r.base == b && b.instanceType != "" && r.count > 0 then r.count else 0
  }

  /** Counts over any set of zones of the class that holds all in use add up to the class. */
  lemma {:induction false} ZonesAddUp(xs: seq<Instance>, b: Base, zones: set<Zone>, m: Counts)
    requires forall z :: z in zones ==> z.base == b && Get(m, z) == InstancesAt(xs, z)
    requires forall i, z: Zone :: 0 <= i < |xs| && CountsAt(xs[i], z) && z.base == b ==> z in zones
    ensures Total(zones, m) == InstancesOf(xs, b)
  {
    hide Total;
    if xs == [] {
      TotalNothing(zones, m);
    } else {
      var n := |xs| - 1;
      var x, init := xs[n], xs[..n];
      var before: Counts := map z | z in zones :: InstancesAt(init, z);
      assert forall i :: 0 <= i < n ==> init[i] == xs[i];
      ZonesAddUp(init, b, zones, before);
      if x.base == b && b.instanceType != "" {
        var z := Zone(b, if x.az == "" then "unknown" else x.az);
        assert CountsAt(x, z);
        TotalRemove(zones, before, z);
        TotalRemove(zones, m, z);
        TotalAgrees(zones - {z}, before, m);
      } else {
        TotalAgrees(zones, before, m);
      }
    }
  }

  lemma {:induction false} TotalNothing(zones: set<Zone>, m: Counts)
    requires forall z :: z in zones ==> Get(m, z) == 0
    ensures Total(zones, m) == 0
  {
    TotalPositive(zones, m);
  }

  lemma {:induction false} ReservationsAddUp(rs: seq<Reservation>, b: Base, zones: set<Zone>, m: Counts)
    requires forall z :: z in zones ==> z.base == b && Get(m, z) == ReservedAt(rs, z)
    requires forall z: Zone :: z.base == b && ReservedAt(rs, z) > 0 ==> z in zones
    ensures Total(zones, m) + ReservedRegionally(rs, b) == ReservationsOf(rs, b)
  {
    hide Total, Zonal;
    if rs == [] {
      TotalNothing(zones, m);
    } else {
      var n := |rs| - 1;
      var r, init := rs[n], rs[..n];
      var before: Counts := map z | z in zones :: ReservedAt(init, z);
      assert forall z :: ReservedAt(init, z) <= ReservedAt(rs, z);
      ReservationsAddUp(init, b, zones, before);
      if Counted(r) && Zonal(r) && r.base == b {
        var z := Zone(b, r.az);
        assert ReservedAt(rs, z) > 0;
        TotalRemove(zones, before, z);
        TotalRemove(zones, m, z);
        TotalAgrees(zones - {z}, before, m);
      } else {
        TotalAgrees(zones, before, m);
      }
    }
  }

  /** The figures of a class: all its instances and all its reservations, none counted twice or lost. */
  ghost predicate Accounts(s: Summary, xs: seq<Instance>, rs: seq<Reservation>, b: Base) {
    && s.running == InstancesOf(xs, b) == s.used + s.uncovered
    && s.reserved == ReservationsOf(rs, b) == s.used + s.unused
    && (forall az :: az in s.uncoveredAzs ==> exists i :: 0 <= i < |xs| && CountsAt(xs[i], Zone(b, az)))
    && (s.uncoveredAzs == {} <==> s.uncovered == 0)
  }

  /** From the lists to the figures: a class is reported exactly when it has an instance or a reservation,
      and every instance and every reservation of it is in its figures once. */
  method Report(xs: seq<Instance>, rs: seq<Reservation>) returns (rows: map<Base, Summary>)
    ensures forall b :: b in rows <==> InstancesOf(xs, b) > 0 || ReservationsOf(rs, b) > 0
    ensures forall b :: b in rows ==> Accounts(rows[b], xs, rs, b)
  {
    hide Allocated, Consistent, InstancesOf, ReservationsOf, InstancesAt, ReservedAt, ReservedRegionally, Total,
      Accounts, ZonesOf;
    var running := CountRunning(xs);
    var zonal, regional := CountReserved(rs);
    var remaining, used := Allocate(running, zonal, regional);
    rows := Summarise(running, zonal, regional, remaining, used);
    forall b
      ensures b in rows <==> InstancesOf(xs, b) > 0 || ReservationsOf(rs, b) > 0
      ensures b in rows ==> Accounts(rows[b], xs, rs, b)
    {
      ClassAddsUp(xs, rs, running, zonal, regional, b);
      if b in rows {
        FiguresAccount(xs, rs, running, zonal, regional, remaining, used, b, rows[b]);
      }
    }
  }

  lemma ClassAddsUp(xs: seq<Instance>, rs: seq<Reservation>, running: Counts, zonal: Counts,
                    regional: map<Base, nat>, b: Base)
    requires forall z :: Get(running, z) == InstancesAt(xs, z)
    requires forall z :: Get(zonal, z) == ReservedAt(rs, z)
    requires Get(regional, b) == ReservedRegionally(rs, b)
    ensures Total(ZonesOf(running.Keys, b), running) == InstancesOf(xs, b)
    ensures Total(ZonesOf(zonal.Keys, b), zonal) + Get(regional, b) == ReservationsOf(rs, b)
  {
    hide Total, InstancesAt, ReservedAt, ReservedRegionally, ReservationsOf, InstancesOf, CountsAt;
    forall i, z | 0 <= i < |xs| && CountsAt(xs[i], z)
      ensures z in running
    {
      CountedSomewhere(xs, i, z);
    }
    ZonesAddUp(xs, b, ZonesOf(running.Keys, b), running);
    ReservationsAddUp(rs, b, ZonesOf(zonal.Keys, b), zonal);
  }

  lemma CountedSomewhere(xs: seq<Instance>, i: nat, z: Zone)
    requires i < |xs| && CountsAt(xs[i], z)
    ensures InstancesAt(xs, z) > 0
  {
    InstancesAtExactly(xs, z);
    assert i in set j | 0 <= j < |xs| && CountsAt(xs[j], z);
  }

  lemma FiguresAccount(xs: seq<Instance>, rs: seq<Reservation>, running: Counts, zonal: Counts,
                       regional: map<Base, nat>, remaining: Counts, used: map<Base, nat>, b: Base, s: Summary)
    requires Allocated(running, zonal, regional, remaining, used)
    requires Consistent(s, b, running, zonal, regional, remaining)
    requires forall z :: Get(running, z) == InstancesAt(xs, z)
    requires Total(ZonesOf(running.Keys, b), running) == InstancesOf(xs, b)
    requires Total(ZonesOf(zonal.Keys, b), zonal) + Get(regional, b) == ReservationsOf(rs, b)
    ensures Accounts(s, xs, rs, b)
  {
    hide Total, InstancesOf, ReservationsOf, InstancesAt, EarlierFirst, AllocatedFor, CountsAt;
    forall az | az in s.uncoveredAzs
      ensures exists i :: 0 <= i < |xs| && CountsAt(xs[i], Zone(b, az))
    {
      var z := Zone(b, az);
      InstancesAtExactly(xs, z);
      assert 0 < remaining[z] <= running[z] == Get(running, z);
      var at := set i | 0 <= i < |xs| && CountsAt(xs[i], z);
      assert at != {};
      var i :| i in at;
    }
  }
}
