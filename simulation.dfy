/** The tick driver of ui.py (classes Simulation and GlobalSimulation), with
    everything that draws, plays sound or schedules timers taken out: the
    state is the clock, each route's list of running trains and the yards'
    train counts. */
module Simulations {
  import opened Wrappers
  import opened Times
  import opened Orders
  import opened Schedules
  import opened Storage
  import opened Trains
  import opened Parsing

  /** A route: its name and its stations in eastbound order. */
  datatype Route = Route(name: string, stations: seq<Station>)

  /** An order can be played against the route without an index error:
      every stop a train of the order can stand at is a station of the
      route. */
  predicate Fits(o: Order, route: Route) {
    ServedWithin(o, |route.stations|)
  }

  /** route[idx]: the station at a raw (possibly negative) index. */
  function StationAt(route: Route, leg: int): (r: Station)
    requires -|route.stations| <= leg < |route.stations|
    ensures r in route.stations
    ensures 0 <= leg ==> r == route.stations[leg]
    ensures leg < 0 ==> r == route.stations[|route.stations| + leg]
  {
    route.stations[Resolve(leg, |route.stations|)]
  }

  /** Every station of the route names one of the yards. */
  predicate RouteServed(route: Route, yards: seq<Counts>) {
    forall k :: 0 <= k < |route.stations| ==> Serves(yards, route.stations[k])
  }

  /** Every leg indexes the route. */
  predicate LegsOnRoute(route: Route, legs: seq<int>) {
    forall k :: 0 <= k < |legs| ==> -|route.stations| <= legs[k] < |route.stations|
  }

  /** The yards after one withdraw_train per leg, in order. */
  function WithdrawAll(yards: seq<Counts>, route: Route, legs: seq<int>): (r: seq<Counts>)
    requires RouteServed(route, yards) && LegsOnRoute(route, legs)
    ensures |r| == |yards|
    decreases |legs|
  {
    if |legs| == 0 then yards
    else
      var before := WithdrawAll(yards, route, legs[..|legs| - 1]);
      WithdrawTrain(before, StationAt(route, legs[|legs| - 1]), route.name)
  }

  /** The yards after one store_train per leg, in order. */
  function StoreAll(yards: seq<Counts>, route: Route, legs: seq<int>): (r: seq<Counts>)
    requires RouteServed(route, yards) && LegsOnRoute(route, legs)
    ensures |r| == |yards|
    decreases |legs|
  {
    if |legs| == 0 then yards
    else
      var before := StoreAll(yards, route, legs[..|legs| - 1]);
      StoreTrain(before, StationAt(route, legs[|legs| - 1]), route.name)
  }

  lemma WithdrawAllSnoc(yards: seq<Counts>, route: Route, legs: seq<int>, leg: int)
    requires RouteServed(route, yards) && LegsOnRoute(route, legs + [leg])
    ensures LegsOnRoute(route, legs) && RouteServed(route, WithdrawAll(yards, route, legs))
    ensures -|route.stations| <= leg < |route.stations|
    ensures WithdrawAll(yards, route, legs + [leg]) == WithdrawTrain(WithdrawAll(yards, route, legs), StationAt(route, leg), route.name)
  {
    assert (legs + [leg])[..|legs|] == legs;
    assert forall k :: 0 <= k < |legs| ==> legs[k] == (legs + [leg])[k];
    assert (legs + [leg])[|legs|] == leg;
  }

  lemma StoreAllSnoc(yards: seq<Counts>, route: Route, legs: seq<int>, leg: int)
    requires RouteServed(route, yards) && LegsOnRoute(route, legs + [leg])
    ensures LegsOnRoute(route, legs) && RouteServed(route, StoreAll(yards, route, legs))
    ensures -|route.stations| <= leg < |route.stations|
    ensures StoreAll(yards, route, legs + [leg]) == StoreTrain(StoreAll(yards, route, legs), StationAt(route, leg), route.name)
  {
    assert (legs + [leg])[..|legs|] == legs;
    assert forall k :: 0 <= k < |legs| ==> legs[k] == (legs + [leg])[k];
    assert (legs + [leg])[|legs|] == leg;
  }

  lemma {:induction false} WithdrawAllValid(yards: seq<Counts>, route: Route, legs: seq<int>)
    requires AllValid(yards) && RouteServed(route, yards) && LegsOnRoute(route, legs)
    ensures AllValid(WithdrawAll(yards, route, legs))
    decreases |legs|
  {
    if |legs| > 0 {
      var init := legs[..|legs| - 1];
      WithdrawAllValid(yards, route, init);
      WithdrawTrainValid(WithdrawAll(yards, route, init), StationAt(route, legs[|legs| - 1]), route.name);
    }
  }

  lemma {:induction false} StoreAllValid(yards: seq<Counts>, route: Route, legs: seq<int>)
    requires AllValid(yards) && RouteServed(route, yards) && LegsOnRoute(route, legs)
    ensures AllValid(StoreAll(yards, route, legs))
    decreases |legs|
  {
    if |legs| > 0 {
      var init := legs[..|legs| - 1];
      StoreAllValid(yards, route, init);
      StoreTrainValid(StoreAll(yards, route, init), StationAt(route, legs[|legs| - 1]), route.name);
    }
  }

  /** Every train can be advanced to `t`. */
  predicate AllCanAdvance(ts: seq<Train>, t: Time) {
    forall k :: 0 <= k < |ts| ==> CanAdvance(ts[k].order, t)
  }

  /** Every train stands where advance_to_time(t) puts it. */
  ghost predicate AllAdvanced(ts: seq<Train>, t: Time)
    reads ts
  {
    forall k :: 0 <= k < |ts| ==>
      CanAdvance(ts[k].order, t) && Position(ts[k].currentLeg, ts[k].legFrac) == Advanced(ts[k].order, t)
  }

  lemma AllAdvancedAppend(a: seq<Train>, b: seq<Train>, t: Time)
    requires AllAdvanced(a, t) && AllAdvanced(b, t)
    ensures AllAdvanced(a + b, t)
  {
    forall k | 0 <= k < |a + b|
      ensures CanAdvance((a + b)[k].order, t)
      ensures Position((a + b)[k].currentLeg, (a + b)[k].legFrac) == Advanced((a + b)[k].order, t)
    {
      if k < |a| {
        assert (a + b)[k] == a[k];
      } else {
        assert (a + b)[k] == b[k - |a|];
      }
    }
  }

  /** Advanced trains stand on the route their orders fit. */
  lemma AdvancedTrainsOnRoute(ts: seq<Train>, t: Time, route: Route)
    requires AllAdvanced(ts, t) && AllFit(ts, route)
    ensures OnRoute(Positions(ts), route)
  {
    forall k | 0 <= k < |ts| ensures -|route.stations| <= ts[k].currentLeg < |route.stations| {
      AdvancedOnRoute(ts[k].order, t, |route.stations|);
    }
  }

  /** Every train's order fits the route. */
  predicate AllFit(ts: seq<Train>, route: Route) {
    forall k :: 0 <= k < |ts| ==> Fits(ts[k].order, route)
  }

  /** The trains' positions, in order. */
  ghost function Positions(ts: seq<Train>): (r: seq<Position>)
    reads ts
  {
    seq(|ts|, k requires 0 <= k < |ts| reads ts => Position(ts[k].currentLeg, ts[k].legFrac))
  }

  /** Every position's leg indexes the route. */
  predicate OnRoute(ps: seq<Position>, route: Route) {
    forall k :: 0 <= k < |ps| ==> -|route.stations| <= ps[k].leg < |route.stations|
  }

  /** No train appears twice. */
  predicate Distinct(ts: seq<Train>) {
    forall i, j :: 0 <= i < j < |ts| ==> ts[i] != ts[j]
  }

  lemma AllFitSnoc(ts: seq<Train>, tr: Train, route: Route)
    requires AllFit(ts, route) && Fits(tr.order, route)
    ensures AllFit(ts + [tr], route)
  {
  }

  lemma PrefixSnoc<T>(s: seq<T>, i: nat)
    requires i < |s|
    ensures s[..i + 1] == s[..i] + [s[i]]
  {
  }

  lemma PrefixAll<T>(s: seq<T>)
    ensures s[..|s|] == s
  {
  }

  lemma AppendAssoc<T>(a: seq<T>, b: seq<T>, c: seq<T>)
    ensures (a + b) + c == a + (b + c)
  {
  }

  lemma DistinctSnoc(ts: seq<Train>, tr: Train)
    requires Distinct(ts) && tr !in ts
    ensures Distinct(ts + [tr])
  {
  }

  /** The orders of the trains, in order. */
  function OrdersOf(ts: seq<Train>): (r: seq<Order>)
    ensures |r| == |ts|
    decreases |ts|
  {
    if |ts| == 0 then [] else OrdersOf(ts[..|ts| - 1]) + [ts[|ts| - 1].order]
  }

  /** Appending a new train that fits the route to distinct trains that fit
      it keeps them distinct and fitting. */
  lemma RunningSnoc(before: seq<Train>, spawned: seq<Train>, train: Train, route: Route)
    requires Distinct(before + spawned) && AllFit(before + spawned, route)
    requires train !in before + spawned && Fits(train.order, route)
    ensures before + (spawned + [train]) == (before + spawned) + [train]
    ensures Distinct(before + (spawned + [train])) && AllFit(before + (spawned + [train]), route)
  {
    AppendAssoc(before, spawned, [train]);
    DistinctSnoc(before + spawned, train);
    AllFitSnoc(before + spawned, train, route);
  }

  /** Appending the train spawned for `orders[i]` extends what is known of
      the trains spawned for `orders[..i]`. */
  lemma SpawnedSnoc(orders: seq<Order>, i: nat, spawned: seq<Train>, train: Train, t: Time, system: string)
    requires i < |orders| && |spawned| == i && OrdersOf(spawned) == orders[..i]
    requires forall k :: 0 <= k < i ==> spawned[k].system == system
    requires AllAdvanced(spawned, t)
    requires train.order == orders[i] && train.system == system
    requires CanAdvance(train.order, t) && Position(train.currentLeg, train.legFrac) == Advanced(train.order, t)
    ensures OrdersOf(spawned + [train]) == orders[..i + 1]
    ensures forall k :: 0 <= k < i + 1 ==> (spawned + [train])[k].system == system
    ensures AllAdvanced(spawned + [train], t)
  {
    assert (spawned + [train])[..i] == spawned;
    PrefixSnoc(orders, i);
    AllAdvancedAppend(spawned, [train], t);
  }

  /** The leg at which a train spawned for each order stands at `t`, in order. */
  function SpawnLegs(orders: seq<Order>, t: Time): (r: seq<int>)
    requires forall k :: 0 <= k < |orders| ==> CanAdvance(orders[k], t)
    ensures |r| == |orders|
    decreases |orders|
  {
    if |orders| == 0 then []
    else SpawnLegs(orders[..|orders| - 1], t) + [Advanced(orders[|orders| - 1], t).leg]
  }

  /** Spawned trains stand on the route. */
  lemma {:induction false} SpawnLegsOnRoute(orders: seq<Order>, t: Time, route: Route)
    requires forall k :: 0 <= k < |orders| ==> CanAdvance(orders[k], t) && Fits(orders[k], route)
    ensures LegsOnRoute(route, SpawnLegs(orders, t))
    decreases |orders|
  {
    if |orders| > 0 {
      var n := |orders| - 1;
      SpawnLegsOnRoute(orders[..n], t, route);
      AdvancedOnRoute(orders[n], t, |route.stations|);
    }
  }

  lemma SpawnLegsSnoc(orders: seq<Order>, t: Time, i: nat)
    requires i < |orders| && forall k :: 0 <= k < |orders| ==> CanAdvance(orders[k], t)
    ensures SpawnLegs(orders[..i + 1], t) == SpawnLegs(orders[..i], t) + [Advanced(orders[i], t).leg]
  {
    assert orders[..i + 1][..i] == orders[..i];
  }

  /** Once the running and the spawned trains stand where advance_to_time
      puts them, they all stand on the route. */
  lemma AllAdvancedOnRoute(before: seq<Train>, spawned: seq<Train>, t: Time, route: Route)
    requires AllAdvanced(before, t) && AllAdvanced(spawned, t) && AllFit(before + spawned, route)
    ensures AllAdvanced(before + spawned, t) && OnRoute(Positions(before + spawned), route)
    ensures LegsOnRoute(route, RetiredLegs(Positions(before + spawned), |before + spawned|))
  {
    var all := before + spawned;
    AllAdvancedAppend(before, spawned, t);
    AdvancedTrainsOnRoute(all, t, route);
    RetiredLegsOnRoute(Positions(all), |all|, route);
  }

  /** The trains kept by the last loop of update are distinct, fit the route
      and are not complete. */
  lemma SurvivorsRunningDistinct(ts: seq<Train>, route: Route)
    requires Distinct(ts) && AllFit(ts, route)
    ensures var r := Survivors(ts, Positions(ts), |ts|);
      && Distinct(r) && AllFit(r, route)
      && forall k :: 0 <= k < |r| ==> !r[k].IsComplete() && r[k] in ts
  {
    SurvivorsRunning(ts, route);
    SurvivorsDistinct(ts, Positions(ts), |ts|);
  }

  /** Withdrawing the spawned trains and storing the retired ones keeps every
      yard count non-negative. */
  lemma UpdatedYardsValid(yards: seq<Counts>, route: Route, spawnLegs: seq<int>, retiredLegs: seq<int>)
    requires RouteServed(route, yards) && LegsOnRoute(route, spawnLegs) && LegsOnRoute(route, retiredLegs)
    ensures RouteServed(route, WithdrawAll(yards, route, spawnLegs))
    ensures AllValid(yards) ==> AllValid(StoreAll(WithdrawAll(yards, route, spawnLegs), route, retiredLegs))
  {
    if AllValid(yards) {
      WithdrawAllValid(yards, route, spawnLegs);
      StoreAllValid(WithdrawAll(yards, route, spawnLegs), route, retiredLegs);
    }
  }

  /** The trains among the first `n` that are not complete, in order:
      cleaned_trains after `n` iterations of the last loop of update. */
  function Survivors(ts: seq<Train>, ps: seq<Position>, n: nat): (r: seq<Train>)
    requires n <= |ts| == |ps|
  {
    if n == 0 then []
    else Survivors(ts, ps, n - 1) + (if ps[n - 1].frac == 1.0 then [] else [ts[n - 1]])
  }

  /** The legs of the complete positions among the first `n`, in order:
      where the last loop of update calls store_train. */
  function RetiredLegs(ps: seq<Position>, n: nat): (r: seq<int>)
    requires n <= |ps|
  {
    if n == 0 then []
    else RetiredLegs(ps, n - 1) + (if ps[n - 1].frac == 1.0 then [ps[n - 1].leg] else [])
  }

  /** One more position in the last loop of update: a complete one adds a
      store_train at its leg's station, any other leaves the yards as they
      are. */
  lemma RetireStep(yards: seq<Counts>, route: Route, ps: seq<Position>, i: nat)
    requires i < |ps| && RouteServed(route, yards) && OnRoute(ps, route)
    requires LegsOnRoute(route, RetiredLegs(ps, i))
    ensures LegsOnRoute(route, RetiredLegs(ps, i + 1))
    ensures -|route.stations| <= ps[i].leg < |route.stations|
    ensures RouteServed(route, StoreAll(yards, route, RetiredLegs(ps, i)))
    ensures ps[i].frac == 1.0 ==>
      StoreAll(yards, route, RetiredLegs(ps, i + 1)) ==
        StoreTrain(StoreAll(yards, route, RetiredLegs(ps, i)), StationAt(route, ps[i].leg), route.name)
    ensures ps[i].frac != 1.0 ==> RetiredLegs(ps, i + 1) == RetiredLegs(ps, i)
  {
    var legs := RetiredLegs(ps, i);
    if ps[i].frac == 1.0 {
      assert legs + [ps[i].leg] == RetiredLegs(ps, i + 1);
      StoreAllSnoc(yards, route, legs, ps[i].leg);
    } else {
      assert legs + [] == legs;
    }
  }

  /** A retired train's leg is the leg of one of the trains. */
  lemma {:induction false} RetiredLegsOnRoute(ps: seq<Position>, n: nat, route: Route)
    requires n <= |ps| && OnRoute(ps, route)
    ensures LegsOnRoute(route, RetiredLegs(ps, n))
  {
    if n > 0 {
      RetiredLegsOnRoute(ps, n - 1, route);
    }
  }

  /** The survivors are exactly the trains among the first `n` whose
      position is not complete. */
  lemma {:induction false} SurvivorsMembers(ts: seq<Train>, ps: seq<Position>, n: nat)
    requires n <= |ts| == |ps|
    ensures forall k :: 0 <= k < |Survivors(ts, ps, n)| ==>
      exists j :: 0 <= j < n && Survivors(ts, ps, n)[k] == ts[j] && ps[j].frac != 1.0
    ensures forall k :: 0 <= k < n && ps[k].frac != 1.0 ==> ts[k] in Survivors(ts, ps, n)
  {
    if n > 0 {
      SurvivorsMembers(ts, ps, n - 1);
      var before := Survivors(ts, ps, n - 1);
      var r := Survivors(ts, ps, n);
      forall k | 0 <= k < |r| ensures exists j :: 0 <= j < n && r[k] == ts[j] && ps[j].frac != 1.0 {
        if k < |before| {
          var j :| 0 <= j < n - 1 && before[k] == ts[j] && ps[j].frac != 1.0;
          assert r[k] == ts[j];
        } else {
          assert r[k] == ts[n - 1];
        }
      }
      forall k | 0 <= k < n && ps[k].frac != 1.0 ensures ts[k] in r {
        if k < n - 1 {
          var j :| 0 <= j < |before| && before[j] == ts[k];
          assert r[j] == ts[k];
        } else {
          assert r[|r| - 1] == ts[k];
        }
      }
    } else {
      assert Survivors(ts, ps, n) == [];
    }
  }

  /** Every survivor fits the route and is not complete. */
  lemma SurvivorsRunning(ts: seq<Train>, route: Route)
    requires AllFit(ts, route)
    ensures AllFit(Survivors(ts, Positions(ts), |ts|), route)
    ensures forall k :: 0 <= k < |Survivors(ts, Positions(ts), |ts|)| ==>
      !Survivors(ts, Positions(ts), |ts|)[k].IsComplete() && Survivors(ts, Positions(ts), |ts|)[k] in ts
  {
    var ps := Positions(ts);
    var r := Survivors(ts, ps, |ts|);
    SurvivorsMembers(ts, ps, |ts|);
    forall k | 0 <= k < |r| ensures Fits(r[k].order, route) && !r[k].IsComplete() && r[k] in ts {
      var j :| 0 <= j < |ts| && r[k] == ts[j] && ps[j].frac != 1.0;
    }
  }

  /** The survivors of advanced trains are advanced. */
  lemma SurvivorsAdvanced(ts: seq<Train>, t: Time)
    requires AllAdvanced(ts, t)
    ensures AllAdvanced(Survivors(ts, Positions(ts), |ts|), t)
  {
    var r := Survivors(ts, Positions(ts), |ts|);
    SurvivorsMembers(ts, Positions(ts), |ts|);
    forall k | 0 <= k < |r|
      ensures CanAdvance(r[k].order, t) && Position(r[k].currentLeg, r[k].legFrac) == Advanced(r[k].order, t)
    {
      var j :| 0 <= j < |ts| && r[k] == ts[j] && Positions(ts)[j].frac != 1.0;
    }
  }

  /** Dropping trains keeps them distinct. */
  lemma {:induction false} SurvivorsDistinct(ts: seq<Train>, ps: seq<Position>, n: nat)
    requires n <= |ts| == |ps| && Distinct(ts)
    ensures Distinct(Survivors(ts, ps, n))
  {
    if n > 0 {
      SurvivorsDistinct(ts, ps, n - 1);
      SurvivorsMembers(ts, ps, n - 1);
      var before := Survivors(ts, ps, n - 1);
      forall k | 0 <= k < |before| ensures before[k] != ts[n - 1] {
        var j :| 0 <= j < n - 1 && before[k] == ts[j] && ps[j].frac != 1.0;
      }
    }
  }

  /** [get_order(id) for id in ids], for ids the schedule holds: one order
      per id, each the last order of the schedule with that id. */
  function GetOrders(s: Schedule, ids: seq<string>): (r: seq<Order>)
    requires forall k :: 0 <= k < |ids| ==> GetOrder(s, ids[k]).Ok?
    ensures |r| == |ids|
    ensures forall k :: 0 <= k < |ids| ==> r[k].id == ids[k] && exists j: nat :: LastWithId(s.orders, ids[k], j) && s.orders[j] == r[k]
  {
    forall k | 0 <= k < |ids|
      ensures exists j: nat :: LastWithId(s.orders, ids[k], j) && s.orders[j] == GetOrder(s, ids[k]).value
    {
      GetOrderIsLast(s, ids[k]);
    }
    seq(|ids|, k requires 0 <= k < |ids| => GetOrder(s, ids[k]).value)
  }

  /** The orders whose trains spawn at `t`: get_order of every id that
      find_orders_for_time picks out of the spawn order. */
  function SpawnedOrders(s: Schedule, t: Time): (r: seq<Order>)
    requires SpawnOrder(s).Ok?
    ensures |r| == |FindOrdersForTime(SpawnOrder(s).value, t)|
  {
    var ids := FindOrdersForTime(SpawnOrder(s).value, t);
    forall k | 0 <= k < |ids| ensures GetOrder(s, ids[k]).Ok? {
      FoundIdLookup(s, t, k);
    }
    GetOrders(s, ids)
  }

  /** Each spawned order is the schedule's order under the k-th id found for
      `t`; with unique ids, its first served stop is at `t`. */
  lemma SpawnedOrdersFound(s: Schedule, t: Time)
    requires SpawnOrder(s).Ok?
    ensures var r := SpawnedOrders(s, t);
      forall k :: 0 <= k < |r| ==>
        && r[k] in s.orders && r[k].id == FindOrdersForTime(SpawnOrder(s).value, t)[k]
        && (UniqueIds(s) ==> SpawnPlaceAndTime(r[k]) == Ok(Spawn(r[k].id, t)))
  {
    var ids := FindOrdersForTime(SpawnOrder(s).value, t);
    forall k | 0 <= k < |ids|
      ensures GetOrder(s, ids[k]).Ok? && GetOrder(s, ids[k]).value in s.orders && GetOrder(s, ids[k]).value.id == ids[k]
      ensures UniqueIds(s) ==> SpawnPlaceAndTime(GetOrder(s, ids[k]).value) == Ok(Spawn(ids[k], t))
    {
      FoundIdLookup(s, t, k);
    }
  }

  lemma SpawnedOrdersFit(s: Schedule, t: Time, route: Route)
    requires SpawnOrder(s).Ok?
    requires forall i :: 0 <= i < |s.orders| ==> Fits(s.orders[i], route)
    ensures forall k :: 0 <= k < |SpawnedOrders(s, t)| ==> Fits(SpawnedOrders(s, t)[k], route)
  {
    SpawnedOrdersFound(s, t);
  }

  class Simulation {
    const schedule: Schedule
    const route: Route
    const spawnOrder: seq<Spawn>
    const yards: Yards
    var trains: seq<Train>

    /** What every tick keeps: the spawn order is the schedule's, the trains
        are distinct objects on orders that fit the route, and no running
        train is complete. */
    ghost predicate Valid()
      reads this, trains
    {
      && SpawnOrder(schedule) == Ok(spawnOrder)
      && (forall i :: 0 <= i < |schedule.orders| ==> Fits(schedule.orders[i], route))
      && Distinct(trains)
      && AllFit(trains, route)
      && (forall k :: 0 <= k < |trains| ==> !trains[k].IsComplete())
    }

    /** Simulation.__init__: the spawn order is computed once; no train runs. */
    constructor (schedule: Schedule, route: Route, yards: Yards)
      requires SpawnOrder(schedule).Ok?
      requires forall i :: 0 <= i < |schedule.orders| ==> Fits(schedule.orders[i], route)
      ensures Valid() && trains == []
      ensures this.schedule == schedule && this.route == route && this.yards == yards
      ensures spawnOrder == SpawnOrder(schedule).value
    {
      this.schedule := schedule;
      this.route := route;
      this.yards := yards;
      spawnOrder := SpawnOrder(schedule).value;
      trains := [];
    }

    /** reset: no train runs. */
    method Reset()
      requires Valid()
      modifies this
      ensures Valid() && trains == []
    {
      trains := [];
    }

    /** update(t): advance every running train, spawn a train for every order
        that starts at `t` (withdrawing it from its station's yard), then
        retire every complete train into its station's yard. */
    method Update(t: Time) returns (ghost spawned: seq<Train>)
      requires Valid() && RouteServed(route, yards.tables)
      requires AllCanAdvance(trains, t)
      requires forall k :: 0 <= k < |SpawnedOrders(schedule, t)| ==> CanAdvance(SpawnedOrders(schedule, t)[k], t)
      modifies this, trains, yards
      ensures Valid() && |yards.tables| == old(|yards.tables|)
      ensures old(yards.Valid()) ==> yards.Valid()
      ensures OrdersOf(spawned) == SpawnedOrders(schedule, t)
      ensures forall k :: 0 <= k < |spawned| ==> spawned[k].system == route.name && fresh(spawned[k])
      ensures forall k :: 0 <= k < |trains| ==> trains[k] in old(trains) || trains[k] in spawned
      ensures AllAdvanced(old(trains) + spawned, t) && AllAdvanced(trains, t)
      ensures var all := old(trains) + spawned; trains == Survivors(all, Positions(all), |all|)
      ensures var all := old(trains) + spawned; LegsOnRoute(route, SpawnLegs(SpawnedOrders(schedule, t), t)) && LegsOnRoute(route, RetiredLegs(Positions(all), |all|))
      ensures RouteServed(route, WithdrawAll(old(yards.tables), route, SpawnLegs(SpawnedOrders(schedule, t), t)))
      ensures yards.tables ==
        var all := old(trains) + spawned;
        StoreAll(WithdrawAll(old(yards.tables), route, SpawnLegs(SpawnedOrders(schedule, t), t)), route, RetiredLegs(Positions(all), |all|))
    {
      AdvanceTrains(t);
      var newOrders := SpawnedOrders(schedule, t);
      SpawnedOrdersFit(schedule, t, route);
      spawned := SpawnAndRetire(newOrders, t);
    }

    /** The second and last loops of update, once the running trains stand
        where advance_to_time(t) puts them. */
    method SpawnAndRetire(newOrders: seq<Order>, t: Time) returns (ghost spawned: seq<Train>)
      requires RouteServed(route, yards.tables)
      requires Distinct(trains) && AllFit(trains, route) && AllAdvanced(trains, t)
      requires forall k :: 0 <= k < |newOrders| ==> CanAdvance(newOrders[k], t) && Fits(newOrders[k], route)
      modifies this, yards
      ensures Distinct(trains) && AllFit(trains, route) && forall k :: 0 <= k < |trains| ==> !trains[k].IsComplete()
      ensures |yards.tables| == old(|yards.tables|)
      ensures old(yards.Valid()) ==> yards.Valid()
      ensures OrdersOf(spawned) == newOrders
      ensures forall k :: 0 <= k < |spawned| ==> spawned[k].system == route.name && fresh(spawned[k])
      ensures forall k :: 0 <= k < |trains| ==> trains[k] in old(trains) || trains[k] in spawned
      ensures AllAdvanced(old(trains) + spawned, t) && AllAdvanced(trains, t)
      ensures var all := old(trains) + spawned; trains == Survivors(all, Positions(all), |all|)
      ensures var all := old(trains) + spawned; LegsOnRoute(route, SpawnLegs(newOrders, t)) && LegsOnRoute(route, RetiredLegs(Positions(all), |all|))
      ensures RouteServed(route, WithdrawAll(old(yards.tables), route, SpawnLegs(newOrders, t)))
      ensures yards.tables ==
        var all := old(trains) + spawned;
        StoreAll(WithdrawAll(old(yards.tables), route, SpawnLegs(newOrders, t)), route, RetiredLegs(Positions(all), |all|))
    {
      ghost var before := trains;
      ghost var tables0 := yards.tables;
      spawned := SpawnTrains(newOrders, t);
      ghost var all := trains;
      AllAdvancedOnRoute(before, spawned, t, route);
      ghost var tables1 := yards.tables;
      ghost var ps := Positions(all);
      RetireTrains(t);
      assert Positions(all) == ps;
      SurvivorsRunningDistinct(all, route);
      SurvivorsAdvanced(all, t);
      UpdatedYardsValid(tables0, route, SpawnLegs(newOrders, t), RetiredLegs(ps, |all|));
    }

    /** The first loop of update: every running train advances to `t`. */
    method AdvanceTrains(t: Time)
      requires Valid() && AllCanAdvance(trains, t)
      modifies trains
      ensures AllAdvanced(trains, t)
    {
      for i := 0 to |trains|
        invariant forall k :: 0 <= k < i ==> Position(trains[k].currentLeg, trains[k].legFrac) == Advanced(trains[k].order, t)
      {
        trains[i].AdvanceToTime(t);
      }
    }

    /** One iteration of the second loop of update: a new train for `order`,
        advanced to `t`, appended, and withdrawn from its station's yard (the
        yards having seen the withdrawals at `legs` since `tables0`). */
    method SpawnTrain(order: Order, t: Time, ghost tables0: seq<Counts>, ghost legs: seq<int>) returns (train: Train)
      requires RouteServed(route, tables0) && LegsOnRoute(route, legs)
      requires yards.tables == WithdrawAll(tables0, route, legs)
      requires CanAdvance(order, t) && Fits(order, route)
      modifies this, yards
      ensures fresh(train) && train.order == order && train.system == route.name
      ensures Position(train.currentLeg, train.legFrac) == Advanced(order, t)
      ensures -|route.stations| <= train.currentLeg < |route.stations|
      ensures trains == old(trains) + [train]
      ensures LegsOnRoute(route, legs + [train.currentLeg])
      ensures yards.tables == WithdrawAll(tables0, route, legs + [train.currentLeg])
    {
      AdvancedOnRoute(order, t, |route.stations|);
      WithdrawAllSnoc(tables0, route, legs, Advanced(order, t).leg);
      train := new Train(order, route.name);
      train.AdvanceToTime(t);
      trains := trains + [train];
      yards.WithdrawTrainAt(StationAt(route, train.currentLeg), route.name);
    }

    /** One iteration of the second loop of update: spawn the train for
        order `i`, keeping the loop's invariant. */
    /** The state after spawning the first `i` of `newOrders` onto the
        trains `before`: the new trains are appended in order, on the route,
        positioned at `t`, and their yards withdrawn from. */
    ghost predicate Spawning(newOrders: seq<Order>, i: nat, t: Time, before: seq<Train>,
                             spawned: seq<Train>, tables0: seq<Counts>)
      requires forall k :: 0 <= k < |newOrders| ==> CanAdvance(newOrders[k], t)
      requires RouteServed(route, tables0)
      reads this, yards, spawned
    {
      && i <= |newOrders|
      && trains == before + spawned && |spawned| == i
      && Distinct(trains) && AllFit(trains, route)
      && OrdersOf(spawned) == newOrders[..i] && (forall k :: 0 <= k < i ==> spawned[k].system == route.name)
      && AllAdvanced(spawned, t) && LegsOnRoute(route, SpawnLegs(newOrders[..i], t))
      && yards.tables == WithdrawAll(tables0, route, SpawnLegs(newOrders[..i], t))
    }

    method SpawnNext(newOrders: seq<Order>, i: nat, t: Time, ghost before: seq<Train>,
                     ghost spawned: seq<Train>, ghost tables0: seq<Counts>) returns (ghost spawned': seq<Train>)
      requires i < |newOrders| && RouteServed(route, tables0)
      requires forall k :: 0 <= k < |newOrders| ==> CanAdvance(newOrders[k], t) && Fits(newOrders[k], route)
      requires Spawning(newOrders, i, t, before, spawned, tables0)
      modifies this, yards
      ensures Spawning(newOrders, i + 1, t, before, spawned', tables0)
      ensures |spawned'| == i + 1 && spawned' == spawned + [spawned'[i]] && fresh(spawned'[i])
    {
      ghost var legs := SpawnLegs(newOrders[..i], t);
      var train := SpawnTrain(newOrders[i], t, tables0, legs);
      SpawningStep(newOrders, i, t, before, spawned, tables0, train);
      spawned' := spawned + [train];
    }

    /** Appending a train spawned on the next order, positioned at `t`, with
        its yard withdrawn from, extends the spawn loop's state by one. */
    lemma SpawningStep(newOrders: seq<Order>, i: nat, t: Time, before: seq<Train>,
                       spawned: seq<Train>, tables0: seq<Counts>, train: Train)
      requires i < |newOrders| && RouteServed(route, tables0)
      requires forall k :: 0 <= k < |newOrders| ==> CanAdvance(newOrders[k], t) && Fits(newOrders[k], route)
      requires |spawned| == i && Distinct(before + spawned) && AllFit(before + spawned, route)
      requires OrdersOf(spawned) == newOrders[..i] && (forall k :: 0 <= k < i ==> spawned[k].system == route.name)
      requires AllAdvanced(spawned, t) && LegsOnRoute(route, SpawnLegs(newOrders[..i], t))
      requires train !in before + spawned && train.order == newOrders[i] && train.system == route.name
      requires Position(train.currentLeg, train.legFrac) == Advanced(newOrders[i], t)
      requires trains == (before + spawned) + [train] && -|route.stations| <= train.currentLeg < |route.stations|
      requires yards.tables == WithdrawAll(tables0, route, SpawnLegs(newOrders[..i], t) + [train.currentLeg])
      ensures Spawning(newOrders, i + 1, t, before, spawned + [train], tables0)
    {
      SpawnLegsSnoc(newOrders, t, i);
      SpawnLegsOnRoute(newOrders[..i + 1], t, route);
      RunningSnoc(before, spawned, train, route);
      SpawnedSnoc(newOrders, i, spawned, train, t, route.name);
    }

    /** The second loop of update, over the orders that start at `t`. */
    method SpawnTrains(newOrders: seq<Order>, t: Time) returns (ghost spawned: seq<Train>)
      requires RouteServed(route, yards.tables)
      requires Distinct(trains) && AllFit(trains, route)
      requires forall k :: 0 <= k < |newOrders| ==> CanAdvance(newOrders[k], t) && Fits(newOrders[k], route)
      modifies this, yards
      ensures trains == old(trains) + spawned && |spawned| == |newOrders|
      ensures Distinct(trains) && AllFit(trains, route)
      ensures OrdersOf(spawned) == newOrders && forall k :: 0 <= k < |spawned| ==> spawned[k].system == route.name
      ensures forall k :: 0 <= k < |spawned| ==> fresh(spawned[k])
      ensures AllAdvanced(spawned, t) && LegsOnRoute(route, SpawnLegs(newOrders, t))
      ensures |yards.tables| == old(|yards.tables|)
      ensures yards.tables == WithdrawAll(old(yards.tables), route, SpawnLegs(newOrders, t))
    {
      ghost var tables0 := yards.tables;
      spawned := [];
      for i := 0 to |newOrders|
        invariant Spawning(newOrders, i, t, old(trains), spawned, tables0)
        invariant |spawned| == i && forall k :: 0 <= k < i ==> fresh(spawned[k])
      {
        spawned := SpawnNext(newOrders, i, t, old(trains), spawned, tables0);
      }
      PrefixAll(newOrders);
    }

    /** One iteration of the last loop of update: a complete train is
        stored in its station's yard, any other is kept in `cleaned`.
        `ps` holds the trains' positions. */
    method RetireNext(i: nat, ghost ps: seq<Position>, cleaned: seq<Train>, ghost tables1: seq<Counts>)
      returns (cleaned': seq<Train>)
      requires i < |trains| == |ps| && ps[i] == Position(trains[i].currentLeg, trains[i].legFrac)
      requires RouteServed(route, tables1) && OnRoute(ps, route)
      requires cleaned == Survivors(trains, ps, i)
      requires LegsOnRoute(route, RetiredLegs(ps, i))
      requires yards.tables == StoreAll(tables1, route, RetiredLegs(ps, i))
      modifies yards
      ensures cleaned' == Survivors(trains, ps, i + 1)
      ensures LegsOnRoute(route, RetiredLegs(ps, i + 1))
      ensures yards.tables == StoreAll(tables1, route, RetiredLegs(ps, i + 1))
      ensures |yards.tables| == |tables1|
    {
      var train := trains[i];
      RetireStep(tables1, route, ps, i);
      if train.IsComplete() {
        yards.StoreTrainAt(StationAt(route, train.currentLeg), route.name);
        cleaned' := cleaned;
      } else {
        cleaned' := cleaned + [train];
      }
    }

    /** The last loop of update: complete trains are stored in their
        station's yard and dropped; the others keep running, in order. */
    method RetireTrains(t: Time)
      requires RouteServed(route, yards.tables)
      requires OnRoute(Positions(trains), route)
      modifies this, yards
      ensures trains == Survivors(old(trains), old(Positions(trains)), old(|trains|))
      ensures LegsOnRoute(route, RetiredLegs(old(Positions(trains)), old(|trains|)))
      ensures |yards.tables| == old(|yards.tables|)
      ensures yards.tables == StoreAll(old(yards.tables), route, RetiredLegs(old(Positions(trains)), old(|trains|)))
    {
      ghost var tables1 := yards.tables;
      ghost var ps := Positions(trains);
      var cleaned: seq<Train> := [];
      for i := 0 to |trains|
        invariant trains == old(trains) && ps == Positions(trains)
        invariant cleaned == Survivors(trains, ps, i)
        invariant |yards.tables| == |tables1|
        invariant LegsOnRoute(route, RetiredLegs(ps, i))
        invariant yards.tables == StoreAll(tables1, route, RetiredLegs(ps, i))
      {
        cleaned := RetireNext(i, ps, cleaned, tables1);
      }
      trains := cleaned;
    }
  }
}
