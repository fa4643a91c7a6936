/** The simulation of every route at once (class GlobalSimulation of ui.py),
    without its canvas, clock, summaries and timers. */
module Globals {
  import opened Wrappers
  import opened Times
  import opened Orders
  import opened Schedules
  import opened Storage
  import opened Trains
  import opened Simulations

  /** What update asks the UI loop to schedule next: another update, the
      final frame, or nothing while paused. */
  datatype Next = Tick | Finalize | Idle

  // -----------------------------------------------------------------------
  // Python's min and max over a list of times

  /** min: the first element no later element is strictly earlier than. */
  function Earliest(ts: seq<Time>): Time
    requires |ts| > 0
  {
    if |ts| == 1 then ts[0]
    else
      var m := Earliest(ts[..|ts| - 1]);
      if Less(ts[|ts| - 1], m) then ts[|ts| - 1] else m
  }

  /** min returns one of the times, and none is strictly earlier. */
  lemma {:induction false} EarliestIsMin(ts: seq<Time>)
    requires |ts| > 0
    ensures Earliest(ts) in ts
    ensures forall k :: 0 <= k < |ts| ==> !Less(ts[k], Earliest(ts))
  {
    if |ts| > 1 {
      var init := ts[..|ts| - 1];
      EarliestIsMin(init);
      var m, x := Earliest(init), ts[|ts| - 1];
      forall k | 0 <= k < |ts| ensures !Less(ts[k], Earliest(ts)) {
        if k < |ts| - 1 {
          assert ts[k] == init[k];
          if Less(x, m) && Less(ts[k], x) {
            LessTransitive(ts[k], x, m);
          }
        }
      }
    }
  }

  /** max: the first element no later element is strictly later than. */
  function Latest(ts: seq<Time>): Time
    requires |ts| > 0
  {
    if |ts| == 1 then ts[0]
    else
      var m := Latest(ts[..|ts| - 1]);
      if Greater(ts[|ts| - 1], m) then ts[|ts| - 1] else m
  }

  /** max returns one of the times, and none is strictly later. */
  lemma {:induction false} LatestIsMax(ts: seq<Time>)
    requires |ts| > 0
    ensures Latest(ts) in ts
    ensures forall k :: 0 <= k < |ts| ==> !Greater(ts[k], Latest(ts))
  {
    if |ts| > 1 {
      var init := ts[..|ts| - 1];
      LatestIsMax(init);
      var m, x := Latest(init), ts[|ts| - 1];
      forall k | 0 <= k < |ts| ensures !Greater(ts[k], Latest(ts)) {
        if k < |ts| - 1 {
          assert ts[k] == init[k];
          if Greater(x, m) && Greater(ts[k], x) {
            GreaterIsConverse(ts[k], x);
            GreaterIsConverse(x, m);
            GreaterIsConverse(ts[k], m);
            LessTransitive(m, x, ts[k]);
          }
        }
      }
    }
  }

  /** `!(a > b)` and `!(b > c)` give `!(a > c)`. */
  lemma NotLaterTransitive(a: Time, b: Time, c: Time)
    requires !Greater(a, b) && !Greater(b, c)
    ensures !Greater(a, c)
  {
  }

  // -----------------------------------------------------------------------
  // The start time

  /** The first spawn time of every child with a non-empty spawn order, in
      order. */
  function FirstSpawns(children: seq<Simulation>): (r: seq<Time>)
  {
    if |children| == 0 then []
    else
      var c := children[|children| - 1];
      FirstSpawns(children[..|children| - 1]) + (if |c.spawnOrder| > 0 then [c.spawnOrder[0].time] else [])
  }

  /** A time is a first spawn time exactly when some child's spawn order
      starts with it. */
  lemma {:induction false} FirstSpawnsMembers(children: seq<Simulation>, x: Time)
    ensures x in FirstSpawns(children) <==>
      exists i :: 0 <= i < |children| && |children[i].spawnOrder| > 0 && children[i].spawnOrder[0].time == x
  {
    if |children| > 0 {
      var init := children[..|children| - 1];
      FirstSpawnsMembers(init, x);
      if x in FirstSpawns(init) {
        var i :| 0 <= i < |init| && |init[i].spawnOrder| > 0 && init[i].spawnOrder[0].time == x;
        assert children[i] == init[i];
      }
      if exists i :: 0 <= i < |children| && |children[i].spawnOrder| > 0 && children[i].spawnOrder[0].time == x {
        var i :| 0 <= i < |children| && |children[i].spawnOrder| > 0 && children[i].spawnOrder[0].time == x;
        if i < |init| {
          assert init[i] == children[i];
        }
      }
    }
  }

  /** The start time: min over the first spawn times; ValueError (from min
      of an empty list) when no child spawns anything. */
  function StartTime(children: seq<Simulation>): Result<Time> {
    var firsts := FirstSpawns(children);
    if |firsts| == 0 then Err(ValueError) else Ok(Earliest(firsts))
  }

  /** The start time fails exactly when no child spawns; otherwise it is one
      child's first spawn time and no child's first spawn is earlier. */
  lemma StartTimeSpec(children: seq<Simulation>)
    ensures StartTime(children).Err? <==> forall i :: 0 <= i < |children| ==> |children[i].spawnOrder| == 0
    ensures StartTime(children).Err? ==> StartTime(children).error == ValueError
    ensures StartTime(children).Ok? ==>
      exists i :: 0 <= i < |children| && |children[i].spawnOrder| > 0 && children[i].spawnOrder[0].time == StartTime(children).value
    ensures StartTime(children).Ok? ==>
      forall i :: 0 <= i < |children| && |children[i].spawnOrder| > 0 ==> !Less(children[i].spawnOrder[0].time, StartTime(children).value)
  {
    var firsts := FirstSpawns(children);
    if |firsts| == 0 {
      forall i | 0 <= i < |children| ensures |children[i].spawnOrder| == 0 {
        if |children[i].spawnOrder| > 0 {
          FirstSpawnsMembers(children, children[i].spawnOrder[0].time);
        }
      }
    } else {
      EarliestIsMin(firsts);
      var m := Earliest(firsts);
      FirstSpawnsMembers(children, m);
      forall i | 0 <= i < |children| && |children[i].spawnOrder| > 0
        ensures !Less(children[i].spawnOrder[0].time, m)
      {
        var x := children[i].spawnOrder[0].time;
        FirstSpawnsMembers(children, x);
        var k :| 0 <= k < |firsts| && firsts[k] == x;
      }
    }
  }

  /** With no children there is no first spawn, so no start time. */
  lemma StartTimeNeedsChildren(children: seq<Simulation>)
    requires StartTime(children).Ok?
    ensures |children| > 0
  {
  }

  /** Every stop of every child's schedule is no later than `end`. */
  predicate AfterEveryStop(children: seq<Simulation>, end: Time) {
    forall i :: 0 <= i < |children| ==> AtLeastEveryStop(children[i].schedule.orders, end)
  }

  /** Some child's schedule serves a stop at `end`. */
  predicate SomeStopAt(children: seq<Simulation>, end: Time) {
    exists i, o, j :: 0 <= i < |children| && 0 <= o < |children[i].schedule.orders| &&
      0 <= j < |children[i].schedule.orders[o].times| && children[i].schedule.orders[o].times[j] == Some(end)
  }

  /** get_time_of_last_stop of every child's schedule, in order. */
  method LastStops(children: seq<Simulation>) returns (lasts: seq<Time>)
    ensures |lasts| == |children|
    ensures forall i :: 0 <= i < |children| ==> AtLeastEveryStop(children[i].schedule.orders, lasts[i])
    ensures forall i :: 0 <= i < |children| ==> lasts[i] == Midnight || SomeStopAt(children, lasts[i])
    ensures forall i :: 0 <= i < |children| ==> !Greater(Midnight, lasts[i])
  {
    lasts := [];
    for i := 0 to |children|
      invariant |lasts| == i
      invariant forall j :: 0 <= j < i ==> AtLeastEveryStop(children[j].schedule.orders, lasts[j])
      invariant forall j :: 0 <= j < i ==> lasts[j] == Midnight || SomeStopAt(children, lasts[j])
      invariant forall j :: 0 <= j < i ==> !Greater(Midnight, lasts[j])
    {
      var last := TimeOfLastStop(children[i].schedule);
      assert last == Midnight || SomeStopAt(children, last) by {
        if last != Midnight {
          var o, j :| 0 <= o < |children[i].schedule.orders| && 0 <= j < |children[i].schedule.orders[o].times| &&
            children[i].schedule.orders[o].times[j] == Some(last);
        }
      }
      lasts := lasts + [last];
    }
  }

  /** The end time, max over the last stops: no stop of any child is later,
      it is not before midnight, and it is midnight or one of the stops. */
  lemma EndTimeBounds(children: seq<Simulation>, lasts: seq<Time>)
    requires |lasts| == |children| > 0
    requires forall i :: 0 <= i < |children| ==> AtLeastEveryStop(children[i].schedule.orders, lasts[i])
    requires forall i :: 0 <= i < |children| ==> lasts[i] == Midnight || SomeStopAt(children, lasts[i])
    requires forall i :: 0 <= i < |children| ==> !Greater(Midnight, lasts[i])
    ensures AfterEveryStop(children, Latest(lasts))
    ensures !Greater(Midnight, Latest(lasts))
    ensures Latest(lasts) == Midnight || SomeStopAt(children, Latest(lasts))
  {
    var end := Latest(lasts);
    LatestIsMax(lasts);
    NotLaterTransitive(Midnight, lasts[0], end);
    forall i | 0 <= i < |children| ensures AtLeastEveryStop(children[i].schedule.orders, end) {
      var orders := children[i].schedule.orders;
      forall o, j | 0 <= o < |orders| && 0 <= j < |orders[o].times| && orders[o].times[j].Some?
        ensures !Greater(orders[o].times[j].value, end)
      {
        NotLaterTransitive(orders[o].times[j].value, lasts[i], end);
      }
    }
  }

  /** The end time: max over get_time_of_last_stop of every child. */
  method EndTime(children: seq<Simulation>) returns (end: Time)
    requires |children| > 0
    ensures AfterEveryStop(children, end)
    ensures !Greater(Midnight, end)
    ensures end == Midnight || SomeStopAt(children, end)
  {
    var lasts := LastStops(children);
    EndTimeBounds(children, lasts);
    end := Latest(lasts);
  }

  // -----------------------------------------------------------------------
  // The global simulation

  /** Whether update(t) on `c` can run without an error: every running train
      and every train spawned at `t` can advance to `t`. */
  ghost predicate CanTick(c: Simulation, t: Time)
    reads c
  {
    && SpawnOrder(c.schedule).Ok?
    && AllCanAdvance(c.trains, t)
    && forall k :: 0 <= k < |SpawnedOrders(c.schedule, t)| ==> CanAdvance(SpawnedOrders(c.schedule, t)[k], t)
  }

  /** The running trains of `c`, as a set. */
  ghost function Members(c: Simulation): set<Train>
    reads c
  {
    set x | x in c.trains
  }

  /** Neither the simulation nor any of its running trains changed. */
  twostate predicate Untouched(c: Simulation)
    reads c, c.trains
  {
    unchanged(c) && forall k :: 0 <= k < |c.trains| ==> unchanged(c.trains[k])
  }

  /** No two of the simulations share a train. */
  ghost predicate Disjoint(children: seq<Simulation>)
    reads children
  {
    forall i, j :: 0 <= i < |children| && 0 <= j < |children| && i != j ==>
      Members(children[i]) !! Members(children[j])
  }

  /** A simulation none of whose state changed is still valid. */
  twostate lemma ValidFramed(c: Simulation)
    requires old(c.Valid()) && Untouched(c)
    ensures c.Valid()
  {
  }

  /** A child's update(t): one fresh train per order found for `t`; every
      running train stands where advance_to_time(t) puts it and was running
      before or was just spawned; the yards' tables are the old ones after
      the spawn withdrawals and the retirement stores; the child stays valid
      and the yards keep their number and their validity. */
  method TickChild(c: Simulation, t: Time) returns (ghost spawned: seq<Train>)
    requires c.Valid() && RouteServed(c.route, c.yards.tables) && CanTick(c, t)
    modifies c, c.trains, c.yards
    ensures c.Valid() && |c.yards.tables| == old(|c.yards.tables|)
    ensures old(c.yards.Valid()) ==> c.yards.Valid()
    ensures AllAdvanced(c.trains, t)
    ensures forall k :: 0 <= k < |spawned| ==> fresh(spawned[k])
    ensures forall x :: x in c.trains ==> x in old(c.trains) || x in spawned
    ensures OrdersOf(spawned) == SpawnedOrders(c.schedule, t)
    ensures var all := old(c.trains) + spawned;
      && LegsOnRoute(c.route, SpawnLegs(SpawnedOrders(c.schedule, t), t))
      && LegsOnRoute(c.route, RetiredLegs(Positions(all), |all|))
      && RouteServed(c.route, WithdrawAll(old(c.yards.tables), c.route, SpawnLegs(SpawnedOrders(c.schedule, t), t)))
      && c.yards.tables == StoreAll(WithdrawAll(old(c.yards.tables), c.route, SpawnLegs(SpawnedOrders(c.schedule, t), t)), c.route, RetiredLegs(Positions(all), |all|))
  {
    spawned := c.Update(t);
  }

  /** Every running train of every child. */
  ghost function AllTrains(children: seq<Simulation>): set<Train>
    reads children
  {
    set i, k | 0 <= i < |children| && 0 <= k < |children[i].trains| :: children[i].trains[k]
  }

  /** The children are distinct simulations sharing the yards, each one valid
      on a route the yards serve, and no two share a train. */
  ghost predicate Consistent(children: seq<Simulation>, yards: Yards)
    reads children, AllTrains(children), yards
  {
    && Shared(children, yards)
    && ChildrenValid(children)
    && AllServed(children, yards.tables)
    && Disjoint(children)
  }

  /** Every child's route is served by the yards. */
  predicate AllServed(children: seq<Simulation>, tables: seq<Counts>) {
    forall i :: 0 <= i < |children| ==> RouteServed(children[i].route, tables)
  }

  /** Distinct children sharing the yards: fixed at construction. */
  predicate Shared(children: seq<Simulation>, yards: Yards) {
    && (forall i, j :: 0 <= i < j < |children| ==> children[i] != children[j])
    && (forall i :: 0 <= i < |children| ==> children[i].yards == yards)
  }

  /** Every child is valid. */
  ghost predicate ChildrenValid(children: seq<Simulation>)
    reads children, AllTrains(children)
  {
    forall i :: 0 <= i < |children| ==> children[i].Valid()
  }

  class GlobalSimulation {
    const children: seq<Simulation>
    const yards: Yards
    const startTime: Time
    const endTime: Time
    var time: Time
    var paused: bool

    /** The children and their yards are consistent. */
    ghost predicate Valid()
      reads children, AllTrains(children), yards
    {
      Consistent(children, yards)
    }

    /** GlobalSimulation.__init__: the clock starts at the earliest first
        spawn and the end time is the latest last stop over the children. */
    constructor (children: seq<Simulation>, yards: Yards)
      requires StartTime(children).Ok? && Consistent(children, yards)
      ensures Valid() && !paused
      ensures this.children == children && this.yards == yards
      ensures startTime == StartTime(children).value && time == startTime
      ensures AfterEveryStop(children, endTime)
      ensures !Greater(Midnight, endTime)
      ensures endTime == Midnight || SomeStopAt(children, endTime)
    {
      StartTimeNeedsChildren(children);
      var end := EndTime(children);
      this.children := children;
      this.yards := yards;
      startTime := StartTime(children).value;
      endTime := end;
      time := StartTime(children).value;
      paused := false;
    }

    /** update: tick every child at the current time, advance the clock by a
        minute, then schedule another update while the clock has not passed
        the end time, or the final frame once it has; nothing while paused. */
    method Update() returns (next: Next)
      requires Valid()
      requires forall i :: 0 <= i < |children| ==> CanTick(children[i], time)
      modifies this, children, AllTrains(children), yards
      ensures Valid()
      ensures forall i :: 0 <= i < |children| ==> AllAdvanced(children[i].trains, old(time))
      ensures time == Add(old(time), 1) && paused == old(paused)
      ensures old(yards.Valid()) ==> yards.Valid()
      ensures paused <==> next == Idle
      ensures !paused ==> (next == Tick <==> LessEq(time, endTime))
    {
      TickAll();
      time := Add(time, 1);
      if !paused {
        if LessEq(time, endTime) {
          next := Tick;
        } else {
          next := Finalize;
        }
      } else {
        next := Idle;
      }
    }

    /** When only child `i` and its trains changed, child `i` stayed valid and
        kept only old or new trains, every child is still valid, still able to
        tick if it could, and no two children share a train. */
    twostate lemma ChildrenFramed(i: nat)
      requires old(Valid()) && i < |children| && unchanged(this)
      requires |yards.tables| == old(|yards.tables|) && children[i].Valid()
      requires forall x :: x in children[i].trains ==> x in old(children[i].trains) || fresh(x)
      requires forall j :: 0 <= j < |children| && j != i ==> Untouched(children[j])
      ensures Valid()
      ensures old(forall j :: i <= j < |children| ==> CanTick(children[j], time)) ==>
        forall j :: i < j < |children| ==> CanTick(children[j], time)
      ensures old(forall j :: 0 <= j < i ==> AllAdvanced(children[j].trains, time)) ==>
        forall j :: 0 <= j < i ==> AllAdvanced(children[j].trains, time)
    {
      var c := children[i];
      forall j | 0 <= j < |children| && j != i
        ensures Members(children[j]) == old(Members(children[j])) && Members(children[j]) !! Members(c)
      {
        var d := children[j];
        ValidFramed(d);
        forall x | x in d.trains ensures x !in c.trains {
          assert x in old(Members(d)) && x !in old(Members(c));
        }
      }
    }

    /** Every child's update at the current time, in order. */
    method TickAll()
      requires Valid()
      requires forall i :: 0 <= i < |children| ==> CanTick(children[i], time)
      modifies children, AllTrains(children), yards
      ensures Valid()
      ensures forall i :: 0 <= i < |children| ==> AllAdvanced(children[i].trains, time)
      ensures old(yards.Valid()) ==> yards.Valid()
    {
      for i := 0 to |children|
        invariant Valid()
        invariant forall j :: 0 <= j < i ==> AllAdvanced(children[j].trains, time)
        invariant forall j :: i <= j < |children| ==> CanTick(children[j], time)
        invariant old(yards.Valid()) ==> yards.Valid()
        invariant forall j :: i <= j < |children| ==> children[j].trains == old(children[j].trains)
      {
        UpdateChild(i);
      }
    }

    /** One child's update, which leaves every other child as it was. */
    method UpdateChild(i: nat)
      requires Valid() && i < |children|
      requires forall j :: i <= j < |children| ==> CanTick(children[j], time)
      requires forall j :: 0 <= j < i ==> AllAdvanced(children[j].trains, time)
      modifies children[i], children[i].trains, yards
      ensures Valid()
      ensures forall j :: 0 <= j <= i ==> AllAdvanced(children[j].trains, time)
      ensures forall j :: i < j < |children| ==> CanTick(children[j], time)
      ensures forall j :: 0 <= j < |children| && j != i ==> children[j].trains == old(children[j].trains)
      ensures old(yards.Valid()) ==> yards.Valid()
    {
      TickOnly(i);
      ChildrenFramed(i);
    }

    /** Child `i`'s update and what it leaves alone: no other child and none
        of their trains. */
    method TickOnly(i: nat)
      requires i < |children| && Shared(children, yards) && Disjoint(children)
      requires children[i].Valid() && RouteServed(children[i].route, yards.tables) && CanTick(children[i], time)
      modifies children[i], children[i].trains, yards
      ensures children[i].Valid() && |yards.tables| == old(|yards.tables|)
      ensures old(yards.Valid()) ==> yards.Valid()
      ensures AllAdvanced(children[i].trains, time)
      ensures forall x :: x in children[i].trains ==> x in old(children[i].trains) || fresh(x)
      ensures forall j :: 0 <= j < |children| && j != i ==> Untouched(children[j])
    {
      var c := children[i];
      ghost var mine := Members(c);
      assert forall j :: 0 <= j < |children| && j != i ==> Members(children[j]) !! mine;
      ghost var spawned := TickChild(c, time);
      forall j | 0 <= j < |children| && j != i
        ensures Untouched(children[j])
      {
        var d := children[j];
        forall k | 0 <= k < |d.trains| ensures unchanged(d.trains[k]) {
          assert d.trains[k] in old(Members(d));
        }
      }
    }

    /** Simulation.reset on every child: none has a running train left. */
    method ResetChildren()
      requires Valid()
      modifies children
      ensures ChildrenValid(children) && Disjoint(children)
      ensures forall i :: 0 <= i < |children| ==> children[i].trains == []
    {
      for i := 0 to |children|
        invariant forall j :: 0 <= j < i ==> children[j].Valid() && children[j].trains == []
        invariant forall j :: i <= j < |children| ==> unchanged(children[j])
      {
        children[i].Reset();
      }
    }

    /** reset: back to the start time, with no train running and every yard
        empty. */
    method Reset()
      requires Valid()
      modifies this, children, yards
      ensures Valid() && time == startTime && paused == old(paused)
      ensures forall i :: 0 <= i < |children| ==> children[i].trains == []
      ensures yards.tables == seq(old(|yards.tables|), _ => Empty)
    {
      time := startTime;
      ResetChildren();
      yards.ResetAll();
    }
  }
}
