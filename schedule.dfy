/** A timetable: the orders of one or more csv files (class Schedule of models.py). */
module Schedules {
  import opened Wrappers
  import opened Times
  import opened Orders

  datatype Schedule = Schedule(orders: seq<Order>)

  /** __add__: the orders of `a` followed by those of `b`; duplicate ids are
      not rejected. */
  function Concat(a: Schedule, b: Schedule): Schedule {
    Schedule(a.orders + b.orders)
  }

  /** route_map: the dict comprehension over the orders, so a later order
      overwrites an earlier one with the same id. */
  function RouteMap(orders: seq<Order>): (m: map<string, Order>)
    ensures forall id :: id in m <==> exists i :: 0 <= i < |orders| && orders[i].id == id
  {
    if |orders| == 0 then map[]
    else
      var last := orders[|orders| - 1];
      var m := RouteMap(orders[..|orders| - 1])[last.id := last];
      assert forall i :: 0 <= i < |orders| - 1 ==> orders[..|orders| - 1][i] == orders[i];
      m
  }

  /** No two orders share an id (the source does not check this). */
  predicate UniqueIds(s: Schedule) {
    forall i, j :: 0 <= i < j < |s.orders| ==> s.orders[i].id != s.orders[j].id
  }

  /** get_order: the order with that id; KeyError when there is none. */
  function GetOrder(s: Schedule, id: string): Result<Order> {
    var m := RouteMap(s.orders);
    if id in m then Ok(m[id]) else Err(KeyError)
  }

  /** Order `i` is the last one with that id. */
  predicate LastWithId(orders: seq<Order>, id: string, i: nat) {
    i < |orders| && orders[i].id == id && forall j :: i < j < |orders| ==> orders[j].id != id
  }

  /** The entry of route_map for an id is the last order with that id. */
  lemma {:induction false} RouteMapLast(orders: seq<Order>, id: string) returns (i: nat)
    requires id in RouteMap(orders)
    ensures LastWithId(orders, id, i) && orders[i] == RouteMap(orders)[id]
    decreases |orders|
  {
    var n := |orders| - 1;
    var init := orders[..n];
    if orders[n].id == id {
      i := n;
    } else {
      assert id in RouteMap(init) && RouteMap(orders)[id] == RouteMap(init)[id];
      i := RouteMapLast(init, id);
      assert orders[i] == init[i];
    }
  }

  /** get_order finds an order exactly when one has the id, and then it is
      the last order with that id. */
  lemma GetOrderIsLast(s: Schedule, id: string)
    ensures GetOrder(s, id).Ok? <==> exists i :: 0 <= i < |s.orders| && s.orders[i].id == id
    ensures GetOrder(s, id).Err? ==> GetOrder(s, id).error == KeyError
    ensures GetOrder(s, id).Ok? ==>
      exists i: nat :: LastWithId(s.orders, id, i) && s.orders[i] == GetOrder(s, id).value
  {
    if id in RouteMap(s.orders) {
      var i := RouteMapLast(s.orders, id);
    }
  }

  /** Looking an id up in `a + b` finds it in `b` when `b` has it, and in `a`
      otherwise. */
  lemma {:induction false} GetOrderConcat(a: Schedule, b: Schedule, id: string)
    ensures GetOrder(Concat(a, b), id) == if GetOrder(b, id).Ok? then GetOrder(b, id) else GetOrder(a, id)
  {
    RouteMapConcat(a.orders, b.orders);
  }

  lemma {:induction false} RouteMapConcat(a: seq<Order>, b: seq<Order>)
    ensures RouteMap(a + b) == RouteMap(a) + RouteMap(b)
    decreases |b|
  {
    if |b| > 0 {
      var b' := b[..|b| - 1];
      assert (a + b)[..|a + b| - 1] == a + b';
      RouteMapConcat(a, b');
    } else {
      assert a + b == a;
    }
  }

  // -----------------------------------------------------------------------
  // Spawn order

  /** The (id, first stop) pairs of the orders, in schedule order; ValueError
      as soon as one order serves no stop. */
  function RawSpawns(orders: seq<Order>): (r: Result<seq<Spawn>>)
    ensures r.Err? <==> exists i :: 0 <= i < |orders| && SpawnPlaceAndTime(orders[i]).Err?
    ensures r.Ok? ==> |r.value| == |orders| && forall i :: 0 <= i < |orders| ==> SpawnPlaceAndTime(orders[i]) == Ok(r.value[i])
  {
    if |orders| == 0 then Ok([])
    else
      var first := SpawnPlaceAndTime(orders[0]);
      var rest := RawSpawns(orders[1..]);
      assert forall i :: 1 <= i < |orders| ==> orders[1..][i - 1] == orders[i];
      if first.Err? then Err(first.error)
      else if rest.Err? then Err(rest.error)
      else Ok([first.value] + rest.value)
  }

  /** No later entry has an earlier time than an earlier one. */
  predicate SortedByTime(s: seq<Spawn>) {
    forall i, j :: 0 <= i < j < |s| ==> !Less(s[j].time, s[i].time)
  }

  /** The entries whose time equals `t`, in order. */
  function AtTime(s: seq<Spawn>, t: Time): seq<Spawn> {
    if |s| == 0 then []
    else (if s[0].time == t then [s[0]] else []) + AtTime(s[1..], t)
  }

  /** Insert `x` before the first entry that is not earlier than it. */
  function Insert(x: Spawn, s: seq<Spawn>): (r: seq<Spawn>)
    ensures multiset(r) == multiset(s) + multiset{x}
  {
    if |s| == 0 then [x]
    else if Less(s[0].time, x.time) then
      assert s == [s[0]] + s[1..];
      [s[0]] + Insert(x, s[1..])
    else [x] + s
  }

  /** Inserting into a sorted sequence keeps it sorted. */
  lemma {:induction false} InsertSorted(x: Spawn, s: seq<Spawn>)
    requires SortedByTime(s)
    ensures SortedByTime(Insert(x, s))
    decreases |s|
  {
    if |s| == 0 {
    } else if Less(s[0].time, x.time) {
      var tail := Insert(x, s[1..]);
      var r := [s[0]] + tail;
      assert r == Insert(x, s);
      InsertSorted(x, s[1..]);
      forall i, j | 0 <= i < j < |r| ensures !Less(r[j].time, r[i].time) {
        if i == 0 {
          assert r[j] == tail[j - 1];
          assert r[j] in multiset(s[1..]) + multiset{x};
          if r[j] == x {
            Trichotomy(s[0].time, x.time);
          } else {
            assert r[j] in s[1..];
            var k :| 0 <= k < |s[1..]| && s[1..][k] == r[j];
            assert s[k + 1] == r[j];
          }
        } else {
          assert r[i] == tail[i - 1] && r[j] == tail[j - 1];
        }
      }
    } else {
      var r := [x] + s;
      forall i, j | 0 <= i < j < |r| ensures !Less(r[j].time, r[i].time) {
        if i == 0 && j > 1 {
          NotLessTransitive(x.time, s[0].time, r[j].time);
        } else if i > 0 {
          assert r[i] == s[i - 1] && r[j] == s[j - 1];
        }
      }
    }
  }

  lemma NotLessTransitive(a: Time, b: Time, c: Time)
    requires !Less(b, a) && !Less(c, b)
    ensures !Less(c, a)
  {
  }

  /** `sorted(raw, key=time)`: a stable insertion sort.  An entry is inserted
      in front of the entries not earlier than it, so of two equal times the
      one first in the input stays first. */
  function SortByTime(s: seq<Spawn>): (r: seq<Spawn>)
    ensures multiset(r) == multiset(s)
    ensures SortedByTime(r)
  {
    if |s| == 0 then []
    else
      assert s == [s[0]] + s[1..];
      var rest := SortByTime(s[1..]);
      InsertSorted(s[0], rest);
      Insert(s[0], rest)
  }

  /** get_spawn_order. */
  function SpawnOrder(s: Schedule): Result<seq<Spawn>> {
    match RawSpawns(s.orders)
    case Err(e) => Err(e)
    case Ok(raw) => Ok(SortByTime(raw))
  }

  lemma {:induction false} InsertAtTime(x: Spawn, s: seq<Spawn>, t: Time)
    ensures AtTime(Insert(x, s), t) == if x.time == t then [x] + AtTime(s, t) else AtTime(s, t)
    decreases |s|
  {
    if |s| == 0 {
    } else if Less(s[0].time, x.time) {
      InsertAtTime(x, s[1..], t);
      var r := [s[0]] + Insert(x, s[1..]);
      assert r[1..] == Insert(x, s[1..]);
      if x.time == t {
        assert s[0].time != t;
      }
    } else {
      var r := [x] + s;
      assert r[1..] == s;
    }
  }

  /** The sort is stable: the entries of any one time keep their input order. */
  lemma {:induction false} SortIsStable(s: seq<Spawn>, t: Time)
    ensures AtTime(SortByTime(s), t) == AtTime(s, t)
    decreases |s|
  {
    if |s| > 0 {
      SortIsStable(s[1..], t);
      InsertAtTime(s[0], SortByTime(s[1..]), t);
    }
  }

  /** get_spawn_order is a stable sorted permutation of the per-order pairs,
      and fails exactly when some order serves no stop. */
  lemma SpawnOrderSpec(s: Schedule)
    ensures SpawnOrder(s).Err? <==> exists i :: 0 <= i < |s.orders| && SpawnPlaceAndTime(s.orders[i]).Err?
    ensures SpawnOrder(s).Ok? ==>
      var raw := RawSpawns(s.orders).value;
      && SortedByTime(SpawnOrder(s).value)
      && multiset(SpawnOrder(s).value) == multiset(raw)
      && forall t :: AtTime(SpawnOrder(s).value, t) == AtTime(raw, t)
  {
    if SpawnOrder(s).Ok? {
      var raw := RawSpawns(s.orders).value;
      forall t ensures AtTime(SpawnOrder(s).value, t) == AtTime(raw, t) {
        SortIsStable(raw, t);
      }
    }
  }

  // -----------------------------------------------------------------------
  // Time of the last stop

  /** Time `r` is at least every served stop of every order. */
  predicate AtLeastEveryStop(orders: seq<Order>, r: Time) {
    forall i, j :: 0 <= i < |orders| && 0 <= j < |orders[i].times| && orders[i].times[j].Some? ==>
      !Greater(orders[i].times[j].value, r)
  }

  /** get_time_of_last_stop: fold `max` over every served stop, from 00:00. */
  method TimeOfLastStop(s: Schedule) returns (r: Time)
    ensures !Greater(Midnight, r)
    ensures AtLeastEveryStop(s.orders, r)
    ensures r == Midnight || exists i, j :: 0 <= i < |s.orders| && 0 <= j < |s.orders[i].times| && s.orders[i].times[j] == Some(r)
  {
    r := Midnight;
    for i := 0 to |s.orders|
      invariant !Greater(Midnight, r)
      invariant AtLeastEveryStop(s.orders[..i], r)
      invariant r == Midnight || exists i', j :: 0 <= i' < i && 0 <= j < |s.orders[i'].times| && s.orders[i'].times[j] == Some(r)
    {
      var times := s.orders[i].times;
      for j := 0 to |times|
        invariant !Greater(Midnight, r)
        invariant AtLeastEveryStop(s.orders[..i], r)
        invariant forall j' :: 0 <= j' < j && times[j'].Some? ==> !Greater(times[j'].value, r)
        invariant r == Midnight || (exists i', j' :: 0 <= i' < i && 0 <= j' < |s.orders[i'].times| && s.orders[i'].times[j'] == Some(r))
                                || exists j' :: 0 <= j' < j && times[j'] == Some(r)
      {
        if times[j].Some? {
          // max(max_time, time) keeps max_time unless time > max_time
          if Greater(times[j].value, r) {
            ghost var old_r := r;
            r := times[j].value;
            forall j' | 0 <= j' < j && times[j'].Some? ensures !Greater(times[j'].value, r) {
              NotGreaterTransitive(times[j'].value, old_r, r);
            }
            forall i', j' | 0 <= i' < i && 0 <= j' < |s.orders[..i][i'].times| && s.orders[..i][i'].times[j'].Some?
              ensures !Greater(s.orders[..i][i'].times[j'].value, r)
            {
              NotGreaterTransitive(s.orders[..i][i'].times[j'].value, old_r, r);
            }
            NotGreaterTransitive(Midnight, old_r, r);
          }
        }
      }
      assert s.orders[..i + 1] == s.orders[..i] + [s.orders[i]];
    }
    assert s.orders[..|s.orders|] == s.orders;
  }

  lemma NotGreaterTransitive(a: Time, b: Time, c: Time)
    requires !Greater(a, b) && Greater(c, b)
    ensures !Greater(a, c)
  {
  }
}
