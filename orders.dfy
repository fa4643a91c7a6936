/** One train's timetable row (class Order of models.py). */
module Orders {
  import opened Wrappers
  import opened Times

  /** A train id, its direction, and the time it serves each stop of the
      route in the direction's own stop order (None: not served). */
  datatype Order = Order(id: string, eastbound: bool, times: seq<Option<Time>>)

  /** get_absolute_idx: the raw index into the route's station list.
      Westbound stops count from the end, as a negative Python index. */
  function AbsoluteIdx(o: Order, i: int): int {
    if o.eastbound then i else -1 - i
  }

  /** Python list indexing: a negative index counts from the end. */
  function Resolve(idx: int, len: nat): (r: nat)
    requires -(len as int) <= idx < len
    ensures r < len
    ensures idx >= 0 ==> r == idx
    ensures idx < 0 ==> r + (-idx) == len
  {
    if idx < 0 then len + idx else idx
  }

  /** Against a route of `len` stations, stop `i` of an eastbound order is
      station `i` and stop `i` of a westbound order is station `len - 1 - i`. */
  lemma AbsoluteIdxResolves(o: Order, i: int, len: nat)
    requires 0 <= i < len
    ensures -(len as int) <= AbsoluteIdx(o, i) < len
    ensures Resolve(AbsoluteIdx(o, i), len) == if o.eastbound then i else len - 1 - i
  {
  }

  /** The first served stop at or after index `from`. */
  function FirstServedFrom(times: seq<Option<Time>>, from: nat): (r: Option<nat>)
    requires from <= |times|
    ensures r.Some? ==> from <= r.value < |times| && times[r.value].Some?
    ensures r.Some? ==> forall j :: from <= j < r.value ==> times[j].None?
    ensures r.None? ==> forall j :: from <= j < |times| ==> times[j].None?
    decreases |times| - from
  {
    if from == |times| then None
    else if times[from].Some? then Some(from)
    else FirstServedFrom(times, from + 1)
  }

  /** The index of the last served stop, if any stop is served. */
  function LastServed(times: seq<Option<Time>>): (r: Option<nat>)
    ensures r.Some? ==> r.value < |times| && times[r.value].Some?
    ensures r.Some? ==> forall j :: r.value < j < |times| ==> times[j].None?
    ensures r.None? ==> forall j :: 0 <= j < |times| ==> times[j].None?
  {
    if |times| == 0 then None
    else if times[|times| - 1].Some? then Some(|times| - 1)
    else LastServed(times[..|times| - 1])
  }

  /** A spawn entry of the schedule: a train id and the time it enters. */
  datatype Spawn = Spawn(id: string, time: Time)

  /** get_spawn_place_and_time: the id with the first served stop's time;
      ValueError when the order serves no stop. */
  function SpawnPlaceAndTime(o: Order): (r: Result<Spawn>)
    ensures r.Err? <==> forall j :: 0 <= j < |o.times| ==> o.times[j].None?
    ensures r.Err? ==> r.error == ValueError
    ensures r.Ok? ==> r.value.id == o.id && exists i :: 0 <= i < |o.times| && o.times[i] == Some(r.value.time) && forall j :: 0 <= j < i ==> o.times[j].None?
  {
    match FirstServedFrom(o.times, 0)
    case None => Err(ValueError)
    case Some(i) => Ok(Spawn(o.id, o.times[i].value))
  }
}
