/** A running train and its position along the route (class Train of models.py). */
module Trains {
  import opened Wrappers
  import opened Times
  import opened Orders

  /** A raw index into the route's station list (negative for westbound
      orders) and the fraction of the way to the next station. */
  datatype Position = Position(leg: int, frac: real)

  /** The scan of advance_to_time stops at a served stop that is later than
      `t` or equal to it. */
  predicate Reached(stop: Option<Time>, t: Time) {
    stop.Some? && (Greater(stop.value, t) || stop.value == t)
  }

  /** The first reached stop at or after index `from`. */
  function ScanFrom(times: seq<Option<Time>>, t: Time, from: nat): (r: Option<nat>)
    requires from <= |times|
    ensures r.Some? ==> from <= r.value < |times| && Reached(times[r.value], t)
    decreases |times| - from
  {
    if from == |times| then None
    else if Reached(times[from], t) then Some(from)
    else ScanFrom(times, t, from + 1)
  }

  /** The first reached stop is the one the scan finds. */
  lemma FirstReached(times: seq<Option<Time>>, t: Time, k: nat)
    requires k < |times| && Reached(times[k], t)
    requires forall j :: 0 <= j < k ==> !Reached(times[j], t)
    ensures ScanFrom(times, t, 0) == Some(k)
  {
    ScanFromSkips(times, t, 0);
  }

  /** The scan passes over no reached stop: every stop before the one it
      finds (or every stop, when it finds none) is not reached. */
  lemma {:induction false} ScanFromSkips(times: seq<Option<Time>>, t: Time, from: nat)
    requires from <= |times|
    ensures var r := ScanFrom(times, t, from);
      forall j :: from <= j < (if r.Some? then r.value else |times|) ==> !Reached(times[j], t)
    decreases |times| - from
  {
    if from < |times| && !Reached(times[from], t) {
      ScanFromSkips(times, t, from + 1);
    }
  }

  /** The leg from served stop `idx` to the next has a non-zero length in
      minutes, or there is no served next stop. */
  predicate SpanNonZero(times: seq<Option<Time>>, idx: nat)
    requires idx < |times| && times[idx].Some?
  {
    idx + 1 < |times| && times[idx + 1].Some? ==>
      AsMinutes(times[idx + 1].value) != AsMinutes(times[idx].value)
  }

  /** What advance_to_time(t) needs in order not to fail: a served stop; a
      reached stop that is not the first stop of the order when it is later
      than `t` (the train has spawned); a served stop just before such a
      stop; and a non-zero span on the leg it settles on. */
  predicate CanAdvance(o: Order, t: Time) {
    match ScanFrom(o.times, t, 0)
    case None => LastServed(o.times).Some?
    case Some(k) =>
      if o.times[k] == Some(t) then SpanNonZero(o.times, k)
      else k > 0 && o.times[k - 1].Some? && SpanNonZero(o.times, k - 1)
  }

  /** set_current_leg(idx, t): the raw index of stop `idx`, and the fraction
      of the leg to the next stop elapsed at `t` (1.0 when no next stop is
      served). */
  function LegPosition(o: Order, idx: nat, t: Time): Position
    requires idx < |o.times| && o.times[idx].Some? && SpanNonZero(o.times, idx)
  {
    var leg := AbsoluteIdx(o, idx);
    if idx + 1 >= |o.times| || o.times[idx + 1].None? then Position(leg, 1.0)
    else
      var start := AsMinutes(o.times[idx].value);
      var elapsed := AsMinutes(t) - start;
      var span := AsMinutes(o.times[idx + 1].value) - start;
      Position(leg, elapsed as real / span as real)
  }

  /** The position advance_to_time(t) settles on: the leg before the first
      later stop, the stop equal to `t`, or the last served stop when every
      stop is earlier. */
  function Advanced(o: Order, t: Time): Position
    requires CanAdvance(o, t)
  {
    LegPosition(o, SettledStop(o, t), t)
  }

  /** The stop index advance_to_time hands to set_current_leg. */
  function SettledStop(o: Order, t: Time): (i: nat)
    requires CanAdvance(o, t)
    ensures i < |o.times| && o.times[i].Some? && SpanNonZero(o.times, i)
  {
    match ScanFrom(o.times, t, 0)
    case None => LastServed(o.times).value
    case Some(k) => if o.times[k] == Some(t) then k else k - 1
  }

  class Train {
    const order: Order
    const system: string
    var currentLeg: int
    var legFrac: real

    constructor (order: Order, system: string)
      ensures this.order == order && this.system == system
      ensures currentLeg == 0 && legFrac == 0.0
    {
      this.order := order;
      this.system := system;
      currentLeg := 0;
      legFrac := 0.0;
    }

    /** advance_to_time: scan the stops for the first one not before `t`,
        remembering the last served stop in case there is none. */
    method AdvanceToTime(t: Time)
      requires CanAdvance(order, t)
      modifies this
      ensures Position(currentLeg, legFrac) == Advanced(order, t)
    {
      var times := order.times;
      var lastServed: Option<nat> := None;
      for idx := 0 to |times|
        invariant forall j :: 0 <= j < idx ==> !Reached(times[j], t)
        invariant lastServed == LastServed(times[..idx])
      {
        assert times[..idx + 1][..idx] == times[..idx];
        if times[idx].None? {
          continue;
        }
        lastServed := Some(idx);
        if Greater(times[idx].value, t) {
          FirstReached(times, t, idx);
          SetCurrentLeg(idx - 1, t);
          return;
        } else if times[idx].value == t {
          FirstReached(times, t, idx);
          SetCurrentLeg(idx, t);
          return;
        }
      }
      assert times[..|times|] == times;
      SetCurrentLeg(lastServed.value, t);
    }

    /** set_current_leg. */
    method SetCurrentLeg(idx: int, t: Time)
      requires 0 <= idx < |order.times| && order.times[idx].Some? && SpanNonZero(order.times, idx)
      modifies this
      ensures Position(currentLeg, legFrac) == LegPosition(order, idx, t)
    {
      currentLeg := AbsoluteIdx(order, idx);
      var start := order.times[idx].value;
      if idx + 1 >= |order.times| || order.times[idx + 1].None? {
        legFrac := 1.0;
        return;
      }
      var end := order.times[idx + 1].value;
      var elapsed := AsMinutes(t) - AsMinutes(start);
      var total := AsMinutes(end) - AsMinutes(start);
      legFrac := elapsed as real / total as real;
    }

    /** is_complete. */
    predicate IsComplete()
      reads this
    {
      legFrac == 1.0
    }

    /** is_between_stops. */
    predicate IsBetweenStops()
      reads this
    {
      0.0 < legFrac < 1.0
    }
  }

  /** The state advance_to_time leaves depends only on the order and the
      time, so advancing twice to the same time changes nothing more. */
  method AdvanceIsIdempotent(train: Train, t: Time)
    requires CanAdvance(train.order, t)
    modifies train
    ensures Position(train.currentLeg, train.legFrac) == Advanced(train.order, t)
  {
    train.AdvanceToTime(t);
    var leg, frac := train.currentLeg, train.legFrac;
    train.AdvanceToTime(t);
    assert train.currentLeg == leg && train.legFrac == frac;
  }

  // -----------------------------------------------------------------------
  // Outcomes of advance_to_time on a well-formed order

  /** Every served stop is a clock-face time and served stops strictly
      increase along the order. */
  predicate WellFormed(o: Order) {
    && (forall i :: 0 <= i < |o.times| && o.times[i].Some? ==> Valid(o.times[i].value))
    && (forall i, j :: 0 <= i < j < |o.times| && o.times[i].Some? && o.times[j].Some? ==>
          Less(o.times[i].value, o.times[j].value))
  }

  /** Whether a served stop follows stop `i`. */
  predicate NextServed(o: Order, i: nat) {
    i + 1 < |o.times| && o.times[i + 1].Some?
  }

  /** At a stop's own time the train is at that stop: fraction 0, or 1 when
      no next stop is served. */
  lemma AdvanceAtStop(o: Order, i: nat, t: Time)
    requires WellFormed(o) && i < |o.times| && o.times[i] == Some(t)
    ensures CanAdvance(o, t)
    ensures Advanced(o, t) == Position(AbsoluteIdx(o, i), if NextServed(o, i) then 0.0 else 1.0)
  {
    forall j | 0 <= j < i && o.times[j].Some? ensures !Reached(o.times[j], t) {
      Trichotomy(o.times[j].value, t);
    }
    ScanFromSkips(o.times, t, 0);
    assert ScanFrom(o.times, t, 0) == Some(i);
    if NextServed(o, i) {
      LessIffMinutes(t, o.times[i + 1].value);
    }
  }

  /** Strictly between two consecutive served stops the train is on the leg
      from the earlier one, at the elapsed share of the leg, strictly between
      0 and 1. */
  lemma AdvanceBetweenStops(o: Order, i: nat, t: Time)
    requires WellFormed(o) && Valid(t)
    requires 0 < i < |o.times| && o.times[i - 1].Some? && o.times[i].Some?
    requires Less(o.times[i - 1].value, t) && Less(t, o.times[i].value)
    ensures CanAdvance(o, t)
    ensures var a, b := AsMinutes(o.times[i - 1].value), AsMinutes(o.times[i].value);
      Advanced(o, t) == Position(AbsoluteIdx(o, i - 1), (AsMinutes(t) - a) as real / (b - a) as real)
    ensures 0.0 < Advanced(o, t).frac < 1.0
  {
    var a, b := o.times[i - 1].value, o.times[i].value;
    forall j | 0 <= j < i && o.times[j].Some? ensures !Reached(o.times[j], t) {
      if j < i - 1 {
        LessTransitive(o.times[j].value, a, t);
      }
      Trichotomy(o.times[j].value, t);
    }
    Trichotomy(t, b);
    ScanFromSkips(o.times, t, 0);
    assert ScanFrom(o.times, t, 0) == Some(i);
    LessIffMinutes(a, t);
    LessIffMinutes(t, b);
    FractionInside(AsMinutes(t) - AsMinutes(a), AsMinutes(b) - AsMinutes(a));
  }

  lemma FractionInside(elapsed: int, span: int)
    requires 0 < elapsed < span
    ensures 0.0 < elapsed as real / span as real < 1.0
  {
  }

  /** After every served stop the train is pinned at the last one with
      fraction 1. */
  lemma AdvancePastLastStop(o: Order, t: Time)
    requires WellFormed(o) && LastServed(o.times).Some?
    requires forall i :: 0 <= i < |o.times| && o.times[i].Some? ==> Less(o.times[i].value, t)
    ensures CanAdvance(o, t)
    ensures Advanced(o, t) == Position(AbsoluteIdx(o, LastServed(o.times).value), 1.0)
  {
    forall j | 0 <= j < |o.times| && o.times[j].Some? ensures !Reached(o.times[j], t) {
      Trichotomy(o.times[j].value, t);
    }
    ScanFromSkips(o.times, t, 0);
    assert ScanFrom(o.times, t, 0) == None;
  }

  /** A train advanced to its spawn time stands at its first served stop. */
  lemma SpawnAtFirstStop(o: Order, t: Time)
    requires WellFormed(o) && SpawnPlaceAndTime(o) == Ok(Spawn(o.id, t))
    ensures CanAdvance(o, t)
    ensures Advanced(o, t).leg == AbsoluteIdx(o, FirstServedFrom(o.times, 0).value)
  {
    AdvanceAtStop(o, FirstServedFrom(o.times, 0).value, t);
  }

  /** Every served stop of the order has an index below `len`; unserved
      stops past the end of the route are never looked up. */
  predicate ServedWithin(o: Order, len: nat) {
    forall i :: 0 <= i < |o.times| && o.times[i].Some? ==> i < len
  }

  /** The settled leg indexes a route on which every served stop lies. */
  lemma AdvancedOnRoute(o: Order, t: Time, len: nat)
    requires CanAdvance(o, t) && ServedWithin(o, len)
    ensures -(len as int) <= Advanced(o, t).leg < len
  {
    AbsoluteIdxResolves(o, SettledStop(o, t), len);
  }

  /** Once pinned at the last stop, advancing to a later time changes nothing. */
  lemma PinnedStaysPinned(o: Order, t: Time, t': Time)
    requires WellFormed(o) && LastServed(o.times).Some?
    requires forall i :: 0 <= i < |o.times| && o.times[i].Some? ==> Less(o.times[i].value, t)
    requires Less(t, t')
    ensures CanAdvance(o, t) && CanAdvance(o, t')
    ensures Advanced(o, t') == Advanced(o, t)
  {
    AdvancePastLastStop(o, t);
    forall i | 0 <= i < |o.times| && o.times[i].Some? ensures Less(o.times[i].value, t') {
      LessTransitive(o.times[i].value, t, t');
    }
    AdvancePastLastStop(o, t');
  }

  /** On a well-formed order the fraction stays within [0, 1]; it is 1 (the
      train is complete) exactly when the stop it settles on has no served
      next stop, and it is 0 exactly when the train stands at a stop with a
      served next stop and `t` is that stop's time. */
  lemma AdvancedFractionRange(o: Order, t: Time)
    requires WellFormed(o) && Valid(t) && CanAdvance(o, t)
    ensures 0.0 <= Advanced(o, t).frac <= 1.0
    ensures Advanced(o, t).frac == 1.0 <==> !NextServed(o, SettledStop(o, t))
    ensures Advanced(o, t).frac == 0.0 <==> NextServed(o, SettledStop(o, t)) && o.times[SettledStop(o, t)] == Some(t)
  {
    match ScanFrom(o.times, t, 0)
    case None =>
    case Some(k) =>
      if o.times[k] != Some(t) {
        SettledBetweenStops(o, t, k);
      } else if NextServed(o, k) {
        LessIffMinutes(t, o.times[k + 1].value);
      }
  }

  /** When the first reached stop is later than `t`, the train is strictly
      inside the leg before it. */
  lemma SettledBetweenStops(o: Order, t: Time, k: nat)
    requires WellFormed(o) && Valid(t) && CanAdvance(o, t)
    requires ScanFrom(o.times, t, 0) == Some(k) && o.times[k] != Some(t)
    ensures SettledStop(o, t) == k - 1 && NextServed(o, k - 1)
    ensures 0.0 < Advanced(o, t).frac < 1.0
  {
    SettledBeforeStop(o, t, k);
    ScanFromSkips(o.times, t, 0);
    assert !Reached(o.times[k - 1], t);
    var a, b := o.times[k - 1].value, o.times[k].value;
    Trichotomy(a, t);
    GreaterIsConverse(b, t);
    LegStrictlyInside(o, k, t);
  }

  /** Strictly between the times of stops `k - 1` and `k`, the fraction on
      the leg between them lies strictly between 0 and 1. */
  lemma LegStrictlyInside(o: Order, k: nat, t: Time)
    requires 0 < k < |o.times| && o.times[k - 1].Some? && o.times[k].Some?
    requires Valid(o.times[k - 1].value) && Valid(o.times[k].value) && Valid(t)
    requires Less(o.times[k - 1].value, t) && Less(t, o.times[k].value)
    ensures SpanNonZero(o.times, k - 1)
    ensures 0.0 < LegPosition(o, k - 1, t).frac < 1.0
  {
    var a, b := o.times[k - 1].value, o.times[k].value;
    LessIffMinutes(a, t);
    LessIffMinutes(t, b);
    LegFraction(o, k, t);
    FractionInside(AsMinutes(t) - AsMinutes(a), AsMinutes(b) - AsMinutes(a));
  }

  /** When the first reached stop is later than `t`, the train settles on
      the leg that ends at that stop. */
  lemma SettledBeforeStop(o: Order, t: Time, k: nat)
    requires CanAdvance(o, t)
    requires ScanFrom(o.times, t, 0) == Some(k) && o.times[k] != Some(t)
    ensures 0 < k && SettledStop(o, t) == k - 1 && NextServed(o, k - 1)
    ensures Advanced(o, t) == LegPosition(o, k - 1, t)
  {
  }

  /** The fraction on the leg that ends at stop `k`. */
  lemma LegFraction(o: Order, k: nat, t: Time)
    requires 0 < k < |o.times| && o.times[k - 1].Some? && o.times[k].Some? && SpanNonZero(o.times, k - 1)
    ensures var a, b := AsMinutes(o.times[k - 1].value), AsMinutes(o.times[k].value);
      LegPosition(o, k - 1, t).frac == (AsMinutes(t) - a) as real / (b - a) as real
  {
  }

  /** On a well-formed order advance_to_time settles on the last served stop
      whose time is not later than `t`. */
  lemma SettledIsLastNotLater(o: Order, t: Time)
    requires WellFormed(o) && CanAdvance(o, t)
    ensures LessEq(o.times[SettledStop(o, t)].value, t)
    ensures forall j :: SettledStop(o, t) < j < |o.times| && o.times[j].Some? ==> Greater(o.times[j].value, t)
  {
    var s := SettledStop(o, t);
    ScanFromSkips(o.times, t, 0);
    match ScanFrom(o.times, t, 0)
    case None =>
      Trichotomy(o.times[s].value, t);
    case Some(k) =>
      if o.times[k] == Some(t) {
        forall j | k < j < |o.times| && o.times[j].Some? ensures Greater(o.times[j].value, t) {
          GreaterIsConverse(o.times[j].value, t);
        }
      } else {
        Trichotomy(o.times[k - 1].value, t);
        forall j | k - 1 < j < |o.times| && o.times[j].Some? ensures Greater(o.times[j].value, t) {
          GreaterIsConverse(o.times[k].value, t);
          GreaterIsConverse(o.times[j].value, t);
          if j > k {
            LessTransitive(t, o.times[k].value, o.times[j].value);
          }
        }
      }
  }

  /** As time advances a train never moves back along its order: the stop it
      settles on does not decrease, and on the same stop its fraction does
      not decrease. */
  lemma AdvanceMonotone(o: Order, t1: Time, t2: Time)
    requires WellFormed(o) && Valid(t1) && Valid(t2)
    requires CanAdvance(o, t1) && CanAdvance(o, t2) && Less(t1, t2)
    ensures SettledStop(o, t1) <= SettledStop(o, t2)
    ensures SettledStop(o, t1) == SettledStop(o, t2) ==> Advanced(o, t1).frac <= Advanced(o, t2).frac
  {
    var s1, s2 := SettledStop(o, t1), SettledStop(o, t2);
    SettledIsLastNotLater(o, t1);
    SettledIsLastNotLater(o, t2);
    var a := o.times[s1].value;
    assert Less(a, t2) by {
      if a != t1 {
        LessTransitive(a, t1, t2);
      }
    }
    Trichotomy(a, t2);
    if s1 == s2 && NextServed(o, s1) {
      var b := o.times[s1 + 1].value;
      LessIffMinutes(a, b);
      LessIffMinutes(t1, t2);
      LegFraction(o, s1 + 1, t1);
      LegFraction(o, s1 + 1, t2);
      DivideMonotone(AsMinutes(t1) - AsMinutes(a), AsMinutes(t2) - AsMinutes(a), AsMinutes(b) - AsMinutes(a));
    }
  }

  /** Dividing by the same positive number keeps the order. */
  lemma DivideMonotone(x: int, y: int, d: int)
    requires x <= y && d > 0
    ensures x as real / d as real <= y as real / d as real
  {
  }

  /** Stops 08:00, 08:10, (not served), 08:30 eastbound: at 08:05 half way
      along leg 0; at 08:10 at stop 1 and complete, since stop 2 is not
      served; at 09:00 pinned at stop 3. */
  lemma ThreeStopExample()
    ensures var o := Order("A", true, [Some(Time(8, 0, false)), Some(Time(8, 10, false)), None, Some(Time(8, 30, false))]);
      && CanAdvance(o, Time(8, 5, false)) && Advanced(o, Time(8, 5, false)) == Position(0, 0.5)
      && CanAdvance(o, Time(8, 10, false)) && Advanced(o, Time(8, 10, false)) == Position(1, 1.0)
      && CanAdvance(o, Time(9, 0, false)) && Advanced(o, Time(9, 0, false)) == Position(3, 1.0)
  {
    var o := Order("A", true, [Some(Time(8, 0, false)), Some(Time(8, 10, false)), None, Some(Time(8, 30, false))]);
    assert ScanFrom(o.times, Time(8, 5, false), 0) == Some(1);
    assert ScanFrom(o.times, Time(8, 10, false), 0) == Some(1);
    assert ScanFrom(o.times, Time(9, 0, false), 0) == None;
    assert LastServed(o.times) == Some(3) by {
      assert o.times[|o.times| - 1].Some?;
    }
  }
}
