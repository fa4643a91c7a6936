/** The wall-clock value of the timetable (class Time of models.py). */
module Times {

  /** An hour and minute of the service day; `rollover` marks a time past
      midnight that still belongs to the same service day. */
  datatype Time = Time(hour: int, minute: int, rollover: bool)

  /** The time the last-stop fold starts from: 00:00 before midnight. */
  const Midnight := Time(0, 0, false)

  /** Number of minutes in a day, and in the two days a service day spans. */
  const DayMinutes := 24 * 60
  const ServiceDayMinutes := 48 * 60

  /** A time whose fields lie on the clock face. */
  predicate Valid(t: Time) {
    0 <= t.hour < 24 && 0 <= t.minute < 60
  }

  /** as_minutes: minutes since the start of the service day; a rolled-over
      hour counts from 24. */
  function AsMinutes(t: Time): (r: int)
    ensures Valid(t) ==> 0 <= r < ServiceDayMinutes
    ensures Valid(t) ==> (t.rollover <==> r >= DayMinutes)
    ensures Valid(t) ==> r % 60 == t.minute
  {
    (if t.rollover then t.hour + 24 else t.hour) * 60 + t.minute
  }

  /** __lt__: rollover class first, then hour, then minute. */
  predicate Less(a: Time, b: Time) {
    if a.rollover && !b.rollover then false
    else if b.rollover && !a.rollover then true
    else if a.hour < b.hour then true
    else if a.hour > b.hour then false
    else a.minute < b.minute
  }

  /** __gt__, written out branch by branch as the source does. */
  predicate Greater(a: Time, b: Time) {
    if a.rollover && !b.rollover then true
    else if b.rollover && !a.rollover then false
    else if a.hour > b.hour then true
    else if a.hour < b.hour then false
    else a.minute > b.minute
  }

  /** __le__ and __ge__: the strict comparison or structural equality. */
  predicate LessEq(a: Time, b: Time) {
    Less(a, b) || a == b
  }

  predicate GreaterEq(a: Time, b: Time) {
    Greater(a, b) || a == b
  }

  /** __add__: carry minutes into hours, then hours of 24 or more into the
      rollover flag.  Nothing is normalised when the minutes stay below 60,
      so a negative `n` can leave a negative minute. */
  function Add(t: Time, n: int): Time {
    var minutes := t.minute + n;
    var hours := if minutes >= 60 then t.hour + minutes / 60 else t.hour;
    var minutes' := if minutes >= 60 then minutes % 60 else minutes;
    if hours >= 24 then Time(hours % 24, minutes', true)
    else Time(hours, minutes', t.rollover)
  }

  // ---------------------------------------------------------------------
  // Ordering

  /** `a > b` is exactly `b < a`, for every pair of times. */
  lemma GreaterIsConverse(a: Time, b: Time)
    ensures Greater(a, b) <==> Less(b, a)
  {
  }

  /** Exactly one of `<`, `==`, `>` holds, for every pair of times. */
  lemma Trichotomy(a: Time, b: Time)
    ensures Less(a, b) || a == b || Greater(a, b)
    ensures !(Less(a, b) && a == b) && !(Less(a, b) && Greater(a, b)) && !(a == b && Greater(a, b))
  {
  }

  lemma LessTransitive(a: Time, b: Time, c: Time)
    requires Less(a, b) && Less(b, c)
    ensures Less(a, c)
  {
  }

  /** Every time before midnight precedes every rolled-over time, whatever
      their hours and minutes. */
  lemma RolloverComesLast(a: Time, b: Time)
    requires !a.rollover && b.rollover
    ensures Less(a, b) && !Less(b, a)
  {
  }

  /** On clock-face times the hand-written ordering is the order of the
      minute encoding. */
  lemma LessIffMinutes(a: Time, b: Time)
    requires Valid(a) && Valid(b)
    ensures Less(a, b) <==> AsMinutes(a) < AsMinutes(b)
  {
    var ha := if a.rollover then a.hour + 24 else a.hour;
    var hb := if b.rollover then b.hour + 24 else b.hour;
    HourMinuteOrder(ha, a.minute, hb, b.minute);
  }

  /** The minute encoding is one-to-one on clock-face times. */
  lemma MinutesInjective(a: Time, b: Time)
    requires Valid(a) && Valid(b) && AsMinutes(a) == AsMinutes(b)
    ensures a == b
  {
    LessIffMinutes(a, b);
    LessIffMinutes(b, a);
    Trichotomy(a, b);
  }

  /** `<=` and `>=` on clock-face times, through the encoding. */
  lemma LessEqIffMinutes(a: Time, b: Time)
    requires Valid(a) && Valid(b)
    ensures LessEq(a, b) <==> AsMinutes(a) <= AsMinutes(b)
    ensures GreaterEq(a, b) <==> AsMinutes(a) >= AsMinutes(b)
  {
    LessIffMinutes(a, b);
    LessIffMinutes(b, a);
    if AsMinutes(a) == AsMinutes(b) {
      MinutesInjective(a, b);
    }
  }

  /** Lexicographic order on (hour, minute) is the order of hour * 60 + minute. */
  lemma HourMinuteOrder(h1: int, m1: int, h2: int, m2: int)
    requires 0 <= m1 < 60 && 0 <= m2 < 60
    ensures (h1 < h2 || (h1 == h2 && m1 < m2)) <==> h1 * 60 + m1 < h2 * 60 + m2
  {
    if h1 < h2 {
      assert h1 * 60 + 60 <= h2 * 60;
    } else if h1 > h2 {
      assert h2 * 60 + 60 <= h1 * 60;
    }
  }

  // ---------------------------------------------------------------------
  // Addition

  /** Adding a non-negative number of minutes to a clock-face time gives a
      clock-face time; the rollover flag is set once the hours reach 24 and
      is never cleared. */
  lemma AddValid(t: Time, n: int)
    requires Valid(t) && n >= 0
    ensures Valid(Add(t, n))
    ensures Add(t, n).rollover <==> t.rollover || t.hour * 60 + t.minute + n >= DayMinutes
  {
    var minutes := t.minute + n;
    if minutes >= 60 {
      var hours := t.hour + minutes / 60;
      assert hours * 60 <= t.hour * 60 + minutes < hours * 60 + 60;
    }
  }

  /** Adding zero changes nothing. */
  lemma AddZero(t: Time)
    requires Valid(t)
    ensures Add(t, 0) == t
  {
  }

  /** 23:50 plus twenty minutes is 00:10 past midnight. */
  lemma AddAcrossMidnight()
    ensures Add(Time(23, 50, false), 20) == Time(0, 10, true)
  {
  }

  /** Addition is addition on the minute encoding while the sum stays in the
      service day. */
  lemma AddMinutes(t: Time, n: int)
    requires Valid(t) && n >= 0 && AsMinutes(t) + n < ServiceDayMinutes
    ensures AsMinutes(Add(t, n)) == AsMinutes(t) + n
  {
    var minutes := t.minute + n;
    if minutes >= 60 {
      var q := minutes / 60;
      assert minutes == q * 60 + minutes % 60;
      assert (t.hour + q) * 60 == t.hour * 60 + q * 60;
      if t.rollover {
        assert t.hour + q < 24 by {
          assert (t.hour + 24) * 60 + minutes < ServiceDayMinutes;
          assert (t.hour + q) * 60 <= t.hour * 60 + minutes;
        }
      } else if t.hour + q >= 24 {
        assert t.hour + q < 48 by {
          assert t.hour * 60 + minutes < ServiceDayMinutes;
          assert (t.hour + q) * 60 <= t.hour * 60 + minutes;
        }
        assert (t.hour + q) % 24 == t.hour + q - 24;
      }
    }
  }

  /** Adding a negative number keeps the encoding but not the clock face:
      the minute is not normalised, so `t + n + (-n)` is in general a
      different value from `t`. */
  lemma AddNegativeNotNormalised()
    ensures Add(Add(Time(8, 30, false), 45), -45) == Time(9, -30, false)
    ensures AsMinutes(Time(9, -30, false)) == AsMinutes(Time(8, 30, false))
  {
  }
}
