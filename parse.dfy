/** Reading timetables from tab-separated text (script.py).  The file itself
    is not read here: the caller passes its name and its lines. */
module Parsing {
  import opened Wrappers
  import opened Times
  import opened Orders
  import opened Schedules

  // -----------------------------------------------------------------------
  // Time tokens

  /** The token of a stop the train does not serve. */
  const NoService := "--:--"

  predicate IsDigit(c: char) {
    '0' <= c <= '9'
  }

  function DigitValue(c: char): (d: int)
    requires IsDigit(c)
    ensures 0 <= d < 10
  {
    c as int - '0' as int
  }

  function DigitChar(d: int): (c: char)
    requires 0 <= d < 10
    ensures IsDigit(c) && DigitValue(c) == d
  {
    ('0' as int + d) as char
  }

  /** The start of the token matches `[0-9]{2}:[0-9]{2}`. */
  predicate HasTimeShape(s: string) {
    |s| >= 5 && IsDigit(s[0]) && IsDigit(s[1]) && s[2] == ':' && IsDigit(s[3]) && IsDigit(s[4])
  }

  /** parse_time: None for the no-service token; otherwise the regular
      expression `([0-9]{2}):([0-9]{2})(#?)` matched at the start of the token
      only, so whatever follows the match is ignored and neither the hour nor
      the minute is range-checked; ValueError when it does not match. */
  function ParseTime(s: string): (r: Result<Option<Time>>)
    ensures r.Err? <==> s != NoService && !HasTimeShape(s)
    ensures r.Err? ==> r.error == ValueError
    ensures r == Ok(None) <==> s == NoService
    ensures r.Ok? && r.value.Some? ==> 0 <= r.value.value.hour < 100 && 0 <= r.value.value.minute < 100
  {
    if s == NoService then Ok(None)
    else if !HasTimeShape(s) then Err(ValueError)
    else
      var hour := 10 * DigitValue(s[0]) + DigitValue(s[1]);
      var minute := 10 * DigitValue(s[3]) + DigitValue(s[4]);
      Ok(Some(Time(hour, minute, |s| >= 6 && s[5] == '#')))
  }

  /** Time.__str__ for hours and minutes of at most two digits: zero-padded
      `HH:MM`, followed by `#` past midnight. */
  function FormatTime(t: Time): (s: string)
    requires 0 <= t.hour < 100 && 0 <= t.minute < 100
    ensures |s| == if t.rollover then 6 else 5
    ensures HasTimeShape(s)
  {
    [DigitChar(t.hour / 10), DigitChar(t.hour % 10), ':', DigitChar(t.minute / 10), DigitChar(t.minute % 10)]
      + (if t.rollover then "#" else "")
  }

  /** Parsing the printed form of a time gives the time back. */
  lemma ParseFormatTime(t: Time)
    requires 0 <= t.hour < 100 && 0 <= t.minute < 100
    ensures ParseTime(FormatTime(t)) == Ok(Some(t))
  {
    var s := FormatTime(t);
    assert s[0] != '-';
  }

  /** Characters after the sixth do not change the result. */
  lemma ParseIgnoresSuffix(s: string, rest: string)
    requires |s| >= 6
    ensures ParseTime(s + rest) == ParseTime(s)
  {
    assert (s + rest)[..6] == s[..6];
    assert s + rest != NoService;
  }

  /** When no `#` follows the first five characters, whatever follows them
      is ignored: `08:00x` and `08:00 ` parse as `08:00`. */
  lemma ParseIgnoresUnmatchedRest(s: string, rest: string)
    requires |s| == 5 && s != NoService
    requires rest == [] || rest[0] != '#'
    ensures ParseTime(s + rest) == ParseTime(s)
  {
    assert (s + rest)[..5] == s;
    if rest != [] {
      assert (s + rest)[5] == rest[0];
    }
  }

  /** Out-of-range hours and minutes are accepted as they are. */
  lemma ParseAcceptsAnyTwoDigits()
    ensures ParseTime("99:75") == Ok(Some(Time(99, 75, false)))
    ensures ParseTime("25:00#x") == Ok(Some(Time(25, 0, true)))
    ensures ParseTime("8:00").Err?
  {
  }

  // -----------------------------------------------------------------------
  // Lines

  /** str.split(sep): the pieces between separators; "" gives [""]. */
  function Split(s: string, sep: char): (r: seq<string>)
    ensures |r| >= 1
    ensures forall i :: 0 <= i < |r| ==> sep !in r[i]
    ensures Join(r, sep) == s
  {
    if |s| == 0 then [""]
    else
      var rest := Split(s[1..], sep);
      if s[0] == sep then
        var r := [""] + rest;
        assert r[1..] == rest;
        r
      else
        var r := [[s[0]] + rest[0]] + rest[1..];
        JoinConsChar(s[0], rest, sep);
        r
  }

  /** sep.join(parts). */
  function Join(parts: seq<string>, sep: char): string
    requires |parts| >= 1
  {
    if |parts| == 1 then parts[0] else parts[0] + [sep] + Join(parts[1..], sep)
  }

  lemma JoinConsChar(c: char, parts: seq<string>, sep: char)
    requires |parts| >= 1
    ensures Join([[c] + parts[0]] + parts[1..], sep) == [c] + Join(parts, sep)
  {
    var q := [[c] + parts[0]] + parts[1..];
    if |parts| > 1 {
      assert q[1..] == parts[1..];
    }
  }

  /** Splitting a joined line gives back its fields when no field holds the
      separator. */
  lemma {:induction false} SplitJoin(parts: seq<string>, sep: char)
    requires |parts| >= 1
    requires forall i :: 0 <= i < |parts| ==> sep !in parts[i]
    ensures Split(Join(parts, sep), sep) == parts
    decreases |Join(parts, sep)|
  {
    var p := parts[0];
    if |p| == 0 {
      if |parts| > 1 {
        var tail := parts[1..];
        assert Join(parts, sep) == [sep] + Join(tail, sep);
        assert ([sep] + Join(tail, sep))[1..] == Join(tail, sep);
        SplitJoin(tail, sep);
        assert parts == [""] + tail;
      }
    } else {
      var q := [p[1..]] + parts[1..];
      assert p == [p[0]] + p[1..];
      assert parts == [[p[0]] + q[0]] + q[1..];
      JoinConsChar(p[0], q, sep);
      assert Join(parts, sep)[1..] == Join(q, sep);
      forall i | 0 <= i < |q| ensures sep !in q[i] {
        if i == 0 {
          assert forall c :: c in p[1..] ==> c in p;
        } else {
          assert q[i] == parts[i];
        }
      }
      SplitJoin(q, sep);
    }
  }

  /** The tokens of a line, parsed one by one; the first malformed token
      raises ValueError. */
  function ParseTimes(tokens: seq<string>): (r: Result<seq<Option<Time>>>)
    ensures r.Err? <==> exists i :: 0 <= i < |tokens| && ParseTime(tokens[i]).Err?
    ensures r.Err? ==> r.error == ValueError
    ensures r.Ok? ==> |r.value| == |tokens| && forall i :: 0 <= i < |tokens| ==> ParseTime(tokens[i]) == Ok(r.value[i])
  {
    if |tokens| == 0 then Ok([])
    else
      var first := ParseTime(tokens[0]);
      var rest := ParseTimes(tokens[1..]);
      assert forall i :: 1 <= i < |tokens| ==> tokens[1..][i - 1] == tokens[i];
      if first.Err? then Err(first.error)
      else if rest.Err? then Err(rest.error)
      else Ok([first.value] + rest.value)
  }

  /** parse_order_from_str: the first tab-separated field is the train id,
      every further field is one stop. */
  function ParseOrderFromStr(line: string, eastbound: bool): (r: Result<Order>)
    ensures r.Ok? ==> r.value.id == Split(line, '\t')[0] && r.value.eastbound == eastbound
    ensures r.Ok? ==> |r.value.times| == |Split(line, '\t')| - 1
    ensures r.Ok? ==> ParseTimes(Split(line, '\t')[1..]) == Ok(r.value.times)
    ensures r.Err? <==> ParseTimes(Split(line, '\t')[1..]).Err?
  {
    var tokens := Split(line, '\t');
    match ParseTimes(tokens[1..])
    case Err(e) => Err(e)
    case Ok(times) => Ok(Order(tokens[0], eastbound, times))
  }

  /** The text of one stop: the no-service token or the printed time. */
  function FormatStop(stop: Option<Time>): string
    requires stop.Some? ==> 0 <= stop.value.hour < 100 && 0 <= stop.value.minute < 100
  {
    if stop.None? then NoService else FormatTime(stop.value)
  }

  /** An order whose id has no tab and whose times print in two digits. */
  predicate Printable(o: Order) {
    && '\t' !in o.id
    && forall i :: 0 <= i < |o.times| && o.times[i].Some? ==>
         0 <= o.times[i].value.hour < 100 && 0 <= o.times[i].value.minute < 100
  }

  /** The line of a csv file that holds an order. */
  function FormatLine(o: Order): string
    requires Printable(o)
  {
    Join([o.id] + seq(|o.times|, i requires 0 <= i < |o.times| => FormatStop(o.times[i])), '\t')
  }

  /** Parsing an order's line gives the order back. */
  lemma ParseOrderRoundTrip(o: Order)
    requires Printable(o)
    ensures ParseOrderFromStr(FormatLine(o), o.eastbound) == Ok(o)
  {
    var fields := seq(|o.times|, i requires 0 <= i < |o.times| => FormatStop(o.times[i]));
    var parts := [o.id] + fields;
    forall i | 0 <= i < |parts| ensures '\t' !in parts[i] {
      if i > 0 {
        var s := parts[i];
        assert s == FormatStop(o.times[i - 1]);
        if o.times[i - 1].Some? {
          var t := o.times[i - 1].value;
          assert s == [DigitChar(t.hour / 10), DigitChar(t.hour % 10), ':', DigitChar(t.minute / 10), DigitChar(t.minute % 10)]
            + (if t.rollover then "#" else "");
        }
      }
    }
    SplitJoin(parts, '\t');
    assert Split(FormatLine(o), '\t')[1..] == fields;
    forall i | 0 <= i < |fields| ensures ParseTime(fields[i]) == Ok(o.times[i]) {
      if o.times[i].Some? {
        ParseFormatTime(o.times[i].value);
      }
    }
    var r := ParseTimes(fields);
    assert r.Ok?;
    assert r.value == o.times;
  }

  // -----------------------------------------------------------------------
  // Files

  /** `sub in s` for strings: `sub` occurs at some position of `s`. */
  predicate Contains(s: string, sub: string)
    decreases |s|
  {
    if |sub| <= |s| && s[..|sub|] == sub then true
    else if |s| == 0 then false
    else Contains(s[1..], sub)
  }

  /** Each line parsed as an order of the given direction; the first bad line
      raises. */
  function ParseLines(lines: seq<string>, eastbound: bool): (r: Result<seq<Order>>)
    ensures r.Err? <==> exists i :: 0 <= i < |lines| && ParseOrderFromStr(lines[i], eastbound).Err?
    ensures r.Ok? ==> |r.value| == |lines| && forall i :: 0 <= i < |lines| ==> ParseOrderFromStr(lines[i], eastbound) == Ok(r.value[i])
  {
    if |lines| == 0 then Ok([])
    else
      var first := ParseOrderFromStr(lines[0], eastbound);
      var rest := ParseLines(lines[1..], eastbound);
      assert forall i :: 1 <= i < |lines| ==> lines[1..][i - 1] == lines[i];
      if first.Err? then Err(first.error)
      else if rest.Err? then Err(rest.error)
      else Ok([first.value] + rest.value)
  }

  /** parse_schedules_from_csv, given the file's name and its lines: the
      header line is skipped, every other line is one order, and the orders
      are eastbound exactly when the file name contains "eastbound". */
  function ParseSchedule(filename: string, lines: seq<string>): (r: Result<Schedule>)
    ensures r.Err? <==> exists i :: 1 <= i < |lines| && ParseOrderFromStr(lines[i], Contains(filename, "eastbound")).Err?
    ensures r.Ok? ==> |r.value.orders| == if |lines| == 0 then 0 else |lines| - 1
    ensures r.Ok? ==> forall i :: 0 <= i < |r.value.orders| ==>
      ParseOrderFromStr(lines[i + 1], Contains(filename, "eastbound")) == Ok(r.value.orders[i])
    ensures r.Ok? ==> forall i :: 0 <= i < |r.value.orders| ==>
      r.value.orders[i].eastbound == Contains(filename, "eastbound")
  {
    var eastbound := Contains(filename, "eastbound");
    var body := if |lines| == 0 then [] else lines[1..];
    assert forall i :: 1 <= i < |lines| ==> body[i - 1] == lines[i];
    match ParseLines(body, eastbound)
    case Err(e) => Err(e)
    case Ok(orders) =>
      forall i | 0 <= i < |orders| ensures orders[i].eastbound == eastbound {
        assert ParseOrderFromStr(body[i], eastbound) == Ok(orders[i]);
      }
      Ok(Schedule(orders))
  }

  // -----------------------------------------------------------------------
  // Spawning

  /** find_orders_for_time: the ids whose spawn time equals `t`, in order. */
  function FindOrdersForTime(orders: seq<Spawn>, t: Time): (r: seq<string>)
    ensures |r| == |AtTime(orders, t)|
    ensures forall i :: 0 <= i < |r| ==> r[i] == AtTime(orders, t)[i].id
  {
    if |orders| == 0 then []
    else (if orders[0].time == t then [orders[0].id] else []) + FindOrdersForTime(orders[1..], t)
  }

  /** The ids spawned at `t` are those of the orders whose first served stop
      is `t`, in schedule order. */
  lemma SpawnedInScheduleOrder(s: Schedule, t: Time)
    requires SpawnOrder(s).Ok?
    ensures var raw := RawSpawns(s.orders).value;
      FindOrdersForTime(SpawnOrder(s).value, t) == seq(|AtTime(raw, t)|, i requires 0 <= i < |AtTime(raw, t)| => AtTime(raw, t)[i].id)
  {
    SpawnOrderSpec(s);
  }

  /** Every id spawned at `t` names an order with a served stop at `t`. */
  lemma {:induction false} AtTimeMembers(s: seq<Spawn>, t: Time, i: nat)
    requires i < |AtTime(s, t)|
    ensures AtTime(s, t)[i] in s && AtTime(s, t)[i].time == t
    decreases |s|
  {
    if s[0].time == t {
      if i > 0 {
        AtTimeMembers(s[1..], t, i - 1);
      }
    } else {
      AtTimeMembers(s[1..], t, i);
    }
  }

  /** No entry with time `t` is passed over. */
  lemma {:induction false} AtTimeComplete(s: seq<Spawn>, t: Time, i: nat)
    requires i < |s| && s[i].time == t
    ensures s[i] in AtTime(s, t)
    decreases |s|
  {
    if i > 0 {
      AtTimeComplete(s[1..], t, i - 1);
    }
  }

  /** find_orders_for_time returns the id of every entry whose time is `t`. */
  lemma FoundEveryDueId(orders: seq<Spawn>, t: Time, i: nat)
    requires i < |orders| && orders[i].time == t
    ensures orders[i].id in FindOrdersForTime(orders, t)
  {
    AtTimeComplete(orders, t, i);
    var k :| 0 <= k < |AtTime(orders, t)| && AtTime(orders, t)[k] == orders[i];
    assert FindOrdersForTime(orders, t)[k] == orders[i].id;
  }

  /** Every order of the schedule whose first served stop is at `t` has its
      id found at `t`, so every train due at `t` spawns. */
  lemma DueOrderIsFound(s: Schedule, t: Time, i: nat)
    requires SpawnOrder(s).Ok? && i < |s.orders|
    requires SpawnPlaceAndTime(s.orders[i]) == Ok(Spawn(s.orders[i].id, t))
    ensures s.orders[i].id in FindOrdersForTime(SpawnOrder(s).value, t)
  {
    var spawn := SpawnOrder(s).value;
    var raw := RawSpawns(s.orders).value;
    SpawnOrderSpec(s);
    assert raw[i] == Spawn(s.orders[i].id, t);
    AtTimeComplete(raw, t, i);
    assert AtTime(spawn, t) == AtTime(raw, t);
    var k :| 0 <= k < |AtTime(spawn, t)| && AtTime(spawn, t)[k] == raw[i];
    assert FindOrdersForTime(spawn, t)[k] == s.orders[i].id;
  }

  /** Every id find_orders_for_time picks out of the spawn order belongs to
      an order of the schedule whose first served stop is at `t`. */
  lemma FoundIdHasOrder(s: Schedule, t: Time, k: nat)
    requires SpawnOrder(s).Ok? && k < |FindOrdersForTime(SpawnOrder(s).value, t)|
    ensures exists i :: (0 <= i < |s.orders| && s.orders[i].id == FindOrdersForTime(SpawnOrder(s).value, t)[k]
                         && SpawnPlaceAndTime(s.orders[i]) == Ok(Spawn(s.orders[i].id, t)))
  {
    var spawn := SpawnOrder(s).value;
    var raw := RawSpawns(s.orders).value;
    SpawnOrderSpec(s);
    AtTimeMembers(spawn, t, k);
    var sp := AtTime(spawn, t)[k];
    assert sp in multiset(raw);
    var i :| 0 <= i < |raw| && raw[i] == sp;
    assert SpawnPlaceAndTime(s.orders[i]) == Ok(raw[i]);
  }

  /** get_order on such an id succeeds; when ids are unique it returns that
      very order. */
  lemma FoundIdLookup(s: Schedule, t: Time, k: nat)
    requires SpawnOrder(s).Ok? && k < |FindOrdersForTime(SpawnOrder(s).value, t)|
    ensures var id := FindOrdersForTime(SpawnOrder(s).value, t)[k];
      && GetOrder(s, id).Ok? && GetOrder(s, id).value in s.orders && GetOrder(s, id).value.id == id
      && (UniqueIds(s) ==> SpawnPlaceAndTime(GetOrder(s, id).value) == Ok(Spawn(id, t)))
  {
    var id := FindOrdersForTime(SpawnOrder(s).value, t)[k];
    FoundIdHasOrder(s, t, k);
    GetOrderIsLast(s, id);
  }
}
