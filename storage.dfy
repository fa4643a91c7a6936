/** Train counters of the yards (classes Storage and Station of models.py).

    A Storage's `_count` dict is kept as its entries in insertion order, so
    that get_all_count is a plain sum.  Several stations share one yard, so
    stations name their yard by an id into the table of all yards instead of
    holding an aliased object. */
module Storage {
  import opened Wrappers

  /** One key of the `_count` dict: a route name and its train count. */
  datatype Entry = Entry(name: string, count: int)

  type Counts = seq<Entry>

  /** What every Storage operation keeps: one entry per name, no negative count. */
  predicate Valid(c: Counts) {
    && (forall i, j :: 0 <= i < j < |c| ==> c[i].name != c[j].name)
    && (forall i :: 0 <= i < |c| ==> c[i].count >= 0)
  }

  /** Dict lookup: the index of the entry for `name`, if there is one. */
  function Find(c: Counts, name: string): (r: Option<nat>)
    ensures r.Some? ==> r.value < |c| && c[r.value].name == name
    ensures r.None? ==> forall i :: 0 <= i < |c| ==> c[i].name != name
  {
    if |c| == 0 then None
    else if c[|c| - 1].name == name then Some(|c| - 1)
    else Find(c[..|c| - 1], name)
  }

  /** get_count: the count kept for `name`, 0 for a name never seen. */
  function GetCount(c: Counts, name: string): int {
    match Find(c, name)
    case None => 0
    case Some(i) => c[i].count
  }

  /** has_any: false for an unseen name, otherwise whether its count is positive. */
  function HasAny(c: Counts, name: string): (r: bool)
    ensures r <==> GetCount(c, name) > 0
  {
    if Find(c, name).None? then false else c[Find(c, name).value].count > 0
  }

  /** store: add one train to `name`'s count, creating the key at 0 first. */
  function Store(c: Counts, name: string): Counts {
    match Find(c, name)
    case None => c + [Entry(name, 1)]
    case Some(i) => c[i := Entry(name, c[i].count + 1)]
  }

  /** store raises `name`'s count by one and leaves every other count alone. */
  lemma StoreCounts(c: Counts, name: string)
    ensures GetCount(Store(c, name), name) == GetCount(c, name) + 1
    ensures forall n :: n != name ==> GetCount(Store(c, name), n) == GetCount(c, n)
  {
    match Find(c, name)
    case None =>
      FindAppend(c, Entry(name, 1));
    case Some(i) =>
      FindUpdate(c, i, c[i].count + 1);
  }

  /** store keeps the dict well formed. */
  lemma StoreValid(c: Counts, name: string)
    requires Valid(c)
    ensures Valid(Store(c, name))
  {
    match Find(c, name)
    case None =>
      SnocValid(c, Entry(name, 1));
    case Some(i) =>
      UpdateValid(c, i, c[i].count + 1);
  }

  /** store raises the total by one. */
  lemma StoreTotal(c: Counts, name: string)
    ensures Total(Store(c, name)) == Total(c) + 1
  {
    match Find(c, name)
    case None =>
      TotalAppend(c, Entry(name, 1));
    case Some(i) =>
      TotalUpdate(c, i, c[i].count + 1);
  }

  /** withdraw: take one train from `name`'s count when it has any; otherwise
      set the count to 0 (creating the key if need be). */
  function Withdraw(c: Counts, name: string): Counts {
    match Find(c, name)
    case None => c + [Entry(name, 0)]
    case Some(i) => c[i := Entry(name, if c[i].count > 0 then c[i].count - 1 else 0)]
  }

  /** withdraw lowers a positive count by one and leaves a zero count (or an
      unseen name) at 0; every other count stays. */
  lemma WithdrawCounts(c: Counts, name: string)
    ensures GetCount(Withdraw(c, name), name) == if GetCount(c, name) > 0 then GetCount(c, name) - 1 else 0
    ensures forall n :: n != name ==> GetCount(Withdraw(c, name), n) == GetCount(c, n)
  {
    match Find(c, name)
    case None =>
      FindAppend(c, Entry(name, 0));
    case Some(i) =>
      FindUpdate(c, i, if c[i].count > 0 then c[i].count - 1 else 0);
  }

  /** withdraw keeps the dict well formed. */
  lemma WithdrawValid(c: Counts, name: string)
    requires Valid(c)
    ensures Valid(Withdraw(c, name))
  {
    match Find(c, name)
    case None =>
      SnocValid(c, Entry(name, 0));
    case Some(i) =>
      UpdateValid(c, i, if c[i].count > 0 then c[i].count - 1 else 0);
  }

  /** withdraw lowers the total by one exactly when there was a train of the
      route to take. */
  lemma WithdrawTotal(c: Counts, name: string)
    requires Valid(c)
    ensures Total(Withdraw(c, name)) == if GetCount(c, name) > 0 then Total(c) - 1 else Total(c)
  {
    match Find(c, name)
    case None =>
      TotalAppend(c, Entry(name, 0));
    case Some(i) =>
      TotalUpdate(c, i, if c[i].count > 0 then c[i].count - 1 else 0);
  }

  /** Appending an entry for a new name with a non-negative count keeps the
      dict well formed. */
  lemma SnocValid(c: Counts, e: Entry)
    requires Valid(c) && Find(c, e.name).None? && e.count >= 0
    ensures Valid(c + [e])
  {
    var d := c + [e];
    forall i, j | 0 <= i < j < |d| ensures d[i].name != d[j].name {
      assert d[i] == c[i];
      if j < |c| {
        assert d[j] == c[j];
      }
    }
  }

  /** Setting an existing entry to a non-negative count keeps the dict well
      formed. */
  lemma UpdateValid(c: Counts, i: nat, v: int)
    requires Valid(c) && i < |c| && v >= 0
    ensures Valid(c[i := Entry(c[i].name, v)])
  {
    var d := c[i := Entry(c[i].name, v)];
    assert forall k :: 0 <= k < |d| ==> d[k].name == c[k].name;
  }

  /** get_all_count: the sum of all counts. */
  function Total(c: Counts): int {
    if |c| == 0 then 0 else Total(c[..|c| - 1]) + c[|c| - 1].count
  }

  /** With no negative count the total is never negative, and it is 0
      exactly when every count is 0. */
  lemma {:induction false} TotalZeroIff(c: Counts)
    requires Valid(c)
    ensures Total(c) >= 0
    ensures Total(c) == 0 <==> forall i :: 0 <= i < |c| ==> c[i].count == 0
    decreases |c|
  {
    if |c| > 0 {
      var init := c[..|c| - 1];
      assert Valid(init);
      TotalZeroIff(init);
    }
  }

  /** reset: the empty dict. */
  const Empty: Counts := []

  lemma ResetForgetsAll(name: string)
    ensures Valid(Empty) && GetCount(Empty, name) == 0 && Total(Empty) == 0
  {
  }

  lemma {:induction false} FindAppend(c: Counts, e: Entry)
    requires Find(c, e.name).None?
    ensures forall n :: Find(c + [e], n) == if n == e.name then Some(|c|) else Find(c, n)
  {
    assert (c + [e])[..|c|] == c;
  }

  lemma {:induction false} FindUpdate(c: Counts, i: nat, v: int)
    requires i < |c|
    ensures forall n :: Find(c[i := Entry(c[i].name, v)], n) == Find(c, n)
    decreases |c|
  {
    var d := c[i := Entry(c[i].name, v)];
    if i < |c| - 1 {
      assert d[..|d| - 1] == c[..|c| - 1][i := Entry(c[i].name, v)];
      FindUpdate(c[..|c| - 1], i, v);
    } else {
      assert d[..|d| - 1] == c[..|c| - 1];
    }
  }

  lemma {:induction false} TotalAppend(c: Counts, e: Entry)
    ensures Total(c + [e]) == Total(c) + e.count
  {
    assert (c + [e])[..|c|] == c;
  }

  lemma {:induction false} TotalUpdate(c: Counts, i: nat, v: int)
    requires i < |c|
    ensures Total(c[i := Entry(c[i].name, v)]) == Total(c) - c[i].count + v
    decreases |c|
  {
    var d := c[i := Entry(c[i].name, v)];
    if i < |c| - 1 {
      assert d[..|d| - 1] == c[..|c| - 1][i := Entry(c[i].name, v)];
      TotalUpdate(c[..|c| - 1], i, v);
    } else {
      assert d[..|d| - 1] == c[..|c| - 1];
    }
  }

  // -----------------------------------------------------------------------
  // Stations

  /** A station, reduced to its name and the id of the yard it stores trains
      in, if any. */
  datatype Station = Station(name: string, storage: Option<nat>)

  /** A station whose yard id names one of `yards`. */
  predicate Serves(yards: seq<Counts>, st: Station) {
    st.storage.Some? ==> st.storage.value < |yards|
  }

  /** store_train: store into the station's yard when it has one. */
  function StoreTrain(yards: seq<Counts>, st: Station, route: string): (r: seq<Counts>)
    requires Serves(yards, st)
    ensures |r| == |yards|
  {
    if st.storage.Some? then
      var y := st.storage.value;
      yards[y := Store(yards[y], route)]
    else yards
  }

  /** store_train adds one train of the route to the station's yard, if it
      has one, and changes no other yard. */
  lemma StoreTrainSpec(yards: seq<Counts>, st: Station, route: string)
    requires Serves(yards, st)
    ensures st.storage.None? ==> StoreTrain(yards, st, route) == yards
    ensures st.storage.Some? ==> forall y :: 0 <= y < |yards| && y != st.storage.value ==>
      StoreTrain(yards, st, route)[y] == yards[y]
    ensures st.storage.Some? ==>
      GetCount(StoreTrain(yards, st, route)[st.storage.value], route) == GetCount(yards[st.storage.value], route) + 1
  {
    if st.storage.Some? {
      StoreCounts(yards[st.storage.value], route);
    }
  }

  /** withdraw_train: withdraw from the station's yard when it has one. */
  function WithdrawTrain(yards: seq<Counts>, st: Station, route: string): (r: seq<Counts>)
    requires Serves(yards, st)
    ensures |r| == |yards|
  {
    if st.storage.Some? then
      var y := st.storage.value;
      yards[y := Withdraw(yards[y], route)]
    else yards
  }

  /** withdraw_train applies withdraw to the station's yard, if it has one,
      and changes no other yard. */
  lemma WithdrawTrainSpec(yards: seq<Counts>, st: Station, route: string)
    requires Serves(yards, st)
    ensures st.storage.None? ==> WithdrawTrain(yards, st, route) == yards
    ensures st.storage.Some? ==> forall y :: 0 <= y < |yards| && y != st.storage.value ==>
      WithdrawTrain(yards, st, route)[y] == yards[y]
    ensures st.storage.Some? ==>
      WithdrawTrain(yards, st, route)[st.storage.value] == Withdraw(yards[st.storage.value], route)
  {
  }

  /** get_count and get_all_count of a station: its yard's, or 0 without one. */
  function StationCount(yards: seq<Counts>, st: Station, route: string): int
    requires Serves(yards, st)
  {
    if st.storage.Some? then GetCount(yards[st.storage.value], route) else 0
  }

  function StationAllCount(yards: seq<Counts>, st: Station): int
    requires Serves(yards, st)
  {
    if st.storage.Some? then Total(yards[st.storage.value]) else 0
  }

  /** Through a station with a yard, store_train adds one to the route's
      count and to the total, and withdraw_train takes one from each exactly
      when the route had a train there; through a station without a yard
      nothing changes and both counts stay 0. */
  lemma StationCountsMove(yards: seq<Counts>, st: Station, route: string)
    requires AllValid(yards) && Serves(yards, st)
    ensures var d := if st.storage.Some? then 1 else 0;
      && StationCount(StoreTrain(yards, st, route), st, route) == StationCount(yards, st, route) + d
      && StationAllCount(StoreTrain(yards, st, route), st) == StationAllCount(yards, st) + d
    ensures var d := if StationCount(yards, st, route) > 0 then 1 else 0;
      && StationCount(WithdrawTrain(yards, st, route), st, route) == StationCount(yards, st, route) - d
      && StationAllCount(WithdrawTrain(yards, st, route), st) == StationAllCount(yards, st) - d
    ensures StationCount(yards, st, route) >= 0 && StationAllCount(yards, st) >= 0
  {
    if st.storage.Some? {
      var c := yards[st.storage.value];
      assert Valid(c);
      StoreCounts(c, route);
      StoreTotal(c, route);
      WithdrawCounts(c, route);
      WithdrawTotal(c, route);
      TotalZeroIff(c);
    }
  }

  /** Every yard's counts are well formed. */
  predicate AllValid(yards: seq<Counts>) {
    forall y :: 0 <= y < |yards| ==> Valid(yards[y])
  }

  /** store_train and withdraw_train keep every yard well formed. */
  lemma StoreTrainValid(yards: seq<Counts>, st: Station, route: string)
    requires AllValid(yards) && Serves(yards, st)
    ensures AllValid(StoreTrain(yards, st, route))
  {
    if st.storage.Some? {
      StoreValid(yards[st.storage.value], route);
    }
  }

  lemma WithdrawTrainValid(yards: seq<Counts>, st: Station, route: string)
    requires AllValid(yards) && Serves(yards, st)
    ensures AllValid(WithdrawTrain(yards, st, route))
  {
    if st.storage.Some? {
      WithdrawValid(yards[st.storage.value], route);
    }
  }

  /** The yards of the simulation: one Storage per yard, updated in place. */
  class Yards {
    var tables: seq<Counts>

    ghost predicate Valid() reads this {
      AllValid(tables)
    }

    /** `n` fresh, empty Storage objects. */
    constructor (n: nat)
      ensures Valid() && tables == seq(n, _ => Empty)
    {
      tables := seq(n, _ => Empty);
    }

    /** Storage.store on yard `y`. */
    method StoreIn(y: nat, name: string)
      requires y < |tables|
      modifies this
      ensures tables == old(tables)[y := Store(old(tables)[y], name)]
    {
      tables := tables[y := Store(tables[y], name)];
    }

    /** Storage.withdraw on yard `y`. */
    method WithdrawFrom(y: nat, name: string)
      requires y < |tables|
      modifies this
      ensures tables == old(tables)[y := Withdraw(old(tables)[y], name)]
    {
      tables := tables[y := Withdraw(tables[y], name)];
    }

    /** Storage.reset on yard `y`. */
    method ResetYard(y: nat)
      requires y < |tables|
      modifies this
      ensures tables == old(tables)[y := Empty]
    {
      tables := tables[y := Empty];
    }

    /** reset of every yard, one after another. */
    method ResetAll()
      modifies this
      ensures Valid() && tables == seq(old(|tables|), _ => Empty)
    {
      for y := 0 to |tables|
        invariant |tables| == old(|tables|)
        invariant forall k :: 0 <= k < y ==> tables[k] == Empty
      {
        ResetYard(y);
      }
    }

    /** Station.store_train: delegate to the station's yard, if any. */
    method StoreTrainAt(st: Station, route: string)
      requires Serves(tables, st)
      modifies this
      ensures tables == StoreTrain(old(tables), st, route)
    {
      if st.storage.Some? {
        StoreIn(st.storage.value, route);
      }
    }

    /** Station.withdraw_train: delegate to the station's yard, if any. */
    method WithdrawTrainAt(st: Station, route: string)
      requires Serves(tables, st)
      modifies this
      ensures tables == WithdrawTrain(old(tables), st, route)
    {
      if st.storage.Some? {
        WithdrawFrom(st.storage.value, route);
      }
    }
  }
}
