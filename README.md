# TRE Visualizer timetable model

TRE Visualizer plays back the weekday timetables of two commuter rail
lines, the Trinity Railway Express (TRE) and TEXRail, on a map of their
stations.

- Each timetable row (an *order*) gives a train id, a direction, and the
  time the train serves each stop. A stop the train skips is `--:--`.
- Once a minute, the simulation of each route does four things. It moves
  every running train to the leg and fraction of the leg where it should
  be. It spawns a train for every order whose first served stop is at the
  current minute, withdrawing one train of the route from the yard at
  that station, if the station has a yard; a yard holding none of the
  route's trains stays at zero. It stores every complete train back into
  the yard at its station, again only where there is a yard: a train
  is complete at its last served stop, or at a stop whose next stop it
  skips. It drops those trains from the running list.
- A global simulation starts its clock at the earliest first stop of any
  route. It ticks every route, advances the clock by one minute, and keeps
  ticking until the clock passes the latest stop of any timetable.

This project models the following in Dafny, with the drawing, sound and
timers removed:

- clock times and their hand-written ordering and addition;
- orders, and the tab-separated timetable lines they are parsed from;
- the per-route train counters of the yards;
- schedules: lookup by id, spawn order, and last stop;
- how a train settles on a leg for a given time;
- the tick, spawn, retire and reset steps of the per-route and global
  simulations.

The modules follow the program's files:

- `Times`, `Orders`, `Storage`, `Schedules` and `Trains` model `models.py`.
- `Parsing` models `script.py`.
- `Simulations` and `Globals` model `ui.py`.
- `Wrappers` holds the `Option` and `Result` types. Python exceptions
  (`ValueError`, `KeyError`) become `Err` values.

Where the source mutates state, the model does too:

- A `Train` is a class whose `AdvanceToTime` loop overwrites its leg and
  fraction.
- The yards are a `Yards` object holding one count table per yard.
- A `Simulation` reassigns its list of trains and updates the shared
  `Yards`.
- A `GlobalSimulation` owns the clock.

Pure code stays pure: times, parsing, schedule lookup and the spawn-order
sort are functions.

Several stations share one yard object in the source (for example, three
TRE stations use the Irving yard). Here a `Station` names its yard by an id
into the `Yards` table, so a store through one station is seen through
every station that shares the yard.

## Model

| member | source | states |
|---|---|---|
| Times.AsMinutes | models.py:10-14 | For a clock-face time, the encoding lies in the two days of a service day. It is at least one day exactly when the time has rolled over, and its remainder mod 60 is the minute. |
| Times.GreaterIsConverse | models.py:28-50 | `a > b` holds exactly when `b < a`, for all times. |
| Times.Trichotomy | models.py:22-50 | Exactly one of `<`, `==`, `>` holds between any two times. |
| Times.LessTransitive | models.py:28-38 | `<` is transitive. |
| Times.RolloverComesLast | models.py:28-38 | Every time before midnight precedes every rolled-over time. |
| Times.LessIffMinutes | models.py:10-38 | On clock-face times, `<` is exactly `<` on the minute encoding. |
| Times.MinutesInjective | models.py:10-23 | Two clock-face times with the same encoding are equal. |
| Times.LessEqIffMinutes | models.py:52-56 | `<=` and `>=` are the comparisons of the minute encodings. |
| Times.HourMinuteOrder | models.py:33-38 | Comparing hour, then minute, is comparing `hour * 60 + minute`. |
| Times.AddValid | models.py:58-68 | Adding a non-negative number of minutes gives a clock-face time. Rollover is set exactly when the old time was rolled over or the hours reach 24. |
| Times.AddZero | models.py:58-68 | `t + 0 == t`. |
| Times.AddAcrossMidnight | models.py:58-68 | `23:50 + 20` is `00:10` rolled over. |
| Times.AddMinutes | models.py:58-68 | Within a service day, addition is addition on the encoding. |
| Times.AddNegativeNotNormalised | models.py:58-68 | A negative addend leaves the minute un-normalised (`08:30 + 45 - 45` is `09:-30`), though the encoding agrees. |
| Times.Less | models.py:28-38 | `__lt__`: rollover first, then hour, then minute. Its properties are Times.Trichotomy, Times.LessTransitive, Times.RolloverComesLast and Times.LessIffMinutes. |
| Times.Greater | models.py:40-50 | `__gt__`, branch by branch. Times.GreaterIsConverse proves it is `<` with the arguments swapped. |
| Times.LessEq | models.py:52-53 | `__le__`: `<` or equal. Times.LessEqIffMinutes ties it to the encoding. |
| Times.GreaterEq | models.py:55-56 | `__ge__`: `>` or equal. Times.LessEqIffMinutes ties it to the encoding. |
| Times.Add | models.py:58-68 | `__add__`: carry minutes into hours, then hours of 24 or more into the rollover flag. Its properties are Times.AddValid, Times.AddZero, Times.AddMinutes and Times.AddNegativeNotNormalised. |
| Orders.Resolve | ui.py:123 | Python indexing of the route by a raw index. A negative index counts from the end. |
| Orders.AbsoluteIdx | models.py:77-78 | `get_absolute_idx`: the stop index eastbound, `-1 - i` westbound. Orders.AbsoluteIdxResolves gives the station it names. |
| Orders.AbsoluteIdxResolves | models.py:77-78 | Stop `i` is station `i` eastbound and station `len - 1 - i` westbound. |
| Orders.FirstServedFrom | models.py:81-83 | The first served stop at or after an index: every stop before it is unserved, and there is none when no stop from there on is served. |
| Orders.LastServed | models.py:209-214 | The last served stop: every stop after it is unserved, and there is none when no stop is served. |
| Orders.SpawnPlaceAndTime | models.py:80-84 | Returns the order's id and the time of its first served stop. ValueError exactly when no stop is served. |
| Storage.Find | models.py:106-113 | Dict lookup finds the entry with that name, or proves there is none. |
| Storage.GetCount | models.py:110-113 | `get_count`: the name's count, 0 for an unseen name. Storage.HasAny, Storage.StoreCounts and Storage.WithdrawCounts state its behaviour. |
| Storage.Store | models.py:94-97 | `store`: create the key at 0 if need be, then add one. Storage.StoreCounts, Storage.StoreValid and Storage.StoreTotal state its effect. |
| Storage.Withdraw | models.py:99-103 | `withdraw`: take one when the name has any, otherwise set it to 0. Storage.WithdrawCounts, Storage.WithdrawValid and Storage.WithdrawTotal state its effect. |
| Storage.Total | models.py:115-116 | `get_all_count`: the sum of the counts. Storage.TotalZeroIff bounds it. |
| Storage.HasAny | models.py:105-108 | `has_any` holds exactly when `get_count` is positive. |
| Storage.StoreCounts | models.py:94-97 | `store` raises that name's count by one and changes no other count. |
| Storage.StoreValid | models.py:94-97 | `store` keeps the names distinct and the counts non-negative. |
| Storage.StoreTotal | models.py:94-116 | `store` raises `get_all_count` by one. |
| Storage.WithdrawCounts | models.py:99-103 | `withdraw` lowers a positive count by one and otherwise leaves it at 0. No other count changes. |
| Storage.WithdrawValid | models.py:99-103 | `withdraw` keeps counts non-negative and names distinct, even when it creates the key. |
| Storage.WithdrawTotal | models.py:99-116 | `withdraw` lowers the total by one exactly when the name had a train. |
| Storage.SnocValid | models.py:95-96 | Adding a new key with a non-negative count keeps the dict well formed. |
| Storage.UpdateValid | models.py:97-101 | Setting a key's count to a non-negative value keeps the dict well formed. |
| Storage.TotalZeroIff | models.py:115-116 | The total is never negative, and it is 0 exactly when every count is 0. |
| Storage.ResetForgetsAll | models.py:118-119 | After `reset`, every name's count and the total are 0. |
| Storage.FindAppend | models.py:95-96 | A new key is found at the end; every other lookup is as before. |
| Storage.FindUpdate | models.py:97-101 | Updating a count moves no key. |
| Storage.TotalAppend | models.py:115-116 | Adding a key adds its count to the total. |
| Storage.TotalUpdate | models.py:115-116 | Updating a count changes the total by the difference. |
| Storage.StoreTrain | models.py:140-142 | `store_train`: `store` on the station's yard, if any. Storage.StoreTrainSpec states its effect. |
| Storage.WithdrawTrain | models.py:136-138 | `withdraw_train`: `withdraw` on the station's yard, if any. Storage.WithdrawTrainSpec states its effect. |
| Storage.StationCount | models.py:144-147 | `Station.get_count`: the yard's count for the route, or 0 without a yard. Storage.StationCountsMove states how it moves. |
| Storage.StationAllCount | models.py:149-152 | `Station.get_all_count`: the yard's total, or 0 without a yard. Storage.StationCountsMove states how it moves. |
| Storage.StoreTrainSpec | models.py:140-142 | `store_train` adds one of the route to the station's yard and touches no other yard. It does nothing at a station without a yard. |
| Storage.WithdrawTrainSpec | models.py:136-138 | `withdraw_train` withdraws from the station's yard only, and does nothing at a station without one. |
| Storage.StationCountsMove | models.py:136-152 | Through a station with a yard, `store_train` adds one to its `get_count` and `get_all_count`. `withdraw_train` takes one from each exactly when the route had a train there. Both counts are never negative. |
| Storage.StoreTrainValid | models.py:140-142 | `store_train` keeps every yard well formed. |
| Storage.WithdrawTrainValid | models.py:136-138 | `withdraw_train` keeps every yard well formed. |
| Storage.Yards.constructor | ui.py:13-17 | The yards start empty and well formed. |
| Storage.Yards.StoreIn | models.py:94-97 | `store` on one yard replaces that yard's table only. |
| Storage.Yards.WithdrawFrom | models.py:99-103 | `withdraw` on one yard replaces that yard's table only. |
| Storage.Yards.ResetYard | models.py:118-119 | `reset` empties one yard. |
| Storage.Yards.ResetAll | ui.py:205 | Resetting every yard in turn leaves every yard empty and well formed. |
| Storage.Yards.StoreTrainAt | models.py:140-142 | Station delegation of `store`: the new tables are `StoreTrain` of the old. |
| Storage.Yards.WithdrawTrainAt | models.py:136-138 | Station delegation of `withdraw`: the new tables are `WithdrawTrain` of the old. |
| Schedules.RouteMap | models.py:176-178 | The route map has a key exactly for every id some order has. |
| Schedules.Concat | models.py:180-181 | `__add__`: the orders of both schedules, in order. Schedules.GetOrderConcat states lookups in it. |
| Schedules.GetOrder | models.py:188-189 | `get_order`: the route map's entry, KeyError without one. Schedules.GetOrderIsLast states its result. |
| Schedules.RouteMapLast | models.py:178 | The entry for an id is the last order with that id. |
| Schedules.GetOrderIsLast | models.py:188-189 | `get_order` succeeds exactly when some order has the id, and returns the last such order. Otherwise it raises KeyError. |
| Schedules.GetOrderConcat | models.py:180-189 | In `a + b`, an id is found in `b` when `b` has it, and in `a` otherwise. |
| Schedules.RouteMapConcat | models.py:178-181 | The route map of `a + b` is that of `a` overridden by that of `b`. |
| Schedules.RawSpawns | models.py:185 | Gives one (id, first stop) pair per order, in order. ValueError exactly when some order serves no stop. |
| Schedules.Insert | models.py:186 | One insertion step adds exactly its element. |
| Schedules.InsertSorted | models.py:186 | Inserting into a time-sorted list keeps it sorted. |
| Schedules.SortByTime | models.py:186 | `sorted(raw, key=time)` is a permutation of its input and is sorted by time. |
| Schedules.InsertAtTime | models.py:186 | Inserting an element puts it in front of the entries with its own time. |
| Schedules.SortIsStable | models.py:186 | Entries with equal times keep their input order. |
| Schedules.SpawnOrder | models.py:183-186 | `get_spawn_order`: the per-order pairs sorted by time. Schedules.SpawnOrderSpec states its result. |
| Schedules.SpawnOrderSpec | models.py:183-186 | `get_spawn_order` is a sorted, stable permutation of the per-order pairs. It fails exactly when some order serves no stop. |
| Schedules.TimeOfLastStop | models.py:191-197 | The fold of `max` is not before 00:00 and not before any served stop. It is 00:00 or one of the stops. |
| Trains.ScanFrom | models.py:210-221 | The scan stops only at a served stop that is equal to or later than the time. |
| Trains.FirstReached | models.py:210-221 | The scan finds the first such stop. |
| Trains.ScanFromSkips | models.py:210-221 | The scan skips no such stop. |
| Trains.SettledStop | models.py:216-223 | The stop handed to `set_current_leg` is served and its leg has a non-zero span, whenever advancing cannot fail. |
| Trains.LegPosition | models.py:225-235 | `set_current_leg`'s result: the stop's raw index and the elapsed share of its leg, or 1 without a served next stop. Trains.LegStrictlyInside and Trains.AdvancedFractionRange bound the fraction. |
| Trains.Advanced | models.py:207-223 | The position `advance_to_time` settles on. Trains.AdvanceAtStop, Trains.AdvanceBetweenStops and Trains.AdvancePastLastStop give it case by case. |
| Trains.Train.IsComplete | models.py:237-238 | `is_complete`: the fraction is 1. Trains.AdvancedFractionRange says when that holds. |
| Trains.Train.IsBetweenStops | models.py:240-241 | `is_between_stops`: the fraction lies strictly between 0 and 1. Trains.AdvanceBetweenStops says when that holds. |
| Trains.ServedWithin | ui.py:122-130 | Every served stop indexes the route, which `route[current_leg]` needs. Trains.AdvancedOnRoute uses it. |
| Trains.Train.constructor | models.py:201-205 | A new train stands at leg 0 with fraction 0. |
| Trains.Train.AdvanceToTime | models.py:207-223 | The loop leaves the train at `Advanced(order, t)`. |
| Trains.Train.SetCurrentLeg | models.py:225-235 | The leg is the stop's raw index. The fraction is the elapsed share of the leg, or 1 when no next stop is served. |
| Trains.AdvanceIsIdempotent | models.py:207-235 | Advancing twice to the same time leaves the same position as advancing once. |
| Trains.AdvanceAtStop | models.py:219-235 | At a stop's own time, the train stands at that stop. The fraction is 0, or 1 when no next stop is served. |
| Trains.AdvanceBetweenStops | models.py:216-235 | Strictly between two served stops, the fraction is `(t - a) / (b - a)` and lies strictly between 0 and 1. |
| Trains.FractionInside | models.py:235 | `0 < e < s` gives `0 < e / s < 1`. |
| Trains.AdvancePastLastStop | models.py:222-231 | After every stop, the train is pinned at the last served stop with fraction 1. |
| Trains.SpawnAtFirstStop | models.py:207-223 | At its spawn time, a train stands at its first served stop. |
| Trains.AdvancedOnRoute | models.py:225-226 | The leg a train settles on indexes the route. |
| Trains.PinnedStaysPinned | models.py:222-223 | Once past the last stop, advancing further changes nothing. |
| Trains.SettledIsLastNotLater | models.py:207-223 | On a well-formed order, `advance_to_time(t)` settles on the last served stop whose time is not later than `t`. |
| Trains.AdvanceMonotone | models.py:207-235 | As time advances, a train never moves back: the stop it settles on does not decrease, and on the same stop its fraction does not decrease. |
| Trains.AdvancedFractionRange | models.py:225-241 | The fraction lies in [0, 1]. It is 1 (`is_complete`) exactly when no next stop is served. It is 0 exactly at a stop's own time with a next stop served. |
| Trains.SettledBetweenStops | models.py:216-217 | When the first reached stop is later than `t`, the train is strictly inside the leg before it. |
| Trains.LegStrictlyInside | models.py:232-235 | Strictly between two stops' times, the leg's fraction is strictly between 0 and 1. |
| Trains.SettledBeforeStop | models.py:216-217 | When the first reached stop is later than `t`, the settled stop is the one before it. |
| Trains.ThreeStopExample | models.py:207-235 | On a worked order: half way along the first leg, complete at a stop whose next stop is skipped, and pinned at the last stop. |
| Parsing.DigitValue | script.py:32 | A digit's value is below 10. |
| Parsing.DigitChar | models.py:20 | Printing a digit gives a digit character with that value. |
| Parsing.ParseTime | script.py:25-32 | `--:--` gives None. ValueError exactly when the token does not start with `dd:dd`. Otherwise both fields are two-digit numbers with no range check. |
| Parsing.FormatTime | models.py:19-20 | `__str__` prints the `dd:dd` shape, with `#` past midnight. |
| Parsing.ParseFormatTime | script.py:25-32 | Parsing a printed time gives the time back. |
| Parsing.ParseIgnoresSuffix | script.py:6-28 | Characters after the sixth do not change the result. |
| Parsing.ParseIgnoresUnmatchedRest | script.py:6-28 | When the character after `HH:MM` is not `#`, everything after `HH:MM` is ignored: `08:00x` and `08:00 ` parse as `08:00`. |
| Parsing.ParseAcceptsAnyTwoDigits | script.py:6-32 | `99:75` and `25:00#x` parse unchanged, and `8:00` raises. |
| Parsing.Split | script.py:19 | `split` gives at least one field, none holding the separator, and joining the fields gives the line back. |
| Parsing.SplitJoin | script.py:19 | Splitting a joined list of tab-free fields gives the fields back. |
| Parsing.ParseTimes | script.py:21 | Gives one parsed stop per token, in order. ValueError exactly when some token is malformed. |
| Parsing.ParseOrderFromStr | script.py:18-22 | The id is the first field and the direction is passed through. The stops are the further fields, each parsed by `parse_time`, in order. Parsing fails exactly when a stop token fails. |
| Parsing.ParseOrderRoundTrip | script.py:18-22 | Parsing an order's printed line gives the order back. |
| Parsing.Contains | script.py:10 | `"eastbound" in filename`: the substring occurs at some position. Parsing.ParseSchedule uses it for the direction. |
| Parsing.ParseLines | script.py:14 | Gives one order per line, in order. Fails exactly when some line fails. |
| Parsing.ParseSchedule | script.py:9-15 | The header is skipped and there is one order per remaining line, each parsed from that line. Every order is eastbound exactly when the file name contains `eastbound`. It fails exactly when some line after the header fails to parse. |
| Parsing.FindOrdersForTime | script.py:35-36 | The ids, in order, of the entries whose time equals the search time. Parsing.AtTimeMembers and Parsing.FoundEveryDueId prove that these are exactly the entries with that time. |
| Parsing.SpawnedInScheduleOrder | script.py:35-36 | The ids spawned at `t` are those of the orders whose first stop is `t`, in schedule order. |
| Parsing.AtTimeMembers | script.py:36 | Every selected entry is in the list and has the search time. |
| Parsing.AtTimeComplete | script.py:36 | No entry with the search time is passed over. |
| Parsing.FoundEveryDueId | script.py:35-36 | The id of every entry whose time equals the search time is in the result. |
| Parsing.DueOrderIsFound | script.py:35-36 | Every order of the schedule whose first served stop is at `t` has its id found at `t` in the spawn order, so every train due at `t` spawns. |
| Parsing.FoundIdHasOrder | ui.py:117 | Every id found for `t` belongs to an order whose first served stop is `t`. |
| Parsing.FoundIdLookup | ui.py:117 | `get_order` on a found id cannot raise KeyError. With unique ids, it returns an order that spawns at `t`. |
| Simulations.Fits | ui.py:122-130 | An order fits a route when every served stop is a station of the route (Trains.ServedWithin). |
| Simulations.WithdrawAll | ui.py:118-123 | The yards after one `withdraw_train` per spawned train keep their number. |
| Simulations.StoreAll | ui.py:127-130 | The yards after one `store_train` per retired train keep their number. |
| Simulations.WithdrawAllSnoc | ui.py:118-123 | One more spawned train is one more `withdraw_train`, at its leg's station. |
| Simulations.StoreAllSnoc | ui.py:127-130 | One more retired train is one more `store_train`, at its leg's station. |
| Simulations.WithdrawAllValid | ui.py:118-123 | Withdrawals keep every yard well formed. |
| Simulations.StoreAllValid | ui.py:127-130 | Stores keep every yard well formed. |
| Simulations.AllAdvancedAppend | ui.py:112-121 | Trains advanced to `t` stay advanced when their lists are joined. |
| Simulations.AdvancedTrainsOnRoute | ui.py:123-130 | Advanced trains stand on legs that index the route. |
| Simulations.OrdersOf | ui.py:118-121 | There is one order per train. |
| Simulations.RunningSnoc | ui.py:121 | Appending a new train keeps the trains distinct and on orders that fit the route. |
| Simulations.SpawnedSnoc | ui.py:118-121 | Appending the train for the next order extends the spawned trains' orders and positions. |
| Simulations.SpawnLegs | ui.py:120-123 | There is one spawn leg per new order. |
| Simulations.SpawnLegsOnRoute | ui.py:123 | Every spawn leg indexes the route. |
| Simulations.SpawnLegsSnoc | ui.py:120-123 | The next order adds its advanced leg. |
| Simulations.AllAdvancedOnRoute | ui.py:112-130 | After advancing and spawning, every train and every retired leg is on the route. |
| Simulations.SurvivorsRunningDistinct | ui.py:126-133 | The kept trains are distinct, fit the route, and are not complete. Each was running. |
| Simulations.UpdatedYardsValid | ui.py:118-130 | Spawning and retiring keep every yard count non-negative. |
| Simulations.RetireStep | ui.py:127-132 | A complete train adds one `store_train` at its leg's station. Any other train leaves the yards unchanged. |
| Simulations.RetiredLegsOnRoute | ui.py:130 | Every retired leg indexes the route. |
| Simulations.StationAt | models.py:168-169 | `route[idx]` with Python indexing: the station at `idx`, or at `len + idx` for a negative index. |
| Simulations.Survivors | ui.py:126-133 | `cleaned_trains`: the trains that are not complete, in order. Simulations.SurvivorsMembers, Simulations.SurvivorsRunning and Simulations.SurvivorsAdvanced state its properties. |
| Simulations.RetiredLegs | ui.py:127-130 | The legs of the complete trains, in order, at which the last loop calls `store_train`. Simulations.RetireStep and Simulations.StoreAllSnoc give the stores. |
| Simulations.SurvivorsMembers | ui.py:126-133 | The kept trains are exactly the trains that are not complete. |
| Simulations.SurvivorsRunning | ui.py:126-133 | No kept train is complete, every kept train was running, and each fits the route. |
| Simulations.SurvivorsDistinct | ui.py:126-133 | Dropping trains keeps the rest distinct. |
| Simulations.SurvivorsAdvanced | ui.py:126-133 | The trains kept after advancing to `t` still stand where `advance_to_time(t)` put them. |
| Simulations.GetOrders | ui.py:117 | One order per id, in order: the k-th has the k-th id and is the last order of the schedule with that id. |
| Simulations.SpawnedOrders | ui.py:117 | There is one order per id found for `t`. |
| Simulations.SpawnedOrdersFound | ui.py:117 | The k-th new order belongs to the schedule and has the k-th found id. With unique ids, it spawns at `t`. |
| Simulations.SpawnedOrdersFit | ui.py:117-123 | New orders fit the route when every order of the schedule does. |
| Simulations.Simulation.constructor | ui.py:64-72 | The spawn order is the schedule's, and no train runs. |
| Simulations.Simulation.Reset | ui.py:105-108 | No train runs. |
| Simulations.Simulation.Update | ui.py:110-133 | One train is spawned per order found for `t`, fresh and in order. The yards see every spawn's withdraw and then every retirement's store. The running trains are the old and new trains, all advanced to `t`, minus the complete ones, in order; every running train stands where `advance_to_time(t)` puts it. |
| Simulations.Simulation.SpawnAndRetire | ui.py:116-133 | The spawn loop followed by the retire loop, with the same state as in `Update`. |
| Simulations.Simulation.AdvanceTrains | ui.py:111-113 | Every running train stands where `advance_to_time(t)` puts it. |
| Simulations.Simulation.SpawnTrain | ui.py:119-123 | A new train is advanced to `t` and appended. Its leg's station withdraws one train of the route. |
| Simulations.Simulation.SpawnNext | ui.py:118-123 | One spawn iteration keeps the spawn loop's state. |
| Simulations.Simulation.SpawningStep | ui.py:118-123 | The spawn loop's state extends by one train. |
| Simulations.Simulation.SpawnTrains | ui.py:118-123 | The trains are the old trains followed by one fresh, advanced train per new order. The yards are withdrawn at their legs in order. |
| Simulations.Simulation.RetireNext | ui.py:127-132 | One retire iteration keeps or stores one train. |
| Simulations.Simulation.RetireTrains | ui.py:126-133 | The trains become the survivors, and every complete train is stored at its leg's station, in order. |
| Globals.Earliest | ui.py:144 | Python's `min`: the first element no later element is strictly earlier than. Globals.EarliestIsMin states its result. |
| Globals.Latest | ui.py:146 | Python's `max`: the first element no later element is strictly later than. Globals.LatestIsMax states its result. |
| Globals.FirstSpawns | ui.py:144 | The first spawn time of every child with a non-empty spawn order. Globals.FirstSpawnsMembers states its members. |
| Globals.StartTime | ui.py:144 | `min` over the first spawn times, ValueError when there are none. Globals.StartTimeSpec states its result. |
| Globals.EarliestIsMin | ui.py:144 | `min` returns one of the times, and none is earlier. |
| Globals.LatestIsMax | ui.py:146 | `max` returns one of the times, and none is later. |
| Globals.NotLaterTransitive | ui.py:146 | "Not later than" is transitive. |
| Globals.FirstSpawnsMembers | ui.py:144 | A time is a candidate start exactly when some child's spawn order begins with it. |
| Globals.StartTimeSpec | ui.py:144 | The start time is some child's first spawn, and no child's first spawn is earlier. ValueError exactly when no child spawns. |
| Globals.StartTimeNeedsChildren | ui.py:144 | A start time needs at least one child. |
| Globals.LastStops | ui.py:146 | `get_time_of_last_stop` of every child is not before 00:00 or any of that child's stops. Each is 00:00 or a stop. |
| Globals.EndTimeBounds | ui.py:146 | The max of the last stops is not before 00:00 or any stop of any child, and is 00:00 or a stop. |
| Globals.EndTime | ui.py:146 | The end time is not before 00:00 or any stop of any child, and is 00:00 or a stop, which pins the max. |
| Globals.TickChild | ui.py:174-175 | A child's update spawns one fresh train per order found for `t`. It leaves every running train where `advance_to_time(t)` puts it, and each running train was running before or was just spawned. The yards' new tables are the old ones after one withdrawal per spawn leg and one store per retired leg. The child stays valid and the yards well formed. |
| Globals.ValidFramed | ui.py:174-175 | A child nothing touched stays valid. |
| Globals.GlobalSimulation.constructor | ui.py:139-150 | The clock starts at the start time. The end time is not before 00:00 or any stop, and is 00:00 or a stop. The simulation is not paused. |
| Globals.GlobalSimulation.Update | ui.py:169-183 | Every child is ticked at the old time, so each child's running trains stand where `advance_to_time` of that time puts them. The clock then moves one minute on. While not paused, the next step is another update exactly when the clock has not passed the end time, and `finalize` otherwise. Nothing is scheduled while paused. |
| Globals.GlobalSimulation.ChildrenFramed | ui.py:174-175 | Ticking one child keeps every child valid, keeps the later children able to tick, and leaves no train shared. |
| Globals.GlobalSimulation.TickAll | ui.py:174-175 | Ticking the children in order leaves every child's trains advanced to the current time, keeps the children consistent and the yards well formed. |
| Globals.GlobalSimulation.UpdateChild | ui.py:175 | One child's tick advances that child's trains and leaves the other children's trains alone, so the children ticked before stay advanced. |
| Globals.GlobalSimulation.TickOnly | ui.py:175 | One child's tick changes no other child and none of their trains. |
| Globals.GlobalSimulation.ResetChildren | ui.py:202 | After reset, every child is valid with no running train. |
| Globals.GlobalSimulation.Reset | ui.py:199-205 | The clock returns to the start time, no train runs, and every yard is empty. |

## Left out

- Trains.PinnedStaysPinned: a train keeps its position at later times
  only once it is past its last served stop. A train that is complete at
  a stop whose next stop is skipped moves on at a later time
  (Trains.ThreeStopExample: complete at 08:10 on leg 1, at leg 3 by
  09:00). Update stores and drops such a train in the same tick, so no
  running train is ever advanced from there.
- Drawing is not modelled: the canvas, `draw_train`, station coordinates,
  orientation, colours and text, the clock and summaries on screen,
  `get_summary`, `get_x_y_for_train` and `lerp`. They only render state.
- `play_train_beeps` and the whole sound module are not modelled. They
  produce audio only.
- `uimodels.py` is not part of this model. Its `UITrain` and `UIStorage`
  add only a canvas handle and a station index.
- Timer scheduling with `after` becomes the `Next` value that `Update`
  returns. `finalize`, the GIF prompt, `pause` and `resume` are UI
  callbacks and are left out.
- File reading in `parse_schedules_from_csv` is left out. The file name
  and its lines are parameters.
- `leg_frac` is an exact `real`, not an IEEE float. So `is_complete` is
  exact equality with 1.
- `Station` keeps only its name and its yard. `special`, the coordinates
  and the orientation are left out, and so are `Route.color`,
  `color_as_string` and `__repr__`.
- Trains.CanAdvance and Globals.CanTick are preconditions that stand for
  the source's crash paths, which are not modelled as errors:
  - advancing before the first stop, where the index wraps to -1;
  - a skipped stop before the first later stop, which calls `as_minutes`
    on None;
  - an order with no served stop;
  - equal consecutive stop times, which divide by zero.
- Parsing.FormatTime: prints only hours and minutes of at most two digits,
  which covers every time a timetable line can hold.
- Simulations.Simulation.Update: states yard validity only as "valid
  before, valid after". A count can be created by `withdraw` in any case,
  so validity is a property of the whole table.
- Globals.GlobalSimulation.constructor: requires a start time to exist.
  With no spawning child, Python raises ValueError from `min` of an empty
  list. The constructor also requires the children to share the yards
  consistently, which the module-level set-up in `ui.py` establishes.
- Globals.GlobalSimulation.Update: of each child's tick it states that
  every running train stands where `advance_to_time` puts it. The trains
  spawned and the yards' new tables of each child are stated by
  Simulations.Simulation.Update and Globals.TickChild, and are not
  carried to the global level.
- Simulations.Simulation.constructor: requires `get_spawn_order` to
  succeed. In the source, an order with no served stop makes `__init__`
  raise ValueError (Schedules.SpawnOrderSpec states when). It also
  requires every order of the schedule to fit the route. Fitting means
  every served stop is a station of the route, which the source needs for
  `route[current_leg]`.
- `Time + n` for negative `n` is not normalised: the minute can go
  negative, and the model follows the code (Times.AddNegativeNotNormalised).
- `Schedule.__add__` does not reject duplicate ids. The model follows the
  code: the last order with an id wins (Schedules.GetOrderIsLast).
- `parse_time` matches its pattern at the start of the token only and
  checks no range. The model follows the code (Parsing.ParseIgnoresSuffix,
  Parsing.ParseAcceptsAnyTwoDigits).
- Python object identity is kept through classes:
  - `Train`, `Simulation`, `Yards` and `GlobalSimulation` are objects;
  - several stations share a yard through a yard id rather than an aliased
    object.
