# Charging schedule: a Dafny model

This project models the core of the `tffbs/charging` web API. The API computes a charging schedule for an electric car from one request:

- the starting instant;
- the leaving time;
- the car's battery data (charge power, capacity, current level);
- the user's settings (desired state of charge, direct-charging percentage, daily tariff windows).

The computation has four pieces, and the model keeps them apart:

- **Partition** (`ScheduleService.CreatePossibleTimeSpans`, file `schedule_service.dfy`). It walks from the working start to the deadline. It cuts the time into spans, each priced by the first tariff window, in list order, whose window holds the span's starting time of day.
- **Allocation** (`SetChargingTariffSpans`, files `allocation.dfy`, `allocation_properties.dfy`, `allocation_totals.dfy`). It takes the distinct prices in ascending order and marks spans for charging until the required charging time is placed. It splits at most one span into a charging piece and a non-charging remainder.
- **Merge** (`MergeTimeSpans`, file `merge.dfy`). It joins runs of schedule entries that share the charging flag.
- **Controller** (`GetCharingSchedule`, file `controller.dfy`). It computes:
  - the deadline;
  - the optional direct-charging entry up to the direct-charging percentage;
  - the remaining charging time.

  It then runs the partition and the allocation. Its inline copies of the partition (controller lines 57-79) and of the allocation (lines 90-125) match `ScheduleService.cs` and `SetChargingTariffSpans` step for step, so the model reuses those functions.

Representation:

- Instants (`DateTime`) and durations (`TimeSpan`) are integer ticks of 100 ns.
- A time of day (`TimeOnly`) is the subtype `Clock.TimeOfDay` of ticks since midnight.
- `TimeOnly` subtraction is the forward clock distance (`Clock.ClockDistance`).
- `TimeOnly.IsBetween` includes its start and excludes its end. It wraps past midnight when the start is after the end, and is empty when the two are equal.
- Prices, percentages, kWh and kW are exact `real`s.
- Hours become ticks by truncation toward zero (`Clock.HoursToTicks`).
- The records become immutable datatypes (`entities.dfy`).
- The list mutation of the allocation is a sequence rewrite. The split is modelled as the list calls perform it: insert after the first span equal (by record value) to the marked span, insert again, then remove that span.
- A decimal division by zero becomes `Failure(DivideByZero)`. `First()` on an empty list becomes `Failure(EmptySequence)`.
- The partition loop's exit test depends only on the current instant. A pass that does not move the instant therefore leads to passes that never move it either, and the loop never exits; this becomes `Failure(NonTermination)`.

Where the code and its documentation differ, the model follows the code:

- The allocation does not stop when the target charge is already reached. If the partition has a span at the cheapest price, the first such span is still charged, whole (`Controller.AtTargetStillCharges`). Without such a span, the outer check stops the loop and nothing is charged.
- After an exact fit, the scan marks the next idle span at the same price as well, if one follows in list order (`AllocationTotals.ExactFitChargesOneMore`). When none follows, the outer check stops the loop and no extra span is charged (`AllocationTotals.ExactFitAtTierEnd`). `AllocationTotals.ExactFitCharges` states both outcomes for all inputs.
- The deadline is the starting instant plus the leaving time read as a duration, not the next time the clock shows the leaving time (`Controller.DeadlineTimeOfDay`).
- There is no early return for empty tariffs. Without tariffs the partition loop never exits when there is time before the deadline (`ScheduleService.NoTariffsSpin`).
- The controller applies no merge to its answer.
- There is no single-price shortcut and no flag for demand left unmet.
- The comment at controller line 67 says that `IsBetween` is false for a window from 23:00 to 2:00. The .NET implementation wraps around midnight, and so does `Clock.IsBetween`.
- A window from midnight to midnight ("00:00" to "00:00"), the only way to write a whole day with one window, never lets the loop move on (`ScheduleService.MidnightToMidnightSpins`).

## Model

| member | source | states |
|---|---|---|
| `Clock.TimeOfDayOf` | WebApi/Services/ScheduleService.cs:18 | the time of day differs from the instant by whole days |
| `Clock.ClockDistance` | WebApi/Services/ScheduleService.cs:27 | `end - currentTime` is the forward distance around the clock: below a day, landing on `end`, zero only when the two times are equal |
| `Clock.IsBetween` | WebApi/Services/ScheduleService.cs:25 | a time is inside a window exactly when, going forward from the start, it comes before the end; an empty window holds nothing |
| `Clock.HoursToTicks` | WebApi/Controllers/ChargingScheduleController.cs:40 | hours become whole ticks truncated toward zero: within one tick of the exact value, on the side of zero |
| `Entities.AsSchedule` | WebApi/Controllers/ChargingScheduleController.cs:127 | one schedule entry per tariff span, in order, with its start, end and charging flag |
| `ScheduleService.FirstMatch` | WebApi/Services/ScheduleService.cs:20-25 | the `foreach` stops at the first tariff in list order whose window starts at or holds the time of day; none when no tariff does |
| `ScheduleService.NextStart` | WebApi/Services/ScheduleService.cs:27-31 | one pass moves the instant to the earlier of the matched window's end and the deadline, and leaves it unchanged when no window matches; it moves exactly when a matching window ends at another time of day |
| `ScheduleService.CreatePossibleTimeSpans` | WebApi/Services/ScheduleService.cs:12-38 | at or past the deadline the result is empty; otherwise the spans start at the working start, each starts where the previous one ends, none ends after the deadline, the last ends at it, each has positive length, is idle, and is priced by the first matching tariff; it fails, with `NonTermination`, only when the window has no such partition |
| `ScheduleService.PrependToPartition` | WebApi/Services/ScheduleService.cs:29-31 | the span one pass adds, before a partition of the rest of the time, is a partition of the whole time |
| `ScheduleService.PartitionTail` | WebApi/Services/ScheduleService.cs:16-35 | any partition of a non-empty window starts with the span one pass produces, and the rest partitions the window from where that pass moves on |
| `ScheduleService.PartitionUnique` | WebApi/Services/ScheduleService.cs:16-35 | a window has at most one partition |
| `ScheduleService.PartitionFound` | WebApi/Services/ScheduleService.cs:16-35 | whenever the window has a partition, the loop exits and returns exactly that partition |
| `ScheduleService.StalledHasNoPartition` | WebApi/Services/ScheduleService.cs:16-31 | a pass that does not move the instant before the deadline leaves the window without a partition |
| `ScheduleService.NoPartitionFromNext` | WebApi/Services/ScheduleService.cs:16-35 | without a partition from where one pass moves on, there is none from the current instant |
| `ScheduleService.CoveringWindowAdvances` | WebApi/Services/ScheduleService.cs:25-27 | a matching window moves the loop on exactly when its start and end differ |
| `ScheduleService.CoverageGivesProgress` | WebApi/Services/ScheduleService.cs:16-35 | tariffs that cover every time of day, none from a time to the same time, let every pass move on |
| `ScheduleService.CoveredPartitionSucceeds` | WebApi/Services/ScheduleService.cs:16-35 | when every pass moves on, the loop exits |
| `ScheduleService.MidnightToMidnightSpins` | WebApi/Services/ScheduleService.cs:25-31 | a single window from midnight to midnight never lets the loop move on |
| `ScheduleService.NoTariffsSpin` | WebApi/Services/ScheduleService.cs:16-20 | without tariffs the loop never exits when there is time before the deadline, and returns nothing otherwise |
| `ScheduleService.PartialCoverageSucceeds` | WebApi/Services/ScheduleService.cs:16-35 | a tariff from 00:00 to 08:00 alone prices a window from midnight to 07:00 as one span: tariffs need not cover the whole day |
| `ScheduleService.PartitionPricesAreTariffPrices` | WebApi/Services/ScheduleService.cs:29 | every span's price is one of the tariffs' prices |
| `Allocation.IndexOf` | WebApi/ExtensionMethods/ChargingScheduleExtensionMethods.cs:57 | `List.IndexOf` is the position of the first equal element, or -1 exactly when there is none |
| `Allocation.ReplaceInPlace` | WebApi/ExtensionMethods/ChargingScheduleExtensionMethods.cs:57-59 | Insert after the first equal span, Insert after the charging piece, then Remove: the two pieces take that span's place and nothing else moves |
| `Allocation.SplitSpanIsListSteps` | WebApi/ExtensionMethods/ChargingScheduleExtensionMethods.cs:52-59 | the split the scan uses is exactly what the three list calls do with the pieces built at lines 52-55 |
| `Allocation.ScanTier` | WebApi/ExtensionMethods/ChargingScheduleExtensionMethods.cs:36-62 | a scan of one tier keeps the spans or adds exactly one, and adding one leaves no charging time |
| `Allocation.ScanTierFlags` | WebApi/ExtensionMethods/ChargingScheduleExtensionMethods.cs:38-40 | a scan that splits nothing only turns idle spans at the tier's price into charging spans |
| `Allocation.SplitSpan` | WebApi/ExtensionMethods/ChargingScheduleExtensionMethods.cs:52-59 | at the first span equal to the marked one, a charging piece of exactly the remaining time from the span's start is followed by an idle remainder to the span's end, both at its price; the spans before and after are unchanged |
| `Allocation.AllocateTiers` | WebApi/ExtensionMethods/ChargingScheduleExtensionMethods.cs:34-66 | the loop over the tiers keeps the spans or adds exactly one, and adding one leaves no charging time |
| `Allocation.AllocateTiersFlags` | WebApi/ExtensionMethods/ChargingScheduleExtensionMethods.cs:34-40 | across all tiers, without a split, only idle spans at a tier's price become charging |
| `Allocation.SetChargingTariffSpans` | WebApi/ExtensionMethods/ChargingScheduleExtensionMethods.cs:30-67 | the result has the input's length or one more; with the input's length it only marks idle spans at tier prices |
| `AllocationProperties.IndexOfChronological` | WebApi/ExtensionMethods/ChargingScheduleExtensionMethods.cs:57 | in spans that are in time order, `IndexOf` of a span finds its own position |
| `AllocationProperties.SplitPlaces` | WebApi/ExtensionMethods/ChargingScheduleExtensionMethods.cs:57-59 | when the span is the first equal to itself, its pieces land at its position and the next one, and every later span shifts by one |
| `AllocationProperties.ScanTierShape` | WebApi/ExtensionMethods/ChargingScheduleExtensionMethods.cs:36-61 | a scan that adds a span has split exactly one idle span at a tier price into a charging piece from its start and an idle remainder to its end, in place |
| `AllocationProperties.AllocateTiersShape` | WebApi/ExtensionMethods/ChargingScheduleExtensionMethods.cs:34-66 | the same, across all tiers |
| `AllocationProperties.AllocationShape` | WebApi/ExtensionMethods/ChargingScheduleExtensionMethods.cs:52-61 | on spans in time order, the result only marks spans at tier prices, or also splits exactly one such span in place |
| `AllocationProperties.SplitKeepsTimeline` | WebApi/ExtensionMethods/ChargingScheduleExtensionMethods.cs:52-55 | a split keeps the first start, the last end, the time order and the absence of gaps |
| `AllocationProperties.AllocationKeepsTimeline` | WebApi/ExtensionMethods/ChargingScheduleExtensionMethods.cs:30-67 | the result covers the same time as the input, in time order, and without gaps when the input had none |
| `AllocationProperties.ScanTierLevel` | WebApi/ExtensionMethods/ChargingScheduleExtensionMethods.cs:36-61 | a scan at price p, on spans where charging ones cost at most p and idle ones at least p, keeps that so |
| `AllocationProperties.ScanTierMarksTier` | WebApi/ExtensionMethods/ChargingScheduleExtensionMethods.cs:36-47 | a scan that leaves charging time over has marked every span at its price |
| `AllocationProperties.TierIsLevel` | WebApi/Controllers/ChargingScheduleController.cs:82 | with ascending tiers, when exactly the spans below tier i charge, tier i separates charging spans from idle ones |
| `AllocationProperties.NextTierCharging` | WebApi/ExtensionMethods/ChargingScheduleExtensionMethods.cs:34-40 | a scan of tier i that charges every span at its price moves the boundary to tier i + 1 |
| `AllocationProperties.AllocateTiersCheapestFirst` | WebApi/ExtensionMethods/ChargingScheduleExtensionMethods.cs:34-66 | from any tier on, with exactly the cheaper tiers charging, the result has no idle span cheaper than a charging one |
| `AllocationProperties.AllocationIsCheapestFirst` | WebApi/ExtensionMethods/ChargingScheduleExtensionMethods.cs:34-38 | with strictly ascending tiers holding every span's price, and nothing charging beforehand, no idle span is cheaper than a charging one |
| `AllocationTotals.FlaggedAllMovesTime` | WebApi/ExtensionMethods/ChargingScheduleExtensionMethods.cs:40 | marking spans moves their time from on offer to charging, and the sum of the two stays the same |
| `AllocationTotals.SplitSpanCharges` | WebApi/ExtensionMethods/ChargingScheduleExtensionMethods.cs:52-59 | splitting a charging span leaves exactly `remaining` charging in its place |
| `AllocationTotals.ScanTierConserves` | WebApi/ExtensionMethods/ChargingScheduleExtensionMethods.cs:40-61 | while time remains, or after a split, the time charged plus the time left to place stays what it was |
| `AllocationTotals.AllocateTiersConserves` | WebApi/ExtensionMethods/ChargingScheduleExtensionMethods.cs:34-66 | the same, across all tiers |
| `AllocationTotals.SplitChargesExactly` | WebApi/ExtensionMethods/ChargingScheduleExtensionMethods.cs:52-60 | when a span is split, exactly the required charging time is added |
| `AllocationTotals.MarkMovesTime` | WebApi/ExtensionMethods/ChargingScheduleExtensionMethods.cs:40-46 | marking an idle span at the tier's price adds its length to the time charged and takes it from the time on offer |
| `AllocationTotals.ScanTierAllFit` | WebApi/ExtensionMethods/ChargingScheduleExtensionMethods.cs:36-47 | when the time to place covers everything on offer at the price, the scan charges every such span, splits nothing, and uses exactly that time |
| `AllocationTotals.TierFitStep` | WebApi/ExtensionMethods/ChargingScheduleExtensionMethods.cs:34-40 | after such a scan, every span at the tiers so far is charging, and the time moved is the time that was on offer |
| `AllocationTotals.AllocateTiersAllFit` | WebApi/ExtensionMethods/ChargingScheduleExtensionMethods.cs:34-66 | the same, across all tiers |
| `AllocationTotals.AllFitChargesEverything` | WebApi/ExtensionMethods/ChargingScheduleExtensionMethods.cs:44-47 | when everything on offer fits, every span at a tier price is charged, nothing is split, nothing else changes, and the added time is exactly the time on offer |
| `AllocationTotals.ScanSkips` | WebApi/ExtensionMethods/ChargingScheduleExtensionMethods.cs:36-38 | spans already charging or at another price are passed over unchanged |
| `AllocationTotals.ExhaustedStillFlagsOne` | WebApi/ExtensionMethods/ChargingScheduleExtensionMethods.cs:40-50 | with no time left to place, the first idle span at the cheapest price is still marked, whole, and the loop stops there |
| `AllocationTotals.ExactFitChargesOneMore` | WebApi/ExtensionMethods/ChargingScheduleExtensionMethods.cs:44-50 | two equal spans at one price and exactly one span's length to place: both are charged, twice the time asked for |
| `AllocationTotals.ExactFitAtTierEnd` | WebApi/ExtensionMethods/ChargingScheduleExtensionMethods.cs:44-65 | an exact fit on the last span of its price leaves the span at the next price idle: the outer check at line 65 stops the loop, and only the time asked for is charged |
| `AllocationTotals.ScanTierExact` | WebApi/ExtensionMethods/ChargingScheduleExtensionMethods.cs:36-62 | a scan that splits nothing either moves the time it used from the remaining time to charging, marking every span at its price, or uses the time up exactly and then marks one more idle span at its price, whole |
| `AllocationTotals.AllocateTiersExact` | WebApi/ExtensionMethods/ChargingScheduleExtensionMethods.cs:34-66 | the same two outcomes across all tiers; when time is left at the end, every span at a tier price is charging |
| `AllocationTotals.ExactFitCharges` | WebApi/ExtensionMethods/ChargingScheduleExtensionMethods.cs:34-66 | when the time on offer covers a positive charging time and nothing is split, the charging time placed is the time asked for, or that plus one whole idle span: the first one at its tier after every cheaper tier and the earlier spans of its own tier have used the time up exactly |
| `Merge.Collapse` | WebApi/ExtensionMethods/ChargingScheduleExtensionMethods.cs:12-24 | joining runs gives no more entries than the input, none only for no input, the same first start, last end and last flag |
| `Merge.MergeTimeSpans` | WebApi/ExtensionMethods/ChargingScheduleExtensionMethods.cs:7-28 | an empty schedule fails in `First()`; a schedule of one entry comes back empty; a longer one comes back with its runs joined |
| `Merge.SingleSpanLost` | WebApi/ExtensionMethods/ChargingScheduleExtensionMethods.cs:12-24 | a single entry joined with nothing is itself, which the loop as written does not return |
| `Merge.CollapseAlternates` | WebApi/ExtensionMethods/ChargingScheduleExtensionMethods.cs:14-22 | neighbouring entries of the merge differ in their charging flag |
| `Merge.CollapseKeepsContiguous` | WebApi/ExtensionMethods/ChargingScheduleExtensionMethods.cs:14-16 | a gap-free schedule stays gap-free |
| `Merge.CollapseKeepsOrdered` | WebApi/ExtensionMethods/ChargingScheduleExtensionMethods.cs:14-16 | on a gap-free schedule, entries that start no later than they end still do after the merge |
| `Merge.CollapseKeepsFlags` | WebApi/ExtensionMethods/ChargingScheduleExtensionMethods.cs:14-22 | merging changes nothing about which instants are charging, idle or outside the schedule |
| `Merge.CollapseOfAlternating` | WebApi/ExtensionMethods/ChargingScheduleExtensionMethods.cs:14-22 | a schedule whose neighbours already differ in flag is its own merge |
| `Merge.CollapseIdempotent` | WebApi/ExtensionMethods/ChargingScheduleExtensionMethods.cs:12-24 | merging twice is merging once |
| `Controller.InsertPrice` | WebApi/Controllers/ChargingScheduleController.cs:82 | inserting a price into strictly ascending prices keeps them strictly ascending and adds just that price |
| `Controller.PriceTiers` | WebApi/Controllers/ChargingScheduleController.cs:82 | `Distinct().Order()` of the tariff prices: strictly ascending, and holding exactly the tariffs' prices |
| `Controller.AscendingUnique` | WebApi/Controllers/ChargingScheduleController.cs:82 | strictly ascending sequences with the same elements are equal, so the prices and the order determine the tiers |
| `Controller.DeadlineTimeOfDay` | WebApi/Controllers/ChargingScheduleController.cs:25-26 | the deadline falls at the leaving time of day exactly when the request starts at midnight |
| `Controller.Deadline` | WebApi/Controllers/ChargingScheduleController.cs:25-26 | the deadline lies the leaving time after the starting instant: the leaving time is read as a duration, not as a time of day |
| `Controller.ChargePercentage` | WebApi/Controllers/ChargingScheduleController.cs:29 | the percentage times the capacity is the level times 100 |
| `Controller.DirectHours` | WebApi/Controllers/ChargingScheduleController.cs:35-38 | direct hours times the power, added to the level, is the direct-charging percentage of the capacity |
| `Controller.RemainingHours` | WebApi/Controllers/ChargingScheduleController.cs:84 | remaining hours times the power is the energy missing from the percentage up to the desired state of charge |
| `Controller.RemainingTicks` | WebApi/Controllers/ChargingScheduleController.cs:84-85 | the remaining charging time in ticks is the remaining hours truncated toward zero: within one tick of the exact value, on the side of zero |
| `Controller.DirectCharge` | WebApi/Controllers/ChargingScheduleController.cs:29-48 | a zero capacity divides by zero; below the direct-charging percentage a charging entry runs from the starting time for the direct hours, the working start is its end, and the percentage becomes the direct one; otherwise nothing changes |
| `Controller.PlanCharging` | WebApi/Controllers/ChargingScheduleController.cs:21-125 | a zero capacity divides by zero; a zero charge power always fails; success means both are non-zero |
| `Controller.Schedule` | WebApi/Controllers/ChargingScheduleController.cs:47-127 | the answer is the direct entry, if any, followed by one entry per tariff span in order, each with the span's start, end and charging flag; no merge is applied |
| `Controller.GetChargingSchedule` | WebApi/Controllers/ChargingScheduleController.cs:17-130 | a zero capacity always divides by zero, a zero charge power always fails, and with both non-zero it fails, with `NonTermination`, exactly when the partition loop never exits, which happens only when the window from the working start to the deadline has no partition; a successful schedule is gap-free from the starting time and ends at the deadline when the direct step leaves time before it, and is otherwise the direct entry alone, which may end after the deadline |
| `Controller.ListedIsWindow` | WebApi/Services/ScheduleService.cs:29-31 | the time on offer in a gap-free run of idle spans at tier prices is its whole length |
| `Controller.PossibleSpans` | WebApi/Controllers/ChargingScheduleController.cs:52-90 | a successful plan partitions the time from the working start to the deadline, allocates those spans at the tiers, and every span's price is a tier |
| `Controller.PlanTimeline` | WebApi/Controllers/ChargingScheduleController.cs:47-127 | a direct entry up to the working start, then the allocated partition, forms a gap-free schedule from the start to the deadline |
| `Controller.TailTimeline` | WebApi/Controllers/ChargingScheduleController.cs:90-127 | the entries of the allocated partition are gap-free and run from the working start to the deadline |
| `Controller.PrependEntry` | WebApi/Controllers/ChargingScheduleController.cs:47-127 | an entry that ends where a gap-free schedule starts keeps it gap-free |
| `Controller.DirectThenTail` | WebApi/Controllers/ChargingScheduleController.cs:47-127 | the direct entry followed by a gap-free tail over the rest of the window is gap-free, from the direct entry's start to the deadline |
| `Controller.DirectEntryLeads` | WebApi/Controllers/ChargingScheduleController.cs:32-47 | below the direct-charging percentage the answer opens with a charging entry from the starting time for the direct hours, followed by the entries of the allocated tariff spans; at or above it the answer is the tariff spans alone |
| `Controller.CoveredScheduleSucceeds` | WebApi/Controllers/ChargingScheduleController.cs:55-79 | with a non-zero capacity and power, and tariffs that let every pass move on, the action always answers |
| `Controller.ScheduleIsCheapestFirst` | WebApi/Controllers/ChargingScheduleController.cs:82-125 | no idle tariff span is cheaper than a charging one |
| `Controller.ScheduleChargingTime` | WebApi/Controllers/ChargingScheduleController.cs:84-125 | a split adds exactly the remaining charging time; when the remaining time covers the window up to the deadline, every tariff span charges and none is split |
| `Controller.PartitionChargingTime` | WebApi/Controllers/ChargingScheduleController.cs:90-125 | the same, for any partition whose spans are idle and priced at the tiers |
| `Controller.AtTargetStillCharges` | WebApi/Controllers/ChargingScheduleController.cs:84-108 | at or above the desired state of charge the first span at the cheapest price is still charged, whole, and nothing else changes |

## Left out

- HTTP routing, request binding and the controller's constructor: transport plumbing with no schedule logic.
- `TimeSpan.Parse` and `TimeOnly.Parse` of "HH:mm" strings: times of day and the leaving time arrive already parsed as ticks. A malformed string, which would throw, is not modelled.
- The `decimal` to `double` casts before `AddHours` and `TimeSpan.FromHours`: conversions are exact on reals and then truncated to ticks. Double rounding is not modelled.
- The 28-digit precision and rounding of `decimal` arithmetic: prices and energies are exact reals.
- The `OverflowException` of `decimal` arithmetic past its range, at controller lines 29, 35-38 and 84 (for instance with a tiny capacity or charge power): exact reals have no range, so these quotients never fail in the model.
- The `OverflowException` of `TimeSpan.FromHours` at controller line 85 for hours beyond the `TimeSpan` range: `Controller.RemainingTicks` converts any number of hours.
- `DateTime` range limits, calendar and time zones: instants are unbounded integers. An `AddHours` or `Add` that would overflow the `DateTime` range, and throw, is not modelled.
- `Clock.HoursToTicks`: stated with the truncation of .NET 7 and later. Older runtimes round `TimeSpan.FromHours` to whole milliseconds.
- `Merge.MergeTimeSpans`: the entries it returns are the input's own records, and it writes `EndTime` on them in place. The model returns new values and leaves the input unchanged. The values returned are the same either way.
- `ScheduleService.CreatePossibleTimeSpans`: a loop that never exits is reported as `Failure(NonTermination)` rather than running forever. When the stalled pass matches a window whose start equals its end at the current time of day, the source also appends a zero-length span on every pass, so its list grows until the process runs out of memory. The model does not keep that growing list; only when no window matches is the source's loop a pure spin.
- The duplicate record definitions in `WebApi/Entities/Request.cs` and `WebApi/Model/*.cs` have the same shapes, so one set of datatypes serves both.
- An exception from changing the list during the allocation's `foreach` is never reached, because the loop breaks right after the split. It is not modelled.

## Findings

| source | as written | input that shows it | evidently intended | confidence | as-written member | corrected member |
|---|---|---|---|---|---|---|
| WebApi/ExtensionMethods/ChargingScheduleExtensionMethods.cs:12-24 | the loop body that adds the last run runs only for `i >= 1`, so a schedule of one entry is never added | a schedule with a single entry returns an empty list | a single entry is its own merge and is returned unchanged | not executed | `Merge.MergeTimeSpans`, `Merge.SingleSpanLost` | `Merge.Collapse` |
