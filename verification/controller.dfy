/** GetCharingSchedule: the controller action that computes a schedule from a request.
    It charges directly up to the direct-charging percentage, cuts the rest of the time
    until the deadline into tariff spans, and marks the cheapest of them for charging. */
module Controller {
  import opened Wrappers
  import opened Sums
  import opened Clock
  import opened Entities
  import opened ScheduleService
  import opened Allocation
  import opened AllocationProperties
  import opened AllocationTotals

  lemma PrependAscending(x: real, r: seq<real>)
    requires StrictlyAscending(r)
    requires forall y :: y in r ==> x < y
    ensures StrictlyAscending([x] + r)
  {
    var t := [x] + r;
    forall a, b | 0 <= a < b < |t| ensures t[a] < t[b] {
      assert t[b] == r[b - 1];
      if a > 0 {
        assert t[a] == r[a - 1];
      } else {
        assert r[b - 1] in r;
      }
    }
  }

  /** Inserting a price into strictly ascending prices keeps them strictly ascending and
      adds just that price. */
  function InsertPrice(tiers: seq<real>, p: real): (r: seq<real>)
    requires StrictlyAscending(tiers)
    ensures StrictlyAscending(r)
    ensures forall x :: x in r <==> x in tiers || x == p
    decreases |tiers|
  {
    if |tiers| == 0 then [p]
    else if p < tiers[0] then
      assert forall x :: x in tiers ==> p < x by {
        forall x | x in tiers ensures p < x {
          var k :| 0 <= k < |tiers| && tiers[k] == x;
          assert k == 0 || tiers[0] < tiers[k];
        }
      }
      PrependAscending(p, tiers);
      [p] + tiers
    else if p == tiers[0] then tiers
    else
      var tail := tiers[1..];
      assert StrictlyAscending(tail);
      var rest := InsertPrice(tail, p);
      assert forall x :: x in rest ==> tiers[0] < x by {
        forall x | x in rest ensures tiers[0] < x {
          if x != p {
            var k :| 0 <= k < |tail| && tail[k] == x;
            assert tiers[k + 1] == x;
          }
        }
      }
      PrependAscending(tiers[0], rest);
      assert tiers == [tiers[0]] + tail;
      [tiers[0]] + rest
  }

  lemma TariffPriceFirstOrRest(tariffs: seq<Tariff>, p: real)
    requires |tariffs| > 0
    ensures IsTariffPrice(tariffs, p) <==> tariffs[0].energyPrice == p || IsTariffPrice(tariffs[1..], p)
  {
    if IsTariffPrice(tariffs, p) && tariffs[0].energyPrice != p {
      var k :| 0 <= k < |tariffs| && tariffs[k].energyPrice == p;
      assert tariffs[1..][k - 1] == tariffs[k];
    }
    if IsTariffPrice(tariffs[1..], p) {
      var k :| 0 <= k < |tariffs[1..]| && tariffs[1..][k].energyPrice == p;
      assert tariffs[k + 1] == tariffs[1..][k];
    }
  }

  /** `Select(t => t.EnergyPrice).Distinct().Order()`: the tariff prices, each once, in
      ascending order. */
  function PriceTiers(tariffs: seq<Tariff>): (r: seq<real>)
    ensures StrictlyAscending(r)
    ensures forall p :: p in r <==> IsTariffPrice(tariffs, p)
    decreases |tariffs|
  {
    if |tariffs| == 0 then []
    else
      var rest := PriceTiers(tariffs[1..]);
      assert forall p :: IsTariffPrice(tariffs, p) <==> tariffs[0].energyPrice == p || IsTariffPrice(tariffs[1..], p) by {
        forall p ensures IsTariffPrice(tariffs, p) <==> tariffs[0].energyPrice == p || IsTariffPrice(tariffs[1..], p) {
          TariffPriceFirstOrRest(tariffs, p);
        }
      }
      InsertPrice(rest, tariffs[0].energyPrice)
  }

  /** In strictly ascending prices the first is the smallest, and the rest are the
      others. */
  lemma AscendingHead(a: seq<real>, x: real)
    requires StrictlyAscending(a) && |a| > 0
    ensures x in a ==> a[0] <= x
    ensures x in a[1..] <==> x in a && x != a[0]
  {
    if x in a {
      var k :| 0 <= k < |a| && a[k] == x;
      if k > 0 {
        assert a[1..][k - 1] == x;
      }
    }
    if x in a[1..] {
      var k :| 0 <= k < |a[1..]| && a[1..][k] == x;
      assert a[k + 1] == x;
    }
  }

  /** Strictly ascending sequences with the same elements are equal, so the contract of
      PriceTiers determines its result. */
  lemma {:induction false} AscendingUnique(a: seq<real>, b: seq<real>)
    requires StrictlyAscending(a) && StrictlyAscending(b)
    requires forall x :: x in a <==> x in b
    ensures a == b
    decreases |a|
  {
    if |a| > 0 {
      assert a[0] in a;
    }
    if |b| > 0 {
      assert b[0] in b;
    }
    if |a| > 0 && |b| > 0 {
      AscendingHead(a, b[0]);
      AscendingHead(b, a[0]);
      forall x ensures x in a[1..] <==> x in b[1..] {
        AscendingHead(a, x);
        AscendingHead(b, x);
      }
      assert StrictlyAscending(a[1..]) && StrictlyAscending(b[1..]);
      AscendingUnique(a[1..], b[1..]);
      assert a == [a[0]] + a[1..] && b == [b[0]] + b[1..];
    }
  }

  /** `StartingTime.Add(TimeSpan.Parse(LeavingTime))`: the leaving time is read as a
      duration added to the request's starting instant. */
  function Deadline(req: Request): (r: int)
    ensures r - req.startingTime == req.userSettings.leavingTime
  {
    req.startingTime + req.userSettings.leavingTime
  }

  lemma ModOfShift(q: int, x: int)
    requires 0 <= x < TicksPerDay
    ensures (q * TicksPerDay + x) % TicksPerDay == x
  {
  }

  /** The deadline falls at the leaving time of day exactly when the request starts at
      midnight; from any other starting time it falls elsewhere in the day. */
  lemma DeadlineTimeOfDay(req: Request)
    requires 0 <= req.userSettings.leavingTime < TicksPerDay
    ensures TimeOfDayOf(Deadline(req)) == req.userSettings.leavingTime <==> TimeOfDayOf(req.startingTime) == 0
  {
    var s, l := req.startingTime, req.userSettings.leavingTime;
    var q, m := s / TicksPerDay, s % TicksPerDay;
    assert s + l == q * TicksPerDay + (m + l);
    if m + l < TicksPerDay {
      ModOfShift(q, m + l);
    } else {
      assert s + l == (q + 1) * TicksPerDay + (m + l - TicksPerDay);
      ModOfShift(q + 1, m + l - TicksPerDay);
    }
  }

  /** `CurrentBatteryLevel / BatteryCapacity * 100`: the battery level in percent. */
  function ChargePercentage(car: CarData): (r: real)
    requires car.batteryCapacity != 0.0
    ensures r * car.batteryCapacity == car.currentBatteryLevel * 100.0
  {
    car.currentBatteryLevel / car.batteryCapacity * 100.0
  }

  /** The hours of direct charging: the energy missing up to the direct-charging
      percentage, divided by the charge power. */
  function DirectHours(req: Request): (r: real)
    requires req.carData.chargePower != 0.0
    ensures r * req.carData.chargePower + req.carData.currentBatteryLevel ==
      req.userSettings.directChargingPercentage as real / 100.0 * req.carData.batteryCapacity
  {
    var car := req.carData;
    (req.userSettings.directChargingPercentage as real / 100.0 * car.batteryCapacity - car.currentBatteryLevel) / car.chargePower
  }

  /** The hours of charging still needed from `percentage` up to the desired state of
      charge: the energy missing, divided by the charge power. */
  function RemainingHours(req: Request, percentage: real): (r: real)
    requires req.carData.chargePower != 0.0
    ensures r * req.carData.chargePower ==
      (req.userSettings.desiredStateOfCharge as real - percentage) / 100.0 * req.carData.batteryCapacity
  {
    (req.userSettings.desiredStateOfCharge as real - percentage) / 100.0 * req.carData.batteryCapacity / req.carData.chargePower
  }

  /** The outcome of the direct-charging step: the direct entry, if any, the instant the
      tariff spans start from, and the battery percentage from there on. */
  datatype DirectStep = DirectStep(span: Option<ChargingTimeSpan>, workingStart: int, percentage: real)

  /** The direct-charging step. Below the direct-charging percentage the car charges
      from the starting time until that percentage is reached; otherwise nothing
      happens. A zero capacity, or a zero charge power when direct charging is needed,
      divides by zero. */
  function DirectCharge(req: Request): (r: Result<DirectStep, Error>)
    ensures req.carData.batteryCapacity == 0.0 ==> r == Failure(DivideByZero)
    ensures r.Failure? ==> r.error == DivideByZero
    ensures r.Success? ==> req.carData.batteryCapacity != 0.0
    ensures r.Success? ==> (r.value.span.Some? <==>
      ChargePercentage(req.carData) < req.userSettings.directChargingPercentage as real)
    ensures r.Success? && r.value.span.Some? ==>
      && req.carData.chargePower != 0.0
      && r.value.span.value == ChargingTimeSpan(req.startingTime, r.value.workingStart, true)
      && r.value.workingStart == req.startingTime + HoursToTicks(DirectHours(req))
      && r.value.percentage == req.userSettings.directChargingPercentage as real
    ensures r.Success? && r.value.span.None? ==>
      r.value.workingStart == req.startingTime && r.value.percentage == ChargePercentage(req.carData)
  {
    var car := req.carData;
    if car.batteryCapacity == 0.0 then Failure(DivideByZero)
    else
      var percentage := ChargePercentage(car);
      var direct := req.userSettings.directChargingPercentage as real;
      if percentage < direct then
        if car.chargePower == 0.0 then Failure(DivideByZero)
        else
          var end := req.startingTime + HoursToTicks(DirectHours(req));
          Success(DirectStep(Some(ChargingTimeSpan(req.startingTime, end, true)), end, direct))
      else Success(DirectStep(None, req.startingTime, percentage))
  }

  /** The charging time still to place, in whole ticks: the remaining hours converted
      with truncation toward zero, so it is never more than a tick away from them and
      never negative when they are not. */
  function RemainingTicks(req: Request, percentage: real): (r: int)
    requires req.carData.chargePower != 0.0
    ensures var exact := RemainingHours(req, percentage) * TicksPerHour as real;
      && (exact >= 0.0 ==> 0 <= r && r as real <= exact < r as real + 1.0)
      && (exact < 0.0 ==> r <= 0 && r as real - 1.0 < exact <= r as real)
  {
    HoursToTicks(RemainingHours(req, percentage))
  }

  /** What the controller computes before building its answer: the direct entry, if
      any, and the tariff spans with the ones chosen for charging marked. */
  datatype Plan = Plan(direct: Option<ChargingTimeSpan>, spans: seq<TariffTimeSpan>)

  /** The controller body up to the allocation. Errors, in the order the body meets them:
      a zero capacity; a zero charge power in the direct step; a partition loop that
      never exits; a zero charge power in the remaining-time formula. */
  function PlanCharging(req: Request): (r: Result<Plan, Error>)
    ensures req.carData.batteryCapacity == 0.0 ==> r == Failure(DivideByZero)
    ensures req.carData.chargePower == 0.0 ==> r.Failure?
    ensures r.Success? ==> req.carData.batteryCapacity != 0.0 && req.carData.chargePower != 0.0
  {
    match DirectCharge(req)
    case Failure(e) => Failure(e)
    case Success(step) =>
      var tariffs := req.userSettings.tariffs;
      match CreatePossibleTimeSpans(tariffs, step.workingStart, Deadline(req))
      case Failure(e) => Failure(e)
      case Success(possible) =>
        if req.carData.chargePower == 0.0 then Failure(DivideByZero)
        else
          var tiers := PriceTiers(tariffs);
          var remaining := RemainingTicks(req, step.percentage);
          Success(Plan(step.span, SetChargingTariffSpans(possible, tiers, remaining)))
  }

  /** The answer: the direct entry, if any, then one entry per tariff span, in order. */
  function Schedule(plan: Plan): (r: seq<ChargingTimeSpan>)
    ensures |r| == |plan.spans| + (if plan.direct.Some? then 1 else 0)
    ensures plan.direct.Some? ==> r[0] == plan.direct.value
    ensures plan.direct.Some? ==> forall i :: 0 <= i < |plan.spans| ==>
      r[i + 1] == ChargingTimeSpan(plan.spans[i].startTime, plan.spans[i].endTime, plan.spans[i].isCharging)
    ensures plan.direct.None? ==> forall i :: 0 <= i < |plan.spans| ==>
      r[i] == ChargingTimeSpan(plan.spans[i].startTime, plan.spans[i].endTime, plan.spans[i].isCharging)
  {
    if plan.direct.Some? then [plan.direct.value] + AsSchedule(plan.spans) else AsSchedule(plan.spans)
  }

  /** GetCharingSchedule. A zero capacity always divides by zero, and a zero charge power
      always fails; with both non-zero, the only failure is a partition loop that never
      exits. A successful schedule is gap-free and starts at the request's starting time;
      it ends at the deadline whenever the direct step leaves time before it, and when
      the direct step reaches or passes the deadline the direct entry, if any, is the
      whole schedule, even if it ends after the deadline. */
  function GetChargingSchedule(req: Request): (r: Result<seq<ChargingTimeSpan>, Error>)
    ensures r.Success? <==> PlanCharging(req).Success?
    ensures r.Success? ==> r.value == Schedule(PlanCharging(req).value)
    ensures r.Failure? ==> r.error == PlanCharging(req).error
    ensures req.carData.batteryCapacity == 0.0 ==> r == Failure(DivideByZero)
    ensures req.carData.chargePower == 0.0 ==> r.Failure?
    ensures req.carData.batteryCapacity != 0.0 && req.carData.chargePower != 0.0 ==>
      (r.Failure? <==>
        CreatePossibleTimeSpans(req.userSettings.tariffs, DirectCharge(req).value.workingStart, Deadline(req)).Failure?)
    ensures req.carData.batteryCapacity != 0.0 && req.carData.chargePower != 0.0 && r.Failure? ==>
      && r.error == NonTermination
      && forall s :: !IsPartition(req.userSettings.tariffs, s, DirectCharge(req).value.workingStart, Deadline(req))
    ensures r.Success? ==>
      var s := r.value;
      var step := DirectCharge(req).value;
      && ScheduleContiguous(s)
      && (|s| > 0 ==> s[0].startTime == req.startingTime)
      && (step.workingStart < Deadline(req) ==> |s| > 0 && s[|s| - 1].endTime == Deadline(req))
      && (step.workingStart >= Deadline(req) ==> s == (if step.span.Some? then [step.span.value] else []))
  {
    match PlanCharging(req)
    case Failure(e) => Failure(e)
    case Success(plan) =>
      PossibleSpans(req);
      var step := DirectCharge(req).value;
      var tariffs := req.userSettings.tariffs;
      var possible := CreatePossibleTimeSpans(tariffs, step.workingStart, Deadline(req)).value;
      PlanTimeline(step.span, req.startingTime, tariffs, possible, PriceTiers(tariffs),
        RemainingTicks(req, step.percentage), step.workingStart, Deadline(req));
      Success(Schedule(plan))
  }

  /** The time on offer in a gap-free run of not-yet-charging spans at prices of `tiers`
      is the run's whole length. */
  lemma {:induction false} ListedIsWindow(s: seq<TariffTimeSpan>, tiers: seq<real>)
    requires |s| > 0 && Contiguous(s)
    requires forall i :: 0 <= i < |s| ==> !s[i].isCharging && s[i].energyPrice in tiers
    ensures ListedTime(s, tiers) == s[|s| - 1].endTime - s[0].startTime
    decreases |s|
  {
    assert Pending(tiers)(s[0]) == s[0].Elapsed();
    assert ListedTime(s, tiers) == s[0].Elapsed() + ListedTime(s[1..], tiers);
    if |s| > 1 {
      assert s[1..][0] == s[1] && s[1..][|s| - 2] == s[|s| - 1];
      assert s[0].endTime == s[1].startTime;
      ListedIsWindow(s[1..], tiers);
    }
  }

  /** The facts about the tariff spans the controller feeds to the allocation. */
  lemma PossibleSpans(req: Request)
    ensures PlanCharging(req).Success? ==>
      var step := DirectCharge(req).value;
      var tiers := PriceTiers(req.userSettings.tariffs);
      && DirectCharge(req).Success?
      && CreatePossibleTimeSpans(req.userSettings.tariffs, step.workingStart, Deadline(req)).Success?
      && var possible := CreatePossibleTimeSpans(req.userSettings.tariffs, step.workingStart, Deadline(req)).value;
      && IsPartition(req.userSettings.tariffs, possible, step.workingStart, Deadline(req))
      && PlanCharging(req).value ==
           Plan(step.span, SetChargingTariffSpans(possible, tiers, RemainingTicks(req, step.percentage)))
      && (forall i :: 0 <= i < |possible| ==> !possible[i].isCharging && possible[i].energyPrice in tiers)
  {
    if PlanCharging(req).Success? {
      var step := DirectCharge(req).value;
      var tariffs := req.userSettings.tariffs;
      var possible := CreatePossibleTimeSpans(tariffs, step.workingStart, Deadline(req)).value;
      PartitionPricesAreTariffPrices(tariffs, possible, step.workingStart, Deadline(req));
    }
  }

  /** The schedule of a plan whose direct entry, if any, runs from `start` to `from`, and
      whose tariff spans are the allocated partition of [from, to). */
  lemma PlanTimeline(direct: Option<ChargingTimeSpan>, start: int, tariffs: seq<Tariff>,
                     possible: seq<TariffTimeSpan>, tiers: seq<real>, remaining: int, from: int, to: int)
    requires IsPartition(tariffs, possible, from, to)
    requires direct.Some? ==> direct.value.startTime == start && direct.value.endTime == from
    requires direct.None? ==> from == start
    ensures var s := Schedule(Plan(direct, SetChargingTariffSpans(possible, tiers, remaining)));
      && ScheduleContiguous(s)
      && (|s| > 0 ==> s[0].startTime == start)
      && (from < to ==> |s| > 0 && s[|s| - 1].endTime == to)
      && (from >= to ==> s == (if direct.Some? then [direct.value] else []))
  {
    var tail := AsSchedule(SetChargingTariffSpans(possible, tiers, remaining));
    TailTimeline(tariffs, possible, tiers, remaining, from, to);
    if direct.Some? {
      DirectThenTail(direct.value, tail, from, to);
      assert Schedule(Plan(direct, SetChargingTariffSpans(possible, tiers, remaining))) == [direct.value] + tail;
    } else {
      assert Schedule(Plan(direct, SetChargingTariffSpans(possible, tiers, remaining))) == tail;
    }
  }

  /** The direct entry, ending at `from`, followed by a gap-free tail over [from, to). */
  lemma DirectThenTail(x: ChargingTimeSpan, tail: seq<ChargingTimeSpan>, from: int, to: int)
    requires x.endTime == from && ScheduleContiguous(tail)
    requires from < to ==> |tail| > 0 && tail[0].startTime == from && tail[|tail| - 1].endTime == to
    requires from >= to ==> tail == []
    ensures var s := [x] + tail;
      && ScheduleContiguous(s)
      && s[0].startTime == x.startTime
      && (from < to ==> s[|s| - 1].endTime == to)
      && (from >= to ==> s == [x])
  {
    PrependEntry(x, tail);
  }

  /** The schedule entries of the allocated spans of a partition are gap-free and run
      from the partition's start to its end. */
  lemma TailTimeline(tariffs: seq<Tariff>, possible: seq<TariffTimeSpan>, tiers: seq<real>, remaining: int,
                     from: int, to: int)
    requires IsPartition(tariffs, possible, from, to)
    ensures var tail := AsSchedule(SetChargingTariffSpans(possible, tiers, remaining));
      && ScheduleContiguous(tail)
      && (from < to ==> |tail| > 0 && tail[0].startTime == from && tail[|tail| - 1].endTime == to)
      && (from >= to ==> tail == [])
  {
    AllocationKeepsTimeline(possible, tiers, remaining);
    AllocationShape(possible, tiers, remaining);
  }

  /** An entry that ends where a gap-free schedule starts keeps it gap-free, and the
      schedule still ends where it did. */
  lemma PrependEntry(x: ChargingTimeSpan, tail: seq<ChargingTimeSpan>)
    requires ScheduleContiguous(tail) && (|tail| > 0 ==> tail[0].startTime == x.endTime)
    ensures var s := [x] + tail;
      && ScheduleContiguous(s)
      && s[0] == x
      && (|tail| > 0 ==> s[|s| - 1] == tail[|tail| - 1])
      && (|tail| == 0 ==> s == [x])
  {
    var s := [x] + tail;
    forall i | 0 <= i < |s| - 1 ensures s[i].endTime == s[i + 1].startTime {
      if i > 0 { assert s[i] == tail[i - 1] && s[i + 1] == tail[i]; }
    }
  }

  /** Below the direct-charging percentage the schedule opens with a charging entry from
      the starting time, long enough to bring the battery to that percentage; at or
      above it there is no such entry. */
  lemma DirectEntryLeads(req: Request)
    ensures var r := GetChargingSchedule(req);
      r.Success? ==>
        && req.carData.batteryCapacity != 0.0 && req.carData.chargePower != 0.0
        && (ChargePercentage(req.carData) < req.userSettings.directChargingPercentage as real ==>
              && r.value[0] == ChargingTimeSpan(req.startingTime, req.startingTime + HoursToTicks(DirectHours(req)), true)
              && r.value[1..] == AsSchedule(PlanCharging(req).value.spans))
        && (ChargePercentage(req.carData) >= req.userSettings.directChargingPercentage as real ==>
              r.value == AsSchedule(PlanCharging(req).value.spans))
  {
    if GetChargingSchedule(req).Success? {
      PlanDirect(req);
      ScheduleParts(PlanCharging(req).value);
    }
  }

  /** A plan keeps the direct step's entry. */
  lemma PlanDirect(req: Request)
    ensures PlanCharging(req).Success? ==>
      DirectCharge(req).Success? && PlanCharging(req).value.direct == DirectCharge(req).value.span
  {
  }

  /** A schedule is its direct entry, if any, followed by the entries of the tariff
      spans. */
  lemma ScheduleParts(plan: Plan)
    ensures plan.direct.Some? ==>
      Schedule(plan)[0] == plan.direct.value && Schedule(plan)[1..] == AsSchedule(plan.spans)
    ensures plan.direct.None? ==> Schedule(plan) == AsSchedule(plan.spans)
  {
  }

  /** With a non-zero capacity and charge power, and tariffs that let the partition loop
      move on from every time of day, the controller always answers. */
  lemma CoveredScheduleSucceeds(req: Request)
    requires WellCovered(req.userSettings.tariffs)
    requires req.carData.batteryCapacity != 0.0 && req.carData.chargePower != 0.0
    ensures GetChargingSchedule(req).Success?
  {
    var step := DirectCharge(req).value;
    CoveredPartitionSucceeds(req.userSettings.tariffs, step.workingStart, Deadline(req));
  }

  /** No tariff span left idle is cheaper than one chosen for charging. */
  lemma ScheduleIsCheapestFirst(req: Request)
    ensures PlanCharging(req).Success? ==> CheapestFirst(PlanCharging(req).value.spans)
  {
    if PlanCharging(req).Success? {
      PossibleSpans(req);
      var step := DirectCharge(req).value;
      var tariffs := req.userSettings.tariffs;
      var possible := CreatePossibleTimeSpans(tariffs, step.workingStart, Deadline(req)).value;
      AllocationIsCheapestFirst(possible, PriceTiers(tariffs), RemainingTicks(req, step.percentage));
    }
  }

  /** The charging time the tariff spans receive. When a span is split, it is exactly
      the remaining charging time; when the remaining charging time covers the whole
      window up to the deadline, every tariff span charges and none is split. */
  lemma ScheduleChargingTime(req: Request)
    ensures var r := PlanCharging(req);
      r.Success? ==>
        var step := DirectCharge(req).value;
        var possible := CreatePossibleTimeSpans(req.userSettings.tariffs, step.workingStart, Deadline(req)).value;
        var remaining := RemainingTicks(req, step.percentage);
        && (|r.value.spans| == |possible| + 1 ==> ChargedTime(r.value.spans) == remaining)
        && (remaining >= Deadline(req) - step.workingStart ==>
              |r.value.spans| == |possible| && forall i :: 0 <= i < |r.value.spans| ==> r.value.spans[i].isCharging)
  {
    if PlanCharging(req).Success? {
      PossibleSpans(req);
      var step := DirectCharge(req).value;
      var tariffs := req.userSettings.tariffs;
      var possible := CreatePossibleTimeSpans(tariffs, step.workingStart, Deadline(req)).value;
      PartitionChargingTime(tariffs, possible, PriceTiers(tariffs), RemainingTicks(req, step.percentage),
        step.workingStart, Deadline(req));
    }
  }

  /** The charging time the allocation gives a partition of [from, to) whose spans are
      all idle and priced at the tiers. */
  lemma PartitionChargingTime(tariffs: seq<Tariff>, possible: seq<TariffTimeSpan>, tiers: seq<real>,
                              remaining: int, from: int, to: int)
    requires IsPartition(tariffs, possible, from, to)
    requires forall i :: 0 <= i < |possible| ==> !possible[i].isCharging && possible[i].energyPrice in tiers
    ensures var r := SetChargingTariffSpans(possible, tiers, remaining);
      && (|r| == |possible| + 1 ==> ChargedTime(r) == remaining)
      && (remaining >= to - from ==> |r| == |possible| && forall i :: 0 <= i < |r| ==> r[i].isCharging)
  {
    assert forall i :: 0 <= i < |possible| ==> ChargeOf(possible[i]) == 0;
    SumOfZeros(possible, ChargeOf);
    SplitChargesExactly(possible, tiers, remaining);
    if |possible| == 0 {
      AllocationShape(possible, tiers, remaining);
    } else if remaining >= to - from {
      ListedIsWindow(possible, tiers);
      AllFitChargesEverything(possible, tiers, remaining);
    }
  }

  /** At or above the desired state of charge the controller does not stop: the first
      tariff span at the cheapest price is still charged, whole. */
  lemma AtTargetStillCharges(req: Request, k: nat)
    ensures var r := PlanCharging(req);
      r.Success? ==>
        var step := DirectCharge(req).value;
        var possible := CreatePossibleTimeSpans(req.userSettings.tariffs, step.workingStart, Deadline(req)).value;
        var tiers := PriceTiers(req.userSettings.tariffs);
        (&& RemainingTicks(req, step.percentage) <= 0
         && k < |possible| && |tiers| > 0 && possible[k].energyPrice == tiers[0]
         && (forall i :: 0 <= i < k ==> possible[i].energyPrice != tiers[0])) ==>
        r.value.spans == possible[k := possible[k].(isCharging := true)]
  {
    if PlanCharging(req).Success? {
      PossibleSpans(req);
      var step := DirectCharge(req).value;
      var tariffs := req.userSettings.tariffs;
      var tiers := PriceTiers(tariffs);
      var possible := CreatePossibleTimeSpans(tariffs, step.workingStart, Deadline(req)).value;
      var remaining := RemainingTicks(req, step.percentage);
      if remaining <= 0 && k < |possible| && |tiers| > 0 && possible[k].energyPrice == tiers[0]
        && (forall i :: 0 <= i < k ==> possible[i].energyPrice != tiers[0]) {
        ExhaustedStillFlagsOne(possible, tiers, remaining, k);
      }
    }
  }
}
