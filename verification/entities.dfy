/** The request and result records of the charging-schedule computation. */
module Entities {
  import opened Clock

  /** A daily price window; its bounds are the parsed "HH:mm" strings. */
  datatype Tariff = Tariff(startTime: TimeOfDay, endTime: TimeOfDay, energyPrice: real)

  /** Battery data: charge power in kW, capacity and current level in kWh. */
  datatype CarData = CarData(chargePower: real, batteryCapacity: real, currentBatteryLevel: real)

  /** User settings; `leavingTime` is the parsed leaving time read as a duration in ticks. */
  datatype UserSettings = UserSettings(
    desiredStateOfCharge: int,
    leavingTime: int,
    directChargingPercentage: int,
    tariffs: seq<Tariff>)

  /** One schedule request; `startingTime` is an instant in ticks. */
  datatype Request = Request(startingTime: int, userSettings: UserSettings, carData: CarData)

  /** A span of the timeline priced by one tariff, possibly marked for charging. */
  datatype TariffTimeSpan = TariffTimeSpan(startTime: int, endTime: int, energyPrice: real, isCharging: bool)
  {
    function Elapsed(): int { endTime - startTime }
  }

  /** A span of the returned schedule. */
  datatype ChargingTimeSpan = ChargingTimeSpan(startTime: int, endTime: int, isCharging: bool)
  {
    function Elapsed(): int { endTime - startTime }
  }

  /** Ways the computation ends without a schedule: a decimal division by zero, `First()`
      on an empty list, and a partition loop that never exits. */
  datatype Error = DivideByZero | EmptySequence | NonTermination

  /** Each span ends where the next one starts. */
  predicate Contiguous(s: seq<TariffTimeSpan>)
  {
    forall i :: 0 <= i < |s| - 1 ==> s[i].endTime == s[i + 1].startTime
  }

  /** Each schedule entry ends where the next one starts. */
  predicate ScheduleContiguous(s: seq<ChargingTimeSpan>)
  {
    forall i :: 0 <= i < |s| - 1 ==> s[i].endTime == s[i + 1].startTime
  }

  /** Spans of positive length, in time order, without overlap. */
  predicate Chronological(s: seq<TariffTimeSpan>)
  {
    && (forall i :: 0 <= i < |s| ==> s[i].startTime < s[i].endTime)
    && (forall i :: 0 <= i < |s| - 1 ==> s[i].endTime <= s[i + 1].startTime)
  }

  lemma {:induction false} ChronologicalStartsIncrease(s: seq<TariffTimeSpan>, i: int, j: int)
    requires Chronological(s)
    requires 0 <= i < j < |s|
    ensures s[i].endTime <= s[j].startTime
    decreases j - i
  {
    if j > i + 1 {
      ChronologicalStartsIncrease(s, i, j - 1);
    }
  }

  /** The schedule entries of tariff spans, in the same order. */
  function AsSchedule(s: seq<TariffTimeSpan>): (r: seq<ChargingTimeSpan>)
    ensures |r| == |s|
    ensures forall i :: 0 <= i < |s| ==>
      r[i] == ChargingTimeSpan(s[i].startTime, s[i].endTime, s[i].isCharging)
  {
    seq(|s|, i requires 0 <= i < |s| => ChargingTimeSpan(s[i].startTime, s[i].endTime, s[i].isCharging))
  }
}
