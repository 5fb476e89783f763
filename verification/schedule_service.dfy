/** ScheduleService.CreatePossibleTimeSpans: cutting the time between the working start
    and the deadline into spans, each priced by the first tariff window that holds the
    span's starting time of day. */
module ScheduleService {
  import opened Wrappers
  import opened Clock
  import opened Entities

  /** The tariff test of the partition loop: the time of day is the window's start, or
      lies inside the window. */
  predicate Covers(tariff: Tariff, time: TimeOfDay)
  {
    time == tariff.startTime || IsBetween(time, tariff.startTime, tariff.endTime)
  }

  /** The index of the tariff the `foreach` stops at: the first, in list order, that
      covers `time`. */
  function FirstMatch(tariffs: seq<Tariff>, time: TimeOfDay): (r: Option<nat>)
    ensures r.Some? ==> r.value < |tariffs| && Covers(tariffs[r.value], time)
    ensures r.Some? ==> forall j :: 0 <= j < r.value ==> !Covers(tariffs[j], time)
    ensures r.None? <==> forall j :: 0 <= j < |tariffs| ==> !Covers(tariffs[j], time)
  {
    if |tariffs| == 0 then None
    else if Covers(tariffs[0], time) then Some(0)
    else match FirstMatch(tariffs[1..], time)
      case None => None
      case Some(i) => Some(i + 1)
  }

  /** A pass of the loop from `time` moves the current instant forward: some tariff
      covers `time` and the first such one does not end at `time`. */
  predicate Progresses(tariffs: seq<Tariff>, time: TimeOfDay)
  {
    match FirstMatch(tariffs, time)
    case None => false
    case Some(i) => ClockDistance(tariffs[i].endTime, time) > 0
  }

  /** The current instant after one pass of the loop body from `current`: the end of
      the first covering window, clipped to `leaving`; unchanged when no window covers
      the time of day. The loop state is this instant alone, so a pass that leaves it
      unchanged is repeated forever. */
  function NextStart(tariffs: seq<Tariff>, current: int, leaving: int): (r: int)
    ensures current < leaving ==> current <= r <= leaving
    ensures current < leaving ==> (r > current <==> Progresses(tariffs, TimeOfDayOf(current)))
    ensures FirstMatch(tariffs, TimeOfDayOf(current)).None? ==> r == current
    ensures var m := FirstMatch(tariffs, TimeOfDayOf(current));
      m.Some? ==>
        var reach := current + ClockDistance(tariffs[m.value].endTime, TimeOfDayOf(current));
        && r <= reach && r <= leaving
        && (r == reach || r == leaving)
  {
    var time := TimeOfDayOf(current);
    match FirstMatch(tariffs, time)
    case None => current
    case Some(i) =>
      var reach := current + ClockDistance(tariffs[i].endTime, time);
      if reach <= leaving then reach else leaving
  }

  /** `span` is priced by the first window holding its starting time of day, and runs to
      that window's end, or to `leaving` when the window ends later. */
  predicate PricedByTariff(tariffs: seq<Tariff>, span: TariffTimeSpan, leaving: int)
  {
    var time := TimeOfDayOf(span.startTime);
    match FirstMatch(tariffs, time)
    case None => false
    case Some(k) =>
      var reach := span.startTime + ClockDistance(tariffs[k].endTime, time);
      && span.energyPrice == tariffs[k].energyPrice
      && span.endTime == (if reach <= leaving then reach else leaving)
  }

  /** `s` partitions [current, leaving) into non-charging spans priced by the tariffs. */
  predicate IsPartition(tariffs: seq<Tariff>, s: seq<TariffTimeSpan>, current: int, leaving: int)
  {
    && (current < leaving ==> |s| > 0 && s[0].startTime == current && s[|s| - 1].endTime == leaving)
    && (current >= leaving ==> s == [])
    && Chronological(s)
    && Contiguous(s)
    && (forall i :: 0 <= i < |s| ==> s[i].endTime <= leaving)
    && (forall i :: 0 <= i < |s| ==> !s[i].isCharging && PricedByTariff(tariffs, s[i], leaving))
  }

  /** The partition loop. It never returns when a pass does not move the current
      instant; that outcome is reported as NonTermination. It fails only then: whenever
      the window has a partition, the loop finds it. */
  function CreatePossibleTimeSpans(tariffs: seq<Tariff>, current: int, leaving: int)
    : (r: Result<seq<TariffTimeSpan>, Error>)
    ensures current >= leaving ==> r == Success([])
    ensures r.Failure? ==> r.error == NonTermination
    ensures r.Success? ==> IsPartition(tariffs, r.value, current, leaving)
    ensures r.Failure? ==> forall s :: !IsPartition(tariffs, s, current, leaving)
    decreases leaving - current
  {
    if current >= leaving then Success([])
    else
      var next := NextStart(tariffs, current, leaving);
      if next == current then
        StalledHasNoPartition(tariffs, current, leaving);
        Failure(NonTermination)
      else
        var i := FirstMatch(tariffs, TimeOfDayOf(current)).value;
        match CreatePossibleTimeSpans(tariffs, next, leaving)
        case Failure(e) =>
          NoPartitionFromNext(tariffs, current, leaving);
          Failure(e)
        case Success(rest) =>
          var span := TariffTimeSpan(current, next, tariffs[i].energyPrice, false);
          assert PricedByTariff(tariffs, span, leaving);
          PrependToPartition(tariffs, span, rest, leaving);
          Success([span] + rest)
  }

  /** A partition of a non-empty window starts with the span one pass produces, and its
      other spans partition the rest of the window from where that pass moves on. */
  lemma PartitionTail(tariffs: seq<Tariff>, s: seq<TariffTimeSpan>, current: int, leaving: int)
    requires current < leaving && IsPartition(tariffs, s, current, leaving)
    ensures s[0].startTime == current && s[0].endTime == NextStart(tariffs, current, leaving)
    ensures NextStart(tariffs, current, leaving) > current
    ensures IsPartition(tariffs, s[1..], NextStart(tariffs, current, leaving), leaving)
  {
    PartitionHead(tariffs, s, current, leaving);
    TailKeepsPartition(tariffs, s, leaving);
  }

  /** The first span of a partition of a non-empty window is the span one pass
      produces. */
  lemma PartitionHead(tariffs: seq<Tariff>, s: seq<TariffTimeSpan>, current: int, leaving: int)
    requires current < leaving && IsPartition(tariffs, s, current, leaving)
    ensures s[0].startTime == current && s[0].endTime == NextStart(tariffs, current, leaving)
    ensures NextStart(tariffs, current, leaving) > current
  {
    assert PricedByTariff(tariffs, s[0], leaving);
    assert s[0].startTime < s[0].endTime;
  }

  /** The spans after the first of a partition partition the rest of the window. */
  lemma TailKeepsPartition(tariffs: seq<Tariff>, s: seq<TariffTimeSpan>, leaving: int)
    requires |s| > 0 && IsPartition(tariffs, s, s[0].startTime, leaving)
    ensures IsPartition(tariffs, s[1..], s[0].endTime, leaving)
  {
    var t := s[1..];
    TailKeepsTimeline(s);
    TailKeepsPricing(tariffs, s, leaving);
    if |s| > 1 {
      SecondSpanFits(s, leaving);
      assert t[0] == s[1] && t[|t| - 1] == s[|s| - 1];
    }
  }

  /** Dropping the first span keeps spans in time order and gap-free. */
  lemma TailKeepsTimeline(s: seq<TariffTimeSpan>)
    requires |s| > 0 && Chronological(s) && Contiguous(s)
    ensures Chronological(s[1..]) && Contiguous(s[1..])
  {
    var t := s[1..];
    assert forall i :: 0 <= i < |t| ==> t[i] == s[i + 1];
  }

  /** Dropping the first span keeps every span priced and bounded. */
  lemma TailKeepsPricing(tariffs: seq<Tariff>, s: seq<TariffTimeSpan>, leaving: int)
    requires |s| > 0
    requires forall i :: 0 <= i < |s| ==> s[i].endTime <= leaving
    requires forall i :: 0 <= i < |s| ==> !s[i].isCharging && PricedByTariff(tariffs, s[i], leaving)
    ensures forall i :: 0 <= i < |s[1..]| ==> s[1..][i].endTime <= leaving
    ensures forall i :: 0 <= i < |s[1..]| ==> !s[1..][i].isCharging && PricedByTariff(tariffs, s[1..][i], leaving)
  {
    var t := s[1..];
    assert forall i :: 0 <= i < |t| ==> t[i] == s[i + 1];
  }

  /** A second span, gap-free after the first and ending by `leaving`, leaves the first
      one ending before `leaving`. */
  lemma SecondSpanFits(s: seq<TariffTimeSpan>, leaving: int)
    requires |s| > 1 && Chronological(s) && Contiguous(s)
    requires forall i :: 0 <= i < |s| ==> s[i].endTime <= leaving
    ensures s[0].endTime == s[1].startTime < leaving
  {
    assert s[1].startTime < s[1].endTime <= leaving;
  }

  /** A window has at most one partition: each span is fixed by where the previous one
      ends. */
  lemma {:induction false} PartitionUnique(tariffs: seq<Tariff>, s: seq<TariffTimeSpan>, t: seq<TariffTimeSpan>,
                                           current: int, leaving: int)
    requires IsPartition(tariffs, s, current, leaving) && IsPartition(tariffs, t, current, leaving)
    ensures s == t
    decreases leaving - current
  {
    if current < leaving {
      PartitionTail(tariffs, s, current, leaving);
      PartitionTail(tariffs, t, current, leaving);
      assert PricedByTariff(tariffs, s[0], leaving) && PricedByTariff(tariffs, t[0], leaving);
      PartitionUnique(tariffs, s[1..], t[1..], NextStart(tariffs, current, leaving), leaving);
      assert s == [s[0]] + s[1..] && t == [t[0]] + t[1..];
    }
  }

  /** Whenever the window has a partition, the loop returns exactly that partition. */
  lemma PartitionFound(tariffs: seq<Tariff>, s: seq<TariffTimeSpan>, current: int, leaving: int)
    requires IsPartition(tariffs, s, current, leaving)
    ensures CreatePossibleTimeSpans(tariffs, current, leaving) == Success(s)
  {
    var r := CreatePossibleTimeSpans(tariffs, current, leaving);
    PartitionUnique(tariffs, r.value, s, current, leaving);
  }

  /** A pass that does not move the instant before the deadline leaves the window
      without a partition. */
  lemma StalledHasNoPartition(tariffs: seq<Tariff>, current: int, leaving: int)
    requires current < leaving && NextStart(tariffs, current, leaving) == current
    ensures forall s :: !IsPartition(tariffs, s, current, leaving)
  {
    forall s | IsPartition(tariffs, s, current, leaving) ensures false {
      PartitionTail(tariffs, s, current, leaving);
    }
  }

  /** Without a partition from where one pass moves on, there is none from `current`. */
  lemma NoPartitionFromNext(tariffs: seq<Tariff>, current: int, leaving: int)
    requires current < leaving
    requires forall s :: !IsPartition(tariffs, s, NextStart(tariffs, current, leaving), leaving)
    ensures forall s :: !IsPartition(tariffs, s, current, leaving)
  {
    forall s | IsPartition(tariffs, s, current, leaving) ensures false {
      PartitionTail(tariffs, s, current, leaving);
    }
  }

  /** A span produced by one pass, followed by a partition of the rest of the window, is a
      partition of the whole window. */
  lemma PrependToPartition(tariffs: seq<Tariff>, span: TariffTimeSpan, rest: seq<TariffTimeSpan>, leaving: int)
    requires span.startTime < span.endTime && !span.isCharging && PricedByTariff(tariffs, span, leaving)
    requires IsPartition(tariffs, rest, span.endTime, leaving)
    ensures IsPartition(tariffs, [span] + rest, span.startTime, leaving)
  {
    var s := [span] + rest;
    assert span.endTime < leaving ==> |rest| > 0 && rest[0].startTime == span.endTime;
    assert span.endTime == leaving ==> rest == [];
    PrependKeepsTimeline(span, rest);
    PrependKeepsPricing(tariffs, span, rest, leaving);
  }

  /** A span that ends where the rest starts keeps spans in time order and gap-free. */
  lemma PrependKeepsTimeline(span: TariffTimeSpan, rest: seq<TariffTimeSpan>)
    requires span.startTime < span.endTime && Chronological(rest) && Contiguous(rest)
    requires |rest| > 0 ==> rest[0].startTime == span.endTime
    ensures Chronological([span] + rest) && Contiguous([span] + rest)
  {
    var s := [span] + rest;
    forall i | 0 <= i < |s| - 1 ensures s[i].endTime == s[i + 1].startTime {
      if i > 0 { assert s[i] == rest[i - 1] && s[i + 1] == rest[i]; }
    }
    forall i | 0 <= i < |s| ensures s[i].startTime < s[i].endTime {
      if i > 0 { assert s[i] == rest[i - 1]; }
    }
  }

  /** Prepending a priced span to priced spans keeps every span priced and bounded. */
  lemma PrependKeepsPricing(tariffs: seq<Tariff>, span: TariffTimeSpan, rest: seq<TariffTimeSpan>, leaving: int)
    requires !span.isCharging && span.endTime <= leaving && PricedByTariff(tariffs, span, leaving)
    requires forall i :: 0 <= i < |rest| ==> rest[i].endTime <= leaving
    requires forall i :: 0 <= i < |rest| ==> !rest[i].isCharging && PricedByTariff(tariffs, rest[i], leaving)
    ensures var s := [span] + rest;
      && (forall i :: 0 <= i < |s| ==> s[i].endTime <= leaving)
      && (forall i :: 0 <= i < |s| ==> !s[i].isCharging && PricedByTariff(tariffs, s[i], leaving))
  {
    var s := [span] + rest;
    forall i | 0 <= i < |s| ensures s[i].endTime <= leaving && !s[i].isCharging && PricedByTariff(tariffs, s[i], leaving) {
      if i > 0 { assert s[i] == rest[i - 1]; }
    }
  }

  /** Every time of day lets the loop move on. */
  predicate WellCovered(tariffs: seq<Tariff>)
  {
    forall time: TimeOfDay :: Progresses(tariffs, time)
  }

  /** A window that covers `time` moves the loop on exactly when its start and end
      differ; a window from a time to the same time covers only that time and stalls. */
  lemma CoveringWindowAdvances(tariff: Tariff, time: TimeOfDay)
    requires Covers(tariff, time)
    ensures ClockDistance(tariff.endTime, time) > 0 <==> tariff.startTime != tariff.endTime
    ensures tariff.startTime == tariff.endTime ==> time == tariff.startTime
  {
  }

  /** Some tariff covers `time`. */
  predicate CoveredByAny(tariffs: seq<Tariff>, time: TimeOfDay)
  {
    exists j :: 0 <= j < |tariffs| && Covers(tariffs[j], time)
  }

  /** Tariffs that cover every time of day, none of them from a time to the same time,
      keep the loop moving. */
  lemma CoverageGivesProgress(tariffs: seq<Tariff>)
    requires forall time: TimeOfDay :: CoveredByAny(tariffs, time)
    requires forall j :: 0 <= j < |tariffs| ==> tariffs[j].startTime != tariffs[j].endTime
    ensures WellCovered(tariffs)
  {
    forall time: TimeOfDay ensures Progresses(tariffs, time) {
      assert CoveredByAny(tariffs, time);
      var i := FirstMatch(tariffs, time).value;
      CoveringWindowAdvances(tariffs[i], time);
    }
  }

  /** Under full coverage the partition loop exits. */
  lemma {:induction false} CoveredPartitionSucceeds(tariffs: seq<Tariff>, current: int, leaving: int)
    requires WellCovered(tariffs)
    ensures CreatePossibleTimeSpans(tariffs, current, leaving).Success?
    decreases leaving - current
  {
    if current < leaving {
      assert Progresses(tariffs, TimeOfDayOf(current));
      CoveredPartitionSucceeds(tariffs, NextStart(tariffs, current, leaving), leaving);
    }
  }

  /** A single window from midnight to midnight, the only way to write a whole day with
      one window, never lets the loop move on. */
  lemma MidnightToMidnightSpins(price: real, current: int, leaving: int)
    requires current < leaving
    ensures CreatePossibleTimeSpans([Tariff(0, 0, price)], current, leaving) == Failure(NonTermination)
  {
  }

  /** Tariffs that cover only part of the day still let the loop exit when the window
      lies inside them: a night tariff from 00:00 to 08:00 prices a window from midnight
      to 07:00 as one span. */
  lemma PartialCoverageSucceeds(price: real)
    ensures CreatePossibleTimeSpans([Tariff(0, 8 * TicksPerHour, price)], 0, 7 * TicksPerHour) ==
      Success([TariffTimeSpan(0, 7 * TicksPerHour, price, false)])
  {
    var tariffs := [Tariff(0, 8 * TicksPerHour, price)];
    assert FirstMatch(tariffs, 0) == Some(0);
    assert NextStart(tariffs, 0, 7 * TicksPerHour) == 7 * TicksPerHour;
    assert CreatePossibleTimeSpans(tariffs, 7 * TicksPerHour, 7 * TicksPerHour) == Success([]);
    assert [TariffTimeSpan(0, 7 * TicksPerHour, price, false)] + [] == [TariffTimeSpan(0, 7 * TicksPerHour, price, false)];
  }

  /** Without tariffs no window covers any time, so the loop never moves on when there
      is time before the deadline. */
  lemma NoTariffsSpin(current: int, leaving: int)
    ensures CreatePossibleTimeSpans([], current, leaving) ==
      (if current < leaving then Failure(NonTermination) else Success([]))
  {
  }

  /** `price` is the price of one of the tariffs. */
  predicate IsTariffPrice(tariffs: seq<Tariff>, price: real)
  {
    exists k :: 0 <= k < |tariffs| && tariffs[k].energyPrice == price
  }

  /** Every span's price is the price of one of the tariffs. */
  lemma PartitionPricesAreTariffPrices(tariffs: seq<Tariff>, s: seq<TariffTimeSpan>, current: int, leaving: int)
    requires IsPartition(tariffs, s, current, leaving)
    ensures forall i :: 0 <= i < |s| ==> IsTariffPrice(tariffs, s[i].energyPrice)
  {
    forall i | 0 <= i < |s|
      ensures IsTariffPrice(tariffs, s[i].energyPrice)
    {
      assert PricedByTariff(tariffs, s[i], leaving);
      var k := FirstMatch(tariffs, TimeOfDayOf(s[i].startTime)).value;
      assert s[i].energyPrice == tariffs[k].energyPrice;
    }
  }
}
