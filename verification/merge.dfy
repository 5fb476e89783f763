/** MergeTimeSpans: joining runs of schedule entries with the same charging flag. */
module Merge {
  import opened Wrappers
  import opened Entities

  /** Every entry starts no later than it ends. */
  predicate Ordered(s: seq<ChargingTimeSpan>)
  {
    forall i :: 0 <= i < |s| ==> s[i].startTime <= s[i].endTime
  }

  /** Neighbouring entries differ in their charging flag. */
  predicate Alternating(s: seq<ChargingTimeSpan>)
  {
    forall i :: 0 <= i < |s| - 1 ==> s[i].isCharging != s[i + 1].isCharging
  }

  /** The flag of the last entry containing instant `t`, if any; in a gap-free schedule
      of ordered entries that is the one entry containing it. */
  function FlagAt(s: seq<ChargingTimeSpan>, t: int): Option<bool>
    decreases |s|
  {
    if |s| == 0 then None
    else
      var last := s[|s| - 1];
      if last.startTime <= t < last.endTime then Some(last.isCharging)
      else FlagAt(s[..|s| - 1], t)
  }

  /** The schedule with each run of entries that share a flag joined into one entry from
      the run's first start to its last end. */
  function Collapse(s: seq<ChargingTimeSpan>): (r: seq<ChargingTimeSpan>)
    ensures |r| <= |s|
    ensures |r| == 0 <==> |s| == 0
    ensures |s| > 0 ==> r[0].startTime == s[0].startTime
    ensures |s| > 0 ==> r[|r| - 1].endTime == s[|s| - 1].endTime
    ensures |s| > 0 ==> r[|r| - 1].isCharging == s[|s| - 1].isCharging
    decreases |s|
  {
    if |s| == 0 then []
    else
      var init := Collapse(s[..|s| - 1]);
      var next := s[|s| - 1];
      if |init| > 0 && init[|init| - 1].isCharging == next.isCharging then
        init[..|init| - 1] + [init[|init| - 1].(endTime := next.endTime)]
      else
        init + [next]
  }

  /** The loop as written. An empty schedule throws in `First()`; a schedule of one
      entry comes back empty, because the loop body that adds the last run never runs;
      a longer schedule comes back with its runs joined. */
  method MergeTimeSpans(schedule: seq<ChargingTimeSpan>) returns (r: Result<seq<ChargingTimeSpan>, Error>)
    ensures |schedule| == 0 ==> r == Failure(EmptySequence)
    ensures |schedule| == 1 ==> r == Success([])
    ensures |schedule| >= 2 ==> r == Success(Collapse(schedule))
  {
    if |schedule| == 0 {
      return Failure(EmptySequence);
    }
    var merged: seq<ChargingTimeSpan> := [];
    var current := schedule[0];
    var i := 1;
    assert schedule[..1] == [schedule[0]];
    while i < |schedule|
      invariant 1 <= i <= |schedule|
      invariant i < |schedule| ==> merged + [current] == Collapse(schedule[..i])
      invariant |schedule| == 1 ==> merged == []
      invariant |schedule| >= 2 && i == |schedule| ==> merged == Collapse(schedule)
    {
      assert schedule[..i + 1][..i] == schedule[..i];
      assert (merged + [current])[..|merged|] == merged;
      if current.isCharging == schedule[i].isCharging {
        current := current.(endTime := schedule[i].endTime);
      } else {
        merged := merged + [current];
        current := schedule[i];
      }
      assert i + 1 < |schedule| ==> merged + [current] == Collapse(schedule[..i + 1]);
      if i == |schedule| - 1 {
        assert schedule[..i + 1] == schedule;
        merged := merged + [current];
      }
      i := i + 1;
    }
    return Success(merged);
  }

  /** The discrepancy: one entry is already its own merge, but the loop drops it. */
  lemma SingleSpanLost(x: ChargingTimeSpan)
    ensures Collapse([x]) == [x]
  {
    assert [x][..0] == [];
  }

  lemma {:induction false} CollapseAlternates(s: seq<ChargingTimeSpan>)
    ensures Alternating(Collapse(s))
    decreases |s|
  {
    if |s| > 0 {
      CollapseAlternates(s[..|s| - 1]);
    }
  }

  lemma {:induction false} CollapseKeepsContiguous(s: seq<ChargingTimeSpan>)
    requires ScheduleContiguous(s)
    ensures ScheduleContiguous(Collapse(s))
    decreases |s|
  {
    if |s| > 0 {
      var p := s[..|s| - 1];
      assert ScheduleContiguous(p);
      CollapseKeepsContiguous(p);
      if |p| > 0 {
        assert p[|p| - 1].endTime == s[|s| - 1].startTime;
      }
    }
  }

  lemma {:induction false} CollapseKeepsOrdered(s: seq<ChargingTimeSpan>)
    requires ScheduleContiguous(s) && Ordered(s)
    ensures Ordered(Collapse(s))
    decreases |s|
  {
    if |s| > 0 {
      var p := s[..|s| - 1];
      assert ScheduleContiguous(p) && Ordered(p);
      CollapseKeepsOrdered(p);
      if |p| > 0 {
        assert p[|p| - 1].endTime == s[|s| - 1].startTime;
      }
    }
  }

  /** Joining runs changes nothing about which instants are charging, idle or outside
      the schedule. */
  lemma {:induction false} CollapseKeepsFlags(s: seq<ChargingTimeSpan>, t: int)
    requires ScheduleContiguous(s) && Ordered(s)
    ensures FlagAt(Collapse(s), t) == FlagAt(s, t)
    decreases |s|
  {
    if |s| > 0 {
      var p := s[..|s| - 1];
      var x := s[|s| - 1];
      assert ScheduleContiguous(p) && Ordered(p);
      CollapseKeepsFlags(p, t);
      var init := Collapse(p);
      if |init| > 0 && init[|init| - 1].isCharging == x.isCharging {
        CollapseKeepsOrdered(p);
        var q := init[..|init| - 1];
        var y := init[|init| - 1];
        assert init == q + [y];
        assert (q + [y])[..|q|] == q;
        assert (q + [y.(endTime := x.endTime)])[..|q|] == q;
        assert y.endTime == x.startTime by {
          assert p[|p| - 1].endTime == x.startTime;
        }
      } else {
        assert (init + [x])[..|init|] == init;
      }
    }
  }

  /** A schedule whose neighbours already differ in flag is its own merge. */
  lemma {:induction false} CollapseOfAlternating(s: seq<ChargingTimeSpan>)
    requires Alternating(s)
    ensures Collapse(s) == s
    decreases |s|
  {
    if |s| > 0 {
      var p := s[..|s| - 1];
      assert Alternating(p);
      CollapseOfAlternating(p);
      assert p + [s[|s| - 1]] == s;
    }
  }

  /** Merging twice is merging once. */
  lemma CollapseIdempotent(s: seq<ChargingTimeSpan>)
    ensures Collapse(Collapse(s)) == Collapse(s)
  {
    CollapseAlternates(s);
    CollapseOfAlternating(Collapse(s));
  }
}
