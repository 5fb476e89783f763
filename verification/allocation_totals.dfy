/** How much charging time SetChargingTariffSpans places: exactly the time asked for
    when it splits a span, all the time on offer when that time fits, and one span more
    than asked for when the time runs out exactly or was never positive. */
module AllocationTotals {
  import opened Sums
  import opened Entities
  import opened Allocation
  import opened AllocationProperties

  /** The time a span contributes to charging. */
  function ChargeOf(x: TariffTimeSpan): int
  {
    if x.isCharging then x.Elapsed() else 0
  }

  /** The total time marked for charging. */
  function ChargedTime(s: seq<TariffTimeSpan>): int
  {
    Sum(s, ChargeOf)
  }

  /** The time a span still offers at a price of `tiers`: its length when it is not yet
      charging and its price is one of `tiers`. */
  function Pending(tiers: seq<real>): TariffTimeSpan -> int
  {
    (x: TariffTimeSpan) => if !x.isCharging && x.energyPrice in tiers then x.Elapsed() else 0
  }

  /** The total time on offer at the prices of `tiers`. */
  function ListedTime(s: seq<TariffTimeSpan>, tiers: seq<real>): int
  {
    Sum(s, Pending(tiers))
  }

  lemma PendingNonNegative(s: seq<TariffTimeSpan>, tiers: seq<real>)
    requires Chronological(s)
    ensures forall i :: 0 <= i < |s| ==> Pending(tiers)(s[i]) >= 0
    ensures ListedTime(s, tiers) >= 0
  {
    SumNonNegative(s, Pending(tiers));
  }

  /** Nothing left on offer means every span at a price of `tiers` is charging. */
  lemma NothingListedAllCharging(s: seq<TariffTimeSpan>, tiers: seq<real>)
    requires Chronological(s) && ListedTime(s, tiers) == 0
    ensures forall i :: 0 <= i < |s| && s[i].energyPrice in tiers ==> s[i].isCharging
  {
    PendingNonNegative(s, tiers);
    SumZero(s, Pending(tiers));
    forall i | 0 <= i < |s| && s[i].energyPrice in tiers ensures s[i].isCharging {
      assert Pending(tiers)(s[i]) == 0;
    }
  }

  /** Marking spans at prices of `tiers` moves their time from offered to charging. */
  lemma {:induction false} FlaggedAllMovesTime(before: seq<TariffTimeSpan>, after: seq<TariffTimeSpan>, tiers: seq<real>)
    requires FlaggedAll(before, after, tiers)
    ensures ChargedTime(after) + ListedTime(after, tiers) == ChargedTime(before) + ListedTime(before, tiers)
    decreases |before|
  {
    if |before| > 0 {
      assert Flagged(before[0], after[0], tiers);
      assert FlaggedAll(before[1..], after[1..], tiers) by {
        forall i | 0 <= i < |before[1..]| ensures Flagged(before[1..][i], after[1..][i], tiers) {
          assert Flagged(before[i + 1], after[i + 1], tiers);
        }
      }
      FlaggedAllMovesTime(before[1..], after[1..], tiers);
    }
  }

  /** The split of a charging span: the charging time becomes exactly `remaining` in
      place of the span's whole length. */
  lemma SplitSpanCharges(flagged: seq<TariffTimeSpan>, k: int, remaining: int)
    requires 0 <= k < |flagged| && flagged[k].isCharging
    ensures ChargedTime(SplitSpan(flagged, k, remaining)) ==
      ChargedTime(flagged) - flagged[k].Elapsed() + remaining
  {
    var span := flagged[k];
    var j := IndexOf(flagged, span);
    var cut := span.startTime + remaining;
    var c := TariffTimeSpan(span.startTime, cut, span.energyPrice, true);
    var n := TariffTimeSpan(cut, span.endTime, span.energyPrice, false);
    SumReplacePair(flagged, j, c, n, ChargeOf);
  }

  lemma {:induction false} ScanTierConserves(spans: seq<TariffTimeSpan>, price: real, k: nat, remaining: int)
    requires k <= |spans|
    ensures var a := ScanTier(spans, price, k, remaining);
      a.remaining > 0 || |a.spans| == |spans| + 1 ==>
        ChargedTime(a.spans) + a.remaining == ChargedTime(spans) + remaining
    decreases |spans| - k
  {
    var a := ScanTier(spans, price, k, remaining);
    if k < |spans| {
      var span := spans[k];
      if span.isCharging || span.energyPrice != price {
        assert a == ScanTier(spans, price, k + 1, remaining);
        ScanTierConserves(spans, price, k + 1, remaining);
      } else {
        var flagged := spans[k := span.(isCharging := true)];
        SumUpdate(spans, k, span.(isCharging := true), ChargeOf);
        if span.Elapsed() <= remaining {
          assert a == ScanTier(flagged, price, k + 1, remaining - span.Elapsed());
          ScanTierConserves(flagged, price, k + 1, remaining - span.Elapsed());
        } else if remaining > 0 {
          assert a == Allocation(SplitSpan(flagged, k, remaining), 0);
          SplitSpanCharges(flagged, k, remaining);
        } else {
          assert a == Allocation(flagged, remaining);
        }
      }
    }
  }

  lemma {:induction false} AllocateTiersConserves(spans: seq<TariffTimeSpan>, tiers: seq<real>, i: nat, remaining: int)
    requires i <= |tiers|
    ensures var a := AllocateTiers(spans, tiers, i, remaining);
      a.remaining > 0 || |a.spans| == |spans| + 1 ==>
        ChargedTime(a.spans) + a.remaining == ChargedTime(spans) + remaining
    decreases |tiers| - i
  {
    if i < |tiers| {
      var scanned := ScanTier(spans, tiers[i], 0, remaining);
      ScanTierConserves(spans, tiers[i], 0, remaining);
      if scanned.remaining > 0 {
        AllocateTiersConserves(scanned.spans, tiers, i + 1, scanned.remaining);
      }
    }
  }

  /** When a span is split, exactly the required charging time is added. */
  lemma SplitChargesExactly(spans: seq<TariffTimeSpan>, tiers: seq<real>, remaining: int)
    ensures var r := SetChargingTariffSpans(spans, tiers, remaining);
      |r| == |spans| + 1 ==> ChargedTime(r) == ChargedTime(spans) + remaining
  {
    AllocateTiersConserves(spans, tiers, 0, remaining);
  }

  /** Marking a span not yet charging at `price` moves its whole length from offered to
      charging. */
  lemma MarkMovesTime(spans: seq<TariffTimeSpan>, k: int, price: real)
    requires Chronological(spans) && 0 <= k < |spans|
    requires !spans[k].isCharging && spans[k].energyPrice == price
    ensures var flagged := spans[k := spans[k].(isCharging := true)];
      && Chronological(flagged)
      && spans[k].Elapsed() <= ListedTime(spans, [price])
      && ListedTime(flagged, [price]) == ListedTime(spans, [price]) - spans[k].Elapsed()
      && ChargedTime(flagged) == ChargedTime(spans) + spans[k].Elapsed()
  {
    var marked := spans[k].(isCharging := true);
    PendingNonNegative(spans, [price]);
    SumBoundsElement(spans, k, Pending([price]));
    assert Pending([price])(spans[k]) == spans[k].Elapsed();
    assert Pending([price])(marked) == 0;
    SumUpdate(spans, k, marked, Pending([price]));
    SumUpdate(spans, k, marked, ChargeOf);
    MarkKeepsChronological(spans, k);
  }

  /** Marking span `k` at `price` extends the prefix in which every span at that price
      is charging. */
  lemma MarkExtendsPrefix(spans: seq<TariffTimeSpan>, k: int, price: real)
    requires 0 <= k < |spans| && spans[k].energyPrice == price
    requires forall i :: 0 <= i < k && spans[i].energyPrice == price ==> spans[i].isCharging
    ensures var flagged := spans[k := spans[k].(isCharging := true)];
      forall i :: 0 <= i < k + 1 && flagged[i].energyPrice == price ==> flagged[i].isCharging
  {
  }

  /** With every span at `price` charging, nothing is on offer at that price. */
  lemma NoneListed(spans: seq<TariffTimeSpan>, price: real)
    requires forall i :: 0 <= i < |spans| && spans[i].energyPrice == price ==> spans[i].isCharging
    ensures ListedTime(spans, [price]) == 0
  {
    forall i | 0 <= i < |spans| ensures Pending([price])(spans[i]) == 0 {
      assert spans[i].energyPrice in [price] ==> spans[i].energyPrice == price;
    }
    SumOfZeros(spans, Pending([price]));
  }

  lemma {:induction false} ScanTierAllFit(spans: seq<TariffTimeSpan>, price: real, k: nat, remaining: int)
    requires k <= |spans| && Chronological(spans)
    requires forall i :: 0 <= i < k && spans[i].energyPrice == price ==> spans[i].isCharging
    requires remaining >= ListedTime(spans, [price])
    ensures var a := ScanTier(spans, price, k, remaining);
      && |a.spans| == |spans|
      && a.remaining == remaining - ListedTime(spans, [price])
      && ChargedTime(a.spans) == ChargedTime(spans) + ListedTime(spans, [price])
      && (forall i :: 0 <= i < |a.spans| && a.spans[i].energyPrice == price ==> a.spans[i].isCharging)
    decreases |spans| - k
  {
    var a := ScanTier(spans, price, k, remaining);
    if k == |spans| {
      NoneListed(spans, price);
    } else {
      var span := spans[k];
      if span.isCharging || span.energyPrice != price {
        assert a == ScanTier(spans, price, k + 1, remaining);
        ScanTierAllFit(spans, price, k + 1, remaining);
      } else {
        var flagged := spans[k := span.(isCharging := true)];
        MarkMovesTime(spans, k, price);
        MarkExtendsPrefix(spans, k, price);
        assert a == ScanTier(flagged, price, k + 1, remaining - span.Elapsed());
        ScanTierAllFit(flagged, price, k + 1, remaining - span.Elapsed());
      }
    }
  }

  /** One tier offers at most the time all the tiers offer. */
  lemma ListedAtMost(spans: seq<TariffTimeSpan>, price: real, tiers: seq<real>)
    requires Chronological(spans) && price in tiers
    ensures ListedTime(spans, [price]) <= ListedTime(spans, tiers)
  {
    forall k | 0 <= k < |spans| ensures Pending([price])(spans[k]) <= Pending(tiers)(spans[k]) {
      assert spans[k].energyPrice in [price] ==> spans[k].energyPrice in tiers;
    }
    SumMonotone(spans, Pending([price]), Pending(tiers));
  }

  /** After a scan of tier `i` that charged every span at its price, every span at the
      tiers up to `i` is charging, and the time moved is what was on offer. */
  lemma TierFitStep(spans: seq<TariffTimeSpan>, next: seq<TariffTimeSpan>, tiers: seq<real>, i: int)
    requires 0 <= i < |tiers| && Chronological(spans)
    requires forall k :: 0 <= k < |spans| && spans[k].energyPrice in tiers[..i] ==> spans[k].isCharging
    requires FlaggedAll(spans, next, [tiers[i]])
    requires forall k :: 0 <= k < |next| && next[k].energyPrice == tiers[i] ==> next[k].isCharging
    ensures Chronological(next) && FlaggedAll(spans, next, tiers)
    ensures ChargedTime(next) + ListedTime(next, tiers) == ChargedTime(spans) + ListedTime(spans, tiers)
    ensures ListedTime(next, tiers) >= 0
    ensures forall k :: 0 <= k < |next| && next[k].energyPrice in tiers[..i + 1] ==> next[k].isCharging
  {
    FlaggedAllWiden(spans, next, tiers[i], tiers);
    FlaggedAllKeepsTimeline(spans, next, tiers);
    FlaggedAllMovesTime(spans, next, tiers);
    PendingNonNegative(next, tiers);
    forall k | 0 <= k < |next| && next[k].energyPrice in tiers[..i + 1] ensures next[k].isCharging {
      var u :| 0 <= u < i + 1 && tiers[..i + 1][u] == next[k].energyPrice;
      assert tiers[..i + 1][u] == tiers[u];
      if u < i {
        assert tiers[..i][u] == tiers[u];
        assert spans[k].isCharging;
      }
    }
  }

  lemma {:induction false} AllocateTiersAllFit(spans: seq<TariffTimeSpan>, tiers: seq<real>, i: nat, remaining: int)
    requires i <= |tiers| && Chronological(spans)
    requires forall k :: 0 <= k < |spans| && spans[k].energyPrice in tiers[..i] ==> spans[k].isCharging
    requires remaining >= ListedTime(spans, tiers)
    ensures var r := AllocateTiers(spans, tiers, i, remaining).spans;
      && |r| == |spans|
      && ChargedTime(r) == ChargedTime(spans) + ListedTime(spans, tiers)
      && (forall k :: 0 <= k < |r| && r[k].energyPrice in tiers ==> r[k].isCharging)
    decreases |tiers| - i
  {
    if i == |tiers| {
      assert tiers[..i] == tiers;
      forall k | 0 <= k < |spans| ensures Pending(tiers)(spans[k]) == 0 {
      }
      SumOfZeros(spans, Pending(tiers));
    } else {
      var price := tiers[i];
      var scanned := ScanTier(spans, price, 0, remaining);
      ListedAtMost(spans, price, tiers);
      ScanTierAllFit(spans, price, 0, remaining);
      ScanTierFlags(spans, price, 0, remaining);
      TierFitStep(spans, scanned.spans, tiers, i);
      if scanned.remaining <= 0 {
        NothingListedAllCharging(scanned.spans, tiers);
      } else {
        AllocateTiersAllFit(scanned.spans, tiers, i + 1, scanned.remaining);
      }
    }
  }

  /** When the required charging time covers all the time on offer at the tiers' prices,
      every span at such a price is charged, nothing is split, nothing else changes, and
      the charging time added is exactly the time that was on offer. */
  lemma AllFitChargesEverything(spans: seq<TariffTimeSpan>, tiers: seq<real>, remaining: int)
    requires Chronological(spans)
    requires remaining >= ListedTime(spans, tiers)
    ensures var r := SetChargingTariffSpans(spans, tiers, remaining);
      && FlaggedAll(spans, r, tiers)
      && (forall k :: 0 <= k < |r| && r[k].energyPrice in tiers ==> r[k].isCharging)
      && ChargedTime(r) == ChargedTime(spans) + ListedTime(spans, tiers)
  {
    AllocateTiersAllFit(spans, tiers, 0, remaining);
  }

  lemma {:induction false} ScanSkips(spans: seq<TariffTimeSpan>, price: real, j: nat, k: nat, remaining: int)
    requires j <= k <= |spans|
    requires forall i :: j <= i < k ==> spans[i].isCharging || spans[i].energyPrice != price
    ensures ScanTier(spans, price, j, remaining) == ScanTier(spans, price, k, remaining)
    decreases k - j
  {
    if j < k {
      assert spans[j].isCharging || spans[j].energyPrice != price;
      assert ScanTier(spans, price, j, remaining) == ScanTier(spans, price, j + 1, remaining);
      ScanSkips(spans, price, j + 1, k, remaining);
    }
  }

  /** With no charging time left to place (none asked for, or none left after an exact
      fit), the loop still marks the first span it meets at the cheapest price, whole,
      and stops there. */
  lemma ExhaustedStillFlagsOne(spans: seq<TariffTimeSpan>, tiers: seq<real>, remaining: int, k: nat)
    requires |tiers| > 0 && remaining <= 0
    requires k < |spans| && !spans[k].isCharging && spans[k].energyPrice == tiers[0]
    requires spans[k].startTime < spans[k].endTime
    requires forall i :: 0 <= i < k ==> spans[i].isCharging || spans[i].energyPrice != tiers[0]
    ensures SetChargingTariffSpans(spans, tiers, remaining) == spans[k := spans[k].(isCharging := true)]
    ensures ChargedTime(SetChargingTariffSpans(spans, tiers, remaining)) == ChargedTime(spans) + spans[k].Elapsed()
  {
    ScanSkips(spans, tiers[0], 0, k, remaining);
    var flagged := spans[k := spans[k].(isCharging := true)];
    assert ScanTier(spans, tiers[0], k, remaining) == Allocation(flagged, remaining);
    SumUpdate(spans, k, spans[k].(isCharging := true), ChargeOf);
  }

  /** A scan that splits nothing either moves exactly the time it used up from
      `remaining` to charging, having marked every span at its price; or it uses the time
      up exactly and then marks one more idle span `j` at its price, whole, before
      stopping, with every span at that price up to `j` charging. */
  lemma {:induction false} ScanTierExact(spans: seq<TariffTimeSpan>, price: real, k: nat, remaining: int)
    requires k <= |spans| && remaining >= 0
    requires forall m :: 0 <= m < k && spans[m].energyPrice == price ==> spans[m].isCharging
    ensures var a := ScanTier(spans, price, k, remaining);
      |a.spans| == |spans| ==>
        || (&& a.remaining >= 0
            && ChargedTime(a.spans) + a.remaining == ChargedTime(spans) + remaining
            && forall m :: 0 <= m < |a.spans| && a.spans[m].energyPrice == price ==> a.spans[m].isCharging)
        || exists j :: k <= j < |spans| && ScanExtra(spans, a, price, j, remaining)
    decreases |spans| - k
  {
    var a := ScanTier(spans, price, k, remaining);
    if k < |spans| && |a.spans| == |spans| {
      var span := spans[k];
      if span.isCharging || span.energyPrice != price {
        ScanTierExact(spans, price, k + 1, remaining);
      } else {
        var flagged := spans[k := span.(isCharging := true)];
        SumUpdate(spans, k, span.(isCharging := true), ChargeOf);
        MarkExtendsPrefix(spans, k, price);
        if span.Elapsed() <= remaining {
          ScanTierExact(flagged, price, k + 1, remaining - span.Elapsed());
          if !(&& a.remaining >= 0
               && ChargedTime(a.spans) + a.remaining == ChargedTime(spans) + remaining
               && forall m :: 0 <= m < |a.spans| && a.spans[m].energyPrice == price ==> a.spans[m].isCharging) {
            var j :| k + 1 <= j < |flagged| && ScanExtra(flagged, a, price, j, remaining - span.Elapsed());
            assert flagged[j] == spans[j];
            assert ScanExtra(spans, a, price, j, remaining);
          }
        } else {
          assert a == Allocation(flagged, 0);
          assert ScanExtra(spans, a, price, k, remaining);
        }
      }
    }
  }

  /** The scan's result `a` used up `remaining` exactly and then marked the idle span `j`
      at `price` as well. */
  predicate ScanExtra(spans: seq<TariffTimeSpan>, a: Allocation, price: real, j: int, remaining: int)
  {
    && 0 <= j < |spans| == |a.spans|
    && !spans[j].isCharging && spans[j].energyPrice == price && a.spans[j].isCharging
    && a.remaining == 0
    && ChargedTime(a.spans) == ChargedTime(spans) + remaining + spans[j].Elapsed()
    && (forall m :: 0 <= m <= j && a.spans[m].energyPrice == price ==> a.spans[m].isCharging)
  }

  /** The allocation `after` of `before` charged `remaining` and, on top of it, the whole
      idle span `j` at tier `i`: every span at an earlier tier is charging, and so is
      every span at tier `i` up to `j`. */
  predicate OneExtra(before: seq<TariffTimeSpan>, after: seq<TariffTimeSpan>, tiers: seq<real>,
                     i: int, j: int, remaining: int)
  {
    && 0 <= i < |tiers| && 0 <= j < |before| == |after|
    && !before[j].isCharging && before[j].energyPrice == tiers[i] && after[j].isCharging
    && ChargedTime(after) == ChargedTime(before) + remaining + before[j].Elapsed()
    && (forall m :: 0 <= m < |after| && after[m].energyPrice in tiers[..i] ==> after[m].isCharging)
    && (forall m :: 0 <= m <= j && after[m].energyPrice == tiers[i] ==> after[m].isCharging)
  }

  lemma {:induction false} AllocateTiersExact(spans: seq<TariffTimeSpan>, tiers: seq<real>, i: nat, remaining: int)
    requires i <= |tiers| && remaining > 0
    requires forall m :: 0 <= m < |spans| && spans[m].energyPrice in tiers[..i] ==> spans[m].isCharging
    ensures var a := AllocateTiers(spans, tiers, i, remaining);
      |a.spans| == |spans| ==>
        || (&& a.remaining >= 0
            && ChargedTime(a.spans) + a.remaining == ChargedTime(spans) + remaining
            && (a.remaining > 0 ==> forall m :: 0 <= m < |a.spans| && a.spans[m].energyPrice in tiers ==> a.spans[m].isCharging))
        || exists i', j :: OneExtra(spans, a.spans, tiers, i', j, remaining)
    decreases |tiers| - i
  {
    var a := AllocateTiers(spans, tiers, i, remaining);
    if i == |tiers| {
      assert tiers[..i] == tiers;
    } else if |a.spans| == |spans| {
      var price := tiers[i];
      var scanned := ScanTier(spans, price, 0, remaining);
      ScanTierExact(spans, price, 0, remaining);
      ScanTierFlags(spans, price, 0, remaining);
      FlaggedAllKeepsTimeline(spans, scanned.spans, [price]);
      assert forall m :: 0 <= m < |spans| && scanned.spans[m].energyPrice in tiers[..i] ==> scanned.spans[m].isCharging;
      if exists j :: 0 <= j < |spans| && ScanExtra(spans, scanned, price, j, remaining) {
        var j :| 0 <= j < |spans| && ScanExtra(spans, scanned, price, j, remaining);
        assert a == scanned;
        assert OneExtra(spans, a.spans, tiers, i, j, remaining);
      } else {
        assert forall m :: 0 <= m < |spans| && scanned.spans[m].energyPrice in tiers[..i + 1] ==> scanned.spans[m].isCharging by {
          forall m | 0 <= m < |spans| && scanned.spans[m].energyPrice in tiers[..i + 1]
            ensures scanned.spans[m].isCharging
          {
            var u :| 0 <= u < i + 1 && tiers[..i + 1][u] == scanned.spans[m].energyPrice;
            assert tiers[..i + 1][u] == tiers[u];
            if u < i {
              assert tiers[..i][u] == tiers[u];
            }
          }
        }
        if scanned.remaining > 0 {
          AllocateTiersExact(scanned.spans, tiers, i + 1, scanned.remaining);
          if exists i', j :: OneExtra(scanned.spans, a.spans, tiers, i', j, scanned.remaining) {
            var i', j :| OneExtra(scanned.spans, a.spans, tiers, i', j, scanned.remaining);
            assert OneExtra(spans, a.spans, tiers, i', j, remaining);
          }
        }
      }
    }
  }

  /** The exact-fit quirk over all inputs: when the time on offer at the tiers' prices
      covers a positive charging time and no span is split, the charging time placed is
      the time asked for, or that time plus one whole idle span `j`: the first span at
      its tier left idle once every cheaper tier and the earlier spans of its own tier
      had used the time up exactly. */
  lemma ExactFitCharges(spans: seq<TariffTimeSpan>, tiers: seq<real>, remaining: int)
    requires 0 < remaining <= ListedTime(spans, tiers)
    ensures var r := SetChargingTariffSpans(spans, tiers, remaining);
      |r| == |spans| ==>
        || ChargedTime(r) == ChargedTime(spans) + remaining
        || exists i, j :: OneExtra(spans, r, tiers, i, j, remaining)
  {
    var a := AllocateTiers(spans, tiers, 0, remaining);
    var r := a.spans;
    AllocateTiersExact(spans, tiers, 0, remaining);
    if |r| == |spans| && a.remaining > 0 && !(exists i, j :: OneExtra(spans, r, tiers, i, j, remaining)) {
      AllocateTiersFlags(spans, tiers, 0, remaining);
      FlaggedAllMovesTime(spans, r, tiers);
      forall m | 0 <= m < |r| ensures Pending(tiers)(r[m]) == 0 {
      }
      SumOfZeros(r, Pending(tiers));
      assert false;
    }
  }

  /** Two spans of equal length `h` at one price and exactly `h` to place: the first span
      uses the time up exactly, and the second is marked as well, so `2 * h` is charged. */
  lemma ExactFitChargesOneMore(h: int)
    requires h > 0
    ensures var spans := [TariffTimeSpan(0, h, 1.0, false), TariffTimeSpan(h, 2 * h, 1.0, false)];
      var r := SetChargingTariffSpans(spans, [1.0], h);
      && r == [TariffTimeSpan(0, h, 1.0, true), TariffTimeSpan(h, 2 * h, 1.0, true)]
      && ChargedTime(r) == 2 * h
  {
    var spans := [TariffTimeSpan(0, h, 1.0, false), TariffTimeSpan(h, 2 * h, 1.0, false)];
    var once := spans[0 := spans[0].(isCharging := true)];
    assert ScanTier(spans, 1.0, 0, h) == ScanTier(once, 1.0, 1, 0);
    var r := once[1 := once[1].(isCharging := true)];
    assert ScanTier(once, 1.0, 1, 0) == Allocation(r, 0);
    assert AllocateTiers(spans, [1.0], 0, h) == Allocation(r, 0);
    assert r[1..][1..] == [];
    assert ChargedTime(r) == h + ChargedTime(r[1..]) == h + h + ChargedTime(r[1..][1..]);
  }


  /** The extra span needs a later idle span at the same price: when the exact fit uses
      up the last span of its tier, the outer loop stops and only `h` is charged. */
  lemma ExactFitAtTierEnd(h: int)
    requires h > 0
    ensures var spans := [TariffTimeSpan(0, h, 1.0, false), TariffTimeSpan(h, 2 * h, 2.0, false)];
      var r := SetChargingTariffSpans(spans, [1.0, 2.0], h);
      && r == [TariffTimeSpan(0, h, 1.0, true), TariffTimeSpan(h, 2 * h, 2.0, false)]
      && ChargedTime(r) == h
  {
    var spans := [TariffTimeSpan(0, h, 1.0, false), TariffTimeSpan(h, 2 * h, 2.0, false)];
    var r := spans[0 := spans[0].(isCharging := true)];
    assert ScanTier(spans, 1.0, 0, h) == ScanTier(r, 1.0, 1, 0) == ScanTier(r, 1.0, 2, 0);
    assert AllocateTiers(spans, [1.0, 2.0], 0, h) == Allocation(r, 0);
    assert r[1..][1..] == [];
    assert ChargedTime(r) == h + ChargedTime(r[1..]) == h + 0 + ChargedTime(r[1..][1..]);
  }
}
