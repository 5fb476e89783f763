/** What SetChargingTariffSpans guarantees: the shape of its result, the timeline it
    keeps, cheapest-first order, and the charging time it places. */
module AllocationProperties {
  import opened Sums
  import opened Entities
  import opened Allocation

  /** Span `j` of `before` is split: a charging piece from its start and a non-charging
      remainder to its end take its place; every other span is only marked. */
  predicate SplitAt(before: seq<TariffTimeSpan>, after: seq<TariffTimeSpan>, j: int, tiers: seq<real>)
  {
    && 0 <= j < |before|
    && |after| == |before| + 1
    && !before[j].isCharging
    && before[j].energyPrice in tiers
    && before[j].startTime < after[j].endTime < before[j].endTime
    && after[j] == TariffTimeSpan(before[j].startTime, after[j].endTime, before[j].energyPrice, true)
    && after[j + 1] == TariffTimeSpan(after[j].endTime, before[j].endTime, before[j].energyPrice, false)
    && (forall i :: 0 <= i < j ==> Flagged(before[i], after[i], tiers))
    && (forall i :: j < i < |before| ==> Flagged(before[i], after[i + 1], tiers))
  }

  /** In spans that are in time order, a span's first occurrence is its own position. */
  lemma IndexOfChronological(s: seq<TariffTimeSpan>, k: int)
    requires Chronological(s) && 0 <= k < |s|
    ensures IndexOf(s, s[k]) == k
  {
    var j := IndexOf(s, s[k]);
    if j < k {
      ChronologicalStartsIncrease(s, j, k);
    }
  }

  lemma FlaggedThenSplit(a: seq<TariffTimeSpan>, b: seq<TariffTimeSpan>, c: seq<TariffTimeSpan>, j: int, tiers: seq<real>)
    requires FlaggedAll(a, b, tiers) && SplitAt(b, c, j, tiers)
    ensures SplitAt(a, c, j, tiers)
  {
    assert Flagged(a[j], b[j], tiers);
    forall i | 0 <= i < j ensures Flagged(a[i], c[i], tiers) {
      assert Flagged(a[i], b[i], tiers) && Flagged(b[i], c[i], tiers);
    }
    forall i | j < i < |a| ensures Flagged(a[i], c[i + 1], tiers) {
      assert Flagged(a[i], b[i], tiers) && Flagged(b[i], c[i + 1], tiers);
    }
  }

  /** Marking one span keeps the spans in time order. */
  lemma MarkKeepsChronological(spans: seq<TariffTimeSpan>, k: int)
    requires Chronological(spans) && 0 <= k < |spans|
    ensures Chronological(spans[k := spans[k].(isCharging := true)])
  {
  }

  /** Marking one span keeps the spans in time order, so the marked span is still the
      first one equal to itself. */
  lemma MarkedIsFirst(spans: seq<TariffTimeSpan>, k: int)
    requires Chronological(spans) && 0 <= k < |spans|
    ensures var flagged := spans[k := spans[k].(isCharging := true)];
      IndexOf(flagged, flagged[k]) == k
  {
    var flagged := spans[k := spans[k].(isCharging := true)];
    MarkKeepsChronological(spans, k);
    IndexOfChronological(flagged, k);
  }

  /** When span `k` is the first one equal to itself, the split puts its pieces at `k`
      and `k + 1` and shifts everything after it by one. */
  lemma SplitPlaces(s: seq<TariffTimeSpan>, k: int, remaining: int)
    requires 0 <= k < |s| && IndexOf(s, s[k]) == k
    ensures var r := SplitSpan(s, k, remaining);
      && r[k] == Charged(s[k], remaining)
      && r[k + 1] == Rest(s[k], remaining)
      && (forall i :: 0 <= i < k ==> r[i] == s[i])
      && (forall i :: k < i < |s| ==> r[i + 1] == s[i])
  {
    PairInPlace(s, k, Charged(s[k], remaining), Rest(s[k], remaining));
  }

  /** Two pieces of span `k` in its place, everything else where it was, is a split. */
  lemma SplitAtFromPieces(spans: seq<TariffTimeSpan>, r: seq<TariffTimeSpan>, k: int, cut: int, tiers: seq<real>)
    requires 0 <= k < |spans| && |r| == |spans| + 1
    requires !spans[k].isCharging && spans[k].energyPrice in tiers
    requires spans[k].startTime < cut < spans[k].endTime
    requires r[k] == TariffTimeSpan(spans[k].startTime, cut, spans[k].energyPrice, true)
    requires r[k + 1] == TariffTimeSpan(cut, spans[k].endTime, spans[k].energyPrice, false)
    requires forall i :: 0 <= i < k ==> r[i] == spans[i]
    requires forall i :: k < i < |spans| ==> r[i + 1] == spans[i]
    ensures SplitAt(spans, r, k, tiers)
  {
  }

  /** The pieces the loop builds for span `k`, once it is marked, form a split at `k`. */
  lemma SplitPieces(spans: seq<TariffTimeSpan>, k: int, remaining: int, tiers: seq<real>)
    requires Chronological(spans)
    requires 0 <= k < |spans| && !spans[k].isCharging && spans[k].energyPrice in tiers
    requires 0 < remaining < spans[k].Elapsed()
    ensures SplitAt(spans, SplitSpan(spans[k := spans[k].(isCharging := true)], k, remaining), k, tiers)
  {
    var flagged := spans[k := spans[k].(isCharging := true)];
    MarkedIsFirst(spans, k);
    SplitPlaces(flagged, k, remaining);
    var r := SplitSpan(flagged, k, remaining);
    SplitAtFromPieces(spans, r, k, spans[k].startTime + remaining, tiers);
  }

  lemma {:induction false} ScanTierShape(spans: seq<TariffTimeSpan>, tiers: seq<real>, price: real, k: nat, remaining: int)
    requires Chronological(spans) && price in tiers && k <= |spans|
    ensures |ScanTier(spans, price, k, remaining).spans| == |spans| + 1 ==>
      exists j :: SplitAt(spans, ScanTier(spans, price, k, remaining).spans, j, tiers)
    decreases |spans| - k
  {
    var a := ScanTier(spans, price, k, remaining);
    if k < |spans| && |a.spans| == |spans| + 1 {
      var span := spans[k];
      if span.isCharging || span.energyPrice != price {
        assert a == ScanTier(spans, price, k + 1, remaining);
        ScanTierShape(spans, tiers, price, k + 1, remaining);
      } else {
        var flagged := spans[k := span.(isCharging := true)];
        if span.Elapsed() <= remaining {
          assert a == ScanTier(flagged, price, k + 1, remaining - span.Elapsed());
          assert FlaggedAll(spans, flagged, tiers);
          FlaggedAllKeepsTimeline(spans, flagged, tiers);
          ScanTierShape(flagged, tiers, price, k + 1, remaining - span.Elapsed());
          var j :| SplitAt(flagged, a.spans, j, tiers);
          FlaggedThenSplit(spans, flagged, a.spans, j, tiers);
        } else {
          assert remaining > 0;
          assert a.spans == SplitSpan(flagged, k, remaining);
          SplitPieces(spans, k, remaining, tiers);
        }
      }
    }
  }

  lemma {:induction false} AllocateTiersShape(spans: seq<TariffTimeSpan>, tiers: seq<real>, i: nat, remaining: int)
    requires Chronological(spans) && i <= |tiers|
    ensures |AllocateTiers(spans, tiers, i, remaining).spans| == |spans| + 1 ==>
      exists j :: SplitAt(spans, AllocateTiers(spans, tiers, i, remaining).spans, j, tiers)
    decreases |tiers| - i
  {
    var a := AllocateTiers(spans, tiers, i, remaining);
    if i < |tiers| && |a.spans| == |spans| + 1 {
      var scanned := ScanTier(spans, tiers[i], 0, remaining);
      ScanTierShape(spans, tiers, tiers[i], 0, remaining);
      if scanned.remaining > 0 {
        ScanTierFlags(spans, tiers[i], 0, remaining);
        FlaggedAllWiden(spans, scanned.spans, tiers[i], tiers);
        FlaggedAllKeepsTimeline(spans, scanned.spans, tiers);
        AllocateTiersShape(scanned.spans, tiers, i + 1, scanned.remaining);
        var j :| SplitAt(scanned.spans, a.spans, j, tiers);
        FlaggedThenSplit(spans, scanned.spans, a.spans, j, tiers);
      }
    }
  }

  /** On spans in time order, the result either only marks spans for charging, at prices
      of the tiers, or also splits exactly one not-yet-charging span at such a price into
      a charging piece and a non-charging remainder at the same position. */
  lemma AllocationShape(spans: seq<TariffTimeSpan>, tiers: seq<real>, remaining: int)
    requires Chronological(spans)
    ensures var r := SetChargingTariffSpans(spans, tiers, remaining);
      FlaggedAll(spans, r, tiers) || exists j :: SplitAt(spans, r, j, tiers)
  {
    AllocateTiersShape(spans, tiers, 0, remaining);
  }

  /** Where the times of each span of a split come from. */
  lemma SplitOrigins(before: seq<TariffTimeSpan>, after: seq<TariffTimeSpan>, j: int, tiers: seq<real>)
    requires SplitAt(before, after, j, tiers)
    ensures forall i :: 0 <= i < j ==>
      after[i].startTime == before[i].startTime && after[i].endTime == before[i].endTime
    ensures forall i :: j + 1 < i < |after| ==>
      after[i].startTime == before[i - 1].startTime && after[i].endTime == before[i - 1].endTime
  {
    forall i | 0 <= i < j
      ensures after[i].startTime == before[i].startTime && after[i].endTime == before[i].endTime
    {
      assert Flagged(before[i], after[i], tiers);
    }
    forall i | j + 1 < i < |after|
      ensures after[i].startTime == before[i - 1].startTime && after[i].endTime == before[i - 1].endTime
    {
      assert Flagged(before[i - 1], after[i], tiers);
    }
  }

  lemma SplitKeepsChronological(before: seq<TariffTimeSpan>, after: seq<TariffTimeSpan>, j: int, tiers: seq<real>)
    requires SplitAt(before, after, j, tiers) && Chronological(before)
    ensures Chronological(after)
  {
    SplitOrigins(before, after, j, tiers);
    forall i | 0 <= i < |after| ensures after[i].startTime < after[i].endTime {
      if i > j + 1 {
        assert before[i - 1].startTime < before[i - 1].endTime;
      }
    }
    forall i | 0 <= i < |after| - 1 ensures after[i].endTime <= after[i + 1].startTime {
      if i == j - 1 {
        assert before[i].endTime <= before[j].startTime;
      } else if i == j + 1 {
        assert before[j].endTime <= before[j + 1].startTime;
      } else if i > j + 1 {
        assert before[i - 1].endTime <= before[i].startTime;
      }
    }
  }

  lemma SplitKeepsContiguous(before: seq<TariffTimeSpan>, after: seq<TariffTimeSpan>, j: int, tiers: seq<real>)
    requires SplitAt(before, after, j, tiers) && Contiguous(before)
    ensures Contiguous(after)
  {
    SplitOrigins(before, after, j, tiers);
    forall i | 0 <= i < |after| - 1 ensures after[i].endTime == after[i + 1].startTime {
      if i == j - 1 {
        assert before[i].endTime == before[j].startTime;
      } else if i == j + 1 {
        assert before[j].endTime == before[j + 1].startTime;
      } else if i > j + 1 {
        assert before[i - 1].endTime == before[i].startTime;
      }
    }
  }

  lemma SplitKeepsTimeline(before: seq<TariffTimeSpan>, after: seq<TariffTimeSpan>, j: int, tiers: seq<real>)
    requires SplitAt(before, after, j, tiers)
    ensures after[0].startTime == before[0].startTime
    ensures after[|after| - 1].endTime == before[|before| - 1].endTime
    ensures Chronological(before) ==> Chronological(after)
    ensures Contiguous(before) ==> Contiguous(after)
  {
    SplitOrigins(before, after, j, tiers);
    if Chronological(before) {
      SplitKeepsChronological(before, after, j, tiers);
    }
    if Contiguous(before) {
      SplitKeepsContiguous(before, after, j, tiers);
    }
  }

  /** On spans in time order, the result is still in time order, starts and ends where
      the input does, and stays gap-free when the input was. */
  lemma AllocationKeepsTimeline(spans: seq<TariffTimeSpan>, tiers: seq<real>, remaining: int)
    requires Chronological(spans)
    ensures var r := SetChargingTariffSpans(spans, tiers, remaining);
      && Chronological(r)
      && (|spans| > 0 ==> r[0].startTime == spans[0].startTime && r[|r| - 1].endTime == spans[|spans| - 1].endTime)
      && (Contiguous(spans) ==> Contiguous(r))
  {
    var r := SetChargingTariffSpans(spans, tiers, remaining);
    AllocationShape(spans, tiers, remaining);
    if FlaggedAll(spans, r, tiers) {
      FlaggedAllKeepsTimeline(spans, r, tiers);
    } else {
      var j :| SplitAt(spans, r, j, tiers);
      SplitKeepsTimeline(spans, r, j, tiers);
    }
  }

  /** No span left without charging is cheaper than a span marked for charging. */
  predicate CheapestFirst(s: seq<TariffTimeSpan>)
  {
    forall a, b :: 0 <= a < |s| && 0 <= b < |s| && s[a].isCharging && !s[b].isCharging ==>
      s[a].energyPrice <= s[b].energyPrice
  }

  /** Charging spans cost at most `level`; the others cost at least `level`. */
  predicate Level(s: seq<TariffTimeSpan>, level: real)
  {
    forall i :: 0 <= i < |s| ==>
      && (s[i].isCharging ==> s[i].energyPrice <= level)
      && (!s[i].isCharging ==> level <= s[i].energyPrice)
  }

  lemma LevelAfterSplit(m: seq<TariffTimeSpan>, j: int, c: TariffTimeSpan, n: TariffTimeSpan, level: real)
    requires Level(m, level) && 0 <= j < |m|
    requires c.isCharging && c.energyPrice == level && !n.isCharging && n.energyPrice == level
    ensures Level(m[..j] + [c, n] + m[j + 1..], level)
  {
    var r := m[..j] + [c, n] + m[j + 1..];
    forall i | 0 <= i < |r|
      ensures (r[i].isCharging ==> r[i].energyPrice <= level) && (!r[i].isCharging ==> level <= r[i].energyPrice)
    {
      if i < j { assert r[i] == m[i]; }
      else if i > j + 1 { assert r[i] == m[i - 1]; }
    }
  }

  /** The split of span `k` keeps every charging span at most `level` and every other at
      least `level`. */
  lemma SplitKeepsLevel(flagged: seq<TariffTimeSpan>, k: int, remaining: int, level: real)
    requires 0 <= k < |flagged| && Level(flagged, level) && flagged[k].energyPrice == level
    ensures Level(SplitSpan(flagged, k, remaining), level)
  {
    var span := flagged[k];
    var cut := span.startTime + remaining;
    var c := TariffTimeSpan(span.startTime, cut, span.energyPrice, true);
    var n := TariffTimeSpan(cut, span.endTime, span.energyPrice, false);
    LevelAfterSplit(flagged, IndexOf(flagged, span), c, n, level);
  }

  lemma {:induction false} ScanTierLevel(spans: seq<TariffTimeSpan>, price: real, k: nat, remaining: int)
    requires k <= |spans| && Level(spans, price)
    ensures Level(ScanTier(spans, price, k, remaining).spans, price)
    decreases |spans| - k
  {
    var a := ScanTier(spans, price, k, remaining);
    if k < |spans| {
      var span := spans[k];
      if span.isCharging || span.energyPrice != price {
        assert a == ScanTier(spans, price, k + 1, remaining);
        ScanTierLevel(spans, price, k + 1, remaining);
      } else {
        var flagged := spans[k := span.(isCharging := true)];
        assert Level(flagged, price);
        if span.Elapsed() <= remaining {
          assert a == ScanTier(flagged, price, k + 1, remaining - span.Elapsed());
          ScanTierLevel(flagged, price, k + 1, remaining - span.Elapsed());
        } else if remaining > 0 {
          assert a.spans == SplitSpan(flagged, k, remaining);
          SplitKeepsLevel(flagged, k, remaining, price);
        } else {
          assert a == Allocation(flagged, remaining);
        }
      }
    }
  }

  /** A scan that leaves charging time over has marked every span at its price. */
  lemma {:induction false} ScanTierMarksTier(spans: seq<TariffTimeSpan>, price: real, k: nat, remaining: int)
    requires k <= |spans|
    requires forall i :: 0 <= i < k && spans[i].energyPrice == price ==> spans[i].isCharging
    ensures ScanTier(spans, price, k, remaining).remaining > 0 ==>
      forall i :: 0 <= i < |spans| && spans[i].energyPrice == price ==> ScanTier(spans, price, k, remaining).spans[i].isCharging
    decreases |spans| - k
  {
    var a := ScanTier(spans, price, k, remaining);
    if k < |spans| && a.remaining > 0 {
      var span := spans[k];
      if span.isCharging || span.energyPrice != price {
        assert a == ScanTier(spans, price, k + 1, remaining);
        ScanTierMarksTier(spans, price, k + 1, remaining);
      } else {
        var flagged := spans[k := span.(isCharging := true)];
        assert span.Elapsed() <= remaining;
        assert a == ScanTier(flagged, price, k + 1, remaining - span.Elapsed());
        ScanTierMarksTier(flagged, price, k + 1, remaining - span.Elapsed());
      }
    }
  }

  lemma InPrefix(tiers: seq<real>, t: int, i: int)
    ensures 0 <= t < i <= |tiers| ==> tiers[t] in tiers[..i]
  {
    if 0 <= t < i <= |tiers| {
      assert tiers[..i][t] == tiers[t];
    }
  }

  /** Every span is priced at a tier, and exactly those priced below tier `i` charge. */
  predicate ChargingBelow(s: seq<TariffTimeSpan>, tiers: seq<real>, i: int)
    requires 0 <= i <= |tiers|
  {
    forall k :: 0 <= k < |s| ==> s[k].energyPrice in tiers && (s[k].isCharging <==> s[k].energyPrice in tiers[..i])
  }

  lemma LevelIsCheapestFirst(s: seq<TariffTimeSpan>, level: real)
    requires Level(s, level)
    ensures CheapestFirst(s)
  {
  }

  /** With ascending tiers, when exactly the spans below tier `i` charge, tier `i` is the
      level that separates charging spans from the others. */
  lemma TierIsLevel(spans: seq<TariffTimeSpan>, tiers: seq<real>, i: int)
    requires 0 <= i < |tiers| && StrictlyAscending(tiers) && ChargingBelow(spans, tiers, i)
    ensures Level(spans, tiers[i])
  {
    var price := tiers[i];
    forall k | 0 <= k < |spans|
      ensures (spans[k].isCharging ==> spans[k].energyPrice <= price)
      ensures (!spans[k].isCharging ==> price <= spans[k].energyPrice)
    {
      var t :| 0 <= t < |tiers| && tiers[t] == spans[k].energyPrice;
      if spans[k].isCharging {
        var u :| 0 <= u < i && tiers[..i][u] == spans[k].energyPrice;
      } else {
        InPrefix(tiers, t, i);
      }
    }
  }

  /** A scan of tier `i` that marks every span at that price moves the boundary to tier
      `i + 1`. */
  lemma NextTierCharging(spans: seq<TariffTimeSpan>, next: seq<TariffTimeSpan>, tiers: seq<real>, i: int)
    requires 0 <= i < |tiers| && ChargingBelow(spans, tiers, i)
    requires FlaggedAll(spans, next, [tiers[i]])
    requires forall k :: 0 <= k < |spans| && spans[k].energyPrice == tiers[i] ==> next[k].isCharging
    ensures ChargingBelow(next, tiers, i + 1)
  {
    FlaggedAllKeepsTimeline(spans, next, [tiers[i]]);
    forall k | 0 <= k < |next|
      ensures next[k].energyPrice in tiers
      ensures next[k].isCharging <==> next[k].energyPrice in tiers[..i + 1]
    {
      assert Flagged(spans[k], next[k], [tiers[i]]);
      var t :| 0 <= t < |tiers| && tiers[t] == next[k].energyPrice;
      assert t <= i ==> tiers[..i + 1][t] == tiers[t];
      assert next[k].energyPrice in tiers[..i + 1] ==> exists u :: 0 <= u <= i && tiers[u] == next[k].energyPrice;
      assert spans[k].energyPrice in tiers[..i] ==> exists u :: 0 <= u < i && tiers[u] == spans[k].energyPrice;
      assert t < i ==> tiers[..i][t] == tiers[t];
    }
  }

  lemma {:induction false} AllocateTiersCheapestFirst(spans: seq<TariffTimeSpan>, tiers: seq<real>, i: nat, remaining: int)
    requires i <= |tiers| && StrictlyAscending(tiers) && ChargingBelow(spans, tiers, i)
    ensures CheapestFirst(AllocateTiers(spans, tiers, i, remaining).spans)
    decreases |tiers| - i
  {
    if i == |tiers| {
      assert tiers[..i] == tiers;
    } else {
      var price := tiers[i];
      TierIsLevel(spans, tiers, i);
      var scanned := ScanTier(spans, price, 0, remaining);
      ScanTierLevel(spans, price, 0, remaining);
      if scanned.remaining > 0 {
        ScanTierMarksTier(spans, price, 0, remaining);
        ScanTierFlags(spans, price, 0, remaining);
        NextTierCharging(spans, scanned.spans, tiers, i);
        AllocateTiersCheapestFirst(scanned.spans, tiers, i + 1, scanned.remaining);
      } else {
        LevelIsCheapestFirst(scanned.spans, price);
      }
    }
  }

  /** Cheapest first: with strictly ascending tiers that include every span's price,
      and no span charging beforehand, no span left without charging is cheaper than
      one marked for charging. */
  lemma AllocationIsCheapestFirst(spans: seq<TariffTimeSpan>, tiers: seq<real>, remaining: int)
    requires StrictlyAscending(tiers)
    requires forall k :: 0 <= k < |spans| ==> spans[k].energyPrice in tiers
    requires forall k :: 0 <= k < |spans| ==> !spans[k].isCharging
    ensures CheapestFirst(SetChargingTariffSpans(spans, tiers, remaining))
  {
    assert ChargingBelow(spans, tiers, 0);
    AllocateTiersCheapestFirst(spans, tiers, 0, remaining);
  }
}
