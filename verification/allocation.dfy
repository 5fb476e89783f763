/** SetChargingTariffSpans: marking spans for charging, cheapest price tier first, until
    the required charging time is placed, splitting at most one span. */
module Allocation {
  import opened Sums
  import opened Entities

  /** List.IndexOf: the position of the first element equal to `x` (records compare by
      value), or -1 when there is none. */
  function IndexOf<T(==)>(s: seq<T>, x: T): (r: int)
    ensures -1 <= r < |s|
    ensures r == -1 <==> x !in s
    ensures 0 <= r ==> s[r] == x && forall k :: 0 <= k < r ==> s[k] != x
  {
    IndexFrom(s, x, 0)
  }

  /** The search of IndexOf from position `i` on. */
  function IndexFrom<T(==)>(s: seq<T>, x: T, i: nat): (r: int)
    requires i <= |s|
    ensures r == -1 || i <= r < |s|
    ensures r == -1 <==> forall k :: i <= k < |s| ==> s[k] != x
    ensures 0 <= r ==> s[r] == x && forall k :: i <= k < r ==> s[k] != x
    decreases |s| - i
  {
    if i == |s| then -1
    else if s[i] == x then i
    else IndexFrom(s, x, i + 1)
  }

  /** List.Insert. */
  function Insert<T>(s: seq<T>, i: int, x: T): seq<T>
    requires 0 <= i <= |s|
  {
    s[..i] + [x] + s[i..]
  }

  /** List.Remove: drops the first element equal to `x`, if there is one. */
  function Remove<T(==)>(s: seq<T>, x: T): seq<T>
  {
    var i := IndexOf(s, x);
    if i < 0 then s else s[..i] + s[i + 1..]
  }

  /** The split as the loop performs it: insert the charging piece after the first span
      equal to `x`, insert the remainder after that span again, then remove that span.
      The two pieces take the place of the first span equal to `x`. */
  function ReplaceInPlace(s: seq<TariffTimeSpan>, x: TariffTimeSpan, charging: TariffTimeSpan, rest: TariffTimeSpan)
    : (r: seq<TariffTimeSpan>)
    requires x in s
    ensures r == s[..IndexOf(s, x)] + [charging, rest] + s[IndexOf(s, x) + 1..]
  {
    var j := IndexOf(s, x);
    var pre, post := s[..j], s[j + 1..];
    AroundFirst(s, x);
    var once := Insert(s, j + 1, charging);
    InsertAfterFirst(pre, x, post, charging);
    var twice := Insert(once, IndexOf(once, x) + 2, rest);
    InsertAfterSecond(pre, x, charging, post, rest);
    RemoveFirst(pre, x, [charging, rest] + post);
    Remove(twice, x)
  }

  /** The first element equal to `x` is preceded by none equal to it. */
  lemma AroundFirst<T>(s: seq<T>, x: T)
    requires x in s
    ensures var j := IndexOf(s, x); s == s[..j] + [x] + s[j + 1..] && x !in s[..j]
  {
    var j := IndexOf(s, x);
    assert forall y :: y in s[..j] ==> y != x;
  }

  lemma FirstAfter<T>(pre: seq<T>, x: T, post: seq<T>)
    requires x !in pre
    ensures IndexOf(pre + [x] + post, x) == |pre|
  {
    var s := pre + [x] + post;
    assert s[|pre|] == x;
    forall k | 0 <= k < |pre| ensures s[k] != x {
      assert s[k] == pre[k];
    }
  }

  lemma InsertAfterFirst<T>(pre: seq<T>, x: T, post: seq<T>, y: T)
    requires x !in pre
    ensures Insert(pre + [x] + post, |pre| + 1, y) == pre + [x] + ([y] + post)
    ensures IndexOf(pre + [x] + ([y] + post), x) == |pre|
  {
    var s := pre + [x] + post;
    assert s[..|pre| + 1] == pre + [x];
    assert s[|pre| + 1..] == post;
    FirstAfter(pre, x, [y] + post);
  }

  lemma InsertAfterSecond<T>(pre: seq<T>, x: T, y: T, post: seq<T>, z: T)
    requires x !in pre
    ensures Insert(pre + [x] + ([y] + post), |pre| + 2, z) == pre + [x] + ([y, z] + post)
    ensures IndexOf(pre + [x] + ([y, z] + post), x) == |pre|
  {
    var s := pre + [x] + ([y] + post);
    assert s[..|pre| + 2] == pre + [x] + [y];
    assert s[|pre| + 2..] == post;
    FirstAfter(pre, x, [y, z] + post);
  }

  lemma RemoveFirst<T>(pre: seq<T>, x: T, post: seq<T>)
    requires x !in pre
    ensures Remove(pre + [x] + post, x) == pre + post
  {
    FirstAfter(pre, x, post);
    var s := pre + [x] + post;
    assert s[..|pre|] == pre;
    assert s[|pre| + 1..] == post;
  }

  /** Two elements in place of the one at `k`: where each element of the result comes
      from. */
  lemma PairInPlace<T>(s: seq<T>, k: int, c: T, n: T)
    requires 0 <= k < |s|
    ensures var r := s[..k] + [c, n] + s[k + 1..];
      && |r| == |s| + 1 && r[k] == c && r[k + 1] == n
      && (forall i :: 0 <= i < k ==> r[i] == s[i])
      && (forall i :: k < i < |s| ==> r[i + 1] == s[i])
  {
  }

  /** `after` is `before`, or `before` newly marked for charging at one of the `tiers`. */
  predicate Flagged(before: TariffTimeSpan, after: TariffTimeSpan, tiers: seq<real>)
  {
    || after == before
    || (!before.isCharging && before.energyPrice in tiers && after == before.(isCharging := true))
  }

  /** Position by position, `after` only marks spans of `before` for charging. */
  predicate FlaggedAll(before: seq<TariffTimeSpan>, after: seq<TariffTimeSpan>, tiers: seq<real>)
  {
    && |after| == |before|
    && forall i :: 0 <= i < |before| ==> Flagged(before[i], after[i], tiers)
  }

  lemma FlaggedAllTrans(a: seq<TariffTimeSpan>, b: seq<TariffTimeSpan>, c: seq<TariffTimeSpan>, tiers: seq<real>)
    ensures FlaggedAll(a, b, tiers) && FlaggedAll(b, c, tiers) ==> FlaggedAll(a, c, tiers)
  {
    if FlaggedAll(a, b, tiers) && FlaggedAll(b, c, tiers) {
      forall i | 0 <= i < |a| ensures Flagged(a[i], c[i], tiers) {
        assert Flagged(a[i], b[i], tiers) && Flagged(b[i], c[i], tiers);
      }
    }
  }

  lemma FlaggedAllWiden(a: seq<TariffTimeSpan>, b: seq<TariffTimeSpan>, price: real, tiers: seq<real>)
    ensures FlaggedAll(a, b, [price]) && price in tiers ==> FlaggedAll(a, b, tiers)
  {
    if FlaggedAll(a, b, [price]) && price in tiers {
      forall i | 0 <= i < |a| ensures Flagged(a[i], b[i], tiers) {
        assert Flagged(a[i], b[i], [price]);
      }
    }
  }

  lemma FlaggedAllKeepsTimeline(a: seq<TariffTimeSpan>, b: seq<TariffTimeSpan>, tiers: seq<real>)
    requires FlaggedAll(a, b, tiers)
    ensures forall i :: 0 <= i < |a| ==>
      b[i].startTime == a[i].startTime && b[i].endTime == a[i].endTime && b[i].energyPrice == a[i].energyPrice
    ensures forall i :: 0 <= i < |a| ==> a[i].isCharging ==> b[i].isCharging
    ensures Chronological(a) ==> Chronological(b)
    ensures Contiguous(a) ==> Contiguous(b)
  {
    assert forall i :: 0 <= i < |a| ==> Flagged(a[i], b[i], tiers);
  }

  /** Price tiers in strictly ascending order, as `Distinct().Order()` leaves them. */
  predicate StrictlyAscending(tiers: seq<real>)
  {
    forall a, b :: 0 <= a < b < |tiers| ==> tiers[a] < tiers[b]
  }

  /** The loop's running state: the spans and the charging time still to place. */
  datatype Allocation = Allocation(spans: seq<TariffTimeSpan>, remaining: int)

  /** The inner `foreach` over the spans for one price tier, resumed at position `k`. */
  function ScanTier(spans: seq<TariffTimeSpan>, price: real, k: nat, remaining: int): (a: Allocation)
    requires k <= |spans|
    ensures |spans| <= |a.spans| <= |spans| + 1
    ensures |a.spans| == |spans| + 1 ==> a.remaining == 0
    decreases |spans| - k
  {
    if k == |spans| then Allocation(spans, remaining)
    else
      var span := spans[k];
      if span.isCharging || span.energyPrice != price then ScanTier(spans, price, k + 1, remaining)
      else
        var flagged := spans[k := span.(isCharging := true)];
        var elapsed := span.Elapsed();
        if elapsed <= remaining then ScanTier(flagged, price, k + 1, remaining - elapsed)
        else if remaining <= 0 then Allocation(flagged, remaining)
        else Allocation(SplitSpan(flagged, k, remaining), 0)
  }

  /** A scan that splits nothing only marks spans at its price. */
  lemma {:induction false} ScanTierFlags(spans: seq<TariffTimeSpan>, price: real, k: nat, remaining: int)
    requires k <= |spans|
    ensures var a := ScanTier(spans, price, k, remaining);
      |a.spans| == |spans| ==> FlaggedAll(spans, a.spans, [price])
    decreases |spans| - k
  {
    var a := ScanTier(spans, price, k, remaining);
    if k < |spans| && |a.spans| == |spans| {
      var span := spans[k];
      if span.isCharging || span.energyPrice != price {
        ScanTierFlags(spans, price, k + 1, remaining);
      } else {
        var flagged := spans[k := span.(isCharging := true)];
        assert FlaggedAll(spans, flagged, [price]);
        if span.Elapsed() <= remaining {
          ScanTierFlags(flagged, price, k + 1, remaining - span.Elapsed());
          FlaggedAllTrans(spans, flagged, a.spans, [price]);
        }
      }
    }
  }

  /** The span at `k` is replaced by a charging piece of length `remaining` and a
      non-charging remainder, both at its price, at the place of the first span equal to
      it; `SplitSpanIsListSteps` shows this is what the three list calls do. */
  function SplitSpan(spans: seq<TariffTimeSpan>, k: int, remaining: int): (r: seq<TariffTimeSpan>)
    requires 0 <= k < |spans|
    ensures |r| == |spans| + 1
    ensures var j := IndexOf(spans, spans[k]);
      && 0 <= j <= k
      && r[..j] == spans[..j] && r[j + 2..] == spans[j + 1..]
      && r[j].isCharging && !r[j + 1].isCharging
      && r[j].startTime == spans[k].startTime && r[j].endTime - r[j].startTime == remaining
      && r[j].endTime == r[j + 1].startTime && r[j + 1].endTime == spans[k].endTime
      && r[j].energyPrice == spans[k].energyPrice && r[j + 1].energyPrice == spans[k].energyPrice
  {
    var span := spans[k];
    var j := IndexOf(spans, span);
    spans[..j] + [Charged(span, remaining), Rest(span, remaining)] + spans[j + 1..]
  }

  /** The charging piece of a split: from the span's start for `remaining` ticks. */
  function Charged(span: TariffTimeSpan, remaining: int): TariffTimeSpan
  {
    TariffTimeSpan(span.startTime, span.startTime + remaining, span.energyPrice, true)
  }

  /** The non-charging remainder of a split: from the cut to the span's end. */
  function Rest(span: TariffTimeSpan, remaining: int): TariffTimeSpan
  {
    TariffTimeSpan(span.startTime + remaining, span.endTime, span.energyPrice, false)
  }

  /** The split is exactly Insert after the span, Insert after the charging piece, then
      Remove of the span. */
  lemma SplitSpanIsListSteps(spans: seq<TariffTimeSpan>, k: int, remaining: int)
    requires 0 <= k < |spans|
    ensures SplitSpan(spans, k, remaining) ==
      ReplaceInPlace(spans, spans[k], Charged(spans[k], remaining), Rest(spans[k], remaining))
  {
  }

  /** The outer loop over the price tiers, from tier `i` on; it stops once no charging
      time remains. */
  function AllocateTiers(spans: seq<TariffTimeSpan>, tiers: seq<real>, i: nat, remaining: int): (a: Allocation)
    requires i <= |tiers|
    ensures |spans| <= |a.spans| <= |spans| + 1
    ensures |a.spans| == |spans| + 1 ==> a.remaining == 0
    decreases |tiers| - i
  {
    if i == |tiers| then Allocation(spans, remaining)
    else
      var scanned := ScanTier(spans, tiers[i], 0, remaining);
      if scanned.remaining <= 0 then scanned
      else AllocateTiers(scanned.spans, tiers, i + 1, scanned.remaining)
  }

  /** The tiers' loop, when it splits nothing, only marks spans at prices of the tiers. */
  lemma {:induction false} AllocateTiersFlags(spans: seq<TariffTimeSpan>, tiers: seq<real>, i: nat, remaining: int)
    requires i <= |tiers|
    ensures var a := AllocateTiers(spans, tiers, i, remaining);
      |a.spans| == |spans| ==> FlaggedAll(spans, a.spans, tiers)
    decreases |tiers| - i
  {
    var a := AllocateTiers(spans, tiers, i, remaining);
    if i < |tiers| && |a.spans| == |spans| {
      var scanned := ScanTier(spans, tiers[i], 0, remaining);
      ScanTierFlags(spans, tiers[i], 0, remaining);
      FlaggedAllWiden(spans, scanned.spans, tiers[i], tiers);
      if scanned.remaining > 0 {
        AllocateTiersFlags(scanned.spans, tiers, i + 1, scanned.remaining);
        FlaggedAllTrans(spans, scanned.spans, a.spans, tiers);
      }
    }
  }

  /** SetChargingTariffSpans: marks spans for charging in place, given the price tiers and
      the charging time (ticks) to place. Spans are only ever marked, and only at a price
      of `tiers`, unless one span is split. */
  function SetChargingTariffSpans(spans: seq<TariffTimeSpan>, tiers: seq<real>, remainingChargingTime: int)
    : (r: seq<TariffTimeSpan>)
    ensures |spans| <= |r| <= |spans| + 1
    ensures |r| == |spans| ==> FlaggedAll(spans, r, tiers)
  {
    AllocateTiersFlags(spans, tiers, 0, remainingChargingTime);
    AllocateTiers(spans, tiers, 0, remainingChargingTime).spans
  }
}
