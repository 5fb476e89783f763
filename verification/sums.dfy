/** Sums of an integer measure over a sequence, with the algebra the proofs need. */
module Sums {

  function Sum<T>(s: seq<T>, f: T -> int): int
    decreases |s|
  {
    if |s| == 0 then 0 else f(s[0]) + Sum(s[1..], f)
  }

  lemma {:induction false} SumConcat<T>(a: seq<T>, b: seq<T>, f: T -> int)
    ensures Sum(a + b, f) == Sum(a, f) + Sum(b, f)
    decreases |a|
  {
    if |a| == 0 {
      assert a + b == b;
    } else {
      assert (a + b)[1..] == a[1..] + b;
      SumConcat(a[1..], b, f);
    }
  }

  /** Replacing the element at `k` changes the sum by the difference of the measures. */
  lemma SumUpdate<T>(s: seq<T>, k: int, x: T, f: T -> int)
    requires 0 <= k < |s|
    ensures Sum(s[k := x], f) == Sum(s, f) - f(s[k]) + f(x)
  {
    assert s == s[..k] + [s[k]] + s[k+1..];
    assert s[k := x] == s[..k] + [x] + s[k+1..];
    SumConcat(s[..k] + [s[k]], s[k+1..], f);
    SumConcat(s[..k], [s[k]], f);
    SumConcat(s[..k] + [x], s[k+1..], f);
    SumConcat(s[..k], [x], f);
  }

  /** A sum splits around any position. */
  lemma SumAround<T>(s: seq<T>, k: int, f: T -> int)
    requires 0 <= k < |s|
    ensures Sum(s, f) == Sum(s[..k], f) + f(s[k]) + Sum(s[k+1..], f)
  {
    var tail := s[k..];
    assert s == s[..k] + tail;
    SumConcat(s[..k], tail, f);
    assert tail[1..] == s[k+1..];
  }

  lemma SumPairThen<T>(x: T, y: T, post: seq<T>, f: T -> int)
    ensures Sum([x, y] + post, f) == f(x) + f(y) + Sum(post, f)
  {
    var t := [x, y] + post;
    assert t[1..] == [y] + post;
    assert t[1..][1..] == post;
  }

  /** Replacing the element at `k` by two elements changes the sum accordingly. */
  lemma SumReplacePair<T>(s: seq<T>, k: int, x: T, y: T, f: T -> int)
    requires 0 <= k < |s|
    ensures Sum(s[..k] + [x, y] + s[k+1..], f) == Sum(s, f) - f(s[k]) + f(x) + f(y)
  {
    var pre, post := s[..k], s[k+1..];
    assert pre + [x, y] + post == pre + ([x, y] + post);
    SumConcat(pre, [x, y] + post, f);
    SumPairThen(x, y, post, f);
    SumAround(s, k, f);
  }

  lemma {:induction false} SumNonNegative<T>(s: seq<T>, f: T -> int)
    requires forall i :: 0 <= i < |s| ==> f(s[i]) >= 0
    ensures Sum(s, f) >= 0
    decreases |s|
  {
    if |s| > 0 {
      assert forall i :: 0 <= i < |s[1..]| ==> s[1..][i] == s[i + 1];
      SumNonNegative(s[1..], f);
    }
  }

  /** A sum of non-negative measures bounds each measure. */
  lemma SumBoundsElement<T>(s: seq<T>, k: int, f: T -> int)
    requires 0 <= k < |s|
    requires forall i :: 0 <= i < |s| ==> f(s[i]) >= 0
    ensures f(s[k]) <= Sum(s, f)
  {
    SumUpdate(s, k, s[k], f);
    assert s[k := s[k]] == s;
    var t := s[..k] + s[k+1..];
    assert s == s[..k] + [s[k]] + s[k+1..];
    SumConcat(s[..k] + [s[k]], s[k+1..], f);
    SumConcat(s[..k], [s[k]], f);
    SumConcat(s[..k], s[k+1..], f);
    assert forall i :: 0 <= i < |t| ==> f(t[i]) >= 0 by {
      forall i | 0 <= i < |t| ensures f(t[i]) >= 0 {
        if i < k { assert t[i] == s[i]; } else { assert t[i] == s[i + 1]; }
      }
    }
    SumNonNegative(t, f);
  }

  /** A sum of non-negative measures is zero only when every measure is zero. */
  lemma {:induction false} SumZero<T>(s: seq<T>, f: T -> int)
    requires forall i :: 0 <= i < |s| ==> f(s[i]) >= 0
    requires Sum(s, f) == 0
    ensures forall i :: 0 <= i < |s| ==> f(s[i]) == 0
  {
    forall i | 0 <= i < |s| ensures f(s[i]) == 0 {
      SumBoundsElement(s, i, f);
    }
  }

  /** Sums are monotone in the measure. */
  lemma {:induction false} SumMonotone<T>(s: seq<T>, f: T -> int, g: T -> int)
    requires forall i :: 0 <= i < |s| ==> f(s[i]) <= g(s[i])
    ensures Sum(s, f) <= Sum(s, g)
    decreases |s|
  {
    if |s| > 0 {
      assert forall i :: 0 <= i < |s[1..]| ==> s[1..][i] == s[i + 1];
      SumMonotone(s[1..], f, g);
    }
  }

  /** A sum of zero measures is zero. */
  lemma {:induction false} SumOfZeros<T>(s: seq<T>, f: T -> int)
    requires forall i :: 0 <= i < |s| ==> f(s[i]) == 0
    ensures Sum(s, f) == 0
    decreases |s|
  {
    if |s| > 0 {
      assert forall i :: 0 <= i < |s[1..]| ==> s[1..][i] == s[i + 1];
      SumOfZeros(s[1..], f);
    }
  }
}
