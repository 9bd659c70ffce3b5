/**
 Summary of measured values: minimum, maximum and interpolated percentiles.
 */
module Percentiles {
  import opened Common

  datatype Bucket = Bucket(p50: real, p95: real, p99: real, min: real, max: real)

  const EMPTY := Bucket(0.0, 0.0, 0.0, 0.0, 0.0)

  ghost predicate Sorted(s: seq<real>) {
    forall i, j :: 0 <= i < j < |s| ==> s[i] <= s[j]
  }

  // ---------------------------------------------------------------------------
  // Sorting
  // ---------------------------------------------------------------------------

  function Insert(s: seq<real>, x: real): (r: seq<real>)
    ensures multiset(r) == multiset(s) + multiset{x}
  {
    if s == [] then [x]
    else if x <= s[0] then [x] + s
    else
      assert s == [s[0]] + s[1..];
      [s[0]] + Insert(s[1..], x)
  }

  function Sort(s: seq<real>): (r: seq<real>)
    ensures |r| == |s| && multiset(r) == multiset(s)
  {
    if s == [] then []
    else
      assert s == [s[0]] + s[1..];
      var r := Insert(Sort(s[1..]), s[0]);
      assert |multiset(r)| == |multiset(s)|;
      r
  }

  lemma {:induction false} InsertKeepsSorted(s: seq<real>, x: real)
    requires Sorted(s)
    ensures Sorted(Insert(s, x))
  {
    if s != [] && x > s[0] {
      InsertKeepsSorted(s[1..], x);
      var r := Insert(s[1..], x);
      forall k | 0 <= k < |r| ensures s[0] <= r[k] {
        assert r[k] in multiset(r);
      }
    }
  }

  lemma {:induction false} SortSorts(s: seq<real>)
    ensures Sorted(Sort(s))
  {
    if s != [] {
      SortSorts(s[1..]);
      InsertKeepsSorted(Sort(s[1..]), s[0]);
    }
  }

  lemma HeadIsLeast(s: seq<real>, x: real)
    requires Sorted(s) && x in multiset(s)
    ensures s != [] && s[0] <= x
  {
    assert x in s;
  }

  lemma WithoutHead(s: seq<real>)
    requires s != []
    ensures multiset(s[1..]) == multiset(s) - multiset{s[0]}
  {
    assert s == [s[0]] + s[1..];
  }

  lemma HeadsAgree(s: seq<real>, t: seq<real>)
    requires Sorted(s) && Sorted(t) && multiset(s) == multiset(t) && s != []
    ensures t != [] && s[0] == t[0] && multiset(s[1..]) == multiset(t[1..])
    ensures Sorted(s[1..]) && Sorted(t[1..])
  {
    assert s[0] in multiset(s);
    HeadIsLeast(t, s[0]);
    assert t[0] in multiset(t);
    HeadIsLeast(s, t[0]);
    WithoutHead(s);
    WithoutHead(t);
  }

  /** There is only one way to sort. */
  lemma {:induction false} SortedIsUnique(s: seq<real>, t: seq<real>)
    requires Sorted(s) && Sorted(t) && multiset(s) == multiset(t)
    ensures s == t
  {
    hide Sorted;
    if s == [] {
      assert |multiset(t)| == 0;
    } else {
      HeadsAgree(s, t);
      SortedIsUnique(s[1..], t[1..]);
    }
  }

  // ---------------------------------------------------------------------------
  // Interpolation
  // ---------------------------------------------------------------------------

  function Ceil(r: real): int {
    -(-r).Floor
  }

  function Rank(n: nat, pct: real): real
    requires n > 0
  {
    pct / 100.0 * (n - 1) as real
  }

  lemma RankRange(n: nat, p: real, q: real)
    requires n > 0 && 0.0 <= p <= q <= 100.0
    ensures 0.0 <= Rank(n, p) <= Rank(n, q) <= (n - 1) as real
  {
    var m := (n - 1) as real;
    var a, b := p / 100.0, q / 100.0;
    assert 0.0 <= a <= b <= 1.0;
    Product(a, m);
    Product(b - a, m);
    Product(1.0 - b, m);
  }

  /** The value at a fractional position of a list. */
  function At(s: seq<real>, rank: real): real
    requires 0.0 <= rank <= (|s| - 1) as real
  {
    var lower, upper := rank.Floor, Ceil(rank);
    if lower == upper then s[lower]
    else
      var frac := rank - lower as real;
      s[lower] * (1.0 - frac) + s[upper] * frac
  }

  function Percentile(sorted: seq<real>, pct: real): real
    requires 0.0 <= pct <= 100.0
  {
    if sorted == [] then 0.0
    else
      RankRange(|sorted|, pct, pct);
      At(sorted, Rank(|sorted|, pct))
  }

  /** A fraction of the way from `a` to `b`. */
  function Blend(a: real, b: real, f: real): real {
    a * (1.0 - f) + b * f
  }

  lemma BlendIsMonotone(a: real, b: real, f: real, g: real)
    requires a <= b && 0.0 <= f <= g <= 1.0
    ensures a <= Blend(a, b, f) <= Blend(a, b, g) <= b
  {
    Product(b - a, f);
    Product(b - a, g - f);
    Product(b - a, 1.0 - g);
    assert Blend(a, b, f) == a + (b - a) * f && Blend(a, b, g) == a + (b - a) * g;
  }

  lemma CeilIsNext(rank: real)
    ensures Ceil(rank) == if rank == rank.Floor as real then rank.Floor else rank.Floor + 1
  {
  }

  /** Below the last position a value is a blend of two neighbours, also at a whole position. */
  lemma AtIsBlend(s: seq<real>, rank: real, k: nat)
    requires 0.0 <= rank < (|s| - 1) as real && k == rank.Floor
    ensures k + 1 < |s| && 0.0 <= rank - k as real < 1.0
    ensures At(s, rank) == Blend(s[k], s[k + 1], rank - k as real)
  {
    CeilIsNext(rank);
    var f := rank - k as real;
    if f == 0.0 {
      assert s[k + 1] * f == 0.0;
    }
  }

  /** A sorted list is non-decreasing at fractional positions too. */
  lemma AtIsMonotone(s: seq<real>, r: real, q: real)
    requires Sorted(s) && 0.0 <= r <= q <= (|s| - 1) as real
    ensures At(s, r) <= At(s, q)
  {
    hide At, Blend;
    if r < q {
      var k: nat := r.Floor;
      var f := r - k as real;
      AtIsBlend(s, r, k);
      BlendIsMonotone(s[k], s[k + 1], f, f);
      if q == (|s| - 1) as real {
        AtEnd(s);
      } else {
        var m: nat := q.Floor;
        var g := q - m as real;
        AtIsBlend(s, q, m);
        BlendIsMonotone(s[m], s[m + 1], g, g);
        if k == m {
          BlendIsMonotone(s[k], s[k + 1], f, g);
        } else {
          assert k + 1 <= m;
          assert s[k + 1] <= s[m];
        }
      }
    }
  }

  lemma AtEnd(s: seq<real>)
    requires s != []
    ensures At(s, (|s| - 1) as real) == s[|s| - 1]
  {
  }

  /** Between two whole ranks the value lies on the line between their two values, in proportion. */
  lemma PercentileInterpolates(s: seq<real>, pct: real, k: nat)
    requires 0.0 <= pct <= 100.0 && k + 1 < |s|
    requires 100.0 * k as real <= pct * (|s| - 1) as real < 100.0 * (k + 1) as real
    ensures Percentile(s, pct) == s[k] + (s[k + 1] - s[k]) * (pct * (|s| - 1) as real / 100.0 - k as real)
  {
    hide At;
    var rank := Rank(|s|, pct);
    RankRange(|s|, pct, pct);
    RankIsPart(|s|, pct);
    AtIsBlend(s, rank, k);
    BlendIsLinear(s[k], s[k + 1], rank - k as real);
  }

  lemma RankIsPart(n: nat, pct: real)
    requires n > 0
    ensures Rank(n, pct) == pct * (n - 1) as real / 100.0
  {
  }

  lemma BlendIsLinear(a: real, b: real, f: real)
    ensures Blend(a, b, f) == a + (b - a) * f
  {
  }

  /**
   The percentile in whole numbers: rank `pct * (n - 1) / 100`, and where that leaves a remainder,
   as many hundredths of the way to the next value.
   */
  ghost predicate IsPercentile(s: seq<real>, pct: nat, v: real)
    requires s != [] && pct <= 100
  {
    var k, rest := pct * (|s| - 1) / 100, pct * (|s| - 1) % 100;
    WholeRank(|s|, pct);
    v == if rest == 0 then s[k] else s[k] + (s[k + 1] - s[k]) * (rest as real / 100.0)
  }

  lemma WholeRank(n: nat, pct: nat)
    requires n > 0 && pct <= 100
    ensures 0 <= pct * (n - 1) / 100 < n
    ensures pct * (n - 1) % 100 != 0 ==> pct * (n - 1) / 100 + 1 < n
    ensures pct * (n - 1) / 100 == n - 1 ==> pct * (n - 1) % 100 == 0 && (pct == 100 || n == 1)
  {
    assert pct * (n - 1) <= 100 * (n - 1) by { ProductGrows(pct, 100, n - 1); }
    assert pct * (n - 1) >= 0 by { ProductGrows(0, pct, n - 1); }
    if n > 1 && pct < 100 {
      assert pct * (n - 1) <= 99 * (n - 1) by { ProductGrows(pct, 99, n - 1); }
    }
  }

  lemma ProductGrows(a: nat, b: nat, m: nat)
    requires a <= b
    ensures a * m <= b * m
  {
  }

  lemma SameProductInReals(pct: nat, m: nat)
    ensures pct as real * m as real == (pct * m) as real
  {
  }

  /** For every list and every whole percentage. */
  lemma PercentileIsExact(s: seq<real>, pct: nat)
    requires s != [] && pct <= 100
    ensures IsPercentile(s, pct, Percentile(s, pct as real))
  {
    hide Percentile;
    var m := pct * (|s| - 1);
    var k, rest := m / 100, m % 100;
    WholeRank(|s|, pct);
    if k == |s| - 1 {
      EndIsLast(s, pct);
    } else {
      SameProductInReals(pct, |s| - 1);
      assert m == 100 * k + rest;
      assert m as real == 100.0 * k as real + rest as real;
      PercentileInterpolates(s, pct as real, k);
      assert m as real / 100.0 - k as real == rest as real / 100.0;
    }
  }

  lemma EndIsLast(s: seq<real>, pct: nat)
    requires s != [] && pct <= 100 && (pct == 100 || |s| == 1)
    ensures Percentile(s, pct as real) == s[|s| - 1]
  {
    hide At;
    AtEnd(s);
  }

  /** Higher percentages give higher values, from the minimum at 0 to the maximum at 100. */
  lemma PercentileIsMonotone(s: seq<real>, p: real, q: real)
    requires Sorted(s) && 0.0 <= p <= q <= 100.0
    ensures Percentile(s, p) <= Percentile(s, q)
    ensures s != [] ==> Percentile(s, 0.0) == s[0] && Percentile(s, 100.0) == s[|s| - 1]
  {
    hide At;
    if s != [] {
      RankRange(|s|, p, q);
      AtIsMonotone(s, Rank(|s|, p), Rank(|s|, q));
      AtEnd(s);
      AtStart(s);
    }
  }

  lemma AtStart(s: seq<real>)
    requires s != []
    ensures At(s, 0.0) == s[0]
  {
  }

  // ---------------------------------------------------------------------------
  // Buckets
  // ---------------------------------------------------------------------------

  function SummaryOf(sorted: seq<real>): Bucket
    requires sorted != []
  {
    Bucket(Percentile(sorted, 50.0), Percentile(sorted, 95.0), Percentile(sorted, 99.0), sorted[0], sorted[|sorted| - 1])
  }

  function BucketOf(values: seq<real>): Bucket {
    if values == [] then EMPTY else SummaryOf(Sort(values))
  }

  /** Whatever was measured, the figures of a bucket are in order. */
  lemma {:induction false} BucketIsOrdered(values: seq<real>)
    ensures
      var b := BucketOf(values);
      b.min <= b.p50 <= b.p95 <= b.p99 <= b.max
  {
    hide Percentile;
    if values != [] {
      var s := Sort(values);
      SortSorts(values);
      PercentileIsMonotone(s, 0.0, 50.0);
      PercentileIsMonotone(s, 50.0, 95.0);
      PercentileIsMonotone(s, 95.0, 99.0);
      PercentileIsMonotone(s, 99.0, 100.0);
    }
  }

  /** The minimum and maximum are measured values that bound all of them. */
  lemma BucketBounds(values: seq<real>)
    requires values != []
    ensures BucketOf(values).min in values && BucketOf(values).max in values
    ensures forall k :: 0 <= k < |values| ==> BucketOf(values).min <= values[k] <= BucketOf(values).max
  {
    hide Percentile;
    var s := Sort(values);
    SortSorts(values);
    assert s[0] in multiset(values) && s[|s| - 1] in multiset(values);
    forall k | 0 <= k < |values| ensures s[0] <= values[k] <= s[|s| - 1] {
      assert values[k] in multiset(s);
    }
  }

  /** A bucket does not depend on the order of measurement. */
  lemma {:induction false} BucketIgnoresOrder(v: seq<real>, w: seq<real>)
    requires multiset(v) == multiset(w)
    ensures BucketOf(v) == BucketOf(w)
  {
    hide Percentile;
    assert |multiset(v)| == |v| && |multiset(w)| == |w|;
    SortSorts(v);
    SortSorts(w);
    SortedIsUnique(Sort(v), Sort(w));
  }

  /** Of a hundred and one values, the percentiles are the ones at their own positions. */
  lemma PercentilesOfHundredAndOne(values: seq<real>)
    requires |values| == 101
    ensures
      var b, s := BucketOf(values), Sort(values);
      b.p50 == s[50] && b.p95 == s[95] && b.p99 == s[99]
  {
    var s := Sort(values);
    assert Rank(101, 50.0) == 50.0 && Rank(101, 95.0) == 95.0 && Rank(101, 99.0) == 99.0;
    AtIsBlend(s, 50.0, 50);
    AtIsBlend(s, 95.0, 95);
    AtIsBlend(s, 99.0, 99);
  }

  /** Summarise, sorting the values where they are. */
  method ComputeBucket(values: array<real>) returns (b: Bucket)
    modifies values
    ensures b == BucketOf(old(values[..]))
    ensures Sorted(values[..]) && multiset(values[..]) == multiset(old(values[..]))
    ensures values.Length == 0 ==> b == Bucket(0.0, 0.0, 0.0, 0.0, 0.0)
    ensures values.Length > 0 ==>
      && IsPercentile(values[..], 50, b.p50) && IsPercentile(values[..], 95, b.p95) && IsPercentile(values[..], 99, b.p99)
      && b.min == values[0] && b.max == values[values.Length - 1]
  {
    hide Percentile, IsPercentile, Sort, Sorted;
    if values.Length == 0 {
      SortSorts([]);
      return EMPTY;
    }
    SortFloats(values);
    b := SummaryOf(values[..]);
    PercentileIsExact(values[..], 50);
    PercentileIsExact(values[..], 95);
    PercentileIsExact(values[..], 99);
  }

  /** The library's sort. */
  method SortFloats(a: array<real>)
    modifies a
    ensures a[..] == Sort(old(a[..])) && Sorted(a[..])
  {
    var s := Sort(a[..]);
    SortSorts(a[..]);
    forall i | 0 <= i < a.Length {
      a[i] := s[i];
    }
    assert a[..] == s;
  }
}
