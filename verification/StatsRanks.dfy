/** What the statistics are, by counting: the entry with so many below and so many above, or a point between two. */
module StatsRanks {
  import opened Wrappers
  import opened Stats

  /** `x` is an entry with at most `k` entries below it and at most `|s| - 1 - k` above it. */
  predicate Ranked(s: seq<real>, k: nat, x: real) {
    k < |s| && x in s && CountBelow(s, x) <= k && CountAbove(s, x) <= |s| - 1 - k
  }

  lemma {:induction false} BelowOrAbove(s: seq<real>, x: real, y: real)
    requires x < y
    ensures CountBelow(s, y) + CountAbove(s, x) >= |s|
  {
    if s != [] {
      BelowOrAbove(s[1..], x, y);
    }
  }

  /** No two values have the same rank. */
  lemma RankedOnce(s: seq<real>, k: nat, x: real, y: real)
    requires Ranked(s, k, x) && Ranked(s, k, y)
    ensures x == y
  {
    hide CountBelow, CountAbove;
    if x < y {
      BelowOrAbove(s, x, y);
    } else if y < x {
      BelowOrAbove(s, y, x);
    }
  }

  lemma {:induction false} FewBelow(v: seq<real>, k: nat, x: real)
    requires Sorted(v) && k < |v| && v[k] >= x
    ensures CountBelow(v, x) <= k
    decreases |v|
  {
    if k > 0 {
      FewBelow(v[1..], k - 1, x);
    } else if |v| > 1 {
      FewBelow(v[1..], 0, x);
    }
  }

  /** Sorting puts every entry at its rank. */
  lemma SortRanks(s: seq<real>, k: nat)
    requires k < |s|
    ensures Ranked(s, k, Sort(s)[k])
  {
    hide CountBelow, CountAbove, Sort, Sorted;
    var v := Sort(s);
    SortSorts(s);
    FewBelow(v, k, v[k]);
    FewAbove(v, k, v[k]);
    SortCounts(s, v[k]);
    assert v[k] in multiset(v);
  }

  /** The middle of a sample lies halfway between the entries of the two middle ranks. */
  lemma MiddleIsHalfway(s: seq<real>) returns (lo: real, hi: real)
    requires s != []
    ensures Ranked(s, (|s| - 1) / 2, lo) && Ranked(s, |s| / 2, hi) && Middle(Sort(s)) == (lo + hi) / 2.0
  {
    hide Ranked, Sort;
    var n, v := |s|, Sort(s);
    lo, hi := v[(n - 1) / 2], v[n / 2];
    SortRanks(s, (n - 1) / 2);
    SortRanks(s, n / 2);
    if n % 2 == 1 {
      assert (n - 1) / 2 == n / 2;
    } else {
      assert (n - 1) / 2 == n / 2 - 1;
    }
  }

  /** The median is halfway between the finite readings of the two middle ranks, which may be the same. */
  lemma MedianByRank(vals: seq<Num>) returns (lo: real, hi: real)
    requires Finites(vals) != []
    ensures var f := Finites(vals);
      Ranked(f, (|f| - 1) / 2, lo) && Ranked(f, |f| / 2, hi) && Median(vals) == Some((lo + hi) / 2.0)
  {
    hide Ranked, Sort, Finites, Middle;
    lo, hi := MiddleIsHalfway(Finites(vals));
  }

  /** The distances of the readings from `med`. */
  ghost predicate Distances(f: seq<real>, med: real, d: seq<real>) {
    && |d| == |f|
    && forall i :: 0 <= i < |f| ==> d[i] >= 0.0 && (d[i] == f[i] - med || d[i] == med - f[i])
  }

  /** The MAD is the median distance of the finite readings from the given point. */
  lemma MadByRank(vals: seq<Num>, med: real) returns (d: seq<real>, lo: real, hi: real)
    requires Finites(vals) != []
    ensures Distances(Finites(vals), med, d)
    ensures Ranked(d, (|d| - 1) / 2, lo) && Ranked(d, |d| / 2, hi) && Mad(vals, med) == Some((lo + hi) / 2.0)
  {
    hide Ranked, Sort, Finites, Middle;
    d := Deviations(Finites(vals), med);
    lo, hi := MiddleIsHalfway(d);
  }

  // ---- percentiles ----------------------------------------------------------------------------

  /** The fraction at which a sample of `n` has its entry of rank `k`, or a point `f` of the way to the next. */
  function Fraction(k: nat, f: real, n: nat): real
    requires n > 1
  {
    (k as real + f) / (n - 1) as real
  }

  lemma FractionIsBetween(k: nat, f: real, n: nat)
    requires n > 1 && 0.0 <= f && k as real + f <= (n - 1) as real
    ensures 0.0 <= Fraction(k, f, n) <= 1.0 && Fraction(k, f, n) * (n - 1) as real == k as real + f
  {
    var m, x := (n - 1) as real, k as real + f;
    assert x / m * m == x;
    QuotientWithin(x, m);
  }

  lemma QuotientWithin(x: real, m: real)
    requires 0.0 <= x <= m && m > 0.0
    ensures 0.0 <= x / m <= 1.0
  {
  }

  lemma PositionOf(k: nat, f: real, n: nat)
    requires n > 1 && 0.0 <= f && k as real + f <= (n - 1) as real
    ensures Position(Fraction(k, f, n), n) == k as real + f
  {
    FractionIsBetween(k, f, n);
    hide Fraction;
  }

  /** Of `n` finite readings, the fraction k/(n-1) gives the one of rank `k`. */
  lemma PercentileByRank(vals: seq<Num>, k: nat)
    requires |Finites(vals)| > 1 && k < |Finites(vals)|
    ensures var n := |Finites(vals)|;
      var p := Percentile(vals, Fraction(k, 0.0, n));
      p.Some? && Ranked(Finites(vals), k, p.value)
  {
    hide Ranked, Sort, Finites, Position, Fraction;
    var f := Finites(vals);
    PositionOf(k, 0.0, |f|);
    SortRanks(f, k);
  }

  /** In between, it moves in proportion from one rank to the next. */
  lemma PercentileBetween(vals: seq<Num>, k: nat, f: real)
    requires k + 1 < |Finites(vals)| && 0.0 <= f <= 1.0
    ensures var n := |Finites(vals)|;
      var p, x, y := Percentile(vals, Fraction(k, f, n)), Percentile(vals, Fraction(k, 0.0, n)),
        Percentile(vals, Fraction(k + 1, 0.0, n));
      p.Some? && x.Some? && y.Some? && p.value == (1.0 - f) * x.value + f * y.value
  {
    hide Sort, Finites, Fraction, Percentile;
    var v, n := Sort(Finites(vals)), |Finites(vals)|;
    PercentileAt(vals, k, f);
    PercentileAt(vals, k, 0.0);
    PercentileAt(vals, k + 1, 0.0);
    InterpolateAt(v, k, f);
    InterpolateAtRank(v, k);
    InterpolateAtRank(v, k + 1);
  }

  lemma PercentileAt(vals: seq<Num>, k: nat, f: real)
    requires var n := |Finites(vals)|; n > 1 && 0.0 <= f && k as real + f <= (n - 1) as real
    ensures Percentile(vals, Fraction(k, f, |Finites(vals)|)) == Some(Interpolate(Sort(Finites(vals)), k as real + f))
  {
    hide Sort, Finites, Position, Fraction, Interpolate;
    PositionOf(k, f, |Finites(vals)|);
  }

  lemma InterpolateAtRank(v: seq<real>, k: nat)
    requires k < |v|
    ensures Interpolate(v, k as real + 0.0) == v[k]
  {
    assert (k as real).Floor == k;
  }

  lemma InterpolateAt(v: seq<real>, k: nat, f: real)
    requires k + 1 < |v| && 0.0 <= f <= 1.0
    ensures Interpolate(v, k as real + f) == (1.0 - f) * v[k] + f * v[k + 1]
  {
    hide Lerp;
    if 0.0 < f < 1.0 {
      assert (k as real + f).Floor == k;
      LerpIsMix(v[k], v[k + 1], f);
    } else {
      assert (k as real).Floor == k && ((k + 1) as real).Floor == k + 1;
    }
    EndsOfMix(v[k], v[k + 1]);
  }

  lemma LerpIsMix(a: real, b: real, f: real)
    ensures Lerp(a, b, f) == (1.0 - f) * a + f * b
  {
  }

  lemma EndsOfMix(a: real, b: real)
    ensures (1.0 - 0.0) * a + 0.0 * b == a && (1.0 - 1.0) * a + 1.0 * b == b
  {
  }

  /** A single reading is every percentile. */
  lemma PercentileOfOne(vals: seq<Num>, q: real)
    requires |Finites(vals)| == 1
    ensures Percentile(vals, q) == Some(Finites(vals)[0])
  {
    hide Finites;
    var f := Finites(vals);
    assert f == [f[0]] && f[1..] == [];
  }

  /** Fractions beyond 0 and 1 count as these. */
  lemma PercentileOutside(vals: seq<Num>, q: real)
    ensures q <= 0.0 ==> Percentile(vals, q) == Percentile(vals, 0.0)
    ensures q >= 1.0 ==> Percentile(vals, q) == Percentile(vals, 1.0)
  {
    hide Sort, Finites, Interpolate, Scale;
  }

  lemma {:induction false} NothingBelow(s: seq<real>, x: real)
    ensures CountBelow(s, x) == 0 ==> forall y :: y in s ==> y >= x
    ensures CountAbove(s, x) == 0 ==> forall y :: y in s ==> y <= x
  {
    if s != [] {
      assert s == [s[0]] + s[1..];
      NothingBelow(s[1..], x);
    }
  }

  lemma EndFractions(n: nat)
    requires n > 1
    ensures Fraction(0, 0.0, n) == 0.0 && Fraction(n - 1, 0.0, n) == 1.0
  {
  }

  /** The fractions 0 and 1 give the least and the greatest finite reading. */
  lemma PercentileEnds(vals: seq<Num>)
    requires Finites(vals) != []
    ensures var f, lo, hi := Finites(vals), Percentile(vals, 0.0), Percentile(vals, 1.0);
      && lo.Some? && hi.Some? && lo.value in f && hi.value in f
      && forall y :: y in f ==> lo.value <= y <= hi.value
  {
    hide Percentile, Finites, CountBelow, CountAbove, Fraction;
    var f, n := Finites(vals), |Finites(vals)|;
    if n == 1 {
      PercentileOfOne(vals, 0.0);
      PercentileOfOne(vals, 1.0);
    } else {
      PercentileByRank(vals, 0);
      PercentileByRank(vals, n - 1);
      EndFractions(n);
      NothingBelow(f, Percentile(vals, 0.0).value);
      NothingBelow(f, Percentile(vals, 1.0).value);
    }
  }
}
