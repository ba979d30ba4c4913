/** Robust statistics: median, MAD and percentiles, and why outliers cannot move them far. */
module Stats {
  import opened Wrappers

  // ---- sorting -------------------------------------------------------------------------

  predicate Sorted(s: seq<real>) {
    forall i, j :: 0 <= i < j < |s| ==> s[i] <= s[j]
  }

  function InsertSorted(x: real, s: seq<real>): (r: seq<real>)
    ensures |r| == |s| + 1 && multiset(r) == multiset(s) + multiset{x}
  {
    if s == [] then [x]
    else if x <= s[0] then [x] + s
    else
      assert s == [s[0]] + s[1..];
      [s[0]] + InsertSorted(x, s[1..])
  }

  /** The sorted copy every statistic starts from. */
  function Sort(s: seq<real>): (r: seq<real>)
    ensures |r| == |s| && multiset(r) == multiset(s)
  {
    if s == [] then []
    else
      assert s == [s[0]] + s[1..];
      InsertSorted(s[0], Sort(s[1..]))
  }

  lemma {:induction false} InsertKeepsSorted(x: real, s: seq<real>)
    requires Sorted(s)
    ensures Sorted(InsertSorted(x, s))
  {
    if s != [] && x > s[0] {
      InsertKeepsSorted(x, s[1..]);
      var r := InsertSorted(x, s[1..]);
      forall j | 0 <= j < |r| ensures s[0] <= r[j] {
        assert r[j] in multiset(s[1..]) + multiset{x};
      }
    }
  }

  lemma {:induction false} SortSorts(s: seq<real>)
    ensures Sorted(Sort(s))
  {
    if s != [] {
      SortSorts(s[1..]);
      InsertKeepsSorted(s[0], Sort(s[1..]));
    }
  }

  // ---- the statistics ----------------------------------------------------------------------

  /** `filter(is_finite)` */
  function Finites(vals: seq<Num>): (s: seq<real>)
    ensures |s| <= |vals|
  {
    if vals == [] then []
    else (if vals[0].Finite? then [vals[0].v] else []) + Finites(vals[1..])
  }

  function Middle(v: seq<real>): real
    requires v != []
  {
    var n := |v|;
    if n % 2 == 1 then v[n / 2] else (v[n / 2 - 1] + v[n / 2]) / 2.0
  }

  /** `median`; `None` is NaN. */
  function Median(vals: seq<Num>): Option<real> {
    var f := Finites(vals);
    if f == [] then None else Some(Middle(Sort(f)))
  }

  function Abs(x: real): real { if x < 0.0 then -x else x }

  function Deviations(f: seq<real>, med: real): (d: seq<real>)
    ensures |d| == |f| && forall i :: 0 <= i < |f| ==> d[i] == Abs(f[i] - med)
  {
    if f == [] then [] else [Abs(f[0] - med)] + Deviations(f[1..], med)
  }

  /** `mad` */
  function Mad(vals: seq<Num>, med: real): Option<real> {
    var f := Finites(vals);
    if f == [] then None else Some(Middle(Sort(Deviations(f, med))))
  }

  /** The point a fraction `f` of the way from `a` to `b`. */
  function Lerp(a: real, b: real, f: real): real {
    a + Scale(f, b - a)
  }

  /** Linear interpolation in a sorted sample. */
  function Interpolate(v: seq<real>, pos: real): real
    requires v != [] && 0.0 <= pos <= (|v| - 1) as real
  {
    var lo := pos.Floor;
    if lo as real == pos then v[lo] else Lerp(v[lo], v[lo + 1], pos - lo as real)
  }

  function Clamp(q: real): (r: real)
    ensures 0.0 <= r <= 1.0
  {
    if q < 0.0 then 0.0 else if q > 1.0 then 1.0 else q
  }

  function Scale(x: real, a: real): real { x * a }

  lemma ScaleMono(a: real, x: real, y: real)
    requires a >= 0.0 && x <= y
    ensures Scale(x, a) <= Scale(y, a)
    ensures Scale(0.0, a) == 0.0 && Scale(1.0, a) == a
  {
  }

  /** The fractional index of a percentile in a sample of `n` values. */
  function Position(q: real, n: nat): (pos: real)
    requires n > 0
    ensures 0.0 <= pos <= (n - 1) as real
  {
    ScaleMono((n - 1) as real, 0.0, Clamp(q));
    ScaleMono((n - 1) as real, Clamp(q), 1.0);
    Scale(Clamp(q), (n - 1) as real)
  }

  /** `percentile` */
  function Percentile(vals: seq<Num>, q: real): Option<real> {
    var f := Finites(vals);
    if f == [] then None else Some(Interpolate(Sort(f), Position(q, |f|)))
  }

  // ---- counting ------------------------------------------------------------------------------

  function CountBelow(s: seq<real>, x: real): (n: nat)
    ensures n <= |s|
  {
    if s == [] then 0 else (if s[0] < x then 1 else 0) + CountBelow(s[1..], x)
  }

  function CountAbove(s: seq<real>, x: real): (n: nat)
    ensures n <= |s|
  {
    if s == [] then 0 else (if s[0] > x then 1 else 0) + CountAbove(s[1..], x)
  }

  lemma {:induction false} InsertCounts(y: real, s: seq<real>, x: real)
    ensures CountBelow(InsertSorted(y, s), x) == CountBelow(s, x) + if y < x then 1 else 0
    ensures CountAbove(InsertSorted(y, s), x) == CountAbove(s, x) + if y > x then 1 else 0
  {
    if s != [] && y > s[0] {
      InsertCounts(y, s[1..], x);
      assert InsertSorted(y, s)[1..] == InsertSorted(y, s[1..]);
    } else {
      assert InsertSorted(y, s)[1..] == s;
    }
  }

  lemma {:induction false} SortCounts(s: seq<real>, x: real)
    ensures CountBelow(Sort(s), x) == CountBelow(s, x) && CountAbove(Sort(s), x) == CountAbove(s, x)
  {
    if s != [] {
      SortCounts(s[1..], x);
      InsertCounts(s[0], Sort(s[1..]), x);
    }
  }

  lemma {:induction false} SortedCounts(v: seq<real>, k: nat, x: real)
    requires Sorted(v) && k < |v|
    ensures v[k] < x ==> CountBelow(v, x) >= k + 1
    ensures v[k] > x ==> CountAbove(v, x) >= |v| - k
    decreases |v|
  {
    if k > 0 {
      SortedCounts(v[1..], k - 1, x);
    } else if |v| > 1 {
      SortedCounts(v[1..], 0, x);
    }
  }

  lemma MiddleWithin(v: seq<real>, lo: real, hi: real)
    requires v != [] && lo <= v[(|v| - 1) / 2] <= hi && lo <= v[|v| / 2] <= hi
    ensures lo <= Middle(v) <= hi
  {
    if |v| % 2 == 0 {
      assert |v| / 2 - 1 == (|v| - 1) / 2;
    }
  }

  /** If fewer than half of a sample lies below `lo`, and fewer than half above `hi`, its middle is between. */
  lemma MiddleBetween(s: seq<real>, lo: real, hi: real)
    requires s != [] && 2 * CountBelow(s, lo) < |s| && 2 * CountAbove(s, hi) < |s|
    ensures lo <= Middle(Sort(s)) <= hi
  {
    hide Sort, CountBelow, CountAbove, Middle, Sorted;
    var v := Sort(s);
    SortSorts(s);
    SortCounts(s, lo);
    SortCounts(s, hi);
    var k, m := (|v| - 1) / 2, |v| / 2;
    assert k <= m && 2 * k + 2 >= |v| && 2 * m <= |v|;
    SortedCounts(v, k, lo);
    SortedCounts(v, m, lo);
    SortedCounts(v, k, hi);
    SortedCounts(v, m, hi);
    MiddleWithin(v, lo, hi);
  }

  // ---- breakdown --------------------------------------------------------------------------------

  /** How many entries of the sample `a` are still themselves in `b`. */
  function Untouched(a: seq<real>, b: seq<Num>): (n: nat)
    requires |a| == |b|
    ensures n <= |a|
  {
    if a == [] then 0 else (if b[0] == Finite(a[0]) then 1 else 0) + Untouched(a[1..], b[1..])
  }

  /** The untouched entries lie between `lo` and `hi`. */
  ghost predicate UntouchedWithin(a: seq<real>, b: seq<Num>, lo: real, hi: real)
    requires |a| == |b|
  {
    forall i :: 0 <= i < |a| && b[i] == Finite(a[i]) ==> lo <= a[i] <= hi
  }

  lemma {:induction false} OutsidersAreTouched(a: seq<real>, b: seq<Num>, lo: real, hi: real, med: real)
    requires |a| == |b| && UntouchedWithin(a, b, lo, hi) && lo <= med <= hi
    ensures var f := Finites(b);
      && CountBelow(f, lo) + Untouched(a, b) <= |f| && CountAbove(f, hi) + Untouched(a, b) <= |f|
      && CountAbove(Deviations(f, med), hi - lo) + Untouched(a, b) <= |f|
  {
    if a != [] {
      OutsidersAreTouched(a[1..], b[1..], lo, hi, med);
      if b[0].Finite? {
        var f := Finites(b);
        assert f[1..] == Finites(b[1..]);
        assert Deviations(f, med)[1..] == Deviations(f[1..], med);
      } else {
        assert Finites(b) == Finites(b[1..]);
      }
    }
  }

  lemma {:induction false} NoneNegative(d: seq<real>)
    requires forall i :: 0 <= i < |d| ==> d[i] >= 0.0
    ensures CountBelow(d, 0.0) == 0
  {
    if d != [] {
      NoneNegative(d[1..]);
    }
  }

  lemma DeviationsNotNegative(f: seq<real>, med: real)
    ensures CountBelow(Deviations(f, med), 0.0) == 0
  {
    NoneNegative(Deviations(f, med));
  }

  /** More than half of the sample is untouched, so any bound few untouched entries pass, few entries pass. */
  lemma FewOutside(total: nat, size: nat, untouched: nat, outside: nat)
    requires outside + untouched <= size <= total && 2 * (total - untouched) <= total - 1
    ensures 2 * outside < size
  {
  }

  /** The hypothesis of the breakdown theorem: fewer than half of the entries were replaced. */
  ghost predicate FewTouched(a: seq<real>, b: seq<Num>, lo: real, hi: real) {
    |a| == |b| && a != [] && lo <= hi && UntouchedWithin(a, b, lo, hi) && 2 * (|a| - Untouched(a, b)) <= |a| - 1
  }

  lemma MedianHolds(a: seq<real>, b: seq<Num>, lo: real, hi: real)
    requires FewTouched(a, b, lo, hi)
    ensures Finites(b) != [] && lo <= Middle(Sort(Finites(b))) <= hi
  {
    hide Finites, Sort, Middle, CountBelow, CountAbove, Untouched, UntouchedWithin, Deviations;
    var f, u := Finites(b), Untouched(a, b);
    OutsidersAreTouched(a, b, lo, hi, lo);
    FewOutside(|a|, |f|, u, CountBelow(f, lo));
    FewOutside(|a|, |f|, u, CountAbove(f, hi));
    MiddleBetween(f, lo, hi);
  }

  lemma MadHolds(a: seq<real>, b: seq<Num>, lo: real, hi: real, m: real)
    requires FewTouched(a, b, lo, hi) && lo <= m <= hi && Finites(b) != []
    ensures 0.0 <= Middle(Sort(Deviations(Finites(b), m))) <= hi - lo
  {
    hide Finites, Sort, Middle, CountBelow, CountAbove, Untouched, UntouchedWithin, Deviations;
    var f := Finites(b);
    var d := Deviations(f, m);
    OutsidersAreTouched(a, b, lo, hi, m);
    DeviationsNotNegative(f, m);
    FewOutside(|a|, |f|, Untouched(a, b), CountAbove(d, hi - lo));
    MiddleBetween(d, 0.0, hi - lo);
  }

  /**
   * Replacing at most (n-1)/2 entries of a sample by arbitrary values, NaN and infinities included,
   * leaves the median between the least and greatest untouched entry, and the MAD within their range.
   */
  lemma Breakdown(a: seq<real>, b: seq<Num>, lo: real, hi: real)
    requires FewTouched(a, b, lo, hi)
    ensures Median(b).Some? && lo <= Median(b).value <= hi
    ensures Mad(b, Median(b).value).Some? && 0.0 <= Mad(b, Median(b).value).value <= hi - lo
  {
    hide Finites, Sort, Middle, FewTouched, Deviations;
    MedianHolds(a, b, lo, hi);
    MadHolds(a, b, lo, hi, Median(b).value);
  }

  /** `n` readings of which `d` are outliers at 1 among zeros. */
  function Outliers(n: nat, d: nat): (b: seq<Num>)
    ensures |b| == n
  {
    if n == 0 then [] else [Finite(if d > 0 then 1.0 else 0.0)] + Outliers(n - 1, if d > 0 then d - 1 else 0)
  }

  function Zeros(n: nat): (a: seq<real>)
    ensures |a| == n && forall i :: 0 <= i < n ==> a[i] == 0.0
  {
    seq(n, _ => 0.0)
  }

  lemma {:induction false} OutlierCounts(n: nat, d: nat)
    requires d <= n
    ensures Untouched(Zeros(n), Outliers(n, d)) == n - d
    ensures |Finites(Outliers(n, d))| == n && CountAbove(Finites(Outliers(n, d)), 0.0) == d
    ensures CountBelow(Finites(Outliers(n, d)), 0.0) == 0
  {
    if n > 0 {
      var b, d' := Outliers(n, d), if d > 0 then d - 1 else 0;
      assert b[1..] == Outliers(n - 1, d') && Zeros(n)[1..] == Zeros(n - 1);
      assert Finites(b) == [b[0].v] + Finites(b[1..]);
      OutlierCounts(n - 1, d');
      if d == 0 {
        assert d' == 0;
      }
    }
  }

  lemma {:induction false} FewAbove(v: seq<real>, k: nat, x: real)
    requires Sorted(v) && k < |v| && v[k] <= x
    ensures CountAbove(v, x) <= |v| - k - 1
    decreases |v|
  {
    if k > 0 {
      FewAbove(v[1..], k - 1, x);
    }
  }

  /** The bound is sharp: with one more replacement the median can leave the untouched range. */
  lemma BreakdownIsSharp(n: nat, d: nat)
    requires 0 < n <= 2 * d && d <= n
    ensures Untouched(Zeros(n), Outliers(n, d)) == n - d
    ensures UntouchedWithin(Zeros(n), Outliers(n, d), 0.0, 0.0)
    ensures Median(Outliers(n, d)).Some? && Median(Outliers(n, d)).value > 0.0
  {
    hide Finites, CountAbove, CountBelow, Sort, Untouched, Outliers;
    var f := Finites(Outliers(n, d));
    OutlierCounts(n, d);
    SortSorts(f);
    SortCounts(f, 0.0);
    var v := Sort(f);
    if v[n / 2] <= 0.0 {
      FewAbove(v, n / 2, 0.0);
    }
    SortedCounts(v, (n - 1) / 2, 0.0);
    if n % 2 == 0 {
      assert n / 2 - 1 == (n - 1) / 2;
    }
  }

  // ---- percentiles --------------------------------------------------------------------------------

  lemma LerpBounds(a: real, b: real, f: real)
    requires a <= b && 0.0 <= f <= 1.0
    ensures a <= Lerp(a, b, f) <= b
  {
    hide Scale;
    ScaleMono(b - a, 0.0, f);
    ScaleMono(b - a, f, 1.0);
  }

  lemma LerpMono(a: real, b: real, f: real, g: real)
    requires a <= b && f <= g
    ensures Lerp(a, b, f) <= Lerp(a, b, g)
    ensures 0.0 <= g ==> a <= Lerp(a, b, g)
  {
    hide Scale;
    ScaleMono(b - a, f, g);
    if 0.0 <= g {
      ScaleMono(b - a, 0.0, g);
    }
  }

  lemma InterpolateBounds(v: seq<real>, pos: real)
    requires v != [] && Sorted(v) && 0.0 <= pos <= (|v| - 1) as real
    ensures v[pos.Floor] <= Interpolate(v, pos)
    ensures pos.Floor + 1 < |v| ==> Interpolate(v, pos) <= v[pos.Floor + 1]
  {
    hide Lerp;
    var lo := pos.Floor;
    if lo as real != pos {
      LerpBounds(v[lo], v[lo + 1], pos - lo as real);
    }
  }

  /** Interpolation in a sorted sample is monotone in the position. */
  lemma InterpolateMono(v: seq<real>, x: real, y: real)
    requires v != [] && Sorted(v) && 0.0 <= x <= y <= (|v| - 1) as real
    ensures Interpolate(v, x) <= Interpolate(v, y)
  {
    hide Lerp;
    InterpolateBounds(v, x);
    InterpolateBounds(v, y);
    var i, j := x.Floor, y.Floor;
    if i == j {
      if j as real != y {
        LerpMono(v[j], v[j + 1], x - j as real, y - j as real);
      }
    } else {
      assert v[i + 1] <= v[j];
    }
  }

  lemma ClampMono(p: real, q: real)
    requires p <= q
    ensures Clamp(p) <= Clamp(q)
  {
  }

  lemma PositionMono(p: real, q: real, n: nat)
    requires n > 0 && p <= q
    ensures Position(p, n) <= Position(q, n)
  {
    hide Clamp, Scale;
    ClampMono(p, q);
    ScaleMono((n - 1) as real, Clamp(p), Clamp(q));
  }

  /** `percentile` is monotone in `q`, also outside 0..1. */
  lemma PercentileMono(vals: seq<Num>, p: real, q: real)
    requires p <= q && Finites(vals) != []
    ensures Percentile(vals, p).Some? && Percentile(vals, q).Some?
    ensures Percentile(vals, p).value <= Percentile(vals, q).value
  {
    hide Finites, Sort, Interpolate, Sorted, Position;
    var f := Finites(vals);
    SortSorts(f);
    PositionMono(p, q, |f|);
    InterpolateMono(Sort(f), Position(p, |f|), Position(q, |f|));
  }

  lemma HalfLerp(a: real, b: real)
    ensures Lerp(a, b, 0.5) == (a + b) / 2.0
  {
  }

  /** The half percentile is the median. */
  lemma HalfIsMedian(vals: seq<Num>)
    ensures Percentile(vals, 0.5) == Median(vals)
  {
    hide Finites, Sort, Lerp;
    var f := Finites(vals);
    if f != [] {
      var n, v := |f|, Sort(f);
      var pos := Position(0.5, n);
      assert pos == Scale(0.5, (n - 1) as real);
      if n % 2 == 1 {
        assert n - 1 == 2 * (n / 2);
        assert pos == (n / 2) as real;
      } else {
        assert n - 1 == 2 * (n / 2 - 1) + 1;
        assert pos == (n / 2 - 1) as real + 0.5;
        assert pos.Floor == n / 2 - 1;
        HalfLerp(v[n / 2 - 1], v[n / 2]);
      }
    }
  }

  /** The range shown to the user brackets the median. */
  lemma RangeBracketsMedian(vals: seq<Num>)
    requires Finites(vals) != []
    ensures Percentile(vals, 0.05).Some? && Median(vals).Some? && Percentile(vals, 0.95).Some?
    ensures Percentile(vals, 0.05).value <= Median(vals).value <= Percentile(vals, 0.95).value
  {
    hide Percentile, Median;
    PercentileMono(vals, 0.05, 0.5);
    PercentileMono(vals, 0.5, 0.95);
    HalfIsMedian(vals);
  }
}
