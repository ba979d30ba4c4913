/** What the aggregates say about the values behind them, and which rows retention keeps. */
module HistoryMeaning {
  import opened HistoryModel
  import opened HistoryProofs
  import opened HistoryRollups
  import opened HistoryRun

  // ---- aggregates ------------------------------------------------------------------------------

  function Sum(vs: seq<real>): real {
    if vs == [] then 0.0 else Sum(vs[..|vs| - 1]) + vs[|vs| - 1]
  }

  /** Count, sum, minimum and maximum of exactly these values. */
  predicate Summarizes(a: Agg, vs: seq<real>) {
    && a.n == |vs| && a.sum == Sum(vs)
    && (vs != [] ==> a.min in vs && a.max in vs && forall v :: v in vs ==> a.min <= v <= a.max)
  }

  lemma SummarizesNext(a: Agg, vs: seq<real>, v: real)
    requires Summarizes(a, vs)
    ensures Summarizes(Merge(a, Single(v)), vs + [v])
  {
    assert (vs + [v])[..|vs|] == vs;
    assert v in [v] && forall x :: x in vs + [v] <==> x in vs || x == v;
  }

  /** The values of one metric's rows with `lo <= ts < hi`, by time. */
  function ValuesIn(m: map<Key, real>, id: nat, lo: nat, hi: nat): seq<real>
    decreases hi
  {
    if lo >= hi then []
    else ValuesIn(m, id, lo, hi - 1) + if Key(id, hi - 1) in m then [m[Key(id, hi - 1)]] else []
  }

  lemma {:induction false} OverSummarizes(m: map<Key, real>, id: nat, lo: nat, hi: nat)
    ensures Summarizes(Over(m, id, lo, hi), ValuesIn(m, id, lo, hi))
    decreases hi
  {
    hide Summarizes;
    if lo >= hi {
      NothingSummarized();
    } else {
      OverSummarizes(m, id, lo, hi - 1);
      OverSplit(m, id, lo, hi - 1, hi);
      LastOver(m, id, hi - 1);
      var a := Over(m, id, lo, hi - 1);
      if Key(id, hi - 1) in m {
        SummarizesNext(a, ValuesIn(m, id, lo, hi - 1), m[Key(id, hi - 1)]);
      } else {
        EmptyIsNone(m, id, lo, hi - 1);
        assert ValuesIn(m, id, lo, hi - 1) + [] == ValuesIn(m, id, lo, hi - 1);
      }
    }
  }

  lemma NothingSummarized()
    ensures Summarizes(NONE, [])
  {
  }

  lemma LastOver(m: map<Key, real>, id: nat, t: nat)
    ensures Over(m, id, t, t + 1) == At(m, id, t)
  {
    assert Over(m, id, t + 1, t + 1) == NONE;
  }

  lemma {:induction false} EmptyIsNone(m: map<Key, real>, id: nat, lo: nat, hi: nat)
    ensures Over(m, id, lo, hi).n == 0 ==> Over(m, id, lo, hi) == NONE
    ensures Merge(Over(m, id, lo, hi), NONE) == Over(m, id, lo, hi)
    decreases hi - lo
  {
    if lo < hi {
      EmptyIsNone(m, id, lo + 1, hi);
    }
  }

  /** The readings of one metric in one ten-second bucket, in order. */
  function ReadingsOf(ps: seq<Push>, id: nat, bucket: nat): seq<real> {
    if ps == [] then []
    else
      var p, rest := ps[|ps| - 1], ReadingsOf(ps[..|ps| - 1], id, bucket);
      if p.id == id && bucket <= p.ts < bucket + 10_000 then rest + [p.v] else rest
  }

  /** The batch aggregate of the readings of a bucket is their count, sum, minimum and maximum. */
  lemma {:induction false} ReadingsSummarize(ps: seq<Push>, id: nat, bucket: nat)
    requires bucket % 10_000 == 0
    ensures Summarizes(AggOf(ps, id, bucket), ReadingsOf(ps, id, bucket))
    decreases |ps|
  {
    hide Summarizes, Floor;
    if ps == [] {
      NothingSummarized();
    } else {
      var p, front := ps[|ps| - 1], ps[..|ps| - 1];
      ReadingsSummarize(front, id, bucket);
      SummarizesNext(AggOf(front, id, bucket), ReadingsOf(front, id, bucket), p.v);
      InBucket(p.ts, bucket);
    }
  }

  lemma InBucket(t: nat, bucket: nat)
    requires bucket % 10_000 == 0
    ensures Floor(t, DISK_BUCKET) == bucket <==> bucket <= t < bucket + 10_000
  {
    hide Floor;
    FloorFacts(t, DISK_BUCKET);
    FloorBoundary(t, bucket, DISK_BUCKET);
  }

  lemma {:induction false} SumBounds(vs: seq<real>, lo: real, hi: real)
    requires forall v :: v in vs ==> lo <= v <= hi
    ensures lo * |vs| as real <= Sum(vs) <= hi * |vs| as real
  {
    if vs != [] {
      var front, v := vs[..|vs| - 1], vs[|vs| - 1];
      assert v in vs && forall x :: x in front ==> x in vs;
      SumBounds(front, lo, hi);
      OneTimesMore(lo, |front|);
      OneTimesMore(hi, |front|);
    }
  }

  lemma OneTimesMore(x: real, n: nat)
    ensures x * (n + 1) as real == x * n as real + x
  {
  }

  lemma QuotientBetween(lo: real, sum: real, hi: real, n: real)
    requires n > 0.0 && lo * n <= sum <= hi * n
    ensures lo <= sum / n <= hi
  {
    assert sum == sum / n * n;
    if sum / n < lo {
      LessTimes(sum / n, lo, n);
    }
    if hi < sum / n {
      LessTimes(hi, sum / n, n);
    }
  }

  lemma LessTimes(x: real, y: real, n: real)
    requires n > 0.0 && x < y
    ensures x * n < y * n
  {
  }

  /**
   * The columns of a right rollup row: how many means, the least, the greatest, their average between
   * the two, and a point a twentieth of the range below the greatest.
   */
  lemma RowColumns(ever: map<Key, real>, k: RKey, row: Roll)
    requires IsBatch(ever, k, row)
    ensures var vs := ValuesIn(ever, k.id, k.ts, k.ts + k.bucket);
      && vs != [] && row.n == |vs| && row.minV in vs && row.maxV in vs
      && (forall v :: v in vs ==> row.minV <= v <= row.maxV)
      && row.avgV == Sum(vs) / |vs| as real && row.minV <= row.avgV <= row.maxV
      && row.minV <= row.p95V <= row.maxV && 20.0 * (row.maxV - row.p95V) == row.maxV - row.minV
  {
    hide Over, ValuesIn, Sum;
    var vs := ValuesIn(ever, k.id, k.ts, k.ts + k.bucket);
    OverSummarizes(ever, k.id, k.ts, k.ts + k.bucket);
    SumBounds(vs, row.minV, row.maxV);
    QuotientBetween(row.minV, Sum(vs), row.maxV, |vs| as real);
  }

  // ---- which rows a pass keeps -----------------------------------------------------------------

  /** The configured age in milliseconds of the rows of one size. */
  function AgeMs(r: Retention, bucket: nat): nat
    requires bucket in {60_000, 300_000, 900_000}
  {
    (if bucket == 60_000 then r.minuteDays
     else if bucket == 300_000 then r.fiveMinDays
     else r.fifteenMinDays) * 86_400_000
  }

  lemma StaleRollIff(s: Store, now: nat, r: Retention, k: RKey)
    requires k in s.rollup && k.bucket in {60_000, 300_000, 900_000}
    ensures k in StaleRolls(s, now, r, k.bucket) <==> k.ts + AgeMs(r, k.bucket) < now
  {
  }

  lemma StaleSampleIff(s: Store, now: nat, r: Retention, k: Key)
    requires k in s.sample
    ensures k in StaleSamples(s, now, r) <==> k.ts + r.rawHours * 3_600_000 < now
  {
  }

  /**
   * A maintenance pass keeps every rollup row that is not past the age of its size, as it is, and with
   * at most 250 000 rows past it keeps no other.
   */
  lemma PassKeepsYoungRows(window: nat, r: Retention, w: World, e: Event, w': World, k: RKey)
    requires Step(window, r, w, e, w') && e.MaintainEv?
    requires k in Built(w, e).s.rollup && k.bucket in {60_000, 300_000, 900_000}
    ensures e.now <= k.ts + AgeMs(r, k.bucket) ==>
              k in w'.s.rollup && w'.s.rollup[k] == Built(w, e).s.rollup[k]
    ensures k.ts + AgeMs(r, k.bucket) < e.now && |StaleRolls(Built(w, e).s, e.now, r, k.bucket)| <= 250_000 ==>
              k !in w'.s.rollup
  {
    hide Builds, DoFlush, AreLast, StaleRolls, StaleSamples, Enumerates, AgeMs;
    var s := Built(w, e).s;
    StaleRollIff(s, e.now, r, k);
    var mine := set q | q in e.dead.rolls && q.bucket == k.bucket;
    assert k in e.dead.rolls <==> k in mine;
  }

  /** The same for the samples and the configured hours. */
  lemma PassKeepsYoungSamples(window: nat, r: Retention, w: World, e: Event, w': World, k: Key)
    requires Step(window, r, w, e, w') && e.MaintainEv? && k in Built(w, e).s.sample
    ensures e.now <= k.ts + r.rawHours * 3_600_000 ==>
              k in w'.s.sample && w'.s.sample[k] == Built(w, e).s.sample[k]
    ensures k.ts + r.rawHours * 3_600_000 < e.now && |StaleSamples(Built(w, e).s, e.now, r)| <= 250_000 ==>
              k !in w'.s.sample
  {
    hide Builds, DoFlush, AreLast, StaleRolls, StaleSamples, Enumerates;
    StaleSampleIff(Built(w, e).s, e.now, r, k);
  }
}
