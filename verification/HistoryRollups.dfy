/** Incremental rollups are a cache: over whole runs every row equals the batch aggregate of its window. */
module HistoryRollups {
  import opened HistoryModel
  import opened HistoryProofs

  // ---- batch aggregates over a range -----------------------------------------------------

  lemma {:induction false} OverAgree(m: map<Key, real>, n: map<Key, real>, id: nat, lo: nat, hi: nat)
    requires forall t: nat :: lo <= t < hi ==> At(m, id, t) == At(n, id, t)
    ensures Over(m, id, lo, hi) == Over(n, id, lo, hi)
    decreases hi - lo
  {
    if lo < hi {
      assert At(m, id, lo) == At(n, id, lo);
      OverAgree(m, n, id, lo + 1, hi);
    }
  }

  /** The aggregate of a range is the merge of the aggregates of its parts. */
  lemma {:induction false} OverSplit(m: map<Key, real>, id: nat, lo: nat, mid: nat, hi: nat)
    requires lo <= mid <= hi
    ensures Over(m, id, lo, hi) == Merge(Over(m, id, lo, mid), Over(m, id, mid, hi))
    decreases hi - lo
  {
    if lo < mid {
      OverSplit(m, id, lo + 1, mid, hi);
      MergeAssoc(At(m, id, lo), Over(m, id, lo + 1, mid), Over(m, id, mid, hi));
    }
  }

  lemma OverWitness(m: map<Key, real>, id: nat, lo: nat, hi: nat, t: nat)
    requires lo <= t < hi && Key(id, t) in m
    ensures Over(m, id, lo, hi).n > 0
  {
    OverSplit(m, id, lo, t, hi);
    assert Over(m, id, t, hi) == Merge(At(m, id, t), Over(m, id, t + 1, hi));
  }

  // ---- the invariant ------------------------------------------------------------------------

  /** `row` is what one batch query over all means ever written would give for window `r`. */
  ghost predicate IsBatch(ever: map<Key, real>, r: RKey, row: Roll) {
    var a := Over(ever, r.id, r.ts, r.ts + r.bucket);
    a.n > 0 && row == RollOf(a)
  }

  /** The row of this window is past its retention age. */
  predicate Aged(r: Retention, k: RKey, now: nat) {
    k.ts + RollupAge(r, k.bucket) < now
  }

  /** Rows are of whole windows below the mark. */
  ghost predicate RowsPlaced(w: World, b: nat, mark: nat)
    requires b > 0
  {
    forall k :: k in w.s.rollup && k.bucket == b ==> START <= k.ts && k.ts % b == 0 && k.ts + b <= mark
  }

  /** Retention has removed this window's row before, and would again. */
  predicate Expired(w: World, r: Retention, k: RKey) {
    k in w.h.gone && Aged(r, k, w.h.clock)
  }

  ghost predicate RightOrExpired(w: World, r: Retention, b: nat) {
    forall k :: k in w.s.rollup && k.bucket == b ==> IsBatch(w.h.ever, k, w.s.rollup[k]) || Expired(w, r, k)
  }

  /** Every row of this bucket size is right. */
  ghost predicate Right(w: World, b: nat) {
    forall k :: k in w.s.rollup && k.bucket == b ==> IsBatch(w.h.ever, k, w.s.rollup[k])
  }

  /** No mean arrives below the mark any more. */
  ghost predicate NothingLate(w: World, mark: nat) {
    && (forall i :: 0 <= i < |w.s.pending| ==> w.s.pending[i].key.ts >= mark)
    && (w.s.agg != map[] ==> w.s.aggBucket >= mark)
  }

  /** Retention has removed no sample that is not rolled yet. */
  ghost predicate UnrolledKept(w: World, mark: nat) {
    forall k :: k in w.h.ever && k.ts >= mark ==> k in w.s.sample
  }

  /** Every window below the mark that has a mean has a row, unless retention removed the row. */
  ghost predicate AllRolled(w: World, b: nat, mark: nat)
    requires b > 0
  {
    forall k :: k in w.h.ever && k.ts < mark ==>
      var r := RKey(b, k.id, Floor(k.ts, b)); r in w.s.rollup || r in w.h.gone
  }

  ghost predicate CoveredBy(rollup: map<RKey, Roll>, b: nat, t: nat) {
    exists r :: r in rollup && r.bucket == b && r.ts + b > t
  }

  /** The next build starts past every sample that is already rolled. */
  ghost predicate Covered(w: World, b: nat, mark: nat) {
    forall k :: k in w.s.sample && k.ts < mark ==> CoveredBy(w.s.rollup, b, k.ts)
  }

  /** The next build starts past it, or writes a row that is past its age already. */
  ghost predicate CoveredOrAged(w: World, r: Retention, b: nat, mark: nat)
    requires b > 0
  {
    forall k :: k in w.s.sample && k.ts < mark ==>
      CoveredBy(w.s.rollup, b, k.ts) || Aged(r, RKey(b, k.id, Floor(k.ts, b)), w.h.clock)
  }

  /** What holds of one bucket size whatever retention manages to delete. */
  ghost predicate RollInv(w: World, r: Retention, b: nat)
    requires b in BUCKETS
  {
    && b in w.h.mark && w.h.mark[b] % b == 0 && w.h.mark[b] <= w.h.clock
    && RowsPlaced(w, b, w.h.mark[b]) && RightOrExpired(w, r, b)
    && NothingLate(w, w.h.mark[b]) && UnrolledKept(w, w.h.mark[b])
    && AllRolled(w, b, w.h.mark[b]) && CoveredOrAged(w, r, b, w.h.mark[b])
  }

  /** What holds as well while retention keeps up with samples: nothing is ever built again. */
  ghost predicate Strict(w: World, b: nat) {
    b in w.h.mark && Right(w, b) && Covered(w, b, w.h.mark[b])
  }

  ghost predicate Inv(w: World, r: Retention) {
    && SampleInv(w) && (forall b :: b in BUCKETS ==> RollInv(w, r, b))
    && w.h.mark[300_000] <= w.h.mark[60_000] && w.h.mark[900_000] <= w.h.mark[60_000]
  }

  // ---- pushing and closing ---------------------------------------------------------------------

  lemma RowsOfKeys(agg: map<nat, Agg>, ts: nat, order: seq<nat>)
    requires forall x :: x in order ==> x in agg
    ensures forall i :: 0 <= i < |RowsOf(agg, ts, order)| ==> RowsOf(agg, ts, order)[i].key.ts == ts
  {
  }

  /** Closing queues only rows of the open bucket. */
  lemma CloseNothingLate(s: Store, order: seq<nat>, mark: nat)
    requires forall x :: x in order ==> x in s.agg
    requires forall i :: 0 <= i < |s.pending| ==> s.pending[i].key.ts >= mark
    requires s.agg != map[] ==> s.aggBucket >= mark
    ensures forall i :: 0 <= i < |CloseBucket(s, order).pending| ==> CloseBucket(s, order).pending[i].key.ts >= mark
  {
    hide Overflow;
    RowsOfKeys(s.agg, s.aggBucket, order);
    if order != [] {
      assert order[0] in s.agg;
    }
    var q := Queued(s, order);
    assert forall i :: 0 <= i < |q| ==> q[i].key.ts >= mark;
    assert forall i :: 0 <= i < |q[Overflow(|q|)..]| ==> q[Overflow(|q|)..][i] == q[Overflow(|q|) + i];
  }

  /** The tables and their history are untouched, and time has not gone back. */
  ghost predicate SameTables(w: World, w': World) {
    && (w'.s.sample, w'.s.rollup) == (w.s.sample, w.s.rollup)
    && (w'.h.ever, w'.h.gone, w'.h.mark) == (w.h.ever, w.h.gone, w.h.mark)
    && w'.h.clock >= w.h.clock
  }

  lemma SameTablesKeep(w: World, w': World, r: Retention, b: nat)
    requires b in BUCKETS && RollInv(w, r, b) && SameTables(w, w') && NothingLate(w', w.h.mark[b])
    ensures RollInv(w', r, b)
    ensures Right(w, b) ==> Right(w', b)
    ensures Strict(w, b) ==> Strict(w', b)
  {
    hide Floor, IsBatch, CoveredBy, RollupAge;
  }

  lemma PushKeepsRollInv(w: World, window: nat, p: Push, order: seq<nat>, r: Retention, b: nat)
    requires SampleInv(w) && b in BUCKETS && RollInv(w, r, b) && forall x :: x in order ==> x in w.s.agg
    requires p.ts >= w.h.clock
    ensures var w' := DoPush(w, window, p, order);
      RollInv(w', r, b) && (Right(w, b) ==> Right(w', b)) && (Strict(w, b) ==> Strict(w', b))
  {
    hide Trim, Floor, Overflow, IsBatch, CoveredBy, Placed, AggOf, RowsOf, RowsPlaced, RightOrExpired, AllRolled;
    hide Covered, CoveredOrAged, Right, Strict;
    var mark := w.h.mark[b];
    CloseNothingLate(w.s.(live := w.s.live[p.id := Trim(Ring(w.s.live, p.id) + [p], p.ts - window)]), order, mark);
    Divides(mark, b);
    FloorBoundary(p.ts, mark, DISK_BUCKET);
    SameTablesKeep(w, DoPush(w, window, p, order), r, b);
  }

  lemma CloseKeepsRollInv(w: World, now: nat, order: seq<nat>, r: Retention, b: nat)
    requires SampleInv(w) && b in BUCKETS && RollInv(w, r, b) && forall x :: x in order ==> x in w.s.agg
    requires now >= w.h.clock
    ensures var w' := DoClose(w, now, order);
      RollInv(w', r, b) && (Right(w, b) ==> Right(w', b)) && (Strict(w, b) ==> Strict(w', b))
  {
    hide Floor, Overflow, IsBatch, CoveredBy, Placed, AggOf, RowsOf, RowsPlaced, RightOrExpired, AllRolled;
    hide Covered, CoveredOrAged, Right, Strict;
    CloseNothingLate(w.s, order, w.h.mark[b]);
    SameTablesKeep(w, DoClose(w, now, order), r, b);
  }

  // ---- writing ---------------------------------------------------------------------------------

  predicate DistinctKeys(rows: seq<Row>) {
    forall i, j :: 0 <= i < j < |rows| ==> rows[i].key != rows[j].key
  }

  lemma PendingDistinct(w: World)
    requires SampleInv(w)
    ensures DistinctKeys(w.s.pending)
  {
    hide Timely, Accumulated, Stored, IsMean, Accounted, Replaceable;
  }

  /** A write adds and replaces means at or above the mark only. */
  lemma WriteAdds(w: World, b: nat)
    requires DistinctKeys(w.s.pending) && b in BUCKETS && b in w.h.mark && NothingLate(w, w.h.mark[b])
    ensures forall k: Key :: k.ts < w.h.mark[b] ==> (k in DoWrite(w).h.ever <==> k in w.h.ever)
    ensures forall k: Key :: k.ts < w.h.mark[b] && k in w.h.ever ==> DoWrite(w).h.ever[k] == w.h.ever[k]
    ensures forall k: Key :: k in DoWrite(w).h.ever && k !in w.h.ever ==> k in DoWrite(w).s.sample
    ensures forall k :: k in w.s.sample ==> k in DoWrite(w).s.sample
    ensures forall k :: k in DoWrite(w).s.sample && k !in w.s.sample ==> k.ts >= w.h.mark[b]
  {
    hide Insert, KeysOf;
    var rows := w.s.pending;
    InsertShape(w.h.ever, rows);
    InsertShape(w.s.sample, rows);
    forall k | k in KeysOf(rows) ensures k.ts >= w.h.mark[b] {
      KeyOfRow(rows, k);
    }
  }

  lemma WriteKeepsRollInv(w: World, r: Retention, b: nat)
    requires SampleInv(w) && b in BUCKETS && RollInv(w, r, b)
    ensures var w' := DoWrite(w);
      RollInv(w', r, b) && (Right(w, b) ==> Right(w', b)) && (Strict(w, b) ==> Strict(w', b))
  {
    hide SampleInv, RowsPlaced, RightOrExpired, UnrolledKept, AllRolled, CoveredOrAged, Right, Strict, KeysOf, Insert;
    PendingDistinct(w);
    WriteAdds(w, b);
    RowsOnlyAbove(w, DoWrite(w), r, b);
  }

  /** A final flush closes the open bucket before it writes. */
  lemma FinalKeepsRollInv(w: World, now: nat, order: seq<nat>, r: Retention, b: nat)
    requires SampleInv(w) && b in BUCKETS && RollInv(w, r, b) && now >= w.h.clock
    requires Enumerates(order, w.s.agg.Keys) && forall x :: x in order ==> x in w.s.agg
    ensures var w' := DoFinal(w, now, order);
      RollInv(w', r, b) && (Right(w, b) ==> Right(w', b)) && (Strict(w, b) ==> Strict(w', b))
  {
    hide RowsPlaced, RightOrExpired, UnrolledKept, AllRolled, CoveredOrAged, Right, Strict, Floor, Enumerates;
    hide KeysOf, Insert, Queued, Overflow, Placed, Timely, Accumulated, Stored;
    var c := if w.s.agg != map[] then World(CloseBucket(w.s, order), Closing(w, order)) else w;
    PendingDistinct(w);
    CloseNothingLate(w.s, order, w.h.mark[b]);
    if w.s.agg != map[] {
      ClosedDistinct(w, order);
    }
    var d := World(c.s, c.h.(clock := now));
    assert DoFlush(c, now, []) == DoWrite(d);
    WriteAdds(d, b);
    RowsOnlyAbove(w, DoFinal(w, now, order), r, b);
  }

  lemma ClosedDistinct(w: World, order: seq<nat>)
    requires SampleInv(w) && Enumerates(order, w.s.agg.Keys) && forall x :: x in order ==> x in w.s.agg
    ensures DistinctKeys(CloseBucket(w.s, order).pending)
  {
    hide SampleInv, Closing, CloseBucket, Enumerates, CutsOk, IsMean, Accounted, Replaceable, Total;
    ClosePlaced(w, order, w.s.aggBucket + 1);
  }

  /** Tables that change at or above the mark only. */
  lemma RowsOnlyAbove(w: World, w': World, r: Retention, b: nat)
    requires b in BUCKETS && RollInv(w, r, b) && NothingLate(w', w.h.mark[b]) && w'.h.clock >= w.h.clock
    requires (w'.s.rollup, w'.h.gone, w'.h.mark) == (w.s.rollup, w.h.gone, w.h.mark)
    requires forall k: Key :: k.ts < w.h.mark[b] ==> (k in w'.h.ever <==> k in w.h.ever)
    requires forall k: Key :: k.ts < w.h.mark[b] && k in w.h.ever ==> w'.h.ever[k] == w.h.ever[k]
    requires forall k: Key :: k in w'.h.ever && k !in w.h.ever ==> k in w'.s.sample
    requires forall k :: k in w.s.sample ==> k in w'.s.sample
    requires forall k :: k in w'.s.sample && k !in w.s.sample ==> k.ts >= w.h.mark[b]
    ensures RollInv(w', r, b) && (Right(w, b) ==> Right(w', b)) && (Strict(w, b) ==> Strict(w', b))
  {
    hide Floor, IsBatch, CoveredBy, RollupAge;
    forall k | k in w.s.rollup && k.bucket == b && IsBatch(w.h.ever, k, w.s.rollup[k])
      ensures IsBatch(w'.h.ever, k, w.s.rollup[k])
    {
      LaterKeysKeepBatch(w.h.ever, w'.h.ever, k, w.s.rollup[k], w.h.mark[b]);
    }
  }

  lemma KeyOfRow(rows: seq<Row>, k: Key)
    requires k in KeysOf(rows)
    ensures exists i :: 0 <= i < |rows| && rows[i].key == k
  {
  }

  /** Means at or above the mark do not change a row below it. */
  lemma LaterKeysKeepBatch(m: map<Key, real>, m': map<Key, real>, r: RKey, row: Roll, mark: nat)
    requires IsBatch(m, r, row) && r.ts + r.bucket <= mark
    requires forall k: Key :: k.ts < mark ==> (k in m <==> k in m')
    requires forall k: Key :: k.ts < mark && k in m ==> m[k] == m'[k]
    ensures IsBatch(m', r, row)
  {
    OverAgree(m, m', r.id, r.ts, r.ts + r.bucket);
  }

  // ---- building rollups -----------------------------------------------------------------------------

  /** Just flushed at `now`: nothing queued, and the open bucket is the current one. */
  ghost predicate Quiet(w: World, now: nat) {
    && w.h.clock == now && w.s.pending == []
    && (w.s.agg != map[] ==> w.s.aggBucket == Floor(now, DISK_BUCKET))
  }

  function DoBuild(w: World, b: nat, now: nat, last: nat): World
    requires b > 0
  {
    World(BuildRollups(w.s, b, now, last), w.h.(mark := w.h.mark[b := Floor(now, b)]))
  }

  lemma EverStart(w: World, k: Key)
    requires SampleInv(w) && k in w.h.ever
    ensures k.ts >= START
  {
    hide Floor, AggOf;
    assert Total(w.h, k).n > 0;
    AggWitness(w.h.pushes, k.id, k.ts);
    var i :| 0 <= i < |w.h.pushes| && w.h.pushes[i].id == k.id && Floor(w.h.pushes[i].ts, DISK_BUCKET) == k.ts;
    FloorBoundary(w.h.pushes[i].ts, START, DISK_BUCKET);
  }

  /** The scan starts at or below the mark, and past every sample that a row covers. */
  lemma ScanStart(w: World, r: Retention, b: nat, last: nat)
    requires b in BUCKETS && RollInv(w, r, b) && IsLast(w.s.rollup, b, last)
    ensures From(last, b) <= w.h.mark[b] && From(last, b) % b == 0
    ensures forall t: nat :: CoveredBy(w.s.rollup, b, t) <==> t < From(last, b)
  {
    hide IsBatch, RightOrExpired, AllRolled, CoveredOrAged, NothingLate, UnrolledKept;
    if last != 0 {
      var q :| q in w.s.rollup && q.bucket == b && q.ts == last;
      AddBucket(last, b);
    }
  }

  lemma AddBucket(t: nat, b: nat)
    requires b in BUCKETS && t % b == 0
    ensures (t + b) % b == 0
  {
  }

  /** A window the build writes lies below the new mark, and its row is found by any sample scanned in it. */
  lemma WindowPlaced(w: World, r: Retention, b: nat, now: nat, last: nat, k: Key)
    requires SampleInv(w) && b in BUCKETS && RollInv(w, r, b) && IsLast(w.s.rollup, b, last) && now >= w.h.clock
    requires k in w.s.sample && From(last, b) <= k.ts < Floor(now, b)
    ensures var q := RKey(b, k.id, Floor(k.ts, b));
      && START <= q.ts && q.ts % b == 0 && From(last, b) <= q.ts && q.ts <= k.ts < q.ts + b <= Floor(now, b)
      && WindowAgg(w.s.sample, q, From(last, b), Floor(now, b)) == Over(w.s.sample, k.id, q.ts, q.ts + b)
      && WindowAgg(w.s.sample, q, From(last, b), Floor(now, b)).n > 0
  {
    hide Floor, Placed, AggOf, Accumulated, Timely, Over, CoveredBy, RollInv, IsLast, From;
    ScanStart(w, r, b, last);
    EverStart(w, k);
    FloorFacts(k.ts, b);
    FloorFacts(now, b);
    FloorBoundary(k.ts, From(last, b), b);
    FloorBoundary(k.ts, START, b);
    FloorBoundary(k.ts, Floor(now, b), b);
    OverWitness(w.s.sample, k.id, Floor(k.ts, b), Floor(k.ts, b) + b, k.ts);
  }

  /** Above the mark such a window holds every mean that will ever fall into it. */
  lemma WindowComplete(w: World, r: Retention, b: nat, now: nat, last: nat, k: Key)
    requires SampleInv(w) && b in BUCKETS && RollInv(w, r, b) && IsLast(w.s.rollup, b, last) && now >= w.h.clock
    requires k in w.s.sample && w.h.mark[b] <= k.ts < Floor(now, b)
    ensures From(last, b) <= k.ts
    ensures var q := RKey(b, k.id, Floor(k.ts, b));
      var a := WindowAgg(w.s.sample, q, From(last, b), Floor(now, b));
      w.h.mark[b] <= q.ts && a.n > 0 && IsBatch(w.h.ever, q, RollOf(a))
  {
    hide Floor, Placed, AggOf, Accumulated, Timely, Over, CoveredBy, IsLast, From, WindowAgg;
    var t := Floor(k.ts, b);
    ScanStart(w, r, b, last);
    WindowPlaced(w, r, b, now, last, k);
    FloorBoundary(k.ts, w.h.mark[b], b);
    OverAgree(w.s.sample, w.h.ever, k.id, t, t + b);
  }

  /** A row the build writes is right, or has expired before and is past its age as it is written. */
  lemma NewRowRight(w: World, r: Retention, b: nat, now: nat, last: nat, q: RKey)
    requires SampleInv(w) && b in BUCKETS && RollInv(w, r, b) && IsLast(w.s.rollup, b, last) && now == w.h.clock
    requires q in NewRows(w.s.sample, b, From(last, b), Floor(now, b))
    ensures q.bucket == b && START <= q.ts && q.ts % b == 0 && q.ts + b <= Floor(now, b)
    ensures IsBatch(w.h.ever, q, NewRows(w.s.sample, b, From(last, b), Floor(now, b))[q])
         || (Expired(w, r, q) && !Covered(w, b, w.h.mark[b]))
  {
    hide Floor, IsBatch, WindowAgg, Placed, Timely, Accumulated, IsLast, From, RollOf, CoveredBy, Aged;
    hide RowsPlaced, RightOrExpired, NothingLate, UnrolledKept;
    assert q in Windows(w.s.sample, b, From(last, b), Floor(now, b));
    var k :| k in w.s.sample && From(last, b) <= k.ts < Floor(now, b) && q == RKey(b, k.id, Floor(k.ts, b));
    WindowPlaced(w, r, b, now, last, k);
    ScanStart(w, r, b, last);
    if k.ts >= w.h.mark[b] {
      WindowComplete(w, r, b, now, last, k);
    } else {
      assert !CoveredBy(w.s.rollup, b, k.ts);
      assert k in w.h.ever;
      if q in w.s.rollup {
        CoverWith(w.s.rollup, q, k.ts);
      }
    }
  }

  lemma ScannedIsRolled(w: World, r: Retention, b: nat, now: nat, last: nat, k: Key)
    requires SampleInv(w) && b in BUCKETS && RollInv(w, r, b) && IsLast(w.s.rollup, b, last) && now >= w.h.clock
    requires k in w.s.sample && From(last, b) <= k.ts < Floor(now, b)
    ensures RKey(b, k.id, Floor(k.ts, b)) in NewRows(w.s.sample, b, From(last, b), Floor(now, b))
  {
    hide Floor, IsBatch, WindowAgg, RollInv, SampleInv, IsLast, From, RollOf;
    WindowPlaced(w, r, b, now, last, k);
    assert RKey(b, k.id, Floor(k.ts, b)) in Windows(w.s.sample, b, From(last, b), Floor(now, b));
  }

  lemma MarkBelow(now: nat, mark: nat, b: nat)
    requires b in BUCKETS && mark % b == 0 && mark <= now
    ensures mark <= Floor(now, b) <= now && Floor(now, b) % b == 0 && now < Floor(now, b) + b
    ensures Floor(now, b) <= Floor(now, DISK_BUCKET)
  {
    hide Floor;
    FloorFacts(now, b);
    FloorBoundary(now, mark, b);
    Divides(Floor(now, b), b);
    FloorBoundary(now, Floor(now, b), DISK_BUCKET);
  }

  /** After a build every sample below the new mark is covered. */
  lemma BuildCovers(w: World, r: Retention, b: nat, now: nat, last: nat)
    requires SampleInv(w) && b in BUCKETS && RollInv(w, r, b) && IsLast(w.s.rollup, b, last) && now >= w.h.clock
    ensures Covered(DoBuild(w, b, now, last), b, Floor(now, b))
  {
    hide Floor, IsLast, NewRows, CoveredBy, SampleInv, RollInv, From;
    var from, cutoff, w' := From(last, b), Floor(now, b), DoBuild(w, b, now, last);
    ScanStart(w, r, b, last);
    forall k | k in w.s.sample && k.ts < cutoff ensures CoveredBy(w'.s.rollup, b, k.ts) {
      if k.ts < from {
        CoveredGrows(w.s.rollup, w'.s.rollup, b, k.ts);
      } else {
        ScannedIsRolled(w, r, b, now, last, k);
        FloorFacts(k.ts, b);
        CoverWith(w'.s.rollup, RKey(b, k.id, Floor(k.ts, b)), k.ts);
      }
    }
  }

  /** After a build every mean below the new mark is in a row, or its row has expired. */
  lemma BuildRollsAll(w: World, r: Retention, b: nat, now: nat, last: nat)
    requires SampleInv(w) && b in BUCKETS && RollInv(w, r, b) && IsLast(w.s.rollup, b, last) && now >= w.h.clock
    ensures AllRolled(DoBuild(w, b, now, last), b, Floor(now, b))
  {
    hide Floor, IsLast, NewRows, CoveredBy, SampleInv, From, RightOrExpired, CoveredOrAged, RowsPlaced;
    var from, cutoff, w' := From(last, b), Floor(now, b), DoBuild(w, b, now, last);
    ScanStart(w, r, b, last);
    forall k | k in w.h.ever && k.ts < cutoff
      ensures RKey(b, k.id, Floor(k.ts, b)) in w'.s.rollup || RKey(b, k.id, Floor(k.ts, b)) in w.h.gone
    {
      if k.ts >= w.h.mark[b] {
        ScannedIsRolled(w, r, b, now, last, k);
      }
    }
  }

  /** Every row after a build is placed below the new mark, and is right or has expired before. */
  lemma BuildRows(w: World, r: Retention, b: nat, now: nat, last: nat)
    requires SampleInv(w) && b in BUCKETS && RollInv(w, r, b) && Quiet(w, now) && IsLast(w.s.rollup, b, last)
    ensures var w' := DoBuild(w, b, now, last);
      RowsPlaced(w', b, Floor(now, b)) && RightOrExpired(w', r, b) && (Strict(w, b) ==> Right(w', b))
  {
    hide Floor, IsBatch, IsLast, NewRows, SampleInv, From, Aged, Covered, CoveredOrAged;
    hide AllRolled, UnrolledKept, NothingLate;
    var from, cutoff, w' := From(last, b), Floor(now, b), DoBuild(w, b, now, last);
    MarkBelow(now, w.h.mark[b], b);
    forall q | q in w'.s.rollup && q.bucket == b
      ensures START <= q.ts && q.ts % b == 0 && q.ts + b <= cutoff
      ensures IsBatch(w.h.ever, q, w'.s.rollup[q]) || Expired(w, r, q)
      ensures Strict(w, b) ==> IsBatch(w.h.ever, q, w'.s.rollup[q])
    {
      if from < cutoff && q in NewRows(w.s.sample, b, from, cutoff) {
        NewRowRight(w, r, b, now, last, q);
      } else {
        assert q in w.s.rollup && w'.s.rollup[q] == w.s.rollup[q];
      }
    }
  }

  /** An incremental build keeps the invariant, and covers everything it has rolled. */
  lemma BuildKeepsRollInv(w: World, r: Retention, b: nat, now: nat, last: nat)
    requires SampleInv(w) && b in BUCKETS && RollInv(w, r, b) && Quiet(w, now) && IsLast(w.s.rollup, b, last)
    ensures var w' := DoBuild(w, b, now, last);
      && RollInv(w', r, b) && Covered(w', b, w'.h.mark[b]) && (Strict(w, b) ==> Strict(w', b))
  {
    hide Floor, BuildRollups, IsLast, SampleInv, AllRolled, RowsPlaced, RightOrExpired, CoveredBy, Aged, Right;
    MarkBelow(now, w.h.mark[b], b);
    BuildCovers(w, r, b, now, last);
    BuildRollsAll(w, r, b, now, last);
    BuildRows(w, r, b, now, last);
    BuildAddsOnly(w.s, b, now, last);
  }

  lemma CoverWith(rollup: map<RKey, Roll>, r: RKey, t: nat)
    requires r in rollup && r.ts + r.bucket > t
    ensures CoveredBy(rollup, r.bucket, t)
  {
  }

  lemma CoveredGrows(before: map<RKey, Roll>, after: map<RKey, Roll>, b: nat, t: nat)
    requires CoveredBy(before, b, t) && forall r :: r in before ==> r in after
    ensures CoveredBy(after, b, t)
  {
  }

  lemma BuildAddsOnly(s: Store, b: nat, now: nat, last: nat)
    requires b > 0
    ensures var s' := BuildRollups(s, b, now, last);
      && (forall r :: r in s.rollup ==> r in s'.rollup)
      && (forall r :: r in s'.rollup && r.bucket != b ==> r in s.rollup && s'.rollup[r] == s.rollup[r])
      && s' == s.(rollup := s'.rollup)
  {
    hide Floor, WindowAgg, RollOf;
  }

  /** Building one bucket size leaves the others alone. */
  lemma BuildKeepsOthers(w: World, r: Retention, b: nat, now: nat, last: nat, c: nat)
    requires b in BUCKETS && c in BUCKETS && c != b && RollInv(w, r, c)
    ensures var w' := DoBuild(w, b, now, last);
      && RollInv(w', r, c)
      && (Covered(w, c, w.h.mark[c]) ==> Covered(w', c, w.h.mark[c]))
      && (Strict(w, c) ==> Strict(w', c))
  {
    hide Floor, IsBatch, CoveredBy, BuildRollups, Aged;
    var w' := DoBuild(w, b, now, last);
    BuildAddsOnly(w.s, b, now, last);
    forall k | k in w.s.sample && CoveredBy(w.s.rollup, c, k.ts) ensures CoveredBy(w'.s.rollup, c, k.ts) {
      CoveredGrows(w.s.rollup, w'.s.rollup, c, k.ts);
    }
  }

  // ---- retention ------------------------------------------------------------------------------

  datatype Dead = Dead(samples: set<Key>, rolls: set<RKey>)

  function DoRetain(w: World, d: Dead): World {
    World(w.s.(sample := w.s.sample - d.samples, rollup := w.s.rollup - d.rolls),
          w.h.(expired := w.h.expired + d.samples, gone := w.h.gone + d.rolls))
  }

  /** Every retention job of one pass. */
  ghost predicate Retains(w: World, now: nat, r: Retention, d: Dead) {
    && Deletes(StaleSamples(w.s, now, r), d.samples)
    && (forall k :: k in d.rolls ==> k.bucket in BUCKETS)
    && forall b :: b in BUCKETS ==> Deletes(StaleRolls(w.s, now, r, b), set k | k in d.rolls && k.bucket == b)
  }

  /** Every rollup outlives the samples it was built from. */
  predicate OutliveSamples(r: Retention) {
    forall b :: b in BUCKETS ==> HOUR * r.rawHours + b <= RollupAge(r, b)
  }

  /** One pass can delete every stale sample. */
  predicate CaughtUp(s: Store, now: nat, r: Retention) {
    |StaleSamples(s, now, r)| <= RETENTION_CAP
  }

  lemma RetainKeepsSampleInv(w: World, d: Dead)
    requires SampleInv(w) && d.samples <= w.s.sample.Keys
    ensures SampleInv(DoRetain(w, d))
  {
    hide AggOf, Placed, Floor, Segment;
    var w' := DoRetain(w, d);
    SamePlaced(w.h, w'.h, w.s.pending, OpenKeys(w.s), w.s.aggBucket);
    SameReadings(w.h, w'.h, Key(0, 0));
  }

  lemma DeadAreStale(w: World, now: nat, r: Retention, d: Dead)
    requires Retains(w, now, r, d)
    ensures forall k :: k in d.samples ==> k in w.s.sample && k.ts + HOUR * r.rawHours < now
    ensures forall k :: k in d.rolls ==> k in w.s.rollup && Aged(r, k, now)
  {
    hide RollupAge;
    forall k | k in d.rolls ensures k in w.s.rollup && Aged(r, k, now) {
      assert k in (set q | q in d.rolls && q.bucket == k.bucket);
      assert k in StaleRolls(w.s, now, r, k.bucket);
    }
  }

  /** Whatever retention manages to delete, a sample it leaves is covered, or its window is past its age. */
  lemma RetainKeepsRollInv(w: World, now: nat, r: Retention, d: Dead, b: nat)
    requires SampleInv(w) && b in BUCKETS && RollInv(w, r, b) && Quiet(w, now)
    requires w.h.mark[b] == Floor(now, b) && Covered(w, b, w.h.mark[b]) && Retains(w, now, r, d) && r.rawHours >= 1
    ensures RollInv(DoRetain(w, d), r, b)
  {
    hide Floor, IsBatch, SampleInv, RollupAge, Retains, CoveredBy;
    var mark, w' := w.h.mark[b], DoRetain(w, d);
    MarkBelow(now, mark, b);
    DeadAreStale(w, now, r, d);
    forall k | k in w'.s.sample && k.ts < mark
      ensures CoveredBy(w'.s.rollup, b, k.ts) || Aged(r, RKey(b, k.id, Floor(k.ts, b)), now)
    {
      assert CoveredBy(w.s.rollup, b, k.ts);
      LostCover(w, r, d, b, now, k);
    }
  }

  lemma LostCover(w: World, r: Retention, d: Dead, b: nat, now: nat, k: Key)
    requires b in BUCKETS && RowsPlaced(w, b, Floor(now, b)) && CoveredBy(w.s.rollup, b, k.ts)
    requires forall q :: q in d.rolls ==> Aged(r, q, now)
    ensures CoveredBy(w.s.rollup - d.rolls, b, k.ts) || Aged(r, RKey(b, k.id, Floor(k.ts, b)), now)
  {
    hide Floor, RollupAge;
    var q :| q in w.s.rollup && q.bucket == b && q.ts + b > k.ts;
    if q in d.rolls {
      FloorBoundary(k.ts, q.ts + b, b);
      AddBucket(q.ts, b);
    } else {
      CoverWith(w.s.rollup - d.rolls, q, k.ts);
    }
  }

  /** If one pass can delete every stale row of a size, only right rows of that size are left behind. */
  lemma RetainMakesRight(w: World, now: nat, r: Retention, d: Dead, b: nat)
    requires b in BUCKETS && RightOrExpired(w, r, b) && w.h.clock == now && Retains(w, now, r, d)
    requires |StaleRolls(w.s, now, r, b)| <= RETENTION_CAP
    ensures Right(DoRetain(w, d), b)
  {
    hide IsBatch, RollupAge;
    var mine := set k | k in d.rolls && k.bucket == b;
    assert Deletes(StaleRolls(w.s, now, r, b), mine);
    forall k | k in DoRetain(w, d).s.rollup && k.bucket == b ensures IsBatch(w.h.ever, k, w.s.rollup[k]) {
      assert k !in mine;
      assert k !in StaleRolls(w.s, now, r, b);
    }
  }

  /** While retention keeps up with samples and rows outlive them, nothing ever has to be built again. */
  lemma RetainKeepsStrict(w: World, now: nat, r: Retention, d: Dead, b: nat)
    requires b in BUCKETS && Strict(w, b) && Retains(w, now, r, d)
    requires OutliveSamples(r) && CaughtUp(w.s, now, r)
    ensures Strict(DoRetain(w, d), b)
  {
    hide IsBatch, RollupAge, Retains;
    var mark, w' := w.h.mark[b], DoRetain(w, d);
    NoStaleLeft(w, now, r, d);
    DeadAreStale(w, now, r, d);
    forall k | k in w'.s.sample && k.ts < mark ensures CoveredBy(w'.s.rollup, b, k.ts) {
      assert CoveredBy(w.s.rollup, b, k.ts);
      var q :| q in w.s.rollup && q.bucket == b && q.ts + b > k.ts;
      CoverWith(w'.s.rollup, q, k.ts);
    }
  }

  lemma NoStaleLeft(w: World, now: nat, r: Retention, d: Dead)
    requires CaughtUp(w.s, now, r) && Retains(w, now, r, d)
    ensures forall k :: k in w.s.sample && k !in d.samples ==> k.ts + HOUR * r.rawHours >= now
  {
    assert d.samples == StaleSamples(w.s, now, r);
  }
}
