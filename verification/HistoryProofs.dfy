/** The history pipeline over whole runs: no reading is lost or counted twice, and cached rollups equal batch ones. */
module HistoryProofs {
  import opened HistoryModel

  /** What has happened so far, for the specification only. */
  datatype Hist = Hist(
    pushes: seq<Push>,        // every finite reading recorded
    ever: map<Key, real>,     // every mean ever written to the sample table, as last written
    expired: set<Key>,        // sample rows removed by retention
    lost: set<Key>,           // whose latest mean was dropped from an overflowing queue, or with the process
    gone: set<RKey>,          // rollup rows removed by retention
    mark: map<nat, nat>,      // per bucket size: windows below are rolled
    clock: nat,               // latest clock reading
    before: nat,              // how many readings were recorded before the store was last opened
    cuts: seq<nat>)           // how many there were at each opening and each final flush

  datatype World = World(s: Store, h: Hist)

  /** Batch aggregate of the readings of one metric in one 10-second bucket. */
  function AggOf(ps: seq<Push>, id: nat, bucket: nat): Agg {
    if ps == [] then NONE
    else
      var p := ps[|ps| - 1];
      var rest := AggOf(ps[..|ps| - 1], id, bucket);
      if p.id == id && Floor(p.ts, DISK_BUCKET) == bucket then Merge(rest, Single(p.v)) else rest
  }

  lemma AddIsMerge(a: Agg, v: real)
    requires a.n > 0 || a == NONE
    ensures a.Add(v) == Merge(a, Single(v))
  {
  }

  lemma AggSnoc(ps: seq<Push>, p: Push, id: nat, bucket: nat)
    ensures AggOf(ps + [p], id, bucket)
         == if p.id == id && Floor(p.ts, DISK_BUCKET) == bucket then Merge(AggOf(ps, id, bucket), Single(p.v))
            else AggOf(ps, id, bucket)
  {
    assert (ps + [p])[..|ps|] == ps;
  }

  /** A non-empty aggregate has a reading behind it; an empty one is `NONE`. */
  lemma {:induction false} AggWitness(ps: seq<Push>, id: nat, bucket: nat)
    ensures AggOf(ps, id, bucket).n == 0 ==> AggOf(ps, id, bucket) == NONE
    ensures AggOf(ps, id, bucket).n > 0 ==>
      exists i :: 0 <= i < |ps| && ps[i].id == id && Floor(ps[i].ts, DISK_BUCKET) == bucket
  {
    if ps != [] {
      var n := |ps| - 1;
      AggWitness(ps[..n], id, bucket);
      if AggOf(ps[..n], id, bucket).n > 0 {
        var i :| 0 <= i < n && ps[..n][i].id == id && Floor(ps[..n][i].ts, DISK_BUCKET) == bucket;
        assert ps[i] == ps[..n][i];
      }
      assert ps[n] == ps[|ps| - 1];
    }
  }

  /** The aggregate of a run of readings is that of its parts. */
  lemma {:induction false} AggSplit(x: seq<Push>, y: seq<Push>, id: nat, bucket: nat)
    ensures AggOf(x + y, id, bucket) == Merge(AggOf(x, id, bucket), AggOf(y, id, bucket))
    decreases |y|
  {
    if y == [] {
      assert x + y == x;
      AggWitness(x, id, bucket);
    } else {
      var front, p := y[..|y| - 1], y[|y| - 1];
      assert x + y == (x + front) + [p] && y == front + [p];
      AggSplit(x, front, id, bucket);
      AggSnoc(x + front, p, id, bucket);
      AggSnoc(front, p, id, bucket);
      MergeAssoc(AggOf(x, id, bucket), AggOf(front, id, bucket), Single(p.v));
    }
  }

  // ---- what a restart separates ----------------------------------------------------------

  predicate Matches(p: Push, k: Key) {
    p.id == k.id && Floor(p.ts, DISK_BUCKET) == k.ts
  }

  predicate WithinLength(cuts: seq<nat>, n: nat) {
    forall i :: 0 <= i < |cuts| ==> cuts[i] <= n
  }

  /** Where the latest stretch of readings begins that has one of this bucket. */
  function Start(ps: seq<Push>, cuts: seq<nat>, k: Key): (c: nat)
    requires WithinLength(cuts, |ps|)
    ensures c <= |ps|
  {
    if cuts == [] then 0
    else
      var last := cuts[|cuts| - 1];
      if AggOf(ps[last..], k.id, k.ts).n > 0 then last else Start(ps, cuts[..|cuts| - 1], k)
  }

  ghost predicate CutsOk(h: Hist) {
    && h.cuts != [] && h.cuts[0] == 0
    && WithinLength(h.cuts, |h.pushes|)
    && forall i, j :: 0 <= i < j < |h.cuts| ==> h.cuts[i] <= h.cuts[j]
  }

  /** The readings of the bucket since the last final flush or opening that any of them comes after. */
  ghost function Latest(h: Hist, k: Key): Agg
    requires CutsOk(h)
  {
    AggOf(h.pushes[Start(h.pushes, h.cuts, k)..], k.id, k.ts)
  }

  /** The readings of the bucket before that. */
  ghost function Early(h: Hist, k: Key): Agg
    requires CutsOk(h)
  {
    AggOf(h.pushes[..Start(h.pushes, h.cuts, k)], k.id, k.ts)
  }

  function Total(h: Hist, k: Key): Agg {
    AggOf(h.pushes, k.id, k.ts)
  }

  /** The readings since the last final flush or opening. */
  ghost function Segment(h: Hist): seq<Push>
    requires CutsOk(h)
  {
    h.pushes[h.cuts[|h.cuts| - 1]..]
  }

  lemma EarlyAndLatest(h: Hist, k: Key)
    requires CutsOk(h)
    ensures Total(h, k) == Merge(Early(h, k), Latest(h, k))
  {
    hide AggOf, Start;
    var c := Start(h.pushes, h.cuts, k);
    assert h.pushes[..c] + h.pushes[c..] == h.pushes;
    AggSplit(h.pushes[..c], h.pushes[c..], k.id, k.ts);
  }

  lemma {:induction false} StartHasReadings(ps: seq<Push>, cuts: seq<nat>, k: Key)
    requires WithinLength(cuts, |ps|)
    ensures AggOf(ps, k.id, k.ts).n > 0 <==> AggOf(ps[Start(ps, cuts, k)..], k.id, k.ts).n > 0
  {
    hide AggOf;
    if cuts == [] {
      assert ps[0..] == ps;
    } else {
      var last := cuts[|cuts| - 1];
      StartHasReadings(ps, cuts[..|cuts| - 1], k);
      assert ps[..last] + ps[last..] == ps;
      AggSplit(ps[..last], ps[last..], k.id, k.ts);
    }
  }

  /** A reading of another bucket moves no start; one of this bucket moves it to the last cut. */
  lemma {:induction false} StartSnoc(ps: seq<Push>, cuts: seq<nat>, p: Push, k: Key)
    requires WithinLength(cuts, |ps|)
    ensures !Matches(p, k) ==> Start(ps + [p], cuts, k) == Start(ps, cuts, k)
    ensures Matches(p, k) && cuts != [] ==> Start(ps + [p], cuts, k) == cuts[|cuts| - 1]
  {
    hide AggOf, Floor;
    if cuts != [] {
      var last := cuts[|cuts| - 1];
      assert (ps + [p])[last..] == ps[last..] + [p];
      AggSnoc(ps[last..], p, k.id, k.ts);
      StartSnoc(ps, cuts[..|cuts| - 1], p, k);
    }
  }

  /** What a reading does to its bucket and to any other. */
  lemma ReadingEffect(h: Hist, p: Push, k: Key)
    requires CutsOk(h)
    ensures var h' := h.(pushes := h.pushes + [p]);
      && CutsOk(h') && Segment(h') == Segment(h) + [p]
      && (!Matches(p, k) ==> (Latest(h', k), Early(h', k), Total(h', k)) == (Latest(h, k), Early(h, k), Total(h, k)))
      && (Matches(p, k) ==> Early(h', k) == AggOf(h.pushes[..h.cuts[|h.cuts| - 1]], k.id, k.ts) && Total(h', k).n > 0)
  {
    hide AggOf, Start, Floor;
    var ps, c := h.pushes, Start(h.pushes, h.cuts, k);
    StartSnoc(ps, h.cuts, p, k);
    AggSnoc(ps, p, k.id, k.ts);
    AggSnoc(ps[c..], p, k.id, k.ts);
    assert (ps + [p])[c..] == ps[c..] + [p] && (ps + [p])[..c] == ps[..c];
    var last := h.cuts[|h.cuts| - 1];
    assert (ps + [p])[last..] == ps[last..] + [p] && (ps + [p])[..last] == ps[..last];
  }

  /** Starting a new stretch changes nothing about the readings there are. */
  lemma CutEffect(h: Hist, k: Key)
    requires CutsOk(h)
    ensures var h' := h.(cuts := h.cuts + [|h.pushes|]);
      CutsOk(h') && Segment(h') == [] && (Latest(h', k), Early(h', k)) == (Latest(h, k), Early(h, k))
  {
    var cuts' := h.cuts + [|h.pushes|];
    assert cuts'[..|cuts'| - 1] == h.cuts;
    assert h.pushes[|h.pushes|..] == [];
    assert Start(h.pushes, cuts', k) == Start(h.pushes, h.cuts, k);
  }

  /** Readings of the current stretch are the latest. */
  lemma SegmentIsLatest(h: Hist, k: Key)
    requires CutsOk(h) && AggOf(Segment(h), k.id, k.ts).n > 0
    ensures Latest(h, k) == AggOf(Segment(h), k.id, k.ts) && Total(h, k).n > 0
    ensures Early(h, k) == AggOf(h.pushes[..h.cuts[|h.cuts| - 1]], k.id, k.ts)
  {
    hide AggOf;
    EarlyAndLatest(h, k);
  }

  lemma NotInSegment(h: Hist, k: Key)
    requires CutsOk(h) && AggOf(Segment(h), k.id, k.ts).n == 0
    ensures AggOf(h.pushes[..h.cuts[|h.cuts| - 1]], k.id, k.ts).n == Total(h, k).n
  {
    hide AggOf;
    var c := h.cuts[|h.cuts| - 1];
    assert h.pushes[..c] + h.pushes[c..] == h.pushes;
    AggSplit(h.pushes[..c], h.pushes[c..], k.id, k.ts);
  }

  // ---- invariants of the sample side -----------------------------------------------------

  /** Clocks only move forward, and nothing is recorded beyond the open bucket. */
  ghost predicate Timely(w: World) {
    && CutsOk(w.h)
    && w.s.aggBucket % DISK_BUCKET == 0 && w.s.aggBucket <= w.h.clock
    && forall i :: 0 <= i < |w.h.pushes| ==>
         START <= w.h.pushes[i].ts <= w.h.clock && Floor(w.h.pushes[i].ts, DISK_BUCKET) <= w.s.aggBucket
  }

  /** The accumulators are the batch aggregates of the open bucket since the last cut. */
  ghost predicate Accumulated(w: World)
    requires CutsOk(w.h)
  {
    && (forall id :: id in w.s.agg ==> w.s.agg[id].n > 0)
    && (forall id :: Lookup(w.s.agg, id) == AggOf(Segment(w.h), id, w.s.aggBucket))
  }

  /** `m` is the mean of exactly these readings of bucket `k`. */
  ghost predicate IsMean(ps: seq<Push>, k: Key, m: real) {
    var a := AggOf(ps, k.id, k.ts);
    a.n > 0 && m == a.Mean()
  }

  ghost predicate Queueing(rows: seq<Row>, k: Key) {
    exists i :: 0 <= i < |rows| && rows[i].key == k
  }

  /** The means of the open bucket, none of which is queued yet. */
  function OpenKeys(s: Store): set<Key> {
    set id | id in s.agg :: Key(id, s.aggBucket)
  }

  ghost predicate Written(h: Hist, k: Key)
    requires CutsOk(h)
  {
    k in h.ever && Latest(h, k).n > 0 && h.ever[k] == Latest(h, k).Mean()
  }

  /** The latest readings of the bucket are in a place of their own: lost, written, queued or open. */
  ghost predicate Accounted(h: Hist, rows: seq<Row>, open: set<Key>, k: Key)
    requires CutsOk(h)
  {
    k in h.lost || Written(h, k) || Queueing(rows, k) || k in open
  }

  /** A row of a bucket whose latest readings are elsewhere is one of earlier readings. */
  ghost predicate Replaceable(h: Hist, rows: seq<Row>, open: set<Key>, k: Key)
    requires CutsOk(h)
  {
    k in h.ever && (k in h.lost || Queueing(rows, k) || k in open) ==> Early(h, k).n > 0
  }

  ghost predicate Placed(h: Hist, rows: seq<Row>, open: set<Key>, bound: nat)
    requires CutsOk(h)
  {
    && (forall i :: 0 <= i < |rows| ==>
          && rows[i].key.ts < bound && IsMean(Segment(h), rows[i].key, rows[i].mean)
          && rows[i].key !in h.lost && rows[i].key !in open)
    && (forall i, j :: 0 <= i < j < |rows| ==> rows[i].key != rows[j].key)
    && (forall k :: k in h.ever || k in h.lost ==> Total(h, k).n > 0)
    && (forall k: Key :: Total(h, k).n > 0 ==> Accounted(h, rows, open, k))
    && (forall k: Key :: Replaceable(h, rows, open, k))
  }

  /** The table is what was ever written, minus what retention removed. */
  ghost predicate Stored(w: World) {
    && (forall k :: k in w.h.ever <==> k in w.s.sample || k in w.h.expired)
    && (forall k :: k in w.s.sample ==> k !in w.h.expired && w.s.sample[k] == w.h.ever[k])
  }

  ghost predicate SampleInv(w: World) {
    Timely(w) && Accumulated(w) && Stored(w) && Placed(w.h, w.s.pending, OpenKeys(w.s), w.s.aggBucket)
  }

  // ---- steps ------------------------------------------------------------------------------

  function KeysOf(rows: seq<Row>): set<Key> {
    set i | 0 <= i < |rows| :: rows[i].key
  }

  /** History of closing the bucket: its means are queued, and what the queue drops is lost. */
  function Closing(w: World, order: seq<nat>): Hist
    requires forall x :: x in order ==> x in w.s.agg
  {
    var q := Queued(w.s, order);
    w.h.(lost := w.h.lost - OpenKeys(w.s) + KeysOf(q[..Overflow(|q|)]))
  }

  function DoPush(w: World, window: nat, p: Push, order: seq<nat>): World
    requires forall x :: x in order ==> x in w.s.agg
  {
    var h := if Floor(p.ts, DISK_BUCKET) != w.s.aggBucket then Closing(w, order) else w.h;
    World(PushSample(w.s, window, p, order), h.(pushes := h.pushes + [p], clock := p.ts))
  }

  function DoClose(w: World, now: nat, order: seq<nat>): World
    requires forall x :: x in order ==> x in w.s.agg
  {
    var closes := Floor(now, DISK_BUCKET) != w.s.aggBucket && w.s.agg != map[];
    World(CloseElapsed(w.s, now, order), (if closes then Closing(w, order) else w.h).(clock := now))
  }

  function DoWrite(w: World): World {
    World(WritePending(w.s), w.h.(ever := Insert(w.h.ever, w.s.pending), expired := w.h.expired - KeysOf(w.s.pending)))
  }

  function DoCut(w: World): World {
    w.(h := w.h.(cuts := w.h.cuts + [|w.h.pushes|]))
  }

  /** `flush_final`: close the open bucket, whatever the time, and write the queue. */
  function DoFinal(w: World, now: nat, order: seq<nat>): World
    requires forall x :: x in order ==> x in w.s.agg
  {
    var c := if w.s.agg != map[] then World(CloseBucket(w.s, order), Closing(w, order)) else w;
    DoCut(DoFlush(c, now, []))
  }

  /** `open` over the tables of an earlier process, which took its queue and accumulators with it. */
  function DoReopen(w: World, now: nat): World {
    DoCut(World(Store(map[], map[], Floor(now, DISK_BUCKET), [], w.s.sample, w.s.rollup),
                w.h.(lost := w.h.lost + KeysOf(w.s.pending) + OpenKeys(w.s), clock := now, before := |w.h.pushes|)))
  }

  function DoFlush(w: World, now: nat, order: seq<nat>): World
    requires forall x :: x in order ==> x in w.s.agg
  {
    DoWrite(DoClose(w, now, order))
  }

  // ---- closing a bucket ---------------------------------------------------------------------

  lemma {:induction false} RowsShape(agg: map<nat, Agg>, ts: nat, order: seq<nat>)
    requires forall x :: x in order ==> x in agg && agg[x].n > 0
    ensures |RowsOf(agg, ts, order)| == |order|
    ensures forall i :: 0 <= i < |order| ==> RowsOf(agg, ts, order)[i] == Row(Key(order[i], ts), agg[order[i]].Mean())
  {
    if order != [] {
      RowsShape(agg, ts, order[1..]);
      assert RowsOf(agg, ts, order) == [Row(Key(order[0], ts), agg[order[0]].Mean())] + RowsOf(agg, ts, order[1..]);
    }
  }

  /** No reading lies beyond the open bucket. */
  lemma NothingBeyond(w: World, id: nat, b: nat)
    requires Timely(w) && b > w.s.aggBucket
    ensures AggOf(w.h.pushes, id, b) == NONE && AggOf(Segment(w.h), id, b) == NONE
  {
    AggWitness(w.h.pushes, id, b);
    AggWitness(Segment(w.h), id, b);
  }

  lemma OpenIsInSegment(w: World, k: Key)
    requires Timely(w) && Accumulated(w)
    ensures k in OpenKeys(w.s) <==> k.ts == w.s.aggBucket && AggOf(Segment(w.h), k.id, k.ts).n > 0
  {
    hide AggOf;
    assert Lookup(w.s.agg, k.id) == AggOf(Segment(w.h), k.id, w.s.aggBucket);
  }

  /** The row a closing bucket queues for a metric. */
  lemma QueuedRow(w: World, order: seq<nat>, i: nat)
    requires Timely(w) && Accumulated(w) && i < |order| && forall x :: x in order ==> x in w.s.agg
    ensures var n := |w.s.pending|;
      && |Queued(w.s, order)| == n + |order|
      && Queued(w.s, order)[n + i] == Row(Key(order[i], w.s.aggBucket), w.s.agg[order[i]].Mean())
      && Queued(w.s, order)[n + i].key in OpenKeys(w.s)
      && IsMean(Segment(w.h), Queued(w.s, order)[n + i].key, Queued(w.s, order)[n + i].mean)
  {
    hide AggOf, RowsOf, CutsOk, Segment;
    RowsShape(w.s.agg, w.s.aggBucket, order);
    assert Lookup(w.s.agg, order[i]) == AggOf(Segment(w.h), order[i], w.s.aggBucket);
  }

  /** The rows already queued, and behind them one for each metric of the open bucket. */
  lemma QueuedRows(w: World, order: seq<nat>)
    requires SampleInv(w) && forall x :: x in order ==> x in w.s.agg
    ensures var q, n := Queued(w.s, order), |w.s.pending|;
      && |q| == n + |order|
      && (forall i :: 0 <= i < n ==> q[i] == w.s.pending[i])
      && (forall i :: n <= i < |q| ==>
            && q[i].key == Key(order[i - n], w.s.aggBucket) && q[i].key in OpenKeys(w.s)
            && IsMean(Segment(w.h), q[i].key, q[i].mean))
  {
    var q, n := Queued(w.s, order), |w.s.pending|;
    hide AggOf, IsMean, Placed, Lookup, Segment, OpenKeys;
    RowsShape(w.s.agg, w.s.aggBucket, order);
    hide RowsOf;
    forall i | n <= i < |q|
      ensures q[i].key == Key(order[i - n], w.s.aggBucket) && q[i].key in OpenKeys(w.s)
      ensures IsMean(Segment(w.h), q[i].key, q[i].mean)
    {
      QueuedRow(w, order, i - n);
    }
  }

  /** Every open metric is among the queued rows. */
  lemma OpenIsQueued(w: World, order: seq<nat>, k: Key)
    requires SampleInv(w) && Enumerates(order, w.s.agg.Keys) && forall x :: x in order ==> x in w.s.agg
    ensures k in OpenKeys(w.s) || Queueing(w.s.pending, k) <==> Queueing(Queued(w.s, order), k)
  {
    hide Queued, SampleInv;
    var q, n := Queued(w.s, order), |w.s.pending|;
    QueuedRows(w, order);
    if k in OpenKeys(w.s) {
      assert k.id in w.s.agg.Keys && k.id in order;
      var i :| 0 <= i < |order| && order[i] == k.id;
      assert q[n + i].key == k;
    }
    if Queueing(w.s.pending, k) {
      var i :| 0 <= i < n && w.s.pending[i].key == k;
      assert q[i].key == k;
    }
    if Queueing(q, k) {
      var i :| 0 <= i < |q| && q[i].key == k;
      assert i < n ==> w.s.pending[i].key == k;
    }
  }

  /** History with the open bucket's means queued, nothing dropped yet. */
  function Enqueued(w: World): Hist {
    w.h.(lost := w.h.lost - OpenKeys(w.s))
  }

  lemma QueuedDistinct(w: World, order: seq<nat>)
    requires SampleInv(w) && Enumerates(order, w.s.agg.Keys) && forall x :: x in order ==> x in w.s.agg
    ensures forall i, j :: 0 <= i < j < |Queued(w.s, order)| ==> Queued(w.s, order)[i].key != Queued(w.s, order)[j].key
  {
    hide Queued, AggOf, IsMean, Segment, CutsOk, Timely, Accumulated, Stored, Accounted, Replaceable, OpenKeys;
    QueuedRows(w, order);
  }

  lemma QueuedPlaced(w: World, order: seq<nat>, bound: nat)
    requires SampleInv(w) && Enumerates(order, w.s.agg.Keys) && bound > w.s.aggBucket
    requires forall x :: x in order ==> x in w.s.agg
    ensures CutsOk(Enqueued(w)) && Placed(Enqueued(w), Queued(w.s, order), {}, bound)
  {
    var h, q, n := Enqueued(w), Queued(w.s, order), |w.s.pending|;
    QueuedRows(w, order);
    QueuedDistinct(w, order);
    assert CutsOk(h) && Segment(h) == Segment(w.h);
    hide AggOf, Queued, IsMean, Queueing, Accumulated, Stored, Enumerates;
    forall k: Key ensures Total(h, k).n > 0 ==> Accounted(h, q, {}, k) ensures Replaceable(h, q, {}, k) {
      OpenIsQueued(w, order, k);
      assert Replaceable(w.h, w.s.pending, OpenKeys(w.s), k);
      SameReadings(w.h, h, k);
    }
  }

  /** What is said of readings depends on the readings and the cuts. */
  lemma SameReadings(h: Hist, h': Hist, k: Key)
    requires CutsOk(h) && (h'.pushes, h'.cuts) == (h.pushes, h.cuts)
    ensures CutsOk(h') && (Latest(h', k), Early(h', k), Total(h', k)) == (Latest(h, k), Early(h, k), Total(h, k))
    ensures Segment(h') == Segment(h)
  {
  }

  lemma DropComplete(q: seq<Row>, lost: set<Key>, d: nat, k: Key)
    requires d <= |q|
    ensures Queueing(q, k) <==> k in KeysOf(q[..d]) || Queueing(q[d..], k)
  {
    if Queueing(q, k) {
      var i :| 0 <= i < |q| && q[i].key == k;
      if i < d {
        assert q[..d][i].key == k;
      } else {
        assert q[d..][i - d].key == k;
      }
    }
    if Queueing(q[d..], k) {
      var i :| 0 <= i < |q[d..]| && q[d..][i].key == k;
      assert q[d + i].key == k;
    }
  }

  /** Dropping the oldest rows moves them from queued to lost. */
  lemma DropPlaced(h: Hist, q: seq<Row>, bound: nat, d: nat)
    requires CutsOk(h) && Placed(h, q, {}, bound) && d <= |q|
    ensures CutsOk(h.(lost := h.lost + KeysOf(q[..d])))
    ensures Placed(h.(lost := h.lost + KeysOf(q[..d])), q[d..], {}, bound)
  {
    var h' := h.(lost := h.lost + KeysOf(q[..d]));
    assert CutsOk(h') && Segment(h') == Segment(h);
    hide AggOf, IsMean, Queueing, Segment;
    forall i | 0 <= i < |q[d..]|
      ensures q[d..][i] == q[d + i] && q[d..][i].key !in h'.lost
    {
    }
    forall k | k in KeysOf(q[..d]) ensures Total(h, k).n > 0 {
      var i :| 0 <= i < d && q[i].key == k;
      RowRecorded(h, k, q[i].mean);
    }
    forall k: Key ensures Total(h', k).n > 0 ==> Accounted(h', q[d..], {}, k) ensures Replaceable(h', q[d..], {}, k) {
      DropComplete(q, h.lost, d, k);
      SameReadings(h, h', k);
      assert Replaceable(h, q, {}, k);
    }
  }

  lemma RowRecorded(h: Hist, k: Key, m: real)
    requires CutsOk(h) && IsMean(Segment(h), k, m)
    ensures Total(h, k).n > 0
  {
    hide AggOf;
    SegmentIsLatest(h, k);
  }

  /** Closing queues the open bucket and leaves everything accounted for. */
  lemma ClosePlaced(w: World, order: seq<nat>, bound: nat)
    requires SampleInv(w) && Enumerates(order, w.s.agg.Keys) && bound > w.s.aggBucket
    requires forall x :: x in order ==> x in w.s.agg
    ensures CutsOk(Closing(w, order)) && Placed(Closing(w, order), CloseBucket(w.s, order).pending, {}, bound)
  {
    hide Placed, Overflow, Queued, SampleInv, OpenKeys, KeysOf, CutsOk;
    var q := Queued(w.s, order);
    QueuedPlaced(w, order, bound);
    DropPlaced(Enqueued(w), q, bound, Overflow(|q|));
  }

  // ---- pushing -------------------------------------------------------------------------------

  /** A reading joins the open bucket. */
  lemma ReadingPlaced(h: Hist, rows: seq<Row>, open: set<Key>, bound: nat, p: Push, k: Key)
    requires CutsOk(h) && Placed(h, rows, open, bound) && Matches(p, k) && k.ts >= bound
    requires k in open <==> AggOf(Segment(h), k.id, k.ts).n > 0
    ensures var h' := h.(pushes := h.pushes + [p]); CutsOk(h') && Placed(h', rows, open + {k}, bound)
  {
    hide AggOf, Floor, IsMean, Queueing, Latest, Early, Segment, CutsOk;
    var h' := h.(pushes := h.pushes + [p]);
    ReadingEffect(h, p, k);
    forall i | 0 <= i < |rows| ensures IsMean(Segment(h'), rows[i].key, rows[i].mean) {
      OtherMean(h, p, rows[i].key, rows[i].mean);
    }
    forall q: Key ensures Total(h', q).n > 0 ==> Accounted(h', rows, open + {k}, q)
                  ensures Replaceable(h', rows, open + {k}, q)
                  ensures q in h.ever || q in h.lost ==> Total(h', q).n > 0
    {
      if q == k {
        OpenedEarlier(h, rows, open, bound, p, k);
      } else {
        ReadingEffect(h, p, q);
        assert !Matches(p, q);
        assert Replaceable(h, rows, open, q);
      }
    }
  }

  lemma OtherMean(h: Hist, p: Push, k: Key, m: real)
    requires CutsOk(h) && !Matches(p, k) && IsMean(Segment(h), k, m)
    ensures IsMean(Segment(h) + [p], k, m)
  {
    hide AggOf, Floor, Segment;
    AggSnoc(Segment(h), p, k.id, k.ts);
  }

  /** A row there already when its bucket gets a reading is one of readings before the last cut. */
  lemma OpenedEarlier(h: Hist, rows: seq<Row>, open: set<Key>, bound: nat, p: Push, k: Key)
    requires CutsOk(h) && Placed(h, rows, open, bound) && Matches(p, k)
    requires k in open <==> AggOf(Segment(h), k.id, k.ts).n > 0
    ensures var h' := h.(pushes := h.pushes + [p]);
      CutsOk(h') && Replaceable(h', rows, open + {k}, k)
  {
    hide AggOf, Floor, IsMean, Queueing;
    ReadingEffect(h, p, k);
    if k in h.ever {
      if k in open {
        SegmentIsLatest(h, k);
        assert Replaceable(h, rows, open, k);
      } else {
        NotInSegment(h, k);
      }
    }
  }

  lemma QueuedIgnoresLive(s: Store, live: map<nat, seq<Push>>, order: seq<nat>)
    requires forall x :: x in order ==> x in s.agg
    ensures Queued(s.(live := live), order) == Queued(s, order)
  {
  }

  /** The same world with the ring of one metric changed. */
  lemma PushShape(w: World, window: nat, p: Push, order: seq<nat>)
    requires forall x :: x in order ==> x in w.s.agg
    ensures var w', b := DoPush(w, window, p, order), Floor(p.ts, DISK_BUCKET);
      var same := b == w.s.aggBucket;
      var h1 := if same then w.h else Closing(w, order);
      && w'.h == h1.(pushes := w.h.pushes + [p], clock := p.ts)
      && w'.s.aggBucket == b && w'.s.sample == w.s.sample
      && w'.s.pending == (if same then w.s.pending else CloseBucket(w.s, order).pending)
      && w'.s.agg == (var before := if same then w.s.agg else map[]; before[p.id := Lookup(before, p.id).Add(p.v)])
  {
    hide Trim, Overflow, Queued, Floor, OpenKeys, KeysOf;
    QueuedIgnoresLive(w.s, w.s.live[p.id := Trim(Ring(w.s.live, p.id) + [p], p.ts - window)], order);
  }

  lemma PushAccumulates(w: World, window: nat, p: Push, order: seq<nat>)
    requires SampleInv(w) && p.ts >= w.h.clock && forall x :: x in order ==> x in w.s.agg
    ensures CutsOk(DoPush(w, window, p, order).h) && Accumulated(DoPush(w, window, p, order))
  {
    hide AggOf, Placed, Floor, DoPush, Closing;
    var w' := DoPush(w, window, p, order);
    var b := Floor(p.ts, DISK_BUCKET);
    PushShape(w, window, p, order);
    assert w'.h.cuts == w.h.cuts by {
      ClosingKeepsCuts(w, order);
    }
    FloorBoundary(p.ts, w.s.aggBucket, DISK_BUCKET);
    ReadingEffect(w.h, p, Key(p.id, b));
    SegmentOfPush(w.h, w'.h, p);
    forall id ensures Lookup(w'.s.agg, id) == AggOf(Segment(w'.h), id, b) {
      AggSnoc(Segment(w.h), p, id, b);
      AggWitness(Segment(w.h), id, b);
      if b != w.s.aggBucket {
        NothingBeyond(w, id, b);
        AddIsMerge(NONE, p.v);
      } else {
        assert Lookup(w.s.agg, id) == AggOf(Segment(w.h), id, b);
        AddIsMerge(Lookup(w.s.agg, id), p.v);
      }
    }
  }

  lemma ClosingKeepsCuts(w: World, order: seq<nat>)
    requires forall x :: x in order ==> x in w.s.agg
    ensures var h := Closing(w, order);
      (h.pushes, h.cuts, h.ever, h.expired) == (w.h.pushes, w.h.cuts, w.h.ever, w.h.expired)
  {
  }

  lemma SegmentOfPush(h: Hist, h': Hist, p: Push)
    requires CutsOk(h) && h'.pushes == h.pushes + [p] && h'.cuts == h.cuts
    ensures CutsOk(h') && Segment(h') == Segment(h) + [p]
  {
  }

  lemma PushPlaces(w: World, window: nat, p: Push, order: seq<nat>)
    requires SampleInv(w) && Enumerates(order, w.s.agg.Keys) && forall x :: x in order ==> x in w.s.agg
    requires p.ts >= w.h.clock
    ensures var w' := DoPush(w, window, p, order);
      CutsOk(w'.h) && Placed(w'.h, w'.s.pending, OpenKeys(w'.s), w'.s.aggBucket)
  {
    hide AggOf, Placed, Floor, DoPush, Closing, CloseBucket, IsMean, Enumerates;
    var w', b := DoPush(w, window, p, order), Floor(p.ts, DISK_BUCKET);
    var same, k := b == w.s.aggBucket, Key(p.id, b);
    var h1 := if same then w.h else Closing(w, order);
    var open := if same then OpenKeys(w.s) else {};
    PushShape(w, window, p, order);
    ClosingKeepsCuts(w, order);
    FloorBoundary(p.ts, w.s.aggBucket, DISK_BUCKET);
    SameReadings(w.h, h1, k);
    if same {
      OpenIsInSegment(w, k);
    } else {
      ClosePlaced(w, order, b);
      NothingBeyond(w, p.id, b);
    }
    ReadingPlaced(h1, w'.s.pending, open, b, p, k);
    assert OpenKeys(w'.s) == open + {k};
    SamePlaced(h1.(pushes := w.h.pushes + [p]), w'.h, w'.s.pending, OpenKeys(w'.s), b);
  }

  /** What is placed depends on readings, cuts, means written and means lost. */
  lemma SamePlaced(h: Hist, h': Hist, rows: seq<Row>, open: set<Key>, bound: nat)
    requires CutsOk(h) && Placed(h, rows, open, bound)
    requires (h'.pushes, h'.cuts, h'.ever, h'.lost) == (h.pushes, h.cuts, h.ever, h.lost)
    ensures CutsOk(h') && Placed(h', rows, open, bound)
  {
    hide AggOf, IsMean, Queueing;
    forall k: Key ensures Total(h', k).n > 0 ==> Accounted(h', rows, open, k) ensures Replaceable(h', rows, open, k) {
      SameReadings(h, h', k);
      assert Replaceable(h, rows, open, k);
    }
  }

  /** The order in time, and what is stored. */
  lemma PushTimely(w: World, window: nat, p: Push, order: seq<nat>)
    requires Timely(w) && Stored(w) && forall x :: x in order ==> x in w.s.agg
    requires p.ts >= w.h.clock && p.ts >= START
    ensures Timely(DoPush(w, window, p, order)) && Stored(DoPush(w, window, p, order))
  {
    hide Floor, DoPush, Closing, CloseBucket, CutsOk, OpenKeys, Lookup;
    PushShape(w, window, p, order);
    ClosingKeepsCuts(w, order);
    SegmentOfPush(w.h, DoPush(w, window, p, order).h, p);
    FloorFacts(p.ts, DISK_BUCKET);
    FloorBoundary(p.ts, w.s.aggBucket, DISK_BUCKET);
  }

  /** After a push every reading is in its place. */
  lemma PushKeepsSampleInv(w: World, window: nat, p: Push, order: seq<nat>)
    requires SampleInv(w) && Enumerates(order, w.s.agg.Keys) && forall x :: x in order ==> x in w.s.agg
    requires p.ts >= w.h.clock && p.ts >= START
    ensures SampleInv(DoPush(w, window, p, order))
  {
    hide DoPush, Enumerates, CutsOk, Timely, Stored, Accumulated, Placed, OpenKeys;
    PushAccumulates(w, window, p, order);
    PushPlaces(w, window, p, order);
    PushTimely(w, window, p, order);
  }

  // ---- flushing -------------------------------------------------------------------------------

  lemma CloseKeepsSampleInv(w: World, now: nat, order: seq<nat>)
    requires SampleInv(w) && Enumerates(order, w.s.agg.Keys) && forall x :: x in order ==> x in w.s.agg
    requires now >= w.h.clock
    ensures SampleInv(DoClose(w, now, order))
  {
    hide AggOf, Placed, Overflow, Queued, Floor, KeysOf, Segment;
    var w' := DoClose(w, now, order);
    var b := Floor(now, DISK_BUCKET);
    FloorFacts(now, DISK_BUCKET);
    FloorBoundary(now, w.s.aggBucket, DISK_BUCKET);
    var closes := b != w.s.aggBucket && w.s.agg != map[];
    var h1 := if closes then Closing(w, order) else w.h;
    SameReadings(w.h, w'.h, Key(0, 0));
    if closes {
      ClosePlaced(w, order, b);
      assert OpenKeys(w'.s) == {};
      forall id ensures AggOf(Segment(w.h), id, b) == NONE {
        NothingBeyond(w, id, b);
      }
    }
    SamePlaced(h1, w'.h, w'.s.pending, OpenKeys(w'.s), w'.s.aggBucket);
  }

  lemma {:induction false} InsertShape(m: map<Key, real>, rows: seq<Row>)
    requires forall i, j :: 0 <= i < j < |rows| ==> rows[i].key != rows[j].key
    ensures Insert(m, rows).Keys == m.Keys + KeysOf(rows)
    ensures forall i :: 0 <= i < |rows|
                    ==> rows[i].key in Insert(m, rows) && Insert(m, rows)[rows[i].key] == rows[i].mean
    ensures forall k :: k in m && k !in KeysOf(rows) ==> k in Insert(m, rows) && Insert(m, rows)[k] == m[k]
    decreases rows
  {
    if rows != [] {
      var m1 := m[rows[0].key := rows[0].mean];
      InsertShape(m1, rows[1..]);
      assert KeysOf(rows) == {rows[0].key} + KeysOf(rows[1..]) by {
        forall k | k in KeysOf(rows) ensures k in {rows[0].key} + KeysOf(rows[1..]) {
          var i :| 0 <= i < |rows| && rows[i].key == k;
          if i > 0 {
            assert rows[1..][i - 1].key == k;
          }
        }
        forall k | k in KeysOf(rows[1..]) ensures k in KeysOf(rows) {
          var i :| 0 <= i < |rows[1..]| && rows[1..][i].key == k;
          assert rows[i + 1].key == k;
        }
      }
      assert rows[0].key !in KeysOf(rows[1..]);
      forall i | 0 <= i < |rows|
        ensures rows[i].key in Insert(m, rows) && Insert(m, rows)[rows[i].key] == rows[i].mean
      {
        if i > 0 {
          assert rows[1..][i - 1] == rows[i];
        }
      }
    }
  }

  lemma WriteKeepsSampleInv(w: World)
    requires SampleInv(w)
    ensures SampleInv(DoWrite(w))
  {
    hide AggOf, Insert, Placed, Stored, KeysOf, Segment;
    assert CutsOk(w.h) && CutsOk(DoWrite(w).h);
    SameReadings(w.h, DoWrite(w).h, Key(0, 0));
    WrittenPlaced(w.h, w.s.pending, OpenKeys(w.s), w.s.aggBucket);
    SamePlaced(w.h.(ever := Insert(w.h.ever, w.s.pending)), DoWrite(w).h, [], OpenKeys(w.s), w.s.aggBucket);
    assert Stored(DoWrite(w)) by {
      StoredAfter(w, DoWrite(w), OpenKeys(w.s), w.s.aggBucket);
    }
  }

  /** Writing moves every queued mean to the table, over an earlier one of its bucket if there is one. */
  lemma WrittenPlaced(h: Hist, rows: seq<Row>, open: set<Key>, bound: nat)
    requires CutsOk(h) && Placed(h, rows, open, bound)
    ensures var h' := h.(ever := Insert(h.ever, rows)); CutsOk(h') && Placed(h', [], open, bound)
  {
    hide AggOf, Insert;
    var h' := h.(ever := Insert(h.ever, rows));
    InsertShape(h.ever, rows);
    forall k: Key
      ensures Total(h', k).n > 0 ==> Accounted(h', [], open, k)
      ensures Replaceable(h', [], open, k)
      ensures k in h'.ever ==> Total(h', k).n > 0
    {
      SameReadings(h, h', k);
      assert Replaceable(h, rows, open, k);
      if k in KeysOf(rows) {
        var i :| 0 <= i < |rows| && rows[i].key == k;
        SegmentIsLatest(h, k);
      } else {
        assert !Queueing(rows, k);
      }
    }
  }

  // ---- final flushes and openings ---------------------------------------------------------------

  /** With nothing queued and nothing open, a new stretch can begin. */
  lemma CutPlaced(h: Hist, bound: nat)
    requires CutsOk(h) && Placed(h, [], {}, bound)
    ensures var h' := h.(cuts := h.cuts + [|h.pushes|]); CutsOk(h') && Placed(h', [], {}, bound)
  {
    hide AggOf, IsMean, Latest, Early, Segment;
    var h' := h.(cuts := h.cuts + [|h.pushes|]);
    CutEffect(h, Key(0, 0));
    forall k: Key ensures Total(h', k).n > 0 ==> Accounted(h', [], {}, k) ensures Replaceable(h', [], {}, k) {
      CutEffect(h, k);
      assert Replaceable(h, [], {}, k) && Total(h', k) == Total(h, k);
      assert Total(h, k).n > 0 ==> Accounted(h, [], {}, k);
    }
  }

  lemma CutKeepsSampleInv(w: World)
    requires Timely(w) && Stored(w) && w.s.agg == map[] && w.s.pending == []
    requires Placed(w.h, [], {}, w.s.aggBucket)
    ensures SampleInv(DoCut(w))
  {
    hide Placed, Floor;
    CutPlaced(w.h, w.s.aggBucket);
    CutEffect(w.h, Key(0, 0));
    assert OpenKeys(w.s) == {};
  }

  /** A store opened again has lost what was not written, and nothing else. */
  lemma ReopenKeepsSampleInv(w: World, now: nat)
    requires SampleInv(w) && now >= w.h.clock
    ensures SampleInv(DoReopen(w, now))
  {
    hide AggOf, Placed, Floor, OpenKeys, KeysOf, Accumulated, Segment;
    var b := Floor(now, DISK_BUCKET);
    FloorFacts(now, DISK_BUCKET);
    FloorBoundary(now, w.s.aggBucket, DISK_BUCKET);
    ReopenPlaced(w, now, b);
    CutKeepsSampleInv(World(Store(map[], map[], b, [], w.s.sample, w.s.rollup),
                            w.h.(lost := w.h.lost + KeysOf(w.s.pending) + OpenKeys(w.s), clock := now,
                                 before := |w.h.pushes|)));
  }

  lemma ReopenPlaced(w: World, now: nat, b: nat)
    requires SampleInv(w)
    ensures var h := w.h.(lost := w.h.lost + KeysOf(w.s.pending) + OpenKeys(w.s), clock := now, before := |w.h.pushes|);
      CutsOk(h) && Placed(h, [], {}, b)
  {
    hide AggOf, Stored;
    var h := w.h.(lost := w.h.lost + KeysOf(w.s.pending) + OpenKeys(w.s), clock := now, before := |w.h.pushes|);
    forall k: Key
      ensures Total(h, k).n > 0 ==> Accounted(h, [], {}, k)
      ensures Replaceable(h, [], {}, k)
      ensures k in h.lost ==> Total(h, k).n > 0
    {
      SameReadings(w.h, h, k);
      assert Replaceable(w.h, w.s.pending, OpenKeys(w.s), k);
      assert Queueing(w.s.pending, k) <==> k in KeysOf(w.s.pending);
      if Queueing(w.s.pending, k) {
        var i :| 0 <= i < |w.s.pending| && w.s.pending[i].key == k;
        RowRecorded(w.h, k, w.s.pending[i].mean);
      }
      OpenIsInSegment(w, k);
      if k in OpenKeys(w.s) {
        SegmentIsLatest(w.h, k);
      }
    }
  }

  /** A final flush leaves nothing queued or open. */
  lemma FinalKeepsSampleInv(w: World, now: nat, order: seq<nat>)
    requires SampleInv(w) && Enumerates(order, w.s.agg.Keys) && forall x :: x in order ==> x in w.s.agg
    requires now >= w.h.clock
    ensures var w' := DoFinal(w, now, order);
      SampleInv(w') && w'.s.agg == map[] && w'.s.pending == [] && w'.h.clock == now
  {
    hide AggOf, Placed, Floor, KeysOf, Insert, Queued, Overflow, Segment, Accumulated, Stored, DoWrite, Enumerates;
    var c := if w.s.agg != map[] then World(CloseBucket(w.s, order), Closing(w, order)) else w;
    var top := w.s.aggBucket + 1;
    assert CutsOk(c.h) && Placed(c.h, c.s.pending, {}, top) by {
      if w.s.agg != map[] {
        ClosePlaced(w, order, top);
      } else {
        assert OpenKeys(w.s) == {};
        Later(w.h, w.s.pending, {}, w.s.aggBucket, top);
      }
    }
    ClosedStored(w, c);
    FinalWrite(c, top, now);
  }

  lemma Later(h: Hist, rows: seq<Row>, open: set<Key>, bound: nat, top: nat)
    requires CutsOk(h) && Placed(h, rows, open, bound) && bound <= top
    ensures Placed(h, rows, open, top)
  {
  }

  lemma ClosedStored(w: World, c: World)
    requires Timely(w) && Stored(w) && CutsOk(c.h)
    requires (c.s.aggBucket, c.s.sample) == (w.s.aggBucket, w.s.sample)
    requires (c.h.pushes, c.h.clock, c.h.ever, c.h.expired) == (w.h.pushes, w.h.clock, w.h.ever, w.h.expired)
    ensures Timely(c) && Stored(c)
  {
    hide Floor;
  }

  lemma FinalWrite(c: World, top: nat, now: nat)
    requires Timely(c) && Stored(c) && c.s.agg == map[] && Placed(c.h, c.s.pending, {}, top) && now >= c.h.clock
    ensures var w' := DoCut(DoFlush(c, now, []));
      SampleInv(w') && w'.s.agg == map[] && w'.s.pending == [] && w'.h.clock == now
  {
    hide AggOf, Placed, Floor, Insert, KeysOf, Segment, Stored;
    var f := DoFlush(c, now, []);
    WrittenPlaced(c.h, c.s.pending, {}, top);
    SamePlaced(c.h.(ever := Insert(c.h.ever, c.s.pending)), f.h, [], {}, top);
    Emptied(f.h, top, f.s.aggBucket);
    assert Stored(f) by {
      StoredAfter(c, f, {}, top);
    }
    CutKeepsSampleInv(f);
  }

  lemma Emptied(h: Hist, top: nat, bound: nat)
    requires CutsOk(h) && Placed(h, [], {}, top)
    ensures Placed(h, [], {}, bound)
  {
  }

  lemma StoredAfter(c: World, f: World, open: set<Key>, top: nat)
    requires Stored(c) && CutsOk(c.h) && Placed(c.h, c.s.pending, open, top)
    requires f.s.sample == Insert(c.s.sample, c.s.pending) && f.h.ever == Insert(c.h.ever, c.s.pending)
    requires f.h.expired == c.h.expired - KeysOf(c.s.pending)
    ensures Stored(f)
  {
    hide AggOf, Insert, IsMean, Accounted, Replaceable;
    var rows := c.s.pending;
    InsertShape(c.h.ever, rows);
    InsertShape(c.s.sample, rows);
    forall k | k in f.s.sample ensures k !in f.h.expired && k in f.h.ever && f.s.sample[k] == f.h.ever[k] {
      if k in KeysOf(rows) {
        var i :| 0 <= i < |rows| && rows[i].key == k;
      }
    }
  }
}
