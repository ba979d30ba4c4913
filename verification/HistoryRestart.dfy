/** Whether a row holds the mean of all readings of its ten seconds, and what restarts have to do with it. */
module HistoryRestart {
  import opened HistoryModel
  import opened HistoryProofs
  import opened HistoryRun

  /** The latest readings of the bucket have left the accumulators and the queue, and were not lost. */
  ghost predicate Arrived(w: World, k: Key) {
    k !in w.h.lost && !Queueing(w.s.pending, k) && k !in OpenKeys(w.s)
  }

  /**
   * In every reachable state each row whose latest readings have arrived is the mean of exactly the
   * readings of its metric and bucket since the last final flush or opening before the latest of them.
   */
  lemma RowsAreMeans(window: nat, r: Retention, ws: seq<World>, es: seq<Event>, n: nat, k: Key)
    requires Run(window, r, ws, es) && n < |ws| && k in ws[n].s.sample && Arrived(ws[n], k)
    ensures CutsOk(ws[n].h) && Latest(ws[n].h, k).n > 0 && ws[n].s.sample[k] == Latest(ws[n].h, k).Mean()
  {
    hide Step, Latest, Early, AggOf, CutsOk, Accumulated, OpenKeys, Queueing, Segment;
    RunKeepsSampleInv(window, r, ws, es, n);
    assert Accounted(ws[n].h, ws[n].s.pending, OpenKeys(ws[n].s), k);
  }

  // ---- when that is the mean of all of them ---------------------------------------------------

  /** A restart lies between two readings of the bucket. */
  ghost predicate RestartBetween(h: Hist, k: Key) {
    exists i: nat, j: nat :: Parted(h, k, i, j)
  }

  ghost predicate Parted(h: Hist, k: Key, i: nat, j: nat) {
    && i < j < |h.pushes| && Matches(h.pushes[i], k) && Matches(h.pushes[j], k)
    && exists c :: 0 <= c < |h.cuts| && i < h.cuts[c] <= j
  }

  lemma {:induction false} ReadingCounts(ps: seq<Push>, k: Key, i: nat)
    requires i < |ps| && Matches(ps[i], k)
    ensures AggOf(ps, k.id, k.ts).n > 0
    decreases |ps|
  {
    hide Floor;
    var front, p := ps[..|ps| - 1], ps[|ps| - 1];
    assert ps == front + [p];
    AggSnoc(front, p, k.id, k.ts);
    if i < |front| {
      ReadingCounts(front, k, i);
    }
  }

  lemma {:induction false} StartIsCut(ps: seq<Push>, cuts: seq<nat>, k: Key)
    requires WithinLength(cuts, |ps|)
    ensures Start(ps, cuts, k) == 0 || exists c :: 0 <= c < |cuts| && cuts[c] == Start(ps, cuts, k)
  {
    hide AggOf;
    if cuts != [] {
      StartIsCut(ps, cuts[..|cuts| - 1], k);
    }
  }

  lemma {:induction false} StartAtLeast(ps: seq<Push>, cuts: seq<nat>, k: Key, c: nat)
    requires WithinLength(cuts, |ps|) && c < |cuts| && AggOf(ps[cuts[c]..], k.id, k.ts).n > 0
    requires forall i, j :: 0 <= i < j < |cuts| ==> cuts[i] <= cuts[j]
    ensures Start(ps, cuts, k) >= cuts[c]
  {
    hide AggOf;
    if c < |cuts| - 1 {
      StartAtLeast(ps, cuts[..|cuts| - 1], k, c);
    }
  }

  /** There are earlier readings of the bucket exactly if a restart parts its readings. */
  lemma EarlyIffRestart(h: Hist, k: Key)
    requires CutsOk(h)
    ensures Early(h, k).n > 0 <==> RestartBetween(h, k)
  {
    hide AggOf, Floor, Start;
    var s := Start(h.pushes, h.cuts, k);
    if Early(h, k).n > 0 {
      EarlyAndLatest(h, k);
      StartHasReadings(h.pushes, h.cuts, k);
      StartIsCut(h.pushes, h.cuts, k);
      AggWitness(h.pushes[..s], k.id, k.ts);
      AggWitness(h.pushes[s..], k.id, k.ts);
      var i :| 0 <= i < s && h.pushes[..s][i].id == k.id && Floor(h.pushes[..s][i].ts, DISK_BUCKET) == k.ts;
      var j :| 0 <= j < |h.pushes| - s
            && h.pushes[s..][j].id == k.id && Floor(h.pushes[s..][j].ts, DISK_BUCKET) == k.ts;
      assert h.pushes[s..][j] == h.pushes[s + j] && h.pushes[..s][i] == h.pushes[i];
      assert Parted(h, k, i, s + j);
    }
    if RestartBetween(h, k) {
      var i: nat, j: nat :| Parted(h, k, i, j);
      var c :| 0 <= c < |h.cuts| && i < h.cuts[c] <= j;
      assert h.pushes[h.cuts[c]..][j - h.cuts[c]] == h.pushes[j];
      ReadingCounts(h.pushes[h.cuts[c]..], k, j - h.cuts[c]);
      StartAtLeast(h.pushes, h.cuts, k, c);
      assert h.pushes[..s][i] == h.pushes[i];
      ReadingCounts(h.pushes[..s], k, i);
    }
  }

  /** Readings before others leave the mean as it is only if they have the same mean. */
  lemma MeanOfParts(e: Agg, l: Agg)
    requires e.n > 0 && l.n > 0
    ensures Merge(e, l).Mean() == l.Mean() <==> e.Mean() == l.Mean()
  {
    var x, y, m := e.n as real, l.n as real, Merge(e, l).Mean();
    assert e.Mean() * x == e.sum && l.Mean() * y == l.sum && m * (x + y) == e.sum + l.sum;
    assert (e.Mean() - l.Mean()) * x == (m - l.Mean()) * (x + y);
    ZeroTogether(e.Mean() - l.Mean(), x, m - l.Mean(), x + y);
  }

  lemma ZeroTogether(a: real, x: real, b: real, y: real)
    requires a * x == b * y && x > 0.0 && y > 0.0
    ensures a == 0.0 <==> b == 0.0
  {
  }

  /**
   * A row whose latest readings have arrived is the mean of all readings of its metric and bucket
   * exactly if no restart parts them, or those before it have the same mean by themselves.
   */
  lemma ExactIffUnparted(window: nat, r: Retention, ws: seq<World>, es: seq<Event>, n: nat, k: Key)
    requires Run(window, r, ws, es) && n < |ws| && k in ws[n].s.sample && Arrived(ws[n], k)
    ensures var h := ws[n].h;
      && CutsOk(h) && Total(h, k).n > 0 && (RestartBetween(h, k) ==> Early(h, k).n > 0)
      && (ws[n].s.sample[k] == Total(h, k).Mean()
          <==> !RestartBetween(h, k) || Early(h, k).Mean() == ws[n].s.sample[k])
  {
    hide Run, Latest, Early, AggOf, CutsOk, Arrived, RestartBetween;
    var h := ws[n].h;
    RowsAreMeans(window, r, ws, es, n, k);
    EarlyAndLatest(h, k);
    EarlyIffRestart(h, k);
    if Early(h, k).n > 0 {
      MeanOfParts(Early(h, k), Latest(h, k));
    } else {
      assert Merge(Early(h, k), Latest(h, k)) == Latest(h, k);
    }
  }

  /** What the tables hold of one ten-second bucket after a final flush. */
  ghost predicate Settled(w: World, k: Key)
    requires CutsOk(w.h)
  {
    && (Total(w.h, k).n == 0 ==> k !in w.s.sample)
    && (Total(w.h, k).n > 0 && k !in w.h.lost && k !in w.h.expired ==> k in w.s.sample)
    && (k in w.s.sample && k !in w.h.lost ==> Latest(w.h, k).n > 0 && w.s.sample[k] == Latest(w.h, k).Mean())
    && (k in w.h.lost && !RestartBetween(w.h, k) ==> k !in w.s.sample)
  }

  /**
   * Ten-second aggregation is exact: after any run that ends in a final flush, every (metric, bucket)
   * that received readings has a row, unless its latest mean was dropped by a full queue or died with a
   * process, or retention removed it; the row is the mean of exactly those readings that no restart
   * parts from the latest; and no other row exists.
   */
  lemma FinalFlushIsExact(window: nat, r: Retention, ws: seq<World>, es: seq<Event>, k: Key)
    requires Run(window, r, ws, es) && es != [] && es[|es| - 1].FinalEv?
    ensures CutsOk(ws[|es|].h) && Settled(ws[|es|], k)
  {
    hide Step, Latest, Early, AggOf, Accumulated, IsMean, Total, RestartBetween, Run;
    RunLength(window, r, ws, es);
    var w := ws[|es|];
    RunKeepsSampleInv(window, r, ws, es, |es|);
    LastIsFinal(window, r, ws, es);
    assert OpenKeys(w.s) == {} && !Queueing(w.s.pending, k);
    assert Total(w.h, k).n > 0 ==> Accounted(w.h, w.s.pending, OpenKeys(w.s), k);
    assert Replaceable(w.h, w.s.pending, OpenKeys(w.s), k);
    EarlyIffRestart(w.h, k);
  }

  lemma RunLength(window: nat, r: Retention, ws: seq<World>, es: seq<Event>)
    requires Run(window, r, ws, es)
    ensures |ws| == |es| + 1
  {
    hide Step;
  }

  lemma LastIsFinal(window: nat, r: Retention, ws: seq<World>, es: seq<Event>)
    requires Run(window, r, ws, es) && es != [] && es[|es| - 1].FinalEv?
    ensures |ws| == |es| + 1 && ws[|es|].s.agg == map[] && ws[|es|].s.pending == []
  {
    hide Step, SampleInv;
    var n := |es| - 1;
    assert Step(window, r, ws[n], es[n], ws[n + 1]);
    RunKeepsSampleInv(window, r, ws, es, n);
    FinalStep(window, r, ws[n], es[n], ws[n + 1]);
  }

  lemma FinalStep(window: nat, r: Retention, w: World, e: Event, w': World)
    requires Step(window, r, w, e, w') && e.FinalEv? && SampleInv(w)
    ensures w'.s.agg == map[] && w'.s.pending == []
  {
    hide SampleInv, DoFinal, Enumerates;
    FinalKeepsSampleInv(w, e.now, e.order);
  }

  // ---- a quick restart ------------------------------------------------------------------------

  lemma RunSnoc(window: nat, r: Retention, ws: seq<World>, es: seq<Event>, e: Event, w: World)
    requires Run(window, r, ws, es) && Step(window, r, ws[|es|], e, w)
    ensures Run(window, r, ws + [w], es + [e])
  {
    hide Step;
    var ws', es' := ws + [w], es + [e];
    forall i | 0 <= i < |es'| ensures Step(window, r, ws'[i], es'[i], ws'[i + 1]) {
      if i < |es| {
        assert Step(window, r, ws[i], es[i], ws[i + 1]);
      }
    }
  }

  /** One reading of metric 0 is open, and nothing else is open or queued. */
  ghost predicate Holds(w: World, bucket: nat, v: real) {
    w.s.agg == map[0 := Single(v)] && w.s.aggBucket == bucket && w.s.pending == []
  }

  lemma OneKey(agg: map<nat, Agg>)
    requires agg.Keys == {0}
    ensures Enumerates([0], agg.Keys) && forall x :: x in [0] ==> x in agg
  {
    assert [0][0] == 0;
  }

  lemma NoKeys(w: World)
    requires w.s.agg == map[]
    ensures Ordered(w, [])
  {
  }

  /** Closing the bucket of a single reading. */
  lemma CloseOne(s: Store, v: real)
    requires s.agg == map[0 := Single(v)] && s.pending == []
    ensures CloseBucket(s, [0]) == s.(agg := map[], pending := [Row(Key(0, s.aggBucket), v)])
    ensures Overflow(|Queued(s, [0])|) == 0
  {
    var rest: seq<nat> := [0][1..];
    assert rest == [];
    assert RowsOf(s.agg, s.aggBucket, [0]) == [Row(Key(0, s.aggBucket), v)];
  }

  lemma InsertOne(m: map<Key, real>, row: Row)
    ensures Insert(m, [row]) == m[row.key := row.mean]
  {
    var rest: seq<Row> := [row][1..];
    assert rest == [];
  }

  lemma OpenOne(w: World, window: nat, t: nat, v: real)
    requires w.s.agg == map[] && w.s.pending == [] && w.s.aggBucket == t && Floor(t, DISK_BUCKET) == t
    ensures var w' := DoPush(w, window, Push(0, t, v), []);
      Holds(w', t, v) && w'.s.sample == w.s.sample && w'.h == w.h.(pushes := w.h.pushes + [Push(0, t, v)], clock := t)
  {
    hide Trim, Floor, Overflow, RowsOf;
    assert NONE.Add(v) == Single(v);
    var none: map<nat, Agg> := map[];
    assert none[0 := Single(v)] == map[0 := Single(v)];
  }

  lemma CloseAndWrite(w: World, t: nat, v: real, now: nat)
    requires Holds(w, t, v) && Floor(now, DISK_BUCKET) != t
    ensures Ordered(w, [0])
    ensures var w' := DoFlush(w, now, [0]);
      && w'.s.sample == w.s.sample[Key(0, t) := v] && w'.h.pushes == w.h.pushes && w'.h.clock == now
      && w'.s.agg == map[] && w'.s.pending == []
  {
    hide CloseBucket, Floor, Insert, Overflow, KeysOf, Enumerates, OpenKeys;
    OneKey(w.s.agg);
    CloseOne(w.s, v);
    InsertOne(w.s.sample, Row(Key(0, t), v));
  }

  lemma FinalOne(w: World, t: nat, v: real, now: nat)
    requires Holds(w, t, v)
    ensures Ordered(w, [0])
    ensures var w' := DoFinal(w, now, [0]);
      && w'.s.sample == w.s.sample[Key(0, t) := v] && w'.h.pushes == w.h.pushes && w'.h.clock == now
      && w'.s.agg == map[] && w'.s.pending == []
  {
    hide CloseBucket, Floor, Insert, Overflow, KeysOf, Enumerates, OpenKeys;
    OneKey(w.s.agg);
    CloseOne(w.s, v);
    InsertOne(w.s.sample, Row(Key(0, t), v));
  }

  lemma OpenedRun(window: nat, r: Retention)
    ensures Run(window, r, [Opened(START)], []) && Floor(START, DISK_BUCKET) == START
  {
    hide Step;
  }

  /**
   * A service stopped cleanly and started again within ten seconds replaces the mean it wrote last: of
   * the readings 1 and 3 of one bucket the row keeps 3, where their mean is 2.
   */
  lemma QuickRestartReplaces(window: nat, r: Retention) returns (ws: seq<World>, es: seq<Event>)
    ensures Run(window, r, ws, es)
    ensures es == [PushEv(Push(0, START, 1.0), []), FinalEv(START, [0]), ReopenEv(START),
                   PushEv(Push(0, START, 3.0), []), FlushEv(START + 10_000, [0])]
    ensures ws[|es|].s.sample == map[Key(0, START) := 3.0]
    ensures Total(ws[|es|].h, Key(0, START)).n == 2 && Total(ws[|es|].h, Key(0, START)).Mean() == 2.0
  {
    hide Run, Holds, DoPush, DoFlush, DoFinal, Enumerates, Floor, Total;
    var w0 := Opened(START);
    OpenedRun(window, r);
    NoKeys(w0);
    OpenOne(w0, window, START, 1.0);
    var w1 := DoPush(w0, window, Push(0, START, 1.0), []);
    FinalOne(w1, START, 1.0, START);
    var w2 := DoFinal(w1, START, [0]);
    var w3 := DoReopen(w2, START);
    NoKeys(w3);
    OpenOne(w3, window, START, 3.0);
    var w4 := DoPush(w3, window, Push(0, START, 3.0), []);
    NextBucket();
    CloseAndWrite(w4, START, 3.0, START + 10_000);
    var w5 := DoFlush(w4, START + 10_000, [0]);
    var e1, e2, e3 := PushEv(Push(0, START, 1.0), []), FinalEv(START, [0]), ReopenEv(START);
    var e4, e5 := PushEv(Push(0, START, 3.0), []), FlushEv(START + 10_000, [0]);
    RunSnoc(window, r, [w0], [], e1, w1);
    RunSnoc(window, r, [w0] + [w1], [] + [e1], e2, w2);
    RunSnoc(window, r, [w0] + [w1] + [w2], [] + [e1] + [e2], e3, w3);
    RunSnoc(window, r, [w0] + [w1] + [w2] + [w3], [] + [e1] + [e2] + [e3], e4, w4);
    RunSnoc(window, r, [w0] + [w1] + [w2] + [w3] + [w4], [] + [e1] + [e2] + [e3] + [e4], e5, w5);
    ws := [w0] + [w1] + [w2] + [w3] + [w4] + [w5];
    es := [] + [e1] + [e2] + [e3] + [e4] + [e5];
    TwoReadings(w5.h);
  }

  lemma NextBucket()
    ensures Floor(START + 10_000, DISK_BUCKET) != START
  {
  }

  lemma TwoReadings(h: Hist)
    requires h.pushes == [Push(0, START, 1.0)] + [Push(0, START, 3.0)]
    ensures Total(h, Key(0, START)).n == 2 && Total(h, Key(0, START)).Mean() == 2.0
  {
    hide AggOf;
    var k, p, q := Key(0, START), Push(0, START, 1.0), Push(0, START, 3.0);
    var none: seq<Push> := [];
    assert [p] == none + [p];
    AggSnoc(none, p, 0, START);
    AggSnoc([p], q, 0, START);
    AggWitness(none, 0, START);
  }
}
