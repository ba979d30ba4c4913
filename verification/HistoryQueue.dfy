/** The disk queue: what closing a bucket keeps of it, and runs in which nothing is lost. */
module HistoryQueue {
  import opened HistoryModel
  import opened HistoryProofs
  import opened HistoryRollups
  import opened HistoryRun
  import opened HistoryRestart

  // ---- one closing ----------------------------------------------------------------------------

  lemma {:induction false} FewRows(agg: map<nat, Agg>, ts: nat, order: seq<nat>)
    requires forall x :: x in order ==> x in agg
    ensures |RowsOf(agg, ts, order)| <= |order|
    decreases order
  {
    if order != [] {
      FewRows(agg, ts, order[1..]);
    }
  }

  lemma {:induction false} EnumerationSize(order: seq<nat>, keys: set<nat>)
    requires Enumerates(order, keys)
    ensures |order| == |keys|
    decreases order
  {
    if order == [] {
      assert keys == {};
    } else {
      var x, rest := order[0], order[1..];
      assert forall y :: y in rest ==> y in order;
      forall y | y in keys - {x} ensures y in rest {
        var i :| 0 <= i < |order| && order[i] == y;
        assert rest[i - 1] == y;
      }
      assert (set y | y in rest) == keys - {x};
      EnumerationSize(rest, keys - {x});
    }
  }

  /**
   * Below 20 000 queued rows closing a bucket keeps every one and loses nothing; from there on it drops
   * the oldest 5 000, which are lost, and keeps all others.
   */
  lemma CloseKeepsNewest(w: World, order: seq<nat>)
    requires forall x :: x in order ==> x in w.s.agg
    ensures var q, kept, lost := Queued(w.s, order), CloseBucket(w.s, order).pending, Closing(w, order).lost;
      && (|q| < 20_000 ==> kept == q && lost <= w.h.lost)
      && (|q| >= 20_000 ==> kept == q[5_000..] && lost == w.h.lost - OpenKeys(w.s) + KeysOf(q[..5_000]))
  {
    hide RowsOf;
    var q := Queued(w.s, order);
    assert q[0..] == q;
    assert KeysOf(q[..0]) == {};
  }

  /** What is queued: the rows there were, and for every metric of the open bucket its sum over its count. */
  lemma QueuedMeans(w: World, order: seq<nat>, id: nat)
    requires SampleInv(w) && Enumerates(order, w.s.agg.Keys) && forall x :: x in order ==> x in w.s.agg
    ensures var q := Queued(w.s, order);
      && w.s.pending <= q && |q| == |w.s.pending| + |w.s.agg|
      && (id in w.s.agg ==>
            && w.s.agg[id].n > 0
            && Row(Key(id, w.s.aggBucket), w.s.agg[id].sum / w.s.agg[id].n as real) in q[|w.s.pending|..])
  {
    hide SampleInv, IsMean, OpenKeys, RowsOf;
    QueuedRows(w, order);
    EnumerationSize(order, w.s.agg.Keys);
    assert |w.s.agg.Keys| == |w.s.agg|;
    Counting(w);
    RowsShape(w.s.agg, w.s.aggBucket, order);
    if id in w.s.agg {
      assert id in w.s.agg.Keys && id in order;
      var i :| 0 <= i < |order| && order[i] == id;
      assert Queued(w.s, order)[|w.s.pending|..][i] == RowsOf(w.s.agg, w.s.aggBucket, order)[i];
    }
  }

  lemma Counting(w: World)
    requires SampleInv(w)
    ensures forall x :: x in w.s.agg ==> w.s.agg[x].n > 0
  {
  }

  // ---- runs that lose nothing -------------------------------------------------------------------

  /** If the bucket now open were closed, fewer than 20 000 rows would be queued. */
  predicate Roomy(w: World) {
    |w.s.pending| + |w.s.agg| < 20_000
  }

  lemma RoomyClosing(w: World, order: seq<nat>)
    requires Roomy(w) && Ordered(w, order)
    ensures Closing(w, order).lost <= w.h.lost
  {
    hide Enumerates, RowsOf, KeysOf, Overflow;
    FewRows(w.s.agg, w.s.aggBucket, order);
    EnumerationSize(order, w.s.agg.Keys);
    assert |w.s.agg.Keys| == |w.s.agg|;
    CloseKeepsNewest(w, order);
  }

  lemma StepLosesNothing(window: nat, r: Retention, w: World, e: Event, w': World)
    requires Step(window, r, w, e, w') && !e.ReopenEv? && Roomy(w)
    ensures w'.h.lost <= w.h.lost
  {
    hide Roomy, Closing, PushSample, CloseElapsed, WritePending, Insert, KeysOf, Floor, NewRows, Enumerates;
    hide Retains, AreLast, From, Queued, Overflow;
    match e
    case PushEv(p, order) => RoomyClosing(w, order);
    case FlushEv(now, order) => RoomyClosing(w, order);
    case MaintainEv(_, order, _, _) => RoomyClosing(w, order);
    case FinalEv(_, order) => RoomyClosing(w, order);
  }

  /** With no process dying and every queue below 20 000 rows nothing is ever lost. */
  lemma {:induction false} NothingLost(window: nat, r: Retention, ws: seq<World>, es: seq<Event>, n: nat)
    requires Run(window, r, ws, es) && n < |ws|
    requires forall i :: 0 <= i < n ==> !es[i].ReopenEv? && Roomy(ws[i])
    ensures ws[n].h.lost == {}
    decreases n
  {
    hide Step, Roomy;
    if n > 0 {
      NothingLost(window, r, ws, es, n - 1);
      StepLosesNothing(window, r, ws[n - 1], es[n - 1], ws[n]);
    }
  }

  lemma StepKeepsCuts(window: nat, r: Retention, w: World, e: Event, w': World)
    requires Step(window, r, w, e, w') && !e.ReopenEv?
    ensures w.h.pushes <= w'.h.pushes
    ensures w'.h.cuts == if e.FinalEv? then w.h.cuts + [|w'.h.pushes|] else w.h.cuts
  {
    hide PushSample, CloseElapsed, WritePending, CloseBucket, Insert, KeysOf, Floor, NewRows, Enumerates;
    hide Retains, AreLast, From, Overflow, RowsOf;
  }

  lemma {:induction false} OneCut(window: nat, r: Retention, ws: seq<World>, es: seq<Event>, n: nat)
    requires Run(window, r, ws, es) && n < |ws|
    requires forall i :: 0 <= i < n ==> !es[i].ReopenEv? && !es[i].FinalEv?
    ensures ws[n].h.cuts == [0]
    decreases n
  {
    hide Step;
    if n > 0 {
      OneCut(window, r, ws, es, n - 1);
      StepKeepsCuts(window, r, ws[n - 1], es[n - 1], ws[n]);
    }
  }

  /** Exactly the buckets with readings have a row, and it is the mean of all of them. */
  ghost predicate Exact(w: World, k: Key) {
    && (k in w.s.sample ==> Total(w.h, k).n > 0 && w.s.sample[k] == Total(w.h, k).Mean())
    && (Total(w.h, k).n > 0 && k !in w.h.expired ==> k in w.s.sample)
  }

  lemma UncutIsExact(w: World, k: Key)
    requires CutsOk(w.h) && |w.h.cuts| == 2 && w.h.cuts[1] == |w.h.pushes|
    requires Settled(w, k) && w.h.lost == {}
    ensures Exact(w, k)
  {
    hide AggOf, Latest, Early, Total, Start;
    if RestartBetween(w.h, k) {
      var i: nat, j: nat :| Parted(w.h, k, i, j);
      var c :| 0 <= c < |w.h.cuts| && i < w.h.cuts[c] <= j;
    }
    EarlyIffRestart(w.h, k);
    EarlyAndLatest(w.h, k);
  }

  /**
   * One process from its first start to its clean shutdown, with fewer than 20 000 rows ever queued:
   * each (metric, bucket) with a finite reading has a row, unless it has expired, and the row is the
   * mean of exactly those readings.
   */
  lemma OneProcessIsExact(window: nat, r: Retention, ws: seq<World>, es: seq<Event>, k: Key)
    requires Run(window, r, ws, es) && es != [] && es[|es| - 1].FinalEv?
    requires forall i :: 0 <= i < |es| - 1 ==> !es[i].ReopenEv? && !es[i].FinalEv?
    requires forall i :: 0 <= i < |es| ==> Roomy(ws[i])
    ensures Exact(ws[|es|], k)
  {
    hide Step, Roomy, CutsOk, Settled, Exact;
    RunLength(window, r, ws, es);
    var n := |es| - 1;
    NothingLost(window, r, ws, es, |es|);
    OneCut(window, r, ws, es, n);
    assert Step(window, r, ws[n], es[n], ws[n + 1]);
    StepKeepsCuts(window, r, ws[n], es[n], ws[n + 1]);
    FinalFlushIsExact(window, r, ws, es, k);
    UncutIsExact(ws[|es|], k);
  }
}
