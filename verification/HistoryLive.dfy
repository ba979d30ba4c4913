/** The in-memory ring of each metric: the longest recent suffix of its readings. */
module HistoryLive {
  import opened HistoryModel
  import opened HistoryProofs
  import opened HistoryRollups
  import opened HistoryRun

  /** The readings of one metric, in order. */
  function PushesOf(ps: seq<Push>, id: nat): seq<Push> {
    if ps == [] then []
    else
      var rest := PushesOf(ps[..|ps| - 1], id);
      if ps[|ps| - 1].id == id then rest + [ps[|ps| - 1]] else rest
  }

  predicate Sorted(ps: seq<Push>) {
    forall i, j :: 0 <= i < j < |ps| ==> ps[i].ts <= ps[j].ts
  }

  /** `ring` is `hist[n..]`, within the window of the last reading and the cap, and cannot start earlier. */
  ghost predicate SuffixFrom(hist: seq<Push>, ring: seq<Push>, window: nat, n: nat) {
    && n < |hist| && ring == hist[n..] && |ring| <= 1_200
    && (forall i :: n <= i < |hist| ==> hist[i].ts >= hist[|hist| - 1].ts - window)
    && (n == 0 || |ring| == 1_200 || hist[n - 1].ts < hist[|hist| - 1].ts - window)
  }

  /** `ring` is the longest suffix of `hist` within the window of its last reading and the point cap. */
  ghost predicate IsLongestSuffix(hist: seq<Push>, ring: seq<Push>, window: nat) {
    if hist == [] then ring == [] else exists n: nat :: SuffixFrom(hist, ring, window, n)
  }

  lemma {:induction false} TrimShape(ring: seq<Push>, cutoff: int) returns (m: nat)
    ensures m <= |ring| && Trim(ring, cutoff) == ring[m..] && |ring| - m <= LIVE_MAX_POINTS
    ensures m < |ring| ==> ring[m].ts >= cutoff
    ensures m == 0 || ring[m - 1].ts < cutoff || |ring| - m == LIVE_MAX_POINTS
    decreases |ring|
  {
    if ring != [] && (ring[0].ts < cutoff || |ring| > LIVE_MAX_POINTS) {
      m := TrimShape(ring[1..], cutoff);
      m := m + 1;
      assert ring[1..][m - 1..] == ring[m..];
    } else {
      m := 0;
    }
  }

  lemma SortedAfter(h: seq<Push>, k: nat)
    requires Sorted(h) && k < |h|
    ensures forall i :: k <= i < |h| ==> h[k].ts <= h[i].ts
  {
  }

  /** The reading before the trimmed ring, if there is one, is out of the window, or the ring is full. */
  lemma TrimMinimal(hist: seq<Push>, ring: seq<Push>, window: nat, p: Push, n: nat, m: nat)
    requires hist != [] && SuffixFrom(hist, ring, window, n) && hist[|hist| - 1].ts <= p.ts && m <= |ring|
    requires m == 0 || (ring + [p])[m - 1].ts < p.ts - window || |ring| + 1 - m == LIVE_MAX_POINTS
    requires |ring| + 1 - m <= LIVE_MAX_POINTS
    ensures n + m == 0 || |ring| + 1 - m == LIVE_MAX_POINTS || (hist + [p])[n + m - 1].ts < p.ts - window
  {
    if m > 0 {
      assert (hist + [p])[n + m - 1] == ring[m - 1];
    } else if n > 0 {
      assert (hist + [p])[n - 1] == hist[n - 1];
    }
  }

  /** Where the trimmed ring starts after a push, if it started at `n` before. */
  lemma TrimStart(hist: seq<Push>, ring: seq<Push>, window: nat, p: Push, n: nat, m: nat)
    requires Sorted(hist + [p]) && m <= |ring| && |ring| + 1 - m <= LIVE_MAX_POINTS
    requires if hist == [] then ring == [] && n == 0 else SuffixFrom(hist, ring, window, n)
    requires (ring + [p])[m].ts >= p.ts - window
    requires m == 0 || (ring + [p])[m - 1].ts < p.ts - window || |ring| + 1 - m == LIVE_MAX_POINTS
    ensures SuffixFrom(hist + [p], (ring + [p])[m..], window, n + m)
  {
    var h, k := hist + [p], n + m;
    SortedAfter(h, k);
    if hist != [] {
      assert h[|h| - 2] == hist[|hist| - 1];
      LastTwo(h);
      TrimMinimal(hist, ring, window, p, n, m);
    }
    hide Sorted;
    assert n + |ring| == |hist| && ring + [p] == h[n..];
    hide SuffixFrom;
    assert (ring + [p])[m..] == h[k..];
    assert (ring + [p])[m] == h[k] && h[|h| - 1] == p;
    SuffixAt(h, window, k);
  }

  lemma SuffixAt(h: seq<Push>, window: nat, k: nat)
    requires k < |h| && |h| - k <= LIVE_MAX_POINTS && h[k].ts >= h[|h| - 1].ts - window
    requires forall i :: k <= i < |h| ==> h[k].ts <= h[i].ts
    requires k == 0 || |h| - k == LIVE_MAX_POINTS || h[k - 1].ts < h[|h| - 1].ts - window
    ensures SuffixFrom(h, h[k..], window, k)
  {
  }

  lemma LastTwo(h: seq<Push>)
    requires Sorted(h) && |h| >= 2
    ensures h[|h| - 2].ts <= h[|h| - 1].ts
  {
  }

  /** One push keeps the ring the longest suffix. */
  lemma TrimKeepsLongest(hist: seq<Push>, ring: seq<Push>, window: nat, p: Push)
    requires IsLongestSuffix(hist, ring, window) && Sorted(hist + [p])
    ensures IsLongestSuffix(hist + [p], Trim(ring + [p], p.ts - window), window)
  {
    hide Trim, SuffixFrom, Sorted;
    var n: nat := 0;
    if hist != [] {
      n :| SuffixFrom(hist, ring, window, n);
    }
    var m := TrimShape(ring + [p], p.ts - window);
    assert (ring + [p])[|ring|] == p;
    TrimStart(hist, ring, window, p, n, m);
  }

  /** What was recorded since the store was last opened. */
  function Since(h: Hist): seq<Push>
    requires h.before <= |h.pushes|
  {
    h.pushes[h.before..]
  }

  /** The rings of all metrics, and the order that makes them windows in time. */
  ghost predicate LiveInv(w: World, window: nat) {
    && w.h.before <= |w.h.pushes|
    && Sorted(Since(w.h)) && (forall i :: 0 <= i < |Since(w.h)| ==> Since(w.h)[i].ts <= w.h.clock)
    && forall id :: IsLongestSuffix(PushesOf(Since(w.h), id), Ring(w.s.live, id), window)
  }

  lemma {:induction false} PushesOfSorted(ps: seq<Push>, id: nat, bound: nat)
    requires Sorted(ps) && forall i :: 0 <= i < |ps| ==> ps[i].ts <= bound
    ensures Sorted(PushesOf(ps, id)) && forall i :: 0 <= i < |PushesOf(ps, id)| ==> PushesOf(ps, id)[i].ts <= bound
    decreases |ps|
  {
    if ps != [] {
      PushesOfSorted(ps[..|ps| - 1], id, ps[|ps| - 1].ts);
    }
  }

  /** What a push does to the readings and the ring of any metric. */
  lemma PushLive(w: World, window: nat, p: Push, order: seq<nat>, id: nat)
    requires w.h.before <= |w.h.pushes| && forall x :: x in order ==> x in w.s.agg
    ensures var w' := DoPush(w, window, p, order);
      w'.h.before == w.h.before <= |w'.h.pushes| && Since(w'.h) == Since(w.h) + [p] && w'.h.clock == p.ts
    ensures PushesOf(Since(w.h) + [p], id)
         == if p.id == id then PushesOf(Since(w.h), id) + [p] else PushesOf(Since(w.h), id)
    ensures Ring(DoPush(w, window, p, order).s.live, id)
         == if p.id == id then Trim(Ring(w.s.live, id) + [p], p.ts - window) else Ring(w.s.live, id)
  {
    hide Trim, DoPush, KeysOf, Lookup, Ring, Since, PushesOf;
    PushHistory(w, window, p, order);
    PushRing(w, window, p, order, id);
    PushesOfMore(Since(w.h), p, id);
  }

  lemma PushHistory(w: World, window: nat, p: Push, order: seq<nat>)
    requires w.h.before <= |w.h.pushes| && forall x :: x in order ==> x in w.s.agg
    ensures var w' := DoPush(w, window, p, order);
      w'.h.before == w.h.before <= |w'.h.pushes| && Since(w'.h) == Since(w.h) + [p] && w'.h.clock == p.ts
  {
    hide Trim, Queued, KeysOf, Floor, Lookup, Overflow;
  }

  lemma PushRing(w: World, window: nat, p: Push, order: seq<nat>, id: nat)
    requires forall x :: x in order ==> x in w.s.agg
    ensures Ring(DoPush(w, window, p, order).s.live, id)
         == if p.id == id then Trim(Ring(w.s.live, id) + [p], p.ts - window) else Ring(w.s.live, id)
  {
    hide Trim, Queued, KeysOf, Floor, Overflow;
  }

  lemma PushesOfMore(ps: seq<Push>, p: Push, id: nat)
    ensures PushesOf(ps + [p], id) == if p.id == id then PushesOf(ps, id) + [p] else PushesOf(ps, id)
  {
    assert (ps + [p])[..|ps|] == ps;
  }

  lemma PushKeepsLive(w: World, window: nat, p: Push, order: seq<nat>)
    requires LiveInv(w, window) && p.ts >= w.h.clock && forall x :: x in order ==> x in w.s.agg
    ensures LiveInv(DoPush(w, window, p, order), window)
  {
    hide IsLongestSuffix, Trim, DoPush, Ring, PushesOf;
    var ps := Since(w.h);
    PushLive(w, window, p, order, p.id);
    forall id ensures IsLongestSuffix(PushesOf(ps + [p], id), Ring(DoPush(w, window, p, order).s.live, id), window) {
      PushLive(w, window, p, order, id);
      assert IsLongestSuffix(PushesOf(ps, id), Ring(w.s.live, id), window);
      if id == p.id {
        PushesOfSorted(ps, id, w.h.clock);
        TrimKeepsLongest(PushesOf(ps, id), Ring(w.s.live, id), window, p);
      }
    }
  }

  /** Flushing, rolling up and retention leave rings and recorded readings alone. */
  lemma OthersKeepLive(w: World, w': World, window: nat)
    requires LiveInv(w, window) && w'.s.live == w.s.live && w'.h.clock >= w.h.clock
    requires (w'.h.pushes, w'.h.before) == (w.h.pushes, w.h.before)
    ensures LiveInv(w', window)
  {
    hide IsLongestSuffix;
    assert forall id :: Ring(w'.s.live, id) == Ring(w.s.live, id);
    forall id ensures IsLongestSuffix(PushesOf(Since(w'.h), id), Ring(w'.s.live, id), window) {
      assert IsLongestSuffix(PushesOf(Since(w.h), id), Ring(w.s.live, id), window);
    }
  }

  lemma FlushLeavesLive(w: World, now: nat, order: seq<nat>)
    requires forall x :: x in order ==> x in w.s.agg
    ensures var w' := DoFlush(w, now, order);
      w'.s.live == w.s.live && (w'.h.pushes, w'.h.before, w'.h.clock) == (w.h.pushes, w.h.before, now)
  {
    hide Floor, RowsOf, Insert, KeysOf, Overflow;
  }

  lemma FinalLeavesLive(w: World, now: nat, order: seq<nat>)
    requires forall x :: x in order ==> x in w.s.agg
    ensures var w' := DoFinal(w, now, order);
      w'.s.live == w.s.live && (w'.h.pushes, w'.h.before, w'.h.clock) == (w.h.pushes, w.h.before, now)
  {
    hide DoFlush, KeysOf, OpenKeys, Overflow, Queued;
    var c := if w.s.agg != map[] then World(CloseBucket(w.s, order), Closing(w, order)) else w;
    FlushLeavesLive(c, now, []);
  }

  lemma BuildsLeaveLive(w: World, now: nat, lasts: (nat, nat, nat))
    ensures var w' := Builds(w, now, lasts);
      w'.s.live == w.s.live && (w'.h.pushes, w'.h.before, w'.h.clock) == (w.h.pushes, w.h.before, w.h.clock)
  {
    hide Floor, NewRows, From;
  }

  lemma StepLeavesLive(window: nat, r: Retention, w: World, e: Event, w': World)
    requires Step(window, r, w, e, w') && (e.FlushEv? || e.MaintainEv? || e.FinalEv?)
    ensures w'.s.live == w.s.live && w'.h.clock >= w.h.clock
    ensures (w'.h.pushes, w'.h.before) == (w.h.pushes, w.h.before)
  {
    hide DoFlush, DoFinal, Builds, Enumerates, AreLast, Retains;
    FlushLeavesLive(w, e.now, e.order);
    FinalLeavesLive(w, e.now, e.order);
    if e.MaintainEv? {
      BuildsLeaveLive(DoFlush(w, e.now, e.order), e.now, e.lasts);
    }
  }

  lemma ReopenLive(w: World, now: nat, window: nat)
    ensures LiveInv(DoReopen(w, now), window)
  {
    hide Floor, KeysOf, OpenKeys;
    var none: seq<Push> := [];
    assert Since(DoReopen(w, now).h) == none;
    EmptyRing(window);
  }

  /**
   * In every state of every run, each ring is the longest suffix that the window and the cap allow of
   * what was recorded since the store was opened.
   */
  lemma {:induction false} LiveIsLongestSuffix(window: nat, r: Retention, ws: seq<World>, es: seq<Event>, n: nat)
    requires Run(window, r, ws, es) && n < |ws|
    ensures LiveInv(ws[n], window)
    decreases n
  {
    hide Step, IsLongestSuffix;
    if n == 0 {
      EmptyRing(window);
    } else {
      LiveIsLongestSuffix(window, r, ws, es, n - 1);
      var w, e, w' := ws[n - 1], es[n - 1], ws[n];
      assert Step(window, r, w, e, w');
      if e.PushEv? {
        PushStep(window, r, w, e, w');
        PushKeepsLive(w, window, e.p, e.order);
      } else if e.ReopenEv? {
        ReopenStep(window, r, w, e, w');
        ReopenLive(w, e.now, window);
      } else {
        StepLeavesLive(window, r, w, e, w');
        OthersKeepLive(w, w', window);
      }
    }
  }

  lemma EmptyRing(window: nat)
    ensures IsLongestSuffix([], [], window)
  {
  }

  lemma PushStep(window: nat, r: Retention, w: World, e: Event, w': World)
    requires Step(window, r, w, e, w') && e.PushEv?
    ensures Ordered(w, e.order) && e.p.ts >= w.h.clock && w' == DoPush(w, window, e.p, e.order)
  {
  }

  lemma ReopenStep(window: nat, r: Retention, w: World, e: Event, w': World)
    requires Step(window, r, w, e, w') && e.ReopenEv?
    ensures w' == DoReopen(w, e.now)
  {
  }
}
