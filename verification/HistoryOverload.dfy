/** What a maintenance pass can leave behind when more rows are past their age than it may delete. */
module HistoryOverload {
  import opened HistoryModel
  import opened HistoryProofs
  import opened HistoryRollups
  import opened HistoryRun
  import opened HistoryRestart

  // ---- choosing what LIMIT picks ------------------------------------------------------------

  lemma {:induction false} SubsetOfSize<T>(s: set<T>, n: nat) returns (t: set<T>)
    requires n <= |s|
    ensures t <= s && |t| == n
    decreases n
  {
    if n == 0 {
      t := {};
    } else {
      var x :| x in s;
      var u := SubsetOfSize(s - {x}, n - 1);
      t := u + {x};
    }
  }

  lemma SomeDead<K(!new)>(stale: set<K>) returns (dead: set<K>)
    ensures Deletes(stale, dead)
  {
    if |stale| <= RETENTION_CAP {
      dead := stale;
    } else {
      dead := SubsetOfSize(stale, RETENTION_CAP);
    }
  }

  lemma OfSize(s: Store, now: nat, r: Retention, b: nat, dead: set<RKey>)
    requires Deletes(StaleRolls(s, now, r, b), dead)
    ensures forall k :: k in dead ==> k.bucket == b
  {
    hide RollupAge;
  }

  /** What each job of a pass may delete, put together. */
  lemma Together(w: World, now: nat, r: Retention, d: Dead, d1: set<RKey>, d5: set<RKey>, d15: set<RKey>)
    requires d.rolls == d1 + d5 + d15
    requires Deletes(StaleSamples(w.s, now, r), d.samples)
    requires Deletes(StaleRolls(w.s, now, r, 60_000), d1)
    requires Deletes(StaleRolls(w.s, now, r, 300_000), d5)
    requires Deletes(StaleRolls(w.s, now, r, 900_000), d15)
    ensures Retains(w, now, r, d)
  {
    OfSize(w.s, now, r, 60_000, d1);
    OfSize(w.s, now, r, 300_000, d5);
    OfSize(w.s, now, r, 900_000, d15);
    hide Deletes, StaleRolls, StaleSamples;
    assert (set k | k in d.rolls && k.bucket == 60_000) == d1;
    assert (set k | k in d.rolls && k.bucket == 300_000) == d5;
    assert (set k | k in d.rolls && k.bucket == 900_000) == d15;
  }

  // ---- exactly when one pass leaves right rows only -----------------------------------------

  /** No window the build scans into has lost a sample. */
  ghost predicate Whole(w: World, b: nat, now: nat, last: nat)
    requires b > 0
  {
    forall k, m :: k in w.s.sample && m in w.h.ever && Scanned(k, b, now, last) && SameWindow(k, m, b)
               ==> m in w.s.sample
  }

  predicate Scanned(k: Key, b: nat, now: nat, last: nat)
    requires b > 0
  {
    From(last, b) <= k.ts < Floor(now, b)
  }

  predicate SameWindow(k: Key, m: Key, b: nat)
    requires b > 0
  {
    k.id == m.id && Floor(k.ts, b) == Floor(m.ts, b)
  }

  ghost predicate HoldsRow(s: Store, q: RKey, a: Agg) {
    q in s.rollup && a.n > 0 && s.rollup[q] == RollOf(a)
  }

  /** The row written for a scanned sample. */
  lemma ScannedRow(w: World, r: Retention, b: nat, now: nat, last: nat, k: Key)
    requires SampleInv(w) && b in BUCKETS && RollInv(w, r, b) && IsLast(w.s.rollup, b, last) && now >= w.h.clock
    requires k in w.s.sample && Scanned(k, b, now, last)
    ensures HoldsRow(DoBuild(w, b, now, last).s, RKey(b, k.id, Floor(k.ts, b)),
                     Over(w.s.sample, k.id, Floor(k.ts, b), Floor(k.ts, b) + b))
  {
    hide Floor, WindowAgg, RollInv, SampleInv, IsLast, From, RollOf, Over;
    WindowPlaced(w, r, b, now, last, k);
    ScannedIsRolled(w, r, b, now, last, k);
  }

  lemma ShortIsWrong(w: World, r: Retention, b: nat, now: nat, last: nat, k: Key, m: Key)
    requires SampleInv(w) && b in BUCKETS && RollInv(w, r, b) && IsLast(w.s.rollup, b, last) && now >= w.h.clock
    requires k in w.s.sample && Scanned(k, b, now, last)
    requires m in w.h.ever && m !in w.s.sample && SameWindow(k, m, b)
    ensures !Right(DoBuild(w, b, now, last), b)
  {
    hide Floor, RollInv, IsLast, From, Over, Timely, Accumulated, Placed, BuildRollups;
    var q := RKey(b, k.id, Floor(k.ts, b));
    ScannedRow(w, r, b, now, last, k);
    FloorFacts(m.ts, b);
    FewerRows(w.s.sample, w.h.ever, k.id, q.ts, q.ts + b, m.ts);
    var w' := DoBuild(w, b, now, last);
    assert IsBatch(w'.h.ever, q, w'.s.rollup[q]) ==> w'.s.rollup[q].n == Over(w.h.ever, k.id, q.ts, q.ts + b).n;
  }

  /** A whole window is written right. */
  lemma WholeIsRight(w: World, r: Retention, b: nat, now: nat, last: nat, k: Key)
    requires SampleInv(w) && b in BUCKETS && RollInv(w, r, b) && IsLast(w.s.rollup, b, last) && now >= w.h.clock
    requires k in w.s.sample && Scanned(k, b, now, last) && Whole(w, b, now, last)
    ensures var q, w' := RKey(b, k.id, Floor(k.ts, b)), DoBuild(w, b, now, last);
      q in w'.s.rollup && IsBatch(w.h.ever, q, w'.s.rollup[q])
  {
    hide Floor, RollInv, IsLast, From, Over, Timely, Accumulated, Placed, BuildRollups, Scanned;
    var q := RKey(b, k.id, Floor(k.ts, b));
    ScannedRow(w, r, b, now, last, k);
    FloorFacts(k.ts, b);
    forall t: nat | q.ts <= t < q.ts + b
      ensures HistoryModel.At(w.s.sample, k.id, t) == HistoryModel.At(w.h.ever, k.id, t)
    {
      FloorBoundary(t, q.ts, b);
      FloorFacts(t, b);
      AlignedBucket(q.ts, t, b);
      assert SameWindow(k, Key(k.id, t), b);
    }
    OverAgree(w.s.sample, w.h.ever, k.id, q.ts, q.ts + b);
  }

  lemma AlignedBucket(lo: nat, t: nat, b: nat)
    requires b in BUCKETS && lo % b == 0 && lo <= t < lo + b
    ensures Floor(t, b) == lo
  {
    hide Floor;
    FloorFacts(t, b);
    FloorBoundary(t, lo, b);
    AddBucket(lo, b);
    FloorBoundary(t, lo + b, b);
  }

  /** One build leaves right rows only, exactly if it finds right rows only and scans whole windows only. */
  lemma BuildsRightIff(w: World, r: Retention, b: nat, now: nat, last: nat)
    requires SampleInv(w) && b in BUCKETS && RollInv(w, r, b) && IsLast(w.s.rollup, b, last) && now >= w.h.clock
    ensures Right(DoBuild(w, b, now, last), b) <==> Right(w, b) && Whole(w, b, now, last)
  {
    hide Floor, IsBatch, SampleInv, RollInv, From, WindowAgg, RollOf;
    var w' := DoBuild(w, b, now, last);
    forall q | q in w.s.rollup && q.bucket == b ensures q in w'.s.rollup && w'.s.rollup[q] == w.s.rollup[q] {
      OldRowStays(w, r, b, now, last, q);
    }
    forall k, m | k in w.s.sample && m in w.h.ever && Scanned(k, b, now, last) && SameWindow(k, m, b)
               && m !in w.s.sample
      ensures !Right(w', b)
    {
      ShortIsWrong(w, r, b, now, last, k, m);
    }
    forall q | q in w'.s.rollup && q.bucket == b && q !in w.s.rollup && Whole(w, b, now, last)
      ensures IsBatch(w.h.ever, q, w'.s.rollup[q])
    {
      var k := NewRowHasSample(w, b, now, last, q);
      WholeIsRight(w, r, b, now, last, k);
    }
  }

  lemma NewRowHasSample(w: World, b: nat, now: nat, last: nat, q: RKey) returns (k: Key)
    requires b > 0 && q in DoBuild(w, b, now, last).s.rollup && q !in w.s.rollup
    ensures k in w.s.sample && Scanned(k, b, now, last) && q == RKey(b, k.id, Floor(k.ts, b))
  {
    hide Floor, From, WindowAgg, RollOf;
    assert q in Windows(w.s.sample, b, From(last, b), Floor(now, b));
    k :| k in w.s.sample && From(last, b) <= k.ts < Floor(now, b) && q == RKey(b, k.id, Floor(k.ts, b));
  }

  lemma OldRowStays(w: World, r: Retention, b: nat, now: nat, last: nat, q: RKey)
    requires SampleInv(w) && b in BUCKETS && RollInv(w, r, b) && IsLast(w.s.rollup, b, last) && now >= w.h.clock
    requires q in w.s.rollup && q.bucket == b
    ensures var w' := DoBuild(w, b, now, last); q in w'.s.rollup && w'.s.rollup[q] == w.s.rollup[q]
  {
    hide Floor, WindowAgg, RollOf, SampleInv, RollInv;
    RowBelow(w, r, b, q);
    assert q.ts < From(last, b);
    if q in NewRows(w.s.sample, b, From(last, b), Floor(now, b)) {
      assert q in Windows(w.s.sample, b, From(last, b), Floor(now, b));
      var k :| k in w.s.sample && From(last, b) <= k.ts < Floor(now, b) && q == RKey(b, k.id, Floor(k.ts, b));
      WindowPlaced(w, r, b, now, last, k);
    }
  }

  lemma RowBelow(w: World, r: Retention, b: nat, q: RKey)
    requires b in BUCKETS && RollInv(w, r, b) && q in w.s.rollup && q.bucket == b
    ensures q.ts >= START
  {
  }

  /** Building another size changes nothing that matters for this one. */
  lemma OtherBuildIgnored(w: World, r: Retention, c: nat, now: nat, last: nat, b: nat, lastB: nat)
    requires SampleInv(w) && Quiet(w, now) && c in BUCKETS && b in BUCKETS && b != c && RollInv(w, r, b)
    ensures var w' := DoBuild(w, c, now, last);
      && SampleInv(w') && Quiet(w', now) && RollInv(w', r, b)
      && (Right(w', b) <==> Right(w, b)) && (Whole(w', b, now, lastB) <==> Whole(w, b, now, lastB))
  {
    hide BuildRollups, IsBatch, RollInv, SampleInv, Quiet, Scanned, SameWindow;
    BuildKeepsSampleInv(w, c, now, last);
    BuildKeepsOthers(w, r, c, now, last, b);
    BuildAddsOnly(w.s, c, now, last);
  }

  function LastOf(lasts: (nat, nat, nat), b: nat): nat {
    if b == 60_000 then lasts.0 else if b == 300_000 then lasts.1 else lasts.2
  }

  /** The builds of a pass leave right rows of a size only, exactly if its own build does. */
  lemma PassBuildsRightIff(w: World, r: Retention, now: nat, lasts: (nat, nat, nat), b: nat)
    requires SampleInv(w) && Quiet(w, now) && b in BUCKETS && RollInv(w, r, b) && AreLast(w, now, lasts)
    ensures Right(Builds(w, now, lasts), b) <==> Right(w, b) && Whole(w, b, now, LastOf(lasts, b))
  {
    hide DoBuild, SampleInv, Quiet, RollInv, Right, Whole, IsLast;
    var last := LastOf(lasts, b);
    var w1 := DoBuild(w, 60_000, now, lasts.0);
    var w2 := DoBuild(w1, 300_000, now, lasts.1);
    PassStep(w, r, 60_000, now, lasts.0, b, last);
    PassStep(w1, r, 300_000, now, lasts.1, b, last);
    PassStep(w2, r, 900_000, now, lasts.2, b, last);
  }

  lemma PassStep(w: World, r: Retention, c: nat, now: nat, last: nat, b: nat, lastB: nat)
    requires SampleInv(w) && Quiet(w, now) && c in BUCKETS && b in BUCKETS && RollInv(w, r, b)
    requires IsLast(w.s.rollup, c, last) && (b == c ==> lastB == last)
    ensures var w' := DoBuild(w, c, now, last);
      && SampleInv(w') && Quiet(w', now) && RollInv(w', r, b)
      && (b == c ==> (Right(w', b) <==> Right(w, b) && Whole(w, b, now, lastB)))
      && (b != c ==> (Right(w', b) <==> Right(w, b)) && (Whole(w', b, now, lastB) <==> Whole(w, b, now, lastB)))
  {
    hide DoBuild, SampleInv, RollInv, Right, Whole, IsLast, Quiet;
    QuietClock(w, now);
    BuildKeepsSampleInv(w, c, now, last);
    if b == c {
      BuildsRightIff(w, r, b, now, last);
      BuildKeepsRollInv(w, r, b, now, last);
    } else {
      OtherBuildIgnored(w, r, c, now, last, b, lastB);
    }
  }

  /** The rows past their age can all be deleted, or the build scans whole windows only. */
  ghost predicate Harmless(w: World, e: Event, r: Retention, b: nat)
    requires e.MaintainEv? && b > 0 && forall x :: x in e.order ==> x in w.s.agg
  {
    || |StaleRolls(Built(w, e).s, e.now, r, b)| <= 250_000
    || Whole(DoFlush(w, e.now, e.order), b, e.now, LastOf(e.lasts, b))
  }

  /** A choice of deletions that spares one row past its age. */
  lemma Spare(w: World, now: nat, r: Retention, b: nat, k: RKey) returns (d: Dead)
    requires b in BUCKETS && k in StaleRolls(w.s, now, r, b) && |StaleRolls(w.s, now, r, b)| > RETENTION_CAP
    ensures Retains(w, now, r, d) && k !in d.rolls
  {
    hide RollupAge;
    var stale := StaleRolls(w.s, now, r, b);
    assert |stale - {k}| == |stale| - 1;
    var mine := SubsetOfSize(stale - {k}, RETENTION_CAP);
    assert Deletes(stale, mine);
    var samples := SomeDead(StaleSamples(w.s, now, r));
    var d1 := SomeDead(StaleRolls(w.s, now, r, 60_000));
    var d5 := SomeDead(StaleRolls(w.s, now, r, 300_000));
    var d15 := SomeDead(StaleRolls(w.s, now, r, 900_000));
    if b == 60_000 {
      d1 := mine;
    } else if b == 300_000 {
      d5 := mine;
    } else {
      d15 := mine;
    }
    d := Dead(samples, d1 + d5 + d15);
    Together(w, now, r, d, d1, d5, d15);
  }

  /**
   * A pass that finds right rows of a size only leaves right rows only, whatever rows LIMIT picks, exactly
   * if it can delete every row of that size past its age, or no window it scans into has lost a sample.
   */
  lemma LeavesRightIff(r: Retention, w: World, e: Event, b: nat)
    requires r.rawHours >= 1 && Inv(w, r) && b in BUCKETS && e.MaintainEv? && Ordered(w, e.order) && e.now >= w.h.clock
    requires AreLast(DoFlush(w, e.now, e.order), e.now, e.lasts) && Right(w, b)
    ensures (forall d :: Retains(Built(w, e), e.now, r, d) ==> Right(DoRetain(Built(w, e), d), b))
            <==> Harmless(w, e, r, b)
  {
    hide SampleInv, IsBatch, Retains, Builds, AreLast, DoFlush, Enumerates, RollupAge, MarksNest, Whole;
    hide RowsPlaced, NothingLate, UnrolledKept, AllRolled, CoveredOrAged, Quiet, Floor;
    InvParts(w, r);
    var w0, w1 := DoFlush(w, e.now, e.order), Built(w, e);
    FlushKeepsSampleInv(w, e.now, e.order);
    FlushKeepsRollInv(w, e.now, e.order, r, b);
    BuildsKeepRollInv(w0, e.now, e.lasts, r, b);
    BuildsKeepSampleInv(w0, e.now, e.lasts);
    QuietClock(w1, e.now);
    PassBuildsRightIff(w0, r, e.now, e.lasts, b);
    assert RightOrExpired(w1, r, b);
    forall d | Retains(w1, e.now, r, d) && Harmless(w, e, r, b) ensures Right(DoRetain(w1, d), b) {
      if |StaleRolls(w1.s, e.now, r, b)| <= RETENTION_CAP {
        RetainMakesRight(w1, e.now, r, d, b);
      }
    }
    if !Harmless(w, e, r, b) {
      var k :| k in w1.s.rollup && k.bucket == b && !IsBatch(w1.h.ever, k, w1.s.rollup[k]);
      var d := Spare(w1, e.now, r, b, k);
      assert k in DoRetain(w1, d).s.rollup;
    }
  }

  // ---- how long samples have to be kept -----------------------------------------------------

  /** In no state of any run is a sample past its age that the next build would not roll. */
  ghost predicate UnrolledAreFresh(r: Retention, b: nat)
    requires b in BUCKETS
  {
    forall window: nat, ws: seq<World>, es: seq<Event>, n: nat, k: Key ::
      Run(window, r, ws, es) && n < |ws| && StaleAt(ws[n], r, k) ==> k.ts < Floor(ws[n].h.clock, b)
  }

  predicate StaleAt(w: World, r: Retention, k: Key) {
    k in StaleSamples(w.s, w.h.clock, r)
  }

  /** An hour of raw retention, the least that can be configured above none, is needed and is enough. */
  lemma AnHourIsEnough(r: Retention, b: nat)
    requires b in BUCKETS
    ensures UnrolledAreFresh(r, b) <==> r.rawHours >= 1
  {
    hide Floor, Run;
    if r.rawHours >= 1 {
      forall window: nat, ws: seq<World>, es: seq<Event>, n: nat, k: Key
        | Run(window, r, ws, es) && n < |ws| && StaleAt(ws[n], r, k)
        ensures k.ts < Floor(ws[n].h.clock, b)
      {
        FloorFacts(ws[n].h.clock, b);
      }
    } else {
      var ws, es := OneSample(0, r);
      RunLength(0, r, ws, es);
      var k := Key(0, START);
      assert StaleAt(ws[|es|], r, k);
      AlignedStart(b);
    }
  }

  lemma AlignedStart(b: nat)
    requires b in BUCKETS
    ensures Floor(START + 10_000, b) == START
  {
  }

  /** A reading, and a flush ten seconds later. */
  lemma OneSample(window: nat, r: Retention) returns (ws: seq<World>, es: seq<Event>)
    ensures Run(window, r, ws, es)
    ensures Key(0, START) in ws[|es|].s.sample && ws[|es|].h.clock == START + 10_000
  {
    hide Run, Holds, DoPush, DoFlush, Enumerates, Floor;
    var w0 := Opened(START);
    OpenedRun(window, r);
    NoKeys(w0);
    OpenOne(w0, window, START, 1.0);
    var w1 := DoPush(w0, window, Push(0, START, 1.0), []);
    NextBucket();
    CloseAndWrite(w1, START, 1.0, START + 10_000);
    var w2 := DoFlush(w1, START + 10_000, [0]);
    RunSnoc(window, r, [w0], [], PushEv(Push(0, START, 1.0), []), w1);
    ws, es := [w0] + [w1], [] + [PushEv(Push(0, START, 1.0), [])];
    RunSnoc(window, r, ws, es, FlushEv(START + 10_000, [0]), w2);
    ws, es := ws + [w2], es + [FlushEv(START + 10_000, [0])];
  }

  // ---- short windows ------------------------------------------------------------------------

  lemma {:induction false} FewerRows(m: map<Key, real>, n: map<Key, real>, id: nat, lo: nat, hi: nat, t: nat)
    requires forall k :: k in m ==> k in n
    ensures Over(m, id, lo, hi).n <= Over(n, id, lo, hi).n
    ensures lo <= t < hi && Key(id, t) in n && Key(id, t) !in m ==> Over(m, id, lo, hi).n < Over(n, id, lo, hi).n
    decreases hi - lo
  {
    if lo < hi {
      FewerRows(m, n, id, lo + 1, hi, t);
    }
  }

  /** A window scanned after some of its samples have expired is written with too low a count. */
  lemma RebuiltWindowIsShort(s: Store, ever: map<Key, real>, b: nat, now: nat, last: nat, kept: Key, removed: Key)
    requires b in BUCKETS && forall k :: k in s.sample ==> k in ever
    requires kept in s.sample && removed in ever && removed !in s.sample && kept.id == removed.id
    requires Floor(kept.ts, b) == Floor(removed.ts, b)
    requires From(last, b) <= Floor(kept.ts, b) && Floor(kept.ts, b) + b <= Floor(now, b)
    ensures var k := RKey(b, kept.id, Floor(kept.ts, b));
      var s' := BuildRollups(s, b, now, last);
      k in s'.rollup && s'.rollup[k].n < Over(ever, k.id, k.ts, k.ts + b).n
  {
    hide Floor, Over, From;
    var lo := Floor(kept.ts, b);
    FloorFacts(kept.ts, b);
    FloorFacts(removed.ts, b);
    OverWitness(s.sample, kept.id, lo, lo + b, kept.ts);
    FewerRows(s.sample, ever, kept.id, lo, lo + b, removed.ts);
    assert RKey(b, kept.id, lo) in Windows(s.sample, b, From(last, b), Floor(now, b));
    assert WindowAgg(s.sample, RKey(b, kept.id, lo), From(last, b), Floor(now, b))
        == Over(s.sample, kept.id, lo, lo + b);
  }

  // ---- a run in which such a row survives ---------------------------------------------------

  /** The default configuration. */
  const DEFAULTS: Retention := Retention(24, 7, 30, 90)
  /** One row more than a pass deletes. */
  const WINDOWS: nat := RETENTION_CAP + 1
  /** When the two passes come: every minute is more than seven days old. */
  const LATE: nat := 16_000_000_000

  /** Two readings a minute of one metric. */
  function Time(j: nat): nat { START + 30_000 * j }

  function Minute(i: nat): RKey { RKey(60_000, 0, Time(2 * i)) }

  function Reading(j: nat): Push { Push(0, Time(j), 1.0) }

  function Samples(n: nat): map<Key, real> {
    if n == 0 then map[] else Samples(n - 1)[Key(0, Time(n - 1)) := 1.0]
  }

  lemma {:induction false} SamplesAre(n: nat, k: Key)
    ensures k in Samples(n) <==> exists j: nat :: j < n && k == Key(0, Time(j))
  {
    if n > 0 {
      SamplesAre(n - 1, k);
    }
  }

  /** The world after `n` readings, each flushed: the last is still in its accumulator. */
  ghost predicate Recorded(w: World, n: nat) {
    && n > 0
    && w.s.agg == map[0 := Single(1.0)] && w.s.aggBucket == Time(n - 1) && w.s.pending == []
    && w.s.sample == w.h.ever == Samples(n - 1) && w.s.rollup == map[] && w.h.clock == Time(n - 1)
  }

  lemma OnBoundary(j: nat)
    ensures Floor(Time(j), DISK_BUCKET) == Time(j)
  {
    assert Time(j) == 10_000 * (90 + 3 * j);
  }

  lemma WriteOne(w: World, n: nat)
    requires w.s.pending == [Row(Key(0, Time(n)), 1.0)] && w.s.sample == w.h.ever == Samples(n)
    ensures DoWrite(w).s == w.s.(pending := [], sample := Samples(n + 1)) && DoWrite(w).h.ever == Samples(n + 1)
    ensures DoWrite(w).h.clock == w.h.clock
  {
    var rows: seq<Row> := [];
    assert w.s.pending[1..] == rows;
    assert Insert(Samples(n)[Key(0, Time(n)) := 1.0], rows) == Samples(n + 1);
  }

  lemma FirstReading(window: nat) returns (ws: seq<World>, es: seq<Event>)
    ensures Run(window, DEFAULTS, ws, es) && Recorded(ws[|es|], 1)
  {
    hide Trim;
    var w := Opened(START);
    OnBoundary(0);
    assert Enumerates([], w.s.agg.Keys);
    var w1 := DoPush(w, window, Reading(0), []);
    assert Step(window, DEFAULTS, w, PushEv(Reading(0), []), w1);
    assert w1.s.agg == map[0 := Single(1.0)];
    assert Run(window, DEFAULTS, [w], []);
    RunSnoc(window, DEFAULTS, [w], [], PushEv(Reading(0), []), w1);
    ws, es := [w] + [w1], [] + [PushEv(Reading(0), [])];
  }

  /** The same after a push: the reading before is queued. */
  ghost predicate Queued1(w: World, n: nat) {
    && n > 0
    && w.s.agg == map[0 := Single(1.0)] && w.s.aggBucket == Time(n)
    && w.s.pending == [Row(Key(0, Time(n - 1)), 1.0)]
    && w.s.sample == w.h.ever == Samples(n - 1) && w.s.rollup == map[] && w.h.clock == Time(n)
  }

  lemma PushNext(window: nat, w: World, n: nat)
    requires Recorded(w, n)
    ensures Ordered(w, [0]) && Queued1(DoPush(w, window, Reading(n), [0]), n)
  {
    hide Trim, Floor, RowsOf, CloseBucket, KeysOf, Overflow, Enumerates, Samples;
    OnBoundary(n);
    OneKey(w.s.agg);
    var live := w.s.live[0 := Trim(Ring(w.s.live, 0) + [Reading(n)], Time(n) - window)];
    CloseOne(w.s.(live := live), 1.0);
    assert NONE.Add(1.0) == Single(1.0);
    assert Lookup(map[], 0) == NONE;
    var none: map<nat, Agg> := map[];
    assert none[0 := Single(1.0)] == map[0 := Single(1.0)];
  }

  lemma FlushNext(w: World, n: nat)
    requires Queued1(w, n)
    ensures Ordered(w, [0]) && Recorded(DoFlush(w, Time(n), [0]), n + 1)
  {
    hide Floor, CloseBucket, Closing, Enumerates, Samples, DoWrite;
    OnBoundary(n);
    OneKey(w.s.agg);
    var c := DoClose(w, Time(n), [0]);
    assert c == w;
    WriteOne(c, n - 1);
  }

  lemma NextReading(window: nat, w: World, n: nat) returns (w1: World, w2: World)
    requires Recorded(w, n)
    ensures Step(window, DEFAULTS, w, PushEv(Reading(n), [0]), w1)
    ensures Step(window, DEFAULTS, w1, FlushEv(Time(n), [0]), w2)
    ensures Recorded(w2, n + 1)
  {
    hide DoPush, DoFlush, Ordered, Samples;
    PushNext(window, w, n);
    w1 := DoPush(w, window, Reading(n), [0]);
    FlushNext(w1, n);
    w2 := DoFlush(w1, Time(n), [0]);
  }

  lemma {:induction false} RecordAll(window: nat, n: nat) returns (ws: seq<World>, es: seq<Event>)
    requires n > 0
    ensures Run(window, DEFAULTS, ws, es) && Recorded(ws[|es|], n)
    decreases n
  {
    hide Step, Run, Recorded;
    if n == 1 {
      ws, es := FirstReading(window);
    } else {
      ws, es := RecordAll(window, n - 1);
      assert |ws| == |es| + 1 by {
        RunLength(window, DEFAULTS, ws, es);
      }
      var w1, w2 := NextReading(window, ws[|es|], n - 1);
      RunSnoc(window, DEFAULTS, ws, es, PushEv(Reading(n - 1), [0]), w1);
      ws, es := ws + [w1], es + [PushEv(Reading(n - 1), [0])];
      RunSnoc(window, DEFAULTS, ws, es, FlushEv(Time(n - 1), [0]), w2);
      ws, es := ws + [w2], es + [FlushEv(Time(n - 1), [0])];
    }
  }

  // ---- the two passes -----------------------------------------------------------------------

  function Minutes(lo: nat, hi: nat): set<RKey> {
    set i: nat | lo <= i < hi :: Minute(i)
  }

  /** The second reading of each minute. */
  function Seconds(lo: nat, hi: nat): set<Key> {
    set i: nat | lo <= i < hi :: Key(0, Time(2 * i + 1))
  }

  lemma {:induction false} MinutesSize(lo: nat, hi: nat)
    requires lo <= hi
    ensures |Minutes(lo, hi)| == hi - lo
    decreases hi
  {
    if lo < hi {
      MinutesSize(lo, hi - 1);
      assert Minutes(lo, hi) == Minutes(lo, hi - 1) + {Minute(hi - 1)};
    }
  }

  lemma {:induction false} SecondsSize(lo: nat, hi: nat)
    requires lo <= hi
    ensures |Seconds(lo, hi)| == hi - lo
    decreases hi
  {
    if lo < hi {
      SecondsSize(lo, hi - 1);
      assert Seconds(lo, hi) == Seconds(lo, hi - 1) + {Key(0, Time(2 * (hi - 1) + 1))};
    }
  }

  lemma PartSize<T>(part: set<T>, all: set<T>)
    requires part <= all
    ensures |part| <= |all|
  {
    assert all == part + (all - part);
  }

  /** Nothing is open or queued, and these samples and minute rows are there. */
  ghost predicate Stands(w: World, sample: map<Key, real>, minutes: set<RKey>) {
    && w.s.agg == map[] && w.s.pending == [] && w.s.sample == sample && w.h.clock == LATE
    && w.h.ever == Samples(2 * WINDOWS)
    && forall k: RKey :: k.bucket == 60_000 ==> (k in w.s.rollup <==> k in minutes)
  }

  lemma LateFlush(w: World)
    requires Recorded(w, 2 * WINDOWS)
    ensures Ordered(w, [0]) && Stands(DoFlush(w, LATE, [0]), Samples(2 * WINDOWS), {})
    ensures DoFlush(w, LATE, [0]).s.rollup == map[]
  {
    hide CloseBucket, KeysOf, Overflow, Enumerates, Samples, DoWrite;
    OneKey(w.s.agg);
    CloseOne(w.s, 1.0);
    WriteOne(DoClose(w, LATE, [0]), 2 * WINDOWS - 1);
  }

  /** Both readings of a minute are in its window, and the window has elapsed. */
  lemma InWindow(i: nat)
    requires i < WINDOWS
    ensures Floor(Time(2 * i), 60_000) == Floor(Time(2 * i + 1), 60_000) == Time(2 * i)
    ensures Time(2 * i) + 60_000 <= Floor(LATE, 60_000)
  {
    assert Time(2 * i) == 60_000 * (15 + i);
  }

  /** The first build writes a row for every minute. */
  lemma FirstBuild(w: World)
    requires Stands(w, Samples(2 * WINDOWS), {}) && w.s.rollup == map[]
    ensures Stands(DoBuild(w, 60_000, LATE, 0), Samples(2 * WINDOWS), Minutes(0, WINDOWS))
    ensures forall k :: k in DoBuild(w, 60_000, LATE, 0).s.rollup ==> k.bucket == 60_000
  {
    hide Samples, Floor, WindowAgg, RollOf, Minute;
    var m, cutoff := Samples(2 * WINDOWS), Floor(LATE, 60_000);
    forall k: RKey | k.bucket == 60_000 ensures k in NewRows(m, 60_000, 0, cutoff) <==> k in Minutes(0, WINDOWS) {
      if k in NewRows(m, 60_000, 0, cutoff) {
        assert k in Windows(m, 60_000, 0, cutoff);
        var q :| q in m && 0 <= q.ts < cutoff && k == RKey(60_000, q.id, Floor(q.ts, 60_000));
        MinuteOfSample(q);
      }
      if k in Minutes(0, WINDOWS) {
        var i: nat :| i < WINDOWS && k == Minute(i);
        FirstRow(m, i);
      }
    }
    assert 0 < cutoff by {
      InWindow(0);
    }
  }

  lemma MinuteOfSample(q: Key)
    requires q in Samples(2 * WINDOWS)
    ensures RKey(60_000, q.id, Floor(q.ts, 60_000)) in Minutes(0, WINDOWS)
  {
    hide Samples, Floor;
    SamplesAre(2 * WINDOWS, q);
    var j: nat :| j < 2 * WINDOWS && q == Key(0, Time(j));
    var i := j / 2;
    InWindow(i);
    assert j == 2 * i || j == 2 * i + 1;
    assert RKey(60_000, q.id, Floor(q.ts, 60_000)) == Minute(i);
  }

  lemma FirstRow(m: map<Key, real>, i: nat)
    requires i < WINDOWS && m == Samples(2 * WINDOWS)
    ensures Minute(i) in NewRows(m, 60_000, 0, Floor(LATE, 60_000))
  {
    hide Samples, Floor, RollOf, Over;
    var k := Key(0, Time(2 * i));
    InWindow(i);
    SampleAt(2 * i);
    OverWitness(m, 0, Time(2 * i), Time(2 * i) + 60_000, Time(2 * i));
    assert Minute(i) in Windows(m, 60_000, 0, Floor(LATE, 60_000)) by {
      assert k in m && k.ts < Floor(LATE, 60_000);
    }
  }

  lemma SampleAt(j: nat)
    requires j < 2 * WINDOWS
    ensures Key(0, Time(j)) in Samples(2 * WINDOWS)
  {
    SamplesAre(2 * WINDOWS, Key(0, Time(j)));
  }

  /** The later builds of a pass leave minutes, samples and history alone. */
  lemma OtherBuilds(w: World, sample: map<Key, real>, minutes: set<RKey>, b: nat, last: nat)
    requires Stands(w, sample, minutes) && b in BUCKETS && b != 60_000
    ensures Stands(DoBuild(w, b, LATE, last), sample, minutes)
    ensures forall k :: k in w.s.rollup && k.bucket == 60_000 ==> DoBuild(w, b, LATE, last).s.rollup[k] == w.s.rollup[k]
    ensures forall k :: k in DoBuild(w, b, LATE, last).s.rollup && k.bucket != b ==> k in w.s.rollup
  {
    hide BuildRollups, Samples;
    BuildAddsOnly(w.s, b, LATE, last);
  }

  lemma LastExists(rollup: map<RKey, Roll>, b: nat) returns (last: nat)
    ensures IsLast(rollup, b, last)
  {
    var starts := set k | k in rollup && k.bucket == b :: k.ts;
    last := Greatest(starts);
    if last != 0 {
      var k :| k in rollup && k.bucket == b && k.ts == last;
    }
    forall k | k in rollup && k.bucket == b ensures k.ts <= last {
      assert k.ts in starts;
    }
  }

  lemma {:induction false} Greatest(s: set<nat>) returns (m: nat)
    ensures forall x :: x in s ==> x <= m
    ensures m == 0 || m in s
    decreases |s|
  {
    m := 0;
    if s != {} {
      var x :| x in s;
      var rest := Greatest(s - {x});
      m := if x > rest then x else rest;
      assert forall y :: y in s ==> y == x || y in s - {x};
    }
  }

  /** Every minute is past its age, and every sample past its own. */
  lemma AllStale(w: World, sample: map<Key, real>, minutes: set<RKey>)
    requires Stands(w, sample, minutes) && minutes <= Minutes(0, WINDOWS) && sample.Keys <= Samples(2 * WINDOWS).Keys
    ensures StaleRolls(w.s, LATE, DEFAULTS, 60_000) == minutes
    ensures StaleSamples(w.s, LATE, DEFAULTS) == sample.Keys
  {
    hide Samples;
    forall k | k in minutes ensures k in StaleRolls(w.s, LATE, DEFAULTS, 60_000) {
      var i: nat :| i < WINDOWS && k == Minute(i);
    }
    forall k | k in sample.Keys ensures k in StaleSamples(w.s, LATE, DEFAULTS) {
      SamplesAre(2 * WINDOWS, k);
      var j: nat :| j < 2 * WINDOWS && k == Key(0, Time(j));
    }
  }

  /** A pass deletes the minutes it is told to, some samples, and whatever it must of the other sizes. */
  lemma PassDeletes(w: World, sample: map<Key, real>, minutes: set<RKey>, samples: set<Key>, lo: nat, hi: nat)
    returns (d: Dead)
    requires Stands(w, sample, minutes) && minutes == Minutes(0, WINDOWS) && sample.Keys <= Samples(2 * WINDOWS).Keys
    requires lo + RETENTION_CAP == hi <= WINDOWS && Deletes(sample.Keys, samples)
    ensures Retains(w, LATE, DEFAULTS, d) && d.samples == samples
    ensures Stands(DoRetain(w, d), sample - samples, minutes - Minutes(lo, hi))
  {
    hide Samples, RollupAge, Minute;
    AllStale(w, sample, minutes);
    MinutesSize(0, WINDOWS);
    MinutesSize(lo, hi);
    assert Minutes(lo, hi) <= minutes;
    assert Deletes(minutes, Minutes(lo, hi));
    var d5 := SomeDead(StaleRolls(w.s, LATE, DEFAULTS, 300_000));
    var d15 := SomeDead(StaleRolls(w.s, LATE, DEFAULTS, 900_000));
    d := Dead(samples, Minutes(lo, hi) + d5 + d15);
    Together(w, LATE, DEFAULTS, d, Minutes(lo, hi), d5, d15);
    var w' := DoRetain(w, d);
    forall k: RKey | k.bucket == 60_000 ensures k in w'.s.rollup <==> k in minutes - Minutes(lo, hi) {
      assert k !in d5 && k !in d15;
    }
    assert w'.s.sample == sample - samples;
  }

  /** What the first pass leaves: of each minute but the first its second reading and its row are gone. */
  ghost predicate Thinned(w: World) {
    Stands(w, Samples(2 * WINDOWS) - Seconds(1, WINDOWS), Minutes(0, 1))
  }

  lemma ManySamples()
    ensures Deletes(Samples(2 * WINDOWS).Keys, Seconds(1, WINDOWS))
  {
    hide Samples;
    SecondsSize(0, WINDOWS);
    SecondsSize(1, WINDOWS);
    forall k | k in Seconds(0, WINDOWS) ensures k in Samples(2 * WINDOWS) {
      var i: nat :| i < WINDOWS && k == Key(0, Time(2 * i + 1));
      SampleAt(2 * i + 1);
    }
    PartSize(Seconds(0, WINDOWS), Samples(2 * WINDOWS).Keys);
  }

  lemma FirstBuilds(w: World)
    requires Stands(w, Samples(2 * WINDOWS), {}) && w.s.rollup == map[]
    ensures AreLast(w, LATE, (0, 0, 0)) && Stands(Builds(w, LATE, (0, 0, 0)), Samples(2 * WINDOWS), Minutes(0, WINDOWS))
  {
    hide Stands, DoBuild, Samples, Minutes;
    var w1 := DoBuild(w, 60_000, LATE, 0);
    var w2 := DoBuild(w1, 300_000, LATE, 0);
    FirstBuild(w);
    OtherBuilds(w1, Samples(2 * WINDOWS), Minutes(0, WINDOWS), 300_000, 0);
    OtherBuilds(w2, Samples(2 * WINDOWS), Minutes(0, WINDOWS), 900_000, 0);
  }

  lemma FirstPass(window: nat, w: World) returns (e: Event, w': World)
    requires Recorded(w, 2 * WINDOWS)
    ensures Step(window, DEFAULTS, w, e, w') && Thinned(w')
  {
    LateFlush(w);
    var w0 := DoFlush(w, LATE, [0]);
    assert LATE >= w.h.clock;
    hide Stands, Recorded, DoFlush, Builds, Ordered, Retains, Samples, Minutes, Seconds, AreLast, Deletes;
    FirstBuilds(w0);
    ManySamples();
    var d := PassDeletes(Builds(w0, LATE, (0, 0, 0)), Samples(2 * WINDOWS), Minutes(0, WINDOWS),
                         Seconds(1, WINDOWS), 1, WINDOWS);
    e := MaintainEv(LATE, [0], (0, 0, 0), d);
    assert Ordered(w, e.order);
    assert forall x :: x in e.order ==> x in w.s.agg by {
      OrderIn(w, e.order);
    }
    w' := DoRetain(Built(w, e), d);
    OnlyFirst();
  }

  lemma OrderIn(w: World, order: seq<nat>)
    requires Ordered(w, order)
    ensures forall x :: x in order ==> x in w.s.agg
  {
  }

  lemma OnlyFirst()
    ensures Minutes(0, WINDOWS) - Minutes(1, WINDOWS) == Minutes(0, 1)
  {
    forall k | k in Minutes(0, WINDOWS) && k !in Minutes(1, WINDOWS) ensures k in Minutes(0, 1) {
      var i: nat :| 0 <= i < WINDOWS && k == Minute(i);
      assert i == 0;
    }
    forall k | k in Minutes(0, 1) ensures k in Minutes(0, WINDOWS) && k !in Minutes(1, WINDOWS) {
      assert k == Minute(0);
    }
  }

  lemma QuietFlush(w: World)
    requires Thinned(w)
    ensures Ordered(w, []) && Thinned(DoFlush(w, LATE, []))
  {
    hide Floor, Samples, Minutes, Seconds;
    var none: seq<Row> := [];
    assert Insert(w.s.sample, none) == w.s.sample && Insert(w.h.ever, none) == w.h.ever;
  }

  /** The last minute has a row, and its count is too low. */
  ghost predicate ShortRow(w: World) {
    var k := Minute(WINDOWS - 1);
    k in w.s.rollup && w.s.rollup[k].n < Over(w.h.ever, k.id, k.ts, k.ts + k.bucket).n
  }

  lemma RebuiltMinute(w: World, i: nat)
    requires Thinned(w) && 1 <= i < WINDOWS
    ensures var s' := DoBuild(w, 60_000, LATE, START).s; var k := Minute(i);
      k in s'.rollup && s'.rollup[k].n < Over(w.h.ever, k.id, k.ts, k.ts + k.bucket).n
  {
    hide Samples, Floor, BuildRollups, Over, Minutes;
    InWindow(i);
    SampleAt(2 * i);
    SampleAt(2 * i + 1);
    var kept, removed := Key(0, Time(2 * i)), Key(0, Time(2 * i + 1));
    assert removed in Seconds(1, WINDOWS);
    assert kept !in Seconds(1, WINDOWS);
    RebuiltWindowIsShort(w.s, w.h.ever, 60_000, LATE, START, kept, removed);
  }

  lemma SecondBuild(w: World)
    requires Thinned(w)
    ensures IsLast(w.s.rollup, 60_000, START)
    ensures var w' := DoBuild(w, 60_000, LATE, START);
      Stands(w', w.s.sample, Minutes(0, WINDOWS)) && ShortRow(w')
  {
    hide Samples, Floor, WindowAgg, RollOf, Over, Seconds;
    var w' := DoBuild(w, 60_000, LATE, START);
    var m, from, cutoff := w.s.sample, From(START, 60_000), Floor(LATE, 60_000);
    assert forall k :: k in Minutes(0, 1) ==> k == Minute(0);
    assert Minute(0) in Minutes(0, 1);
    forall k: RKey | k.bucket == 60_000 ensures k in w'.s.rollup <==> k in Minutes(0, WINDOWS) {
      if k in Minutes(0, WINDOWS) {
        var i: nat :| i < WINDOWS && k == Minute(i);
        if i > 0 {
          RebuiltMinute(w, i);
        }
      }
      if k in w'.s.rollup && k !in w.s.rollup {
        assert k in Windows(m, 60_000, from, cutoff);
        var q :| q in m && from <= q.ts < cutoff && k == RKey(60_000, q.id, Floor(q.ts, 60_000));
        MinuteOfSample(q);
      }
    }
    RebuiltMinute(w, WINDOWS - 1);
  }

  lemma SecondBuilds(w: World) returns (lasts: (nat, nat, nat))
    requires Thinned(w)
    ensures AreLast(w, LATE, lasts)
    ensures Stands(Builds(w, LATE, lasts), w.s.sample, Minutes(0, WINDOWS)) && ShortRow(Builds(w, LATE, lasts))
  {
    hide Stands, DoBuild, Samples, Minutes, Seconds, Over, IsLast, Thinned;
    SecondBuild(w);
    var w1 := DoBuild(w, 60_000, LATE, START);
    var last5 := LastExists(w1.s.rollup, 300_000);
    var w2 := DoBuild(w1, 300_000, LATE, last5);
    KeepsShort(w1, w.s.sample, 300_000, last5);
    var last15 := LastExists(w2.s.rollup, 900_000);
    KeepsShort(w2, w.s.sample, 900_000, last15);
    lasts := (START, last5, last15);
  }

  lemma KeepsShort(w: World, sample: map<Key, real>, b: nat, last: nat)
    requires Stands(w, sample, Minutes(0, WINDOWS)) && ShortRow(w) && b in BUCKETS && b != 60_000
    ensures var w' := DoBuild(w, b, LATE, last); Stands(w', sample, Minutes(0, WINDOWS)) && ShortRow(w')
  {
    hide BuildRollups, Samples, Minutes, Over;
    OtherBuilds(w, sample, Minutes(0, WINDOWS), b, last);
    BuildAddsOnly(w.s, b, LATE, last);
  }

  /** Retention spares the last minute only. */
  lemma SparesLast(w: World, sample: map<Key, real>) returns (d: Dead)
    requires Stands(w, sample, Minutes(0, WINDOWS)) && ShortRow(w) && sample.Keys <= Samples(2 * WINDOWS).Keys
    ensures Retains(w, LATE, DEFAULTS, d) && ShortRow(DoRetain(w, d))
  {
    hide Stands, Retains, Samples, Minutes, Deletes, Over;
    var samples := SomeDead(sample.Keys);
    d := PassDeletes(w, sample, Minutes(0, WINDOWS), samples, 0, RETENTION_CAP);
    LastMinuteStays(w, d, sample, samples);
  }

  lemma SamplesOf(w: World)
    requires Thinned(w)
    ensures w.h.clock == LATE && w.s.sample.Keys <= Samples(2 * WINDOWS).Keys
  {
    hide Samples;
  }

  lemma SecondPass(window: nat, w: World) returns (e: Event, w': World)
    requires Thinned(w)
    ensures Step(window, DEFAULTS, w, e, w') && ShortRow(w')
  {
    hide Stands, Thinned, DoFlush, Builds, Ordered, Retains, Samples, Minutes, AreLast, ShortRow, DoRetain;
    QuietFlush(w);
    SamplesOf(w);
    SamplesOf(DoFlush(w, LATE, []));
    var lasts := SecondBuilds(DoFlush(w, LATE, []));
    var w1 := Builds(DoFlush(w, LATE, []), LATE, lasts);
    var d := SparesLast(w1, DoFlush(w, LATE, []).s.sample);
    e := MaintainEv(LATE, [], lasts, d);
    w' := DoRetain(w1, d);
  }

  lemma LastMinuteStays(w: World, d: Dead, sample: map<Key, real>, samples: set<Key>)
    requires ShortRow(w) && Stands(DoRetain(w, d), sample - samples, Minutes(0, WINDOWS) - Minutes(0, RETENTION_CAP))
    ensures ShortRow(DoRetain(w, d))
  {
    hide Samples, Over;
    assert Minute(WINDOWS - 1) in Minutes(0, WINDOWS);
    assert Minute(WINDOWS - 1) !in Minutes(0, RETENTION_CAP);
  }

  /**
   * Under the default configuration there is a run in which a row that counts too few means survives a
   * maintenance pass: the passes come late, with more than 250 000 samples and as many rows past their age.
   */
  lemma AShortRowSurvives(window: nat) returns (ws: seq<World>, es: seq<Event>, k: RKey)
    ensures Run(window, DEFAULTS, ws, es) && k.bucket in BUCKETS && k in ws[|es|].s.rollup
    ensures ws[|es|].s.rollup[k].n < Over(ws[|es|].h.ever, k.id, k.ts, k.ts + k.bucket).n
    ensures !IsBatch(ws[|es|].h.ever, k, ws[|es|].s.rollup[k])
  {
    hide Run, Step, Recorded, Thinned, Over;
    ws, es := RecordAll(window, 2 * WINDOWS);
    RunLength(window, DEFAULTS, ws, es);
    var e1, w1 := FirstPass(window, ws[|es|]);
    RunSnoc(window, DEFAULTS, ws, es, e1, w1);
    ws, es := ws + [w1], es + [e1];
    var e2, w2 := SecondPass(window, w1);
    RunSnoc(window, DEFAULTS, ws, es, e2, w2);
    ws, es := ws + [w2], es + [e2];
    k := Minute(WINDOWS - 1);
  }
}
