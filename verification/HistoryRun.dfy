/** Whole runs of the history pipeline, and what they guarantee. */
module HistoryRun {
  import opened HistoryModel
  import opened HistoryProofs
  import opened HistoryRollups

  /** Choices the environment makes: hash-map order, the MAX(ts) of each bucket size, rows picked by LIMIT. */
  datatype Event =
    | PushEv(p: Push, order: seq<nat>)
    | FlushEv(now: nat, order: seq<nat>)
    | MaintainEv(now: nat, order: seq<nat>, lasts: (nat, nat, nat), dead: Dead)
    | FinalEv(now: nat, order: seq<nat>)
    | ReopenEv(now: nat)

  function Opened(now: nat): World {
    World(Store(map[], map[], Floor(now, DISK_BUCKET), [], map[], map[]),
          Hist([], map[], {}, {}, {}, map[60_000 := 0, 300_000 := 0, 900_000 := 0], now, 0, [0]))
  }

  /** The rollup part of a `maintenance` pass: the three bucket sizes in turn. */
  function Builds(w: World, now: nat, lasts: (nat, nat, nat)): World {
    DoBuild(DoBuild(DoBuild(w, 60_000, now, lasts.0), 300_000, now, lasts.1), 900_000, now, lasts.2)
  }

  /** Each build starts from the latest row of its size. */
  ghost predicate AreLast(w0: World, now: nat, lasts: (nat, nat, nat)) {
    var w1 := DoBuild(w0, 60_000, now, lasts.0);
    var w2 := DoBuild(w1, 300_000, now, lasts.1);
    && IsLast(w0.s.rollup, 60_000, lasts.0) && IsLast(w1.s.rollup, 300_000, lasts.1)
    && IsLast(w2.s.rollup, 900_000, lasts.2)
  }

  ghost predicate Ordered(w: World, order: seq<nat>) {
    Enumerates(order, w.s.agg.Keys) && forall x :: x in order ==> x in w.s.agg
  }

  /** A pass up to retention. */
  function Built(w: World, e: Event): World
    requires e.MaintainEv? && forall x :: x in e.order ==> x in w.s.agg
  {
    Builds(DoFlush(w, e.now, e.order), e.now, e.lasts)
  }

  ghost predicate Maintains(r: Retention, w: World, e: Event, w': World)
    requires e.MaintainEv?
  {
    && Ordered(w, e.order) && e.now >= w.h.clock
    && AreLast(DoFlush(w, e.now, e.order), e.now, e.lasts)
    && Retains(Built(w, e), e.now, r, e.dead)
    && w' == DoRetain(Built(w, e), e.dead)
  }

  /** One step; clock readings never go back, and one maintenance pass uses one reading. */
  ghost predicate Step(window: nat, r: Retention, w: World, e: Event, w': World) {
    match e
    case PushEv(p, order) =>
      Ordered(w, order) && p.ts >= w.h.clock && w' == DoPush(w, window, p, order)
    case FlushEv(now, order) =>
      Ordered(w, order) && now >= w.h.clock && w' == DoFlush(w, now, order)
    case MaintainEv(_, _, _, _) =>
      Maintains(r, w, e, w')
    case FinalEv(now, order) =>
      Ordered(w, order) && now >= w.h.clock && w' == DoFinal(w, now, order)
    case ReopenEv(now) =>
      now >= w.h.clock && w' == DoReopen(w, now)
  }

  ghost predicate Run(window: nat, r: Retention, ws: seq<World>, es: seq<Event>) {
    && |ws| == |es| + 1 && (exists now: nat :: now >= START && ws[0] == Opened(now))
    && forall i :: 0 <= i < |es| ==> Step(window, r, ws[i], es[i], ws[i + 1])
  }

  // ---- the sample side holds in every reachable state ----------------------------------------

  lemma FlushIsQuiet(w: World, now: nat, order: seq<nat>)
    requires Ordered(w, order)
    ensures Quiet(DoFlush(w, now, order), now)
  {
    hide Floor, RowsOf, Insert;
  }

  lemma QuietClock(w: World, now: nat)
    requires Quiet(w, now)
    ensures w.h.clock == now
  {
  }

  lemma BuildKeepsSampleInv(w: World, b: nat, now: nat, last: nat)
    requires SampleInv(w) && b > 0
    ensures SampleInv(DoBuild(w, b, now, last))
    ensures Quiet(w, now) ==> Quiet(DoBuild(w, b, now, last), now)
  {
    hide Floor, NewRows, AggOf, Placed, Segment, From;
    var w' := DoBuild(w, b, now, last);
    SamePlaced(w.h, w'.h, w.s.pending, OpenKeys(w.s), w.s.aggBucket);
    SameReadings(w.h, w'.h, Key(0, 0));
  }

  lemma BuildsKeepSampleInv(w: World, now: nat, lasts: (nat, nat, nat))
    requires SampleInv(w) && Quiet(w, now)
    ensures SampleInv(Builds(w, now, lasts)) && Quiet(Builds(w, now, lasts), now)
  {
    hide SampleInv, Quiet, DoBuild;
    var w1 := DoBuild(w, 60_000, now, lasts.0);
    BuildKeepsSampleInv(w, 60_000, now, lasts.0);
    BuildKeepsSampleInv(w1, 300_000, now, lasts.1);
    BuildKeepsSampleInv(DoBuild(w1, 300_000, now, lasts.1), 900_000, now, lasts.2);
  }

  lemma FlushKeepsSampleInv(w: World, now: nat, order: seq<nat>)
    requires SampleInv(w) && Ordered(w, order) && now >= w.h.clock
    ensures SampleInv(DoFlush(w, now, order)) && Quiet(DoFlush(w, now, order), now)
  {
    hide SampleInv, Enumerates, Quiet, DoClose, DoWrite;
    CloseKeepsSampleInv(w, now, order);
    WriteKeepsSampleInv(DoClose(w, now, order));
    FlushIsQuiet(w, now, order);
  }

  lemma StepKeepsSampleInv(window: nat, r: Retention, w: World, e: Event, w': World)
    requires SampleInv(w) && w.h.clock >= START && Step(window, r, w, e, w')
    ensures SampleInv(w') && w'.h.clock >= START
  {
    hide SampleInv, Enumerates, Retains, Builds, AreLast, Quiet, Floor, PushSample, Closing, DoFlush;
    match e
    case PushEv(p, order) =>
      PushKeepsSampleInv(w, window, p, order);
    case FlushEv(now, order) =>
      FlushKeepsSampleInv(w, now, order);
      QuietClock(w', now);
    case MaintainEv(now, order, lasts, dead) =>
      FlushKeepsSampleInv(w, now, order);
      BuildsKeepSampleInv(DoFlush(w, now, order), now, lasts);
      QuietClock(Built(w, e), now);
      DeadAreStale(Built(w, e), now, r, dead);
      RetainKeepsSampleInv(Built(w, e), dead);
    case FinalEv(now, order) =>
      FinalKeepsSampleInv(w, now, order);
    case ReopenEv(now) =>
      ReopenKeepsSampleInv(w, now);
  }

  lemma OpenedSampleInv(now: nat)
    requires now >= START
    ensures SampleInv(Opened(now))
  {
    hide Floor;
    FloorFacts(now, DISK_BUCKET);
  }

  /** Whatever retention is configured and manages to delete, every reading is in its place in every reachable state. */
  lemma {:induction false} RunKeepsSampleInv(window: nat, r: Retention, ws: seq<World>, es: seq<Event>, n: nat)
    requires Run(window, r, ws, es) && n < |ws|
    ensures SampleInv(ws[n]) && ws[n].h.clock >= START
    decreases n
  {
    hide SampleInv, Step;
    if n == 0 {
      var now: nat :| now >= START && ws[0] == Opened(now);
      OpenedSampleInv(now);
    } else {
      RunKeepsSampleInv(window, r, ws, es, n - 1);
      assert Step(window, r, ws[n - 1], es[n - 1], ws[n]);
      StepKeepsSampleInv(window, r, ws[n - 1], es[n - 1], ws[n]);
    }
  }

  // ---- and so does the rollup side -----------------------------------------------------------

  /** What one step that is not a pass keeps of one bucket size. */
  ghost predicate Keeps(w: World, w': World, r: Retention, b: nat)
    requires b in BUCKETS
  {
    RollInv(w', r, b) && (Right(w, b) ==> Right(w', b)) && (Strict(w, b) ==> Strict(w', b))
  }

  ghost predicate MarksNest(w: World) {
    && 60_000 in w.h.mark && 300_000 in w.h.mark && 900_000 in w.h.mark
    && w.h.mark[300_000] <= w.h.mark[60_000] && w.h.mark[900_000] <= w.h.mark[60_000]
  }

  lemma OpenedInv(now: nat, r: Retention)
    requires now >= START
    ensures Inv(Opened(now), r) && forall b :: b in BUCKETS ==> Strict(Opened(now), b)
  {
    hide Floor, RollupAge;
    FloorFacts(now, DISK_BUCKET);
  }

  lemma FlushKeepsRollInv(w: World, now: nat, order: seq<nat>, r: Retention, b: nat)
    requires SampleInv(w) && b in BUCKETS && RollInv(w, r, b) && Ordered(w, order) && now >= w.h.clock
    ensures Keeps(w, DoFlush(w, now, order), r, b)
  {
    hide SampleInv, RollInv, Enumerates, Right, Strict, DoClose, DoWrite;
    CloseKeepsSampleInv(w, now, order);
    CloseKeepsRollInv(w, now, order, r, b);
    WriteKeepsRollInv(DoClose(w, now, order), r, b);
  }

  /** Every step but a maintenance pass keeps the rows it finds. */
  lemma QuietStepKeeps(window: nat, r: Retention, w: World, e: Event, w': World, b: nat)
    requires SampleInv(w) && b in BUCKETS && RollInv(w, r, b) && Step(window, r, w, e, w') && !e.MaintainEv?
    ensures Keeps(w, w', r, b) && w'.h.mark == w.h.mark
  {
    hide SampleInv, RollInv, Enumerates, Right, Strict, Floor, PushSample;
    match e
    case PushEv(p, order) =>
      PushKeepsRollInv(w, window, p, order, r, b);
    case FlushEv(now, order) =>
      FlushKeepsRollInv(w, now, order, r, b);
    case FinalEv(now, order) =>
      FinalKeepsRollInv(w, now, order, r, b);
      FinalKeepsMarks(w, now, order);
    case ReopenEv(now) =>
      ReopenKeepsRollInv(w, now, r, b);
  }

  lemma FinalKeepsMarks(w: World, now: nat, order: seq<nat>)
    requires forall x :: x in order ==> x in w.s.agg
    ensures DoFinal(w, now, order).h.mark == w.h.mark
  {
    hide Floor, Queued, KeysOf, Insert, OpenKeys;
  }

  lemma ReopenKeepsRollInv(w: World, now: nat, r: Retention, b: nat)
    requires b in BUCKETS && RollInv(w, r, b) && now >= w.h.clock
    ensures Keeps(w, DoReopen(w, now), r, b)
  {
    hide Floor, IsBatch, RowsPlaced, RightOrExpired, AllRolled, Covered, CoveredOrAged, Right, Strict;
    SameTablesKeep(w, DoReopen(w, now), r, b);
  }

  /** Where one bucket size stands while the others are built. */
  ghost predicate Standing(w: World, w': World, r: Retention, b: nat)
    requires b in BUCKETS
  {
    RollInv(w', r, b) && (Strict(w, b) ==> Strict(w', b))
  }

  ghost predicate CoveredAt(w: World, b: nat, mark: nat) {
    b in w.h.mark && w.h.mark[b] == mark && Covered(w, b, mark)
  }

  lemma BuildStep(w: World, b: nat, now: nat, last: nat, r: Retention, c: nat)
    requires SampleInv(w) && Quiet(w, now) && b in BUCKETS && IsLast(w.s.rollup, b, last)
    requires c in BUCKETS && RollInv(w, r, c)
    ensures var w' := DoBuild(w, b, now, last);
      && Standing(w, w', r, c)
      && (CoveredAt(w, c, Floor(now, c)) || c == b ==> CoveredAt(w', c, Floor(now, c)))
  {
    hide RollInv, IsLast, Floor, Covered, Strict, BuildRollups, SampleInv, Quiet;
    MarkInside(w, r, c);
    if c == b {
      BuildKeepsRollInv(w, r, b, now, last);
    } else {
      BuildKeepsOthers(w, r, b, now, last, c);
    }
  }

  lemma MarkInside(w: World, r: Retention, b: nat)
    requires b in BUCKETS && RollInv(w, r, b)
    ensures b in w.h.mark
  {
  }

  /** After the builds of a pass each bucket size stands, and everything it has rolled is covered. */
  lemma BuildsKeepRollInv(w: World, now: nat, lasts: (nat, nat, nat), r: Retention, c: nat)
    requires SampleInv(w) && Quiet(w, now) && AreLast(w, now, lasts)
    requires c in BUCKETS && RollInv(w, r, c)
    ensures Standing(w, Builds(w, now, lasts), r, c) && CoveredAt(Builds(w, now, lasts), c, Floor(now, c))
  {
    hide SampleInv, RollInv, Quiet, IsLast, DoBuild, Floor, CoveredAt, Strict;
    var w1 := DoBuild(w, 60_000, now, lasts.0);
    var w2 := DoBuild(w1, 300_000, now, lasts.1);
    BuildKeepsSampleInv(w, 60_000, now, lasts.0);
    BuildKeepsSampleInv(w1, 300_000, now, lasts.1);
    BuildStep(w, 60_000, now, lasts.0, r, c);
    BuildStep(w1, 300_000, now, lasts.1, r, c);
    BuildStep(w2, 900_000, now, lasts.2, r, c);
  }

  /** A pass can delete every row of this size that is past its age. */
  ghost predicate RollsKeepUp(r: Retention, w: World, e: Event, b: nat) {
    e.MaintainEv? && Ordered(w, e.order) ==> |StaleRolls(Built(w, e).s, e.now, r, b)| <= RETENTION_CAP
  }

  /** A pass can delete every sample that is past its age. */
  ghost predicate SamplesKeepUp(r: Retention, w: World, e: Event) {
    e.MaintainEv? && Ordered(w, e.order) ==> CaughtUp(Built(w, e).s, e.now, r)
  }

  /** What one maintenance pass leaves of one bucket size. */
  lemma PassKeeps(r: Retention, w: World, e: Event, w': World, b: nat)
    requires e.MaintainEv? && r.rawHours >= 1 && Maintains(r, w, e, w')
    requires SampleInv(w) && b in BUCKETS && RollInv(w, r, b)
    ensures RollInv(w', r, b) && w'.h.mark[b] == Floor(e.now, b)
    ensures RollsKeepUp(r, w, e, b) ==> Right(w', b)
    ensures OutliveSamples(r) && SamplesKeepUp(r, w, e) && Strict(w, b) ==> Strict(w', b)
  {
    hide SampleInv, Quiet, Floor, Retains, Builds, Enumerates, DoFlush, RowsPlaced, AreLast, OutliveSamples;
    hide AllRolled, CoveredOrAged, Strict, RightOrExpired, Covered, Right, UnrolledKept, NothingLate;
    var w0, w1 := DoFlush(w, e.now, e.order), Built(w, e);
    FlushKeepsSampleInv(w, e.now, e.order);
    FlushKeepsRollInv(w, e.now, e.order, r, b);
    BuildsKeepRollInv(w0, e.now, e.lasts, r, b);
    BuildsKeepSampleInv(w0, e.now, e.lasts);
    QuietClock(w1, e.now);
    RetainKeepsRollInv(w1, e.now, r, e.dead, b);
    if RollsKeepUp(r, w, e, b) {
      RetainMakesRight(w1, e.now, r, e.dead, b);
    }
    if OutliveSamples(r) && SamplesKeepUp(r, w, e) && Strict(w, b) {
      RetainKeepsStrict(w1, e.now, r, e.dead, b);
    }
  }

  /** The current minute starts no earlier than the current five or fifteen minutes. */
  lemma FloorNests(now: nat)
    ensures Floor(now, 300_000) <= Floor(now, 60_000) && Floor(now, 900_000) <= Floor(now, 60_000)
  {
    FloorFacts(now, 300_000);
    FloorFacts(now, 900_000);
    MinuteMultiple(Floor(now, 300_000), 300_000);
    MinuteMultiple(Floor(now, 900_000), 900_000);
    FloorBoundary(now, Floor(now, 300_000), 60_000);
    FloorBoundary(now, Floor(now, 900_000), 60_000);
  }

  lemma TimesMinute(x: nat)
    ensures (60_000 * x) % 60_000 == 0
  {
  }

  lemma MinuteMultiple(h: nat, b: nat)
    requires (b == 300_000 || b == 900_000) && h % b == 0
    ensures h % 60_000 == 0
  {
    var c := if b == 300_000 then 5 else 15;
    assert h == 60_000 * (c * (h / b));
    TimesMinute(c * (h / b));
  }

  lemma InvParts(w: World, r: Retention)
    ensures Inv(w, r) <==> SampleInv(w) && (forall b :: b in BUCKETS ==> RollInv(w, r, b)) && MarksNest(w)
  {
    hide SampleInv, RowsPlaced, RightOrExpired, NothingLate, UnrolledKept, AllRolled, CoveredOrAged;
  }

  lemma StepKeepsInv(window: nat, r: Retention, w: World, e: Event, w': World)
    requires r.rawHours >= 1 && Inv(w, r) && w.h.clock >= START && Step(window, r, w, e, w')
    ensures Inv(w', r) && w'.h.clock >= START
  {
    hide Inv, SampleInv, RollInv, Step, Right, Strict;
    InvParts(w, r);
    InvParts(w', r);
    StepKeepsSampleInv(window, r, w, e, w');
    forall b | b in BUCKETS ensures RollInv(w', r, b) {
      if e.MaintainEv? {
        PassOf(window, r, w, e, w');
        PassKeeps(r, w, e, w', b);
      } else {
        QuietStepKeeps(window, r, w, e, w', b);
      }
    }
    if e.MaintainEv? {
      PassOf(window, r, w, e, w');
      PassKeeps(r, w, e, w', 60_000);
      PassKeeps(r, w, e, w', 300_000);
      PassKeeps(r, w, e, w', 900_000);
      FloorNests(e.now);
    } else {
      QuietStepKeeps(window, r, w, e, w', 60_000);
    }
    forall b | b in BUCKETS ensures b in w'.h.mark {
      MarkInside(w', r, b);
    }
  }

  lemma PassOf(window: nat, r: Retention, w: World, e: Event, w': World)
    requires Step(window, r, w, e, w') && e.MaintainEv?
    ensures Maintains(r, w, e, w')
  {
  }

  /** Every state of every run satisfies the invariant, whatever retention manages to delete. */
  lemma {:induction false} RunKeepsInv(window: nat, r: Retention, ws: seq<World>, es: seq<Event>, n: nat)
    requires r.rawHours >= 1 && Run(window, r, ws, es) && n < |ws|
    ensures Inv(ws[n], r) && ws[n].h.clock >= START
    decreases n
  {
    hide Inv, Step;
    if n == 0 {
      var now: nat :| now >= START && ws[0] == Opened(now);
      OpenedInv(now, r);
    } else {
      RunKeepsInv(window, r, ws, es, n - 1);
      assert Step(window, r, ws[n - 1], es[n - 1], ws[n]);
      StepKeepsInv(window, r, ws[n - 1], es[n - 1], ws[n]);
    }
  }

  // ---- what the invariant says to a reader --------------------------------------------------

  /**
   * In every reachable state a row is the batch aggregate of its window; or it has expired before, was
   * built again, and is past its retention age.
   */
  lemma RowsAreBatchOrExpired(window: nat, r: Retention, ws: seq<World>, es: seq<Event>, n: nat, k: RKey)
    requires r.rawHours >= 1 && Run(window, r, ws, es) && n < |ws|
    requires k in ws[n].s.rollup && k.bucket in BUCKETS
    ensures IsBatch(ws[n].h.ever, k, ws[n].s.rollup[k]) || Expired(ws[n], r, k)
  {
    hide SampleInv, Step, IsBatch, Expired;
    RunKeepsInv(window, r, ws, es, n);
    assert RollInv(ws[n], r, k.bucket);
  }

  /** The latest pass before state `n`, if there was one, could delete every row of this size past its age. */
  ghost predicate LatestKeptUp(r: Retention, ws: seq<World>, es: seq<Event>, n: nat, b: nat)
    requires |ws| == |es| + 1 && n < |ws|
  {
    forall i :: 0 <= i < n && es[i].MaintainEv? && (forall j :: i < j < n ==> !es[j].MaintainEv?)
      ==> RollsKeepUp(r, ws[i], es[i], b)
  }

  /** Every pass before state `n` could delete every sample past its age, and rows outlive samples. */
  ghost predicate SamplesKeptUp(r: Retention, ws: seq<World>, es: seq<Event>, n: nat)
    requires |ws| == |es| + 1 && n < |ws|
  {
    OutliveSamples(r) && forall i :: 0 <= i < n ==> SamplesKeepUp(r, ws[i], es[i])
  }

  lemma {:induction false} RightIfLatestKeptUp(window: nat, r: Retention, ws: seq<World>, es: seq<Event>,
                                               n: nat, b: nat)
    requires r.rawHours >= 1 && Run(window, r, ws, es) && n < |ws| && b in BUCKETS && LatestKeptUp(r, ws, es, n, b)
    ensures Right(ws[n], b)
    decreases n
  {
    hide Inv, Step, Right, SampleInv, RollInv, RollsKeepUp;
    if n == 0 {
      NoRowsYet(window, r, ws, es, b);
    } else {
      var w, e, w' := ws[n - 1], es[n - 1], ws[n];
      RunKeepsInv(window, r, ws, es, n - 1);
      InvParts(w, r);
      assert Step(window, r, w, e, w');
      if e.MaintainEv? {
        PassOf(window, r, w, e, w');
        PassKeeps(r, w, e, w', b);
      } else {
        RightIfLatestKeptUp(window, r, ws, es, n - 1, b);
        QuietStepKeeps(window, r, w, e, w', b);
      }
    }
  }

  lemma NoRowsYet(window: nat, r: Retention, ws: seq<World>, es: seq<Event>, b: nat)
    requires Run(window, r, ws, es) && b in BUCKETS
    ensures Right(ws[0], b) && Strict(ws[0], b)
  {
    hide Floor, Step;
  }

  lemma {:induction false} StrictIfSamplesKeptUp(window: nat, r: Retention, ws: seq<World>, es: seq<Event>,
                                                 n: nat, b: nat)
    requires r.rawHours >= 1 && Run(window, r, ws, es) && n < |ws| && b in BUCKETS && SamplesKeptUp(r, ws, es, n)
    ensures Strict(ws[n], b)
    decreases n
  {
    hide Inv, Step, Strict, Right, SampleInv, RollInv, SamplesKeepUp, OutliveSamples, RollsKeepUp;
    if n == 0 {
      NoRowsYet(window, r, ws, es, b);
    } else {
      var w, e, w' := ws[n - 1], es[n - 1], ws[n];
      RunKeepsInv(window, r, ws, es, n - 1);
      InvParts(w, r);
      StrictIfSamplesKeptUp(window, r, ws, es, n - 1, b);
      assert Step(window, r, w, e, w');
      assert SamplesKeepUp(r, w, e);
      if e.MaintainEv? {
        PassOf(window, r, w, e, w');
        PassKeeps(r, w, e, w', b);
      } else {
        QuietStepKeeps(window, r, w, e, w', b);
      }
    }
  }

  /** Three reasons for a row to be right: it never expired, or retention keeps up on one side or the other. */
  ghost predicate Trusted(r: Retention, ws: seq<World>, es: seq<Event>, n: nat, k: RKey)
    requires |ws| == |es| + 1 && n < |ws|
  {
    k !in ws[n].h.gone || LatestKeptUp(r, ws, es, n, k.bucket) || SamplesKeptUp(r, ws, es, n)
  }

  /**
   * Every rollup row equals the batch aggregate over all means ever written to its window, if it never
   * expired, or the latest pass could delete all rows of its size past their age, or all passes could
   * delete all samples past theirs.
   */
  lemma RollupsEqualBatch(window: nat, r: Retention, ws: seq<World>, es: seq<Event>, n: nat, k: RKey)
    requires r.rawHours >= 1 && Run(window, r, ws, es) && n < |ws|
    requires k in ws[n].s.rollup && k.bucket in BUCKETS && Trusted(r, ws, es, n, k)
    ensures var a := Over(ws[n].h.ever, k.id, k.ts, k.ts + k.bucket);
      a.n > 0 && ws[n].s.rollup[k] == RollOf(a)
  {
    assert |ws| == |es| + 1;
    hide Run, Over, RollOf, LatestKeptUp, SamplesKeptUp, Covered;
    if LatestKeptUp(r, ws, es, n, k.bucket) {
      RightIfLatestKeptUp(window, r, ws, es, n, k.bucket);
    } else if SamplesKeptUp(r, ws, es, n) {
      StrictIfSamplesKeptUp(window, r, ws, es, n, k.bucket);
    } else {
      RowsAreBatchOrExpired(window, r, ws, es, n, k);
    }
    assert IsBatch(ws[n].h.ever, k, ws[n].s.rollup[k]);
  }

  /** Every written mean below the mark is in a row, unless retention has removed that row. */
  lemma EveryMeanIsRolled(window: nat, r: Retention, ws: seq<World>, es: seq<Event>, n: nat, b: nat, k: Key)
    requires r.rawHours >= 1 && Run(window, r, ws, es) && n < |ws| && b in BUCKETS && k in ws[n].h.ever
    ensures b in ws[n].h.mark
    ensures k.ts < ws[n].h.mark[b] ==>
      RKey(b, k.id, Floor(k.ts, b)) in ws[n].s.rollup || RKey(b, k.id, Floor(k.ts, b)) in ws[n].h.gone
    ensures k.ts >= ws[n].h.mark[b] ==> k in ws[n].s.sample
  {
    hide SampleInv, Step, Floor, RowsPlaced, RightOrExpired, CoveredOrAged, NothingLate;
    RunKeepsInv(window, r, ws, es, n);
    assert RollInv(ws[n], r, b);
  }

  // ---- coarser rows are merges of finer ones ---------------------------------------------------

  /** A row read as an aggregate again: its average weighs as much as its count. */
  function Weighted(row: Roll): Agg {
    Agg(row.n, row.avgV * row.n as real, row.minV, row.maxV)
  }

  /** The n-weighted merge of the minute rows that exist among `count` minutes from `ts`. */
  function MergedMinutes(rollup: map<RKey, Roll>, id: nat, ts: nat, count: nat): Agg
    decreases count
  {
    if count == 0 then NONE
    else
      var k := RKey(60_000, id, ts);
      Merge(if k in rollup then Weighted(rollup[k]) else NONE, MergedMinutes(rollup, id, ts + 60_000, count - 1))
  }

  lemma WeightedBack(a: Agg)
    requires a.n > 0
    ensures Weighted(RollOf(a)) == a
  {
    assert a.sum / a.n as real * a.n as real == a.sum;
  }

  lemma {:induction false} OverEmpty(m: map<Key, real>, id: nat, lo: nat, hi: nat)
    requires forall t: nat :: lo <= t < hi ==> Key(id, t) !in m
    ensures Over(m, id, lo, hi) == NONE
    decreases hi - lo
  {
    if lo < hi {
      OverEmpty(m, id, lo + 1, hi);
    }
  }

  /** One rolled minute whose row has not expired: its row, or nothing at all. */
  lemma MinuteRow(w: World, r: Retention, id: nat, ts: nat)
    requires RollInv(w, r, 60_000) && RKey(60_000, id, ts) !in w.h.gone
    requires ts % 60_000 == 0 && ts + 60_000 <= w.h.mark[60_000]
    ensures (if RKey(60_000, id, ts) in w.s.rollup then Weighted(w.s.rollup[RKey(60_000, id, ts)]) else NONE)
         == Over(w.h.ever, id, ts, ts + 60_000)
  {
    hide Over, Weighted, RollOf, Floor, RowsPlaced, NothingLate, UnrolledKept, CoveredOrAged;
    var k := RKey(60_000, id, ts);
    if k in w.s.rollup {
      assert IsBatch(w.h.ever, k, w.s.rollup[k]);
      WeightedBack(Over(w.h.ever, id, ts, ts + 60_000));
    } else {
      forall t: nat | ts <= t < ts + 60_000 ensures Key(id, t) !in w.h.ever {
        FloorFacts(t, 60_000);
        FloorBoundary(t, ts, 60_000);
        MinuteOf(t, ts);
      }
      OverEmpty(w.h.ever, id, ts, ts + 60_000);
    }
  }

  lemma MinuteOf(t: nat, ts: nat)
    requires ts % 60_000 == 0 && ts <= t < ts + 60_000
    ensures Floor(t, 60_000) == ts
  {
    FloorFacts(t, 60_000);
    FloorBoundary(t, ts, 60_000);
    FloorBoundary(t, ts + 60_000, 60_000);
  }

  lemma {:induction false} MinutesMerge(w: World, r: Retention, id: nat, ts: nat, count: nat)
    requires RollInv(w, r, 60_000) && ts % 60_000 == 0 && ts + 60_000 * count <= w.h.mark[60_000]
    requires forall j: nat :: j < count ==> RKey(60_000, id, ts + 60_000 * j) !in w.h.gone
    ensures MergedMinutes(w.s.rollup, id, ts, count) == Over(w.h.ever, id, ts, ts + 60_000 * count)
    decreases count
  {
    hide RowsPlaced, RightOrExpired, NothingLate, UnrolledKept, AllRolled, CoveredOrAged, Weighted;
    if count > 0 {
      var j0: nat := 0;
      assert RKey(60_000, id, ts + 60_000 * j0) !in w.h.gone;
      MinuteRow(w, r, id, ts);
      forall j: nat | j < count - 1 ensures RKey(60_000, id, ts + 60_000 + 60_000 * j) !in w.h.gone {
        assert RKey(60_000, id, ts + 60_000 * (j + 1)) !in w.h.gone;
      }
      MinutesMerge(w, r, id, ts + 60_000, count - 1);
      OverSplit(w.h.ever, id, ts, ts + 60_000, ts + 60_000 * count);
    }
  }

  /** Each 5- and 15-minute row is the n-weighted merge of the minute rows under it, unless these have expired. */
  lemma CoarseRowsMergeMinutes(window: nat, r: Retention, ws: seq<World>, es: seq<Event>, n: nat, k: RKey)
    requires r.rawHours >= 1 && Run(window, r, ws, es) && n < |ws|
    requires k in ws[n].s.rollup && (k.bucket == 300_000 || k.bucket == 900_000) && Trusted(r, ws, es, n, k)
    requires forall j: nat :: j < k.bucket / 60_000 ==> RKey(60_000, k.id, k.ts + 60_000 * j) !in ws[n].h.gone
    ensures var a := MergedMinutes(ws[n].s.rollup, k.id, k.ts, k.bucket / 60_000);
      a.n > 0 && ws[n].s.rollup[k] == RollOf(a)
  {
    hide Run, Over, RollOf, MergedMinutes, SampleInv, Trusted, RightOrExpired, NothingLate, UnrolledKept, CoveredOrAged;
    RunKeepsInv(window, r, ws, es, n);
    RollupsEqualBatch(window, r, ws, es, n, k);
    assert RollInv(ws[n], r, k.bucket);
    MinuteMultiple(k.ts, k.bucket);
    MinutesMerge(ws[n], r, k.id, k.ts, k.bucket / 60_000);
  }
}
