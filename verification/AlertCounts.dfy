/** What an alert's row says over a run: how often it fired, when last, and what the manager counts. */
module AlertCounts {
  import opened Wrappers
  import TokenBucket
  import opened AlertModel
  import opened AlertProofs
  import opened AlertRuns

  // ---- occurrences ----------------------------------------------------------------------------

  /** Firings this many milliseconds apart count as two: at least the cooldown, and less than six hours. */
  predicate Apart(gap: int, s: Severity) {
    gap < 21_600_000 &&
    match s
    case Info => gap >= 300_000
    case Notice => gap >= 300_000
    case Warning => gap >= 180_000
    case Critical => gap >= 60_000
  }

  /** A re-fire raises the count by one exactly if it is apart from the last firing, and keeps the notification id. */
  lemma RefireCounts(t: Table, a: Alert, wall: int)
    requires TableInv(t) && HasOpen(t, a.fp)
    ensures var r, u := OpenRow(t, a.fp), Upsert(t, a, wall).0;
      && HasOpen(u, a.fp) && OpenRow(u, a.fp).lastTs == wall && OpenRow(u, a.fp).notifyId == r.notifyId
      && OpenRow(u, a.fp).count == r.count + if Apart(wall - r.lastTs, a.severity) then 1 else 0
  {
    hide Upsert, TableInv, SameElsewhere;
    RefireEffect(t, a, wall);
  }

  /** Count and time of the open row. */
  ghost predicate Tally(t: Table, fp: string, count: nat, last: int) {
    HasOpen(t, fp) && OpenRow(t, fp).count == count && OpenRow(t, fp).lastTs == last
  }

  lemma SameTally(t: Table, u: Table, fp: string, count: nat, last: int)
    requires Tally(t, fp, count, last) && SameRow(t, u, fp)
    ensures Tally(u, fp, count, last)
  {
  }

  predicate Fires(op: Op, fp: string) {
    op.Raise? && op.a.fp == fp
  }

  lemma NotifyIdKeepsTally(t: Table, fp: string, g: string, id: nat, count: nat, last: int)
    requires TableInv(t) && Tally(t, fp, count, last)
    ensures Tally(SetNotifyId(t, g, id), fp, count, last)
  {
    hide HasOpen, OpenRow, SetNotifyId, TableInv;
    SetNotifyIdEffect(t, g, id);
    if g != fp {
      SameTally(t, SetNotifyId(t, g, id), fp, count, last);
    }
  }

  lemma RaisedTable(w: World, a: Alert, e: Env)
    requires AllBuckets(w.m)
    ensures var u, v := Upsert(w.t, a, e.wall).0, Step(w, Raise(a, e)).0.t;
      v == u || v == SetNotifyId(u, a.fp, e.sentId)
  {
    hide Upsert, SetNotifyId, TokenBucket.Take, TokenBucket.Valid;
  }

  lemma FiringTallies(w: World, a: Alert, e: Env, count: nat, last: int)
    requires Inv(w) && Tally(w.t, a.fp, count, last)
    ensures Tally(Step(w, Raise(a, e)).0.t, a.fp, count + if Apart(e.wall - last, a.severity) then 1 else 0, e.wall)
  {
    hide Upsert, TableInv, Agree, SetNotifyId, HasOpen, OpenRow, Apart, Step, SameElsewhere, AllBuckets;
    RaisedTable(w, a, e);
    RefireCounts(w.t, a, e.wall);
    UpsertEffect(w.t, a, e.wall);
    NotifyIdKeepsTally(Upsert(w.t, a, e.wall).0, a.fp, a.fp, e.sentId,
                       count + if Apart(e.wall - last, a.severity) then 1 else 0, e.wall);
  }

  lemma OtherFiringTallies(w: World, a: Alert, e: Env, fp: string, count: nat, last: int)
    requires Inv(w) && Tally(w.t, fp, count, last) && a.fp != fp
    ensures Tally(Step(w, Raise(a, e)).0.t, fp, count, last)
  {
    hide Upsert, TableInv, Agree, SetNotifyId, Tally, Step, SameRow, AllBuckets;
    RaisedTable(w, a, e);
    UpsertEffect(w.t, a, e.wall);
    SameTally(w.t, Upsert(w.t, a, e.wall).0, fp, count, last);
    NotifyIdKeepsTally(Upsert(w.t, a, e.wall).0, fp, a.fp, e.sentId, count, last);
  }

  /** Nothing but a firing changes the tally of an alert that stays open. */
  lemma OtherStepTallies(w: World, op: Op, fp: string, count: nat, last: int)
    requires Inv(w) && Tally(w.t, fp, count, last) && fp in Step(w, op).0.m.open && !Fires(op, fp)
    ensures Tally(Step(w, op).0.t, fp, count, last)
  {
    hide TableInv, Agree, Resolve, DropResolved, Raised, Restarted, Tally, SameRow;
    match op
    case Raise(a, e) => OtherFiringTallies(w, a, e, fp, count, last);
    case Clear(g, _, wall) =>
      ResolveEffect(w.t, g, wall);
      if g != fp {
        SameTally(w.t, Resolve(w.t, g, wall), fp, count, last);
      }
    case ClearNow(g, wall) =>
      ResolveEffect(w.t, g, wall);
      if g != fp {
        SameTally(w.t, Resolve(w.t, g, wall), fp, count, last);
      }
    case Retention(cutoff, chosen) =>
      DropEffect(w.t, cutoff, chosen);
      SameTally(w.t, DropResolved(w.t, cutoff, chosen), fp, count, last);
    case Restart(_, _, _, _) =>
  }

  lemma OpeningTallies(w: World, a: Alert, e: Env)
    requires Inv(w) && a.fp !in w.m.open
    ensures Tally(Step(w, Raise(a, e)).0.t, a.fp, 1, e.wall)
  {
    hide Upsert, TableInv, SetNotifyId, HasOpen, OpenRow, Step, SameElsewhere, AllBuckets;
    assert Agree(w, a.fp);
    RaisedTable(w, a, e);
    FirstFireEffect(w.t, a, e.wall);
    NotifyIdKeepsTally(Upsert(w.t, a, e.wall).0, a.fp, a.fp, e.sentId, 1, e.wall);
  }

  /** Wall time of the latest firing among operations `i..n`, the first of which is one. */
  function LastFired(ops: seq<Op>, i: nat, n: nat, fp: string): int
    requires i < n <= |ops| && Fires(ops[i], fp)
    decreases n
  {
    if Fires(ops[n - 1], fp) then ops[n - 1].e.wall else LastFired(ops, i, n - 1, fp)
  }

  /** How many firings among operations `i + 1..n` are apart from the firing before them. */
  function Gaps(ops: seq<Op>, i: nat, n: nat, fp: string): nat
    requires i < n <= |ops| && Fires(ops[i], fp)
    decreases n
  {
    if n == i + 1 then 0
    else
      Gaps(ops, i, n - 1, fp)
      + if Fires(ops[n - 1], fp) && Apart(ops[n - 1].e.wall - LastFired(ops, i, n - 1, fp), ops[n - 1].a.severity)
        then 1 else 0
  }

  lemma TallyNext(w: World, ops: seq<Op>, n: nat, fp: string, count: nat, last: int)
    requires AllBuckets(w.m) && n < |ops| && Inv(After(w, ops, n)) && Tally(After(w, ops, n).t, fp, count, last)
    requires fp in After(w, ops, n + 1).m.open
    ensures Fires(ops[n], fp) ==>
              Tally(After(w, ops, n + 1).t, fp,
                    count + if Apart(ops[n].e.wall - last, ops[n].a.severity) then 1 else 0, ops[n].e.wall)
    ensures !Fires(ops[n], fp) ==> Tally(After(w, ops, n + 1).t, fp, count, last)
  {
    hide Inv, Step, Tally, Apart, AllBuckets;
    var v, op := After(w, ops, n), ops[n];
    if Fires(op, fp) {
      FiringTallies(v, op.a, op.e, count, last);
      assert op == Raise(op.a, op.e);
    } else {
      OtherStepTallies(v, op, fp, count, last);
    }
  }

  /**
   * The count of an open alert is one for the firing that opened it, and one for every later firing
   * that came at least a cooldown and less than six hours after the firing before it, however often the
   * daemon restarted; its time is that of the latest firing.
   */
  lemma {:induction false} CountIsGaps(w: World, ops: seq<Op>, i: nat, n: nat, fp: string)
    requires Inv(w) && i < n <= |ops| && AllPossible(w, ops) && Fires(ops[i], fp)
    requires fp !in After(w, ops, i).m.open && forall k :: i < k <= n ==> fp in After(w, ops, k).m.open
    ensures Tally(After(w, ops, n).t, fp, 1 + Gaps(ops, i, n, fp), LastFired(ops, i, n, fp))
    decreases n
  {
    hide Inv, Step, Possible, AllPossible, Tally, Apart;
    BucketsOf(w);
    RunKeepsInv(w, ops, n - 1);
    if n == i + 1 {
      OpeningTallies(After(w, ops, i), ops[i].a, ops[i].e);
      assert ops[i] == Raise(ops[i].a, ops[i].e);
    } else {
      CountIsGaps(w, ops, i, n - 1, fp);
      hide After;
      TallyNext(w, ops, n - 1, fp, 1 + Gaps(ops, i, n - 1, fp), LastFired(ops, i, n - 1, fp));
    }
  }

  // ---- rows that are closed -------------------------------------------------------------------

  /** Resolving stamps the open row with the time, keeps all else in it, and touches no other row. */
  lemma ResolvedRow(t: Table, fp: string, wall: int)
    requires TableInv(t)
    ensures var u := Resolve(t, fp, wall);
      && u.next == t.next
      && u.rows == if HasOpen(t, fp) then t.rows[OpenId(t, fp) := OpenRow(t, fp).(resolvedTs := Some(wall))] else t.rows
  {
    if HasOpen(t, fp) {
      forall id | IsOpen(t, id, fp) ensures id == OpenId(t, fp) {
        OpenRowIs(t, id, fp);
      }
    }
  }

  /** Retention deletes the rows it chose that are resolved and past their age, and no other. */
  lemma DroppedRows(t: Table, cutoff: int, chosen: set<nat>, id: nat)
    requires id in t.rows
    ensures var u := DropResolved(t, cutoff, chosen);
      && u.next == t.next && u.rows.Keys <= t.rows.Keys
      && (id in u.rows ==> u.rows[id] == t.rows[id])
      && (t.rows[id].resolvedTs.None? || t.rows[id].lastTs >= cutoff || id !in chosen ==> id in u.rows)
      && (t.rows[id].resolvedTs.Some? && t.rows[id].lastTs < cutoff && id in chosen ==> id !in u.rows)
  {
  }

  /** An immediate clear closes the alert in memory and in the table, and no other. */
  lemma ClearNowCloses(w: World, fp: string, wall: int)
    requires Inv(w)
    ensures var v := Step(w, ClearNow(fp, wall)).0;
      fp !in v.m.open && !HasOpen(v.t, fp) && SameElsewhere(w.t, v.t, fp)
  {
    hide TableInv, Resolve, SameElsewhere;
    ResolveEffect(w.t, fp, wall);
    assert Agree(w, fp);
    SameElsewhereAsIs(w.t, fp);
  }

  lemma SameElsewhereAsIs(t: Table, fp: string)
    ensures SameElsewhere(t, t, fp)
  {
  }

  // ---- what the manager counts ----------------------------------------------------------------

  /** The raise is not muted, and is of an alert that was not open, or was at a lower severity. */
  predicate Counted(m: Manager, op: Op) {
    op.Raise? && !op.e.muted && (op.a.fp in m.open ==> Rank(op.a.severity) > Rank(m.open[op.a.fp]))
  }

  ghost function CountedRaises(w: World, ops: seq<Op>, n: nat): nat
    requires AllBuckets(w.m) && n <= |ops|
    decreases n
  {
    if n == 0 then 0 else CountedRaises(w, ops, n - 1) + if Counted(After(w, ops, n - 1).m, ops[n - 1]) then 1 else 0
  }

  function MutedRaises(ops: seq<Op>, n: nat): nat
    requires n <= |ops|
    decreases n
  {
    if n == 0 then 0 else MutedRaises(ops, n - 1) + if ops[n - 1].Raise? && ops[n - 1].e.muted then 1 else 0
  }

  /** What the rate limiters have refused, over all severities. */
  function Limited(m: Manager): nat
    requires AllBuckets(m)
  {
    m.buckets[Info].suppressed + m.buckets[Notice].suppressed
    + m.buckets[Warning].suppressed + m.buckets[Critical].suppressed
  }

  lemma RaiseTotals(w: World, a: Alert, e: Env)
    requires Inv(w)
    ensures var op := Raise(a, e);
      var v := Step(w, op).0;
      && AllBuckets(v.m)
      && v.m.totalRaised == w.m.totalRaised + (if Counted(w.m, op) then 1 else 0)
      && v.m.totalSuppressed + Limited(w.m) == w.m.totalSuppressed + Limited(v.m) + if e.muted then 1 else 0
  {
    hide Upsert, TableInv, Agree, SetNotifyId, TokenBucket.Refilled;
    IsNewIff(w, a, e.wall);
    StepKeepsBuckets(w, Raise(a, e));
  }

  lemma StepTotals(w: World, op: Op)
    requires Inv(w) && !op.Restart?
    ensures var v := Step(w, op).0;
      && AllBuckets(v.m)
      && v.m.totalRaised == w.m.totalRaised + (if Counted(w.m, op) then 1 else 0)
      && v.m.totalSuppressed + Limited(w.m)
           == w.m.totalSuppressed + Limited(v.m) + if op.Raise? && op.e.muted then 1 else 0
  {
    hide Raised, Resolve, DropResolved, TableInv, Agree, Limited;
    StepKeepsBuckets(w, op);
    match op
    case Raise(a, e) => RaiseTotals(w, a, e);
    case Clear(fp, now, wall) => SameLimits(w.m, Step(w, op).0.m);
    case ClearNow(fp, wall) => SameLimits(w.m, Step(w, op).0.m);
    case Retention(_, _) =>
  }

  lemma SameLimits(m: Manager, n: Manager)
    requires AllBuckets(m) && n.buckets == m.buckets
    ensures AllBuckets(n) && Limited(n) == Limited(m)
  {
  }

  /**
   * Without a restart, the manager's totals are: raised, the unmuted raises of alerts that were not
   * open or got worse; suppressed, the muted raises and what the rate limiters refused, each once.
   */
  lemma {:induction false} TotalsAddUp(w: World, ops: seq<Op>, n: nat)
    requires Inv(w) && n <= |ops| && AllPossible(w, ops) && forall k :: 0 <= k < n ==> !ops[k].Restart?
    ensures var v := After(w, ops, n);
      && v.m.totalRaised == w.m.totalRaised + CountedRaises(w, ops, n)
      && v.m.totalSuppressed + Limited(w.m) == w.m.totalSuppressed + Limited(v.m) + MutedRaises(ops, n)
    decreases n
  {
    hide Inv, Step, Possible, AllPossible, Counted, Limited;
    BucketsOf(w);
    if n > 0 {
      TotalsAddUp(w, ops, n - 1);
      RunKeepsInv(w, ops, n - 1);
      StepTotals(After(w, ops, n - 1), ops[n - 1]);
    }
  }
}
