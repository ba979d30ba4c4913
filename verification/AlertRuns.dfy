/**
 * When a notification is due, how far apart notifications are, how quiet a restart is, and how long a
 * clear is held.
 */
module AlertRuns {
  import opened Wrappers
  import TokenBucket
  import opened AlertModel
  import opened AlertProofs

  function Time(op: Op): Option<int> {
    match op
    case Raise(_, e) => Some(e.now)
    case Clear(_, now, _) => Some(now)
    case Restart(_, at, _, _) => Some(at)
    case _ => None
  }

  /** The monotonic clock never runs backwards. */
  predicate Ordered(ops: seq<Op>) {
    forall i, j :: 0 <= i < j < |ops| ==> Earlier(ops[i], ops[j])
  }

  predicate Earlier(p: Op, q: Op) {
    Time(p).Some? && Time(q).Some? ==> Time(p).value <= Time(q).value
  }

  // ---- the gate ---------------------------------------------------------------------------

  /** Nothing outside the dedup rules holds the notification back. */
  predicate Deliverable(m: Manager, a: Alert, e: Env)
    requires a.severity in m.buckets
  {
    && !e.muted
    && e.desktop
    && Rank(a.severity) >= Rank(e.minNotify)
    && TokenBucket.Take(m.buckets[a.severity], e.now).1
  }

  /** It was never notified, is worse than last notified, or is worse than last recorded and the cooldown is over. */
  predicate News(m: Manager, a: Alert, now: int)
    requires a.fp in m.notified ==> a.fp in m.open
  {
    a.fp in m.notified ==>
      var n := m.notified[a.fp];
      || Rank(a.severity) > Rank(n.severity)
      || (Rank(a.severity) > Rank(m.open[a.fp]) && now - n.last >= CooldownS(a.severity) * 1000)
  }

  lemma IsNewIff(w: World, a: Alert, wall: int)
    requires Inv(w)
    ensures Upsert(w.t, a, wall).1 <==> (a.fp in w.m.open ==> Rank(a.severity) > Rank(w.m.open[a.fp]))
  {
    hide Upsert, TableInv, SameElsewhere, HasOpen, OpenRow;
    UpsertEffect(w.t, a, wall);
    assert Agree(w, a.fp);
  }

  /** A raise notifies exactly if it is news and nothing holds the notification back. */
  lemma NotifiesIff(w: World, a: Alert, e: Env)
    requires Inv(w)
    ensures Step(w, Raise(a, e)).1 <==> Deliverable(w.m, a, e) && News(w.m, a, e.now)
  {
    hide Upsert, TableInv, Agree, SetNotifyId, TokenBucket.Take, TokenBucket.Valid;
    IsNewIff(w, a, e.wall);
  }

  /** A raise that is not news leaves every record of notifications as it was. */
  lemma NoNewsNoTrace(w: World, a: Alert, e: Env)
    requires Inv(w) && !News(w.m, a, e.now)
    ensures Step(w, Raise(a, e)).0.m.notified == w.m.notified
    ensures Step(w, Raise(a, e)).0.m.buckets == w.m.buckets
  {
    hide Upsert, TableInv, Agree, SetNotifyId, TokenBucket.Take, TokenBucket.Valid;
    IsNewIff(w, a, e.wall);
  }

  // ---- spacing ----------------------------------------------------------------------------

  const SPACING_MS := 60_000

  predicate InWindow(op: Op, since: int) {
    match op
    case Raise(_, e) => since <= e.now < since + SPACING_MS
    case Clear(_, now, _) => since <= now < since + SPACING_MS
    case ClearNow(_, _) => false
    case Retention(_, _) => true
    case Restart(_, _, _, _) => false
  }

  /**
   * The fingerprint was notified at `since` or later at this rank or a higher one, and has not been
   * clear for longer.
   */
  predicate Guarded(m: Manager, fp: string, since: int, rank: int) {
    && fp in m.notified
    && m.notified[fp].last >= since
    && Rank(m.notified[fp].severity) >= rank
    && (fp in m.clearing ==> m.clearing[fp] >= since)
  }

  lemma SendGuards(w: World, a: Alert, e: Env)
    requires AllBuckets(w.m) && Step(w, Raise(a, e)).1
    ensures Guarded(Step(w, Raise(a, e)).0.m, a.fp, e.now, Rank(a.severity))
  {
    hide Upsert, SetNotifyId, TokenBucket.Take, TokenBucket.Valid;
  }

  lemma RaiseInWindow(w: World, a: Alert, e: Env, fp: string, since: int, rank: int)
    requires AllBuckets(w.m) && Guarded(w.m, fp, since, rank) && since <= e.now < since + SPACING_MS
    ensures Guarded(Step(w, Raise(a, e)).0.m, fp, since, rank)
    ensures a.fp == fp && Step(w, Raise(a, e)).1 ==> Rank(a.severity) > rank
  {
    hide Upsert, SetNotifyId, TokenBucket.Take, TokenBucket.Valid;
    assert CooldownS(a.severity) * 1000 >= SPACING_MS;
  }

  lemma ClearInWindow(w: World, other: string, now: int, wall: int, fp: string, since: int, rank: int)
    requires AllBuckets(w.m) && Guarded(w.m, fp, since, rank) && since <= now < since + SPACING_MS
    ensures Guarded(Step(w, Clear(other, now, wall)).0.m, fp, since, rank)
  {
    hide Resolve;
  }

  lemma StepInWindow(w: World, op: Op, fp: string, since: int, rank: int)
    requires AllBuckets(w.m) && Guarded(w.m, fp, since, rank) && InWindow(op, since)
    ensures Guarded(Step(w, op).0.m, fp, since, rank)
    ensures op.Raise? && op.a.fp == fp && Step(w, op).1 ==> Rank(op.a.severity) > rank
  {
    hide AllBuckets, Guarded, Raised, Cleared, DropResolved;
    match op
    case Raise(a, e) => RaiseInWindow(w, a, e, fp, since, rank);
    case Clear(other, now, wall) => ClearInWindow(w, other, now, wall, fp, since, rank);
    case Retention(_, _) =>
  }

  lemma {:induction false} GuardedUntil(w: World, ops: seq<Op>, i: nat, n: nat, fp: string)
    requires AllBuckets(w.m) && i < n <= |ops| && Sends(w, ops, i, fp)
    requires forall k :: i < k < n ==> InWindow(ops[k], ops[i].e.now)
    ensures Guarded(After(w, ops, n).m, fp, ops[i].e.now, Rank(ops[i].a.severity))
    decreases n
  {
    hide Step, Guarded, InWindow, AllBuckets;
    if n == i + 1 {
      SendGuards(After(w, ops, i), ops[i].a, ops[i].e);
      assert ops[i] == Raise(ops[i].a, ops[i].e);
    } else {
      GuardedUntil(w, ops, i, n - 1, fp);
      StepInWindow(After(w, ops, n - 1), ops[n - 1], fp, ops[i].e.now, Rank(ops[i].a.severity));
    }
  }

  /** No restart and no immediate resolution from `i` to `j`. */
  predicate Plain(ops: seq<Op>, i: nat, j: nat)
    requires j < |ops|
  {
    forall k :: i <= k <= j ==> !ops[k].Restart? && !ops[k].ClearNow?
  }

  /** Less than a minute after a notification, the same fingerprint only notifies again at a higher severity. */
  lemma SpacedOrWorse(w: World, ops: seq<Op>, i: nat, j: nat, fp: string)
    requires AllBuckets(w.m) && Ordered(ops) && i < j < |ops| && Plain(ops, i, j)
    requires Sends(w, ops, i, fp) && Sends(w, ops, j, fp)
    requires ops[j].e.now - ops[i].e.now < SPACING_MS
    ensures Rank(ops[i].a.severity) < Rank(ops[j].a.severity)
  {
    hide Step, AllBuckets;
    forall k | i < k < j ensures InWindow(ops[k], ops[i].e.now) {
      assert Earlier(ops[i], ops[k]) && Earlier(ops[k], ops[j]);
    }
    GuardedUntil(w, ops, i, j, fp);
    assert Earlier(ops[i], ops[j]);
    StepInWindow(After(w, ops, j), ops[j], fp, ops[i].e.now, Rank(ops[i].a.severity));
  }

  /** Notifications about the fingerprint among operations `i..n`. */
  ghost function SendCount(w: World, ops: seq<Op>, i: nat, n: nat, fp: string): nat
    requires AllBuckets(w.m) && i <= n <= |ops|
    decreases n
  {
    if n == i then 0 else SendCount(w, ops, i, n - 1, fp) + if Sends(w, ops, n - 1, fp) then 1 else 0
  }

  /** The operation is the latest notification before `n`, and its rank bounds how many there were. */
  ghost predicate CountedBy(w: World, ops: seq<Op>, i: nat, n: nat, fp: string, k: nat)
    requires AllBuckets(w.m) && i <= n <= |ops|
  {
    && i <= k < n
    && Sends(w, ops, k, fp)
    && SendCount(w, ops, i, n, fp) <= Rank(ops[k].a.severity) + 1
  }

  lemma {:induction false} RanksBoundCount(w: World, ops: seq<Op>, i: nat, j: nat, n: nat, fp: string)
    requires AllBuckets(w.m) && Ordered(ops) && i <= n <= j + 1 <= |ops| && Plain(ops, i, j)
    requires forall k, l :: i <= k < l <= j && ops[k].Raise? && ops[l].Raise?
                        ==> ops[l].e.now - ops[k].e.now < SPACING_MS
    ensures SendCount(w, ops, i, n, fp) == 0 || exists k: nat :: CountedBy(w, ops, i, n, fp, k)
    decreases n
  {
    hide Step, AllBuckets, Ordered, Plain;
    if n > i {
      RanksBoundCount(w, ops, i, j, n - 1, fp);
      if SendCount(w, ops, i, n - 1, fp) > 0 {
        var k: nat :| CountedBy(w, ops, i, n - 1, fp, k);
        if Sends(w, ops, n - 1, fp) {
          PlainPart(ops, i, j, k, n - 1);
          SpacedOrWorse(w, ops, k, n - 1, fp);
          assert CountedBy(w, ops, i, n, fp, n - 1);
        } else {
          assert CountedBy(w, ops, i, n, fp, k);
        }
      } else if Sends(w, ops, n - 1, fp) {
        assert CountedBy(w, ops, i, n, fp, n - 1);
      }
    }
  }

  lemma PlainPart(ops: seq<Op>, i: nat, j: nat, k: nat, l: nat)
    requires j < |ops| && Plain(ops, i, j) && i <= k <= l <= j
    ensures Plain(ops, k, l)
  {
  }

  /** In any stretch of less than a minute, a fingerprint notifies at most four times. */
  lemma AtMostFourAMinute(w: World, ops: seq<Op>, i: nat, j: nat, fp: string)
    requires AllBuckets(w.m) && Ordered(ops) && i <= j < |ops| && Plain(ops, i, j)
    requires forall k, l :: i <= k < l <= j && ops[k].Raise? && ops[l].Raise?
                        ==> ops[l].e.now - ops[k].e.now < SPACING_MS
    ensures SendCount(w, ops, i, j + 1, fp) <= 4
  {
    hide Step, AllBuckets, Ordered, Plain;
    RanksBoundCount(w, ops, i, j, j + 1, fp);
    if SendCount(w, ops, i, j + 1, fp) > 0 {
      var k: nat :| CountedBy(w, ops, i, j + 1, fp, k);
    }
  }

  // ---- quiet restarts ---------------------------------------------------------------------

  /** The alert is open, and was notified at its recorded severity or a higher one. */
  predicate Settled(m: Manager, fp: string) {
    fp in m.open && fp in m.notified && Rank(m.open[fp]) <= Rank(m.notified[fp].severity)
  }

  /** Not a restart, and no raise of the fingerprint above the severity now on record. */
  predicate Calm(m: Manager, op: Op, fp: string) {
    && !op.Restart?
    && (op.Raise? && op.a.fp == fp ==> fp in m.open && Rank(op.a.severity) <= Rank(m.open[fp]))
  }

  lemma CalmStep(w: World, op: Op, fp: string)
    requires Inv(w) && Settled(w.m, fp) && Calm(w.m, op, fp)
    requires fp in Step(w, op).0.m.open
    ensures Settled(Step(w, op).0.m, fp)
    ensures op.Raise? && op.a.fp == fp ==> !Step(w, op).1
  {
    hide Upsert, TableInv, Agree, Resolve, SetNotifyId, DropResolved, TokenBucket.Take, TokenBucket.Valid;
    if op.Raise? && op.a.fp == fp {
      NotifiesIff(w, op.a, op.e);
      NoNewsNoTrace(w, op.a, op.e);
    }
  }

  ghost predicate CalmRun(w: World, ops: seq<Op>, i: nat, n: nat, fp: string)
    requires AllBuckets(w.m) && n <= |ops|
  {
    && (forall k :: i <= k < n ==> Calm(After(w, ops, k).m, ops[k], fp))
    && (forall k :: i <= k <= n ==> fp in After(w, ops, k).m.open)
  }

  lemma CalmOn(w: World, ops: seq<Op>, n: nat, fp: string)
    requires AllBuckets(w.m) && n < |ops| && Inv(After(w, ops, n)) && Settled(After(w, ops, n).m, fp)
    requires Calm(After(w, ops, n).m, ops[n], fp) && fp in After(w, ops, n + 1).m.open
    ensures Settled(After(w, ops, n + 1).m, fp) && !Sends(w, ops, n, fp)
  {
    hide Inv, Step, Settled, Calm, AllBuckets;
    CalmStep(After(w, ops, n), ops[n], fp);
  }

  lemma {:induction false} CalmIsQuiet(w: World, ops: seq<Op>, i: nat, n: nat, fp: string)
    requires Inv(w) && i <= n <= |ops| && AllPossible(w, ops)
    requires Settled(After(w, ops, i).m, fp) && CalmRun(w, ops, i, n, fp)
    ensures Settled(After(w, ops, n).m, fp)
    ensures forall k :: i <= k < n ==> !Sends(w, ops, k, fp)
    decreases n
  {
    hide Inv, Step, Settled, Calm, Possible, AllPossible, After, Sends;
    BucketsOf(w);
    if n > i {
      CalmIsQuiet(w, ops, i, n - 1, fp);
      RunKeepsInv(w, ops, n - 1);
      assert Calm(After(w, ops, n - 1).m, ops[n - 1], fp);
      assert fp in After(w, ops, n).m.open;
      CalmOn(w, ops, n - 1, fp);
    }
  }

  /**
   * After a restart a reloaded alert does not notify again while it stays open and no raise goes
   * above the severity on record.
   */
  lemma RestartIsQuiet(w: World, ops: seq<Op>, r: nat, n: nat, fp: string)
    requires Inv(w) && r < n <= |ops| && AllPossible(w, ops) && ops[r].Restart?
    requires CalmRun(w, ops, r + 1, n, fp)
    ensures forall k :: r <= k < n ==> !Sends(w, ops, k, fp)
  {
    hide Step, Inv, Calm, Possible, Settled;
    BucketsOf(w);
    RunKeepsInv(w, ops, r);
    assert fp in After(w, ops, r + 1).m.open;
    RestartSettles(After(w, ops, r), ops[r], fp);
    CalmIsQuiet(w, ops, r + 1, n, fp);
  }

  lemma RestartSettles(w: World, op: Op, fp: string)
    requires Inv(w) && op.Restart?
    ensures fp in Step(w, op).0.m.open ==> Settled(Step(w, op).0.m, fp)
  {
    hide Restarted, HasOpen, OpenRow;
    RestartedAt(w.t, op.ids, op.at, op.burst, op.refillS, fp);
  }

  /**
   * The severity on record is the latest one, not the highest: an alert that dips and returns to
   * the severity it was reloaded and notified at notifies again once the cooldown is over.
   */
  lemma DipAndReturnNotifies(w: World, high: Alert, low: Alert, e: Env, f: Env)
    requires Inv(w) && high.fp == low.fp && high.fp in w.m.open && high.fp in w.m.notified
    requires w.m.open[high.fp] == w.m.notified[high.fp].severity == high.severity
    requires Rank(low.severity) < Rank(high.severity)
    requires f.now - w.m.notified[high.fp].last >= CooldownS(high.severity) * 1000
    requires Deliverable(w.m, high, f) && !e.muted
    ensures !Step(w, Raise(low, e)).1 && AllBuckets(Step(w, Raise(low, e)).0.m)
    ensures Step(Step(w, Raise(low, e)).0, Raise(high, f)).1
  {
    hide Inv, Step, TokenBucket.Take;
    BucketsOf(w);
    KeysOf(w);
    var v := Step(w, Raise(low, e)).0;
    NotifiesIff(w, low, e);
    NoNewsNoTrace(w, low, e);
    StepKeepsInv(w, Raise(low, e));
    BucketsOf(v);
    KeysOf(v);
    RaiseRecords(w, low, e);
    NotifiesIff(v, high, f);
  }

  lemma KeysOf(w: World)
    requires Inv(w)
    ensures Subkeys(w.m)
  {
  }

  lemma RaiseRecords(w: World, a: Alert, e: Env)
    requires AllBuckets(w.m)
    ensures Step(w, Raise(a, e)).0.m.open == w.m.open[a.fp := a.severity]
  {
    hide Upsert, SetNotifyId, TokenBucket.Take, TokenBucket.Valid;
  }

  // ---- notification ids across restarts ---------------------------------------------------

  /** The open row of the fingerprint carries this notification id. */
  ghost predicate Carries(t: Table, fp: string, id: nat) {
    HasOpen(t, fp) && OpenRow(t, fp).notifyId == id
  }

  lemma SendStoresId(w: World, a: Alert, e: Env)
    requires Inv(w) && Step(w, Raise(a, e)).1
    ensures Carries(Step(w, Raise(a, e)).0.t, a.fp, e.sentId)
  {
    hide Upsert, TableInv, Agree, SetNotifyId, HasOpen, OpenRow, TokenBucket.Take, TokenBucket.Valid, SameElsewhere;
    UpsertEffect(w.t, a, e.wall);
    SetNotifyIdEffect(Upsert(w.t, a, e.wall).0, a.fp, e.sentId);
  }

  lemma RaiseKeepsId(w: World, a: Alert, e: Env, fp: string, id: nat)
    requires Inv(w) && Carries(w.t, fp, id) && (a.fp == fp ==> !Step(w, Raise(a, e)).1)
    ensures Carries(Step(w, Raise(a, e)).0.t, fp, id)
  {
    hide Upsert, TableInv, Agree, SetNotifyId, HasOpen, OpenRow, TokenBucket.Take, TokenBucket.Valid;
    var u := Upsert(w.t, a, e.wall).0;
    UpsertEffect(w.t, a, e.wall);
    SetNotifyIdEffect(u, a.fp, e.sentId);
    if a.fp == fp {
      RefireEffect(w.t, a, e.wall);
    } else {
      assert SameRow(w.t, u, fp) && SameRow(u, SetNotifyId(u, a.fp, e.sentId), fp);
    }
  }

  /** Whatever happens to an alert that stays open, its row keeps the id of the last notification sent. */
  lemma StepKeepsId(w: World, op: Op, fp: string, id: nat)
    requires Inv(w) && Carries(w.t, fp, id) && fp in Step(w, op).0.m.open
    requires op.Raise? && op.a.fp == fp ==> !Step(w, op).1
    ensures Carries(Step(w, op).0.t, fp, id)
  {
    hide HasOpen, OpenRow, TableInv, Agree, Resolve, DropResolved, Raised, Restarted;
    match op
    case Raise(a, e) => RaiseKeepsId(w, a, e, fp, id);
    case Clear(g, _, wall) =>
      ResolveEffect(w.t, g, wall);
      assert g != fp ==> SameRow(w.t, Resolve(w.t, g, wall), fp);
    case ClearNow(g, wall) =>
      ResolveEffect(w.t, g, wall);
      assert g != fp ==> SameRow(w.t, Resolve(w.t, g, wall), fp);
    case Retention(cutoff, chosen) =>
      DropEffect(w.t, cutoff, chosen);
      assert SameRow(w.t, DropResolved(w.t, cutoff, chosen), fp);
    case Restart(_, _, _, _) =>
  }

  lemma SentIsCarried(w: World, ops: seq<Op>, i: nat, fp: string)
    requires AllBuckets(w.m) && i < |ops| && Sends(w, ops, i, fp) && Inv(After(w, ops, i))
    ensures Carries(After(w, ops, i + 1).t, fp, ops[i].e.sentId)
  {
    hide Inv, Carries, AllBuckets, Raised, Cleared, ClearedNow, Restarted, DropResolved;
    assert ops[i] == Raise(ops[i].a, ops[i].e);
    SendStoresId(After(w, ops, i), ops[i].a, ops[i].e);
  }

  lemma CarriedOn(w: World, ops: seq<Op>, n: nat, fp: string, id: nat)
    requires AllBuckets(w.m) && n < |ops| && Inv(After(w, ops, n)) && Carries(After(w, ops, n).t, fp, id)
    requires !Sends(w, ops, n, fp) && fp in After(w, ops, n + 1).m.open
    ensures Carries(After(w, ops, n + 1).t, fp, id)
  {
    hide Inv, Step, Carries, AllBuckets;
    StepKeepsId(After(w, ops, n), ops[n], fp, id);
  }

  lemma {:induction false} IdIsKept(w: World, ops: seq<Op>, i: nat, n: nat, fp: string)
    requires Inv(w) && i < n <= |ops| && AllPossible(w, ops) && Sends(w, ops, i, fp)
    requires forall k :: i < k < n ==> !Sends(w, ops, k, fp)
    requires forall k :: i < k <= n ==> fp in After(w, ops, k).m.open
    ensures Carries(After(w, ops, n).t, fp, ops[i].e.sentId)
    decreases n
  {
    hide Inv, Carries, Possible, After, AllPossible, Step;
    BucketsOf(w);
    RunKeepsInv(w, ops, n - 1);
    if n == i + 1 {
      SentIsCarried(w, ops, i, fp);
    } else {
      IdIsKept(w, ops, i, n - 1, fp);
      CarriedOn(w, ops, n - 1, fp, ops[i].e.sentId);
    }
  }

  /**
   * However long an alert stays open and however often the daemon restarts, a restart reloads the id
   * of the last notification sent for it, although the manager may have forgotten it by then.
   */
  lemma RestartReloadsId(w: World, ops: seq<Op>, i: nat, r: nat, fp: string)
    requires Inv(w) && i < r < |ops| && AllPossible(w, ops) && Sends(w, ops, i, fp) && ops[r].Restart?
    requires forall k :: i < k < r ==> !Sends(w, ops, k, fp)
    requires forall k :: i < k <= r + 1 ==> fp in After(w, ops, k).m.open
    ensures fp in After(w, ops, r + 1).m.notified
    ensures After(w, ops, r + 1).m.notified[fp].id == ops[i].e.sentId
  {
    hide Inv, Possible, Sends, HasOpen, OpenRow;
    BucketsOf(w);
    IdIsKept(w, ops, i, r, fp);
    RunKeepsInv(w, ops, r);
    assert fp in After(w, ops, r + 1).m.open;
    ReloadedNote(After(w, ops, r), ops[r], fp);
  }

  lemma ReloadedNote(w: World, op: Op, fp: string)
    requires Inv(w) && op.Restart? && fp in Step(w, op).0.m.open
    ensures HasOpen(w.t, fp) && fp in Step(w, op).0.m.notified
    ensures Step(w, op).0.m.notified[fp].id == OpenRow(w.t, fp).notifyId
  {
    hide Restarted, HasOpen, OpenRow;
    RestartedAt(w.t, op.ids, op.at, op.burst, op.refillS, fp);
  }

  // ---- the hold ---------------------------------------------------------------------------

  /** What starts the hold over. */
  predicate Resets(op: Op, fp: string) {
    op.Restart? || (op.Raise? && op.a.fp == fp)
  }

  predicate Clears(op: Op, fp: string) {
    op.Clear? && op.fp == fp
  }

  /** The operation clears the fingerprint and nothing up to `n` has started the hold over since. */
  predicate Trailing(ops: seq<Op>, f: nat, n: nat, fp: string)
    requires n <= |ops|
  {
    f < n && Clears(ops[f], fp) && forall g :: f < g < n ==> !Resets(ops[g], fp)
  }

  /** The first clear since the hold was last started over. */
  function FirstClear(ops: seq<Op>, n: nat, fp: string): (f: Option<nat>)
    requires n <= |ops|
    ensures f.Some? ==> Trailing(ops, f.value, n, fp)
    ensures f.Some? ==> forall g: nat :: g < f.value ==> !Trailing(ops, g, n, fp)
    ensures f.None? ==> forall g: nat :: !Trailing(ops, g, n, fp)
    decreases n
  {
    if n == 0 || Resets(ops[n - 1], fp) then None
    else
      var before := FirstClear(ops, n - 1, fp);
      assert forall g: nat :: g < n - 1 ==> (Trailing(ops, g, n, fp) <==> Trailing(ops, g, n - 1, fp));
      if before.None? && Clears(ops[n - 1], fp) then Some(n - 1) else before
  }

  ghost predicate HoldsSince(m: Manager, ops: seq<Op>, n: nat, fp: string)
    requires n <= |ops|
  {
    fp in m.open ==>
      var f := FirstClear(ops, n, fp);
      && (fp in m.clearing <==> f.Some?)
      && (f.Some? ==> m.clearing[fp] == ops[f.value].now)
  }

  lemma HoldStep(w: World, ops: seq<Op>, n: nat, fp: string)
    requires AllBuckets(w.m) && n < |ops| && HoldsSince(w.m, ops, n, fp)
    ensures HoldsSince(Step(w, ops[n]).0.m, ops, n + 1, fp)
  {
    hide Upsert, Resolve, SetNotifyId, DropResolved, TokenBucket.Take, TokenBucket.Valid, Trailing;
    match ops[n]
    case Raise(a, e) => RaiseRecords(w, a, e);
    case Clear(_, _, _) =>
    case ClearNow(_, _) =>
    case Retention(_, _) =>
    case Restart(_, _, _, _) =>
  }

  lemma {:induction false} HoldRun(w: World, ops: seq<Op>, n: nat, fp: string)
    requires AllBuckets(w.m) && n <= |ops| && fp !in w.m.clearing
    ensures HoldsSince(After(w, ops, n).m, ops, n, fp)
    decreases n
  {
    hide Step, AllBuckets;
    if n > 0 {
      HoldRun(w, ops, n - 1, fp);
      HoldStep(After(w, ops, n - 1), ops, n - 1, fp);
    }
  }

  /** Clear `k` comes at least 120 s after clear `f`, with no raise or restart in between. */
  ghost predicate HeldFrom(ops: seq<Op>, f: nat, k: nat, fp: string)
    requires k < |ops| && ops[k].Clear?
  {
    Trailing(ops, f, k, fp) && ops[k].now - ops[f].now >= 120_000
  }

  /**
   * A clear of an open alert resolves it exactly if an earlier one, with no raise or restart in
   * between, is at least 120 s old.
   */
  lemma ResolvesIffHeld(w: World, ops: seq<Op>, k: nat, fp: string)
    requires AllBuckets(w.m) && fp !in w.m.clearing && Ordered(ops)
    requires k < |ops| && Clears(ops[k], fp) && fp in After(w, ops, k).m.open
    ensures fp !in After(w, ops, k + 1).m.open <==> exists f: nat :: HeldFrom(ops, f, k, fp)
  {
    hide Resolve, AllBuckets, Ordered, FirstClear;
    HoldRun(w, ops, k, fp);
    var first := FirstClear(ops, k, fp);
    if first.Some? && ops[k].now - ops[first.value].now >= MIN_RESOLVE_HOLD_S * 1000 {
      assert HeldFrom(ops, first.value, k, fp);
    }
    if exists f: nat :: HeldFrom(ops, f, k, fp) {
      var f: nat :| HeldFrom(ops, f, k, fp);
      assert first.Some? && first.value <= f;
      ClockAt(ops, first.value, f);
    }
  }

  lemma ClockAt(ops: seq<Op>, i: nat, j: nat)
    requires Ordered(ops) && i <= j < |ops| && ops[i].Clear? && ops[j].Clear?
    ensures ops[i].now <= ops[j].now
  {
    assert i < j ==> Earlier(ops[i], ops[j]);
  }
}
