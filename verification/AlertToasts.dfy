/** Which notification id the manager remembers for an alert: the one it was sent under, or none. */
module AlertToasts {
  import TokenBucket
  import opened AlertModel
  import opened AlertProofs
  import opened AlertRuns

  /** The raise is news that is not delivered: desktop off, severity too low, or the rate limit hit. */
  predicate Overwrites(m: Manager, op: Op, fp: string) {
    && AllBuckets(m) && Subkeys(m)
    && op.Raise? && op.a.fp == fp && !op.e.muted
    && News(m, op.a, op.e.now) && !Deliverable(m, op.a, op.e)
  }

  lemma OnlyRaises(m: Manager, op: Op, fp: string)
    ensures Overwrites(m, op, fp) ==> op.Raise?
  {
  }

  lemma OverwritingRaise(w: World, a: Alert, e: Env)
    requires Inv(w) && !Step(w, Raise(a, e)).1 && a.fp in w.m.notified
    ensures var v := Step(w, Raise(a, e)).0;
      && a.fp in v.m.notified
      && v.m.notified[a.fp].id == if Overwrites(w.m, Raise(a, e), a.fp) then 0 else w.m.notified[a.fp].id
  {
    hide Upsert, TableInv, Agree, SetNotifyId, TokenBucket.Take, TokenBucket.Valid;
    IsNewIff(w, a, e.wall);
    NotifiesIff(w, a, e);
  }

  lemma OtherRaise(w: World, a: Alert, e: Env, fp: string)
    requires AllBuckets(w.m) && a.fp != fp && fp in w.m.notified
    ensures fp in Step(w, Raise(a, e)).0.m.notified && Step(w, Raise(a, e)).0.m.notified[fp] == w.m.notified[fp]
  {
    hide Upsert, SetNotifyId, TokenBucket.Take, TokenBucket.Valid;
  }

  /** What one operation makes of the id remembered for an alert that stays open. */
  lemma IdAfterStep(w: World, op: Op, fp: string)
    requires Inv(w) && fp in w.m.notified && fp in Step(w, op).0.m.open && !op.Restart?
    requires op.Raise? && op.a.fp == fp ==> !Step(w, op).1
    ensures var v := Step(w, op).0;
      && fp in v.m.notified
      && v.m.notified[fp].id == if Overwrites(w.m, op, fp) then 0 else w.m.notified[fp].id
  {
    hide TableInv, Agree, Resolve, DropResolved, Raised, News, Deliverable;
    match op
    case Raise(a, e) =>
      if a.fp == fp {
        OverwritingRaise(w, a, e);
      } else {
        OtherRaise(w, a, e, fp);
      }
    case Clear(_, _, _) =>
    case ClearNow(_, _) =>
    case Retention(_, _) =>
  }

  /** Operation `k` overwrites the id, and no restart before `n` reads it back from the table. */
  ghost predicate Overwritten(w: World, ops: seq<Op>, k: nat, n: nat, fp: string)
    requires AllBuckets(w.m) && n <= |ops|
  {
    k < n && Overwrites(After(w, ops, k).m, ops[k], fp) && NoRestart(ops, k, n)
  }

  predicate NoRestart(ops: seq<Op>, k: nat, n: nat)
    requires n <= |ops|
  {
    forall j :: k < j < n ==> !ops[j].Restart?
  }

  ghost predicate IdLost(w: World, ops: seq<Op>, i: nat, n: nat, fp: string)
    requires AllBuckets(w.m) && n <= |ops|
  {
    exists k: nat :: i < k && Overwritten(w, ops, k, n, fp)
  }

  lemma NoRestartNext(ops: seq<Op>, k: nat, n: nat)
    requires k < n < |ops|
    ensures NoRestart(ops, k, n + 1) <==> !ops[n].Restart? && NoRestart(ops, k, n)
  {
  }

  lemma OverwrittenNext(w: World, ops: seq<Op>, k: nat, n: nat, fp: string)
    requires AllBuckets(w.m) && k < n < |ops|
    ensures Overwritten(w, ops, k, n + 1, fp) <==> !ops[n].Restart? && Overwritten(w, ops, k, n, fp)
  {
    hide Overwrites, After, AllBuckets, NoRestart;
    NoRestartNext(ops, k, n);
  }

  lemma OverwrittenNow(w: World, ops: seq<Op>, n: nat, fp: string)
    requires AllBuckets(w.m) && n < |ops|
    ensures Overwritten(w, ops, n, n + 1, fp) <==> Overwrites(After(w, ops, n).m, ops[n], fp)
  {
    hide Overwrites, After, AllBuckets;
  }

  /** One more operation. */
  lemma LostNext(w: World, ops: seq<Op>, i: nat, n: nat, fp: string)
    requires AllBuckets(w.m) && i < n < |ops|
    ensures IdLost(w, ops, i, n + 1, fp)
        <==> !ops[n].Restart? && (Overwrites(After(w, ops, n).m, ops[n], fp) || IdLost(w, ops, i, n, fp))
  {
    hide Overwrites, Overwritten, After, AllBuckets;
    OverwrittenNow(w, ops, n, fp);
    OnlyRaises(After(w, ops, n).m, ops[n], fp);
    if IdLost(w, ops, i, n + 1, fp) {
      var k: nat :| i < k && Overwritten(w, ops, k, n + 1, fp);
      OverwrittenWithin(w, ops, k, n + 1, fp);
      if k < n {
        OverwrittenNext(w, ops, k, n, fp);
      }
    }
    if !ops[n].Restart? && IdLost(w, ops, i, n, fp) {
      var k: nat :| i < k && Overwritten(w, ops, k, n, fp);
      OverwrittenWithin(w, ops, k, n, fp);
      OverwrittenNext(w, ops, k, n, fp);
    }
  }

  lemma OverwrittenWithin(w: World, ops: seq<Op>, k: nat, n: nat, fp: string)
    requires AllBuckets(w.m) && n <= |ops| && Overwritten(w, ops, k, n, fp)
    ensures k < n
  {
    hide Overwrites, After, AllBuckets, NoRestart;
  }

  ghost predicate Remembers(m: Manager, fp: string, id: nat) {
    fp in m.notified && m.notified[fp].id == id
  }

  lemma SentIsRemembered(w: World, ops: seq<Op>, i: nat, fp: string)
    requires AllBuckets(w.m) && i < |ops| && Sends(w, ops, i, fp)
    ensures Remembers(After(w, ops, i + 1).m, fp, ops[i].e.sentId)
  {
    hide AllBuckets, Cleared, ClearedNow, Restarted, DropResolved, Upsert, SetNotifyId, TokenBucket.Take;
    assert ops[i] == Raise(ops[i].a, ops[i].e);
  }

  lemma RememberNext(w: World, ops: seq<Op>, n: nat, fp: string, id: nat)
    requires AllBuckets(w.m) && n < |ops| && Inv(After(w, ops, n)) && Remembers(After(w, ops, n).m, fp, id)
    requires !ops[n].Restart? && !Sends(w, ops, n, fp) && fp in After(w, ops, n + 1).m.open
    ensures Remembers(After(w, ops, n + 1).m, fp, if Overwrites(After(w, ops, n).m, ops[n], fp) then 0 else id)
  {
    hide Inv, Step, AllBuckets, Overwrites;
    IdAfterStep(After(w, ops, n), ops[n], fp);
  }

  /**
   * While an alert stays open, the id of the last notification sent for it is remembered, unless a later
   * raise was news that was not delivered and no restart has come since: then none is remembered, and
   * the notification can be neither replaced nor withdrawn.
   */
  lemma {:induction false} RememberedUnlessLost(w: World, ops: seq<Op>, i: nat, n: nat, fp: string)
    requires Inv(w) && i < n <= |ops| && AllPossible(w, ops) && Sends(w, ops, i, fp)
    requires forall k :: i < k < n ==> !Sends(w, ops, k, fp)
    requires forall k :: i < k <= n ==> fp in After(w, ops, k).m.open
    ensures Remembers(After(w, ops, n).m, fp, if IdLost(w, ops, i, n, fp) then 0 else ops[i].e.sentId)
    decreases n
  {
    hide Inv, Step, Possible, After, AllPossible, Overwrites, Remembers;
    BucketsOf(w);
    if n == i + 1 {
      SentIsRemembered(w, ops, i, fp);
    } else {
      RememberedUnlessLost(w, ops, i, n - 1, fp);
      RunKeepsInv(w, ops, n - 1);
      LostNext(w, ops, i, n - 1, fp);
      if ops[n - 1].Restart? {
        RestartReloadsId(w, ops, i, n - 1, fp);
        RememberedAfter(w, ops, n, fp, ops[i].e.sentId);
      } else {
        RememberNext(w, ops, n - 1, fp, if IdLost(w, ops, i, n - 1, fp) then 0 else ops[i].e.sentId);
      }
    }
  }

  lemma RememberedAfter(w: World, ops: seq<Op>, n: nat, fp: string, id: nat)
    requires AllBuckets(w.m) && n <= |ops|
    requires fp in After(w, ops, n).m.notified && After(w, ops, n).m.notified[fp].id == id
    ensures Remembers(After(w, ops, n).m, fp, id)
  {
  }

  /** For a notification that was shown, that is an if-and-only-if. */
  lemma ForgottenIff(w: World, ops: seq<Op>, i: nat, n: nat, fp: string)
    requires Inv(w) && i < n <= |ops| && AllPossible(w, ops) && Sends(w, ops, i, fp) && ops[i].e.sentId != 0
    requires forall k :: i < k < n ==> !Sends(w, ops, k, fp)
    requires forall k :: i < k <= n ==> fp in After(w, ops, k).m.open
    ensures Remembers(After(w, ops, n).m, fp, 0) <==> IdLost(w, ops, i, n, fp)
    ensures Remembers(After(w, ops, n).m, fp, ops[i].e.sentId) <==> !IdLost(w, ops, i, n, fp)
  {
    hide Inv, Step, After, AllPossible, IdLost;
    RememberedUnlessLost(w, ops, i, n, fp);
  }

  /** A first start with full buckets. */
  const FIRST: World := World(Manager(map[], map[], map[], FreshBuckets(1, 60, 0), 0, 0), Table(map[], 0))

  /**
   * A run in which the id is lost: a warning is shown, then gets critical while notifications are
   * switched off. The table still has the id.
   */
  lemma EscalationForgetsId() returns (ops: seq<Op>)
    ensures |ops| == 2 && Inv(FIRST) && Sends(FIRST, ops, 0, "cpu.hot") && ops[0].e.sentId == 7
    ensures Remembers(After(FIRST, ops, 2).m, "cpu.hot", 0)
    ensures Carries(After(FIRST, ops, 2).t, "cpu.hot", 7)
  {
    hide Upsert, SetNotifyId, Inv, Carries, TokenBucket.Take;
    var a, b := Alert("cpu.hot", Warning), Alert("cpu.hot", Critical);
    var e, f := Env(0, 0, false, true, Notice, 7), Env(1_000, 1_000, false, false, Notice, 0);
    ops := [Raise(a, e), Raise(b, f)];
    EmptyAgrees(1, 60, 0);
    BucketsOf(FIRST);
    OneToken();
    NotifiesIff(FIRST, a, e);
    SendStoresId(FIRST, a, e);
    var v := Step(FIRST, Raise(a, e)).0;
    assert After(FIRST, ops, 1) == v;
    StepKeepsInv(FIRST, Raise(a, e));
    SentIsRemembered(FIRST, ops, 0, "cpu.hot");
    NotifiesIff(v, b, f);
    OverwritingRaise(v, b, f);
    SentSeverity(FIRST, a, e);
    RaiseKeepsId(v, b, f, "cpu.hot", 7);
  }

  lemma OneToken()
    ensures TokenBucket.Take(FreshBuckets(1, 60, 0)[Warning], 0).1
  {
  }

  lemma SentSeverity(w: World, a: Alert, e: Env)
    requires AllBuckets(w.m) && Step(w, Raise(a, e)).1
    ensures var v := Step(w, Raise(a, e)).0;
      a.fp in v.m.notified && v.m.notified[a.fp] == Note(e.now, e.sentId, a.severity)
  {
    hide Upsert, SetNotifyId, TokenBucket.Take, TokenBucket.Valid;
  }
}
