/** Memory and database agree over every run, and a restart rebuilds the one from the other. */
module AlertProofs {
  import opened Wrappers
  import TokenBucket
  import opened AlertModel

  // ---- the table --------------------------------------------------------------------------

  /** At most one unresolved row per fingerprint: what the partial unique index demands. */
  predicate OneEach(t: Table) {
    forall i, j :: i in t.rows && j in t.rows && Unresolved(t, i) && Unresolved(t, j) && t.rows[i].fp == t.rows[j].fp
                   ==> i == j
  }

  predicate TableInv(t: Table) {
    && OneEach(t)
    && (forall i :: i in t.rows ==> i < t.next)
    && (forall i :: i in t.rows ==> 0 <= t.rows[i].severity <= 3)
  }

  /** The open row of every fingerprint but this one is as it was. */
  ghost predicate SameElsewhere(t: Table, u: Table, fp: string) {
    forall g :: g != fp ==> SameRow(t, u, g)
  }

  ghost predicate SameRow(t: Table, u: Table, g: string) {
    && (HasOpen(u, g) <==> HasOpen(t, g))
    && (HasOpen(t, g) ==> OpenRow(u, g) == OpenRow(t, g))
  }

  lemma OpenRowIs(t: Table, id: nat, fp: string)
    requires OneEach(t) && IsOpen(t, id, fp)
    ensures HasOpen(t, fp) && OpenId(t, fp) == id && OpenRow(t, fp) == t.rows[id]
  {
    assert IsOpen(t, OpenId(t, fp), fp);
    assert Unresolved(t, id) && Unresolved(t, OpenId(t, fp));
  }

  /** Tables whose rows agree on a fingerprint's open ids have the same open row. */
  lemma SameRowBy(t: Table, u: Table, g: string)
    requires OneEach(t) && OneEach(u)
    requires forall i :: IsOpen(u, i, g) ==> IsOpen(t, i, g)
    requires forall i :: IsOpen(t, i, g) ==> IsOpen(u, i, g) && u.rows[i] == t.rows[i]
    ensures SameRow(t, u, g)
  {
    assert HasOpen(u, g) ==> IsOpen(t, OpenId(u, g), g);
    if HasOpen(t, g) {
      OpenRowIs(t, OpenId(t, g), g);
      OpenRowIs(u, OpenId(t, g), g);
    }
  }

  lemma RefireEffect(t: Table, a: Alert, wall: int)
    requires TableInv(t) && HasOpen(t, a.fp)
    ensures TableInv(Upsert(t, a, wall).0) && HasOpen(Upsert(t, a, wall).0, a.fp)
    ensures OpenRow(Upsert(t, a, wall).0, a.fp) == Refired(OpenRow(t, a.fp), a, wall)
    ensures SameElsewhere(t, Upsert(t, a, wall).0, a.fp)
  {
    hide Refired;
    var u := Upsert(t, a, wall).0;
    var id := OpenId(t, a.fp);
    assert u.rows == t.rows[id := Refired(t.rows[id], a, wall)];
    RefiredFacts(t.rows[id], a, wall);
    assert forall i :: i in u.rows ==> Unresolved(u, i) == Unresolved(t, i) && u.rows[i].fp == t.rows[i].fp;
    OpenRowIs(t, id, a.fp);
    OpenRowIs(u, id, a.fp);
    forall g | g != a.fp ensures SameRow(t, u, g) {
      SameRowBy(t, u, g);
    }
  }

  lemma RefiredFacts(r: Row, a: Alert, wall: int)
    ensures Refired(r, a, wall).fp == r.fp && Refired(r, a, wall).resolvedTs == r.resolvedTs
    ensures Refired(r, a, wall).severity == Rank(a.severity)
  {
  }

  lemma FirstFireEffect(t: Table, a: Alert, wall: int)
    requires TableInv(t) && !HasOpen(t, a.fp)
    ensures TableInv(Upsert(t, a, wall).0) && HasOpen(Upsert(t, a, wall).0, a.fp)
    ensures OpenRow(Upsert(t, a, wall).0, a.fp) == Row(a.fp, Rank(a.severity), wall, 1, None, 0)
    ensures SameElsewhere(t, Upsert(t, a, wall).0, a.fp)
  {
    var u := Upsert(t, a, wall).0;
    assert t.next !in t.rows;
    assert u.rows == t.rows[t.next := Row(a.fp, Rank(a.severity), wall, 1, None, 0)];
    hide Upsert;
    assert forall i :: i in t.rows && Unresolved(t, i) && t.rows[i].fp == a.fp ==> IsOpen(t, i, a.fp);
    assert forall i :: i in u.rows && i != t.next ==> i in t.rows && u.rows[i] == t.rows[i];
    OpenRowIs(u, t.next, a.fp);
    forall g | g != a.fp ensures SameRow(t, u, g) {
      SameRowBy(t, u, g);
    }
  }

  /** What one upsert does: the one open row takes the new severity; it is new if none was open or it got worse. */
  lemma UpsertEffect(t: Table, a: Alert, wall: int)
    requires TableInv(t)
    ensures TableInv(Upsert(t, a, wall).0)
    ensures HasOpen(Upsert(t, a, wall).0, a.fp)
    ensures OpenRow(Upsert(t, a, wall).0, a.fp).severity == Rank(a.severity)
    ensures SameElsewhere(t, Upsert(t, a, wall).0, a.fp)
    ensures Upsert(t, a, wall).1 <==> (HasOpen(t, a.fp) ==> Rank(a.severity) > OpenRow(t, a.fp).severity)
  {
    hide TableInv, SameElsewhere;
    if HasOpen(t, a.fp) {
      RefireEffect(t, a, wall);
    } else {
      FirstFireEffect(t, a, wall);
    }
  }

  lemma ResolveEffect(t: Table, fp: string, wall: int)
    requires TableInv(t)
    ensures TableInv(Resolve(t, fp, wall)) && !HasOpen(Resolve(t, fp, wall), fp)
    ensures SameElsewhere(t, Resolve(t, fp, wall), fp)
  {
    var u := Resolve(t, fp, wall);
    assert forall i :: i in u.rows && Unresolved(u, i) ==> Unresolved(t, i) && u.rows[i] == t.rows[i];
    forall g | g != fp ensures SameRow(t, u, g) {
      SameRowBy(t, u, g);
    }
  }

  lemma SetNotifyIdEffect(t: Table, fp: string, id: nat)
    requires TableInv(t)
    ensures TableInv(SetNotifyId(t, fp, id))
    ensures HasOpen(SetNotifyId(t, fp, id), fp) <==> HasOpen(t, fp)
    ensures HasOpen(t, fp) ==> OpenRow(SetNotifyId(t, fp, id), fp) == OpenRow(t, fp).(notifyId := id)
    ensures SameElsewhere(t, SetNotifyId(t, fp, id), fp)
  {
    var u := SetNotifyId(t, fp, id);
    assert forall i :: i in u.rows ==> Unresolved(u, i) == Unresolved(t, i) && u.rows[i].fp == t.rows[i].fp;
    assert HasOpen(u, fp) ==> IsOpen(t, OpenId(u, fp), fp);
    if HasOpen(t, fp) {
      OpenRowIs(u, OpenId(t, fp), fp);
    }
    forall g | g != fp ensures SameRow(t, u, g) {
      SameRowBy(t, u, g);
    }
  }

  /** Retention never touches an open row. */
  lemma DropEffect(t: Table, cutoff: int, chosen: set<nat>)
    requires TableInv(t)
    ensures TableInv(DropResolved(t, cutoff, chosen))
    ensures forall g :: SameRow(t, DropResolved(t, cutoff, chosen), g)
  {
    var u := DropResolved(t, cutoff, chosen);
    assert forall i :: i in u.rows ==> Unresolved(u, i) == Unresolved(t, i) && u.rows[i] == t.rows[i];
    forall g ensures SameRow(t, u, g) {
      SameRowBy(t, u, g);
    }
  }

  // ---- memory and database ----------------------------------------------------------------

  /** Of one fingerprint: it is open in memory exactly if a row is, at the same severity. */
  ghost predicate Agree(w: World, fp: string) {
    && (fp in w.m.open <==> HasOpen(w.t, fp))
    && (HasOpen(w.t, fp) ==> FromRank(OpenRow(w.t, fp).severity) == w.m.open[fp]
                             && OpenRow(w.t, fp).severity == Rank(w.m.open[fp]))
  }

  predicate Subkeys(m: Manager) {
    m.clearing.Keys <= m.open.Keys && m.notified.Keys <= m.open.Keys
  }

  ghost predicate Inv(w: World) {
    && TableInv(w.t)
    && AllBuckets(w.m)
    && Subkeys(w.m)
    && forall fp :: Agree(w, fp)
  }

  /** A restart that loses nothing and reads what the query may return; every other operation is possible anywhere. */
  ghost predicate Possible(w: World, op: Op) {
    op.Restart? ==> Reloads(w.t, op.ids) && |OpenIds(w.t)| <= RELOAD_LIMIT
  }

  lemma AgreeElsewhere(w: World, v: World, fp: string)
    requires forall g :: Agree(w, g)
    requires SameElsewhere(w.t, v.t, fp)
    requires forall g :: g != fp ==> (g in v.m.open <==> g in w.m.open)
    requires forall g :: g != fp && g in w.m.open ==> v.m.open[g] == w.m.open[g]
    requires Agree(v, fp)
    ensures forall g :: Agree(v, g)
  {
    hide HasOpen, OpenRow;
    forall g ensures Agree(v, g) {
      if g != fp {
        assert Agree(w, g) && SameRow(w.t, v.t, g);
      }
    }
  }

  lemma RaiseKeepsInv(w: World, a: Alert, e: Env)
    requires Inv(w)
    ensures Inv(Step(w, Raise(a, e)).0)
  {
    hide Upsert, HasOpen, OpenRow, SetNotifyId, TableInv, Due, TokenBucket.Take;
    StepKeepsBuckets(w, Raise(a, e));
    UpsertEffect(w.t, a, e.wall);
    var u := Upsert(w.t, a, e.wall).0;
    SetNotifyIdEffect(u, a.fp, e.sentId);
    var v := Step(w, Raise(a, e)).0;
    assert v.t == u || v.t == SetNotifyId(u, a.fp, e.sentId);
    SameElsewhereTrans(w.t, u, v.t, a.fp);
    assert v.m.open == w.m.open[a.fp := a.severity];
    AgreeElsewhere(w, v, a.fp);
  }

  lemma SameElsewhereTrans(t: Table, u: Table, v: Table, fp: string)
    requires SameElsewhere(t, u, fp) && (v == u || SameElsewhere(u, v, fp))
    ensures SameElsewhere(t, v, fp)
  {
    hide HasOpen, OpenRow;
    forall g | g != fp ensures SameRow(t, v, g) {
      assert SameRow(t, u, g);
      assert v == u || SameRow(u, v, g);
    }
  }

  lemma ForgetKeepsInv(w: World, fp: string, wall: int)
    requires Inv(w)
    ensures Inv(World(Forgotten(w.m, fp), Resolve(w.t, fp, wall)))
  {
    hide HasOpen, OpenRow, Resolve, TableInv;
    ResolveEffect(w.t, fp, wall);
    AgreeElsewhere(w, World(Forgotten(w.m, fp), Resolve(w.t, fp, wall)), fp);
  }

  lemma RetentionKeepsInv(w: World, cutoff: int, chosen: set<nat>)
    requires Inv(w)
    ensures Inv(w.(t := DropResolved(w.t, cutoff, chosen)))
  {
    hide HasOpen, OpenRow, DropResolved, TableInv;
    DropEffect(w.t, cutoff, chosen);
    var v := w.(t := DropResolved(w.t, cutoff, chosen));
    forall g ensures Agree(v, g) {
      assert Agree(w, g) && SameRow(w.t, v.t, g);
    }
  }

  /** A row that is reloaded puts its fingerprint into memory, at its severity and already notified. */
  lemma RestartedAt(t: Table, ids: set<nat>, now: int, burst: nat, refillS: int, fp: string)
    requires TableInv(t)
    ensures fp in Restarted(t, ids, now, burst, refillS).open <==> (HasOpen(t, fp) && OpenId(t, fp) in ids)
    ensures var m := Restarted(t, ids, now, burst, refillS);
            fp in m.open ==>
              m.open[fp] == FromRank(OpenRow(t, fp).severity)
              && fp in m.notified && m.notified[fp] == Note(now, OpenRow(t, fp).notifyId, m.open[fp])
  {
    if Listed(t, ids, fp) {
      var id :| id in ids && IsOpen(t, id, fp);
      OpenRowIs(t, id, fp);
      forall i | i in ids && IsOpen(t, i, fp) ensures i == id {
        OpenRowIs(t, i, fp);
      }
    }
  }

  lemma RestartKeepsInv(w: World, ids: set<nat>, now: int, burst: nat, refillS: int)
    requires Inv(w) && Reloads(w.t, ids) && |OpenIds(w.t)| <= RELOAD_LIMIT
    ensures Inv(w.(m := Restarted(w.t, ids, now, burst, refillS)))
    ensures ids == OpenIds(w.t)
  {
    var v := w.(m := Restarted(w.t, ids, now, burst, refillS));
    StepKeepsBuckets(w, Restart(ids, now, burst, refillS));
    SubsetOfSameSize(ids, OpenIds(w.t));
    forall fp ensures Agree(v, fp) {
      RestartedAt(w.t, ids, now, burst, refillS, fp);
    }
  }

  lemma SubsetOfSameSize<T>(a: set<T>, b: set<T>)
    requires a <= b && |a| == |b|
    ensures a == b
  {
    assert |b| == |a| + |b - a| by {
      assert b == a + (b - a);
    }
    assert b == a + (b - a);
  }

  lemma SubsetSize<T>(a: set<T>, b: set<T>)
    requires a <= b
    ensures |a| <= |b|
  {
    assert |b| == |a| + |b - a| by {
      assert b == a + (b - a);
    }
  }

  /** Every operation keeps memory and database in agreement. */
  lemma StepKeepsInv(w: World, op: Op)
    requires Inv(w) && Possible(w, op)
    ensures Inv(Step(w, op).0)
  {
    hide Inv, Raised, Restarted, Resolve, DropResolved;
    assert AllBuckets(w.m) by {
      BucketsOf(w);
    }
    match op
    case Raise(a, e) => RaiseKeepsInv(w, a, e);
    case Clear(fp, now, wall) =>
      ForgetKeepsInv(w, fp, wall);
      HoldKeepsInv(w, fp, now);
    case ClearNow(fp, wall) => ForgetKeepsInv(w, fp, wall);
    case Retention(cutoff, chosen) => RetentionKeepsInv(w, cutoff, chosen);
    case Restart(ids, at, burst, refillS) => RestartKeepsInv(w, ids, at, burst, refillS);
  }

  lemma BucketsOf(w: World)
    requires Inv(w)
    ensures AllBuckets(w.m)
  {
  }

  lemma HoldKeepsInv(w: World, fp: string, now: int)
    requires Inv(w)
    ensures fp in w.m.open ==> Inv(w.(m := w.m.(clearing := w.m.clearing[fp := Since(w.m, fp, now)])))
  {
    hide HasOpen, OpenRow, TableInv;
    var v := w.(m := w.m.(clearing := w.m.clearing[fp := Since(w.m, fp, now)]));
    forall g ensures Agree(v, g) {
      assert Agree(w, g);
    }
  }

  ghost predicate AllPossible(w: World, ops: seq<Op>)
    requires AllBuckets(w.m)
  {
    forall k :: 0 <= k < |ops| ==> Possible(After(w, ops, k), ops[k])
  }

  /** Over every run that starts in agreement, memory and database stay in agreement. */
  lemma {:induction false} RunKeepsInv(w: World, ops: seq<Op>, n: nat)
    requires Inv(w) && n <= |ops| && AllPossible(w, ops)
    ensures Inv(After(w, ops, n))
    decreases n
  {
    hide Inv, Possible, Step;
    BucketsOf(w);
    if n > 0 {
      RunKeepsInv(w, ops, n - 1);
      assert Possible(After(w, ops, n - 1), ops[n - 1]);
      StepKeepsInv(After(w, ops, n - 1), ops[n - 1]);
    }
  }

  /** The daemon's first start, over an empty table. */
  lemma EmptyAgrees(burst: nat, refillS: int, now: int)
    ensures Inv(World(Manager(map[], map[], map[], FreshBuckets(burst, refillS, now), 0, 0), Table(map[], 0)))
  {
    FreshBucketsAreValid(burst, refillS, now);
  }

  lemma RestartRebuilds(w: World, ids: set<nat>, now: int, burst: nat, refillS: int)
    requires Inv(w) && Reloads(w.t, ids) && |OpenIds(w.t)| <= RELOAD_LIMIT
    ensures Restarted(w.t, ids, now, burst, refillS).open == w.m.open
  {
    hide Restarted, HasOpen, OpenRow, TableInv, Reloads, OpenIds;
    var m := Restarted(w.t, ids, now, burst, refillS);
    RestartKeepsInv(w, ids, now, burst, refillS);
    forall fp ensures fp in m.open <==> fp in w.m.open {
      assert Agree(w, fp) && Agree(w.(m := m), fp);
    }
    forall fp | fp in m.open ensures m.open[fp] == w.m.open[fp] {
      assert Agree(w, fp) && Agree(w.(m := m), fp);
    }
  }

  lemma RestartLoses(w: World, ids: set<nat>, now: int, burst: nat, refillS: int)
    requires Inv(w) && Reloads(w.t, ids) && |OpenIds(w.t)| > RELOAD_LIMIT
    ensures Restarted(w.t, ids, now, burst, refillS).open != w.m.open
  {
    hide Restarted;
    assert exists id :: id in OpenIds(w.t) && id !in ids by {
      if OpenIds(w.t) <= ids {
        SubsetSize(OpenIds(w.t), ids);
      }
    }
    var id :| id in OpenIds(w.t) && id !in ids;
    var fp := w.t.rows[id].fp;
    OpenRowIs(w.t, id, fp);
    RestartedAt(w.t, ids, now, burst, refillS, fp);
    assert Agree(w, fp);
  }

  /** A restart rebuilds the open alerts, with their severities, exactly if no more than 500 are open. */
  lemma RestartRebuildsIff(w: World, ids: set<nat>, now: int, burst: nat, refillS: int)
    requires Inv(w) && Reloads(w.t, ids)
    ensures Restarted(w.t, ids, now, burst, refillS).open == w.m.open <==> |OpenIds(w.t)| <= 500
  {
    if |OpenIds(w.t)| <= RELOAD_LIMIT {
      RestartRebuilds(w, ids, now, burst, refillS);
    } else {
      RestartLoses(w, ids, now, burst, refillS);
    }
  }
}
