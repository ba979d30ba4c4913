/** The alert manager and the alert table as objects, each operation in the source's order of effects. */
module AlertManagement {
  import opened Wrappers
  import opened TokenBucket
  import opened AlertModel
  import opened AlertProofs

  /** The `alert` table. */
  class AlertTable {
    var rows: map<nat, Row>
    var next: nat

    function State(): Table
      reads this
    {
      Table(rows, next)
    }

    constructor ()
      ensures State() == Table(map[], 0)
    {
      rows, next := map[], 0;
    }

    method UpsertAlert(a: Alert, wall: int) returns (isNew: bool)
      requires TableInv(State())
      modifies this
      ensures (State(), isNew) == Upsert(old(State()), a, wall) && TableInv(State())
    {
      ghost var before := State();
      UpsertEffect(before, a, wall);
      if id: nat :| id in rows && rows[id].resolvedTs.None? && rows[id].fp == a.fp {
        OpenRowIs(before, id, a.fp);
        var oldSev := rows[id].severity;
        var delta := wall - rows[id].lastTs;
        var distinct := delta >= 0 && delta >= CooldownS(a.severity) * 1000 && delta < MAX_PLAUSIBLE_REFIRE_MS;
        var count := rows[id].count + if distinct then 1 else 0;
        rows := rows[id := rows[id].(lastTs := wall, count := count, severity := Rank(a.severity))];
        isNew := Rank(a.severity) > oldSev;
      } else {
        assert forall id: nat :: !IsOpen(before, id, a.fp);
        rows, next := rows[next := Row(a.fp, Rank(a.severity), wall, 1, None, 0)], next + 1;
        isNew := true;
      }
    }

    method ResolveAlert(fp: string, wall: int) returns (found: bool)
      requires TableInv(State())
      modifies this
      ensures State() == Resolve(old(State()), fp, wall) && TableInv(State())
      ensures found <==> HasOpen(old(State()), fp)
    {
      ghost var before := State();
      ResolveEffect(before, fp, wall);
      found := false;
      if id: nat :| id in rows && rows[id].resolvedTs.None? && rows[id].fp == fp {
        OpenRowIs(before, id, fp);
        forall i | IsOpen(before, i, fp) ensures i == id {
          OpenRowIs(before, i, fp);
        }
        rows := rows[id := rows[id].(resolvedTs := Some(wall))];
        found := true;
      }
      assert rows == Resolve(before, fp, wall).rows;
    }

    method StoreNotifyId(fp: string, notifyId: nat)
      requires TableInv(State())
      modifies this
      ensures State() == SetNotifyId(old(State()), fp, notifyId) && TableInv(State())
    {
      ghost var before := State();
      SetNotifyIdEffect(before, fp, notifyId);
      if id: nat :| id in rows && rows[id].resolvedTs.None? && rows[id].fp == fp {
        OpenRowIs(before, id, fp);
        forall i | IsOpen(before, i, fp) ensures i == id {
          OpenRowIs(before, i, fp);
        }
        rows := rows[id := rows[id].(notifyId := notifyId)];
      }
      assert rows == SetNotifyId(before, fp, notifyId).rows;
    }
  }

  class AlertManager {
    var open: map<string, Severity>
    var notified: map<string, Note>
    var clearing: map<string, int>
    var buckets: map<Severity, Tokens>
    var totalRaised: nat
    var totalSuppressed: nat

    function State(): Manager
      reads this
    {
      Manager(open, notified, clearing, buckets, totalRaised, totalSuppressed)
    }

    /** Rebuild from the rows the reload query returned, one at a time. */
    constructor (store: AlertTable, reloaded: seq<nat>, now: int, burst: nat, refillS: int)
      requires TableInv(store.State())
      requires Reloads(store.State(), Ids(reloaded))
      ensures State() == Restarted(store.State(), Ids(reloaded), now, burst, refillS)
    {
      open, notified, clearing := map[], map[], map[];
      buckets := FreshBuckets(burst, refillS, now);
      totalRaised, totalSuppressed := 0, 0;
      new;
      hide Restarted, TableInv, FreshBuckets, Reloads;
      ghost var t := store.State();
      NothingReloaded(t, now, burst, refillS);
      assert Ids(reloaded[..0]) == {};
      for i := 0 to |reloaded|
        invariant State() == Restarted(t, Ids(reloaded[..i]), now, burst, refillS)
      {
        ReloadOne(t, reloaded, i, now, burst, refillS);
        var row := store.rows[reloaded[i]];
        open := open[row.fp := FromRank(row.severity)];
        notified := notified[row.fp := Note(now, row.notifyId, FromRank(row.severity))];
      }
      assert reloaded[..|reloaded|] == reloaded;
    }

    method RaiseAlert(store: AlertTable, a: Alert, e: Env) returns (sent: bool)
      requires TableInv(store.State()) && AllBuckets(State())
      modifies this, store
      ensures TableInv(store.State())
      ensures (State(), store.State(), sent) == Raised(old(State()), old(store.State()), a, e)
    {
      assert a.severity in buckets;
      hide Upsert, TableInv, AllBuckets, Notified;
      clearing := clearing - {a.fp};
      if e.muted {
        totalSuppressed := totalSuppressed + 1;
        var _ := store.UpsertAlert(a, e.wall);
        open := open[a.fp := a.severity];
        return false;
      }
      var isNew := store.UpsertAlert(a, e.wall);
      open := open[a.fp := a.severity];
      if isNew {
        totalRaised := totalRaised + 1;
      }
      if a.fp in notified {
        var note := notified[a.fp];
        var escalated := Rank(a.severity) > Rank(note.severity);
        if !escalated && e.now - note.last < CooldownS(a.severity) * 1000 {
          return false;
        }
        if !escalated && !isNew {
          return false;
        }
      }
      sent := Notify(store, a, e);
    }

    /** The end of `raise`, once a notification is due: configuration, rate limit, delivery. */
    method Notify(store: AlertTable, a: Alert, e: Env) returns (sent: bool)
      requires TableInv(store.State()) && a.severity in buckets
      modifies this, store
      ensures TableInv(store.State())
      ensures (State(), store.State(), sent) == Notified(old(State()), old(store.State()), a, e)
    {
      hide SetNotifyId, TableInv, Take;
      if !e.desktop || Rank(a.severity) < Rank(e.minNotify) {
        notified := notified[a.fp := Note(e.now, 0, a.severity)];
        return false;
      }
      var (bucket, allowed) := Take(buckets[a.severity], e.now);
      buckets := buckets[a.severity := bucket];
      if !allowed {
        totalSuppressed := totalSuppressed + 1;
        notified := notified[a.fp := Note(e.now, 0, a.severity)];
        return false;
      }
      notified := notified[a.fp := Note(e.now, e.sentId, a.severity)];
      store.StoreNotifyId(a.fp, e.sentId);
      return true;
    }

    method ClearAlert(store: AlertTable, fp: string, now: int, wall: int)
      requires TableInv(store.State())
      modifies this, store
      ensures TableInv(store.State())
      ensures (State(), store.State()) == Cleared(old(State()), old(store.State()), fp, now, wall)
    {
      hide Resolve, TableInv;
      if fp !in open {
        return;
      }
      if fp !in clearing {
        clearing := clearing[fp := now];
      }
      var since := clearing[fp];
      assert clearing == old(clearing)[fp := since];
      if (now - since) / 1000 < MIN_RESOLVE_HOLD_S {
        return;
      }
      open, clearing := open - {fp}, clearing - {fp};
      notified := notified - {fp};
      var _ := store.ResolveAlert(fp, wall);
    }
  }

  // ---- reloading row by row ---------------------------------------------------------------

  function Ids(ids: seq<nat>): set<nat> {
    set id | id in ids
  }

  lemma NothingReloaded(t: Table, now: int, burst: nat, refillS: int)
    ensures Restarted(t, {}, now, burst, refillS)
         == Manager(map[], map[], map[], FreshBuckets(burst, refillS, now), 0, 0)
  {
    var m := Restarted(t, {}, now, burst, refillS);
    assert m.open == map[] && m.notified == map[];
  }

  /** One more reloaded row adds its fingerprint to both maps. */
  lemma ReloadOne(t: Table, ids: seq<nat>, i: nat, now: int, burst: nat, refillS: int)
    requires TableInv(t) && i < |ids| && Ids(ids) <= OpenIds(t)
    ensures ids[i] in t.rows
    ensures var r := t.rows[ids[i]];
            var m := Restarted(t, Ids(ids[..i]), now, burst, refillS);
            Restarted(t, Ids(ids[..i + 1]), now, burst, refillS)
            == m.(open := m.open[r.fp := FromRank(r.severity)],
                  notified := m.notified[r.fp := Note(now, r.notifyId, FromRank(r.severity))])
  {
    hide FreshBuckets, Restarted, TableInv;
    assert ids[i] in Ids(ids);
    assert Unresolved(t, ids[i]);
    assert Ids(ids[..i + 1]) == Ids(ids[..i]) + {ids[i]} by {
      assert ids[..i + 1] == ids[..i] + [ids[i]];
    }
    hide *;
    var r := t.rows[ids[i]];
    var s := Ids(ids[..i]);
    var m := Restarted(t, s, now, burst, refillS);
    var n := Restarted(t, s + {ids[i]}, now, burst, refillS);
    SameKeys(t, s, now, burst, refillS);
    SameKeys(t, s + {ids[i]}, now, burst, refillS);
    forall fp ensures ReloadedAt(m, n, r, now, fp) {
      ReloadOneAt(t, s, ids[i], now, burst, refillS, fp);
    }
    ReloadedMaps(m, n, r, now);
  }

  lemma ReloadedMaps(m: Manager, n: Manager, r: Row, now: int)
    requires forall fp :: ReloadedAt(m, n, r, now, fp)
    ensures n.open == m.open[r.fp := FromRank(r.severity)]
    ensures n.notified == m.notified[r.fp := Note(now, r.notifyId, FromRank(r.severity))]
  {
    hide FromRank;
    forall fp ensures fp in n.open <==> fp in m.open || fp == r.fp {
      assert ReloadedAt(m, n, r, now, fp);
    }
    forall fp ensures fp in n.notified <==> fp in m.notified || fp == r.fp {
      assert ReloadedAt(m, n, r, now, fp);
    }
    forall fp | fp in n.open ensures n.open[fp] == m.open[r.fp := FromRank(r.severity)][fp] {
      assert ReloadedAt(m, n, r, now, fp);
    }
    forall fp | fp in n.notified
      ensures n.notified[fp] == m.notified[r.fp := Note(now, r.notifyId, FromRank(r.severity))][fp]
    {
      assert ReloadedAt(m, n, r, now, fp);
    }
    assert n.open == m.open[r.fp := FromRank(r.severity)];
    assert n.notified == m.notified[r.fp := Note(now, r.notifyId, FromRank(r.severity))];
  }

  /** Of one fingerprint: reloading the row adds it, or leaves it as it was. */
  predicate ReloadedAt(m: Manager, n: Manager, r: Row, now: int, fp: string) {
    && (fp in n.open <==> fp in m.open || fp == r.fp)
    && (fp in n.notified <==> fp in m.notified || fp == r.fp)
    && (fp in n.open ==> n.open[fp] == if fp == r.fp || fp !in m.open then FromRank(r.severity) else m.open[fp])
    && (fp in n.notified ==>
          n.notified[fp] == if fp == r.fp || fp !in m.notified then Note(now, r.notifyId, FromRank(r.severity))
                            else m.notified[fp])
  }

  lemma ReloadOneAt(t: Table, s: set<nat>, id: nat, now: int, burst: nat, refillS: int, fp: string)
    requires TableInv(t) && Unresolved(t, id)
    ensures ReloadedAt(Restarted(t, s, now, burst, refillS), Restarted(t, s + {id}, now, burst, refillS),
                       t.rows[id], now, fp)
  {
    hide Restarted, TableInv, HasOpen, OpenRow, FreshBuckets;
    assert OneEach(t) by {
      OneEachOf(t);
    }
    OpenRowIs(t, id, t.rows[id].fp);
    hide OneEach;
    SameKeys(t, s, now, burst, refillS);
    SameKeys(t, s + {id}, now, burst, refillS);
    RestartedAt(t, s, now, burst, refillS, fp);
    RestartedAt(t, s + {id}, now, burst, refillS, fp);
    var m := Restarted(t, s, now, burst, refillS);
    assert fp in m.open.Keys <==> fp in m.notified.Keys;
  }

  lemma OneEachOf(t: Table)
    requires TableInv(t)
    ensures OneEach(t)
  {
  }

  lemma SameKeys(t: Table, ids: set<nat>, now: int, burst: nat, refillS: int)
    ensures var m := Restarted(t, ids, now, burst, refillS);
            && m.open.Keys == m.notified.Keys
            && m == Manager(m.open, m.notified, map[], FreshBuckets(burst, refillS, now), 0, 0)
  {
  }
}
