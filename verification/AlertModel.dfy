/** Alert rows, the in-memory alert manager, and one step of each operation on the two. */
module AlertModel {
  import opened Wrappers
  import opened TokenBucket

  // ---- severities -------------------------------------------------------------------------

  datatype Severity = Info | Notice | Warning | Critical

  /** `severity as i64` */
  function Rank(s: Severity): int {
    match s
    case Info => 0
    case Notice => 1
    case Warning => 2
    case Critical => 3
  }

  /** `from_i64`; whatever is out of range is critical. */
  function FromRank(v: int): Severity {
    if v == 0 then Info else if v == 1 then Notice else if v == 2 then Warning else Critical
  }

  function CooldownS(s: Severity): int {
    match s
    case Info => 300
    case Notice => 300
    case Warning => 180
    case Critical => 60
  }

  /** Severities survive the database, and order there as they do in memory. */
  lemma SeverityRoundTrip(s: Severity, v: int)
    ensures FromRank(Rank(s)) == s
    ensures Rank(FromRank(v)) == v <==> 0 <= v <= 3
  {
  }

  // ---- the alert table --------------------------------------------------------------------

  datatype Alert = Alert(fp: string, severity: Severity)

  datatype Row = Row(fp: string, severity: int, lastTs: int, count: nat, resolvedTs: Option<int>, notifyId: nat)

  /** Rows by id; ids from `next` on have not been used. */
  datatype Table = Table(rows: map<nat, Row>, next: nat)

  predicate IsOpen(t: Table, id: nat, fp: string) {
    id in t.rows && t.rows[id].resolvedTs.None? && t.rows[id].fp == fp
  }

  ghost predicate HasOpen(t: Table, fp: string) {
    exists id :: IsOpen(t, id, fp)
  }

  ghost function OpenId(t: Table, fp: string): (id: nat)
    requires HasOpen(t, fp)
    ensures IsOpen(t, id, fp)
  {
    var id :| IsOpen(t, id, fp);
    id
  }

  ghost function OpenRow(t: Table, fp: string): Row
    requires HasOpen(t, fp)
  {
    t.rows[OpenId(t, fp)]
  }

  const MAX_PLAUSIBLE_REFIRE_MS := 21_600_000

  /** Whether a re-fire counts as a new occurrence. */
  predicate Distinct(delta: int, s: Severity) {
    0 <= delta && CooldownS(s) * 1000 <= delta < MAX_PLAUSIBLE_REFIRE_MS
  }

  function Refired(r: Row, a: Alert, wall: int): Row {
    r.(severity := Rank(a.severity), lastTs := wall,
       count := r.count + if Distinct(wall - r.lastTs, a.severity) then 1 else 0)
  }

  /** `upsert_alert`: the new table, and whether the alert is new or worse. */
  ghost function Upsert(t: Table, a: Alert, wall: int): (Table, bool) {
    if HasOpen(t, a.fp) then
      var id := OpenId(t, a.fp);
      (t.(rows := t.rows[id := Refired(t.rows[id], a, wall)]), Rank(a.severity) > t.rows[id].severity)
    else
      (Table(t.rows[t.next := Row(a.fp, Rank(a.severity), wall, 1, None, 0)], t.next + 1), true)
  }

  /** `resolve_alert` */
  function Resolve(t: Table, fp: string, wall: int): Table {
    t.(rows := map id | id in t.rows ::
         if IsOpen(t, id, fp) then t.rows[id].(resolvedTs := Some(wall)) else t.rows[id])
  }

  /** `set_notify_id` */
  function SetNotifyId(t: Table, fp: string, notifyId: nat): Table {
    t.(rows := map id | id in t.rows ::
         if IsOpen(t, id, fp) then t.rows[id].(notifyId := notifyId) else t.rows[id])
  }

  /** Retention deletes old resolved rows, in chunks, so not always all of them. */
  function DropResolved(t: Table, cutoff: int, chosen: set<nat>): Table {
    t.(rows := map id | id in t.rows
                        && !(id in chosen && t.rows[id].resolvedTs.Some? && t.rows[id].lastTs < cutoff) :: t.rows[id])
  }

  // ---- the manager ------------------------------------------------------------------------

  /** When, under which id and at what severity an alert was last notified. */
  datatype Note = Note(last: int, id: nat, severity: Severity)

  datatype Manager = Manager(
    open: map<string, Severity>, notified: map<string, Note>, clearing: map<string, int>,
    buckets: map<Severity, Tokens>, totalRaised: nat, totalSuppressed: nat)

  const MIN_RESOLVE_HOLD_S := 120

  function FreshBuckets(burst: nat, refillS: int, now: int): map<Severity, Tokens> {
    var b := New(burst, refillS, now);
    map[Info := b, Notice := b, Warning := b, Critical := b]
  }

  lemma FreshBucketsAreValid(burst: nat, refillS: int, now: int)
    ensures forall s: Severity :: s in FreshBuckets(burst, refillS, now) && Valid(FreshBuckets(burst, refillS, now)[s])
  {
    NewIsValid(burst, refillS, now);
    forall s: Severity ensures s in FreshBuckets(burst, refillS, now) {
      match s
      case Info =>
      case Notice =>
      case Warning =>
      case Critical =>
    }
  }

  /** Clocks, configuration and answers a raise meets: mute rules and `sentId` come from outside. */
  datatype Env = Env(now: int, wall: int, muted: bool, desktop: bool, minNotify: Severity, sentId: nat)

  /** The dedup gate: is a notification due at all? */
  predicate Due(m: Manager, a: Alert, now: int, isNew: bool) {
    a.fp !in m.notified ||
    var n := m.notified[a.fp];
    Rank(a.severity) > Rank(n.severity) || (now - n.last >= CooldownS(a.severity) * 1000 && isNew)
  }

  function Noted(m: Manager, a: Alert, now: int, id: nat): Manager {
    m.(notified := m.notified[a.fp := Note(now, id, a.severity)])
  }

  /** What `raise` does once a notification is due. */
  function Notified(m: Manager, t: Table, a: Alert, e: Env): (Manager, Table, bool)
    requires a.severity in m.buckets
  {
    if !e.desktop || Rank(a.severity) < Rank(e.minNotify) then (Noted(m, a, e.now, 0), t, false)
    else
      var (b, ok) := Take(m.buckets[a.severity], e.now);
      var taken := m.(buckets := m.buckets[a.severity := b]);
      if !ok then (Noted(taken.(totalSuppressed := m.totalSuppressed + 1), a, e.now, 0), t, false)
      else (Noted(taken, a, e.now, e.sentId), SetNotifyId(t, a.fp, e.sentId), true)
  }

  /** `raise`: manager, table, and whether a notification was sent. */
  ghost function Raised(m: Manager, t: Table, a: Alert, e: Env): (Manager, Table, bool)
    requires a.severity in m.buckets
  {
    var (t', isNew) := Upsert(t, a, e.wall);
    var marked := m.(clearing := m.clearing - {a.fp}, open := m.open[a.fp := a.severity]);
    if e.muted then (marked.(totalSuppressed := m.totalSuppressed + 1), t', false)
    else
      var counted := marked.(totalRaised := m.totalRaised + if isNew then 1 else 0);
      if Due(m, a, e.now, isNew) then Notified(counted, t', a, e) else (counted, t', false)
  }

  function Forgotten(m: Manager, fp: string): Manager {
    m.(open := m.open - {fp}, clearing := m.clearing - {fp}, notified := m.notified - {fp})
  }

  function Since(m: Manager, fp: string, now: int): int {
    if fp in m.clearing then m.clearing[fp] else now
  }

  /** Has the hold run out? */
  predicate Held(m: Manager, fp: string, now: int) {
    fp in m.open && (now - Since(m, fp, now)) / 1000 >= MIN_RESOLVE_HOLD_S
  }

  /** `clear` */
  function Cleared(m: Manager, t: Table, fp: string, now: int, wall: int): (Manager, Table) {
    if fp !in m.open then (m, t)
    else if Held(m, fp, now) then (Forgotten(m, fp), Resolve(t, fp, wall))
    else (m.(clearing := m.clearing[fp := Since(m, fp, now)]), t)
  }

  /** `clear_now` */
  function ClearedNow(m: Manager, t: Table, fp: string, wall: int): (Manager, Table) {
    if fp !in m.open then (m, t) else (Forgotten(m, fp), Resolve(t, fp, wall))
  }

  const RELOAD_LIMIT := 500

  predicate Unresolved(t: Table, id: nat) {
    id in t.rows && t.rows[id].resolvedTs.None?
  }

  function OpenIds(t: Table): set<nat> {
    set id | id in t.rows && Unresolved(t, id)
  }

  /** What `alerts(true, 500)` may return: the newest open rows, at most 500 of them. */
  ghost predicate Reloads(t: Table, ids: set<nat>) {
    && ids <= OpenIds(t)
    && |ids| == (if |OpenIds(t)| <= RELOAD_LIMIT then |OpenIds(t)| else RELOAD_LIMIT)
    && forall i, j :: i in ids && Unresolved(t, j) && j !in ids ==> t.rows[j].lastTs <= t.rows[i].lastTs
  }

  /** The newest of the reloaded rows of a fingerprint wins; there is at most one. */
  ghost predicate Listed(t: Table, ids: set<nat>, fp: string) {
    exists id :: id in ids && IsOpen(t, id, fp)
  }

  ghost function ListedRow(t: Table, ids: set<nat>, fp: string): Row
    requires Listed(t, ids, fp)
  {
    var id :| id in ids && IsOpen(t, id, fp);
    t.rows[id]
  }

  function Fingerprints(t: Table): set<string> {
    set id | id in t.rows :: t.rows[id].fp
  }

  /** `AlertManager::new` over a table. */
  ghost function Restarted(t: Table, ids: set<nat>, now: int, burst: nat, refillS: int): Manager {
    Manager(map fp | fp in Fingerprints(t) && Listed(t, ids, fp) :: FromRank(ListedRow(t, ids, fp).severity),
            map fp | fp in Fingerprints(t) && Listed(t, ids, fp) ::
              Note(now, ListedRow(t, ids, fp).notifyId, FromRank(ListedRow(t, ids, fp).severity)),
            map[], FreshBuckets(burst, refillS, now), 0, 0)
  }

  // ---- runs -------------------------------------------------------------------------------

  datatype Op =
    | Raise(a: Alert, e: Env)
    | Clear(fp: string, now: int, wall: int)
    | ClearNow(fp: string, wall: int)
    | Retention(cutoff: int, chosen: set<nat>)
    | Restart(ids: set<nat>, at: int, burst: nat, refillS: int)

  datatype World = World(m: Manager, t: Table)

  predicate AllBuckets(m: Manager) {
    forall s: Severity :: s in m.buckets && Valid(m.buckets[s])
  }

  /** One operation: the next world, and whether a notification was sent. */
  ghost function Step(w: World, op: Op): (World, bool)
    requires AllBuckets(w.m)
  {
    match op
    case Raise(a, e) => var r := Raised(w.m, w.t, a, e); (World(r.0, r.1), r.2)
    case Clear(fp, now, wall) => var r := Cleared(w.m, w.t, fp, now, wall); (World(r.0, r.1), false)
    case ClearNow(fp, wall) => var r := ClearedNow(w.m, w.t, fp, wall); (World(r.0, r.1), false)
    case Retention(cutoff, chosen) => (w.(t := DropResolved(w.t, cutoff, chosen)), false)
    case Restart(ids, at, burst, refillS) => (w.(m := Restarted(w.t, ids, at, burst, refillS)), false)
  }

  /** No operation breaks the rate limiters. */
  lemma StepKeepsBuckets(w: World, op: Op)
    requires AllBuckets(w.m)
    ensures AllBuckets(Step(w, op).0.m)
  {
    match op
    case Raise(a, e) => TakeKeepsValid(w.m.buckets[a.severity], e.now);
    case Clear(_, _, _) =>
    case ClearNow(_, _) =>
    case Retention(_, _) =>
    case Restart(ids, at, burst, refillS) => FreshBucketsAreValid(burst, refillS, at);
  }

  /** The world after the first `n` operations. */
  ghost function After(w: World, ops: seq<Op>, n: nat): (r: World)
    requires AllBuckets(w.m) && n <= |ops|
    ensures AllBuckets(r.m)
    decreases n
  {
    if n == 0 then w
    else
      var before := After(w, ops, n - 1);
      StepKeepsBuckets(before, ops[n - 1]);
      Step(before, ops[n - 1]).0
  }

  /** Operation `k` sends a notification about the fingerprint. */
  ghost predicate Sends(w: World, ops: seq<Op>, k: nat, fp: string)
    requires AllBuckets(w.m) && k < |ops|
  {
    ops[k].Raise? && ops[k].a.fp == fp && Step(After(w, ops, k), ops[k]).1
  }
}
