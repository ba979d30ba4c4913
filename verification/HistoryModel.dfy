/** The history pipeline on values: accumulators, pending rows, sample table, rollups, retention. */
module HistoryModel {

  // ---- aggregates -------------------------------------------------------------------

  /** Count, sum, minimum and maximum of a collection of readings; `n == 0` is the empty one. */
  datatype Agg = Agg(n: nat, sum: real, min: real, max: real) {
    /** `Accum::add` */
    function Add(v: real): Agg {
      if n == 0 then Agg(1, sum + v, v, v)
      else Agg(n + 1, sum + v, if v < min then v else min, if v > max then v else max)
    }

    /** `Accum::mean`, for a non-empty accumulator. */
    function Mean(): real
      requires n > 0
    {
      sum / n as real
    }
  }

  const NONE: Agg := Agg(0, 0.0, 0.0, 0.0)

  function Single(v: real): Agg { Agg(1, v, v, v) }

  /** Aggregate of two collections together. */
  function Merge(a: Agg, b: Agg): (r: Agg)
    ensures r.n == a.n + b.n
  {
    if a.n == 0 then b
    else if b.n == 0 then a
    else Agg(a.n + b.n, a.sum + b.sum, if b.min < a.min then b.min else a.min, if b.max > a.max then b.max else a.max)
  }

  lemma MergeAssoc(a: Agg, b: Agg, c: Agg)
    ensures Merge(Merge(a, b), c) == Merge(a, Merge(b, c))
  {
  }

  // ---- times --------------------------------------------------------------------------

  const DISK_BUCKET: nat := 10_000
  const BUCKETS: set<nat> := {60_000, 300_000, 900_000}
  /** A clock reading of at least one largest rollup bucket after the epoch. */
  const START: nat := 900_000

  /** `t / b * b` */
  function Floor(t: nat, b: nat): nat
    requires b > 0
  {
    t / b * b
  }

  predicate Bucket(b: nat) {
    b == DISK_BUCKET || b in BUCKETS
  }

  lemma FloorFacts(t: nat, b: nat)
    requires Bucket(b)
    ensures Floor(t, b) <= t < Floor(t, b) + b && Floor(t, b) % b == 0
  {
    assert t == b * (t / b) + t % b;
    Multiple(t / b, b);
  }

  lemma Multiple(q: nat, b: nat)
    requires Bucket(b)
    ensures (q * b) % b == 0
  {
    assert q * 10_000 % 10_000 == 0;
    assert q * 60_000 % 60_000 == 0;
    assert q * 300_000 % 300_000 == 0;
    assert q * 900_000 % 900_000 == 0;
  }

  /** Nothing crosses a bucket boundary. */
  lemma FloorBoundary(t: nat, h: nat, b: nat)
    requires Bucket(b) && h % b == 0
    ensures t >= h ==> Floor(t, b) >= h
    ensures t < h ==> Floor(t, b) + b <= h
  {
    hide Floor, Bucket;
    FloorFacts(t, b);
    FloorOfMultiple(h, b);
    MultiplesApart(t, h, b);
  }

  lemma FloorOfMultiple(h: nat, b: nat)
    requires Bucket(b) && h % b == 0
    ensures Floor(h, b) == h
  {
    if b == 10_000 {
    } else if b == 60_000 {
    } else if b == 300_000 {
    } else {
      assert b == 900_000;
    }
  }

  lemma MultiplesApart(t: nat, u: nat, b: nat)
    requires Bucket(b)
    ensures Floor(t, b) < Floor(u, b) ==> Floor(t, b) + b <= Floor(u, b)
  {
    if b == 10_000 {
    } else if b == 60_000 {
    } else if b == 300_000 {
    } else {
      assert b == 900_000;
    }
  }

  lemma TimesDisk(x: nat)
    ensures (10_000 * x) % 10_000 == 0
  {
  }

  /** Rollup boundaries are disk-bucket boundaries. */
  lemma Divides(h: nat, b: nat)
    requires b in BUCKETS && h % b == 0
    ensures h % DISK_BUCKET == 0
  {
    var c := if b == 60_000 then 6 else if b == 300_000 then 30 else 90;
    assert h == 10_000 * (c * (h / b));
    TimesDisk(c * (h / b));
  }

  // ---- tables ---------------------------------------------------------------------------

  datatype Key = Key(id: nat, ts: nat)
  datatype Row = Row(key: Key, mean: real)
  datatype RKey = RKey(bucket: nat, id: nat, ts: nat)
  datatype Roll = Roll(minV: real, maxV: real, avgV: real, p95V: real, n: nat)

  /** A recorded finite reading. */
  datatype Push = Push(id: nat, ts: nat, v: real)

  datatype Store = Store(
    live: map<nat, seq<Push>>,
    agg: map<nat, Agg>,
    aggBucket: nat,
    pending: seq<Row>,
    sample: map<Key, real>,
    rollup: map<RKey, Roll>)

  const MAX_PENDING: nat := 20_000
  const LIVE_MAX_POINTS: nat := 1_200

  // ---- push, close_bucket, flush ----------------------------------------------------------

  /** An enumeration of a hash map's keys: the order in which it happens to be drained. */
  ghost predicate Enumerates(order: seq<nat>, keys: set<nat>) {
    (forall i, j :: 0 <= i < j < |order| ==> order[i] != order[j]) && (set x | x in order) == keys
  }

  function RowsOf(agg: map<nat, Agg>, ts: nat, order: seq<nat>): (rows: seq<Row>)
    requires forall x :: x in order ==> x in agg
  {
    if order == [] then []
    else
      var a := agg[order[0]];
      (if a.n > 0 then [Row(Key(order[0], ts), a.Mean())] else []) + RowsOf(agg, ts, order[1..])
  }

  /** How many of the oldest rows `close_bucket` drops from a queue of this length. */
  function Overflow(len: nat): (n: nat)
    ensures n <= len
  {
    if len >= MAX_PENDING then MAX_PENDING / 4 else 0
  }

  function Queued(s: Store, order: seq<nat>): seq<Row>
    requires forall x :: x in order ==> x in s.agg
  {
    s.pending + RowsOf(s.agg, s.aggBucket, order)
  }

  function CloseBucket(s: Store, order: seq<nat>): Store
    requires forall x :: x in order ==> x in s.agg
  {
    var q := Queued(s, order);
    s.(agg := map[], pending := q[Overflow(|q|)..])
  }

  /** The ring's front is popped while it is out of the window or the ring is too long. */
  function Trim(ring: seq<Push>, cutoff: int): seq<Push> {
    if ring != [] && (ring[0].ts < cutoff || |ring| > LIVE_MAX_POINTS) then Trim(ring[1..], cutoff) else ring
  }

  function Lookup(m: map<nat, Agg>, id: nat): Agg { if id in m then m[id] else NONE }

  function Ring(live: map<nat, seq<Push>>, id: nat): seq<Push> { if id in live then live[id] else [] }

  function PushSample(s: Store, window: nat, p: Push, order: seq<nat>): Store
    requires forall x :: x in order ==> x in s.agg
  {
    var s0 := s.(live := s.live[p.id := Trim(Ring(s.live, p.id) + [p], p.ts - window)]);
    var b := Floor(p.ts, DISK_BUCKET);
    var s1 := if b != s.aggBucket then CloseBucket(s0, order).(aggBucket := b) else s0;
    s1.(agg := s1.agg[p.id := Lookup(s1.agg, p.id).Add(p.v)])
  }

  /** INSERT OR REPLACE, row by row. */
  function Insert(m: map<Key, real>, rows: seq<Row>): map<Key, real>
    decreases rows
  {
    if rows == [] then m else Insert(m[rows[0].key := rows[0].mean], rows[1..])
  }

  /** The part of `flush` that closes an elapsed bucket. */
  function CloseElapsed(s: Store, now: nat, order: seq<nat>): Store
    requires forall x :: x in order ==> x in s.agg
  {
    var b := Floor(now, DISK_BUCKET);
    if b != s.aggBucket && s.agg != map[] then CloseBucket(s, order).(aggBucket := b) else s
  }

  function WritePending(s: Store): Store {
    s.(sample := Insert(s.sample, s.pending), pending := [])
  }

  function Flush(s: Store, now: nat, order: seq<nat>): Store
    requires forall x :: x in order ==> x in s.agg
  {
    WritePending(CloseElapsed(s, now, order))
  }

  // ---- rollups ------------------------------------------------------------------------------

  function At(m: map<Key, real>, id: nat, t: nat): Agg {
    if Key(id, t) in m then Single(m[Key(id, t)]) else NONE
  }

  /** Batch aggregate of one metric's rows with `lo <= ts < hi`. */
  function Over(m: map<Key, real>, id: nat, lo: nat, hi: nat): (a: Agg)
    decreases hi - lo
  {
    if lo >= hi then NONE else Merge(At(m, id, lo), Over(m, id, lo + 1, hi))
  }

  function RollOf(a: Agg): Roll
    requires a.n > 0
  {
    Roll(a.min, a.max, a.Mean(), a.min + (a.max - a.min) * 0.95, a.n)
  }

  /** COALESCE(MAX(ts), 0) over the rows of one bucket size. */
  ghost predicate IsLast(rollup: map<RKey, Roll>, b: nat, last: nat) {
    && (forall r :: r in rollup && r.bucket == b ==> r.ts <= last)
    && (last == 0 || exists r :: r in rollup && r.bucket == b && r.ts == last)
  }

  function From(last: nat, b: nat): nat {
    if last == 0 then 0 else last + b
  }

  /** GROUP BY metric_id, ts/b: the windows that hold a row of the scanned range. */
  function Windows(sample: map<Key, real>, b: nat, from: nat, cutoff: nat): set<RKey>
    requires b > 0
  {
    set k | k in sample && from <= k.ts < cutoff :: RKey(b, k.id, Floor(k.ts, b))
  }

  /** Aggregate of the scanned rows of one window. */
  function WindowAgg(sample: map<Key, real>, r: RKey, from: nat, cutoff: nat): Agg {
    Over(sample, r.id, if r.ts < from then from else r.ts, if r.ts + r.bucket > cutoff then cutoff else r.ts + r.bucket)
  }

  function NewRows(sample: map<Key, real>, b: nat, from: nat, cutoff: nat): map<RKey, Roll>
    requires b > 0
  {
    map r | r in Windows(sample, b, from, cutoff) && WindowAgg(sample, r, from, cutoff).n > 0
      :: RollOf(WindowAgg(sample, r, from, cutoff))
  }

  function BuildRollups(s: Store, b: nat, now: nat, last: nat): Store
    requires b > 0
  {
    var from, cutoff := From(last, b), Floor(now, b);
    if from >= cutoff then s else s.(rollup := s.rollup + NewRows(s.sample, b, from, cutoff))
  }

  // ---- retention ------------------------------------------------------------------------------

  const HOUR: nat := 3_600_000
  const DAY: nat := 86_400_000
  /** 50 statements of 5000 rows. */
  const RETENTION_CAP: nat := 250_000

  datatype Retention = Retention(rawHours: nat, minuteDays: nat, fiveMinDays: nat, fifteenMinDays: nat)

  function RollupAge(r: Retention, b: nat): nat {
    DAY * (if b == 60_000 then r.minuteDays else if b == 300_000 then r.fiveMinDays else r.fifteenMinDays)
  }

  /** One job of `enforce_retention`: of the stale rows, all or the cap, whichever is less. */
  ghost predicate Deletes<K(!new)>(stale: set<K>, dead: set<K>) {
    dead <= stale && (if |stale| <= RETENTION_CAP then dead == stale else |dead| == RETENTION_CAP)
  }

  function StaleSamples(s: Store, now: nat, r: Retention): set<Key> {
    set k | k in s.sample && k.ts + HOUR * r.rawHours < now
  }

  function StaleRolls(s: Store, now: nat, r: Retention, b: nat): set<RKey> {
    set k | k in s.rollup && k.bucket == b && k.ts + RollupAge(r, b) < now
  }
}
