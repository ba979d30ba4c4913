/** The store as the daemon runs it: fields updated in place, refining the steps of `HistoryRun`. */
module HistoryStore {
  import opened Wrappers
  import opened HistoryModel
  import opened HistoryProofs
  import opened HistoryRollups
  import opened HistoryRun

  /** Rows removed per statement, and statements per pass. */
  const CHUNK: nat := 5_000
  const MAX_CHUNKS: nat := 50

  class Database {
    var live: map<nat, seq<Push>>
    var agg: map<nat, Agg>
    var aggBucket: nat
    var pending: seq<Row>
    var sample: map<Key, real>
    var rollup: map<RKey, Roll>
    const window: nat
    ghost var hist: Hist

    ghost function State(): Store
      reads this
    {
      Store(live, agg, aggBucket, pending, sample, rollup)
    }

    ghost function Now(): World
      reads this
    {
      World(State(), hist)
    }

    ghost predicate Valid()
      reads this
    {
      SampleInv(Now()) && hist.clock >= START
    }

    constructor (now: nat, window: nat)
      requires now >= START
      ensures Valid() && Now() == Opened(now) && this.window == window
    {
      live, agg, aggBucket, pending, sample, rollup :=
        map[], map[], Floor(now, DISK_BUCKET), [], map[], map[];
      hist := Opened(now).h;
      this.window := window;
      new;
      OpenedSampleInv(now);
    }

    /** `open` over the tables an earlier process left. */
    constructor Reopen(earlier: Database, now: nat)
      requires earlier.Valid() && now >= earlier.hist.clock
      ensures Valid() && Now() == DoReopen(earlier.Now(), now) && window == earlier.window
    {
      live, agg, aggBucket, pending := map[], map[], Floor(now, DISK_BUCKET), [];
      sample, rollup := earlier.sample, earlier.rollup;
      hist := DoReopen(earlier.Now(), now).h;
      window := earlier.window;
      new;
      ReopenKeepsSampleInv(earlier.Now(), now);
    }

    /** `close_bucket`: drain the accumulators in whatever order the map yields them. */
    method CloseBucket() returns (ghost order: seq<nat>)
      modifies this
      ensures Enumerates(order, old(agg.Keys)) && forall x :: x in order ==> x in old(agg)
      ensures State() == HistoryModel.CloseBucket(old(State()), order) && hist == old(hist)
    {
      hide RowsOf, Enumerates;
      var left := agg.Keys;
      ghost var before := pending;
      order := [];
      NoRows(agg, aggBucket);
      assert agg.Keys - left == {} && before + [] == before;
      while left != {}
        invariant left <= agg.Keys && Enumerates(order, agg.Keys - left)
        invariant forall x :: x in order ==> x in agg
        invariant pending == before + RowsOf(agg, aggBucket, order)
        invariant State() == old(State()).(pending := pending) && hist == old(hist)
        decreases left
      {
        var id :| id in left;
        var a := agg[id];
        RowsSnoc(agg, aggBucket, order, id);
        EnumeratesSnoc(order, agg.Keys - left, id);
        assert agg.Keys - left + {id} == agg.Keys - (left - {id});
        if a.n > 0 {
          pending := pending + [Row(Key(id, aggBucket), a.Mean())];
        }
        order := order + [id];
        left := left - {id};
      }
      assert agg.Keys - left == agg.Keys;
      agg := map[];
      if |pending| >= MAX_PENDING {
        pending := pending[MAX_PENDING / 4..];
      }
    }

    /** `push` */
    method Push(ts: nat, id: nat, value: Num) returns (ghost order: seq<nat>)
      requires Valid() && ts >= hist.clock
      modifies this
      ensures Valid()
      ensures value.NonFinite? ==> Now() == old(Now())
      ensures value.Finite? ==> Ordered(old(Now()), order)
      ensures value.Finite? ==> Now() == DoPush(old(Now()), window, HistoryModel.Push(id, ts, value.v), order)
    {
      hide SampleInv, Floor, Enumerates, RowsOf, Trim, Overflow;
      order := [];
      if value.NonFinite? {
        return;
      }
      ghost var w := Now();
      ghost var p := HistoryModel.Push(id, ts, value.v);
      order := SomeOrder(agg);
      live := live[id := Trim(Ring(live, id) + [HistoryModel.Push(id, ts, value.v)], ts - window)];
      var bucket := Floor(ts, DISK_BUCKET);
      if bucket != aggBucket {
        order := CloseBucket();
        aggBucket := bucket;
      }
      agg := agg[id := Lookup(agg, id).Add(value.v)];
      hist := DoPush(w, window, p, order).h;
      assert Now() == DoPush(w, window, p, order);
      PushKeepsSampleInv(w, window, p, order);
    }

    /** The part of `flush` that closes an elapsed bucket. */
    method CloseElapsed(now: nat) returns (ghost order: seq<nat>)
      modifies this
      ensures Enumerates(order, old(agg.Keys)) && forall x :: x in order ==> x in old(agg)
      ensures State() == HistoryModel.CloseElapsed(old(State()), now, order) && hist == old(hist)
    {
      hide Floor, RowsOf, Overflow;
      var b := Floor(now, DISK_BUCKET);
      order := SomeOrder(agg);
      if b != aggBucket && agg != map[] {
        order := CloseBucket();
        aggBucket := b;
      }
    }

    /** The transaction of `flush`: one INSERT OR REPLACE per pending row, then an empty queue. */
    method WritePending() returns (n: nat)
      modifies this
      ensures State() == HistoryModel.WritePending(old(State())) && n == |old(pending)| && hist == old(hist)
    {
      n := |pending|;
      var i := 0;
      while i < n
        invariant i <= n == |pending|
        invariant Insert(old(sample), pending) == Insert(sample, pending[i..])
        invariant State() == old(State()).(sample := sample) && hist == old(hist)
      {
        assert pending[i..][1..] == pending[i + 1..];
        sample := sample[pending[i].key := pending[i].mean];
        i := i + 1;
      }
      pending := [];
    }

    /** `flush` */
    method Flush(now: nat) returns (n: nat, ghost order: seq<nat>)
      requires Valid() && now >= hist.clock
      modifies this
      ensures Valid() && Ordered(old(Now()), order) && Now() == DoFlush(old(Now()), now, order)
    {
      hide SampleInv, Floor, RowsOf, Overflow, Insert;
      ghost var w := Now();
      order := CloseElapsed(now);
      n := WritePending();
      hist := DoFlush(w, now, order).h;
      FlushKeepsSampleInv(w, now, order);
      QuietClock(Now(), now);
    }

    /** `flush_final`: the bucket still open is closed too. */
    method FlushFinal(now: nat) returns (n: nat, ghost order: seq<nat>)
      requires Valid() && now >= hist.clock
      modifies this
      ensures Valid() && Ordered(old(Now()), order) && Now() == DoFinal(old(Now()), now, order)
    {
      hide SampleInv, Floor, RowsOf, Overflow, Insert, KeysOf, OpenKeys;
      ghost var w := Now();
      order := SomeOrder(agg);
      if agg != map[] {
        order := CloseBucket();
      }
      ghost var c := World(State(), if w.s.agg != map[] then Closing(w, order) else w.h);
      ghost var o := CloseElapsed(now);
      assert State() == c.s;
      n := WritePending();
      hist := DoFinal(w, now, order).h;
      FinalKeepsSampleInv(w, now, order);
    }

    /** SELECT COALESCE(MAX(ts), 0) */
    method LastRolled(b: nat) returns (last: nat)
      ensures IsLast(rollup, b, last)
    {
      last := 0;
      var left := rollup.Keys;
      while left != {}
        invariant left <= rollup.Keys
        invariant forall r :: r in rollup && r.bucket == b && r !in left ==> r.ts <= last
        invariant last == 0 || exists r :: r in rollup && r.bucket == b && r.ts == last
        decreases left
      {
        var r :| r in left;
        if r.bucket == b && r.ts > last {
          last := r.ts;
        }
        left := left - {r};
      }
    }

    /** `build_rollups` for one bucket size. */
    method BuildRollups(b: nat, now: nat) returns (ghost last: nat)
      requires b > 0
      modifies this
      ensures IsLast(old(rollup), b, last)
      ensures State() == HistoryModel.BuildRollups(old(State()), b, now, last) && hist == old(hist)
    {
      hide Floor, NewRows, IsLast;
      var l := LastRolled(b);
      last := l;
      var from, cutoff := From(l, b), Floor(now, b);
      if from < cutoff {
        rollup := rollup + NewRows(sample, b, from, cutoff);
      }
    }

    /** The sample job of `enforce_retention`. */
    method DropSamples(now: nat, r: Retention) returns (ghost dead: set<Key>)
      modifies this
      ensures Deletes(StaleSamples(old(State()), now, r), dead)
      ensures State() == old(State()).(sample := old(sample) - dead) && hist == old(hist)
    {
      hide Deletes;
      var stale := set k | k in sample && k.ts + HOUR * r.rawHours < now;
      assert stale == StaleSamples(State(), now, r);
      var rows := DeleteInChunks(stale);
      sample := sample - rows;
      dead := rows;
    }

    /** A rollup job of `enforce_retention`. */
    method DropRolls(now: nat, r: Retention, b: nat) returns (ghost dead: set<RKey>)
      requires b in BUCKETS
      modifies this
      ensures Deletes(StaleRolls(old(State()), now, r, b), dead) && (forall k :: k in dead ==> k.bucket == b)
      ensures State() == old(State()).(rollup := old(rollup) - dead) && hist == old(hist)
    {
      hide RollupAge;
      var stale := set k | k in rollup && k.bucket == b && k.ts + RollupAge(r, b) < now;
      assert stale == StaleRolls(State(), now, r, b);
      var rows := DeleteInChunks(stale);
      rollup := rollup - rows;
      dead := rows;
    }

    /** `enforce_retention` on the sample and rollup tables. */
    method EnforceRetention(now: nat, r: Retention) returns (ghost d: Dead)
      modifies this
      ensures Retains(old(Now()), now, r, d) && hist == old(hist)
      ensures State() == DoRetain(old(Now()), d).s
    {
      hide RollupAge, Deletes;
      ghost var s := State();
      ghost var d0 := DropSamples(now, r);
      ghost var d1 := DropRolls(now, r, 60_000);
      ghost var s1 := State();
      SameStale(s, s1, now, r, 60_000, 300_000);
      ghost var d2 := DropRolls(now, r, 300_000);
      ghost var s2 := State();
      SameStale(s, s1, now, r, 60_000, 900_000);
      SameStale(s1, s2, now, r, 300_000, 900_000);
      ghost var d3 := DropRolls(now, r, 900_000);
      d := Dead(d0, d1 + d2 + d3);
      assert (set k | k in d.rolls && k.bucket == 60_000) == d1;
      assert (set k | k in d.rolls && k.bucket == 300_000) == d2;
      assert (set k | k in d.rolls && k.bucket == 900_000) == d3;
      assert rollup == old(rollup) - d.rolls;
    }

    /** The store part of `maintenance`: flush, the three rollups, retention, all on one clock reading. */
    method Maintenance(now: nat, r: Retention) returns (ghost e: Event)
      requires Valid() && now >= hist.clock
      modifies this
      ensures Valid() && e.MaintainEv? && e.now == now && Step(window, r, old(Now()), e, Now())
      ensures r.rawHours >= 1 && old(Inv(Now(), r)) ==> Inv(Now(), r)
    {
      hide Inv, SampleInv, Floor, RowsOf, Insert, IsLast, NewRows, Enumerates, Retains;
      ghost var w := Now();
      var n;
      ghost var order;
      n, order := Flush(now);
      ghost var w0 := Now();
      ghost var l0 := BuildRollups(60_000, now);
      ghost var l1 := BuildRollups(300_000, now);
      ghost var l2 := BuildRollups(900_000, now);
      ghost var w1 := Builds(w0, now, (l0, l1, l2));
      hist := w1.h;
      assert Now() == w1 && AreLast(w0, now, (l0, l1, l2));
      ghost var d := EnforceRetention(now, r);
      hist := DoRetain(w1, d).h;
      e := MaintainEv(now, order, (l0, l1, l2), d);
      assert Maintains(r, w, e, Now());
      StepKeepsSampleInv(window, r, w, e, Now());
      if r.rawHours >= 1 && Inv(w, r) {
        StepKeepsInv(window, r, w, e, Now());
      }
    }
  }

  lemma NoRows(agg: map<nat, Agg>, ts: nat)
    ensures RowsOf(agg, ts, []) == [] && Enumerates([], {})
  {
    assert (set x: nat | x in []) == {};
  }

  lemma {:induction false} RowsSnoc(agg: map<nat, Agg>, ts: nat, order: seq<nat>, id: nat)
    requires (forall x :: x in order ==> x in agg) && id in agg
    ensures forall x :: x in order + [id] ==> x in agg
    ensures RowsOf(agg, ts, order + [id])
         == RowsOf(agg, ts, order) + (if agg[id].n > 0 then [Row(Key(id, ts), agg[id].Mean())] else [])
  {
    if order == [] {
      assert [] + [id] == [id] && [id][1..] == [];
      assert RowsOf(agg, ts, [id])
          == (if agg[id].n > 0 then [Row(Key(id, ts), agg[id].Mean())] else []) + RowsOf(agg, ts, []);
    } else {
      assert (order + [id])[1..] == order[1..] + [id];
      RowsSnoc(agg, ts, order[1..], id);
    }
  }

  /** A map's keys can be listed. */
  lemma SomeOrder(agg: map<nat, Agg>) returns (order: seq<nat>)
    ensures Enumerates(order, agg.Keys) && forall x :: x in order ==> x in agg
  {
    order := Listed(agg.Keys);
  }

  lemma {:induction false} Listed(s: set<nat>) returns (order: seq<nat>)
    ensures Enumerates(order, s)
    decreases s
  {
    if s == {} {
      order := [];
    } else {
      var x :| x in s;
      var rest := Listed(s - {x});
      order := rest + [x];
      EnumeratesSnoc(rest, s - {x}, x);
      assert s - {x} + {x} == s;
    }
  }

  lemma EnumeratesSnoc(order: seq<nat>, s: set<nat>, x: nat)
    requires Enumerates(order, s) && x !in s
    ensures Enumerates(order + [x], s + {x})
  {
    assert x !in order;
    forall y ensures y in order + [x] <==> y in s + {x} {
      assert y in (set z | z in order) <==> y in order;
    }
    assert (set y | y in order + [x]) == s + {x};
  }

  /** LIMIT: up to `n` of the rows, in no particular order. */
  method TakeSome<T(==)>(from: set<T>, n: nat) returns (some: set<T>)
    ensures some <= from && |some| <= n && (|some| < n ==> some == from)
  {
    some := {};
    var left := from;
    while |some| < n && left != {}
      invariant some <= from && left == from - some && |some| <= n
      decreases left
    {
      var x :| x in left;
      some := some + {x};
      left := left - {x};
    }
  }

  /** The statements of one retention job: at most 50, each of at most 5000 rows, until one comes up short. */
  method DeleteInChunks<T(!new, ==)>(rows: set<T>) returns (dead: set<T>)
    ensures Deletes(rows, dead)
  {
    var stale := rows;
    var c := 0;
    dead := {};
    while c < MAX_CHUNKS
      invariant c <= MAX_CHUNKS && dead <= rows && stale == rows - dead && |dead| == CHUNK * c
      decreases MAX_CHUNKS - c
    {
      var some := TakeSome(stale, CHUNK);
      DisjointSize(dead, some);
      dead := dead + some;
      stale := stale - some;
      if |some| < CHUNK {
        break;
      }
      c := c + 1;
    }
    PartSize(rows, dead);
  }

  lemma DisjointSize<T>(a: set<T>, b: set<T>)
    requires a !! b
    ensures |a + b| == |a| + |b|
  {
  }

  lemma PartSize<T>(all: set<T>, part: set<T>)
    requires part <= all
    ensures |all| == |part| + |all - part|
    ensures |all| == |part| ==> part == all
  {
    assert all == part + (all - part);
  }

  lemma SameStale(s: Store, t: Store, now: nat, r: Retention, b: nat, c: nat)
    requires b != c && (forall k :: k in t.rollup ==> k in s.rollup)
    requires forall k :: k in s.rollup && k.bucket != b ==> k in t.rollup
    ensures StaleRolls(s, now, r, c) == StaleRolls(t, now, r, c)
  {
  }
}
