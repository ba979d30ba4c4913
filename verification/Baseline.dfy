/** Learned baselines: a bounded reservoir of distinct past readings, and its statistics. */
module Baseline {
  import opened Wrappers
  import opened Stats

  const U32_MAX: nat := 0xFFFF_FFFF

  datatype Values = Values(samples: seq<real>, n: nat, median: real, mad: real, p05: real, p95: real, dirty: nat)

  const EMPTY: Values := Values([], 0, 0.0, 0.0, 0.0, 0.0, 0)

  function AsNums(s: seq<real>): (r: seq<Num>)
    ensures |r| == |s|
  {
    if s == [] then [] else [Finite(s[0])] + AsNums(s[1..])
  }

  lemma {:induction false} AllFinite(s: seq<real>)
    ensures Finites(AsNums(s)) == s
  {
    if s != [] {
      AllFinite(s[1..]);
      assert AsNums(s)[1..] == AsNums(s[1..]);
      assert s == [s[0]] + s[1..];
    }
  }

  /** `recompute` */
  function Recomputed(s: Values): Values {
    if s.samples == [] then s.(dirty := 0)
    else
      AllFinite(s.samples);
      var v := AsNums(s.samples);
      var med := Median(v).value;
      RangeBracketsMedian(v);
      s.(dirty := 0, median := med, mad := Mad(v, med).value,
         p05 := Percentile(v, 0.05).value, p95 := Percentile(v, 0.95).value)
  }

  /** Where a reading goes when the reservoir is full; `draw` is the pseudo-random number. */
  function Slot(n: nat, draw: nat): (k: nat)
    requires n > 0
    ensures k < n
  {
    draw % n
  }

  /** `push` of a finite reading. */
  function Pushed(s: Values, v: real, window: nat, draw: nat): Values {
    var n := if s.n < U32_MAX then s.n + 1 else U32_MAX;
    var k := Slot(n, draw);
    var samples :=
      if |s.samples| < window then s.samples + [v]
      else if k < window then s.samples[k := v]
      else s.samples;
    var s1 := s.(n := n, samples := samples, dirty := s.dirty + 1);
    if s1.dirty >= 16 || s1.n < 32 then Recomputed(s1) else s1
  }

  datatype Reading = Reading(value: Num, draw: nat)

  /** A series after any sequence of readings; what is not finite is ignored. */
  function After(rs: seq<Reading>, window: nat): Values {
    if rs == [] then EMPTY
    else
      var s := After(rs[..|rs| - 1], window);
      var r := rs[|rs| - 1];
      if r.value.NonFinite? then s else Pushed(s, r.value.v, window, r.draw)
  }

  /** The finite readings, in order. */
  function History(rs: seq<Reading>): seq<real> {
    if rs == [] then []
    else
      var r := rs[|rs| - 1];
      if r.value.NonFinite? then History(rs[..|rs| - 1]) else History(rs[..|rs| - 1]) + [r.value.v]
  }

  /** Slot `j` of the reservoir holds reading number `origin[j]`; no reading is held twice. */
  ghost predicate Origins(samples: seq<real>, hist: seq<real>, origin: seq<nat>) {
    && |origin| == |samples|
    && (forall j :: 0 <= j < |origin| ==> origin[j] < |hist| && samples[j] == hist[origin[j]])
    && (forall i, j :: 0 <= i < j < |origin| ==> origin[i] != origin[j])
  }

  lemma RecomputedKeeps(s: Values)
    ensures Recomputed(s).samples == s.samples && Recomputed(s).n == s.n && Recomputed(s).dirty == 0
    ensures s.samples != [] ==> Recomputed(s).p05 <= Recomputed(s).median <= Recomputed(s).p95
  {
    if s.samples != [] {
      AllFinite(s.samples);
      RangeBracketsMedian(AsNums(s.samples));
    }
  }

  /** One more reading: it is appended, replaces one slot, or is dropped. */
  lemma OriginsStep(s: Values, hist: seq<real>, origin: seq<nat>, v: real, window: nat, draw: nat)
    returns (origin': seq<nat>)
    requires Origins(s.samples, hist, origin) && window >= 1
    requires |s.samples| == if |hist| < window then |hist| else window
    ensures Origins(Pushed(s, v, window, draw).samples, hist + [v], origin')
    ensures |Pushed(s, v, window, draw).samples| == if |hist| + 1 < window then |hist| + 1 else window
  {
    hide Recomputed, Slot;
    var n := if s.n < U32_MAX then s.n + 1 else U32_MAX;
    var k := Slot(n, draw);
    origin' :=
      if |s.samples| < window then origin + [|hist|]
      else if k < window then origin[k := |hist|]
      else origin;
    var samples :=
      if |s.samples| < window then s.samples + [v]
      else if k < window then s.samples[k := v]
      else s.samples;
    RecomputedKeeps(s.(n := n, samples := samples, dirty := s.dirty + 1));
  }

  /**
   * After any sequence of readings the reservoir holds min(finite readings, window) values taken from
   * distinct readings, the count is the number of finite readings (saturating), and the published
   * range brackets the published median.
   */
  lemma {:induction false} ReachableBaseline(rs: seq<Reading>, window: nat) returns (origin: seq<nat>)
    requires window >= 1
    ensures var s, h := After(rs, window), History(rs);
      && Origins(s.samples, h, origin) && |s.samples| == (if |h| < window then |h| else window)
      && s.n == (if |h| < 4_294_967_295 then |h| else 4_294_967_295)
      && s.p05 <= s.median <= s.p95 && s.dirty < 16
    decreases |rs|
  {
    hide Recomputed, Slot;
    if rs == [] {
      origin := [];
    } else {
      var front, r := rs[..|rs| - 1], rs[|rs| - 1];
      var s, h := After(front, window), History(front);
      origin := ReachableBaseline(front, window);
      if r.value.Finite? {
        origin := OriginsStep(s, h, origin, r.value.v, window, r.draw);
        PushedKeepsRange(s, r.value.v, window, r.draw);
      }
    }
  }

  lemma PushedKeepsRange(s: Values, v: real, window: nat, draw: nat)
    requires window >= 1 && s.p05 <= s.median <= s.p95 && s.dirty < 16
    ensures var t := Pushed(s, v, window, draw);
      t.p05 <= t.median <= t.p95 && t.dirty < 16 && t.n == if s.n < U32_MAX then s.n + 1 else U32_MAX
  {
    hide Recomputed;
    var n := if s.n < U32_MAX then s.n + 1 else U32_MAX;
    var k := Slot(n, draw);
    var samples :=
      if |s.samples| < window then s.samples + [v]
      else if k < window then s.samples[k := v]
      else s.samples;
    RecomputedKeeps(s.(n := n, samples := samples, dirty := s.dirty + 1));
  }

  /** The published statistics are those of these values. */
  predicate Publishes(s: Values, samples: seq<real>) {
    samples != [] ==>
      var v := AsNums(samples);
      && Median(v) == Some(s.median) && Mad(v, s.median) == Some(s.mad)
      && Percentile(v, 0.05) == Some(s.p05) && Percentile(v, 0.95) == Some(s.p95)
  }

  lemma RecomputedPublishes(s: Values)
    ensures Publishes(Recomputed(s), s.samples)
  {
    if s.samples != [] {
      AllFinite(s.samples);
      RangeBracketsMedian(AsNums(s.samples));
    }
  }

  /** A push publishes the statistics of the new reservoir, or leaves what was published. */
  lemma PushedPublishes(s: Values, v: real, window: nat, draw: nat)
    requires window >= 1
    ensures var t := Pushed(s, v, window, draw);
      && t.dirty == (if s.dirty >= 15 || t.n < 32 then 0 else s.dirty + 1)
      && t.n == (if s.n < U32_MAX then s.n + 1 else U32_MAX)
      && (t.dirty == 0 ==> Publishes(t, t.samples))
      && (t.dirty != 0 ==> (t.median, t.mad, t.p05, t.p95) == (s.median, s.mad, s.p05, s.p95))
  {
    hide Recomputed, Publishes;
    var n := if s.n < U32_MAX then s.n + 1 else U32_MAX;
    var k := Slot(n, draw);
    var samples :=
      if |s.samples| < window then s.samples + [v]
      else if k < window then s.samples[k := v]
      else s.samples;
    var s1 := s.(n := n, samples := samples, dirty := s.dirty + 1);
    RecomputedKeeps(s1);
    RecomputedPublishes(s1);
  }

  /**
   * The published statistics are exactly those of the reservoir as it was `dirty` finite readings ago:
   * none for the first 31, and from there on every sixteenth reading brings them up to date.
   */
  lemma {:induction false} PublishedIsRecent(rs: seq<Reading>, window: nat) returns (m: nat)
    requires window >= 1
    ensures m <= |rs|
    ensures var s := After(rs, window);
      && Publishes(s, After(rs[..m], window).samples)
      && |History(rs)| == |History(rs[..m])| + s.dirty
      && s.dirty == if |History(rs)| < 32 then 0 else (|History(rs)| - 31) % 16
    decreases |rs|
  {
    hide Recomputed, Slot, Publishes, Pushed;
    var origin := ReachableBaseline(rs, window);
    if rs == [] {
      m := 0;
      NothingPublished();
    } else {
      var front, r := rs[..|rs| - 1], rs[|rs| - 1];
      m := PublishedIsRecent(front, window);
      assert front[..m] == rs[..m];
      if r.value.Finite? {
        PushedPublishes(After(front, window), r.value.v, window, r.draw);
        var _ := ReachableBaseline(front, window);
        if |History(rs)| >= 32 {
          NextOfSixteen(|History(rs)| - 32);
        }
        if After(rs, window).dirty == 0 {
          m := |rs|;
          assert rs[..m] == rs;
        } else {
          SamePublished(After(front, window), After(rs, window), After(rs[..m], window).samples);
        }
      }
    }
  }

  lemma NextOfSixteen(x: nat)
    ensures (x + 1) % 16 == if x % 16 == 15 then 0 else x % 16 + 1
  {
  }

  lemma NothingPublished()
    ensures Publishes(EMPTY, [])
  {
  }

  lemma SamePublished(s: Values, t: Values, samples: seq<real>)
    requires Publishes(s, samples) && (t.median, t.mad, t.p05, t.p95) == (s.median, s.mad, s.p05, s.p95)
    ensures Publishes(t, samples)
  {
  }

  /** A series as the program keeps it. */
  class Series {
    var samples: seq<real>
    var n: nat
    var median: real
    var mad: real
    var p05: real
    var p95: real
    var dirty: nat

    function State(): Values
      reads this
    {
      Values(samples, n, median, mad, p05, p95, dirty)
    }

    constructor ()
      ensures State() == EMPTY
    {
      samples, n, median, mad, p05, p95, dirty := [], 0, 0.0, 0.0, 0.0, 0.0, 0;
    }

    method Push(v: Num, window: nat, draw: nat)
      requires window >= 1
      modifies this
      ensures State() == if v.NonFinite? then old(State()) else Pushed(old(State()), v.v, window, draw)
    {
      hide Recomputed;
      if v.NonFinite? {
        return;
      }
      n := if n < U32_MAX then n + 1 else U32_MAX;
      if |samples| < window {
        samples := samples + [v.v];
      } else {
        var k := Slot(n, draw);
        if k < window {
          samples := samples[k := v.v];
        }
      }
      dirty := dirty + 1;
      if dirty >= 16 || n < 32 {
        Recompute();
      }
    }

    method Recompute()
      modifies this
      ensures State() == Recomputed(old(State()))
    {
      hide Finites, Percentile, Sort, Middle, Deviations;
      dirty := 0;
      if samples == [] {
        return;
      }
      AllFinite(samples);
      var v := AsNums(samples);
      RangeBracketsMedian(v);
      median := Median(v).value;
      mad := Mad(v, median).value;
      p05 := Percentile(v, 0.05).value;
      p95 := Percentile(v, 0.95).value;
    }
  }
}
