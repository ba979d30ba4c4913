/** Reservoir sampling is fair: over all draws, every reading is kept equally often. */
module Reservoir {
  import opened Baseline

  /** Which readings the slots hold after reading number `n`. */
  function KeptNext(kept: seq<nat>, n: nat, window: nat, draw: nat): seq<nat> {
    var k := Slot(n + 1, draw);
    if |kept| < window then kept + [n]
    else if k < window && k < |kept| then kept[k := n]
    else kept
  }

  /** The numbers are those of the readings the series holds. */
  lemma KeptAreHeld(s: Values, hist: seq<real>, kept: seq<nat>, v: real, window: nat, draw: nat)
    requires Origins(s.samples, hist, kept) && window >= 1 && s.n == |hist| < U32_MAX
    requires |s.samples| == if |hist| < window then |hist| else window
    ensures Origins(Pushed(s, v, window, draw).samples, hist + [v], KeptNext(kept, |hist|, window, draw))
  {
    hide Recomputed, Slot;
    var n, k := s.n + 1, Slot(s.n + 1, draw);
    var samples :=
      if |s.samples| < window then s.samples + [v]
      else if k < window then s.samples[k := v]
      else s.samples;
    RecomputedKeeps(s.(n := n, samples := samples, dirty := s.dirty + 1));
  }

  /** Of the ways to draw for readings `n..total`, where each draw is any below its number, those that keep `j`. */
  function Keeping(kept: seq<nat>, n: nat, total: nat, window: nat, j: nat): nat
    requires n <= total
    decreases total - n, n + 2
  {
    if n == total then (if j in kept then 1 else 0) else KeepingBelow(kept, n, total, window, j, n + 1)
  }

  function KeepingBelow(kept: seq<nat>, n: nat, total: nat, window: nat, j: nat, draws: nat): nat
    requires n < total && draws <= n + 1
    decreases total - n, draws
  {
    if draws == 0 then 0
    else
      KeepingBelow(kept, n, total, window, j, draws - 1)
      + Keeping(KeptNext(kept, n, window, draws - 1), n + 1, total, window, j)
  }

  /** How many ways there are in all. */
  function Ways(n: nat, total: nat): nat
    requires n <= total
    decreases total - n
  {
    if n == total then 1 else (n + 1) * Ways(n + 1, total)
  }

  /** The reservoir is full, with different readings. */
  predicate Full(kept: seq<nat>, n: nat, window: nat) {
    && |kept| == window <= n
    && (forall i :: 0 <= i < |kept| ==> kept[i] < n)
    && (forall i, k :: 0 <= i < k < |kept| ==> kept[i] != kept[k])
  }

  lemma NextIsFull(kept: seq<nat>, n: nat, window: nat, d: nat)
    requires Full(kept, n, window) && d <= n
    ensures Full(KeptNext(kept, n, window, d), n + 1, window)
    ensures KeptNext(kept, n, window, d) == if d < window then kept[d := n] else kept
  {
    assert d % (n + 1) == d by {
      SmallMod(d, n + 1);
    }
  }

  lemma SmallMod(d: nat, n: nat)
    requires d < n
    ensures d % n == d
  {
  }

  /** `x` of the ways are `count` shares of `total` parts of `each`. */
  predicate Share(x: nat, total: nat, count: nat, each: nat) {
    x * total == count * each
  }

  lemma AddShares(x: nat, y: nat, total: nat, a: nat, b: nat, each: nat)
    requires Share(x, total, a, each) && Share(y, total, b, each)
    ensures Share(x + y, total, a + b, each)
  {
    assert (x + y) * total == x * total + y * total;
    assert (a + b) * each == a * each + b * each;
  }

  lemma NoShare(total: nat, each: nat)
    ensures Share(0, total, 0, each)
  {
  }

  /** Shares of all draws for reading `n` are shares of the draws from there on. */
  lemma ShareOfAll(x: nat, total: nat, count: nat, n: nat)
    requires n < total
    ensures Share(x, total, count, (n + 1) * Ways(n + 1, total)) <==> Share(x, total, count, Ways(n, total))
  {
  }

  lemma SwapShares(x: nat, total: nat, a: nat, b: nat, c: nat)
    ensures Share(x, total, a, b * c) <==> Share(x, total, b, a * c)
  {
    assert a * (b * c) == (a * b) * c;
    assert b * (a * c) == (b * a) * c;
  }

  lemma OneShare(x: nat, total: nat, a: nat, each: nat)
    ensures Share(x, total, a, each) <==> Share(x, total, 1, a * each)
  {
  }

  /** A reading that is not in the reservoir any more never comes back. */
  lemma {:induction false} GoneStaysGone(kept: seq<nat>, n: nat, total: nat, window: nat, j: nat)
    requires n <= total && Full(kept, n, window) && j < n && j !in kept
    ensures Keeping(kept, n, total, window, j) == 0
    decreases total - n
  {
    if n < total {
      var d := 0;
      while d < n + 1
        invariant d <= n + 1 && KeepingBelow(kept, n, total, window, j, d) == 0
      {
        NextIsFull(kept, n, window, d);
        GoneStaysGone(KeptNext(kept, n, window, d), n + 1, total, window, j);
        d := d + 1;
      }
    }
  }

  /** One draw either evicts the reading in slot `s` or leaves it there. */
  lemma {:induction false} HeldOnce(kept: seq<nat>, n: nat, total: nat, window: nat, s: nat, d: nat)
    requires n < total && Full(kept, n, window) && s < window && d <= n
    ensures Share(Keeping(KeptNext(kept, n, window, d), n + 1, total, window, kept[s]), total,
                  if d == s then 0 else 1, (n + 1) * Ways(n + 1, total))
    decreases total - n, 0
  {
    hide KeptNext, Keeping, Ways, Share;
    var next := KeptNext(kept, n, window, d);
    NextIsFull(kept, n, window, d);
    if d == s {
      assert kept[s] !in next;
      GoneStaysGone(next, n + 1, total, window, kept[s]);
      NoShare(total, (n + 1) * Ways(n + 1, total));
    } else {
      assert next[s] == kept[s];
      HeldIsKept(next, n + 1, total, window, s);
      OneShare(Keeping(next, n + 1, total, window, kept[s]), total, n + 1, Ways(n + 1, total));
    }
  }

  /** How many of the first `draws` draws do not evict slot `s`. */
  function Harmless(s: nat, draws: nat): nat {
    if s < draws then draws - 1 else draws
  }

  lemma {:induction false} SumOfHeld(kept: seq<nat>, n: nat, total: nat, window: nat, s: nat, draws: nat, each: nat)
    requires n < total && Full(kept, n, window) && s < window && draws <= n + 1
    requires each == (n + 1) * Ways(n + 1, total)
    ensures Share(KeepingBelow(kept, n, total, window, kept[s], draws), total, Harmless(s, draws), each)
    decreases total - n, 1, draws
  {
    var j := kept[s];
    hide KeptNext, Keeping, Ways, Full, Share;
    if draws == 0 {
      NoShare(total, each);
    } else {
      SumOfHeld(kept, n, total, window, s, draws - 1, each);
      HeldOnce(kept, n, total, window, s, draws - 1);
      AddShares(KeepingBelow(kept, n, total, window, j, draws - 1),
                Keeping(KeptNext(kept, n, window, draws - 1), n + 1, total, window, j), total,
                Harmless(s, draws - 1), if draws - 1 == s then 0 else 1, each);
    }
  }

  /** A reading in the reservoir after `n` readings is there after `total` in `n` of `total` ways. */
  lemma {:induction false} HeldIsKept(kept: seq<nat>, n: nat, total: nat, window: nat, s: nat)
    requires n <= total && Full(kept, n, window) && s < window
    ensures Share(Keeping(kept, n, total, window, kept[s]), total, n, Ways(n, total))
    decreases total - n, 2
  {
    assert window <= n;
    if n < total {
      hide Keeping, Ways, Full, Share;
      SumOfHeld(kept, n, total, window, s, n + 1, (n + 1) * Ways(n + 1, total));
      KeepingAll(kept, n, total, window, kept[s]);
      ShareOfAll(Keeping(kept, n, total, window, kept[s]), total, n, n);
    }
  }

  lemma KeepingAll(kept: seq<nat>, n: nat, total: nat, window: nat, j: nat)
    requires n < total
    ensures Keeping(kept, n, total, window, j) == KeepingBelow(kept, n, total, window, j, n + 1)
  {
  }

  lemma {:induction false} SumBefore(kept: seq<nat>, n: nat, total: nat, window: nat, j: nat, draws: nat, each: nat)
    requires n < j < total && Full(kept, n, window) && draws <= n + 1 && each == window * Ways(n + 1, total)
    ensures Share(KeepingBelow(kept, n, total, window, j, draws), total, draws, each)
    decreases total - n, 1, draws
  {
    hide Keeping, Ways, Share;
    if draws == 0 {
      NoShare(total, each);
    } else {
      var next := KeptNext(kept, n, window, draws - 1);
      SumBefore(kept, n, total, window, j, draws - 1, each);
      NextIsFull(kept, n, window, draws - 1);
      ComingIsKept(next, n + 1, total, window, j);
      OneShare(Keeping(next, n + 1, total, window, j), total, window, Ways(n + 1, total));
      AddShares(KeepingBelow(kept, n, total, window, j, draws - 1), Keeping(next, n + 1, total, window, j), total,
                draws - 1, 1, each);
    }
  }

  /** The draw for reading `n` itself puts it in a slot or not. */
  lemma {:induction false} OwnDraw(kept: seq<nat>, n: nat, total: nat, window: nat, d: nat)
    requires n < total && Full(kept, n, window) && d <= n
    ensures Share(Keeping(KeptNext(kept, n, window, d), n + 1, total, window, n), total,
                  if d < window then 1 else 0, (n + 1) * Ways(n + 1, total))
    decreases total - n, 0
  {
    hide KeptNext, Keeping, Ways, Share;
    var next := KeptNext(kept, n, window, d);
    NextIsFull(kept, n, window, d);
    if d < window {
      assert next[d] == n;
      HeldIsKept(next, n + 1, total, window, d);
      OneShare(Keeping(next, n + 1, total, window, n), total, n + 1, Ways(n + 1, total));
    } else {
      assert n !in next;
      GoneStaysGone(next, n + 1, total, window, n);
      NoShare(total, (n + 1) * Ways(n + 1, total));
    }
  }

  lemma {:induction false} SumOfOwn(kept: seq<nat>, n: nat, total: nat, window: nat, draws: nat, each: nat)
    requires n < total && Full(kept, n, window) && draws <= n + 1 && each == (n + 1) * Ways(n + 1, total)
    ensures Share(KeepingBelow(kept, n, total, window, n, draws), total, if draws > window then window else draws, each)
    decreases total - n, 1, draws
  {
    hide KeptNext, Keeping, Ways, Full, Share;
    if draws == 0 {
      NoShare(total, each);
    } else {
      SumOfOwn(kept, n, total, window, draws - 1, each);
      OwnDraw(kept, n, total, window, draws - 1);
      AddShares(KeepingBelow(kept, n, total, window, n, draws - 1),
                Keeping(KeptNext(kept, n, window, draws - 1), n + 1, total, window, n), total,
                if draws - 1 > window then window else draws - 1, if draws - 1 < window then 1 else 0, each);
    }
  }

  /** A reading still to come will be kept in `window` of `total` ways. */
  lemma {:induction false} ComingIsKept(kept: seq<nat>, n: nat, total: nat, window: nat, j: nat)
    requires n <= j < total && Full(kept, n, window)
    ensures Share(Keeping(kept, n, total, window, j), total, window, Ways(n, total))
    decreases total - n, 2
  {
    assert window <= n;
    hide Keeping, Ways, Full, Share;
    var x := Keeping(kept, n, total, window, j);
    KeepingAll(kept, n, total, window, j);
    if n < j {
      SumBefore(kept, n, total, window, j, n + 1, window * Ways(n + 1, total));
      SwapShares(x, total, n + 1, window, Ways(n + 1, total));
    } else {
      SumOfOwn(kept, n, total, window, n + 1, (n + 1) * Ways(n + 1, total));
    }
    ShareOfAll(x, total, window, n);
  }

  /** While the reservoir fills up, draws do not matter. */
  lemma {:induction false} FillingKeeps(n: nat, total: nat, window: nat, j: nat)
    requires n <= window <= total && j < total && window >= 1
    ensures Share(Keeping(seq(n, i => i), n, total, window, j), total, window, Ways(n, total))
    decreases window - n, 1, 0
  {
    hide Keeping, Ways, Share;
    var kept: seq<nat> := seq(n, i => i);
    if n == window {
      if j < n {
        HeldIsKept(kept, n, total, window, j);
        assert kept[j] == j;
      } else {
        ComingIsKept(kept, n, total, window, j);
      }
    } else {
      var x := Keeping(kept, n, total, window, j);
      SumOfFilling(n, total, window, j, n + 1, window * Ways(n + 1, total));
      KeepingAll(kept, n, total, window, j);
      SwapShares(x, total, n + 1, window, Ways(n + 1, total));
      ShareOfAll(x, total, window, n);
    }
  }

  lemma {:induction false} SumOfFilling(n: nat, total: nat, window: nat, j: nat, draws: nat, each: nat)
    requires n < window <= total && j < total && window >= 1 && draws <= n + 1
    requires each == window * Ways(n + 1, total)
    ensures Share(KeepingBelow(seq(n, i => i), n, total, window, j, draws), total, draws, each)
    decreases window - n, 0, draws
  {
    hide Keeping, Ways, Share;
    var kept: seq<nat>, next: seq<nat> := seq(n, i => i), seq(n + 1, i => i);
    if draws == 0 {
      NoShare(total, each);
    } else {
      SumOfFilling(n, total, window, j, draws - 1, each);
      assert KeptNext(kept, n, window, draws - 1) == next;
      FillingKeeps(n + 1, total, window, j);
      OneShare(Keeping(next, n + 1, total, window, j), total, window, Ways(n + 1, total));
      AddShares(KeepingBelow(kept, n, total, window, j, draws - 1), Keeping(next, n + 1, total, window, j), total,
                draws - 1, 1, each);
    }
  }

  /**
   * After `total` readings every one of them, the first as much as the last, is in the reservoir in
   * exactly `window` of every `total` ways to draw.
   */
  lemma ReservoirIsFair(total: nat, window: nat, j: nat)
    requires 1 <= window <= total && j < total
    ensures Keeping([], 0, total, window, j) * total == window * Ways(0, total)
  {
    FillingKeeps(0, total, window, j);
    assert seq(0, i => i) == [];
  }
}
