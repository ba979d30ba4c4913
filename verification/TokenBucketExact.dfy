/** Exactly when a take succeeds: no stretch that ends with it may use more than the bucket allows. */
module TokenBucketExact {
  import opened TokenBucket

  /** Tokens at hand at take `n`, before it. */
  function Level(b: Tokens, times: seq<int>, n: nat): real
    requires n < |times|
  {
    Refilled(After(b, times[..n]), times[n])
  }

  /** What a full bucket at take `i` would leave for take `n`. */
  function Left(b: Tokens, times: seq<int>, i: nat, n: nat): real
    requires i <= n < |times|
  {
    b.capacity + Earned(b.refill, times[n] - times[i]) - Successes(b, times, i, n) as real
  }

  /** What the tokens at the start leave for take `n`. */
  function LeftOfFirst(b: Tokens, times: seq<int>, n: nat): real
    requires n < |times|
  {
    b.tokens + Earned(b.refill, times[n] - b.last) - Successes(b, times, 0, n) as real
  }

  function Spent(b: Tokens, times: seq<int>, n: nat): real
    requires n < |times|
  {
    if Succeeds(b, times, n) then 1.0 else 0.0
  }

  lemma FirstLevel(b: Tokens, times: seq<int>)
    requires times != [] && b.last <= times[0]
    ensures Level(b, times, 0) == if LeftOfFirst(b, times, 0) < b.capacity then LeftOfFirst(b, times, 0) else b.capacity
    ensures Left(b, times, 0, 0) == b.capacity
  {
    hide Earned;
    assert times[..0] == [];
    assert Earned(b.refill, 0) == 0.0 by {
      ZeroEarned(b.refill);
    }
  }

  lemma ZeroEarned(refill: real)
    ensures Earned(refill, 0) == 0.0
  {
  }

  lemma NextLevel(b: Tokens, times: seq<int>, n: nat)
    requires Valid(b) && Ordered(times) && n + 1 < |times|
    ensures var t := Level(b, times, n) - Spent(b, times, n) + Earned(b.refill, times[n + 1] - times[n]);
      Level(b, times, n + 1) == if t < b.capacity then t else b.capacity
  {
    hide Earned, After, Valid;
    assert times[n] <= times[n + 1];
    AfterFacts(b, times[..n]);
    AfterFacts(b, times[..n + 1]);
    AfterSnoc(b, times, n + 1);
  }

  lemma NextLeft(b: Tokens, times: seq<int>, i: nat, n: nat)
    requires Valid(b) && i <= n && n + 1 < |times|
    ensures Left(b, times, i, n + 1)
         == Left(b, times, i, n) - Spent(b, times, n) + Earned(b.refill, times[n + 1] - times[n])
    ensures LeftOfFirst(b, times, n + 1)
         == LeftOfFirst(b, times, n) - Spent(b, times, n) + Earned(b.refill, times[n + 1] - times[n])
    ensures Left(b, times, n + 1, n + 1) == b.capacity
  {
    hide Earned, Succeeds;
    EarnedFacts(b.refill, times[n] - times[i], times[n + 1] - times[n]);
    EarnedFacts(b.refill, times[n] - b.last, times[n + 1] - times[n]);
    EarnedFacts(b.refill, 0, 0);
  }

  /** The level is the least that any start leaves. */
  lemma {:induction false} LevelIsLeast(b: Tokens, times: seq<int>, n: nat)
    requires Valid(b) && Ordered(times) && n < |times| && b.last <= times[0]
    ensures Level(b, times, n) <= LeftOfFirst(b, times, n)
    ensures forall i: nat :: i <= n ==> Level(b, times, n) <= Left(b, times, i, n)
    ensures Level(b, times, n) == LeftOfFirst(b, times, n)
         || exists i: nat :: i <= n && Level(b, times, n) == Left(b, times, i, n)
    decreases n
  {
    hide Level, Left, LeftOfFirst, Spent, Valid, Ordered, Earned;
    if n == 0 {
      FirstLevel(b, times);
    } else {
      LevelIsLeast(b, times, n - 1);
      NextLevel(b, times, n - 1);
      NextLeft(b, times, 0, n - 1);
      forall i: nat | i < n
        ensures Left(b, times, i, n)
             == Left(b, times, i, n - 1) - Spent(b, times, n - 1) + Earned(b.refill, times[n] - times[n - 1])
      {
        NextLeft(b, times, i, n - 1);
      }
      assert Left(b, times, n, n) == b.capacity;
      if Level(b, times, n) != b.capacity && Level(b, times, n - 1) != LeftOfFirst(b, times, n - 1) {
        var i: nat :| i <= n - 1 && Level(b, times, n - 1) == Left(b, times, i, n - 1);
        assert Level(b, times, n) == Left(b, times, i, n);
      }
    }
  }

  /**
   * A take succeeds exactly if, for every stretch of takes that ends with it, the successes, this one
   * included, are at most the capacity and what is earned in the stretch, and the same holds from the
   * start with the tokens that were there.
   */
  lemma SucceedsIff(b: Tokens, times: seq<int>, n: nat)
    requires Valid(b) && Ordered(times) && n < |times| && b.last <= times[0]
    ensures Succeeds(b, times, n) <==>
              && LeftOfFirst(b, times, n) >= 1.0
              && forall i: nat :: i <= n ==> Left(b, times, i, n) >= 1.0
  {
    hide Level, Left, LeftOfFirst, Valid, Ordered;
    LevelIsLeast(b, times, n);
    SucceedsAtOne(b, times, n);
  }

  lemma SucceedsAtOne(b: Tokens, times: seq<int>, n: nat)
    requires n < |times|
    ensures Succeeds(b, times, n) <==> Level(b, times, n) >= 1.0
  {
  }

  /** The stretch of takes `i` to `n` is within the allowance: `burst` and one more every `refillS` seconds. */
  predicate Allowed(b: Tokens, times: seq<int>, i: nat, n: nat, burst: nat, refillS: int)
    requires i <= n < |times| && refillS > 0
  {
    Successes(b, times, i, n) as real + 1.0 <= burst as real + (times[n] - times[i]) as real / (1000 * refillS) as real
  }

  lemma SlowEarned(ms: int, refillS: int)
    requires refillS > 0
    ensures Earned(1.0 / refillS as real, ms) == ms as real / (1000 * refillS) as real
  {
    var x, r := ms as real, refillS as real;
    assert (1000 * refillS) as real == 1000.0 * r;
    assert x / 1000.0 * (1.0 / r) * (1000.0 * r) == x by {
      Cancels(x, r);
    }
    DivideBoth(x / 1000.0 * (1.0 / r), x, 1000.0 * r);
  }

  lemma Cancels(x: real, r: real)
    requires r > 0.0
    ensures x / 1000.0 * (1.0 / r) * (1000.0 * r) == x
  {
    assert 1.0 / r * r == 1.0;
    assert x / 1000.0 * (1.0 / r) * (1000.0 * r) == x * (1.0 / r * r);
  }

  lemma DivideBoth(y: real, x: real, d: real)
    requires d > 0.0 && y * d == x
    ensures y == x / d
  {
  }

  /**
   * A new bucket of `burst` tokens that earns one every `refillS` seconds, or every second if that is
   * not positive, lets a take pass exactly if no stretch of takes that ends with it goes beyond `burst`
   * and what is earned in it.
   */
  lemma NewBucketIff(burst: nat, refillS: int, now: int, times: seq<int>, n: nat)
    requires Ordered(times) && n < |times| && now <= times[0]
    ensures var b, r := New(burst, refillS, now), if refillS > 0 then refillS else 1;
      Succeeds(b, times, n) <==> forall i: nat :: i <= n ==> Allowed(b, times, i, n, burst, r)
  {
    var b, r := New(burst, refillS, now), if refillS > 0 then refillS else 1;
    NewIsValid(burst, refillS, now);
    assert b.refill == 1.0 / r as real;
    SucceedsIff(b, times, n);
    hide Earned, Successes, Succeeds, Valid, Ordered, New;
    forall i: nat | i <= n ensures Left(b, times, i, n) >= 1.0 <==> Allowed(b, times, i, n, burst, r) {
      SlowEarned(times[n] - times[i], r);
    }
    EarnedFacts(b.refill, times[n] - times[0], times[0] - now);
    EarnedFacts(b.refill, times[0] - now, 0);
    assert LeftOfFirst(b, times, n) >= Left(b, times, 0, n);
  }
}
