/** The notification rate limiter: how many takes can succeed in any interval. */
module TokenBucket {

  datatype Tokens = Tokens(tokens: real, capacity: real, refill: real, last: int, suppressed: nat)

  /** `Bucket::new`; `refill` is tokens per second. */
  function New(capacity: nat, refillS: int, now: int): Tokens {
    Tokens(capacity as real, capacity as real, if refillS > 0 then 1.0 / refillS as real else 1.0, now, 0)
  }

  predicate Valid(b: Tokens) {
    0.0 <= b.tokens <= b.capacity && b.refill > 0.0
  }

  lemma NewIsValid(capacity: nat, refillS: int, now: int)
    ensures Valid(New(capacity, refillS, now)) && New(capacity, refillS, now).suppressed == 0
  {
    if refillS > 0 {
      assert 1.0 / refillS as real > 0.0;
    }
  }

  /** Tokens earned in `ms` milliseconds. */
  function Earned(refill: real, ms: int): real {
    ms as real / 1000.0 * refill
  }

  function Refilled(b: Tokens, now: int): real {
    var t := b.tokens + Earned(b.refill, if now > b.last then now - b.last else 0);
    if t < b.capacity then t else b.capacity
  }

  /** `take` */
  function Take(b: Tokens, now: int): (Tokens, bool) {
    var t := Refilled(b, now);
    if t >= 1.0 then (b.(tokens := t - 1.0, last := now), true)
    else (b.(tokens := t, last := now, suppressed := b.suppressed + 1), false)
  }

  lemma EarnedFacts(refill: real, a: int, b: int)
    requires refill > 0.0
    ensures Earned(refill, a + b) == Earned(refill, a) + Earned(refill, b)
    ensures a >= 0 ==> Earned(refill, a) >= 0.0
    ensures Earned(refill, 0) == 0.0
  {
  }

  lemma TakeKeepsValid(b: Tokens, now: int)
    requires Valid(b)
    ensures Valid(Take(b, now).0) && Take(b, now).0.capacity == b.capacity && Take(b, now).0.refill == b.refill
  {
    hide Earned;
    EarnedFacts(b.refill, if now > b.last then now - b.last else 0, 0);
  }

  /** The bucket after takes at the given times. */
  function After(b: Tokens, times: seq<int>): Tokens {
    if times == [] then b else Take(After(b, times[..|times| - 1]), times[|times| - 1]).0
  }

  function Succeeds(b: Tokens, times: seq<int>, k: nat): bool
    requires k < |times|
  {
    Take(After(b, times[..k]), times[k]).1
  }

  /** Successful takes among numbers `i..n`. */
  function Successes(b: Tokens, times: seq<int>, i: nat, n: nat): nat
    requires i <= n <= |times|
    decreases n
  {
    if n == i then 0 else Successes(b, times, i, n - 1) + if Succeeds(b, times, n - 1) then 1 else 0
  }

  predicate Ordered(times: seq<int>) {
    forall i, j :: 0 <= i < j < |times| ==> times[i] <= times[j]
  }

  lemma {:induction false} AfterFacts(b: Tokens, times: seq<int>)
    requires Valid(b)
    ensures Valid(After(b, times)) && After(b, times).capacity == b.capacity && After(b, times).refill == b.refill
    ensures times != [] ==> After(b, times).last == times[|times| - 1]
    decreases |times|
  {
    hide Refilled, Valid;
    if times != [] {
      AfterFacts(b, times[..|times| - 1]);
      TakeKeepsValid(After(b, times[..|times| - 1]), times[|times| - 1]);
    }
  }

  /** What was taken since take `i`, plus what is left, was there at most at `i` or has been earned since. */
  lemma {:induction false} Budget(b: Tokens, times: seq<int>, i: nat, n: nat)
    requires Valid(b) && Ordered(times) && i < n <= |times|
    ensures Successes(b, times, i, n) as real + After(b, times[..n]).tokens
         <= b.capacity + Earned(b.refill, times[n - 1] - times[i])
    decreases n
  {
    hide Earned, After, Ordered;
    var front := times[..n - 1];
    AfterFacts(b, front);
    AfterSnoc(b, times, n);
    if n - 1 == i {
      EarnedFacts(b.refill, 0, 0);
    } else {
      Budget(b, times, i, n - 1);
      assert times[n - 2] <= times[n - 1] by {
        OrderedStep(times, n);
      }
      assert front[|front| - 1] == times[n - 2];
      EarnedFacts(b.refill, times[n - 2] - times[i], times[n - 1] - times[n - 2]);
    }
  }

  lemma OrderedStep(times: seq<int>, n: nat)
    requires Ordered(times) && 2 <= n <= |times|
    ensures times[n - 2] <= times[n - 1]
  {
  }

  lemma AfterSnoc(b: Tokens, times: seq<int>, n: nat)
    requires 0 < n <= |times|
    ensures After(b, times[..n]) == Take(After(b, times[..n - 1]), times[n - 1]).0
  {
    assert times[..n][..n - 1] == times[..n - 1];
  }

  /**
   * For non-decreasing times, the takes that succeed among numbers `i` to `j` are at most the
   * capacity plus what is earned between the two.
   */
  lemma RateBound(b: Tokens, times: seq<int>, i: nat, j: nat)
    requires Valid(b) && Ordered(times) && i <= j < |times|
    ensures Successes(b, times, i, j + 1) as real <= b.capacity + Earned(b.refill, times[j] - times[i])
  {
    hide Earned, Successes, After;
    Budget(b, times, i, j + 1);
    AfterFacts(b, times[..j + 1]);
  }

  /** Every failed take is counted once. */
  lemma {:induction false} FailuresCounted(b: Tokens, times: seq<int>, n: nat)
    requires n <= |times|
    ensures After(b, times[..n]).suppressed == b.suppressed + (n - Successes(b, times, 0, n))
    decreases n
  {
    hide Refilled;
    if n > 0 {
      FailuresCounted(b, times, n - 1);
      AfterSnoc(b, times, n);
    }
  }

  /** The bucket as the alert manager keeps it. */
  class Bucket {
    var tokens: real
    const capacity: real
    const refill: real
    var last: int
    var suppressed: nat

    function State(): Tokens
      reads this
    {
      Tokens(tokens, capacity, refill, last, suppressed)
    }

    constructor (capacity: nat, refillS: int, now: int)
      ensures State() == New(capacity, refillS, now) && Valid(State())
    {
      tokens, this.capacity := capacity as real, capacity as real;
      refill := if refillS > 0 then 1.0 / refillS as real else 1.0;
      last, suppressed := now, 0;
      new;
      NewIsValid(capacity, refillS, now);
    }

    method TakeOne(now: int) returns (ok: bool)
      requires Valid(State())
      modifies this
      ensures (State(), ok) == Take(old(State()), now) && Valid(State())
    {
      TakeKeepsValid(State(), now);
      var dt := (if now - last > 0 then now - last else 0) as real / 1000.0;
      var t := tokens + dt * refill;
      tokens := if t < capacity then t else capacity;
      last := now;
      if tokens >= 1.0 {
        tokens := tokens - 1.0;
        ok := true;
      } else {
        suppressed := suppressed + 1;
        ok := false;
      }
    }
  }
}
