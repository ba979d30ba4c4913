/** However many alerts flap, each severity's notifications stay within its rate limit. */
module AlertRate {
  import TB = TokenBucket
  import opened TokenBucketExact
  import opened AlertModel
  import opened AlertRuns

  /** Operation `k` notifies at this severity, whatever the fingerprint. */
  ghost predicate NotifiesAt(w: World, ops: seq<Op>, k: nat, s: Severity)
    requires AllBuckets(w.m) && k < |ops|
  {
    ops[k].Raise? && ops[k].a.severity == s && Step(After(w, ops, k), ops[k]).1
  }

  ghost function Notifications(w: World, ops: seq<Op>, n: nat, s: Severity): nat
    requires AllBuckets(w.m) && n <= |ops|
    decreases n
  {
    if n == 0 then 0 else Notifications(w, ops, n - 1, s) + if NotifiesAt(w, ops, n - 1, s) then 1 else 0
  }

  /** The run has no restart, and its clock lies in the interval and moves forward. */
  predicate Within(ops: seq<Op>, from: int, to: int) {
    Ordered(ops) && forall k :: 0 <= k < |ops| ==> !ops[k].Restart? && InInterval(ops[k], from, to)
  }

  predicate InInterval(op: Op, from: int, to: int) {
    Time(op).Some? ==> from <= Time(op).value <= to
  }

  function Max(a: int, b: int): int { if a < b then b else a }

  /** What was sent and what is left was there at most at the start or has been earned since. */
  predicate Budgeted(b: TB.Tokens, first: TB.Tokens, sent: nat, from: int) {
    && (b.capacity, b.refill) == (first.capacity, first.refill)
    && (b.last < from ==> sent == 0)
    && sent as real + b.tokens <= first.capacity + TB.Earned(first.refill, Max(b.last, from) - from)
  }

  lemma TakeKeepsBudget(b: TB.Tokens, first: TB.Tokens, sent: nat, from: int, now: int)
    requires TB.Valid(b) && Budgeted(b, first, sent, from) && b.last <= now && from <= now
    ensures Budgeted(TB.Take(b, now).0, first, sent + if TB.Take(b, now).1 then 1 else 0, from)
  {
    hide TB.Earned;
    TB.EarnedFacts(first.refill, now - from, 0);
    if from <= b.last {
      TB.EarnedFacts(first.refill, b.last - from, now - b.last);
    }
  }

  /** One operation: the severity's bucket is left alone and nothing is sent at it, or it is taken from once. */
  lemma StepTakes(w: World, op: Op, s: Severity)
    requires AllBuckets(w.m) && !op.Restart?
    ensures var (v, sent) := Step(w, op);
            var mine := op.Raise? && op.a.severity == s && sent;
            s in v.m.buckets
            && ((v.m.buckets[s] == w.m.buckets[s] && !mine)
                || (op.Raise? && (v.m.buckets[s], mine) == TB.Take(w.m.buckets[s], op.e.now)))
  {
    hide Upsert, Resolve, SetNotifyId, DropResolved, TB.Take, TB.Valid;
  }

  /** No bucket is ahead of the clock of the operations to come. */
  lemma {:induction false} BudgetHolds(w: World, ops: seq<Op>, n: nat, s: Severity, from: int, to: int)
    requires AllBuckets(w.m) && n <= |ops| && Within(ops, from, to) && w.m.buckets[s].last <= from
    ensures Budgeted(After(w, ops, n).m.buckets[s], w.m.buckets[s], Notifications(w, ops, n, s), from)
    ensures forall k :: n <= k < |ops| && ops[k].Raise? ==> After(w, ops, n).m.buckets[s].last <= ops[k].e.now
    decreases n
  {
    hide Step, TB.Take, Budgeted, Ordered;
    if n == 0 {
      StartsWithin(w.m.buckets[s], from);
      assert forall k :: 0 <= k < |ops| && ops[k].Raise? ==> InInterval(ops[k], from, to);
    } else {
      BudgetHolds(w, ops, n - 1, s, from, to);
      var v := After(w, ops, n - 1);
      var op := ops[n - 1];
      StepTakes(v, op, s);
      assert InInterval(op, from, to);
      if op.Raise? {
        TakeKeepsBudget(v.m.buckets[s], w.m.buckets[s], Notifications(w, ops, n - 1, s), from, op.e.now);
        TakeSetsClock(v.m.buckets[s], op.e.now);
        forall k | n <= k < |ops| && ops[k].Raise? ensures op.e.now <= ops[k].e.now {
          InOrder(ops, n - 1, k);
        }
      }
    }
  }

  lemma StartsWithin(b: TB.Tokens, from: int)
    requires TB.Valid(b) && b.last <= from
    ensures Budgeted(b, b, 0, from)
  {
    TB.EarnedFacts(b.refill, 0, 0);
  }

  lemma TakeSetsClock(b: TB.Tokens, now: int)
    ensures TB.Take(b, now).0.last == now
  {
  }

  lemma InOrder(ops: seq<Op>, i: nat, k: nat)
    requires Ordered(ops) && i < k < |ops|
    ensures Earlier(ops[i], ops[k])
  {
  }

  /**
   * In any run without a restart the notifications of one severity, over all fingerprints, number at
   * most the bucket's capacity plus what it earns in the time the run spans.
   */
  lemma NotificationsAreLimited(w: World, ops: seq<Op>, s: Severity, from: int, to: int)
    requires AllBuckets(w.m) && Within(ops, from, to) && w.m.buckets[s].last <= from <= to
    ensures Notifications(w, ops, |ops|, s) as real
         <= w.m.buckets[s].capacity + TB.Earned(w.m.buckets[s].refill, to - from)
  {
    hide Step, TB.Earned, Within, Notifications;
    var n := |ops|;
    BudgetHolds(w, ops, n, s, from, to);
    var b := After(w, ops, n).m.buckets[s];
    ClockBelow(w, ops, n, s, from, to);
    assert s in After(w, ops, n).m.buckets && TB.Valid(b);
    TB.EarnedFacts(w.m.buckets[s].refill, Max(b.last, from) - from, to - Max(b.last, from));
    TB.EarnedFacts(w.m.buckets[s].refill, to - Max(b.last, from), 0);
  }

  lemma {:induction false} ClockBelow(w: World, ops: seq<Op>, n: nat, s: Severity, from: int, to: int)
    requires AllBuckets(w.m) && n <= |ops| && Within(ops, from, to) && w.m.buckets[s].last <= from <= to
    ensures After(w, ops, n).m.buckets[s].last <= to
    decreases n
  {
    hide Step, TB.Take, Ordered;
    if n > 0 {
      ClockBelow(w, ops, n - 1, s, from, to);
      StepTakes(After(w, ops, n - 1), ops[n - 1], s);
      assert InInterval(ops[n - 1], from, to);
      if ops[n - 1].Raise? {
        TakeSetsClock(After(w, ops, n - 1).m.buckets[s], ops[n - 1].e.now);
      }
    }
  }

  /**
   * After a restart with a burst of `burst` and one more every `refillS` seconds, each severity sends at
   * most `burst` notifications, and one more for every `refillS` seconds that pass.
   */
  lemma RestartAllows(w: World, ops: seq<Op>, restart: Op, s: Severity, to: int)
    requires AllBuckets(w.m) && restart.Restart? && restart.refillS > 0
    requires Within(ops, restart.at, to) && restart.at <= to
    ensures AllBuckets(Step(w, restart).0.m)
    ensures Notifications(Step(w, restart).0, ops, |ops|, s) as real
         <= restart.burst as real + (to - restart.at) as real / (1000 * restart.refillS) as real
  {
    hide TB.Earned, Within, Notifications, TB.Valid, Listed, ListedRow, Fingerprints;
    var v := Step(w, restart).0;
    StepKeepsBuckets(w, restart);
    NewBuckets(w, restart, s);
    NotificationsAreLimited(v, ops, s, restart.at, to);
    SlowEarned(to - restart.at, restart.refillS);
  }

  lemma NewBuckets(w: World, restart: Op, s: Severity)
    requires AllBuckets(w.m) && restart.Restart? && restart.refillS > 0
    ensures var m := Step(w, restart).0.m;
      && s in m.buckets && m.buckets[s].capacity == restart.burst as real && m.buckets[s].last == restart.at
      && m.buckets[s].refill == 1.0 / restart.refillS as real
  {
    hide Listed, ListedRow, Fingerprints;
    match s
    case Info =>
    case Notice =>
    case Warning =>
    case Critical =>
  }
}
