/** Dwell tracking: how long a condition has been true without interruption. */
module Dwell {
  import opened Wrappers

  type Since = map<string, int>

  datatype Op =
    | Update(key: string, condition: bool, now: int, required: int)
    | Clear(key: string)
    | Gc(now: int)

  const MONTH_MS: int := 30 * 86_400_000

  /** `update`: the new table and the seconds held, once they suffice. */
  function Updated(since: Since, key: string, condition: bool, now: int, required: int): (Since, Option<nat>) {
    if !condition then (since - {key}, None)
    else
      var start := if key in since then since[key] else now;
      if now < start then (since[key := now], None)
      else
        var held := (now - start) / 1000;
        (since[key := start], if held >= required then Some(held) else None)
  }

  function Applied(since: Since, op: Op): Since {
    match op
    case Update(k, c, t, r) => Updated(since, k, c, t, r).0
    case Clear(k) => since - {k}
    case Gc(t) => map k | k in since && t - since[k] < MONTH_MS :: since[k]
  }

  function After(ops: seq<Op>): Since {
    if ops == [] then map[] else Applied(After(ops[..|ops| - 1]), ops[|ops| - 1])
  }

  /** This operation ends a run of the key that started at time `start`. */
  predicate Breaks(op: Op, key: string, start: int) {
    match op
    case Update(k, c, t, _) => k == key && (!c || t < start)
    case Clear(k) => k == key
    case Gc(t) => t - start >= MONTH_MS
  }

  /** Operation `s` starts a run: a true update while the key is idle, or after the clock stepped back. */
  ghost predicate Starts(ops: seq<Op>, key: string, s: nat) {
    && s < |ops| && ops[s].Update? && ops[s].key == key && ops[s].condition
    && (key in After(ops[..s]) ==> ops[s].now < After(ops[..s])[key])
  }

  /** The run that starts at `s` is still going before operation `e`. */
  ghost predicate RunsUntil(ops: seq<Op>, key: string, s: nat, e: nat) {
    && s < e <= |ops| && Starts(ops, key, s)
    && forall i :: s < i < e ==> !Breaks(ops[i], key, ops[s].now)
  }

  /** The table holds, for each key, the start of its unbroken run, and nothing else. */
  lemma {:induction false} TableIsRuns(ops: seq<Op>, key: string, e: nat)
    requires e <= |ops|
    ensures key in After(ops[..e]) ==> exists s: nat :: RunsUntil(ops, key, s, e) && After(ops[..e])[key] == ops[s].now
    ensures forall s: nat :: RunsUntil(ops, key, s, e) ==> key in After(ops[..e]) && After(ops[..e])[key] == ops[s].now
    decreases e
  {
    if e > 0 {
      var n := e - 1;
      assert ops[..e][..n] == ops[..n];
      TableIsRuns(ops, key, n);
      if key in After(ops[..e]) {
        FindRun(ops, key, e);
      }
      forall s: nat | RunsUntil(ops, key, s, e)
        ensures key in After(ops[..e]) && After(ops[..e])[key] == ops[s].now
      {
        if s < n {
          assert RunsUntil(ops, key, s, n);
        }
      }
    }
  }

  lemma FindRun(ops: seq<Op>, key: string, e: nat)
    requires 0 < e <= |ops| && key in After(ops[..e])
    requires key in After(ops[..e - 1]) ==>
      exists s: nat :: RunsUntil(ops, key, s, e - 1) && After(ops[..e - 1])[key] == ops[s].now
    ensures exists s: nat :: RunsUntil(ops, key, s, e) && After(ops[..e])[key] == ops[s].now
  {
    var n := e - 1;
    assert ops[..e][..n] == ops[..n];
    var since := After(ops[..n]);
    if Starts(ops, key, n) {
      assert RunsUntil(ops, key, n, e);
    } else {
      var s: nat :| RunsUntil(ops, key, s, n) && since[key] == ops[s].now;
      assert !Breaks(ops[n], key, ops[s].now);
      assert RunsUntil(ops, key, s, e);
    }
  }

  /** With a true update at `now`, the key's unbroken run has lasted `h` whole seconds. */
  ghost predicate HeldFor(ops: seq<Op>, key: string, now: int, h: nat) {
    || (key !in After(ops) && h == 0)
    || exists s: nat :: RunsUntil(ops, key, s, |ops|) && now >= ops[s].now && h == (now - ops[s].now) / 1000
  }

  /**
   * A true update reports `h` seconds exactly when `h` is at least the requirement and is the whole
   * number of seconds since the start of the key's unbroken run, this update included.
   */
  lemma UpdateReportsRun(ops: seq<Op>, key: string, now: int, required: int, h: nat)
    ensures Updated(After(ops), key, true, now, required).1 == Some(h) <==> h >= required && HeldFor(ops, key, now, h)
  {
    hide After, Breaks;
    assert ops[..|ops|] == ops;
    TableIsRuns(ops, key, |ops|);
    if key in After(ops) {
      var s: nat :| RunsUntil(ops, key, s, |ops|) && After(ops)[key] == ops[s].now;
    }
  }

  /** Nothing interrupted a run: every update of the key since its start was true and none went back in time. */
  lemma RunIsUnbroken(ops: seq<Op>, key: string, s: nat, i: nat)
    requires RunsUntil(ops, key, s, |ops|) && s < i < |ops|
    ensures ops[i].Update? && ops[i].key == key ==> ops[i].condition && ops[i].now >= ops[s].now
    ensures ops[i].Clear? ==> ops[i].key != key
  {
  }

  /** The tracker as the rules use it. */
  class Tracker {
    var since: map<string, int>

    constructor ()
      ensures since == map[]
    {
      since := map[];
    }

    method Update(key: string, condition: bool, now: int, required: int) returns (r: Option<nat>)
      modifies this
      ensures (since, r) == Updated(old(since), key, condition, now, required)
    {
      if !condition {
        since := since - {key};
        return None;
      }
      if key !in since {
        since := since[key := now];
      }
      var start := since[key];
      if now < start {
        since := since[key := now];
        return None;
      }
      var held := (now - start) / 1000;
      assert since[key := start] == since;
      r := if held >= required then Some(held) else None;
    }

    method Clear(key: string)
      modifies this
      ensures since == Applied(old(since), Op.Clear(key))
    {
      since := since - {key};
    }

    method Collect(now: int)
      modifies this
      ensures since == Applied(old(since), Gc(now))
    {
      since := map k | k in since && now - since[k] < MONTH_MS :: since[k];
    }
  }
}
