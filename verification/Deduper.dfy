/** The journal deduper: nothing is lost between reports, and garbage collection is invisible. */
module Deduper {
  import opened Wrappers

  datatype Entry = Entry(last: int, n: nat)
  type Seen = map<string, Entry>

  datatype Op = Admit(key: string, now: int) | Gc(now: int)

  /** `admit`: the new table, and the count to report now, if any. */
  function Admitted(seen: Seen, window: int, key: string, now: int): (Seen, Option<nat>) {
    if key !in seen then (seen[key := Entry(now, 0)], Some(0))
    else
      var e := seen[key];
      if now - e.last < window then (seen[key := Entry(e.last, e.n + 1)], None)
      else (seen[key := Entry(now, 0)], Some(e.n))
  }

  /** `gc` */
  function Collected(seen: Seen, window: int, now: int): Seen {
    map k | k in seen && now - seen[k].last < window * 10 :: seen[k]
  }

  /** The table after a run of operations. */
  function After(ops: seq<Op>, window: int): Seen {
    if ops == [] then map[]
    else
      var seen := After(ops[..|ops| - 1], window);
      match ops[|ops| - 1]
      case Admit(k, t) => Admitted(seen, window, k, t).0
      case Gc(t) => Collected(seen, window, t)
  }

  /** What operation `i` reports. */
  function Report(ops: seq<Op>, window: int, i: nat): Option<nat>
    requires i < |ops| && ops[i].Admit?
  {
    Admitted(After(ops[..i], window), window, ops[i].key, ops[i].now).1
  }

  // ---- conservation -----------------------------------------------------------------------

  predicate NoGc(ops: seq<Op>) {
    forall i :: 0 <= i < |ops| ==> ops[i].Admit?
  }

  /** How often the key was admitted. */
  function Calls(ops: seq<Op>, key: string): nat {
    if ops == [] then 0
    else
      var o := ops[|ops| - 1];
      Calls(ops[..|ops| - 1], key) + if o.Admit? && o.key == key then 1 else 0
  }

  /** Reports of the key, each counted with the calls it stands for: itself and those it says were suppressed. */
  function Accounted(ops: seq<Op>, window: int, key: string): nat
    requires NoGc(ops)
  {
    if ops == [] then 0
    else
      var n := |ops| - 1;
      var r := Report(ops, window, n);
      Accounted(ops[..n], window, key) + if ops[n].key == key && r.Some? then 1 + r.value else 0
  }

  function Waiting(seen: Seen, key: string): nat { if key in seen then seen[key].n else 0 }

  /** Every call is reported, counted in a report, or still waiting to be counted. */
  lemma {:induction false} Conservation(ops: seq<Op>, window: int, key: string)
    requires NoGc(ops)
    ensures Calls(ops, key) == Accounted(ops, window, key) + Waiting(After(ops, window), key)
  {
    if ops != [] {
      Conservation(ops[..|ops| - 1], window, key);
    }
  }

  /** The stored time is that of the key's latest report. */
  ghost predicate LatestReport(ops: seq<Op>, window: int, key: string, i: nat) {
    && i < |ops| && ops[i].Admit? && ops[i].key == key && Report(ops, window, i).Some?
    && forall j :: i < j < |ops| && ops[j].Admit? && ops[j].key == key ==> Report(ops, window, j).None?
  }

  lemma {:induction false} LastIsLatest(ops: seq<Op>, window: int, key: string) returns (i: nat)
    requires NoGc(ops) && key in After(ops, window)
    ensures LatestReport(ops, window, key, i) && After(ops, window)[key].last == ops[i].now
    decreases |ops|
  {
    hide Admitted;
    var n := |ops| - 1;
    var front := ops[..n];
    AdmitFacts(After(front, window), window, ops[n].key, ops[n].now);
    if ops[n].key == key && Report(ops, window, n).Some? {
      i := n;
    } else {
      i := LastIsLatest(front, window, key);
      forall j | 0 <= j < n ensures ops[..j] == front[..j] && ops[j] == front[j] {
      }
    }
  }

  lemma AdmitFacts(seen: Seen, window: int, key: string, now: int)
    ensures var (m, r) := Admitted(seen, window, key, now);
      && m.Keys == seen.Keys + {key} && (forall k :: k in seen && k != key ==> m[k] == seen[k])
      && (r.Some? ==> m[key].last == now && m[key].n == 0)
      && (r.None? ==> key in seen && m[key].last == seen[key].last)
      && (key in seen ==> (r.Some? <==> now - seen[key].last >= window)) && (key !in seen ==> r == Some(0))
  {
  }

  /** Two reports of one key are at least one window apart. */
  lemma ReportsAreSpaced(ops: seq<Op>, window: int, i: nat, j: nat)
    requires NoGc(ops) && window >= 0 && i < j < |ops| && ops[i].key == ops[j].key
    requires Report(ops, window, i).Some? && Report(ops, window, j).Some?
    ensures ops[j].now - ops[i].now >= window
    decreases j
  {
    hide Admitted;
    var front, key := ops[..j], ops[i].key;
    Present(ops, window, i, j);
    var l := LastIsLatest(front, window, key);
    AdmitFacts(After(front, window), window, key, ops[j].now);
    assert ops[l] == front[l] && ops[..l] == front[..l];
    assert front[..i] == ops[..i] && front[i] == ops[i];
    assert Report(front, window, i) == Report(ops, window, i);
    if l > i {
      assert Report(front, window, l) == Report(ops, window, l);
      ReportsAreSpaced(ops, window, i, l);
    }
  }

  lemma {:induction false} Present(ops: seq<Op>, window: int, i: nat, j: nat)
    requires NoGc(ops) && i < j <= |ops|
    ensures ops[i].key in After(ops[..j], window)
    decreases j
  {
    hide Admitted;
    assert ops[..j][..j - 1] == ops[..j - 1];
    AdmitFacts(After(ops[..j - 1], window), window, ops[j - 1].key, ops[j - 1].now);
    if i < j - 1 {
      Present(ops, window, i, j - 1);
    }
  }

  /** What the table holds of a key: when it was reported last, and how often it was admitted since. */
  lemma {:induction false} SinceReport(ops: seq<Op>, window: int, key: string, i: nat)
    requires NoGc(ops) && LatestReport(ops, window, key, i)
    ensures key in After(ops, window) && After(ops, window)[key].last == ops[i].now
    ensures After(ops, window)[key].n == Calls(ops, key) - Calls(ops[..i + 1], key)
    decreases |ops|
  {
    hide Admitted;
    var n := |ops| - 1;
    var front := ops[..n];
    AdmitFacts(After(front, window), window, ops[n].key, ops[n].now);
    if i == n {
      assert ops[..i + 1] == ops;
    } else {
      assert front[..i] == ops[..i] && front[i] == ops[i] && front[..i + 1] == ops[..i + 1];
      assert Report(front, window, i) == Report(ops, window, i);
      forall j | i < j < n && front[j].key == key ensures Report(front, window, j).None? {
        assert front[..j] == ops[..j] && Report(ops, window, j).None?;
      }
      SinceReport(front, window, key, i);
      if ops[n].key == key {
        assert Report(ops, window, n).None?;
        CountsUp(After(front, window), window, key, ops[n].now);
      }
    }
  }

  lemma CountsUp(seen: Seen, window: int, key: string, now: int)
    requires Admitted(seen, window, key, now).1.None?
    ensures key in seen && key in Admitted(seen, window, key, now).0
    ensures Admitted(seen, window, key, now).0[key].n == seen[key].n + 1
  {
  }

  /**
   * A call reports exactly if its key was never reported, or was last reported at least a window ago; it
   * then says how many calls of the key there were since.
   */
  lemma ReportsIff(ops: seq<Op>, window: int, i: nat)
    requires NoGc(ops) && i < |ops|
    ensures var front, key, r := ops[..i], ops[i].key, Report(ops, window, i);
      && (r.Some? <==>
            forall j: nat :: LatestReport(front, window, key, j) ==> ops[i].now - front[j].now >= window)
      && (r.Some? ==>
            && (forall j: nat :: LatestReport(front, window, key, j) ==>
                  r.value == Calls(front, key) - Calls(front[..j + 1], key))
            && (r.value == 0 || exists j: nat :: LatestReport(front, window, key, j)))
  {
    hide Admitted, After;
    var front, key := ops[..i], ops[i].key;
    var seen := After(front, window);
    AdmitAnswer(seen, window, key, ops[i].now);
    if key in seen {
      var j := LastIsLatest(front, window, key);
      SinceReport(front, window, key, j);
    }
    forall j: nat | LatestReport(front, window, key, j)
      ensures key in seen && seen[key].last == front[j].now
      ensures seen[key].n == Calls(front, key) - Calls(front[..j + 1], key)
    {
      SinceReport(front, window, key, j);
    }
  }

  lemma AdmitAnswer(seen: Seen, window: int, key: string, now: int)
    ensures var r := Admitted(seen, window, key, now).1;
      && (key !in seen ==> r == Some(0))
      && (key in seen ==> r == if now - seen[key].last >= window then Some(seen[key].n) else None)
  {
  }

  // ---- garbage collection is invisible ------------------------------------------------------

  predicate Ordered(ops: seq<Op>) {
    forall i, j :: 0 <= i < j < |ops| ==> ops[i].now <= ops[j].now
  }

  /** The same run without its gc calls. */
  function Strip(ops: seq<Op>): seq<Op> {
    if ops == [] then []
    else
      var rest := Strip(ops[..|ops| - 1]);
      if ops[|ops| - 1].Admit? then rest + [ops[|ops| - 1]] else rest
  }

  /** Collected and uncollected tables: the missing keys are those whose window has long passed. */
  ghost predicate Related(seen: Seen, full: Seen, window: int, now: int) {
    && (forall k :: k in seen ==> k in full && full[k].last == seen[k].last)
    && (forall k :: k in full ==> full[k].last <= now)
    && (forall k :: k in full && k !in seen ==> now - full[k].last >= window)
  }

  lemma {:induction false} StripRelated(ops: seq<Op>, window: int, now: int)
    requires Ordered(ops) && (ops != [] ==> ops[|ops| - 1].now <= now)
    ensures Related(After(ops, window), After(Strip(ops), window), window, now)
    decreases |ops|
  {
    hide Admitted, Related;
    if ops == [] {
      EmptyRelated(window, now);
    } else {
      var n := |ops| - 1;
      var front, t := ops[..n], ops[n].now;
      StripRelated(front, window, t);
      var seen, full := After(front, window), After(Strip(front), window);
      match ops[n]
      case Admit(k, _) =>
        assert Strip(ops)[..|Strip(front)|] == Strip(front);
        AdmitRelated(seen, full, window, k, t);
        LaterRelated(Admitted(seen, window, k, t).0, Admitted(full, window, k, t).0, window, t, now);
      case Gc(_) =>
        CollectRelated(seen, full, window, t);
        LaterRelated(Collected(seen, window, t), full, window, t, now);
    }
  }

  lemma EmptyRelated(window: int, now: int)
    ensures Related(map[], map[], window, now)
  {
  }

  /** What a collection drops was last reported ten windows ago. */
  lemma CollectRelated(seen: Seen, full: Seen, window: int, now: int)
    requires Related(seen, full, window, now)
    ensures Related(Collected(seen, window, now), full, window, now)
  {
  }

  /** Collection keeps a key exactly for ten windows after its last report. */
  lemma CollectedIff(seen: Seen, window: int, now: int, key: string)
    requires key in seen
    ensures key in Collected(seen, window, now) <==> now - seen[key].last < 10 * window
    ensures key in Collected(seen, window, now) ==> Collected(seen, window, now)[key] == seen[key]
  {
  }

  lemma AdmitRelated(seen: Seen, full: Seen, window: int, key: string, now: int)
    requires Related(seen, full, window, now)
    ensures Related(Admitted(seen, window, key, now).0, Admitted(full, window, key, now).0, window, now)
  {
    hide Admitted;
    AdmitFacts(seen, window, key, now);
    AdmitFacts(full, window, key, now);
  }

  lemma LaterRelated(seen: Seen, full: Seen, window: int, now: int, later: int)
    requires Related(seen, full, window, now) && now <= later
    ensures Related(seen, full, window, later)
  {
  }

  /**
   * For non-decreasing times, garbage collection anywhere in the run never changes which calls report:
   * call `i` reports exactly when the same call reports in the run without any collection.
   */
  lemma GcIsInvisible(ops: seq<Op>, window: int, i: nat)
    requires Ordered(ops) && i < |ops| && ops[i].Admit?
    ensures var plain := Strip(ops[..i + 1]);
      var j := |plain| - 1;
      j >= 0 && plain[j] == ops[i] && (Report(ops, window, i).Some? <==> Report(plain, window, j).Some?)
  {
    hide Admitted, After, Collected;
    var front := ops[..i];
    assert ops[..i + 1][..i] == front;
    var plain := Strip(ops[..i + 1]);
    assert plain == Strip(front) + [ops[i]];
    assert plain[..|plain| - 1] == Strip(front);
    StripRelated(front, window, ops[i].now);
    hide Related, Strip, Ordered;
    SameReport(After(front, window), After(Strip(front), window), window, ops[i].key, ops[i].now);
  }

  lemma SameReport(seen: Seen, full: Seen, window: int, key: string, now: int)
    requires Related(seen, full, window, now)
    ensures Admitted(seen, window, key, now).1.Some? <==> Admitted(full, window, key, now).1.Some?
  {
  }

  lemma {:induction false} StripPrefix(ops: seq<Op>, i: nat, j: nat)
    requires i <= j <= |ops|
    ensures Strip(ops[..i]) <= Strip(ops[..j])
    decreases j
  {
    if i < j {
      assert ops[..j][..j - 1] == ops[..j - 1];
      StripPrefix(ops, i, j - 1);
    }
  }

  lemma {:induction false} StripIsPlain(ops: seq<Op>)
    ensures NoGc(Strip(ops))
    decreases |ops|
  {
    if ops != [] {
      StripIsPlain(ops[..|ops| - 1]);
    }
  }

  /** For non-decreasing times that holds of any run, whatever is collected in between. */
  lemma ReportsAreSpacedWithGc(ops: seq<Op>, window: int, i: nat, j: nat)
    requires Ordered(ops) && window >= 0 && i < j < |ops|
    requires ops[i].Admit? && ops[j].Admit? && ops[i].key == ops[j].key
    requires Report(ops, window, i).Some? && Report(ops, window, j).Some?
    ensures ops[j].now - ops[i].now >= window
  {
    hide Admitted, After, Collected, Ordered;
    var plain, front := Strip(ops[..j + 1]), Strip(ops[..i + 1]);
    GcIsInvisible(ops, window, i);
    GcIsInvisible(ops, window, j);
    StripPrefix(ops, i + 1, j);
    StripIsPlain(ops[..j + 1]);
    assert ops[..j + 1][..j] == ops[..j];
    assert |front| < |plain|;
    var m := |front| - 1;
    assert plain[m] == front[m] && plain[..m] == front[..m];
    assert Report(plain, window, m) == Report(front, window, m);
    ReportsAreSpaced(plain, window, m, |plain| - 1);
  }

  /** The deduper as the daemon keeps it. */
  class Table {
    var seen: map<string, Entry>
    const window: int

    constructor (window: int)
      ensures seen == map[] && this.window == window
    {
      seen := map[];
      this.window := window;
    }

    method AdmitKey(key: string, now: int) returns (r: Option<nat>)
      modifies this
      ensures (seen, r) == Admitted(old(seen), window, key, now)
    {
      if key in seen {
        var e := seen[key];
        if now - e.last < window {
          seen := seen[key := Entry(e.last, e.n + 1)];
          r := None;
        } else {
          r := Some(e.n);
          seen := seen[key := Entry(now, 0)];
        }
      } else {
        seen := seen[key := Entry(now, 0)];
        r := Some(0);
      }
    }

    method Collect(now: int)
      modifies this
      ensures seen == Collected(old(seen), window, now)
    {
      var w := window * 10;
      seen := map k | k in seen && now - seen[k].last < w :: seen[k];
    }
  }
}
