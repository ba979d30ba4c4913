/** The client as an object: each method is one block the source runs under its lock, or one queue operation. */
module ClientObject {
  import opened Wrappers
  import opened ClientModel

  /** A call's queue, of capacity one. */
  class Queue {
    var item: Option<Message>

    constructor ()
      ensures item == None
    {
      item := None;
    }

    method PutNowait(m: Message)
      modifies this
      ensures item == AfterPut(old(item), m)
    {
      if item.None? {
        item := Some(m);
      }
    }
  }

  class Client {
    var sock: Option<Sock>
    var connected: bool
    var announced: Option<bool>
    var stop: bool
    var pending: map<Rid, Queue>
    var nextId: Rid
    var announcements: seq<bool>

    function State(): Shared
      reads this
    {
      Shared(sock, connected, announced, stop, pending.Keys, nextId, announcements)
    }

    constructor ()
      ensures State() == INITIAL.shared
    {
      sock, connected, announced, stop := None, false, None, false;
      pending, nextId, announcements := map[], 1, [];
    }

    /** `_set_state` */
    method ChangeState(ok: bool)
      modifies this`connected, this`announced, this`announcements
      ensures State() == SetState(old(State()), ok)
    {
      connected := ok;
      if announced == Some(ok) {
        return;
      }
      announced := Some(ok);
      if !stop {
        announcements := announcements + [ok];
      }
    }

    /** The first block of `connect`: whether there is anything left to connect, and the answer if there is not. */
    method BeginConnect() returns (go: bool, answer: bool)
      ensures go <==> !stop && sock.None?
      ensures !go ==> (answer <==> !stop)
    {
      if stop {
        return false, false;
      }
      if sock.Some? {
        return false, true;
      }
      return true, false;
    }

    method PublishSocket(s: Sock, stopNow: bool) returns (ok: bool)
      modifies this
      ensures (State(), ok) == Publish(old(State()), s, stopNow) && pending == old(pending)
    {
      if stop {
        return false;
      }
      stop := stop || stopNow;
      sock := Some(s);
      ChangeState(true);
      return true;
    }

    method ConnectFailed(stopNow: bool)
      modifies this
      ensures State() == ReportFailure(old(State()), stopNow) && pending == old(pending)
    {
      if !stop {
        stop := stop || stopNow;
        ChangeState(false);
      }
    }

    /** The locked block of `_close`, and then the puts it makes without the lock. */
    method Close(expected: Option<Sock>) returns (taken: Option<Closer>)
      modifies this, pending.Values
      ensures (State(), taken) == TakeDown(old(State()), expected)
      ensures taken.None? ==> forall rid :: rid in old(pending) ==> old(pending)[rid].item == old(pending[rid].item)
      ensures taken.Some? ==>
                forall rid :: rid in old(pending) ==>
                  old(pending)[rid].item == AfterPut(old(pending[rid].item), Disconnected)
    {
      if expected.Some? && sock != expected {
        return None;
      }
      var oldSock, oldPending := sock, pending;
      sock, pending := None, map[];
      assert State() == old(State()).(sock := None, pending := {});
      ChangeState(false);
      taken := Some(Closer(oldSock, oldPending.Keys));
      FillAll(oldPending);
    }

    method FillAll(queues: map<Rid, Queue>)
      modifies queues.Values
      ensures forall rid :: rid in queues ==> queues[rid].item == AfterPut(old(queues[rid].item), Disconnected)
    {
      var left := queues.Keys;
      while left != {}
        invariant left <= queues.Keys
        invariant forall rid :: rid in queues ==>
                    queues[rid].item == old(queues[rid].item)
                    || queues[rid].item == AfterPut(old(queues[rid].item), Disconnected)
        invariant forall rid :: rid in queues && rid !in left ==>
                    queues[rid].item == AfterPut(old(queues[rid].item), Disconnected)
        decreases left
      {
        var rid :| rid in left;
        queues[rid].PutNowait(Disconnected);
        left := left - {rid};
      }
    }

    /** The first block of `call`. */
    method RegisterCall() returns (made: Option<(Rid, Sock)>, q: Queue?)
      modifies this
      ensures (State(), made) == Register(old(State()))
      ensures made.None? ==> q == null && pending == old(pending)
      ensures made.Some? ==>
                && q != null && fresh(q) && q.item == None
                && pending == old(pending)[made.value.0 := q]
    {
      if sock.None? || stop {
        return None, null;
      }
      var rid := nextId;
      nextId := nextId + 1;
      var made' := new Queue();
      q := made';
      pending := pending[rid := q];
      assert pending.Keys == old(pending.Keys) + {rid};
      return Some((rid, sock.value)), q;
    }

    /** The reader's block: has its socket been replaced, and if not, whose reply is this? */
    method FindQueue(s: Sock, rid: Rid) returns (retired: bool, q: Queue?)
      ensures retired <==> sock != Some(s)
      ensures q != null <==> !retired && rid in pending
      ensures q != null ==> q == pending[rid]
    {
      if sock != Some(s) {
        return true, null;
      }
      if rid in pending {
        return false, pending[rid];
      }
      return false, null;
    }

    /** The last block of `call`. */
    method Forget(rid: Rid)
      modifies this`pending
      ensures State() == old(State()).(pending := old(State()).pending - {rid})
      ensures pending == old(pending) - {rid}
    {
      pending := pending - {rid};
      assert pending.Keys == old(pending.Keys) - {rid};
    }
  }
}
