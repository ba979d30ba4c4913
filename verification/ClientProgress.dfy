/** What the protocol gets done: connecting, calling, answering, failing and closing, from any reachable state. */
module ClientProgress {
  import opened Wrappers
  import opened ClientModel
  import opened ClientProofs
  import opened ClientRuns

  // ---- connecting -----------------------------------------------------------------------------

  /** A free client starts a connection on a socket of its own; any other does not. */
  lemma ConnectStarts(states: seq<State>, steps: seq<Step>, k: nat)
    requires Run(states, steps) && k < |states| && states[k].connecting.None?
    ensures var st := states[k];
      var v := Next(st, ConnectBegin);
      && v.shared == st.shared && v.closed == st.closed
      && (st.shared.stop || st.shared.sock.Some? ==> v.connecting.None?)
      && (!st.shared.stop && st.shared.sock.None? ==>
            && v.connecting.Some? && v.connecting.value !in st.closed && v.connecting.value !in st.published)
  {
    hide Run, CallInv, AnnounceInv;
    RunKeepsInv(states, steps, k);
    var st := states[k];
    assert Places(st, st.nextSock) == 0;
  }

  /**
   * A finished handshake is published, unless the client is stopping: the socket is connected, has a
   * reader, is not closed, and the interface will be told, unless the stop comes first.
   */
  lemma PublishWorks(states: seq<State>, steps: seq<Step>, k: nat, stopNow: bool)
    requires Run(states, steps) && k < |states| && states[k].connecting.Some? && !states[k].shared.stop
    ensures var st := states[k];
      var s, v := st.connecting.value, Next(st, ConnectPublish(stopNow));
      && v.shared.sock == Some(s) && v.shared.connected && v.shared.stop == stopNow && v.connecting.None?
      && s in v.readers && v.readers[s] == Reading && v.published == st.published + [s] && s !in v.closed
      && v.shared.announcements == st.shared.announcements + (if stopNow then [] else [true])
      && (v.calls, v.shared.pending, v.shared.nextId) == (st.calls, st.shared.pending, st.shared.nextId)
  {
    hide Run, CallInv;
    RunKeepsInv(states, steps, k);
    var st := states[k];
    assert Places(st, st.connecting.value) == 1;
  }

  /** When the client is stopping, it is closed instead, and nobody is told. */
  lemma StoppedPublishCloses(st: State, stopNow: bool)
    requires st.connecting.Some? && st.shared.stop
    ensures var v := Next(st, ConnectPublish(stopNow));
      v.shared == st.shared && v.connecting.None? && v.published == st.published && st.connecting.value in v.closed
  {
  }

  /** A failed handshake closes its socket, and the interface hears of it once. */
  lemma FailureReported(states: seq<State>, steps: seq<Step>, k: nat, stopNow: bool)
    requires Run(states, steps) && k < |states| && states[k].connecting.Some?
    ensures var st := states[k];
      var v, known := Next(st, ConnectFail(stopNow)), st.shared.announced == Some(false);
      && v.connecting.None? && st.connecting.value in v.closed && v.shared.sock.None? && !v.shared.connected
      && v.shared.announcements
           == st.shared.announcements + (if st.shared.stop || known || stopNow then [] else [false])
      && (!st.shared.stop ==> v.shared.announced == Some(false) && v.shared.stop == stopNow)
      && (st.shared.stop ==> v.shared == st.shared)
  {
    hide Run, CallInv, SocketInv, PlaceInv;
    RunKeepsInv(states, steps, k);
  }

  // ---- calling --------------------------------------------------------------------------------

  /** A call is refused, and leaves no trace, exactly if nothing is published or the client is stopping. */
  lemma CallRegisters(states: seq<State>, steps: seq<Step>, k: nat)
    requires Run(states, steps) && k < |states|
    ensures var st := states[k];
      var v, rid := Next(st, CallBegin), st.shared.nextId;
      && (v == st <==> st.shared.sock.None? || st.shared.stop)
      && (v != st ==>
            && rid !in st.calls && rid !in st.shared.pending
            && v == st.(calls := v.calls, shared := v.shared)
            && v.shared == st.shared.(pending := st.shared.pending + {rid}, nextId := rid + 1)
            && v.calls.Keys == st.calls.Keys + {rid} && (forall r :: r in st.calls ==> v.calls[r] == st.calls[r])
            && v.calls[rid] == CallRec(st.shared.sock.value, Waiting, None))
  {
    hide Run, SocketInv, AnnounceInv, PlaceInv;
    RunKeepsInv(states, steps, k);
    var st := states[k];
    if st.shared.nextId in st.calls {
      CallOkOf(st, st.shared.nextId);
      assert false;
    }
    assert st.shared.nextId !in st.calls.Keys;
  }

  /** A reply read from the published socket reaches the queue of a call that is registered on it. */
  lemma ReplyArrives(st: State, s: Sock, rid: Rid)
    requires CallInv(st) && st.shared.sock == Some(s) && s in st.readers && st.readers[s].Reading?
    requires rid in st.shared.pending && st.calls[rid].queue.None?
    ensures var a := Next(st, ReaderReply(s, rid));
      && Enabled(st, ReaderReply(s, rid)) && Enabled(a, ReaderPut(s))
      && Next(a, ReaderPut(s)) == st.(calls := st.calls[rid := st.calls[rid].(queue := Some(Reply(s)))])
  {
    hide CallOk, ReaderOk, CloserOk;
    var a := Next(st, ReaderReply(s, rid));
    assert a.readers[s := Reading] == st.readers;
  }

  /** A reply to a call that is not registered, or has returned, is dropped. */
  lemma StrayReplyIsDropped(st: State, s: Sock, rid: Rid)
    requires st.shared.sock == Some(s) && s in st.readers && st.readers[s].Reading? && rid !in st.shared.pending
    ensures Next(st, ReaderReply(s, rid)) == st
  {
  }

  /** A reader whose socket is no longer the published one retires at its next reply. */
  lemma ReplacedReaderRetires(st: State, s: Sock, rid: Rid)
    requires st.shared.sock != Some(s) && s in st.readers && st.readers[s].Reading?
    ensures Next(st, ReaderReply(s, rid)) == st.(readers := st.readers[s := Retiring])
  {
  }

  /** The state after steps that are enabled one after the other. */
  function Follow(st: State, steps: seq<Step>): Option<State>
    decreases |steps|
  {
    if steps == [] then Some(st)
    else if Enabled(st, steps[0]) then Follow(Next(st, steps[0]), steps[1..])
    else None
  }

  lemma FollowStep(st: State, step: Step, rest: seq<Step>)
    requires Enabled(st, step)
    ensures Follow(st, [step] + rest) == Follow(Next(st, step), rest)
  {
    hide Enabled, Next;
    assert ([step] + rest)[1..] == rest;
  }

  lemma FollowTwo(st: State, x: Step, y: Step)
    requires Enabled(st, x) && Enabled(Next(st, x), y)
    ensures Follow(st, [x, y]) == Some(Next(Next(st, x), y))
  {
    hide Enabled, Next;
    FollowStep(st, x, [y]);
    FollowStep(Next(st, x), y, []);
    assert [x] + [y] == [x, y] && [y] + [] == [y];
  }

  lemma FollowThree(st: State, x: Step, y: Step, z: Step)
    requires Enabled(st, x) && Enabled(Next(st, x), y) && Enabled(Next(Next(st, x), y), z)
    ensures Follow(st, [x, y, z]) == Some(Next(Next(Next(st, x), y), z))
  {
    hide Enabled, Next;
    FollowStep(st, x, [y, z]);
    FollowTwo(Next(st, x), y, z);
    assert [x] + [y, z] == [x, y, z];
  }

  /** The last step of a call. */
  lemma Leaves(st: State, rid: Rid, what: Outcome)
    requires rid in st.calls && st.calls[rid].phase == Leaving(what)
    ensures Enabled(st, CallLeave(rid))
    ensures Next(st, CallLeave(rid))
         == st.(calls := st.calls[rid := st.calls[rid].(phase := Finished(what))],
                shared := st.shared.(pending := st.shared.pending - {rid}))
  {
  }

  /** A request that is not sent at all fails without touching the socket. */
  lemma RefusedCallKeepsSocket(st: State, rid: Rid)
    requires rid in st.calls && st.calls[rid].phase.Waiting?
    ensures Follow(st, [CallRefuse(rid), CallLeave(rid)])
         == Some(st.(calls := st.calls[rid := st.calls[rid].(phase := Finished(Refused))],
                     shared := st.shared.(pending := st.shared.pending - {rid})))
  {
    hide Follow;
    var a := Next(st, CallRefuse(rid));
    Leaves(a, rid, Refused);
    FollowTwo(st, CallRefuse(rid), CallLeave(rid));
    assert a.calls[rid := st.calls[rid].(phase := Finished(Refused))]
        == st.calls[rid := st.calls[rid].(phase := Finished(Refused))];
  }

  /** Taking the message and leaving. */
  lemma TakesAndLeaves(st: State, rid: Rid, m: Message)
    requires rid in st.calls && st.calls[rid].phase == Waiting && st.calls[rid].queue == Some(m)
    ensures Enabled(st, CallGet(rid)) && Enabled(Next(st, CallGet(rid)), CallLeave(rid))
    ensures Next(Next(st, CallGet(rid)), CallLeave(rid))
         == st.(calls := st.calls[rid := CallRec(st.calls[rid].on, Finished(Answered(m)), None)],
                shared := st.shared.(pending := st.shared.pending - {rid}))
  {
    var a := Next(st, CallGet(rid));
    Leaves(a, rid, Answered(m));
    assert a.calls[rid := CallRec(st.calls[rid].on, Finished(Answered(m)), None)]
        == st.calls[rid := CallRec(st.calls[rid].on, Finished(Answered(m)), None)];
  }

  /**
   * A connected client answers calls: from any reachable state with a published socket whose reader is
   * reading, a new call that the daemon replies to returns that reply, and leaves everything but its own
   * record and the next id as it was.
   */
  lemma CallIsAnswered(states: seq<State>, steps: seq<Step>, k: nat, s: Sock)
    requires Run(states, steps) && k < |states| && states[k].shared.sock == Some(s) && !states[k].shared.stop
    requires s in states[k].readers && states[k].readers[s].Reading?
    ensures var st, rid := states[k], states[k].shared.nextId;
      && rid !in st.calls
      && Follow(st, [CallBegin, ReaderReply(s, rid), ReaderPut(s), CallGet(rid), CallLeave(rid)])
         == Some(st.(calls := st.calls[rid := CallRec(s, Finished(Answered(Reply(s))), None)],
                     shared := st.shared.(nextId := rid + 1)))
  {
    var st, rid := states[k], states[k].shared.nextId;
    RunKeepsInv(states, steps, k);
    CallRegisters(states, steps, k);
    hide Run, Inv, Next, CallInv, Follow, Enabled;
    Begins(st);
    var a := Next(st, CallBegin);
    GetsReply(a, s, rid);
    FollowFive(st, CallBegin, ReaderReply(s, rid), ReaderPut(s), CallGet(rid), CallLeave(rid));
    assert a.calls == st.calls[rid := CallRec(s, Waiting, None)];
    assert a.shared.pending - {rid} == st.shared.pending;
    assert a.calls[rid := CallRec(s, Finished(Answered(Reply(s))), None)]
        == st.calls[rid := CallRec(s, Finished(Answered(Reply(s))), None)];
  }

  lemma FollowFive(st: State, v: Step, w: Step, x: Step, y: Step, z: Step)
    requires Enabled(st, v) && Enabled(Next(st, v), w)
    requires var u := Next(Next(st, v), w);
      Enabled(u, x) && Enabled(Next(u, x), y) && Enabled(Next(Next(u, x), y), z)
    ensures Follow(st, [v, w, x, y, z]) == Some(Next(Next(Next(Next(Next(st, v), w), x), y), z))
  {
    hide Enabled, Next;
    FollowStep(st, v, [w, x, y, z]);
    FollowStep(Next(st, v), w, [x, y, z]);
    FollowThree(Next(Next(st, v), w), x, y, z);
    assert [v] + [w, x, y, z] == [v, w, x, y, z] && [w] + [x, y, z] == [w, x, y, z];
  }

  /** A reply to a registered call, and the call taking it. */
  lemma GetsReply(st: State, s: Sock, rid: Rid)
    requires CallInv(st) && st.shared.sock == Some(s) && s in st.readers && st.readers[s].Reading?
    requires rid in st.shared.pending && rid in st.calls && st.calls[rid] == CallRec(s, Waiting, None)
    ensures var b := Next(st, ReaderReply(s, rid));
      var c := Next(b, ReaderPut(s));
      var d := Next(c, CallGet(rid));
      && Enabled(st, ReaderReply(s, rid)) && Enabled(b, ReaderPut(s)) && Enabled(c, CallGet(rid))
      && Enabled(d, CallLeave(rid))
      && Next(d, CallLeave(rid)) == st.(calls := st.calls[rid := CallRec(s, Finished(Answered(Reply(s))), None)],
                                        shared := st.shared.(pending := st.shared.pending - {rid}))
  {
    ReplyArrives(st, s, rid);
    hide Enabled, Next, CallInv;
    var c := Next(Next(st, ReaderReply(s, rid)), ReaderPut(s));
    TakesAndLeaves(c, rid, Reply(s));
    assert c.calls[rid := CallRec(s, Finished(Answered(Reply(s))), None)]
        == st.calls[rid := CallRec(s, Finished(Answered(Reply(s))), None)];
  }

  lemma Begins(st: State)
    requires Inv(st)
    ensures Enabled(st, CallBegin) && CallInv(Next(st, CallBegin))
  {
    hide SocketInv, PlaceInv, CallInv, AnnounceInv;
    StepKeepsCalls(st, CallBegin);
  }

  // ---- failing and closing ------------------------------------------------------------------

  /** The socket is taken down: unpublished, retired, with a thread that owes every registered call a message. */
  ghost predicate Down(st: State, v: State, s: Sock) {
    && v.shared.sock.None? && !v.shared.connected && v.shared.pending == {}
    && v.retired == st.retired + [s] && Taken(v, s)
    && (forall rid :: rid in st.shared.pending ==> Owed(v, rid))
    && v.shared.announced == Some(false)
  }

  lemma ClosingTakesDown(st: State, expected: Option<Sock>, s: Sock)
    requires Inv(st) && st.shared.sock == Some(s) && (expected.None? || expected == Some(s))
    ensures Down(st, RunClose(st, expected), s)
    ensures st.nextCloser in RunClose(st, expected).closers
    ensures RunClose(st, expected).closers[st.nextCloser] == Closer(Some(s), st.shared.pending)
    ensures RunClose(st, expected).calls == st.calls && RunClose(st, expected).readers == st.readers
  {
    hide CallInv, SocketInv;
    var v := RunClose(st, expected);
    assert v.closers[st.nextCloser] == Closer(Some(s), st.shared.pending);
  }

  lemma GivesUp(st: State, rid: Rid, late: bool)
    requires Inv(st) && rid in st.calls && st.calls[rid].phase.Waiting? && st.calls[rid].queue.None?
    ensures var first := if late then CallTimesOut(rid) else CallWriteFails(rid);
      && Enabled(st, first) && Inv(Next(st, first))
      && Next(st, first) == st.(calls := st.calls[rid := st.calls[rid].(
                                            phase := GivingUp(if late then TimedOut else WriteFailed))])
  {
    hide Inv;
    StepKeepsInv(st, if late then CallTimesOut(rid) else CallWriteFails(rid));
  }

  lemma ClosesOwn(st: State, rid: Rid, why: Outcome)
    requires Inv(st) && rid in st.calls && st.calls[rid].phase == GivingUp(why)
    requires st.shared.sock == Some(st.calls[rid].on)
    ensures Enabled(st, CallClose(rid))
    ensures Down(st, Next(st, CallClose(rid)), st.calls[rid].on)
    ensures Next(st, CallClose(rid)).calls == st.calls[rid := st.calls[rid].(phase := Leaving(why))]
  {
    ClosingTakesDown(st, st.shared.sock, st.calls[rid].on);
    hide Inv, RunClose;
    SameDown(st, RunClose(st, st.shared.sock), Next(st, CallClose(rid)), st.calls[rid].on);
  }

  /** A call that cannot be written, or is not answered in time, fails with that, and takes its socket down. */
  lemma FailedCallTakesDown(states: seq<State>, steps: seq<Step>, k: nat, rid: Rid, late: bool)
    requires Run(states, steps) && k < |states| && rid in states[k].calls
    requires states[k].calls[rid].phase.Waiting? && states[k].calls[rid].queue.None?
    requires states[k].shared.sock == Some(states[k].calls[rid].on)
    ensures var st, why := states[k], if late then TimedOut else WriteFailed;
      var end := Follow(st, [if late then CallTimesOut(rid) else CallWriteFails(rid), CallClose(rid), CallLeave(rid)]);
      && end.Some? && Down(st, end.value, st.calls[rid].on)
      && end.value.calls == st.calls[rid := st.calls[rid].(phase := Finished(why))]
  {
    RunKeepsInv(states, steps, k);
    hide Run, Inv, Enabled, Next, Down, Follow;
    var st, why := states[k], if late then TimedOut else WriteFailed;
    var s, first := st.calls[rid].on, if late then CallTimesOut(rid) else CallWriteFails(rid);
    GivesUp(st, rid, late);
    var a := Next(st, first);
    ClosesOwn(a, rid, why);
    var b := Next(a, CallClose(rid));
    Leaves(b, rid, why);
    FollowThree(st, first, CallClose(rid), CallLeave(rid));
    StillDown(st, a, b, rid, s);
  }

  /** A call that leaves after the close leaves the socket taken down. */
  lemma StillDown(st: State, a: State, b: State, rid: Rid, s: Sock)
    requires Down(a, b, s) && (a.retired, a.shared.pending) == (st.retired, st.shared.pending)
    ensures forall calls :: Down(st, b.(calls := calls, shared := b.shared.(pending := b.shared.pending - {rid})), s)
  {
    forall calls ensures Down(st, b.(calls := calls, shared := b.shared.(pending := b.shared.pending - {rid})), s) {
      SameDown(a, b, b.(calls := calls, shared := b.shared.(pending := b.shared.pending - {rid})), s);
    }
  }

  lemma SameDown(st: State, v: State, u: State, s: Sock)
    requires Down(st, v, s) && u.closers == v.closers && u.retired == v.retired
    requires u.shared == v.shared.(pending := u.shared.pending) && u.shared.pending <= v.shared.pending
    ensures Down(st, u, s)
  {
    forall rid | rid in st.shared.pending ensures Owed(u, rid) {
      assert Owed(v, rid);
    }
  }

  lemma RetiringCloses(st: State, s: Sock)
    requires Inv(st) && st.shared.sock == Some(s) && s in st.readers && st.readers[s].Retiring?
    ensures Enabled(st, ReaderClose(s))
    ensures var v := Next(st, ReaderClose(s));
      && Down(st, v, s) && v.calls == st.calls && v.readers == st.readers[s := Done]
      && st.nextCloser in v.closers && v.closers[st.nextCloser] == Closer(Some(s), st.shared.pending)
  {
    ClosingTakesDown(st, Some(s), s);
    hide Inv, RunClose, Down;
    LikeDown(st, RunClose(st, Some(s)), Next(st, ReaderClose(s)), s);
  }

  lemma LikeDown(st: State, v: State, u: State, s: Sock)
    requires Down(st, v, s) && (u.closers, u.retired, u.shared) == (v.closers, v.retired, v.shared)
    ensures Down(st, u, s)
  {
    SameDown(st, v, u, s);
  }

  lemma DownFrom(a: State, st: State, v: State, s: Sock)
    requires Down(a, v, s) && (a.retired, a.shared.pending) == (st.retired, st.shared.pending)
    ensures Down(st, v, s)
  {
  }

  lemma Retires(st: State, s: Sock)
    requires Inv(st) && s in st.readers && st.readers[s].Reading?
    ensures Enabled(st, ReaderStop(s)) && Inv(Next(st, ReaderStop(s)))
    ensures Next(st, ReaderStop(s)) == st.(readers := st.readers[s := Retiring])
  {
    hide Inv;
    StepKeepsInv(st, ReaderStop(s));
  }

  lemma ReaderTakesDown(st: State, s: Sock)
    requires Inv(st) && st.shared.sock == Some(s) && s in st.readers && st.readers[s].Reading?
    ensures Enabled(st, ReaderStop(s)) && Enabled(Next(st, ReaderStop(s)), ReaderClose(s))
    ensures var v := Next(Next(st, ReaderStop(s)), ReaderClose(s));
      && Down(st, v, s) && v.calls == st.calls && v.readers == st.readers[s := Done]
      && st.nextCloser in v.closers && v.closers[st.nextCloser] == Closer(Some(s), st.shared.pending)
  {
    hide Inv, Enabled, Next, Down;
    Retires(st, s);
    var a := Next(st, ReaderStop(s));
    RetiringCloses(a, s);
    DownFrom(a, st, Next(a, ReaderClose(s)), s);
  }

  /** When the daemon closes the connection, a waiting call is told so, and the socket is taken down. */
  lemma WaiterIsTold(states: seq<State>, steps: seq<Step>, k: nat, s: Sock, rid: Rid)
    requires Run(states, steps) && k < |states| && states[k].shared.sock == Some(s)
    requires s in states[k].readers && states[k].readers[s].Reading?
    requires rid in states[k].shared.pending && rid in states[k].calls
    requires states[k].calls[rid].phase.Waiting? && states[k].calls[rid].queue.None?
    ensures var st := states[k];
      var down := Follow(st, [ReaderStop(s), ReaderClose(s)]);
      && down.Some? && Down(st, down.value, s) && down.value.readers == st.readers[s := Done]
      && var end := Follow(down.value, [FillQueue(st.nextCloser, rid), CallGet(rid), CallLeave(rid)]);
         end.Some? && end.value.calls == st.calls[rid := CallRec(s, Finished(Answered(Disconnected)), None)]
  {
    RunKeepsInv(states, steps, k);
    PendingIsOnPublished(states, steps, k, rid);
    hide Run, Inv, Down, Follow;
    var st := states[k];
    ReaderTakesDown(st, s);
    var b := Next(Next(st, ReaderStop(s)), ReaderClose(s));
    FollowTwo(st, ReaderStop(s), ReaderClose(s));
    QueueIsFilled(b, st.nextCloser, rid);
    hide Enabled, Next;
    var c := Next(b, FillQueue(st.nextCloser, rid));
    TakesAndLeaves(c, rid, Disconnected);
    FollowThree(b, FillQueue(st.nextCloser, rid), CallGet(rid), CallLeave(rid));
    assert c.calls[rid := CallRec(s, Finished(Answered(Disconnected)), None)]
        == st.calls[rid := CallRec(s, Finished(Answered(Disconnected)), None)];
  }

  lemma QueueIsFilled(st: State, c: nat, rid: Rid)
    requires c in st.closers && rid in st.closers[c].left && rid in st.calls && st.calls[rid].queue.None?
    ensures Enabled(st, FillQueue(c, rid))
    ensures Next(st, FillQueue(c, rid)).calls == st.calls[rid := st.calls[rid].(queue := Some(Disconnected))]
  {
  }

  /** A queue that has a message keeps it until its call takes it, whoever else puts into it. */
  lemma QueueStep(st: State, step: Step, rid: Rid)
    requires CallInv(st) && Enabled(st, step) && rid in st.calls && st.calls[rid].queue.Some?
    ensures rid in Next(st, step).calls
    ensures step != CallGet(rid) ==> Next(st, step).calls[rid].queue == st.calls[rid].queue
  {
    hide RunClose;
    CallOkOf(st, rid);
    hide CallInv;
    if step.CallClose? {
      RunCloseFrame(st, Some(st.calls[step.rid].on));
    } else if step.ReaderClose? {
      RunCloseFrame(st, Some(step.s));
    } else if step.ShutdownClose? {
      RunCloseFrame(st, None);
    }
  }

  /** The first message wins: what a call's queue holds stays there until the call takes it. */
  lemma {:induction false} FirstMessageWins(states: seq<State>, steps: seq<Step>, i: nat, j: nat, rid: Rid)
    requires Run(states, steps) && i <= j < |states| && rid in states[i].calls && states[i].calls[rid].queue.Some?
    requires forall k :: i <= k < j ==> steps[k] != CallGet(rid)
    ensures rid in states[j].calls && states[j].calls[rid].queue == states[i].calls[rid].queue
    decreases j
  {
    hide Enabled, Next, SocketInv, AnnounceInv, CallInv, PlaceInv;
    if i < j {
      FirstMessageWins(states, steps, i, j - 1, rid);
      RunKeepsInv(states, steps, j - 1);
      assert Moves(states[j - 1], steps[j - 1], states[j]);
      QueueStep(states[j - 1], steps[j - 1], rid);
    }
  }

  /** A committed thread can always finish: it tells every call it owes, and then closes its socket. */
  lemma {:induction false} CloserFinishes(st: State, c: nat) returns (steps: seq<Step>)
    requires c in st.closers && st.closers[c].left <= st.calls.Keys
    ensures var end := Follow(st, steps);
      && end.Some? && c !in end.value.closers
      && (st.closers[c].took.Some? ==> st.closers[c].took.value in end.value.closed)
      && (forall rid :: rid in st.closers[c].left ==> rid in end.value.calls && end.value.calls[rid].queue.Some?)
      && (forall rid :: rid in st.calls && st.calls[rid].queue.Some? ==>
            rid in end.value.calls && end.value.calls[rid].queue == st.calls[rid].queue)
    decreases |st.closers[c].left|
  {
    hide Follow;
    if st.closers[c].left == {} {
      steps := [CloserEnd(c)];
      CloserCloses(st, c);
      FollowStep(st, CloserEnd(c), []);
      assert [CloserEnd(c)] + [] == steps;
      FollowNothing(Next(st, CloserEnd(c)));
    } else {
      var rid :| rid in st.closers[c].left;
      var next := Next(st, FillQueue(c, rid));
      FillShrinks(st, c, rid);
      var rest := CloserFinishes(next, c);
      steps := [FillQueue(c, rid)] + rest;
      FollowStep(st, FillQueue(c, rid), rest);
    }
  }

  lemma FollowNothing(st: State)
    ensures Follow(st, []) == Some(st)
  {
  }

  lemma FillShrinks(st: State, c: nat, rid: Rid)
    requires c in st.closers && st.closers[c].left <= st.calls.Keys && rid in st.closers[c].left
    ensures Enabled(st, FillQueue(c, rid))
    ensures var v := Next(st, FillQueue(c, rid));
      && c in v.closers && v.closers[c] == Closer(st.closers[c].took, st.closers[c].left - {rid})
      && |v.closers[c].left| < |st.closers[c].left| && v.calls.Keys == st.calls.Keys
      && (forall r :: r in st.calls && r != rid ==> v.calls[r] == st.calls[r])
      && v.calls[rid].queue == if st.calls[rid].queue.Some? then st.calls[rid].queue else Some(Disconnected)
  {
    Smaller(st.closers[c].left, rid);
  }

  lemma Smaller(s: set<Rid>, rid: Rid)
    requires rid in s
    ensures |s - {rid}| < |s|
  {
  }

  /** A thread that has filled its queues closes its socket. */
  lemma CloserCloses(st: State, c: nat)
    requires c in st.closers && st.closers[c].left == {}
    ensures Enabled(st, CloserEnd(c))
    ensures c !in Next(st, CloserEnd(c)).closers && Next(st, CloserEnd(c)).calls == st.calls
    ensures st.closers[c].took.Some? ==> st.closers[c].took.value in Next(st, CloserEnd(c)).closed
  {
  }

  lemma Stops(st: State)
    requires Inv(st)
    ensures Enabled(st, StopSet) && Inv(Next(st, StopSet))
    ensures Next(st, StopSet) == st.(shared := st.shared.(stop := true))
  {
    hide Inv;
    StepKeepsInv(st, StopSet);
  }

  lemma StoppedCloses(st: State, s: Sock)
    requires Inv(st) && st.shared.sock == Some(s) && st.shared.stop
    ensures Enabled(st, ShutdownClose)
    ensures var v := Next(st, ShutdownClose); Down(st, v, s) && v.shut && v.shared.stop
  {
    ClosingTakesDown(st, None, s);
    hide Inv, Down;
    LikeDown(st, RunClose(st, None), Next(st, ShutdownClose), s);
  }

  /** Shutdown takes the published socket down like any other close. */
  lemma ShutdownTakesDown(states: seq<State>, steps: seq<Step>, k: nat, s: Sock)
    requires Run(states, steps) && k < |states| && states[k].shared.sock == Some(s)
    ensures var st := states[k];
      var end := Follow(st, [StopSet, ShutdownClose]);
      end.Some? && Down(st, end.value, s) && end.value.shut && end.value.shared.stop
  {
    hide Run, Inv, Enabled, Next, Down, Follow;
    RunKeepsInv(states, steps, k);
    var st := states[k];
    Stops(st);
    var a := Next(st, StopSet);
    StoppedCloses(a, s);
    FollowTwo(st, StopSet, ShutdownClose);
    DownFrom(a, st, Next(a, ShutdownClose), s);
  }

  /** Until the stop, the interface has been shown all announcements whose callbacks have run. */
  lemma ShownInOrder(states: seq<State>, steps: seq<Step>, k: nat)
    requires Run(states, steps) && k < |states| && !states[k].shared.stop
    ensures states[k].callbacksRun <= |states[k].shared.announcements|
    ensures states[k].shown == states[k].shared.announcements[..states[k].callbacksRun]
  {
    hide Run, CallInv, SocketInv, PlaceInv;
    RunKeepsInv(states, steps, k);
  }
}
