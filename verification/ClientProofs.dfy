/** What every interleaving of the client's threads keeps. */
module ClientProofs {
  import opened Wrappers
  import opened ClientModel

  // ---- sockets ----------------------------------------------------------------------------

  predicate Ascending(s: seq<nat>) {
    forall i, j :: 0 <= i < j < |s| ==> s[i] < s[j]
  }

  function Current(st: State): seq<Sock> {
    if st.shared.sock.Some? then [st.shared.sock.value] else []
  }

  /** Sockets are published in the order they were made, and retired in that order, all but the published one. */
  ghost predicate SocketInv(st: State) {
    && st.published == st.retired + Current(st)
    && Ascending(st.published)
    && (forall i :: 0 <= i < |st.published| ==> st.published[i] < st.nextSock)
    && (st.connecting.Some? ==> st.shared.sock.None? && st.connecting.value < st.nextSock)
    && (st.connecting.Some? ==> forall i :: 0 <= i < |st.published| ==> st.published[i] < st.connecting.value)
    && (forall s :: s in st.readers <==> s in st.published)
    && (st.shared.sock.Some? ==> st.shared.sock.value in st.readers && !st.readers[st.shared.sock.value].Done?)
  }

  lemma CloseKeepsSockets(st: State, expected: Option<Sock>)
    requires SocketInv(st)
    ensures SocketInv(RunClose(st, expected))
    ensures expected.Some? ==> RunClose(st, expected).shared.sock != expected
  {
    if expected.None? || st.shared.sock == expected {
      assert RunClose(st, expected).retired == st.published;
    }
  }

  lemma PublishKeepsSockets(st: State, stopNow: bool)
    requires SocketInv(st) && st.connecting.Some?
    ensures SocketInv(ConnectStep(st, ConnectPublish(stopNow)))
  {
    var st' := ConnectStep(st, ConnectPublish(stopNow));
    if !st.shared.stop {
      assert st'.published == st.published + [st.connecting.value];
      assert st.published == st.retired;
    }
  }

  /** A step that touches neither the sockets nor the set of readers, nor finishes the published one's. */
  predicate SocketsUntouched(st: State, next: State) {
    && (next.shared.sock, next.connecting, next.nextSock) == (st.shared.sock, st.connecting, st.nextSock)
    && (next.published, next.retired) == (st.published, st.retired)
    && next.readers.Keys == st.readers.Keys
    && (st.shared.sock.Some? && st.shared.sock.value in st.readers && !st.readers[st.shared.sock.value].Done? ==>
          !next.readers[st.shared.sock.value].Done?)
  }

  lemma FrameKeepsSockets(st: State, next: State)
    requires SocketInv(st) && SocketsUntouched(st, next)
    ensures SocketInv(next)
  {
    assert forall s :: s in next.readers <==> s in st.readers.Keys;
  }

  lemma ConnectKeepsSockets(st: State, step: Step)
    requires SocketInv(st) && Enabled(st, step) && (step.ConnectBegin? || step.ConnectFail? || step.ConnectPublish?)
    ensures SocketInv(Next(st, step))
  {
    match step
    case ConnectBegin =>
    case ConnectFail(_) =>
    case ConnectPublish(stopNow) => PublishKeepsSockets(st, stopNow);
  }

  lemma CallKeepsSockets(st: State, step: Step)
    requires SocketInv(st) && Enabled(st, step) && IsCallStep(step)
    ensures SocketInv(Next(st, step))
  {
    hide SocketInv, RunClose;
    if step.CallClose? {
      var on := Some(st.calls[step.rid].on);
      CloseKeepsSockets(st, on);
      RunCloseFrame(st, on);
      FrameKeepsSockets(RunClose(st, on), Next(st, step));
    } else {
      FrameKeepsSockets(st, Next(st, step));
    }
  }

  /** Closing leaves calls, readers and everything but the shared state, the closers and the retired list alone. */
  lemma RunCloseFrame(st: State, expected: Option<Sock>)
    ensures var next := RunClose(st, expected);
            next == st.(shared := next.shared, closers := next.closers, nextCloser := next.nextCloser,
                        retired := next.retired)
  {
  }

  lemma ReaderKeepsSockets(st: State, step: Step)
    requires SocketInv(st) && Enabled(st, step)
    requires step.ReaderReply? || step.ReaderPut? || step.ReaderStop? || step.ReaderClose?
    ensures SocketInv(Next(st, step))
  {
    hide SocketInv, RunClose;
    if step.ReaderClose? {
      CloseKeepsSockets(st, Some(step.s));
      RunCloseFrame(st, Some(step.s));
      FrameKeepsSockets(RunClose(st, Some(step.s)), Next(st, step));
    } else {
      FrameKeepsSockets(st, Next(st, step));
    }
  }

  /** Every step keeps the order of sockets. */
  lemma StepKeepsSockets(st: State, step: Step)
    requires SocketInv(st) && Enabled(st, step)
    ensures SocketInv(Next(st, step))
  {
    hide SocketInv, RunClose, ConnectStep, CallStep, ReaderStep;
    match step
    case ConnectBegin => ConnectKeepsSockets(st, step);
    case ConnectFail(_) => ConnectKeepsSockets(st, step);
    case ConnectPublish(_) => ConnectKeepsSockets(st, step);
    case ReaderReply(_, _) => ReaderKeepsSockets(st, step);
    case ReaderPut(_) => ReaderKeepsSockets(st, step);
    case ReaderStop(_) => ReaderKeepsSockets(st, step);
    case ReaderClose(_) => ReaderKeepsSockets(st, step);
    case FillQueue(_, _) => FrameKeepsSockets(st, Next(st, step));
    case CloserEnd(_) => FrameKeepsSockets(st, Next(st, step));
    case StopSet => FrameKeepsSockets(st, Next(st, step));
    case ShutdownClose =>
      CloseKeepsSockets(st, None);
      FrameKeepsSockets(RunClose(st, None), Next(st, step));
    case StateCallback => FrameKeepsSockets(st, Next(st, step));
    case _ => CallKeepsSockets(st, step);
  }

  // ---- the announced state ----------------------------------------------------------------

  predicate Alternates(s: seq<bool>) {
    forall i :: 0 < i < |s| ==> s[i - 1] != s[i]
  }

  /** `connected` says whether a socket is published; the latest announcement says the same until the client stops. */
  predicate AnnounceInv(st: State) {
    && SharedInv(st.shared)
    && (st.shut ==> st.shared.stop && st.shared.sock.None?)
    && (st.connecting.Some? ==> st.shared.sock.None?)
    && ShownInv(st.shared, st.callbacksRun, st.shown)
  }

  predicate SharedInv(s: Shared) {
    && (s.connected <==> s.sock.Some?)
    && (s.announced.Some? ==> s.announced.value == s.connected)
    && (!s.stop ==> (s.announced.None? <==> s.announcements == []))
    && (!s.stop && s.announcements != [] ==> s.announced == Some(s.announcements[|s.announcements| - 1]))
    && Alternates(s.announcements)
  }

  /** What the user interface was told is a prefix of what was announced: all of it that has come up, until the stop. */
  predicate ShownInv(s: Shared, callbacksRun: nat, shown: seq<bool>) {
    && |shown| <= callbacksRun <= |s.announcements|
    && shown == s.announcements[..|shown|]
    && (!s.stop ==> |shown| == callbacksRun)
  }

  /** Going up or down with the announcement of it keeps both. */
  lemma SetStateKeeps(s: Shared, sock: Option<Sock>, pending: set<Rid>, callbacksRun: nat, shown: seq<bool>)
    requires SharedInv(s) && ShownInv(s, callbacksRun, shown)
    ensures SharedInv(SetState(s.(sock := sock, pending := pending), sock.Some?))
    ensures ShownInv(SetState(s.(sock := sock, pending := pending), sock.Some?), callbacksRun, shown)
  {
  }

  lemma CloseKeepsAnnouncements(st: State, expected: Option<Sock>)
    requires AnnounceInv(st)
    ensures AnnounceInv(RunClose(st, expected))
    ensures RunClose(st, expected).shared.stop == st.shared.stop
    ensures expected.None? ==> RunClose(st, expected).shared.sock.None?
  {
    hide SharedInv, ShownInv;
    SetStateKeeps(st.shared, None, {}, st.callbacksRun, st.shown);
  }

  lemma StopKeeps(s: Shared, callbacksRun: nat, shown: seq<bool>)
    requires SharedInv(s) && ShownInv(s, callbacksRun, shown)
    ensures SharedInv(s.(stop := true)) && ShownInv(s.(stop := true), callbacksRun, shown)
  {
  }

  lemma ConnectKeepsAnnouncements(st: State, step: Step)
    requires AnnounceInv(st) && Enabled(st, step)
    requires step.ConnectBegin? || step.ConnectFail? || step.ConnectPublish?
    ensures AnnounceInv(Next(st, step))
  {
    hide SharedInv, ShownInv, SetState;
    var s := st.shared;
    StopKeeps(s, st.callbacksRun, st.shown);
    if step.ConnectFail? || step.ConnectPublish? {
      var after := Interrupted(s, step.stopNow);
      assert after == s || after == s.(stop := true);
      SetStateKeeps(after, None, s.pending, st.callbacksRun, st.shown);
      assert after.(sock := None, pending := s.pending) == after;
      SetStateKeeps(after, st.connecting, s.pending, st.callbacksRun, st.shown);
      assert after.(sock := st.connecting, pending := s.pending) == after.(sock := st.connecting);
      SetStateStop(after, false);
      SetStateStop(after.(sock := st.connecting), true);
    }
  }

  lemma SetStateStop(s: Shared, ok: bool)
    ensures SetState(s, ok).stop == s.stop && SetState(s, ok).sock == s.sock
  {
  }

  lemma CallbackKeeps(st: State)
    requires AnnounceInv(st) && Enabled(st, StateCallback)
    ensures AnnounceInv(Next(st, StateCallback))
  {
  }

  /** A step that changes at most the pending calls and the next id. */
  lemma FrameKeepsAnnouncements(st: State, next: State)
    requires AnnounceInv(st)
    requires next.shared == st.shared.(pending := next.shared.pending, nextId := next.shared.nextId)
    requires (next.shut, next.connecting, next.callbacksRun, next.shown)
          == (st.shut, st.connecting, st.callbacksRun, st.shown)
    ensures AnnounceInv(next)
  {
  }

  lemma CallKeepsAnnouncements(st: State, step: Step)
    requires AnnounceInv(st) && Enabled(st, step) && IsCallStep(step)
    ensures AnnounceInv(Next(st, step))
  {
    hide AnnounceInv, RunClose;
    if step.CallClose? {
      var on := Some(st.calls[step.rid].on);
      CloseKeepsAnnouncements(st, on);
      FrameKeepsAnnouncements(RunClose(st, on), Next(st, step));
    } else {
      FrameKeepsAnnouncements(st, Next(st, step));
    }
  }

  /** Every step keeps the announcements in order with the sockets. */
  lemma StepKeepsAnnouncements(st: State, step: Step)
    requires AnnounceInv(st) && Enabled(st, step)
    ensures AnnounceInv(Next(st, step))
  {
    hide AnnounceInv, RunClose, ConnectStep, CallStep;
    match step
    case ConnectBegin => ConnectKeepsAnnouncements(st, step);
    case ConnectFail(_) => ConnectKeepsAnnouncements(st, step);
    case ConnectPublish(_) => ConnectKeepsAnnouncements(st, step);
    case ReaderClose(s) =>
      CloseKeepsAnnouncements(st, Some(s));
      FrameKeepsAnnouncements(RunClose(st, Some(s)), Next(st, step));
    case ReaderReply(_, _) => FrameKeepsAnnouncements(st, Next(st, step));
    case ReaderPut(_) => FrameKeepsAnnouncements(st, Next(st, step));
    case ReaderStop(_) => FrameKeepsAnnouncements(st, Next(st, step));
    case FillQueue(_, _) => FrameKeepsAnnouncements(st, Next(st, step));
    case CloserEnd(_) => FrameKeepsAnnouncements(st, Next(st, step));
    case StopSet => StopKeepsAll(st);
    case ShutdownClose =>
      CloseKeepsAnnouncements(st, None);
      ShutKeeps(RunClose(st, None));
    case StateCallback => CallbackKeeps(st);
    case _ => CallKeepsAnnouncements(st, step);
  }

  lemma StopKeepsAll(st: State)
    requires AnnounceInv(st)
    ensures AnnounceInv(Next(st, StopSet))
  {
    hide SharedInv, ShownInv;
    StopKeeps(st.shared, st.callbacksRun, st.shown);
  }

  lemma ShutKeeps(st: State)
    requires AnnounceInv(st) && st.shared.stop && st.shared.sock.None?
    ensures AnnounceInv(st.(shut := true))
  {
  }

  // ---- calls ------------------------------------------------------------------------------

  /** A thread that has closed a socket still has to fill this call's queue. */
  ghost predicate Owed(st: State, rid: Rid) {
    exists c :: c in st.closers && rid in st.closers[c].left
  }

  /** The call is registered under the published socket, has its message, or is owed one. */
  ghost predicate Served(st: State, rid: Rid)
    requires rid in st.calls
  {
    rid in st.shared.pending || st.calls[rid].queue.Some? || Owed(st, rid)
  }

  /** A message or outcome that is a reply was read from the call's own socket; giving up is not an answer. */
  predicate OwnReply(c: CallRec) {
    && (c.queue.Some? && c.queue.value.Reply? ==> c.queue.value.from == c.on)
    && (c.phase.GivingUp? ==> !c.phase.why.Answered?)
    && (c.phase.Leaving? && c.phase.what.Answered? && c.phase.what.m.Reply? ==> c.phase.what.m.from == c.on)
    && (c.phase.Finished? && c.phase.end.Answered? && c.phase.end.m.Reply? ==> c.phase.end.m.from == c.on)
  }

  ghost predicate CallOk(st: State, rid: Rid)
    requires rid in st.calls
  {
    && rid < st.shared.nextId
    && OwnReply(st.calls[rid])
    && (st.calls[rid].phase.Waiting? ==> Served(st, rid))
    && (rid in st.shared.pending ==> st.shared.sock == Some(st.calls[rid].on) && !st.calls[rid].phase.Finished?)
  }

  /** A reader that is about to answer a call is the reader of that call's socket. */
  predicate ReaderOk(st: State, s: Sock)
    requires s in st.readers
  {
    st.readers[s].Putting? ==> st.readers[s].rid in st.calls && st.calls[st.readers[s].rid].on == s
  }

  predicate CloserOk(st: State, c: nat)
    requires c in st.closers
  {
    c < st.nextCloser && st.closers[c].left <= st.calls.Keys
  }

  ghost predicate CallInv(st: State) {
    && (forall rid :: rid in st.calls ==> CallOk(st, rid))
    && st.shared.pending <= st.calls.Keys
    && (forall s :: s in st.readers ==> ReaderOk(st, s))
    && (forall c :: c in st.closers ==> CloserOk(st, c))
  }

  lemma StaysServed(st: State, next: State, rid: Rid)
    requires rid in st.calls && rid in next.calls && Served(st, rid)
    requires rid in st.shared.pending ==> rid in next.shared.pending || Owed(next, rid)
    requires st.calls[rid].queue.Some? ==> next.calls[rid].queue.Some?
    requires forall c :: c in st.closers && rid in st.closers[c].left ==>
               next.calls[rid].queue.Some? || (c in next.closers && rid in next.closers[c].left)
    ensures Served(next, rid)
  {
  }

  /** Closing a socket leaves every registered call owed a message. */
  lemma CloseKeepsCalls(st: State, expected: Option<Sock>)
    requires CallInv(st)
    ensures CallInv(RunClose(st, expected))
  {
    var next := RunClose(st, expected);
    if next != st {
      assert next.closers == st.closers[st.nextCloser := Closer(st.shared.sock, st.shared.pending)];
      assert st.nextCloser in next.closers;
      assert forall c :: c in st.closers ==> CloserOk(st, c) && c in next.closers && next.closers[c] == st.closers[c];
      forall rid | rid in next.calls ensures CallOk(next, rid) {
        assert CallOk(st, rid);
        if st.calls[rid].phase.Waiting? {
          StaysServed(st, next, rid);
        }
      }
      forall c | c in next.closers ensures CloserOk(next, c) {
        assert c != st.nextCloser ==> CloserOk(st, c);
      }
      assert forall s :: s in next.readers ==> ReaderOk(st, s);
    }
  }

  /** Calls, readers and closers as they were, and the pending calls too. */
  lemma FrameKeepsCalls(st: State, next: State)
    requires CallInv(st)
    requires (next.calls, next.closers, next.nextCloser) == (st.calls, st.closers, st.nextCloser)
    requires next.shared.pending == st.shared.pending && next.shared.nextId == st.shared.nextId
    requires st.shared.pending == {} || next.shared.sock == st.shared.sock
    requires forall s :: s in next.readers && next.readers[s].Putting?
                     ==> s in st.readers && next.readers[s] == st.readers[s]
    ensures CallInv(next)
  {
    forall rid | rid in next.calls ensures CallOk(next, rid) {
      assert CallOk(st, rid);
      if st.calls[rid].phase.Waiting? {
        StaysServed(st, next, rid);
      }
    }
    forall s | s in next.readers ensures ReaderOk(next, s) {
      assert s in st.readers ==> ReaderOk(st, s);
    }
    forall c | c in next.closers ensures CloserOk(next, c) {
      assert CloserOk(st, c);
    }
  }

  lemma RegisterKeepsCalls(st: State)
    requires CallInv(st)
    ensures CallInv(CallStep(st, CallBegin))
  {
    var next := CallStep(st, CallBegin);
    if next != st {
      var rid := st.shared.nextId;
      assert rid in st.calls ==> CallOk(st, rid);
      forall r | r in next.calls ensures CallOk(next, r) {
        if r != rid {
          assert CallOk(st, r);
          if st.calls[r].phase.Waiting? {
            StaysServed(st, next, r);
          }
        }
      }
      forall s | s in next.readers ensures ReaderOk(next, s) {
        assert ReaderOk(st, s);
      }
      forall c | c in next.closers ensures CloserOk(next, c) {
        assert CloserOk(st, c);
      }
    }
  }

  /** One call changes, with or without its own entry in the pending calls. */
  lemma OneCallKeeps(st: State, next: State, rid: Rid)
    requires CallInv(st) && rid in st.calls && rid in next.calls
    requires next == st.(calls := st.calls[rid := next.calls[rid]],
                         shared := st.shared.(pending := next.shared.pending))
    requires next.shared.pending == st.shared.pending || next.shared.pending == st.shared.pending - {rid}
    requires next.calls[rid].on == st.calls[rid].on && OwnReply(next.calls[rid]) && !next.calls[rid].phase.Waiting?
    requires next.calls[rid].phase.Finished? ==> rid !in next.shared.pending
    ensures CallInv(next)
  {
    forall r | r in next.calls ensures CallOk(next, r) {
      assert CallOk(st, r);
      if r != rid && st.calls[r].phase.Waiting? {
        StaysServed(st, next, r);
      }
    }
    forall s | s in next.readers ensures ReaderOk(next, s) {
      assert ReaderOk(st, s);
    }
    forall c | c in next.closers ensures CloserOk(next, c) {
      assert CloserOk(st, c);
    }
  }

  lemma CallKeepsCalls(st: State, step: Step)
    requires CallInv(st) && Enabled(st, step) && IsCallStep(step)
    ensures CallInv(Next(st, step))
  {
    hide CallInv, RunClose;
    if step.CallBegin? {
      RegisterKeepsCalls(st);
    } else {
      assert OwnReply(st.calls[step.rid]) by {
        CallOkOf(st, step.rid);
      }
      if step.CallClose? {
        var on := Some(st.calls[step.rid].on);
        CloseKeepsCalls(st, on);
        RunCloseFrame(st, on);
        OneCallKeeps(RunClose(st, on), Next(st, step), step.rid);
      } else {
        OneCallKeeps(st, Next(st, step), step.rid);
      }
    }
  }

  lemma CallOkOf(st: State, rid: Rid)
    requires CallInv(st) && rid in st.calls
    ensures CallOk(st, rid)
  {
  }

  /** Filling a call's queue, and striking it off the list of one closer. */
  lemma PutKeepsCalls(st: State, next: State, rid: Rid, m: Message)
    requires CallInv(st) && rid in st.calls
    requires next == st.(calls := st.calls[rid := Put(st.calls[rid], m)],
                         closers := next.closers, readers := next.readers)
    requires m.Reply? ==> m.from == st.calls[rid].on
    requires next.closers.Keys == st.closers.Keys
    requires forall c :: c in st.closers ==> st.closers[c].left - {rid} <= next.closers[c].left <= st.closers[c].left
    requires forall s :: s in next.readers && next.readers[s].Putting?
                     ==> s in st.readers && next.readers[s] == st.readers[s]
    ensures CallInv(next)
  {
    forall r | r in next.calls ensures CallOk(next, r) {
      assert CallOk(st, r);
      if st.calls[r].phase.Waiting? {
        StaysServed(st, next, r);
      }
    }
    forall s | s in next.readers ensures ReaderOk(next, s) {
      assert s in st.readers ==> ReaderOk(st, s);
    }
    forall c | c in next.closers ensures CloserOk(next, c) {
      assert CloserOk(st, c);
    }
  }

  lemma ReplyKeepsCalls(st: State, s: Sock, rid: Rid)
    requires CallInv(st) && Enabled(st, ReaderReply(s, rid))
    ensures CallInv(Next(st, ReaderReply(s, rid)))
  {
    var next := Next(st, ReaderReply(s, rid));
    if rid in st.calls {
      CallOkOf(st, rid);
    }
    forall r | r in next.calls ensures CallOk(next, r) {
      assert CallOk(st, r);
      if st.calls[r].phase.Waiting? {
        StaysServed(st, next, r);
      }
    }
    forall x | x in next.readers ensures ReaderOk(next, x) {
      assert ReaderOk(st, x);
    }
    forall c | c in next.closers ensures CloserOk(next, c) {
      assert CloserOk(st, c);
    }
  }

  lemma ReaderKeepsCalls(st: State, step: Step)
    requires CallInv(st) && Enabled(st, step)
    requires step.ReaderReply? || step.ReaderPut? || step.ReaderStop? || step.ReaderClose?
    ensures CallInv(Next(st, step))
  {
    hide CallInv, RunClose;
    if step.ReaderReply? {
      ReplyKeepsCalls(st, step.s, step.rid);
    } else if step.ReaderPut? {
      ReaderOkOf(st, step.s);
      PutKeepsCalls(st, Next(st, step), st.readers[step.s].rid, Reply(step.s));
    } else if step.ReaderStop? {
      FrameKeepsCalls(st, Next(st, step));
    } else {
      CloseKeepsCalls(st, Some(step.s));
      RunCloseFrame(st, Some(step.s));
      FrameKeepsCalls(RunClose(st, Some(step.s)), Next(st, step));
    }
  }

  lemma ReaderOkOf(st: State, s: Sock)
    requires CallInv(st) && s in st.readers
    ensures ReaderOk(st, s)
  {
  }

  lemma CloserEndKeepsCalls(st: State, c: nat)
    requires CallInv(st) && Enabled(st, CloserEnd(c))
    ensures CallInv(Next(st, CloserEnd(c)))
  {
    var next := Next(st, CloserEnd(c));
    forall rid | rid in next.calls ensures CallOk(next, rid) {
      assert CallOk(st, rid);
      if st.calls[rid].phase.Waiting? {
        StaysServed(st, next, rid);
      }
    }
    forall s | s in next.readers ensures ReaderOk(next, s) {
      assert ReaderOk(st, s);
    }
    forall d | d in next.closers ensures CloserOk(next, d) {
      assert CloserOk(st, d);
    }
  }

  lemma PendingNeedsSocket(st: State)
    requires CallInv(st)
    ensures st.shared.pending != {} ==> st.shared.sock.Some?
  {
    forall rid | rid in st.shared.pending ensures st.shared.sock.Some? {
      CallOkOf(st, rid);
    }
  }

  lemma ConnectKeepsCalls(st: State, step: Step)
    requires CallInv(st) && Enabled(st, step)
    requires st.connecting.Some? ==> st.shared.sock.None?
    requires step.ConnectBegin? || step.ConnectFail? || step.ConnectPublish?
    ensures CallInv(Next(st, step))
  {
    PendingNeedsSocket(st);
    hide CallInv;
    FrameKeepsCalls(st, Next(st, step));
  }

  /** Every step keeps every call served. */
  lemma StepKeepsCalls(st: State, step: Step)
    requires CallInv(st) && AnnounceInv(st) && Enabled(st, step)
    ensures CallInv(Next(st, step))
  {
    hide CallInv, RunClose, ConnectStep, CallStep, ReaderStep;
    assert st.connecting.Some? ==> st.shared.sock.None?;
    hide AnnounceInv;
    match step
    case ConnectBegin => ConnectKeepsCalls(st, step);
    case ConnectFail(_) => ConnectKeepsCalls(st, step);
    case ConnectPublish(_) => ConnectKeepsCalls(st, step);
    case ReaderReply(_, _) => ReaderKeepsCalls(st, step);
    case ReaderPut(_) => ReaderKeepsCalls(st, step);
    case ReaderStop(_) => ReaderKeepsCalls(st, step);
    case ReaderClose(_) => ReaderKeepsCalls(st, step);
    case FillQueue(c, rid) => PutKeepsCalls(st, Next(st, step), rid, Disconnected);
    case CloserEnd(c) => CloserEndKeepsCalls(st, c);
    case StopSet => FrameKeepsCalls(st, Next(st, step));
    case ShutdownClose =>
      CloseKeepsCalls(st, None);
      FrameKeepsCalls(RunClose(st, None), Next(st, step));
    case StateCallback => FrameKeepsCalls(st, Next(st, step));
    case _ => CallKeepsCalls(st, step);
  }
}
