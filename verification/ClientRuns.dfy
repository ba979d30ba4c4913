/** The protocol's promises, over every run of every interleaving. */
module ClientRuns {
  import opened Wrappers
  import opened ClientModel
  import opened ClientProofs

  // ---- where every socket is --------------------------------------------------------------

  predicate Takes(st: State, c: nat, s: Sock) {
    c in st.closers && st.closers[c].took == Some(s)
  }

  ghost predicate Taken(st: State, s: Sock) {
    exists c :: c in st.closers && st.closers[c].took == Some(s)
  }

  ghost function Places(st: State, s: Sock): nat {
    (if st.connecting == Some(s) then 1 else 0)
    + (if st.shared.sock == Some(s) then 1 else 0)
    + (if Taken(st, s) then 1 else 0)
    + (if s in st.closed then 1 else 0)
  }

  predicate OneTaker(st: State) {
    forall c, d :: c in st.closers && d in st.closers && SameTaker(st.closers[c], st.closers[d]) ==> c == d
  }

  predicate SameTaker(c: Closer, d: Closer) {
    c.took.Some? && c.took == d.took
  }

  /** Every socket ever made is being connected, published, about to be closed or closed: exactly one of these. */
  ghost predicate PlaceInv(st: State) {
    && OneTaker(st)
    && forall s: Sock :: Places(st, s) == if s < st.nextSock then 1 else 0
  }

  lemma SamePlaces(st: State, next: State)
    requires PlaceInv(st)
    requires (next.connecting, next.shared.sock, next.closed, next.nextSock)
          == (st.connecting, st.shared.sock, st.closed, st.nextSock)
    requires next.closers.Keys == st.closers.Keys
    requires forall c :: c in st.closers ==> next.closers[c].took == st.closers[c].took
    ensures PlaceInv(next)
  {
    forall s: Sock ensures Places(next, s) == Places(st, s) {
      if Taken(st, s) {
        var c :| c in st.closers && st.closers[c].took == Some(s);
        assert c in next.closers;
      }
      if Taken(next, s) {
        var c :| c in next.closers && next.closers[c].took == Some(s);
        assert c in st.closers;
      }
    }
  }

  lemma CloseKeepsPlaces(st: State, expected: Option<Sock>)
    requires PlaceInv(st) && CallInv(st)
    ensures PlaceInv(RunClose(st, expected))
  {
    var next := RunClose(st, expected);
    if next != st {
      var id := st.nextCloser;
      assert id !in st.closers by {
        assert id in st.closers ==> CloserOk(st, id);
      }
      hide CallInv, PlaceInv;
      TakenBy(st);
      forall s: Sock ensures Places(next, s) == Places(st, s) {
        if st.shared.sock == Some(s) {
          assert Places(st, s) == 1;
          assert id in next.closers && next.closers[id].took == Some(s);
        } else if Taken(st, s) {
          var c :| c in st.closers && st.closers[c].took == Some(s);
          assert c in next.closers && next.closers[c].took == Some(s);
        }
        if Taken(next, s) {
          var c :| c in next.closers && next.closers[c].took == Some(s);
          assert c in st.closers || st.shared.sock == Some(s);
        }
      }
      forall c, d | c in next.closers && d in next.closers && SameTaker(next.closers[c], next.closers[d])
        ensures c == d
      {
        var s := next.closers[c].took.value;
        assert Places(st, s) <= 1;
      }
      PlacesAre(st, next);
    }
  }

  lemma TakenBy(st: State)
    requires PlaceInv(st)
    ensures OneTaker(st) && forall s: Sock :: Places(st, s) <= 1
  {
  }

  lemma PlacesAre(st: State, next: State)
    requires PlaceInv(st) && OneTaker(next) && next.nextSock == st.nextSock
    requires forall s: Sock :: Places(next, s) == Places(st, s)
    ensures PlaceInv(next)
  {
  }

  lemma ConnectKeepsPlaces(st: State, step: Step)
    requires PlaceInv(st) && AnnounceInv(st) && Enabled(st, step)
    requires step.ConnectBegin? || step.ConnectFail? || step.ConnectPublish?
    ensures PlaceInv(Next(st, step))
  {
    hide SharedInv, ShownInv;
    var next := Next(st, step);
    assert next.closers == st.closers;
    forall s: Sock ensures Places(next, s) == if s < next.nextSock then 1 else 0 {
      assert Taken(next, s) == Taken(st, s);
      assert Places(st, s) == if s < st.nextSock then 1 else 0;
    }
  }

  lemma CloserEndKeepsPlaces(st: State, c: nat)
    requires PlaceInv(st) && Enabled(st, CloserEnd(c))
    ensures PlaceInv(Next(st, CloserEnd(c)))
  {
    var next := Next(st, CloserEnd(c));
    forall s: Sock ensures Places(next, s) == Places(st, s) {
      if Taken(st, s) {
        var d :| d in st.closers && st.closers[d].took == Some(s);
        assert d != c ==> d in next.closers && next.closers[d].took == Some(s);
      }
      if Taken(next, s) {
        var d :| d in next.closers && next.closers[d].took == Some(s);
        assert d in st.closers && d != c;
      }
      assert Places(st, s) <= 1;
    }
  }

  /** Every step keeps every socket in one place. */
  lemma StepKeepsPlaces(st: State, step: Step)
    requires PlaceInv(st) && AnnounceInv(st) && CallInv(st) && Enabled(st, step)
    ensures PlaceInv(Next(st, step))
  {
    hide PlaceInv, AnnounceInv, CallInv, RunClose, ConnectStep;
    if step.ConnectBegin? || step.ConnectFail? || step.ConnectPublish? {
      ConnectKeepsPlaces(st, step);
    } else if step.CallClose? {
      var on := Some(st.calls[step.rid].on);
      CloseKeepsPlaces(st, on);
      SamePlaces(RunClose(st, on), Next(st, step));
    } else if step.ReaderClose? {
      CloseKeepsPlaces(st, Some(step.s));
      SamePlaces(RunClose(st, Some(step.s)), Next(st, step));
    } else if step.ShutdownClose? {
      CloseKeepsPlaces(st, None);
      SamePlaces(RunClose(st, None), Next(st, step));
    } else if step.CloserEnd? {
      CloserEndKeepsPlaces(st, step.c);
    } else {
      SamePlaces(st, Next(st, step));
    }
  }

  // ---- every run --------------------------------------------------------------------------

  ghost predicate Inv(st: State) {
    SocketInv(st) && AnnounceInv(st) && CallInv(st) && PlaceInv(st)
  }

  lemma InitialInv()
    ensures Inv(INITIAL)
  {
    forall s: Sock ensures Places(INITIAL, s) == 0 {
    }
  }

  lemma StepKeepsInv(st: State, step: Step)
    requires Inv(st) && Enabled(st, step)
    ensures Inv(Next(st, step))
  {
    hide SocketInv, AnnounceInv, CallInv, PlaceInv, Next;
    StepKeepsSockets(st, step);
    StepKeepsAnnouncements(st, step);
    StepKeepsCalls(st, step);
    StepKeepsPlaces(st, step);
  }

  /** The invariant holds in every reachable state. */
  lemma {:induction false} RunKeepsInv(states: seq<State>, steps: seq<Step>, k: nat)
    requires Run(states, steps) && k < |states|
    ensures Inv(states[k])
    decreases k
  {
    hide Inv;
    if k == 0 {
      InitialInv();
    } else {
      RunKeepsInv(states, steps, k - 1);
      assert Moves(states[k - 1], steps[k - 1], states[k]);
      hide Enabled, Next;
      StepKeepsInv(states[k - 1], steps[k - 1]);
    }
  }

  // ---- what it means ----------------------------------------------------------------------

  /** The client is connected exactly while a socket is published, and that socket has a reader still to close it. */
  lemma ConnectedIffPublished(states: seq<State>, steps: seq<Step>, k: nat)
    requires Run(states, steps) && k < |states|
    ensures var st := states[k];
            && (st.shared.connected <==> st.shared.sock.Some?)
            && (st.shared.sock.Some? ==> st.shared.sock.value in st.readers && !st.readers[st.shared.sock.value].Done?)
  {
    RunKeepsInv(states, steps, k);
  }

  /** No socket is published twice or retired twice, and they are retired in the order they were published. */
  lemma PublishedAndRetiredOnce(states: seq<State>, steps: seq<Step>, k: nat)
    requires Run(states, steps) && k < |states|
    ensures var st := states[k];
            && st.published == st.retired + Current(st)
            && (forall i, j :: 0 <= i < j < |st.published| ==> st.published[i] != st.published[j])
  {
    RunKeepsInv(states, steps, k);
  }

  /** A socket that has been retired is closed, or else exactly one thread is committed to closing it. */
  lemma RetiredIsClosed(states: seq<State>, steps: seq<Step>, k: nat, s: Sock)
    requires Run(states, steps) && k < |states| && s in states[k].retired
    ensures s in states[k].closed <==> !Taken(states[k], s)
    ensures forall c, d :: Takes(states[k], c, s) && Takes(states[k], d, s) ==> c == d
  {
    hide Run, CallInv;
    RunKeepsInv(states, steps, k);
    var st := states[k];
    var i :| 0 <= i < |st.retired| && st.retired[i] == s;
    assert st.published[i] == s;
    assert st.shared.sock.Some? ==> st.published[|st.retired|] == st.shared.sock.value;
    assert Places(st, s) == 1;
  }

  /** Only a thread that owns the published socket takes it down: its reader, one of its calls, or shutdown. */
  lemma OnlyOwnersRetire(st: State, step: Step)
    requires Inv(st) && Enabled(st, step) && st.shared.sock.Some?
    ensures var s := st.shared.sock.value;
            Next(st, step).shared.sock != st.shared.sock ==>
              || step == ShutdownClose
              || step == ReaderClose(s)
              || (step.CallClose? && st.calls[step.rid].on == s)
  {
    hide SocketInv, CallInv, PlaceInv, SharedInv, ShownInv;
  }

  /** Every pending call is registered on the published socket, and has not returned yet. */
  lemma PendingIsOnPublished(states: seq<State>, steps: seq<Step>, k: nat, rid: Rid)
    requires Run(states, steps) && k < |states| && rid in states[k].shared.pending
    ensures rid in states[k].calls && states[k].shared.sock == Some(states[k].calls[rid].on)
    ensures !states[k].calls[rid].phase.Finished?
  {
    hide Run, SocketInv, AnnounceInv, PlaceInv;
    RunKeepsInv(states, steps, k);
    assert rid in states[k].calls;
    CallOkOf(states[k], rid);
  }

  /**
   * No waiter is lost: a call still waiting on a socket that is no longer published has a message
   * in its queue, or a thread that closed the socket is committed to putting one there.
   */
  lemma NoLostWaiter(states: seq<State>, steps: seq<Step>, k: nat, rid: Rid)
    requires Run(states, steps) && k < |states| && rid in states[k].calls
    requires states[k].calls[rid].phase.Waiting? && states[k].shared.sock != Some(states[k].calls[rid].on)
    ensures Owed(states[k], rid) || Enabled(states[k], CallGet(rid))
  {
    hide Run, SocketInv, AnnounceInv, PlaceInv;
    RunKeepsInv(states, steps, k);
    CallOkOf(states[k], rid);
  }

  /** A call that is owed a message can be paid at once, and can then take it. */
  lemma DebtIsPayable(states: seq<State>, steps: seq<Step>, k: nat, rid: Rid)
    requires Run(states, steps) && k < |states| && rid in states[k].calls
    requires states[k].calls[rid].phase.Waiting? && Owed(states[k], rid)
    ensures exists c: nat ::
              && Enabled(states[k], FillQueue(c, rid))
              && Enabled(Next(states[k], FillQueue(c, rid)), CallGet(rid))
  {
    var st := states[k];
    var c: nat :| c in st.closers && rid in st.closers[c].left;
    assert Enabled(st, FillQueue(c, rid));
    assert Enabled(Next(st, FillQueue(c, rid)), CallGet(rid));
  }

  /** A reply a call returns was read from the socket the call was made on. */
  lemma RepliesAreOwn(states: seq<State>, steps: seq<Step>, k: nat, rid: Rid)
    requires Run(states, steps) && k < |states| && rid in states[k].calls
    requires states[k].calls[rid].phase.Finished? && states[k].calls[rid].phase.end.Answered?
    requires states[k].calls[rid].phase.end.m.Reply?
    ensures states[k].calls[rid].phase.end.m.from == states[k].calls[rid].on
  {
    hide Run, SocketInv, AnnounceInv, PlaceInv;
    RunKeepsInv(states, steps, k);
    CallOkOf(states[k], rid);
  }

  /** A reader or closer never puts into the queue of a call that does not exist. */
  lemma QueuesExist(states: seq<State>, steps: seq<Step>, k: nat)
    requires Run(states, steps) && k < |states|
    ensures forall s :: s in states[k].readers && states[k].readers[s].Putting?
                    ==> states[k].readers[s].rid in states[k].calls
    ensures forall c :: c in states[k].closers ==> states[k].closers[c].left <= states[k].calls.Keys
  {
    hide Run, SocketInv, AnnounceInv, PlaceInv;
    RunKeepsInv(states, steps, k);
    var st := states[k];
    forall s | s in st.readers && st.readers[s].Putting? ensures st.readers[s].rid in st.calls {
      assert ReaderOk(st, s);
    }
    forall c | c in st.closers ensures st.closers[c].left <= st.calls.Keys {
      assert CloserOk(st, c);
    }
  }

  // ---- one outcome per call ---------------------------------------------------------------

  /** The call has made up its mind. */
  predicate Decided(st: State, rid: Rid, o: Outcome) {
    rid in st.calls && (st.calls[rid].phase == Leaving(o) || st.calls[rid].phase == Finished(o))
  }

  lemma DecidedStays(st: State, step: Step, rid: Rid, o: Outcome)
    requires CallInv(st) && Enabled(st, step) && Decided(st, rid, o)
    ensures Decided(Next(st, step), rid, o)
    ensures st.calls[rid].phase.Finished? ==> Next(st, step).calls[rid].phase.Finished?
  {
    hide CallInv, RunClose;
    CallOkOf(st, rid);
    if step.CallClose? {
      RunCloseFrame(st, Some(st.calls[step.rid].on));
    } else if step.ReaderClose? {
      RunCloseFrame(st, Some(step.s));
    } else if step.ShutdownClose? {
      RunCloseFrame(st, None);
    }
  }

  /** A call's outcome never changes: whatever races with it, it returns once, with the first thing it decided on. */
  lemma {:induction false} OneOutcome(states: seq<State>, steps: seq<Step>, i: nat, j: nat, rid: Rid, o: Outcome)
    requires Run(states, steps) && i <= j < |states| && Decided(states[i], rid, o)
    ensures Decided(states[j], rid, o)
    ensures states[i].calls[rid].phase.Finished? ==> states[j].calls[rid].phase.Finished?
    decreases j
  {
    hide Decided, Enabled, Next, SocketInv, AnnounceInv, CallInv, PlaceInv;
    if i < j {
      OneOutcome(states, steps, i, j - 1, rid, o);
      RunKeepsInv(states, steps, j - 1);
      assert Moves(states[j - 1], steps[j - 1], states[j]);
      InCalls(states[j - 1], rid, o);
      DecidedStays(states[j - 1], steps[j - 1], rid, o);
    }
    InCalls(states[i], rid, o);
    InCalls(states[j], rid, o);
  }

  lemma InCalls(st: State, rid: Rid, o: Outcome)
    requires Decided(st, rid, o)
    ensures rid in st.calls
  {
  }

  // ---- announcements and shutdown ---------------------------------------------------------

  /** Queued state changes alternate, and what the user interface has been shown is a prefix of them. */
  lemma AnnouncementsAlternate(states: seq<State>, steps: seq<Step>, k: nat)
    requires Run(states, steps) && k < |states|
    ensures var s := states[k].shared;
            && (forall i :: 0 < i < |s.announcements| ==> s.announcements[i - 1] != s.announcements[i])
            && states[k].shown <= s.announcements
            && (!s.stop && s.announcements != [] ==> s.announcements[|s.announcements| - 1] == s.sock.Some?)
            && (!s.stop && s.announcements == [] ==> s.sock.None?)
  {
    hide Run, SocketInv, CallInv, PlaceInv;
    RunKeepsInv(states, steps, k);
    UnannouncedIsDown(states, steps, k);
  }

  /** A socket is never published without an announcement having been made or the client stopping. */
  lemma {:induction false} UnannouncedIsDown(states: seq<State>, steps: seq<Step>, k: nat)
    requires Run(states, steps) && k < |states|
    ensures states[k].shared.sock.Some? ==> states[k].shared.announced == Some(true)
    decreases k
  {
    hide SocketInv, CallInv, PlaceInv, AnnounceInv;
    if k > 0 {
      UnannouncedIsDown(states, steps, k - 1);
      assert Moves(states[k - 1], steps[k - 1], states[k]);
      RunKeepsInv(states, steps, k - 1);
      UpIsAnnounced(states[k - 1], steps[k - 1]);
    }
  }

  lemma UpIsAnnounced(st: State, step: Step)
    requires AnnounceInv(st) && Enabled(st, step)
    requires st.shared.sock.Some? ==> st.shared.announced == Some(true)
    ensures Next(st, step).shared.sock.Some? ==> Next(st, step).shared.announced == Some(true)
  {
    hide SharedInv, ShownInv;
  }

  /** After shutdown's close. */
  predicate Over(st: State, later: State) {
    && later.shut
    && later.shared.sock.None?
    && later.published == st.published
    && later.calls.Keys == st.calls.Keys
    && later.shared.announcements == st.shared.announcements
    && later.shown == st.shown
  }

  lemma ShutStays(st: State, step: Step)
    requires AnnounceInv(st) && st.shut && Enabled(st, step)
    ensures Over(st, Next(st, step))
  {
    hide SharedInv, ShownInv;
  }

  /**
   * Once shutdown has closed, no socket is published, no call is registered and nothing is announced or
   * shown, ever.
   */
  lemma {:induction false} NothingAfterShutdown(states: seq<State>, steps: seq<Step>, i: nat, j: nat)
    requires Run(states, steps) && i <= j < |states| && states[i].shut
    ensures Over(states[i], states[j])
    decreases j
  {
    hide Enabled, Next, SocketInv, CallInv, PlaceInv, SharedInv, ShownInv;
    RunKeepsInv(states, steps, i);
    if i < j {
      NothingAfterShutdown(states, steps, i, j - 1);
      RunKeepsInv(states, steps, j - 1);
      assert Moves(states[j - 1], steps[j - 1], states[j]);
      ShutStays(states[j - 1], steps[j - 1]);
    }
  }
}
