/**
 * The desktop client's connection protocol: connectors, callers, readers and shutdown as
 * interleaved atomic steps. A step is one block under the client's lock, one put into a call's
 * queue, or one thread's own move; sockets are opaque numbers.
 */
module ClientModel {
  import opened Wrappers

  type Sock = nat
  type Rid = nat

  /** What the lock protects, and the stop flag, which it does not. */
  datatype Shared = Shared(
    sock: Option<Sock>, connected: bool, announced: Option<bool>, stop: bool, pending: set<Rid>, nextId: Rid,
    announcements: seq<bool>)

  /** What a call's queue can hold: a reply, with the socket it was read from, or the error of a closed socket. */
  datatype Message = Reply(from: Sock) | Disconnected

  datatype Outcome = Answered(m: Message) | Refused | WriteFailed | TimedOut

  datatype Phase = Waiting | GivingUp(why: Outcome) | Leaving(what: Outcome) | Finished(end: Outcome)

  /** A call: the socket it was registered on, its progress, its queue of capacity one. */
  datatype CallRec = CallRec(on: Sock, phase: Phase, queue: Option<Message>)

  datatype Reader = Reading | Putting(rid: Rid) | Retiring | Done

  /** A thread that has run `_close`'s locked block: the socket it took and the queues it has yet to fill. */
  datatype Closer = Closer(took: Option<Sock>, left: set<Rid>)

  datatype State = State(
    shared: Shared, connecting: Option<Sock>, nextSock: Sock, calls: map<Rid, CallRec>, readers: map<Sock, Reader>,
    closers: map<nat, Closer>, nextCloser: nat, shut: bool, closed: set<Sock>, published: seq<Sock>,
    retired: seq<Sock>, callbacksRun: nat, shown: seq<bool>)

  // ---- the locked blocks ------------------------------------------------------------------

  /** `_set_state`; the announcement is queued unless it repeats the last one or the client is stopping. */
  function SetState(s: Shared, ok: bool): Shared {
    if s.announced == Some(ok) then s.(connected := ok)
    else
      s.(connected := ok, announced := Some(ok),
         announcements := if s.stop then s.announcements else s.announcements + [ok])
  }

  /** The locked block of `_close`: whether it took anything, what it took, and the new state. */
  function TakeDown(s: Shared, expected: Option<Sock>): (Shared, Option<Closer>) {
    if expected.Some? && s.sock != expected then (s, None)
    else (SetState(s.(sock := None, pending := {}), false), Some(Closer(s.sock, s.pending)))
  }

  /** The stop flag may be set at any moment, even while another thread holds the lock. */
  function Interrupted(s: Shared, stopNow: bool): Shared {
    s.(stop := s.stop || stopNow)
  }

  /** The last block of `connect`; `stopNow` says that the flag is set between its test and the announcement. */
  function Publish(s: Shared, sock: Sock, stopNow: bool): (Shared, bool) {
    if s.stop then (s, false) else (SetState(Interrupted(s, stopNow).(sock := Some(sock)), true), true)
  }

  /** `connect`'s block after a failed handshake. */
  function ReportFailure(s: Shared, stopNow: bool): Shared {
    if s.stop then s else SetState(Interrupted(s, stopNow), false)
  }

  /** The first block of `call`: refused, or registered under a new id on the published socket. */
  function Register(s: Shared): (Shared, Option<(Rid, Sock)>) {
    if s.sock.None? || s.stop then (s, None)
    else (s.(nextId := s.nextId + 1, pending := s.pending + {s.nextId}), Some((s.nextId, s.sock.value)))
  }

  // ---- steps ------------------------------------------------------------------------------

  datatype Step =
    | ConnectBegin
    | ConnectFail(stopNow: bool)
    | ConnectPublish(stopNow: bool)
    | CallBegin
    | CallRefuse(rid: Rid)
    | CallWriteFails(rid: Rid)
    | CallTimesOut(rid: Rid)
    | CallClose(rid: Rid)
    | CallGet(rid: Rid)
    | CallLeave(rid: Rid)
    | ReaderReply(s: Sock, rid: Rid)
    | ReaderPut(s: Sock)
    | ReaderStop(s: Sock)
    | ReaderClose(s: Sock)
    | FillQueue(c: nat, rid: Rid)
    | CloserEnd(c: nat)
    | StopSet
    | ShutdownClose
    | StateCallback

  predicate InPhase(st: State, rid: Rid, waiting: bool) {
    rid in st.calls && if waiting then st.calls[rid].phase.Waiting? else st.calls[rid].phase.GivingUp?
  }

  predicate Enabled(st: State, step: Step) {
    match step
    case ConnectBegin => st.connecting.None?
    case ConnectFail(_) => st.connecting.Some?
    case ConnectPublish(_) => st.connecting.Some?
    case CallBegin => true
    case CallRefuse(rid) => InPhase(st, rid, true)
    case CallWriteFails(rid) => InPhase(st, rid, true)
    case CallTimesOut(rid) => InPhase(st, rid, true) && st.calls[rid].queue.None?
    case CallClose(rid) => InPhase(st, rid, false)
    case CallGet(rid) => InPhase(st, rid, true) && st.calls[rid].queue.Some?
    case CallLeave(rid) => rid in st.calls && st.calls[rid].phase.Leaving?
    case ReaderReply(s, _) => s in st.readers && st.readers[s].Reading?
    case ReaderPut(s) => s in st.readers && st.readers[s].Putting? && st.readers[s].rid in st.calls
    case ReaderStop(s) => s in st.readers && st.readers[s].Reading?
    case ReaderClose(s) => s in st.readers && st.readers[s].Retiring?
    case FillQueue(c, rid) => c in st.closers && rid in st.closers[c].left && rid in st.calls
    case CloserEnd(c) => c in st.closers && st.closers[c].left == {}
    case StopSet => true
    case ShutdownClose => st.shared.stop
    case StateCallback => st.callbacksRun < |st.shared.announcements|
  }

  /** `put_nowait`: a full queue keeps what it has. */
  function AfterPut(item: Option<Message>, m: Message): Option<Message> {
    if item.Some? then item else Some(m)
  }

  function Put(c: CallRec, m: Message): CallRec {
    c.(queue := AfterPut(c.queue, m))
  }

  function WithPhase(st: State, rid: Rid, p: Phase): State
    requires rid in st.calls
  {
    st.(calls := st.calls[rid := st.calls[rid].(phase := p)])
  }

  /** A thread runs `_close`: the block, after which it still has queues to fill and a socket to close. */
  function RunClose(st: State, expected: Option<Sock>): State {
    var (s, taken) := TakeDown(st.shared, expected);
    if taken.None? then st
    else
      st.(shared := s, closers := st.closers[st.nextCloser := taken.value], nextCloser := st.nextCloser + 1,
          retired := if taken.value.took.Some? then st.retired + [taken.value.took.value] else st.retired)
  }

  function ConnectStep(st: State, step: Step): State
    requires Enabled(st, step) && (step.ConnectBegin? || step.ConnectFail? || step.ConnectPublish?)
  {
    match step
    case ConnectBegin =>
      if st.shared.stop || st.shared.sock.Some? then st
      else st.(connecting := Some(st.nextSock), nextSock := st.nextSock + 1)
    case ConnectFail(stopNow) =>
      st.(shared := ReportFailure(st.shared, stopNow), connecting := None, closed := st.closed + {st.connecting.value})
    case ConnectPublish(stopNow) =>
      var sock := st.connecting.value;
      var (s, ok) := Publish(st.shared, sock, stopNow);
      if ok then
        st.(shared := s, connecting := None, readers := st.readers[sock := Reading], published := st.published + [sock])
      else st.(connecting := None, closed := st.closed + {sock})
  }

  predicate IsCallStep(step: Step) {
    || step.CallBegin? || step.CallRefuse? || step.CallWriteFails? || step.CallTimesOut? || step.CallClose?
    || step.CallGet? || step.CallLeave?
  }

  function CallStep(st: State, step: Step): State
    requires Enabled(st, step) && IsCallStep(step)
  {
    match step
    case CallBegin =>
      var (s, made) := Register(st.shared);
      if made.None? then st
      else st.(shared := s, calls := st.calls[made.value.0 := CallRec(made.value.1, Waiting, None)])
    case CallRefuse(rid) => WithPhase(st, rid, Leaving(Refused))
    case CallWriteFails(rid) => WithPhase(st, rid, GivingUp(WriteFailed))
    case CallTimesOut(rid) => WithPhase(st, rid, GivingUp(TimedOut))
    case CallClose(rid) =>
      WithPhase(RunClose(st, Some(st.calls[rid].on)), rid, Leaving(st.calls[rid].phase.why))
    case CallGet(rid) =>
      var c := st.calls[rid];
      st.(calls := st.calls[rid := CallRec(c.on, Leaving(Answered(c.queue.value)), None)])
    case CallLeave(rid) =>
      WithPhase(st.(shared := st.shared.(pending := st.shared.pending - {rid})), rid,
                Finished(st.calls[rid].phase.what))
  }

  function ReaderStep(st: State, step: Step): State
    requires Enabled(st, step) && (step.ReaderReply? || step.ReaderPut? || step.ReaderStop? || step.ReaderClose?)
  {
    match step
    case ReaderReply(s, rid) =>
      if st.shared.sock != Some(s) then st.(readers := st.readers[s := Retiring])
      else if rid in st.shared.pending then st.(readers := st.readers[s := Putting(rid)])
      else st
    case ReaderPut(s) =>
      var rid := st.readers[s].rid;
      st.(calls := st.calls[rid := Put(st.calls[rid], Reply(s))], readers := st.readers[s := Reading])
    case ReaderStop(s) => st.(readers := st.readers[s := Retiring])
    case ReaderClose(s) => var closing := RunClose(st, Some(s)); closing.(readers := closing.readers[s := Done])
  }

  function OtherStep(st: State, step: Step): State
    requires Enabled(st, step)
    requires step.FillQueue? || step.CloserEnd? || step.StopSet? || step.ShutdownClose? || step.StateCallback?
  {
    match step
    case FillQueue(c, rid) =>
      st.(calls := st.calls[rid := Put(st.calls[rid], Disconnected)],
          closers := st.closers[c := st.closers[c].(left := st.closers[c].left - {rid})])
    case CloserEnd(c) =>
      st.(closers := st.closers - {c},
          closed := st.closed + if st.closers[c].took.Some? then {st.closers[c].took.value} else {})
    case StopSet => st.(shared := st.shared.(stop := true))
    case ShutdownClose => RunClose(st, None).(shut := true)
    case StateCallback =>
      st.(callbacksRun := st.callbacksRun + 1,
          shown := if st.shared.stop then st.shown else st.shown + [st.shared.announcements[st.callbacksRun]])
  }

  function Next(st: State, step: Step): State
    requires Enabled(st, step)
  {
    if step.ConnectBegin? || step.ConnectFail? || step.ConnectPublish? then ConnectStep(st, step)
    else if IsCallStep(step) then CallStep(st, step)
    else if step.ReaderReply? || step.ReaderPut? || step.ReaderStop? || step.ReaderClose? then ReaderStep(st, step)
    else OtherStep(st, step)
  }

  const INITIAL := State(
    Shared(None, false, None, false, {}, 1, []), None, 0, map[], map[], map[], 0, false, {}, [], [], 0, [])

  // ---- runs -------------------------------------------------------------------------------

  /** Consecutive states, each reached from the one before by an enabled step. */
  predicate Run(states: seq<State>, steps: seq<Step>) {
    && |states| == |steps| + 1
    && states[0] == INITIAL
    && forall k :: 0 <= k < |steps| ==> Moves(states[k], steps[k], states[k + 1])
  }

  predicate Moves(st: State, step: Step, next: State) {
    Enabled(st, step) && next == Next(st, step)
  }
}
