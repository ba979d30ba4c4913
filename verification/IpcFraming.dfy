/** The daemon's line framing: independent of how the bytes arrive, in both directions. */
module IpcFraming {
  import opened Wrappers
  import opened Bytes

  const NEWLINE: byte := 10
  const MAX_LINE: nat := 65_536
  const MAX_INBUF: nat := 1_048_576
  const MAX_OUTBUF: nat := 0x40_0000

  // ---- lines -------------------------------------------------------------------------------

  /** Index of the first newline, or the length. */
  function Newline(s: seq<byte>): (n: nat)
    ensures n <= |s| && (n < |s| ==> s[n] == NEWLINE) && forall i :: 0 <= i < n ==> s[i] != NEWLINE
  {
    if s == [] || s[0] == NEWLINE then 0 else 1 + Newline(s[1..])
  }

  /** The complete lines of a byte stream, without their newlines. */
  function Lines(s: seq<byte>): seq<seq<byte>>
    decreases |s|
  {
    var n := Newline(s);
    if n == |s| then [] else [s[..n]] + Lines(s[n + 1..])
  }

  /** The unterminated rest. */
  function Tail(s: seq<byte>): (t: seq<byte>)
    ensures |t| <= |s| && Newline(t) == |t|
    decreases |s|
  {
    var n := Newline(s);
    if n == |s| then s else Tail(s[n + 1..])
  }

  predicate AllShort(ls: seq<seq<byte>>) {
    forall l :: l in ls ==> |l| <= MAX_LINE
  }

  /** No line, complete or still unterminated, exceeds the limit. */
  predicate Short(s: seq<byte>) {
    AllShort(Lines(s)) && |Tail(s)| <= MAX_LINE
  }

  lemma NewlineAppend(x: seq<byte>, y: seq<byte>)
    ensures Newline(x) < |x| ==> Newline(x + y) == Newline(x)
    ensures Newline(x) == |x| ==> Newline(x + y) == |x| + Newline(y)
  {
    var n := Newline(x + y);
    if Newline(x) < |x| {
      assert (x + y)[Newline(x)] == NEWLINE;
      assert forall i :: 0 <= i < Newline(x) ==> (x + y)[i] == x[i];
    } else {
      assert forall i :: 0 <= i < |x| ==> (x + y)[i] == x[i];
      assert forall i :: 0 <= i < |y| ==> (x + y)[|x| + i] == y[i];
    }
  }

  lemma LinesStep(s: seq<byte>)
    ensures Newline(s) == |s| ==> Lines(s) == [] && Tail(s) == s
    ensures Newline(s) < |s| ==>
              Lines(s) == [s[..Newline(s)]] + Lines(s[Newline(s) + 1..]) && Tail(s) == Tail(s[Newline(s) + 1..])
  {
    hide Newline;
  }

  /** Splitting in two goes is splitting at once: only the tail is carried over. */
  lemma {:induction false} LinesAppend(x: seq<byte>, y: seq<byte>)
    ensures Lines(x + y) == Lines(x) + Lines(Tail(x) + y) && Tail(x + y) == Tail(Tail(x) + y)
    decreases |x|
  {
    hide Newline, Lines, Tail;
    NewlineAppend(x, y);
    LinesStep(x);
    var n := Newline(x);
    if n < |x| {
      var rest := x[n + 1..];
      LinesStep(x + y);
      assert (x + y)[..n] == x[..n] && (x + y)[n + 1..] == rest + y;
      LinesAppend(rest, y);
      assert Lines(x + y) == [x[..n]] + Lines(rest + y);
    }
  }

  lemma AllShortAppend(x: seq<seq<byte>>, y: seq<seq<byte>>)
    ensures AllShort(x + y) <==> AllShort(x) && AllShort(y)
  {
    assert forall l :: l in x + y <==> l in x || l in y;
  }

  /** A tail that is too long stays too long, whatever follows. */
  lemma LongTailStays(t: seq<byte>, y: seq<byte>)
    requires Newline(t) == |t| && |t| > MAX_LINE
    ensures !Short(t + y)
  {
    hide Newline;
    NewlineAppend(t, y);
    var n := Newline(t + y);
    if n < |t + y| {
      assert Lines(t + y)[0] == (t + y)[..n];
    }
  }

  /** Splitting a stream keeps what is short, and loses no line that is too long. */
  lemma ShortAppend(x: seq<byte>, y: seq<byte>)
    ensures Short(x + y) <==> Short(x) && Short(Tail(x) + y)
  {
    hide Lines, Tail, Newline, AllShort;
    LinesAppend(x, y);
    AllShortAppend(Lines(x), Lines(Tail(x) + y));
    if |Tail(x)| > MAX_LINE {
      LongTailStays(Tail(x), y);
    }
  }

  // ---- calls of read_requests ------------------------------------------------------------------

  datatype Outcome = Served(lines: seq<seq<byte>>, inbuf: seq<byte>) | TooLong | Backlog

  datatype Filled = Filled(inbuf: seq<byte>) | FillTooLong | FillBacklog

  /** The reading loop, with its two checks after every chunk. */
  function Fill(inbuf: seq<byte>, chunks: seq<seq<byte>>): Filled
    decreases chunks
  {
    if chunks == [] then Filled(inbuf) else
    var b := inbuf + chunks[0];
    if |Tail(b)| > MAX_LINE then FillTooLong
    else if |b| > MAX_INBUF then FillBacklog
    else Fill(b, chunks[1..])
  }

  /** The extraction loop. */
  function Extract(inbuf: seq<byte>): Outcome
    decreases |inbuf|
  {
    var n := Newline(inbuf);
    if n == |inbuf| then Served([], inbuf)
    else if n > MAX_LINE then TooLong
    else Before([inbuf[..n]], Extract(inbuf[n + 1..]))
  }

  function Before(lines: seq<seq<byte>>, o: Outcome): Outcome {
    if o.Served? then Served(lines + o.lines, o.inbuf) else o
  }

  function Call(inbuf: seq<byte>, chunks: seq<seq<byte>>): Outcome {
    match Fill(inbuf, chunks)
    case FillTooLong => TooLong
    case FillBacklog => Backlog
    case Filled(b) => Extract(b)
  }

  /** A run of calls; the connection is dropped at the first error. */
  function Run(inbuf: seq<byte>, calls: seq<seq<seq<byte>>>): Outcome
    decreases calls
  {
    if calls == [] then Served([], inbuf) else
    var o := Call(inbuf, calls[0]);
    if !o.Served? then o else Before(o.lines, Run(o.inbuf, calls[1..]))
  }

  lemma OneLine(l: seq<byte>)
    ensures AllShort([l]) <==> |l| <= MAX_LINE
  {
    assert l in [l];
  }

  lemma {:induction false} ExtractSplits(b: seq<byte>)
    requires |Tail(b)| <= MAX_LINE
    ensures Extract(b) == if Short(b) then Served(Lines(b), Tail(b)) else TooLong
    decreases |b|
  {
    assert AllShort([]);
    hide Newline, Lines, Tail, AllShort;
    LinesStep(b);
    var n := Newline(b);
    if n < |b| {
      ExtractSplits(b[n + 1..]);
      AllShortAppend([b[..n]], Lines(b[n + 1..]));
      OneLine(b[..n]);
    }
  }

  /** The reading loop stops for a long tail only if the whole input has a line that is too long. */
  lemma {:induction false} FillChecks(inbuf: seq<byte>, chunks: seq<seq<byte>>)
    requires |Tail(inbuf)| <= MAX_LINE
    ensures match Fill(inbuf, chunks)
            case Filled(b) => b == inbuf + Flat(chunks) && |Tail(b)| <= MAX_LINE
            case FillTooLong => !Short(inbuf + Flat(chunks))
            case FillBacklog => true
    decreases chunks
  {
    if chunks == [] {
      assert inbuf + [] == inbuf;
    } else {
      var b := inbuf + chunks[0];
      assert b + Flat(chunks[1..]) == inbuf + Flat(chunks);
      if |Tail(b)| > MAX_LINE {
        ShortAppend(b, Flat(chunks[1..]));
      } else {
        FillChecks(b, chunks[1..]);
      }
    }
  }

  /** One call: everything it has is split, or rejected for a line that is too long. */
  lemma CallSplits(inbuf: seq<byte>, chunks: seq<seq<byte>>)
    requires |Tail(inbuf)| <= MAX_LINE
    ensures var b := inbuf + Flat(chunks);
      Call(inbuf, chunks) == Backlog || Call(inbuf, chunks) == if Short(b) then Served(Lines(b), Tail(b)) else TooLong
  {
    hide Short, Lines, Tail, Extract, Fill;
    FillChecks(inbuf, chunks);
    if Fill(inbuf, chunks).Filled? {
      ExtractSplits(inbuf + Flat(chunks));
    }
  }

  lemma {:induction false} RunSplits(inbuf: seq<byte>, calls: seq<seq<seq<byte>>>)
    requires Newline(inbuf) == |inbuf| && |inbuf| <= MAX_LINE
    ensures var b := inbuf + FlatCalls(calls);
      Run(inbuf, calls) == Backlog || Run(inbuf, calls) == if Short(b) then Served(Lines(b), Tail(b)) else TooLong
    decreases calls
  {
    hide Short, Call;
    TailIsItself(inbuf);
    if calls == [] {
      assert inbuf + [] == inbuf;
    } else {
      var x, y := inbuf + Flat(calls[0]), FlatCalls(calls[1..]);
      assert x + y == inbuf + FlatCalls(calls);
      CallSplits(inbuf, calls[0]);
      ShortAppend(x, y);
      LinesAppend(x, y);
      if Call(inbuf, calls[0]).Served? {
        ShortTail(x);
        RunSplits(Tail(x), calls[1..]);
      }
    }
  }

  lemma TailIsItself(s: seq<byte>)
    requires Newline(s) == |s|
    ensures Tail(s) == s && Lines(s) == [] && (Short(s) <==> |s| <= MAX_LINE)
  {
  }

  lemma ShortTail(s: seq<byte>)
    requires Short(s)
    ensures |Tail(s)| <= MAX_LINE
  {
  }

  /** In every call the tail carried over and what is read together stay below the backlog. */
  predicate Fits(inbuf: seq<byte>, calls: seq<seq<seq<byte>>>)
    decreases calls
  {
    calls == [] ||
    var b := inbuf + Flat(calls[0]);
    |b| <= MAX_INBUF && Fits(Tail(b), calls[1..])
  }

  lemma {:induction false} FillFits(inbuf: seq<byte>, chunks: seq<seq<byte>>)
    requires |inbuf + Flat(chunks)| <= MAX_INBUF
    ensures !Fill(inbuf, chunks).FillBacklog?
    decreases chunks
  {
    hide Tail;
    if chunks != [] {
      assert inbuf + chunks[0] + Flat(chunks[1..]) == inbuf + Flat(chunks);
      FillFits(inbuf + chunks[0], chunks[1..]);
    }
  }

  /** The backlog stops no run whose calls stay below it. */
  lemma {:induction false} NoBacklogIfFits(inbuf: seq<byte>, calls: seq<seq<seq<byte>>>)
    requires Newline(inbuf) == |inbuf| <= MAX_LINE && Fits(inbuf, calls)
    ensures Run(inbuf, calls) != Backlog
    decreases calls
  {
    hide Fill, Flat, Extract, Short, Tail, Newline, Lines;
    if calls != [] {
      var b := inbuf + Flat(calls[0]);
      TailIsItself(inbuf);
      FillFits(inbuf, calls[0]);
      FillChecks(inbuf, calls[0]);
      if Fill(inbuf, calls[0]).Filled? {
        ExtractSplits(b);
      }
      CallSplits(inbuf, calls[0]);
      if Call(inbuf, calls[0]).Served? {
        ShortTail(b);
        NoBacklogIfFits(Tail(b), calls[1..]);
      }
    }
  }

  lemma {:induction false} FillOver(inbuf: seq<byte>, chunks: seq<seq<byte>>)
    requires |inbuf| <= MAX_INBUF < |inbuf + Flat(chunks)|
    ensures !Fill(inbuf, chunks).Filled?
    decreases chunks
  {
    hide Tail;
    if chunks != [] && |inbuf + chunks[0]| <= MAX_INBUF {
      assert inbuf + chunks[0] + Flat(chunks[1..]) == inbuf + Flat(chunks);
      FillOver(inbuf + chunks[0], chunks[1..]);
    }
  }

  /** A run with a call beyond the backlog serves nothing in the end: it is rejected then or before. */
  lemma {:induction false} OverIsRejected(inbuf: seq<byte>, calls: seq<seq<seq<byte>>>)
    requires Newline(inbuf) == |inbuf| <= MAX_LINE && !Fits(inbuf, calls)
    ensures !Run(inbuf, calls).Served?
    decreases calls
  {
    hide Fill, Flat, Extract, Short, Tail, Newline, Lines;
    var b := inbuf + Flat(calls[0]);
    TailIsItself(inbuf);
    if |b| > MAX_INBUF {
      FillOver(inbuf, calls[0]);
    } else {
      CallSplits(inbuf, calls[0]);
      if Call(inbuf, calls[0]).Served? {
        ShortTail(b);
        OverIsRejected(Tail(b), calls[1..]);
      }
    }
  }

  /**
   * Framing does not depend on chunking. While every call stays below the 1 MiB backlog, a connection
   * is rejected exactly when some line of everything received, complete or unterminated, exceeds
   * 64 KiB; otherwise the lines served are the newline split of everything received, and the input
   * buffer is its unterminated tail. A run that passes the backlog is rejected, for it or for such a line.
   */
  lemma ChunkingIsInvisible(calls: seq<seq<seq<byte>>>)
    ensures var all := FlatCalls(calls);
      (Run([], calls) == Backlog && !Fits([], calls))
      || Run([], calls) == if Short(all) then Served(Lines(all), Tail(all)) else TooLong
    ensures !Fits([], calls) ==> !Run([], calls).Served?
  {
    hide Short, Run, Fits;
    if Fits([], calls) {
      NoBacklogIfFits([], calls);
    } else {
      OverIsRejected([], calls);
    }
    assert [] + FlatCalls(calls) == FlatCalls(calls);
    RunSplits([], calls);
  }

  /** One line in one piece: up to 64 KiB it is served, up to 1 MiB it is too long, beyond it is a backlog. */
  lemma OneLineRun(l: seq<byte>)
    requires forall i :: 0 <= i < |l| ==> l[i] != 10
    ensures Run([], [[l + [10]]])
         == if |l| <= 65_536 then Served([l], []) else if |l| < 1_048_576 then TooLong else Backlog
  {
    hide Newline, Tail, Lines, Extract;
    var s := l + [10];
    NewlineAppend(l, [10]);
    NoNewline(l);
    OneNewline();
    LinesStep(s);
    assert s[..|l|] == l && s[|l| + 1..] == [];
    LinesStep([]);
    assert Tail(s) == [];
    assert [] + s == s && [[s]][0] == [s] && [[s]][1..] == [] && [s][0] == s && [s][1..] == [];
    ExtractFirst(s, |l|);
    ExtractFirst([], 0);
    hide Fill;
    FillOne(s);
    assert [l] + [] == [l];
  }

  lemma OneNewline()
    ensures Newline([10]) == 0 && Newline([]) == 0
  {
  }

  lemma FillOne(s: seq<byte>)
    requires Tail(s) == []
    ensures Fill([], [s]) == if |s| <= 1_048_576 then Filled(s) else FillBacklog
  {
    hide Tail;
    assert [] + s == s && [s][1..] == [];
    assert Fill(s, []) == Filled(s);
  }

  lemma NoNewline(l: seq<byte>)
    requires forall i :: 0 <= i < |l| ==> l[i] != NEWLINE
    ensures Newline(l) == |l|
  {
  }

  lemma ExtractFirst(s: seq<byte>, n: nat)
    requires n == Newline(s)
    ensures n == |s| ==> Extract(s) == Served([], s)
    ensures n < |s| && n > MAX_LINE ==> Extract(s) == TooLong
    ensures n < |s| && n <= MAX_LINE ==> Extract(s) == Before([s[..n]], Extract(s[n + 1..]))
  {
    hide Newline;
  }

  // ---- the connection as the daemon runs it -------------------------------------------------------

  /** What the JSON parser makes of a line; it is not part of this model. */
  datatype Verdict = Blank | Request(r: seq<byte>) | Malformed(reply: seq<byte>)

  function RequestIn(v: Verdict): seq<seq<byte>> { if v.Request? then [v.r] else [] }

  function ReplyTo(v: Verdict): seq<byte> { if v.Malformed? then v.reply + [NEWLINE] else [] }

  function Requests(parse: seq<byte> -> Verdict, lines: seq<seq<byte>>): seq<seq<byte>> {
    if lines == [] then []
    else Requests(parse, lines[..|lines| - 1]) + RequestIn(parse(lines[|lines| - 1]))
  }

  /** The error frames queued for malformed lines. */
  function Replies(parse: seq<byte> -> Verdict, lines: seq<seq<byte>>): seq<byte> {
    if lines == [] then []
    else Replies(parse, lines[..|lines| - 1]) + ReplyTo(parse(lines[|lines| - 1]))
  }

  /** `items` are the answers that are there, in order; `at` says whose they are. */
  ghost predicate Selects(answers: seq<Option<seq<byte>>>, at: seq<nat>, items: seq<seq<byte>>) {
    && |at| == |items|
    && (forall j :: 0 <= j < |at| ==> at[j] < |answers| && answers[at[j]] == Some(items[j]))
    && (forall i, j :: 0 <= i < j < |at| ==> at[i] < at[j])
    && (forall i: nat :: i < |answers| && answers[i].Some? ==> i in at)
  }

  lemma SelectsNext(answers: seq<Option<seq<byte>>>, at: seq<nat>, items: seq<seq<byte>>, a: Option<seq<byte>>)
    returns (at': seq<nat>, items': seq<seq<byte>>)
    requires Selects(answers, at, items)
    ensures Selects(answers + [a], at', items') && items' == if a.Some? then items + [a.value] else items
  {
    at', items' := at, items;
    if a.Some? {
      at', items' := at + [|answers|], items + [a.value];
      forall i: nat | i <= |answers| && (answers + [a])[i].Some? ensures i in at' {
        if i < |answers| {
          assert i in at;
        } else {
          assert at'[|at|] == i;
        }
      }
    }
  }

  function AsRequest(v: Verdict): Option<seq<byte>> {
    match v
    case Request(r) => Some(r)
    case _ => None
  }

  function AsReply(v: Verdict): Option<seq<byte>> {
    match v
    case Malformed(reply) => Some(reply)
    case _ => None
  }

  function Answers(parse: seq<byte> -> Verdict, lines: seq<seq<byte>>, pick: Verdict -> Option<seq<byte>>)
    : (r: seq<Option<seq<byte>>>)
    ensures |r| == |lines| && forall i :: 0 <= i < |lines| ==> r[i] == pick(parse(lines[i]))
  {
    seq(|lines|, i requires 0 <= i < |lines| => pick(parse(lines[i])))
  }

  lemma AnswersNext(parse: seq<byte> -> Verdict, lines: seq<seq<byte>>, pick: Verdict -> Option<seq<byte>>)
    requires lines != []
    ensures var n := |lines| - 1;
      Answers(parse, lines, pick) == Answers(parse, lines[..n], pick) + [pick(parse(lines[n]))]
  {
  }

  /** Every line the parser takes for a request is served once, in order, and nothing else is. */
  lemma {:induction false} RequestsAreParsed(parse: seq<byte> -> Verdict, lines: seq<seq<byte>>) returns (at: seq<nat>)
    ensures Selects(Answers(parse, lines, AsRequest), at, Requests(parse, lines))
    decreases |lines|
  {
    hide Selects;
    if lines == [] {
      at := NoneSelected();
    } else {
      var n := |lines| - 1;
      at := RequestsAreParsed(parse, lines[..n]);
      AnswersNext(parse, lines, AsRequest);
      var items;
      at, items := SelectsNext(Answers(parse, lines[..n], AsRequest), at, Requests(parse, lines[..n]),
                               AsRequest(parse(lines[n])));
      assert items == Requests(parse, lines);
    }
  }

  lemma NoneSelected() returns (at: seq<nat>)
    ensures at == [] && Selects([], at, [])
  {
    at := [];
  }

  /** A newline after each reply. */
  function Framed(replies: seq<seq<byte>>): seq<byte> {
    if replies == [] then [] else Framed(replies[..|replies| - 1]) + replies[|replies| - 1] + [10]
  }

  lemma FramedNext(replies: seq<seq<byte>>, r: seq<byte>)
    ensures Framed(replies + [r]) == Framed(replies) + (r + [10])
  {
    assert (replies + [r])[..|replies|] == replies;
    assert Framed(replies) + r + [10] == Framed(replies) + (r + [10]);
  }

  /** Every malformed line is answered once, in order, with the parser's reply and a newline. */
  lemma {:induction false} RepliesAreFramed(parse: seq<byte> -> Verdict, lines: seq<seq<byte>>)
    returns (at: seq<nat>, replies: seq<seq<byte>>)
    ensures Selects(Answers(parse, lines, AsReply), at, replies) && Replies(parse, lines) == Framed(replies)
    decreases |lines|
  {
    hide Selects, Framed;
    if lines == [] {
      at := NoneSelected();
      replies := [];
      assert Framed([]) == [] by {
        NothingFramed();
      }
    } else {
      var n := |lines| - 1;
      at, replies := RepliesAreFramed(parse, lines[..n]);
      AnswersNext(parse, lines, AsReply);
      var r := AsReply(parse(lines[n]));
      if r.Some? {
        FramedNext(replies, r.value);
      }
      at, replies := SelectsNext(Answers(parse, lines[..n], AsReply), at, replies, r);
    }
  }

  lemma NothingFramed()
    ensures Framed([]) == []
  {
  }

  class Connection {
    var inbuf: seq<byte>
    var outbuf: seq<byte>
    /** What the peer's socket has accepted so far. */
    var written: seq<byte>
    const parse: seq<byte> -> Verdict

    constructor (parse: seq<byte> -> Verdict)
      ensures inbuf == [] && outbuf == [] && written == [] && this.parse == parse
    {
      inbuf, outbuf, written := [], [], [];
      this.parse := parse;
    }

    /** Everything ever queued, in order. */
    function Stream(): seq<byte>
      reads this
    {
      written + outbuf
    }

    /**
     * `flush`: the socket accepts `room` bytes, in pieces of its choosing, and then would block; what it
     * does not accept stays queued.
     */
    method Flush(room: nat) returns (ok: bool)
      modifies this
      ensures Stream() == old(Stream()) && inbuf == old(inbuf)
      ensures written == old(written) + old(outbuf)[..Least(room, |old(outbuf)|)]
      ensures ok <==> |outbuf| <= MAX_OUTBUF
    {
      var left := room;
      while outbuf != []
        invariant Stream() == old(Stream()) && old(written) <= written && inbuf == old(inbuf)
        invariant room - left == |written| - |old(written)| <= room
        decreases |outbuf|
      {
        var n: nat :| n <= |outbuf| && n <= left && (n > 0 || left == 0);
        if n == 0 {
          break;
        }
        written := written + outbuf[..n];
        outbuf := outbuf[n..];
        left := left - n;
      }
      ok := |outbuf| <= MAX_OUTBUF;
      TakenFront(old(written), old(outbuf), written, outbuf);
    }

    /** `send` */
    method Send(frame: seq<byte>, room: nat) returns (ok: bool)
      modifies this
      ensures Stream() == old(Stream()) + frame + [NEWLINE] && inbuf == old(inbuf)
      ensures written == old(written) + (old(outbuf) + frame + [NEWLINE])[..Least(room, |old(outbuf)| + |frame| + 1)]
      ensures ok <==> |outbuf| <= 4_194_304
    {
      outbuf := outbuf + (frame + [NEWLINE]);
      assert Stream() == old(Stream()) + frame + [NEWLINE];
      assert outbuf == old(outbuf) + frame + [NEWLINE];
      ok := Flush(room);
    }

    /** The reading loop of `read_requests`; the socket yields `chunks` and then would block. */
    method ReadAvailable(chunks: seq<seq<byte>>) returns (ok: bool)
      modifies this
      ensures ok <==> Fill(old(inbuf), chunks).Filled?
      ensures ok ==> Fill(old(inbuf), chunks) == Filled(inbuf)
      ensures Stream() == old(Stream())
    {
      hide Tail;
      var i := 0;
      while i < |chunks|
        invariant i <= |chunks| && Fill(old(inbuf), chunks) == Fill(inbuf, chunks[i..])
        invariant Stream() == old(Stream())
      {
        inbuf := inbuf + chunks[i];
        assert chunks[i..][1..] == chunks[i + 1..];
        if |Tail(inbuf)| > MAX_LINE || |inbuf| > MAX_INBUF {
          return false;
        }
        i := i + 1;
      }
      ok := true;
    }

    /** One parsed line: a request to serve, an error frame to queue, or nothing. */
    method Answer(v: Verdict, out: seq<seq<byte>>) returns (all: seq<seq<byte>>)
      modifies this
      ensures all == out + RequestIn(v) && Stream() == old(Stream()) + ReplyTo(v) && inbuf == old(inbuf)
    {
      all := out;
      assert Stream() + [] == Stream();
      if v.Request? {
        all := out + [v.r];
      } else if v.Malformed? {
        var room: nat := *;
        var _ := Send(v.reply, room);
      }
    }

    /** The line loop of `read_requests`: hand each complete line to the parser. */
    method ServeLines() returns (out: seq<seq<byte>>, ghost lines: seq<seq<byte>>, ok: bool)
      modifies this
      ensures ok <==> Extract(old(inbuf)).Served?
      ensures ok ==> Extract(old(inbuf)) == Served(lines, inbuf) && out == Requests(parse, lines)
      ensures ok ==> Stream() == old(Stream()) + Replies(parse, lines)
    {
      hide Newline, RequestIn, ReplyTo;
      out, lines := [], [];
      BeforeNil(Extract(inbuf));
      assert Stream() == old(Stream()) + Replies(parse, []);
      var n := Newline(inbuf);
      while n < |inbuf|
        invariant n == Newline(inbuf) && Extract(old(inbuf)) == Before(lines, Extract(inbuf))
        invariant out == Requests(parse, lines) && Stream() == old(Stream()) + Replies(parse, lines)
        decreases |inbuf|
      {
        if n > MAX_LINE {
          return [], [], false;
        }
        var line := inbuf[..n];
        inbuf := inbuf[n + 1..];
        BeforeBefore(lines, [line], Extract(inbuf));
        OneMore(parse, lines, line);
        out := Answer(parse(line), out);
        Assoc(old(Stream()), Replies(parse, lines), ReplyTo(parse(line)));
        lines := lines + [line];
        n := Newline(inbuf);
      }
      assert lines + [] == lines;
      ok := true;
    }

    /** `read_requests` */
    method ReadRequests(chunks: seq<seq<byte>>) returns (out: seq<seq<byte>>, ghost lines: seq<seq<byte>>, ok: bool)
      modifies this
      ensures ok <==> Call(old(inbuf), chunks).Served?
      ensures ok ==> Call(old(inbuf), chunks) == Served(lines, inbuf) && out == Requests(parse, lines)
      ensures ok ==> Stream() == old(Stream()) + Replies(parse, lines)
    {
      hide Fill, Extract, Requests, Replies;
      out, lines := [], [];
      ok := ReadAvailable(chunks);
      if ok {
        out, lines, ok := ServeLines();
      }
    }
  }

  function Least(a: nat, b: nat): (m: nat)
    ensures m <= a && m <= b && (m == a || m == b)
  {
    if a < b then a else b
  }

  /** What went from the queue to the socket is the front of the queue. */
  lemma TakenFront(w: seq<byte>, q: seq<byte>, w': seq<byte>, q': seq<byte>)
    requires w' + q' == w + q && w <= w'
    ensures w' == w + q[..|w'| - |w|]
  {
    assert w' == (w' + q')[..|w'|];
    assert (w + q)[..|w'|] == w + q[..|w'| - |w|];
  }

  lemma Assoc(x: seq<byte>, y: seq<byte>, z: seq<byte>)
    ensures x + y + z == x + (y + z)
  {
  }

  lemma OneMore(parse: seq<byte> -> Verdict, lines: seq<seq<byte>>, line: seq<byte>)
    ensures Requests(parse, lines + [line]) == Requests(parse, lines) + RequestIn(parse(line))
    ensures Replies(parse, lines + [line]) == Replies(parse, lines) + ReplyTo(parse(line))
  {
    assert (lines + [line])[..|lines|] == lines;
  }

  lemma BeforeNil(o: Outcome)
    ensures Before([], o) == o
  {
    if o.Served? {
      assert [] + o.lines == o.lines;
    }
  }

  lemma BeforeBefore(xs: seq<seq<byte>>, ys: seq<seq<byte>>, o: Outcome)
    ensures Before(xs, Before(ys, o)) == Before(xs + ys, o)
  {
    if o.Served? {
      assert xs + (ys + o.lines) == xs + ys + o.lines;
    }
  }
}
