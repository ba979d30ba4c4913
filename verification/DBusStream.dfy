/** The stream round trip: built messages, in any chunking, come out as exactly those messages. */
module DBusStream {
  import opened Wrappers
  import opened Bytes
  import opened DBusTypes
  import opened DBusDecode
  import opened DBusEncode
  import opened DBusRoundTrip
  import opened DBusMessages

  // ---- one header -------------------------------------------------------------------

  ghost predicate GoodFields(fs: seq<Field>) {
    forall k :: 0 <= k < |fs| ==> WellTyped(fs[k].value) && |Sig(TypeOf(fs[k].value))| < 256
  }

  /** What the header loop makes of a list of fields. */
  function ApplyAll(m: Message, fs: seq<Field>): Message
    decreases fs
  {
    if fs == [] then m else ApplyAll(Apply(m, fs[0].code, Seen(fs[0].value)), fs[1..])
  }

  lemma {:induction false} ApplySnoc(m: Message, fs: seq<Field>, f: Field)
    ensures ApplyAll(m, fs + [f]) == Apply(ApplyAll(m, fs), f.code, Seen(f.value))
    decreases fs
  {
    hide Apply, Seen;
    if fs == [] {
      assert [] + [f] == [f] && [f][1..] == [];
      assert ApplyAll(m, [f]) == ApplyAll(Apply(m, f.code, Seen(f.value)), []);
    } else {
      assert (fs + [f])[1..] == fs[1..] + [f];
      ApplySnoc(Apply(m, fs[0].code, Seen(fs[0].value)), fs[1..], f);
    }
  }

  /** A field written at offset `pos + 16` of a message reads back at `pos` of the field buffer. */
  lemma FieldReads(f: Field, b: seq<byte>, pos: nat)
    requires GoodFields([f]) && At(b, pos, Encode(FieldTree(f), pos + 16))
    ensures pos < |b|
    ensures var p := AlignPos(b, pos, 8);
      var s := Sig(TypeOf(f.value));
      var q := p + 1 + |SigBytes(s)|;
      && ReadFixed(b, p, 1) == Got(f.code, p + 1) && ReadSig(b, p + 1) == Got(s, q) && q <= |b|
      && Decode(b, q, s, 0) == Decoded(Seen(f.value), pos + |Encode(FieldTree(f), pos + 16)|, |s|)
  {
    hide Pad, Encode, Decode, ReadFixed, ReadSig, Sig, TypeOf, WellTyped, ValidUtf8, SigBytes, AlignPos;
    assert [f][0] == f;
    var off := pos + 16;
    var s := Sig(TypeOf(f.value));
    var sb := SigBytes(s);
    FieldBytes(f, off);
    PadShift(pos, off, 2);
    var p := pos + Pad(pos, 8);
    var q := p + 1 + |sb|;
    var v := Encode(f.value, q + 16);
    assert At(b, pos, Zeros(Pad(pos, 8)) + ([f.code] + (sb + v)));
    AlignAt(b, pos, 8, [f.code] + (sb + v));
    AtSplit(b, p, [f.code], sb + v);
    AtSplit(b, p + 1, sb, v);
    ReadCode(b, p, f.code);
    WellTypedType(f.value);
    SigIsAscii(TypeOf(f.value));
    AsciiIsUtf8(s);
    ReadSigAt(b, p + 1, s);
    EncodeShift(f.value, q, q + 16, 2);
    assert At(s, 0, s);
    RoundTrip(f.value, b, q, s, 0);
  }

  lemma ReadCode(b: seq<byte>, p: nat, code: byte)
    requires At(b, p, [code])
    ensures ReadFixed(b, p, 1) == Got(code, p + 1)
  {
    Pow256Values();
    assert LE(code, 1) == [code] + LE(code / 256, 0);
    assert Zeros(Pad(p, 1)) + LE(code, 1) == [code];
    ReadFixedAt(b, p, 1, code);
  }

  lemma {:induction false} ParsesBack(fs: seq<Field>, b: seq<byte>, pos: nat, m: Message)
    requires GoodFields(fs) && At(b, pos, EncodeAll(FieldTrees(fs), pos + 16))
    requires |b| == pos + |EncodeAll(FieldTrees(fs), pos + 16)|
    ensures ParseFields(b, pos, m) == ApplyAll(m, fs)
    decreases fs
  {
    hide Encode, Decode, ReadFixed, ReadSig, Apply, Seen, FieldTree, Sig, TypeOf, AlignPos, SigBytes, WellTyped;
    if fs != [] {
      var e := Encode(FieldTree(fs[0]), pos + 16);
      assert FieldTrees(fs)[1..] == FieldTrees(fs[1..]);
      AtSplit(b, pos, e, EncodeAll(FieldTrees(fs[1..]), pos + 16 + |e|));
      FieldReads(fs[0], b, pos);
      ParsesBack(fs[1..], b, pos + |e|, Apply(m, fs[0].code, Seen(fs[0].value)));
    }
  }

  /** The layout of a message. */
  lemma WireShape(msgType: byte, flags: byte, serial: u32, fs: seq<Field>, body: seq<byte>)
    ensures var fb := EncodeAll(FieldTrees(fs), 16);
      Wire(msgType, flags, serial, fs, body)
      == ['l' as int, msgType, flags, 1] + U32Bytes(|body|) + U32Bytes(serial) + U32Bytes(|fb|)
         + fb + Zeros(HeaderPad(|fb|)) + body
  {
    hide EncodeAll, FieldTrees, U32Bytes;
    var fb := EncodeAll(FieldTrees(fs), 16);
    assert Encode(ArrayNode(FIELD_TY, FieldTrees(fs)), 12) == ArrayHead(|fb|, 8, 12) + fb;
    assert ArrayHead(|fb|, 8, 12) == U32Bytes(|fb|);
    HeaderPadIsPad(|fb|);
  }

  lemma HeaderPadIsPad(n: nat)
    ensures HeaderPad(n) == Pad(16 + n, 8)
  {
    PadShift(n, n + 16, 2);
  }

  /** A message followed by anything is taken whole, parsed, and the rest left alone. */
  lemma TakesWire(msgType: byte, flags: byte, serial: u32, fs: seq<Field>, body: seq<byte>, rest: seq<byte>)
    requires GoodFields(fs) && |body| <= MAX_BODY && |EncodeAll(FieldTrees(fs), 16)| <= MAX_FIELDS
    ensures TakeMessage(Wire(msgType, flags, serial, fs, body) + rest)
         == Taken(ApplyAll(Blank(msgType, serial, body), fs), rest)
  {
    hide ParseFields, EncodeAll, FieldTrees, Wire, HeaderPad, U32Of, U32Bytes, ApplyAll;
    var fb := EncodeAll(FieldTrees(fs), 16);
    var w := Wire(msgType, flags, serial, fs, body);
    var pad := HeaderPad(|fb|);
    WireShape(msgType, flags, serial, fs, body);
    WirePieces(w, rest, msgType, flags, U32Bytes(|body|), U32Bytes(serial), U32Bytes(|fb|), fb, pad, body);
    U32RoundTrip(|body|);
    U32RoundTrip(serial);
    U32RoundTrip(|fb|);
    assert At(fb, 0, fb);
    ParsesBack(fs, fb, 0, Blank(msgType, serial, body));
  }

  lemma WirePieces(w: seq<byte>, rest: seq<byte>, ty: byte, flags: byte, bl: seq<byte>, se: seq<byte>, fl: seq<byte>,
                   fb: seq<byte>, pad: nat, body: seq<byte>)
    requires |bl| == 4 && |se| == 4 && |fl| == 4
    requires w == ['l' as int, ty, flags, 1] + bl + se + fl + fb + Zeros(pad) + body
    ensures var total := 16 + |fb| + pad + |body|;
      var buf := w + rest;
      && |w| == total && buf[0] == 'l' as int && buf[1] == ty
      && buf[4..8] == bl && buf[8..12] == se && buf[12..16] == fl
      && buf[..total] == w && buf[total..] == rest && w[1] == ty && w[8..12] == se
      && w[16..16 + |fb|] == fb && w[16 + |fb| + pad..] == body
  {
    assert w[4..8] == bl && w[8..12] == se && w[12..16] == fl;
    assert w[16..16 + |fb|] == fb;
    assert w[16 + |fb| + pad..] == body;
    assert forall a, b :: 0 <= a <= b <= |w| ==> (w + rest)[a..b] == w[a..b];
  }

  // ---- the four kinds of message ---------------------------------------------------------

  datatype Packet =
    | MethodCall(serial: u32, callDest: seq<byte>, path: seq<byte>, iface: seq<byte>, member: seq<byte>,
                 signature: seq<byte>, body: seq<byte>)
    | Reply(serial: u32, dest: Option<seq<byte>>, replySerial: u32, signature: seq<byte>, body: seq<byte>)
    | Error(serial: u32, dest: Option<seq<byte>>, replySerial: u32, errorName: seq<byte>, body: seq<byte>)
    | Signal(serial: u32, path: seq<byte>, iface: seq<byte>, member: seq<byte>, signature: seq<byte>, body: seq<byte>)

  function FieldsOf(p: Packet): seq<Field> {
    match p
    case MethodCall(_, d, pa, i, m, s, _) => CallFields(d, pa, i, m, s)
    case Reply(_, d, r, s, _) => ReplyFields(d, r, s)
    case Error(_, d, r, e, _) => ErrorFields(d, r, e)
    case Signal(_, pa, i, m, s, _) => SignalFields(pa, i, m, s)
  }

  function TypeByte(p: Packet): byte {
    match p
    case MethodCall(_, _, _, _, _, _, _) => 1
    case Reply(_, _, _, _, _) => 2
    case Error(_, _, _, _, _) => 3
    case Signal(_, _, _, _, _, _) => 4
  }

  /** The bytes the builder of this kind of message returns. */
  function WireOf(p: Packet): seq<byte> {
    Wire(TypeByte(p), if p.MethodCall? then 0 else 1, p.serial, FieldsOf(p), p.body)
  }

  predicate IsStr(s: seq<byte>) {
    ValidUtf8(s) && |s| < TWO_32
  }

  /** Strings are strings, the signature fits its length byte, and the message is within the size caps. */
  predicate Sendable(p: Packet) {
    && (match p
        case MethodCall(_, d, pa, i, m, s, _) => IsStr(d) && IsStr(pa) && IsStr(i) && IsStr(m) && IsStr(s) && |s| < 256
        case Reply(_, d, _, s, _) => (d.Some? ==> IsStr(d.value)) && IsStr(s) && |s| < 256
        case Error(_, d, _, e, _) => (d.Some? ==> IsStr(d.value)) && IsStr(e)
        case Signal(_, pa, i, m, s, _) => IsStr(pa) && IsStr(i) && IsStr(m) && IsStr(s) && |s| < 256)
    && |p.body| <= MAX_BODY && |EncodeAll(FieldTrees(FieldsOf(p)), 16)| <= MAX_FIELDS
  }

  /** The message the receiver should see. The destination is for the bus only. */
  function Expected(p: Packet): Message {
    match p
    case MethodCall(n, _, pa, i, m, s, b) =>
      Message(1, n, None, Some(m), if i == [] then None else Some(i), Some(pa), None, None, s, b)
    case Reply(n, _, r, s, b) => Message(2, n, Some(r), None, None, None, None, None, s, b)
    case Error(n, _, r, e, b) => Message(3, n, Some(r), None, None, None, Some(e), None, ['s' as int], b)
    case Signal(n, pa, i, m, s, b) => Message(4, n, None, Some(m), Some(i), Some(pa), None, None, s, b)
  }

  lemma FieldsGood(p: Packet)
    requires Sendable(p)
    ensures GoodFields(FieldsOf(p))
  {
    hide EncodeAll, FieldTrees, ValidUtf8;
    AsciiIsUtf8(['s' as int]);
  }

  /** The fields of a packet rebuild the expected message. */
  lemma FieldsRebuild(p: Packet)
    ensures ApplyAll(Blank(TypeByte(p), p.serial, p.body), FieldsOf(p)) == Expected(p)
  {
    match p
    case MethodCall(_, _, _, _, _, _, _) => CallRebuild(p);
    case Reply(_, _, _, _, _) => ReplyRebuild(p);
    case Error(_, _, _, _, _) => ErrorRebuild(p);
    case Signal(_, _, _, _, _, _) => SignalRebuild(p);
  }

  lemma CallRebuild(p: Packet)
    requires p.MethodCall?
    ensures ApplyAll(Blank(1, p.serial, p.body), FieldsOf(p)) == Expected(p)
  {
    hide ApplyAll, Apply, Seen;
    var m := Blank(1, p.serial, p.body);
    var fs := Snoc(m, [], true, PathField(p.path));
    assert fs == [PathField(p.path)];
    fs := Snoc(m, fs, p.iface != [], StrField(2, p.iface));
    fs := Snoc(m, fs, true, StrField(3, p.member));
    fs := Snoc(m, fs, p.callDest != [], StrField(6, p.callDest));
    fs := Snoc(m, fs, p.signature != [], SigField(p.signature));
    assert fs == FieldsOf(p);
    CallApplied(p);
  }

  lemma CallApplied(p: Packet)
    requires p.MethodCall?
    ensures forall n {:trigger Apply(n, 1, Seen(TextNode('o' as int, p.path)))} ::
      Apply(n, 1, Seen(TextNode('o' as int, p.path))) == n.(path := Some(p.path))
    ensures forall n {:trigger Apply(n, 2, Seen(TextNode('s' as int, p.iface)))} ::
      Apply(n, 2, Seen(TextNode('s' as int, p.iface))) == n.(iface := Some(p.iface))
    ensures forall n {:trigger Apply(n, 3, Seen(TextNode('s' as int, p.member)))} ::
      Apply(n, 3, Seen(TextNode('s' as int, p.member))) == n.(member := Some(p.member))
    ensures forall n {:trigger Apply(n, 6, Seen(TextNode('s' as int, p.callDest)))} ::
      Apply(n, 6, Seen(TextNode('s' as int, p.callDest))) == n
    ensures forall n {:trigger Apply(n, 8, Seen(SigNode(p.signature)))} ::
      Apply(n, 8, Seen(SigNode(p.signature))) == n.(signature := p.signature)
  {
  }

  lemma ReplyRebuild(p: Packet)
    requires p.Reply?
    ensures ApplyAll(Blank(2, p.serial, p.body), FieldsOf(p)) == Expected(p)
  {
    hide ApplyAll;
    var m := Blank(2, p.serial, p.body);
    var fs := Snoc(m, [], true, U32Field(5, p.replySerial));
    assert fs == [U32Field(5, p.replySerial)];
    fs := Snoc(m, fs, p.dest.Some?, StrField(6, if p.dest.Some? then p.dest.value else []));
    fs := Snoc(m, fs, p.signature != [], SigField(p.signature));
    assert fs == FieldsOf(p);
  }

  lemma ErrorRebuild(p: Packet)
    requires p.Error?
    ensures ApplyAll(Blank(3, p.serial, p.body), FieldsOf(p)) == Expected(p)
  {
    hide ApplyAll;
    var m := Blank(3, p.serial, p.body);
    var fs := Snoc(m, [], true, StrField(4, p.errorName));
    assert fs == [StrField(4, p.errorName)];
    fs := Snoc(m, fs, true, U32Field(5, p.replySerial));
    fs := Snoc(m, fs, p.dest.Some?, StrField(6, if p.dest.Some? then p.dest.value else []));
    fs := Snoc(m, fs, true, SigField(['s' as int]));
    assert fs == FieldsOf(p);
  }

  lemma SignalRebuild(p: Packet)
    requires p.Signal?
    ensures ApplyAll(Blank(4, p.serial, p.body), FieldsOf(p)) == Expected(p)
  {
    hide ApplyAll;
    var m := Blank(4, p.serial, p.body);
    var fs := Snoc(m, [], true, PathField(p.path));
    assert fs == [PathField(p.path)];
    fs := Snoc(m, fs, true, StrField(2, p.iface));
    fs := Snoc(m, fs, true, StrField(3, p.member));
    fs := Snoc(m, fs, p.signature != [], SigField(p.signature));
    assert fs == FieldsOf(p);
  }

  lemma Snoc(m: Message, fs: seq<Field>, present: bool, f: Field) returns (gs: seq<Field>)
    ensures gs == fs + Opt(present, f)
    ensures ApplyAll(m, []) == m
    ensures ApplyAll(m, gs) == if present then Apply(ApplyAll(m, fs), f.code, Seen(f.value)) else ApplyAll(m, fs)
  {
    hide Apply, Seen;
    gs := if present then fs + [f] else fs;
    ApplySnoc(m, fs, f);
  }

  /** Each builder's message, followed by anything, is taken as the expected message. */
  lemma PacketRoundTrip(p: Packet, rest: seq<byte>)
    requires Sendable(p)
    ensures TakeMessage(WireOf(p) + rest) == Taken(Expected(p), rest)
  {
    hide TakeMessage, Wire, ApplyAll, Expected, FieldsOf;
    FieldsGood(p);
    FieldsRebuild(p);
    TakesWire(TypeByte(p), if p.MethodCall? then 0 else 1, p.serial, FieldsOf(p), p.body, rest);
  }

  // ---- draining the receive buffer ---------------------------------------------------------

  datatype Drained = Drained(ms: seq<Message>, rest: seq<byte>) | Corrupt

  /** The extraction loop of `try_read_messages`. */
  function Drain(buf: seq<byte>): (r: Drained)
    ensures r.Drained? ==> TakeMessage(r.rest).Incomplete?
    decreases |buf|
  {
    match TakeMessage(buf)
    case Incomplete => Drained([], buf)
    case Invalid => Corrupt
    case Taken(m, rest) => Before([m], Drain(rest))
  }

  function Before(ms: seq<Message>, d: Drained): Drained {
    if d.Corrupt? then Corrupt else Drained(ms + d.ms, d.rest)
  }

  lemma BeforeBefore(xs: seq<Message>, ys: seq<Message>, d: Drained)
    ensures Before(xs, Before(ys, d)) == Before(xs + ys, d)
  {
    if d.Drained? {
      assert xs + (ys + d.ms) == xs + ys + d.ms;
    }
  }

  /** More bytes behind a complete message do not change it. */
  lemma TakeExtends(x: seq<byte>, y: seq<byte>)
    ensures match TakeMessage(x)
            case Incomplete => true
            case Invalid => TakeMessage(x + y) == Invalid
            case Taken(m, rest) => TakeMessage(x + y) == Taken(m, rest + y)
  {
    hide DecodeMessage, U32Of, HeaderPad;
    if |x| >= 16 {
      assert (x + y)[4..8] == x[4..8] && (x + y)[12..16] == x[12..16];
      var total := 16 + U32Of(x[12..16]) + HeaderPad(U32Of(x[12..16])) + U32Of(x[4..8]);
      if |x| >= total {
        assert (x + y)[..total] == x[..total] && (x + y)[total..] == x[total..] + y;
      }
    }
  }

  /** Draining in two goes is draining at once. */
  lemma {:induction false} DrainAppend(x: seq<byte>, y: seq<byte>)
    ensures match Drain(x)
            case Corrupt => Drain(x + y) == Corrupt
            case Drained(ms, r) => Drain(x + y) == Before(ms, Drain(r + y))
    decreases |x|
  {
    hide TakeMessage;
    TakeExtends(x, y);
    match TakeMessage(x)
    case Incomplete =>
      BeforeNil(Drain(x + y));
    case Invalid =>
    case Taken(m, rest) =>
      DrainAppend(rest, y);
      if Drain(rest).Drained? {
        BeforeBefore([m], Drain(rest).ms, Drain(Drain(rest).rest + y));
      }
  }

  lemma BeforeNil(d: Drained)
    ensures Before([], d) == d
  {
    if d.Drained? {
      assert [] + d.ms == d.ms;
    }
  }

  // ---- calls of try_read_messages -------------------------------------------------------

  /** The reading loop: `None` when the backlog cap is passed. */
  function Fill(rbuf: seq<byte>, chunks: seq<seq<byte>>): (r: Option<seq<byte>>)
    decreases chunks
  {
    if chunks == [] then Some(rbuf)
    else if |rbuf + chunks[0]| > MAX_BACKLOG then None
    else Fill(rbuf + chunks[0], chunks[1..])
  }

  lemma {:induction false} FillIsAppend(rbuf: seq<byte>, chunks: seq<seq<byte>>)
    ensures Fill(rbuf, chunks).Some? ==> Fill(rbuf, chunks).value == rbuf + Flat(chunks)
    decreases chunks
  {
    if chunks == [] {
      assert rbuf + [] == rbuf;
    } else {
      FillIsAppend(rbuf + chunks[0], chunks[1..]);
      assert rbuf + chunks[0] + Flat(chunks[1..]) == rbuf + (chunks[0] + Flat(chunks[1..]));
    }
  }

  datatype Outcome = Delivered(ms: seq<Message>, rbuf: seq<byte>) | Backlog | Garbled

  /** One call that reads `chunks` before the socket would block. */
  function Call(rbuf: seq<byte>, chunks: seq<seq<byte>>): Outcome {
    var filled := Fill(rbuf, chunks);
    if filled.None? then Backlog else
    var d := Drain(filled.value);
    if d.Corrupt? then Garbled else Delivered(d.ms, d.rest)
  }

  /** A run of calls; it stops at the first error, as the caller drops the connection. */
  function Run(rbuf: seq<byte>, calls: seq<seq<seq<byte>>>): Outcome
    decreases calls
  {
    if calls == [] then Delivered([], rbuf) else
    var o := Call(rbuf, calls[0]);
    if !o.Delivered? then o else
    var rest := Run(o.rbuf, calls[1..]);
    if !rest.Delivered? then rest else Delivered(o.ms + rest.ms, rest.rbuf)
  }

  function AsOutcome(d: Drained): Outcome {
    if d.Corrupt? then Garbled else Delivered(d.ms, d.rest)
  }

  /**
   * Framing does not depend on chunking: unless the backlog cap stops it, a run of calls delivers
   * what draining all its bytes at once delivers, and fails exactly when that fails.
   */
  lemma {:induction false} ChunkingIsInvisible(rbuf: seq<byte>, calls: seq<seq<seq<byte>>>)
    requires TakeMessage(rbuf).Incomplete?
    ensures Run(rbuf, calls) == Backlog || Run(rbuf, calls) == AsOutcome(Drain(rbuf + FlatCalls(calls)))
    decreases calls
  {
    hide TakeMessage, Fill, Flat;
    if calls == [] {
      assert rbuf + [] == rbuf;
    } else {
      var x, y := rbuf + Flat(calls[0]), FlatCalls(calls[1..]);
      FillIsAppend(rbuf, calls[0]);
      DrainAppend(x, y);
      assert x + y == rbuf + FlatCalls(calls);
      if Call(rbuf, calls[0]).Delivered? {
        ChunkingIsInvisible(Drain(x).rest, calls[1..]);
      }
    }
  }

  /** In every call what was carried over and what is read together stay below the backlog cap. */
  predicate Fits(rbuf: seq<byte>, calls: seq<seq<seq<byte>>>)
    decreases calls
  {
    calls == [] ||
    var b := rbuf + Flat(calls[0]);
    |b| <= MAX_BACKLOG && (Drain(b).Drained? ==> Fits(Drain(b).rest, calls[1..]))
  }

  lemma {:induction false} FillFails(rbuf: seq<byte>, chunks: seq<seq<byte>>)
    requires |rbuf| <= MAX_BACKLOG
    ensures Fill(rbuf, chunks).None? <==> |rbuf + Flat(chunks)| > MAX_BACKLOG
    decreases chunks
  {
    if chunks != [] && |rbuf + chunks[0]| <= MAX_BACKLOG {
      FillFails(rbuf + chunks[0], chunks[1..]);
    }
  }

  lemma {:induction false} DrainShrinks(b: seq<byte>)
    ensures Drain(b).Drained? ==> |Drain(b).rest| <= |b|
    decreases |b|
  {
    hide TakeMessage;
    match TakeMessage(b)
    case Incomplete =>
    case Invalid =>
    case Taken(_, rest) => DrainShrinks(rest);
  }

  /** The backlog error is raised exactly when some call goes beyond the cap. */
  lemma {:induction false} BacklogIffOver(rbuf: seq<byte>, calls: seq<seq<seq<byte>>>)
    requires |rbuf| <= MAX_BACKLOG
    ensures Run(rbuf, calls) == Backlog <==> !Fits(rbuf, calls)
    decreases calls
  {
    hide Fill, Flat, Drain;
    if calls != [] {
      var b := rbuf + Flat(calls[0]);
      FillFails(rbuf, calls[0]);
      FillIsAppend(rbuf, calls[0]);
      DrainShrinks(b);
      if |b| <= MAX_BACKLOG && Drain(b).Drained? {
        BacklogIffOver(Drain(b).rest, calls[1..]);
      }
    }
  }

  function WireAll(ps: seq<Packet>): seq<byte> {
    if ps == [] then [] else WireOf(ps[0]) + WireAll(ps[1..])
  }

  function ExpectedAll(ps: seq<Packet>): seq<Message> {
    if ps == [] then [] else [Expected(ps[0])] + ExpectedAll(ps[1..])
  }

  lemma {:induction false} DrainsAll(ps: seq<Packet>)
    requires forall k :: 0 <= k < |ps| ==> Sendable(ps[k])
    ensures Drain(WireAll(ps)) == Drained(ExpectedAll(ps), [])
  {
    hide TakeMessage, WireOf, Expected, Sendable;
    if ps == [] {
      EmptyIsIncomplete();
    } else {
      PacketRoundTrip(ps[0], WireAll(ps[1..]));
      DrainsAll(ps[1..]);
    }
  }

  lemma EmptyIsIncomplete()
    ensures TakeMessage([]) == Incomplete
  {
  }

  /**
   * Any sequence of sendable messages, concatenated and delivered in any chunking that stays below
   * the backlog cap, comes out as exactly those messages in order, with an empty receive buffer.
   */
  lemma StreamRoundTrip(ps: seq<Packet>, calls: seq<seq<seq<byte>>>)
    requires forall k :: 0 <= k < |ps| ==> Sendable(ps[k])
    requires FlatCalls(calls) == WireAll(ps)
    ensures Run([], calls) == if Fits([], calls) then Delivered(ExpectedAll(ps), []) else Backlog
  {
    hide TakeMessage, Run, Sendable, Fits;
    BacklogIffOver([], calls);
    EmptyIsIncomplete();
    ChunkingIsInvisible([], calls);
    DrainsAll(ps);
    assert [] + FlatCalls(calls) == WireAll(ps);
  }

  /** End to end: values put into a body arrive as the values `args` returns. */
  lemma BodyRoundTrip(ts: seq<Tree>, p: Packet, rest: seq<byte>)
    requires AllWellTyped(ts) && Sendable(p) && !p.Error?
    requires p.signature == SigAll(TypesOf(ts)) && p.body == EncodeAll(ts, 0)
    ensures TakeMessage(WireOf(p) + rest).Taken?
    ensures var m := TakeMessage(WireOf(p) + rest).m;
      DecodeArgs(m.body, 0, m.signature, 0) == SeenAll(ts)
  {
    hide TakeMessage, Encode, SigAll, DecodeArgs, SeenAll, WireOf, Sendable;
    PacketRoundTrip(p, rest);
    assert At(p.body, 0, EncodeAll(ts, 0)) && At(p.signature, 0, SigAll(TypesOf(ts)));
    ArgsRoundTrip(ts, p.body, 0, p.signature, 0);
  }

  /** The receiving half of a connection. */
  class Connection {
    var rbuf: seq<byte>

    constructor ()
      ensures rbuf == []
    {
      rbuf := [];
    }

    method TakeBufferedMessage() returns (r: Taken)
      modifies this
      ensures r == TakeMessage(old(rbuf))
      ensures rbuf == if r.Taken? then r.rest else old(rbuf)
    {
      hide ParseFields, U32Of, HeaderPad;
      if |rbuf| < 16 {
        return Incomplete;
      }
      var h := rbuf[..16];
      HeaderWords(rbuf);
      if h[0] != 'l' as int {
        return Invalid;
      }
      var bodyLen, fieldsLen := U32Of(h[4..8]), U32Of(h[12..16]);
      if bodyLen > MAX_BODY || fieldsLen > MAX_FIELDS {
        return Invalid;
      }
      var pad := HeaderPad(fieldsLen);
      var total := 16 + fieldsLen + pad + bodyLen;
      if |rbuf| < total {
        return Incomplete;
      }
      var raw := rbuf[..total];
      rbuf := rbuf[total..];
      var m := ParseHeader(raw[16..16 + fieldsLen], Blank(raw[1], U32Of(raw[8..12]), raw[16 + fieldsLen + pad..]));
      r := Taken(m, rbuf);
    }

    /** `try_read_messages`; the socket yields `chunks` and then would block. */
    method TryReadMessages(chunks: seq<seq<byte>>) returns (o: Outcome)
      modifies this
      ensures o == Call(old(rbuf), chunks)
      ensures o.Delivered? ==> rbuf == o.rbuf
    {
      hide TakeMessage;
      var i := 0;
      while i < |chunks|
        invariant i <= |chunks| && Fill(old(rbuf), chunks) == Fill(rbuf, chunks[i..])
      {
        rbuf := rbuf + chunks[i];
        if |rbuf| > MAX_BACKLOG {
          return Backlog;
        }
        assert chunks[i..][1..] == chunks[i + 1..];
        i := i + 1;
      }
      var out: seq<Message> := [];
      ghost var filled := rbuf;
      BeforeNil(Drain(filled));
      while true
        invariant Drain(filled) == Before(out, Drain(rbuf))
        decreases |rbuf|
      {
        ghost var b := rbuf;
        var t := TakeBufferedMessage();
        if t.Invalid? {
          return Garbled;
        }
        if t.Incomplete? {
          break;
        }
        BeforeBefore(out, [t.m], Drain(rbuf));
        out := out + [t.m];
      }
      assert out + [] == out;
      o := Delivered(out, rbuf);
    }
  }
}
