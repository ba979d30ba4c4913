/** Messages: the four builders, the header parser, and the framing of a byte stream into messages. */
module DBusMessages {
  import opened Wrappers
  import opened Bytes
  import opened DBusTypes
  import opened DBusDecode
  import opened DBusEncode
  import opened DBusUnmarshal

  datatype Message = Message(
    msgType: byte, serial: u32, replySerial: Option<u32>,
    member: Option<seq<byte>>, iface: Option<seq<byte>>, path: Option<seq<byte>>,
    errorName: Option<seq<byte>>, sender: Option<seq<byte>>,
    signature: seq<byte>, body: seq<byte>)

  const MAX_BODY: nat := 0x400_0000     // 64 MiB
  const MAX_FIELDS: nat := 0x10_0000    // 1 MiB
  const MAX_BACKLOG: nat := 0x80_0000   // 8 MiB

  // ---- writing ---------------------------------------------------------------------

  /** One header field: a code and a variant. */
  datatype Field = Field(code: byte, value: Tree)

  function StrField(code: byte, s: seq<byte>): Field { Field(code, TextNode('s' as int, s)) }
  function PathField(s: seq<byte>): Field { Field(1, TextNode('o' as int, s)) }
  function U32Field(code: byte, n: u32): Field { Field(code, FixedNode('u' as int, U32(n))) }
  function SigField(s: seq<byte>): Field { Field(8, SigNode(s)) }

  function Opt<T>(present: bool, f: T): seq<T> { if present then [f] else [] }

  /** The element type of the header array: struct of byte and variant. */
  const FIELD_TY: Ty := StructTy([FixedTy('y' as int), VariantTy])

  function FieldTree(f: Field): Tree {
    StructNode([FixedNode('y' as int, Byte(f.code)), VariantNode(f.value)])
  }

  function FieldTrees(fs: seq<Field>): (ts: seq<Tree>)
    ensures |ts| == |fs|
  {
    if fs == [] then [] else [FieldTree(fs[0])] + FieldTrees(fs[1..])
  }

  /** A header: fixed part and field array, 16 bytes and the fields. */
  function Header(msgType: byte, flags: byte, bodyLen: nat, serial: u32, fs: seq<Field>): seq<byte> {
    ['l' as int, msgType, flags, 1] + U32Bytes(bodyLen) + U32Bytes(serial)
    + Encode(ArrayNode(FIELD_TY, FieldTrees(fs)), 12)
  }

  /** A whole message: header, padding to 8, body. */
  function Wire(msgType: byte, flags: byte, serial: u32, fs: seq<Field>, body: seq<byte>): seq<byte> {
    var h := Header(msgType, flags, |body|, serial, fs);
    h + Zeros(Pad(|h|, 8)) + body
  }

  function CallFields(dest: seq<byte>, path: seq<byte>, iface: seq<byte>, member: seq<byte>, signature: seq<byte>)
    : seq<Field>
  {
    [PathField(path)] + Opt(iface != [], StrField(2, iface)) + [StrField(3, member)]
    + Opt(dest != [], StrField(6, dest)) + Opt(signature != [], SigField(signature))
  }

  function DestField(dest: Option<seq<byte>>): seq<Field> {
    if dest.Some? then [StrField(6, dest.value)] else []
  }

  function ReplyFields(dest: Option<seq<byte>>, replySerial: u32, signature: seq<byte>): seq<Field> {
    [U32Field(5, replySerial)] + DestField(dest) + Opt(signature != [], SigField(signature))
  }

  function SignalFields(path: seq<byte>, iface: seq<byte>, member: seq<byte>, signature: seq<byte>): seq<Field> {
    [PathField(path), StrField(2, iface), StrField(3, member)] + Opt(signature != [], SigField(signature))
  }

  function ErrorFields(dest: Option<seq<byte>>, replySerial: u32, errorName: seq<byte>): seq<Field> {
    [StrField(4, errorName), U32Field(5, replySerial)] + DestField(dest) + [SigField(['s' as int])]
  }

  /** Open a message and its field array. */
  method BeginMessage(msgType: byte, flags: byte, bodyLen: nat, serial: u32)
    returns (h: Marshal, lenPos: nat, start: nat)
    ensures fresh(h) && lenPos == 12 && start == 16
    ensures h.buf == ['l' as int, msgType, flags, 1] + U32Bytes(bodyLen) + U32Bytes(serial) + ArrayHead(0, 8, 12)
    ensures |h.buf| == 16
  {
    hide LE;
    h := new Marshal();
    h.PutU8('l' as int);
    h.PutU8(msgType);
    h.PutU8(flags);
    h.PutU8(1);
    h.PutU32(bodyLen);
    h.PutU32(serial);
    assert h.buf == ['l' as int, msgType, flags, 1] + U32Bytes(bodyLen) + U32Bytes(serial);
    lenPos, start := h.BeginArray(8);
  }

  /** One field: align, code, signature, value. */
  method PutField(h: Marshal, f: Field)
    modifies h
    ensures h.buf == old(h.buf) + Encode(FieldTree(f), |old(h.buf)|)
  {
    hide Encode, Pad, Sig, TypeOf;
    ghost var off := |h.buf|;
    h.Align(8);
    h.PutU8(f.code);
    h.PutSignature(Sig(TypeOf(f.value)));
    h.Put(f.value);
    FieldBytes(f, off);
    ghost var p := off + Pad(off, 8);
    ghost var s := SigBytes(Sig(TypeOf(f.value)));
    assert h.buf == old(h.buf) + (Zeros(Pad(off, 8)) + ([f.code] + (s + Encode(f.value, p + 1 + |s|))));
  }

  /** Close the field array, pad to 8, append the body. */
  method EndMessage(h: Marshal, lenPos: nat, start: nat, body: seq<byte>,
                    ghost msgType: byte, ghost flags: byte, ghost serial: u32, ghost fs: seq<Field>)
    returns (msg: seq<byte>)
    requires lenPos == 12 && start == 16
    requires h.buf == ['l' as int, msgType, flags, 1] + U32Bytes(|body|) + U32Bytes(serial)
                    + ArrayHead(0, 8, 12) + EncodeAll(FieldTrees(fs), 16)
    modifies h
    ensures msg == Wire(msgType, flags, serial, fs, body)
  {
    ghost var pre := ['l' as int, msgType, flags, 1] + U32Bytes(|body|) + U32Bytes(serial);
    h.EndArray(lenPos, start);
    BackPatched(pre, 12, 8, EncodeAll(FieldTrees(fs), 16));
    h.Align(8);
    msg := h.buf + body;
  }

  method BuildMethodCall(serial: u32, dest: seq<byte>, path: seq<byte>, iface: seq<byte>, member: seq<byte>,
                         signature: seq<byte>, body: seq<byte>) returns (msg: seq<byte>)
    ensures msg == Wire(1, 0, serial, CallFields(dest, path, iface, member, signature), body)
  {
    hide Encode, EncodeAll, FieldTrees, Wire, ArrayHead, U32Bytes;
    var h, lenPos, start := BeginMessage(1, 0, |body|, serial);
    ghost var pre := h.buf;
    PutField(h, PathField(path));
    ghost var fs := [PathField(path)];
    FirstField(PathField(path));
    if iface != [] {
      PutField(h, StrField(2, iface));
      fs := NextField(pre, fs, StrField(2, iface));
    }
    PutField(h, StrField(3, member));
    fs := NextField(pre, fs, StrField(3, member));
    if dest != [] {
      PutField(h, StrField(6, dest));
      fs := NextField(pre, fs, StrField(6, dest));
    }
    if signature != [] {
      PutField(h, SigField(signature));
      fs := NextField(pre, fs, SigField(signature));
    }
    assert fs == CallFields(dest, path, iface, member, signature);
    msg := EndMessage(h, lenPos, start, body, 1, 0, serial, fs);
  }

  method BuildReply(serial: u32, dest: Option<seq<byte>>, replySerial: u32, signature: seq<byte>, body: seq<byte>)
    returns (msg: seq<byte>)
    ensures msg == Wire(2, 1, serial, ReplyFields(dest, replySerial, signature), body)
  {
    hide Encode, EncodeAll, FieldTrees, Wire, ArrayHead, U32Bytes;
    var h, lenPos, start := BeginMessage(2, 1, |body|, serial);
    ghost var pre := h.buf;
    PutField(h, U32Field(5, replySerial));
    ghost var fs := [U32Field(5, replySerial)];
    FirstField(U32Field(5, replySerial));
    if dest.Some? {
      PutField(h, StrField(6, dest.value));
      fs := NextField(pre, fs, StrField(6, dest.value));
    }
    if signature != [] {
      PutField(h, SigField(signature));
      fs := NextField(pre, fs, SigField(signature));
    }
    assert fs == ReplyFields(dest, replySerial, signature);
    msg := EndMessage(h, lenPos, start, body, 2, 1, serial, fs);
  }

  method BuildSignal(serial: u32, path: seq<byte>, iface: seq<byte>, member: seq<byte>, signature: seq<byte>,
                     body: seq<byte>) returns (msg: seq<byte>)
    ensures msg == Wire(4, 1, serial, SignalFields(path, iface, member, signature), body)
  {
    hide Encode, EncodeAll, FieldTrees, Wire, ArrayHead, U32Bytes;
    var h, lenPos, start := BeginMessage(4, 1, |body|, serial);
    ghost var pre := h.buf;
    PutField(h, PathField(path));
    ghost var fs := [PathField(path)];
    FirstField(PathField(path));
    PutField(h, StrField(2, iface));
    fs := NextField(pre, fs, StrField(2, iface));
    PutField(h, StrField(3, member));
    fs := NextField(pre, fs, StrField(3, member));
    if signature != [] {
      PutField(h, SigField(signature));
      fs := NextField(pre, fs, SigField(signature));
    }
    assert fs == SignalFields(path, iface, member, signature);
    msg := EndMessage(h, lenPos, start, body, 4, 1, serial, fs);
  }

  method BuildError(serial: u32, dest: Option<seq<byte>>, replySerial: u32, errorName: seq<byte>, body: seq<byte>)
    returns (msg: seq<byte>)
    ensures msg == Wire(3, 1, serial, ErrorFields(dest, replySerial, errorName), body)
  {
    hide Encode, EncodeAll, FieldTrees, Wire, ArrayHead, U32Bytes;
    var h, lenPos, start := BeginMessage(3, 1, |body|, serial);
    ghost var pre := h.buf;
    PutField(h, StrField(4, errorName));
    ghost var fs := [StrField(4, errorName)];
    FirstField(StrField(4, errorName));
    PutField(h, U32Field(5, replySerial));
    fs := NextField(pre, fs, U32Field(5, replySerial));
    if dest.Some? {
      PutField(h, StrField(6, dest.value));
      fs := NextField(pre, fs, StrField(6, dest.value));
    }
    PutField(h, SigField(['s' as int]));
    fs := NextField(pre, fs, SigField(['s' as int]));
    assert fs == ErrorFields(dest, replySerial, errorName);
    msg := EndMessage(h, lenPos, start, body, 3, 1, serial, fs);
  }

  lemma CodeByte(code: byte, off: nat)
    ensures Encode(FixedNode('y' as int, Byte(code)), off) == [code]
  {
    assert LE(code, 1) == [code] + LE(code / 256, 0);
  }

  lemma EncodeTwo(x: Tree, y: Tree, off: nat)
    ensures EncodeAll([x, y], off) == Encode(x, off) + Encode(y, off + |Encode(x, off)|)
  {
    hide Encode;
    var p := off + |Encode(x, off)|;
    assert [x, y][1..] == [y] && [y][1..] == [];
    assert EncodeAll([y], p) == Encode(y, p) + EncodeAll([], p + |Encode(y, p)|);
  }

  lemma FieldBytes(f: Field, off: nat)
    ensures var p := off + Pad(off, 8);
      var s := SigBytes(Sig(TypeOf(f.value)));
      Encode(FieldTree(f), off) == Zeros(Pad(off, 8)) + ([f.code] + (s + Encode(f.value, p + 1 + |s|)))
  {
    hide Pad, SigBytes, Sig, TypeOf, EncodeAll;
    var p := off + Pad(off, 8);
    CodeByte(f.code, p);
    EncodeTwo(FixedNode('y' as int, Byte(f.code)), VariantNode(f.value), p);
  }

  lemma FirstField(f: Field)
    ensures EncodeAll(FieldTrees([f]), 16) == Encode(FieldTree(f), 16)
  {
    assert [f][1..] == [];
    assert FieldTrees([f]) == [FieldTree(f)];
    assert [FieldTree(f)][1..] == [];
    hide Encode;
    assert EncodeAll([FieldTree(f)], 16) == Encode(FieldTree(f), 16) + EncodeAll([], 16 + |Encode(FieldTree(f), 16)|);
  }

  /** Appending a field's bytes is encoding the longer field list. */
  lemma NextField(pre: seq<byte>, fs: seq<Field>, f: Field) returns (gs: seq<Field>)
    requires |pre| == 16
    ensures gs == fs + [f]
    ensures var body := EncodeAll(FieldTrees(fs), 16);
      pre + EncodeAll(FieldTrees(gs), 16) == pre + body + Encode(FieldTree(f), |pre + body|)
  {
    hide Encode, FieldTree;
    gs := fs + [f];
    AppendTree(fs, f);
    AppendEncoding(FieldTrees(fs), FieldTree(f), 16);
  }

  lemma {:induction false} AppendTree(fs: seq<Field>, f: Field)
    ensures FieldTrees(fs + [f]) == FieldTrees(fs) + [FieldTree(f)]
  {
    if fs == [] {
      assert fs + [f] == [f];
    } else {
      assert (fs + [f])[1..] == fs[1..] + [f];
      AppendTree(fs[1..], f);
    }
  }

  lemma {:induction false} AppendEncoding(ts: seq<Tree>, t: Tree, off: nat)
    ensures EncodeAll(ts + [t], off) == EncodeAll(ts, off) + Encode(t, off + |EncodeAll(ts, off)|)
    decreases ts
  {
    hide Encode;
    if ts == [] {
      assert ts + [t] == [t];
      assert [t][1..] == [];
      assert EncodeAll([t], off) == Encode(t, off) + EncodeAll([], off + |Encode(t, off)|);
    } else {
      assert (ts + [t])[1..] == ts[1..] + [t];
      AppendEncoding(ts[1..], t, off + |Encode(ts[0], off)|);
    }
  }

  // ---- reading ---------------------------------------------------------------------

  /** The `match code` of the header loop. */
  function Apply(m: Message, code: byte, v: Value): Message {
    if code == 1 then m.(path := v.AsStr())
    else if code == 2 then m.(iface := v.AsStr())
    else if code == 3 then m.(member := v.AsStr())
    else if code == 4 then m.(errorName := v.AsStr())
    else if code == 5 then m.(replySerial := v.AsU32())
    else if code == 7 then m.(sender := v.AsStr())
    else if code == 8 then m.(signature := if v.AsStr().Some? then v.AsStr().value else [])
    else m
  }

  /** The header loop: fields until the buffer ends or one does not decode. */
  function ParseFields(b: seq<byte>, pos: nat, m: Message): Message
    requires pos <= |b| + 1
    decreases |b| + 1 - pos
  {
    if pos >= |b| then m else
    var code := ReadFixed(b, AlignPos(b, pos, 8), 1);
    if code.Fail? then m else
    var s := ReadSig(b, code.pos);
    if s.Fail? then m else
    var v := Decode(b, s.pos, s.value, 0);
    if v.NoValue? then m else ParseFields(b, v.pos, Apply(m, code.value, v.value))
  }

  function Blank(msgType: byte, serial: u32, body: seq<byte>): Message {
    Message(msgType, serial, None, None, None, None, None, None, [], body)
  }

  /** `decode`: split a complete raw message and parse its header fields. */
  function DecodeMessage(raw: seq<byte>, fieldsLen: nat, pad: nat, bodyLen: nat): Message
    requires |raw| == 16 + fieldsLen + pad + bodyLen
  {
    ParseFields(raw[16..16 + fieldsLen], 0,
                Blank(raw[1], U32Of(raw[8..12]), raw[16 + fieldsLen + pad..]))
  }

  datatype Taken = Incomplete | Invalid | Taken(m: Message, rest: seq<byte>)

  function HeaderPad(fieldsLen: nat): nat {
    (8 - fieldsLen % 8) % 8
  }

  /** `take_buffered_message` as a function of the receive buffer. */
  function TakeMessage(buf: seq<byte>): (r: Taken)
    ensures r.Taken? ==> |r.rest| + 16 <= |buf|
  {
    if |buf| < 16 then Incomplete
    else if buf[0] != 'l' as int then Invalid
    else
      var bodyLen, fieldsLen := U32Of(buf[4..8]), U32Of(buf[12..16]);
      if bodyLen > MAX_BODY || fieldsLen > MAX_FIELDS then Invalid
      else
        var total := 16 + fieldsLen + HeaderPad(fieldsLen) + bodyLen;
        if |buf| < total then Incomplete
        else Taken(DecodeMessage(buf[..total], fieldsLen, HeaderPad(fieldsLen), bodyLen), buf[total..])
  }

  /** The loop of `decode`, run with a cursor. */
  method ParseHeader(fields: seq<byte>, blank: Message) returns (m: Message)
    ensures m == ParseFields(fields, 0, blank)
  {
    hide Decode, ReadFixed, ReadSig, AlignPos;
    m := blank;
    var u := new Unmarshal(fields);
    while u.pos < |fields|
      invariant u.b == fields && u.pos <= |fields| + 1 && fresh(u)
      invariant ParseFields(fields, 0, blank) == ParseFields(fields, u.pos, m)
      decreases |fields| + 1 - u.pos
    {
      u.Align(8);
      var code := u.Fixed(1);
      if code.None? {
        break;
      }
      var s := u.SigString();
      if s.None? {
        break;
      }
      var v, _ := u.ValueAt(s.value, 0);
      if v.None? {
        break;
      }
      m := Apply(m, ByteOf(code.value), v.value);
    }
  }

  function ByteOf(n: nat): byte
    requires n < Pow256(1)
  {
    Pow256Values();
    n
  }

  /** `read_message`: the same message, read from a stream piece by piece. */
  datatype Pulled = Eof | Refused | Pulled(m: Message, rest: seq<byte>)

  class Stream {
    var data: seq<byte>

    /** `read_exact` */
    method ReadExact(n: nat) returns (r: Option<seq<byte>>)
      modifies this
      ensures old(|data|) < n ==> r == None && data == old(data)
      ensures old(|data|) >= n ==> r == Some(old(data)[..n]) && data == old(data)[n..]
    {
      if |data| < n {
        return None;
      }
      r := Some(data[..n]);
      data := data[n..];
    }

    /** Field array, its padding, body. */
    method ReadParts(fieldsLen: nat, bodyLen: nat) returns (r: Option<(seq<byte>, seq<byte>)>)
      modifies this
      ensures old(|data|) < fieldsLen + HeaderPad(fieldsLen) + bodyLen ==> r == None
      ensures var start, total := fieldsLen + HeaderPad(fieldsLen), fieldsLen + HeaderPad(fieldsLen) + bodyLen;
        old(|data|) >= total ==>
          data == old(data)[total..] && r == Some((old(data)[..fieldsLen], old(data)[start..total]))
    {
      hide HeaderPad;
      var fields := ReadExact(fieldsLen);
      if fields.None? {
        return None;
      }
      var pad := HeaderPad(fieldsLen);
      if pad > 0 {
        var p := ReadExact(pad);
        if p.None? {
          return None;
        }
      }
      var body := ReadExact(bodyLen);
      if body.None? {
        return None;
      }
      DropDrop(old(data), fieldsLen, pad);
      DropDrop(old(data), fieldsLen + pad, bodyLen);
      r := Some((fields.value, body.value));
    }

    /** It reads exactly the bytes `take_buffered_message` would take, and decodes them to the same message. */
    method ReadMessage() returns (r: Pulled)
      modifies this
      ensures match TakeMessage(old(data))
              case Incomplete => r == Eof
              case Invalid => r == Refused
              case Taken(m, rest) => r == Pulled(m, rest) && data == rest
    {
      hide ParseFields, U32Of, HeaderPad;
      ghost var buf := data;
      var hdr := ReadExact(16);
      if hdr.None? {
        return Eof;
      }
      var h := hdr.value;
      HeaderWords(buf);
      if h[0] != 'l' as int {
        return Refused;
      }
      var bodyLen, fieldsLen := U32Of(h[4..8]), U32Of(h[12..16]);
      if bodyLen > MAX_BODY || fieldsLen > MAX_FIELDS {
        return Refused;
      }
      var parts := ReadParts(fieldsLen, bodyLen);
      if parts.None? {
        return Eof;
      }
      RawSlices(buf, fieldsLen, HeaderPad(fieldsLen), bodyLen);
      var m := ParseHeader(parts.value.0, Blank(h[1], U32Of(h[8..12]), parts.value.1));
      r := Pulled(m, data);
    }
  }

  lemma HeaderWords(buf: seq<byte>)
    requires |buf| >= 16
    ensures buf[..16][4..8] == buf[4..8] && buf[..16][8..12] == buf[8..12] && buf[..16][12..16] == buf[12..16]
  {
  }

  lemma DropDrop(s: seq<byte>, a: nat, b: nat)
    requires a + b <= |s|
    ensures s[a..][b..] == s[a + b..] && s[a..][..b] == s[a..a + b]
  {
  }

  lemma SliceSlice(s: seq<byte>, n: nat, a: nat, b: nat)
    requires a <= b <= n <= |s|
    ensures s[..n][a..b] == s[a..b]
  {
  }

  lemma DropSlice(s: seq<byte>, n: nat, a: nat, b: nat)
    requires a <= b && n + b <= |s|
    ensures s[n..][a..b] == s[n + a..n + b]
  {
  }

  /** The pieces of a raw message, cut from the buffer at once or one after the other. */
  lemma RawSlices(buf: seq<byte>, fieldsLen: nat, pad: nat, bodyLen: nat)
    requires |buf| >= 16 + fieldsLen + pad + bodyLen
    ensures var total := fieldsLen + pad + bodyLen;
      var raw := buf[..16 + total];
      && raw[16..16 + fieldsLen] == buf[16..][..fieldsLen]
      && raw[16 + fieldsLen + pad..] == buf[16..][fieldsLen + pad..total]
      && raw[8..12] == buf[8..12]
      && buf[16..][total..] == buf[16 + total..]
  {
    var total := fieldsLen + pad + bodyLen;
    SliceSlice(buf, 16 + total, 16, 16 + fieldsLen);
    SliceSlice(buf, 16 + total, 16 + fieldsLen + pad, 16 + total);
    SliceSlice(buf, 16 + total, 8, 12);
    DropSlice(buf, 16, 0, fieldsLen);
    DropSlice(buf, 16, fieldsLen + pad, total);
    DropDrop(buf, 16, total);
  }
}
