/** Header fields: what a reader makes of any list of them, in any order, and what the bus finds in a message. */
module DBusHeaders {
  import opened Wrappers
  import opened Bytes
  import opened DBusTypes
  import opened DBusDecode
  import opened DBusEncode
  import opened DBusRoundTrip
  import opened DBusMessages
  import opened DBusStream

  // ---- any list of fields -------------------------------------------------------------------

  /** The last field with this code; later fields replace earlier ones. */
  function LastOf(fs: seq<Field>, code: byte): Option<Tree> {
    if fs == [] then None
    else if fs[|fs| - 1].code == code then Some(fs[|fs| - 1].value)
    else LastOf(fs[..|fs| - 1], code)
  }

  function Text(t: Tree): Option<seq<byte>> {
    match t
    case TextNode(_, s) => Some(s)
    case SigNode(s) => Some(s)
    case VariantNode(inner) => Text(inner)
    case _ => None
  }

  function Number(t: Tree): Option<u32> {
    match t
    case FixedNode(_, U32(n)) => Some(n)
    case VariantNode(inner) => Number(inner)
    case _ => None
  }

  function TextIn(fs: seq<Field>, code: byte): Option<seq<byte>> {
    var t := LastOf(fs, code);
    if t.Some? then Text(t.value) else None
  }

  function NumberIn(fs: seq<Field>, code: byte): Option<u32> {
    var t := LastOf(fs, code);
    if t.Some? then Number(t.value) else None
  }

  lemma {:induction false} TextIsSeen(t: Tree)
    requires WellTyped(t)
    ensures Seen(t).AsStr() == Text(t) && Seen(t).AsU32() == Number(t)
  {
    match t
    case VariantNode(inner) => TextIsSeen(inner);
    case _ =>
  }

  /** The message a reader should make of the fields: each part from the last field with its code. */
  function Told(msgType: byte, serial: u32, fs: seq<Field>, body: seq<byte>): Message {
    Message(
      msgType := msgType, serial := serial, replySerial := NumberIn(fs, 5),
      member := TextIn(fs, 3), iface := TextIn(fs, 2), path := TextIn(fs, 1),
      errorName := TextIn(fs, 4), sender := TextIn(fs, 7),
      signature := if TextIn(fs, 8).Some? then TextIn(fs, 8).value else [], body := body)
  }

  lemma {:induction false} AppliedIsTold(msgType: byte, serial: u32, fs: seq<Field>, body: seq<byte>)
    requires GoodFields(fs)
    ensures ApplyAll(Blank(msgType, serial, body), fs) == Told(msgType, serial, fs, body)
    decreases |fs|
  {
    hide WellTyped, Sig, TypeOf, Seen;
    if fs != [] {
      var front, f := fs[..|fs| - 1], fs[|fs| - 1];
      assert fs == front + [f];
      AppliedIsTold(msgType, serial, front, body);
      ApplySnoc(Blank(msgType, serial, body), front, f);
      assert WellTyped(f.value);
      TextIsSeen(f.value);
      hide ApplyAll, Text, Number, GoodFields;
    }
  }

  /**
   * A message with any well-typed header fields, in any order, known or not, is taken as the message
   * they tell: path, interface, member, error name, reply serial, sender and signature.
   */
  lemma AnyHeader(msgType: byte, flags: byte, serial: u32, fs: seq<Field>, body: seq<byte>, rest: seq<byte>)
    requires GoodFields(fs) && |body| <= MAX_BODY && |EncodeAll(FieldTrees(fs), 16)| <= MAX_FIELDS
    ensures TakeMessage(Wire(msgType, flags, serial, fs, body) + rest) == Taken(Told(msgType, serial, fs, body), rest)
  {
    hide TakeMessage, Wire, ApplyAll, GoodFields, Told, EncodeAll, FieldTrees;
    TakesWire(msgType, flags, serial, fs, body, rest);
    AppliedIsTold(msgType, serial, fs, body);
  }

  // ---- as the bus stamps it -------------------------------------------------------------------

  /** The bus adds who sent the message, wherever among the fields. */
  function Stamped(fs: seq<Field>, name: seq<byte>, k: nat): seq<Field>
    requires k <= |fs|
  {
    fs[..k] + [StrField(7, name)] + fs[k..]
  }

  lemma {:induction false} LastAppend(x: seq<Field>, y: seq<Field>, code: byte)
    ensures LastOf(x + y, code) == if LastOf(y, code).Some? then LastOf(y, code) else LastOf(x, code)
    decreases |y|
  {
    if y == [] {
      assert x + y == x;
    } else {
      var front := y[..|y| - 1];
      assert (x + y)[..|x + y| - 1] == x + front;
      LastAppend(x, front, code);
    }
  }

  lemma StampedLast(fs: seq<Field>, name: seq<byte>, k: nat, code: byte)
    requires k <= |fs| && LastOf(fs, 7).None?
    ensures LastOf(Stamped(fs, name, k), code)
         == if code == 7 then Some(TextNode('s' as int, name)) else LastOf(fs, code)
  {
    var f := StrField(7, name);
    LastAppend(fs[..k], fs[k..], code);
    LastAppend(fs[..k] + [f], fs[k..], code);
    LastAppend(fs[..k], [f], code);
    assert LastOf([f], code) == (if code == 7 then Some(f.value) else LastOf([f][..0], code));
    assert fs[..k] + fs[k..] == fs;
    LastAppend(fs[..k], fs[k..], 7);
  }

  lemma NoSender(p: Packet)
    ensures LastOf(FieldsOf(p), 7).None?
  {
    CodesAbsent(FieldsOf(p), 7);
  }

  lemma {:induction false} CodesAbsent(fs: seq<Field>, code: byte)
    requires forall k :: 0 <= k < |fs| ==> fs[k].code != code
    ensures LastOf(fs, code).None?
    decreases |fs|
  {
    if fs != [] {
      CodesAbsent(fs[..|fs| - 1], code);
    }
  }

  lemma StampedGood(p: Packet, name: seq<byte>, k: nat)
    requires Sendable(p) && IsStr(name) && k <= |FieldsOf(p)|
    ensures GoodFields(Stamped(FieldsOf(p), name, k))
  {
    hide ValidUtf8, FieldsOf, Sendable;
    FieldsGood(p);
  }

  function FlagsOf(p: Packet): byte {
    if p.MethodCall? then 0 else 1
  }

  /**
   * What the bus delivers: a message of any of the four kinds with its sender added anywhere in the
   * header is taken as the message that was sent, with that sender.
   */
  lemma StampedRoundTrip(p: Packet, name: seq<byte>, k: nat, rest: seq<byte>)
    requires Sendable(p) && IsStr(name) && k <= |FieldsOf(p)|
    requires |EncodeAll(FieldTrees(Stamped(FieldsOf(p), name, k)), 16)| <= MAX_FIELDS
    ensures TakeMessage(Wire(TypeByte(p), FlagsOf(p), p.serial, Stamped(FieldsOf(p), name, k), p.body) + rest)
         == Taken(Expected(p).(sender := Some(name)), rest)
  {
    hide TakeMessage, Wire, Expected, FieldsOf, EncodeAll, FieldTrees, GoodFields, LastOf, ApplyAll;
    var fs := FieldsOf(p);
    var gs := Stamped(fs, name, k);
    StampedGood(p, name, k);
    assert |p.body| <= MAX_BODY;
    hide Stamped, Sendable;
    AnyHeader(TypeByte(p), FlagsOf(p), p.serial, gs, p.body, rest);
    FieldsGood(p);
    FieldsRebuild(p);
    AppliedIsTold(TypeByte(p), p.serial, fs, p.body);
    NoSender(p);
    forall c: byte ensures LastOf(gs, c) == if c == 7 then Some(TextNode('s' as int, name)) else LastOf(fs, c) {
      StampedLast(fs, name, k, c);
    }
  }

  // ---- what the bus reads ---------------------------------------------------------------------

  /** The first eight fields of the fixed part. */
  lemma FixedPart(p: Packet)
    ensures var w := WireOf(p);
      && |w| >= 16 && w[0] == 'l' as int && w[3] == 1
      && w[1] == (match p
                  case MethodCall(_, _, _, _, _, _, _) => 1
                  case Reply(_, _, _, _, _) => 2
                  case Error(_, _, _, _, _) => 3
                  case Signal(_, _, _, _, _, _) => 4)
      && w[2] == (if p.MethodCall? then 0 else 1)
      && U32Of(w[4..8]) == |p.body| % TWO_32 && U32Of(w[8..12]) == p.serial
      && |w| >= |p.body| && w[|w| - |p.body|..] == p.body && (|w| - |p.body|) % 8 == 0
  {
    hide EncodeAll, FieldTrees, FieldsOf, Wire, U32Of, U32Bytes;
    var fs := FieldsOf(p);
    var fb := EncodeAll(FieldTrees(fs), 16);
    WireShape(TypeByte(p), FlagsOf(p), p.serial, fs, p.body);
    WirePieces(WireOf(p), [], TypeByte(p), FlagsOf(p), U32Bytes(|p.body|), U32Bytes(p.serial), U32Bytes(|fb|), fb,
               HeaderPad(|fb|), p.body);
    assert WireOf(p) + [] == WireOf(p);
    U32RoundTrip(|p.body|);
    U32RoundTrip(p.serial);
    HeaderPadIsPad(|fb|);
    PadAligns(16 + |fb|, 8);
  }

  /** The field with this code in a decoded header array, an array of structs of byte and variant. */
  function FieldIn(items: seq<Value>, code: byte): Option<Value> {
    if items == [] then None
    else
      var n := |items| - 1;
      match items[n]
      case Struct(f) =>
        if |f| == 2 && f[0] == Byte(code) && f[1].Variant? then Some(f[1].inner) else FieldIn(items[..n], code)
      case _ => FieldIn(items[..n], code)
  }

  /** The header fields the "Message Format" section of the D-Bus Specification asks for. */
  function Required(p: Packet, code: byte): Option<Value>
    requires 1 <= code <= 8
  {
    match p
    case MethodCall(_, dest, path, iface, member, sig, _) =>
      if code == 1 then Some(ObjectPath(path))
      else if code == 2 then (if iface == [] then None else Some(Str(iface)))
      else if code == 3 then Some(Str(member))
      else if code == 6 then (if dest == [] then None else Some(Str(dest)))
      else if code == 8 then (if sig == [] then None else Some(Signature(sig)))
      else None
    case Reply(_, dest, replySerial, sig, _) =>
      if code == 5 then Some(U32(replySerial))
      else if code == 6 then (if dest.None? then None else Some(Str(dest.value)))
      else if code == 8 then (if sig == [] then None else Some(Signature(sig)))
      else None
    case Error(_, dest, replySerial, name, _) =>
      if code == 4 then Some(Str(name))
      else if code == 5 then Some(U32(replySerial))
      else if code == 6 then (if dest.None? then None else Some(Str(dest.value)))
      else if code == 8 then Some(Signature(['s' as int]))
      else None
    case Signal(_, path, iface, member, sig, _) =>
      if code == 1 then Some(ObjectPath(path))
      else if code == 2 then Some(Str(iface))
      else if code == 3 then Some(Str(member))
      else if code == 8 then (if sig == [] then None else Some(Signature(sig)))
      else None
  }

  lemma SeenTwo(x: Tree, y: Tree)
    ensures SeenAll([x, y]) == [Seen(x), Seen(y)]
  {
    hide Seen;
    assert [x, y][1..] == [y] && [y][1..] == [];
    assert SeenAll([y]) == [Seen(y)] + SeenAll([]);
  }

  lemma FieldSeen(f: Field)
    ensures Seen(FieldTree(f)) == Struct([Byte(f.code), Variant(Seen(f.value))])
  {
    hide SeenAll;
    SeenTwo(FixedNode('y' as int, Byte(f.code)), VariantNode(f.value));
  }

  lemma {:induction false} SeenSnoc(fs: seq<Field>, f: Field)
    ensures SeenAll(FieldTrees(fs + [f])) == SeenAll(FieldTrees(fs)) + [Seen(FieldTree(f))]
    decreases |fs|
  {
    hide Seen, FieldTree;
    if fs == [] {
      assert [] + [f] == [f] && [f][1..] == [];
      assert FieldTrees([f]) == [FieldTree(f)] + FieldTrees([]);
    } else {
      var gs := fs + [f];
      assert gs[1..] == fs[1..] + [f];
      assert FieldTrees(gs)[1..] == FieldTrees(gs[1..]) && FieldTrees(fs)[1..] == FieldTrees(fs[1..]);
      SeenSnoc(fs[1..], f);
    }
  }

  lemma {:induction false} FieldInSeen(fs: seq<Field>, code: byte)
    ensures var t := LastOf(fs, code);
      FieldIn(SeenAll(FieldTrees(fs)), code) == if t.Some? then Some(Seen(t.value)) else None
    decreases |fs|
  {
    hide Seen, SeenAll, FieldTrees, FieldTree;
    if fs == [] {
      NothingSeen();
    } else {
      var front, f := fs[..|fs| - 1], fs[|fs| - 1];
      assert fs == front + [f];
      FieldInSeen(front, code);
      SeenSnoc(front, f);
      FieldSeen(f);
      var items := SeenAll(FieldTrees(front));
      assert (items + [Seen(FieldTree(f))])[..|items|] == items;
    }
  }

  lemma NothingSeen()
    ensures SeenAll(FieldTrees([])) == []
  {
  }

  lemma OneField(f: Field, code: byte, present: bool)
    ensures LastOf(Opt(present, f), code) == if present && f.code == code then Some(f.value) else None
  {
    assert [f][..0] == [];
    assert LastOf([f], code) == (if f.code == code then Some(f.value) else LastOf([f][..0], code));
  }

  /** The fields of a list made of optional pieces, looked up from the last piece backwards. */
  lemma LastOfOpt(fs: seq<Field>, f: Field, code: byte, present: bool)
    ensures LastOf(fs + Opt(present, f), code) == if present && f.code == code then Some(f.value) else LastOf(fs, code)
  {
    LastAppend(fs, Opt(present, f), code);
    OneField(f, code, present);
  }

  lemma RequiredIsLast(p: Packet, code: byte)
    requires 1 <= code <= 8
    ensures var t := LastOf(FieldsOf(p), code);
      Required(p, code) == if t.Some? then Some(Seen(t.value)) else None
  {
    hide LastOf;
    match p
    case MethodCall(_, dest, path, iface, member, sig, _) =>
      var a := [PathField(path)] + Opt(iface != [], StrField(2, iface));
      OneField(PathField(path), code, true);
      LastOfOpt([PathField(path)], StrField(2, iface), code, iface != []);
      LastOfOpt(a, StrField(3, member), code, true);
      LastOfOpt(a + [StrField(3, member)], StrField(6, dest), code, dest != []);
      LastOfOpt(a + [StrField(3, member)] + Opt(dest != [], StrField(6, dest)), SigField(sig), code, sig != []);
    case Reply(_, dest, n, sig, _) =>
      var d := StrField(6, if dest.Some? then dest.value else []);
      OneField(U32Field(5, n), code, true);
      LastOfOpt([U32Field(5, n)], d, code, dest.Some?);
      LastOfOpt([U32Field(5, n)] + Opt(dest.Some?, d), SigField(sig), code, sig != []);
    case Error(_, dest, n, name, _) =>
      var d := StrField(6, if dest.Some? then dest.value else []);
      var a := [StrField(4, name), U32Field(5, n)];
      OneField(StrField(4, name), code, true);
      LastOfOpt([StrField(4, name)], U32Field(5, n), code, true);
      assert a == [StrField(4, name)] + [U32Field(5, n)];
      LastOfOpt(a, d, code, dest.Some?);
      LastOfOpt(a + Opt(dest.Some?, d), SigField(['s' as int]), code, true);
    case Signal(_, path, iface, member, sig, _) =>
      var a := [PathField(path), StrField(2, iface), StrField(3, member)];
      OneField(PathField(path), code, true);
      LastOfOpt([PathField(path)], StrField(2, iface), code, true);
      LastOfOpt([PathField(path)] + [StrField(2, iface)], StrField(3, member), code, true);
      assert a == [PathField(path)] + [StrField(2, iface)] + [StrField(3, member)];
      LastOfOpt(a, SigField(sig), code, sig != []);
  }

  /** The header fields take at most seven more bytes elsewhere, for the padding of the first. */
  lemma FieldsElsewhere(fs: seq<Field>, off: nat)
    ensures |EncodeAll(FieldTrees(fs), off)| <= |EncodeAll(FieldTrees(fs), 16)| + 7
  {
    if fs != [] {
      hide EncodeAll, Encode, FieldTree;
      var ts, p := FieldTrees(fs), Pad(off, 8);
      StructFirst(FieldTrees(fs), off);
      PadAligns(off, 8);
      var d := (off + p) / 8;
      EncodeAllShift(ts, 0, off + p, d);
      EncodeAllShift(ts, 0, 16, 2);
      IsStruct(fs[0]);
    }
  }

  lemma IsStruct(f: Field)
    ensures FieldTree(f).StructNode?
  {
  }

  lemma StructAt(fs: seq<Tree>, off: nat)
    ensures Encode(StructNode(fs), off) == Zeros(Pad(off, 8)) + Encode(StructNode(fs), off + Pad(off, 8))
  {
    hide EncodeAll, Pad;
    var p := off + Pad(off, 8);
    PadAligns(off, 8);
    PadStep(p, 8);
    assert Zeros(0) + EncodeAll(fs, p) == EncodeAll(fs, p);
  }

  lemma StructFirst(ts: seq<Tree>, off: nat)
    requires ts != [] && ts[0].StructNode?
    ensures EncodeAll(ts, off) == Zeros(Pad(off, 8)) + EncodeAll(ts, off + Pad(off, 8))
  {
    hide Encode, Pad;
    StructAt(ts[0].fields, off);
    var p := off + Pad(off, 8);
    assert EncodeAll(ts, off) == Encode(ts[0], off) + EncodeAll(ts[1..], off + |Encode(ts[0], off)|);
  }

  lemma FieldsTyped(fs: seq<Field>)
    requires GoodFields(fs)
    ensures AllWellTyped(FieldTrees(fs)) && forall k :: 0 <= k < |fs| ==> TypeOf(FieldTrees(fs)[k]) == FIELD_TY
  {
    hide FieldTree, TypeOf, WellTyped, Sig;
    forall k | 0 <= k < |fs| ensures WellTyped(FieldTrees(fs)[k]) && TypeOf(FieldTrees(fs)[k]) == FIELD_TY {
      TreeOfField(fs, k);
      FieldTyped(fs[k]);
    }
  }

  lemma {:induction false} TreeOfField(fs: seq<Field>, k: nat)
    requires k < |fs|
    ensures FieldTrees(fs)[k] == FieldTree(fs[k])
  {
    if k > 0 {
      TreeOfField(fs[1..], k - 1);
    }
  }

  lemma FieldTyped(f: Field)
    requires WellTyped(f.value) && |Sig(TypeOf(f.value))| < 256
    ensures WellTyped(FieldTree(f)) && TypeOf(FieldTree(f)) == FIELD_TY
  {
    hide Sig;
    var x, y := FixedNode('y' as int, Byte(f.code)), VariantNode(f.value);
    assert [x, y][1..] == [y] && [y][1..] == [];
    assert TypesOf([y]) == [TypeOf(y)] + TypesOf([]);
    assert TypesOf([x, y]) == [TypeOf(x)] + TypesOf([y]);
    assert TypeOf(StructNode([x, y])) == StructTy([TypeOf(x), TypeOf(y)]);
    assert AllWellTyped([x, y]);
  }

  lemma HeaderTyped(fs: seq<Field>)
    requires GoodFields(fs) && |EncodeAll(FieldTrees(fs), 16)| <= MAX_FIELDS
    ensures WellTyped(ArrayNode(FIELD_TY, FieldTrees(fs)))
  {
    hide EncodeAll, FieldTrees, AllWellTyped, GoodFields;
    FieldsTyped(fs);
    assert WellFormed(FIELD_TY);
    forall off: nat ensures |EncodeAll(FieldTrees(fs), off)| < TWO_32 {
      FieldsElsewhere(fs, off);
    }
  }

  /** The signature of a header array. */
  const FIELDS_SIG: seq<byte> := ['a' as int, '(' as int, 'y' as int, 'v' as int, ')' as int]

  lemma FieldsSig()
    ensures Sig(ArrayTy(FIELD_TY)) == FIELDS_SIG
  {
    var x, y := FixedTy('y' as int), VariantTy;
    assert [x, y][1..] == [y] && [y][1..] == [];
    assert SigAll([y]) == Sig(y) + SigAll([]);
    assert SigAll([x, y]) == Sig(x) + SigAll([y]);
  }

  lemma HeaderAt(p: Packet, rest: seq<byte>)
    ensures At(WireOf(p) + rest, 12, Encode(ArrayNode(FIELD_TY, FieldTrees(FieldsOf(p))), 12))
  {
    hide Encode, FieldTrees, FieldsOf, U32Bytes;
    var a := Encode(ArrayNode(FIELD_TY, FieldTrees(FieldsOf(p))), 12);
    var h := ['l' as int, TypeByte(p), FlagsOf(p), 1] + U32Bytes(|p.body|) + U32Bytes(p.serial);
    var tail := Zeros(Pad(|h + a|, 8)) + p.body + rest;
    assert WireOf(p) + rest == h + (a + tail);
    assert (h + (a + tail))[12..12 + |a|] == a;
  }

  /**
   * The header of every message decodes, from the bytes that were sent, as the array of fields the
   * specification asks for: the destination the bus routes by is among them exactly if there is one.
   */
  lemma HeaderFields(p: Packet, rest: seq<byte>, code: byte)
    requires Sendable(p) && 1 <= code <= 8
    ensures var d := Decode(WireOf(p) + rest, 12, FIELDS_SIG, 0);
      d.Decoded? && d.value.Array? && FieldIn(d.value.items, code) == Required(p, code)
  {
    hide Decode, Encode, FieldTrees, FieldsOf, WellTyped, Seen, FieldIn, LastOf, Required, WireOf, EncodeAll;
    var fs, b := FieldsOf(p), WireOf(p) + rest;
    FieldsGood(p);
    FewFields(p);
    HeaderTyped(fs);
    HeaderAt(p, rest);
    FieldsSig();
    assert At(FIELDS_SIG, 0, FIELDS_SIG);
    var t := ArrayNode(FIELD_TY, FieldTrees(fs));
    RoundTrip(t, b, 12, FIELDS_SIG, 0);
    AllSeen(fs);
    FieldInSeen(fs, code);
    RequiredIsLast(p, code);
  }

  lemma FewFields(p: Packet)
    ensures |FieldsOf(p)| <= 5
  {
  }

  lemma AllSeen(fs: seq<Field>)
    requires |fs| <= 5
    ensures Seen(ArrayNode(FIELD_TY, FieldTrees(fs))) == Array(SeenAll(FieldTrees(fs)))
  {
    hide SeenAll, FieldTrees;
  }

  // ---- on the wire ------------------------------------------------------------------------------

  /** The shortest message there is, byte by byte: a reply with no destination and no body. */
  lemma ReplyOnTheWire(serial: u32, replySerial: u32)
    ensures WireOf(Reply(serial, None, replySerial, [], []))
         == [0x6C, 2, 1, 1, 0, 0, 0, 0] + U32Bytes(serial) + [8, 0, 0, 0] + [5, 1, 0x75, 0] + U32Bytes(replySerial)
  {
    hide Encode, EncodeAll, LE, FieldTrees;
    var f := U32Field(5, replySerial);
    assert FieldsOf(Reply(serial, None, replySerial, [], [])) == [f];
    FirstField(f);
    SerialField(replySerial);
    SmallWords();
    WireShape(2, 1, serial, [f], []);
    assert EncodeAll(FieldTrees([f]), 16) == [5, 1, 0x75, 0] + U32Bytes(replySerial);
    assert Zeros(0) == [];
  }

  lemma SmallWords()
    ensures U32Bytes(0) == [0, 0, 0, 0] && U32Bytes(8) == [8, 0, 0, 0]
  {
    ZeroWord(0);
    assert LE(8, 4) == [8] + LE(0, 3) && LE(0, 4) == [0] + LE(0, 3);
    assert LE(0, 3) == [0] + LE(0, 2) && LE(0, 2) == [0] + LE(0, 1) && LE(0, 1) == [0] + LE(0, 0);
  }

  lemma ZeroWord(v: nat)
    requires v < TWO_32
    ensures v % TWO_32 == v
  {
  }

  lemma SerialField(n: u32)
    ensures Encode(FieldTree(U32Field(5, n)), 16) == [5, 1, 0x75, 0] + U32Bytes(n)
  {
    hide EncodeAll, LE;
    var f := U32Field(5, n);
    FieldBytes(f, 16);
    assert Pad(16, 8) == 0 && Zeros(0) == [];
    assert Sig(TypeOf(f.value)) == [0x75];
    assert SigBytes([0x75]) == [1, 0x75, 0];
    ZeroWord(n);
    assert Encode(f.value, 20) == Zeros(Pad(20, 4)) + LE(n, 4);
    assert Pad(20, 4) == 0;
  }

  /** A complete fixed part is refused at once exactly if it is big-endian or declares more than 64 MiB or 1 MiB. */
  lemma RefusedIff(buf: seq<byte>)
    requires |buf| >= 16
    ensures TakeMessage(buf) == Invalid <==>
              buf[0] != 0x6C || U32Of(buf[4..8]) > 67_108_864 || U32Of(buf[12..16]) > 1_048_576
  {
    hide DecodeMessage, U32Of;
  }

  /** What is read in one piece is a backlog exactly beyond 8 MiB. */
  lemma BacklogAt(chunk: seq<byte>)
    ensures Call([], [chunk]) == Backlog <==> |chunk| > 8_388_608
  {
    hide Drain;
    assert [] + chunk == chunk && [chunk][1..] == [];
    assert Fill(chunk, []) == Some(chunk);
  }
}
