/** Typed value trees, the bytes they marshal to, and the marshaller that appends those bytes. */
module DBusEncode {
  import opened Bytes
  import opened DBusTypes
  import opened DBusDecode

  /**
   * A value together with the types its signature needs: a decoded empty array, or a decoded
   * variant, no longer tells its element type, but a sender has to know it.
   */
  datatype Tree =
    | FixedNode(code: byte, v: Value)
    | TextNode(code: byte, s: seq<byte>)
    | SigNode(s: seq<byte>)
    | VariantNode(inner: Tree)
    | ArrayNode(elem: Ty, items: seq<Tree>)
    | StructNode(fields: seq<Tree>)
    | DictNode(key: Tree, val: Tree)

  function TypeOf(t: Tree): Ty {
    match t
    case FixedNode(c, _) => FixedTy(c)
    case TextNode(c, _) => TextTy(c)
    case SigNode(_) => SigTy
    case VariantNode(_) => VariantTy
    case ArrayNode(e, _) => ArrayTy(e)
    case StructNode(fs) => StructTy(TypesOf(fs))
    case DictNode(k, v) => DictTy(TypeOf(k), TypeOf(v))
  }

  function TypesOf(ts: seq<Tree>): (tys: seq<Ty>)
    ensures |tys| == |ts|
  {
    if ts == [] then [] else [TypeOf(ts[0])] + TypesOf(ts[1..])
  }

  /** The value is one of the type `code`. */
  predicate FixedFits(code: byte, v: Value) {
    if code == 'y' as int then v.Byte?
    else if code == 'b' as int then v.Bool?
    else if code == 'n' as int then v.I16?
    else if code == 'q' as int then v.U16?
    else if code == 'i' as int then v.I32?
    else if code == 'u' as int || code == 'h' as int then v.U32?
    else if code == 'x' as int then v.I64?
    else if code == 't' as int then v.U64?
    else code == 'd' as int && v.F64?
  }

  function Unsigned(n: int, modulus: nat): (raw: nat)
    requires 0 <= n + modulus < 2 * modulus
    ensures raw < modulus
  {
    if n < 0 then n + modulus else n
  }

  /** The unsigned pattern of a fixed-size value: two's complement for the signed ones. */
  function RawOf(v: Value): nat {
    match v
    case Byte(n) => n
    case Bool(f) => if f then 1 else 0
    case I16(n) => Unsigned(n, 0x1_0000)
    case U16(n) => n
    case I32(n) => Unsigned(n, 0x1_0000_0000)
    case U32(n) => n
    case I64(n) => Unsigned(n, 0x1_0000_0000_0000_0000)
    case U64(n) => n
    case F64(n) => n
    case _ => 0
  }

  lemma FixedRoundTrip(code: byte, v: Value)
    requires FixedFits(code, v)
    ensures FixedSize(code) != 0 && RawOf(v) < Pow256(FixedSize(code))
    ensures FixedValue(code, RawOf(v)) == v
  {
    Pow256Values();
  }

  // ---- the bytes -----------------------------------------------------------------

  function SigBytes(s: seq<byte>): seq<byte> {
    [|s| % 256] + s + [0]
  }

  function StringBytes(s: seq<byte>, off: nat): seq<byte> {
    Zeros(Pad(off, 4)) + U32Bytes(|s|) + s + [0]
  }

  /** Length word and alignment padding that precede the elements of an array. */
  function ArrayHead(len: nat, align: nat, off: nat): (s: seq<byte>)
    requires AlignSize(align)
    ensures |s| == Pad(off, 4) + 4 + Pad(off + Pad(off, 4) + 4, align)
  {
    Zeros(Pad(off, 4)) + U32Bytes(len) + Zeros(Pad(off + Pad(off, 4) + 4, align))
  }

  /** First offset of the elements of an array that is written at `off`. */
  function ArrayStart(align: nat, off: nat): nat
    requires AlignSize(align)
  {
    var p := off + Pad(off, 4) + 4;
    p + Pad(p, align)
  }

  /** The bytes of `t` when marshalling starts at offset `off` of its message. */
  function Encode(t: Tree, off: nat): (s: seq<byte>)
    decreases t, 1
  {
    match t
    case FixedNode(c, v) =>
      var n := if FixedSize(c) == 0 then 1 else FixedSize(c);
      Zeros(Pad(off, n)) + LE(RawOf(v), n)
    case TextNode(_, s) => StringBytes(s, off)
    case SigNode(s) => SigBytes(s)
    case VariantNode(inner) =>
      var s := SigBytes(Sig(TypeOf(inner)));
      s + Encode(inner, off + |s|)
    case ArrayNode(e, items) =>
      var body := EncodeAll(items, ArrayStart(Alignment(e), off));
      ArrayHead(|body|, Alignment(e), off) + body
    case StructNode(fs) => Zeros(Pad(off, 8)) + EncodeAll(fs, off + Pad(off, 8))
    case DictNode(k, v) => Zeros(Pad(off, 8)) + EncodePair(k, v, off + Pad(off, 8))
  }

  function EncodePair(k: Tree, v: Tree, off: nat): (s: seq<byte>)
    decreases DictNode(k, v), 0
  {
    var kb := Encode(k, off);
    kb + Encode(v, off + |kb|)
  }

  function EncodeAll(ts: seq<Tree>, off: nat): (s: seq<byte>)
    decreases ts, 0
  {
    if ts == [] then []
    else
      var h := Encode(ts[0], off);
      h + EncodeAll(ts[1..], off + |h|)
  }

  /**
   * What the sender owes the wire format: values of their types, UTF-8 text, lengths that fit
   * their length fields, non-empty structs, and array elements of the declared element type.
   */
  ghost predicate WellTyped(t: Tree)
    decreases t, 1
  {
    match t
    case FixedNode(c, v) => FixedFits(c, v)
    case TextNode(c, s) => TextCode(c) && ValidUtf8(s) && |s| < TWO_32
    case SigNode(s) => ValidUtf8(s) && |s| < 256
    case VariantNode(inner) => WellTyped(inner) && |Sig(TypeOf(inner))| < 256
    case ArrayNode(e, items) =>
      && WellFormed(e) && AllWellTyped(items)
      && (forall k :: 0 <= k < |items| ==> TypeOf(items[k]) == e)
      && (forall off: nat :: |EncodeAll(items, off)| < TWO_32)
    case StructNode(fs) => fs != [] && AllWellTyped(fs)
    case DictNode(k, v) => WellTyped(k) && WellTyped(v)
  }

  ghost predicate AllWellTyped(ts: seq<Tree>)
    decreases ts, 0
  {
    forall k :: 0 <= k < |ts| ==> WellTyped(ts[k])
  }

  /** A well-typed tree has a well-formed type. */
  lemma {:induction false} WellTypedType(t: Tree)
    requires WellTyped(t)
    ensures WellFormed(TypeOf(t))
    decreases t, 1
  {
    match t
    case FixedNode(c, v) => FixedRoundTrip(c, v);
    case StructNode(fs) => WellTypedTypes(fs);
    case DictNode(k, v) =>
      WellTypedType(k);
      WellTypedType(v);
    case _ =>
  }

  lemma {:induction false} WellTypedTypes(ts: seq<Tree>)
    requires AllWellTyped(ts)
    ensures forall k :: 0 <= k < |ts| ==> WellFormed(TypesOf(ts)[k])
    decreases ts, 0
  {
    if ts != [] {
      WellTypedType(ts[0]);
      WellTypedTypes(ts[1..]);
    }
  }

  // ---- facts about the bytes --------------------------------------------------------

  /** Everything the decoder loops over takes at least one byte. */
  lemma {:induction false} EncodeNonEmpty(t: Tree, off: nat)
    requires WellTyped(t)
    ensures |Encode(t, off)| > 0
    decreases t
  {
    match t
    case StructNode(fs) => EncodeNonEmpty(fs[0], off + Pad(off, 8));
    case DictNode(k, v) => EncodeNonEmpty(k, off + Pad(off, 8));
    case _ =>
  }

  lemma LeafShift(t: Tree, p: nat, q: nat, d: nat)
    requires q == p + 8 * d && (t.FixedNode? || t.TextNode? || t.SigNode?)
    ensures Encode(t, p) == Encode(t, q)
  {
    PadShift(p, q, d);
  }

  /** Moving the offset by a multiple of 8 does not change the encoding. */
  lemma {:induction false} EncodeShift(t: Tree, p: nat, q: nat, d: nat)
    requires q == p + 8 * d
    ensures Encode(t, p) == Encode(t, q)
    decreases t, 1
  {
    hide Pad, EncodeAll, EncodePair, SigBytes, ArrayHead;
    match t
    case VariantNode(inner) =>
      var n := |SigBytes(Sig(TypeOf(inner)))|;
      EncodeShift(inner, p + n, q + n, d);
    case ArrayNode(e, items) =>
      EncodeArrayShift(e, items, p, q, d);
    case StructNode(fs) =>
      var s := SameStructPad(p, q, d);
      EncodeAllShift(fs, p + s, q + s, d);
    case DictNode(k, v) =>
      var s := SameStructPad(p, q, d);
      EncodePairShift(k, v, p + s, q + s, d);
    case _ =>
      LeafShift(t, p, q, d);
  }

  lemma SameStructPad(p: nat, q: nat, d: nat) returns (s: nat)
    requires q == p + 8 * d
    ensures s == Pad(p, 8) == Pad(q, 8)
  {
    PadShift(p, q, d);
    s := Pad(p, 8);
  }

  lemma {:induction false} EncodeArrayShift(e: Ty, items: seq<Tree>, p: nat, q: nat, d: nat)
    requires q == p + 8 * d
    ensures Encode(ArrayNode(e, items), p) == Encode(ArrayNode(e, items), q)
    decreases ArrayNode(e, items), 0
  {
    hide EncodeAll;
    PadShift(p, q, d);
    PadShift(p + Pad(p, 4) + 4, q + Pad(q, 4) + 4, d);
    EncodeAllShift(items, ArrayStart(Alignment(e), p), ArrayStart(Alignment(e), q), d);
  }

  lemma {:induction false} EncodePairShift(k: Tree, v: Tree, p: nat, q: nat, d: nat)
    requires q == p + 8 * d
    ensures EncodePair(k, v, p) == EncodePair(k, v, q)
    decreases DictNode(k, v), 0
  {
    hide Encode;
    EncodeShift(k, p, q, d);
    var n := |Encode(k, p)|;
    EncodeShift(v, p + n, q + n, d);
  }

  lemma {:induction false} EncodeAllShift(ts: seq<Tree>, p: nat, q: nat, d: nat)
    requires q == p + 8 * d
    ensures EncodeAll(ts, p) == EncodeAll(ts, q)
    decreases ts, 0
  {
    hide Encode;
    if ts != [] {
      var n := |Encode(ts[0], p)|;
      EncodeShift(ts[0], p, q, d);
      EncodeAllShift(ts[1..], p + n, q + n, d);
    }
  }

  /** The encoding depends on its offset only modulo 8. */
  lemma EncodeMod8(t: Tree, p: nat, q: nat)
    requires p % 8 == q % 8
    ensures Encode(t, p) == Encode(t, q)
  {
    if p <= q {
      EncodeShift(t, p, q, q / 8 - p / 8);
    } else {
      EncodeShift(t, q, p, p / 8 - q / 8);
    }
  }

  // ---- the marshaller ---------------------------------------------------------------

  class Marshal {
    var buf: seq<byte>

    constructor ()
      ensures buf == []
    {
      buf := [];
    }

    method Align(n: nat)
      requires AlignSize(n)
      modifies this
      ensures buf == old(buf) + Zeros(Pad(|old(buf)|, n))
      ensures |buf| % n == 0
    {
      while |buf| % n != 0
        invariant |buf| >= |old(buf)| && |buf| + Pad(|buf|, n) == |old(buf)| + Pad(|old(buf)|, n)
        invariant buf == old(buf) + Zeros(|buf| - |old(buf)|)
        decreases Pad(|buf|, n)
      {
        PadStep(|buf|, n);
        buf := buf + [0];
      }
      PadStep(|buf|, n);
      PadAligns(|old(buf)|, n);
    }

    method PutU8(v: byte)
      modifies this
      ensures buf == old(buf) + [v]
    {
      buf := buf + [v];
    }

    method PutU32(v: nat)
      modifies this
      ensures buf == old(buf) + Zeros(Pad(|old(buf)|, 4)) + U32Bytes(v)
    {
      Align(4);
      buf := buf + U32Bytes(v);
    }

    method PutString(s: seq<byte>)
      modifies this
      ensures buf == old(buf) + StringBytes(s, |old(buf)|)
    {
      PutU32(|s|);
      buf := buf + s;
      buf := buf + [0];
      assert buf == old(buf) + StringBytes(s, |old(buf)|);
    }

    method PutSignature(s: seq<byte>)
      modifies this
      ensures buf == old(buf) + SigBytes(s)
    {
      buf := buf + [|s| % 256];
      buf := buf + s;
      buf := buf + [0];
      assert buf == old(buf) + SigBytes(s);
    }

    /** First half of `array`: a zero length word, then padding up to the element alignment. */
    method BeginArray(align: nat) returns (lenPos: nat, start: nat)
      requires AlignSize(align)
      modifies this
      ensures buf == old(buf) + ArrayHead(0, align, |old(buf)|)
      ensures lenPos == |old(buf)| + Pad(|old(buf)|, 4) && start == |buf| == ArrayStart(align, |old(buf)|)
    {
      hide Pad;
      Align(4);
      lenPos := |buf|;
      buf := buf + U32Bytes(0);
      Align(align);
      start := |buf|;
      assert buf == old(buf) + ArrayHead(0, align, |old(buf)|);
    }

    /** Second half of `array`: patch the byte length back into the word left by `BeginArray`. */
    method EndArray(lenPos: nat, start: nat)
      requires lenPos + 4 <= start <= |buf|
      modifies this
      ensures buf == old(buf)[..lenPos] + U32Bytes(|old(buf)| - start) + old(buf)[lenPos + 4..]
    {
      var len := |buf| - start;
      buf := buf[..lenPos] + U32Bytes(len) + buf[lenPos + 4..];
    }

    /** Marshal a tree with the primitives above; arrays are back-patched. */
    method Put(t: Tree)
      modifies this
      ensures buf == old(buf) + Encode(t, |old(buf)|)
      decreases t, 1
    {
      hide Pad, Sig, EncodeAll, EncodePair, SigBytes, StringBytes, ArrayHead;
      match t {
        case FixedNode(c, v) =>
          PutFixed(c, v);
        case TextNode(_, s) =>
          PutString(s);
        case SigNode(s) =>
          PutSignature(s);
        case VariantNode(inner) =>
          ghost var s := SigBytes(Sig(TypeOf(inner)));
          PutSignature(Sig(TypeOf(inner)));
          Put(inner);
          Assoc(old(buf), s, Encode(inner, |old(buf)| + |s|));
        case ArrayNode(e, items) =>
          PutArray(e, items);
        case StructNode(fs) =>
          ghost var off := |buf|;
          Align(8);
          PutAll(fs);
          Assoc(old(buf), Zeros(Pad(off, 8)), EncodeAll(fs, off + Pad(off, 8)));
        case DictNode(k, v) =>
          ghost var off := |buf|;
          Align(8);
          PutPair(k, v);
          Assoc(old(buf), Zeros(Pad(off, 8)), EncodePair(k, v, off + Pad(off, 8)));
      }
    }

    method PutFixed(c: byte, v: Value)
      modifies this
      ensures buf == old(buf) + Encode(FixedNode(c, v), |old(buf)|)
    {
      ghost var off := |buf|;
      var n := if FixedSize(c) == 0 then 1 else FixedSize(c);
      Align(n);
      buf := buf + LE(RawOf(v), n);
      Assoc(old(buf), Zeros(Pad(off, n)), LE(RawOf(v), n));
    }

    method PutPair(k: Tree, v: Tree)
      modifies this
      ensures buf == old(buf) + EncodePair(k, v, |old(buf)|)
      decreases DictNode(k, v), 0
    {
      hide Encode;
      Put(k);
      Put(v);
    }

    method PutArray(e: Ty, items: seq<Tree>)
      modifies this
      ensures buf == old(buf) + Encode(ArrayNode(e, items), |old(buf)|)
      decreases ArrayNode(e, items), 0
    {
      hide Pad, EncodeAll;
      ghost var off, align := |buf|, Alignment(e);
      var lenPos, start := BeginArray(Alignment(e));
      PutAll(items);
      ghost var body := EncodeAll(items, start);
      EndArray(lenPos, start);
      BackPatched(old(buf), off, align, body);
    }

    method PutAll(ts: seq<Tree>)
      modifies this
      ensures buf == old(buf) + EncodeAll(ts, |old(buf)|)
      decreases ts, 0
    {
      hide Encode;
      if ts != [] {
        Put(ts[0]);
        PutAll(ts[1..]);
      }
    }
  }

  lemma Assoc(x: seq<byte>, y: seq<byte>, z: seq<byte>)
    ensures (x + y) + z == x + (y + z)
  {
  }

  lemma Splice(x: seq<byte>, z: seq<byte>, w: seq<byte>, w': seq<byte>, pad: seq<byte>, body: seq<byte>)
    requires |w| == |w'|
    ensures var full := x + (z + w + pad) + body;
      var at := |x| + |z|;
      full[..at] + w' + full[at + |w|..] == x + ((z + w' + pad) + body)
  {
    var full := x + (z + w + pad) + body;
    var at := |x| + |z|;
    assert full[..at] == x + z;
    assert full[at + |w|..] == pad + body;
  }

  /** Patching the length word afterwards gives the bytes of knowing the length in advance. */
  lemma BackPatched(before: seq<byte>, off: nat, align: nat, body: seq<byte>)
    requires |before| == off && AlignSize(align)
    ensures var lenPos := off + Pad(off, 4);
      var full := before + ArrayHead(0, align, off) + body;
      |full| >= lenPos + 4
      && full[..lenPos] + U32Bytes(|body|) + full[lenPos + 4..] == before + (ArrayHead(|body|, align, off) + body)
  {
    Splice(before, Zeros(Pad(off, 4)), U32Bytes(0), U32Bytes(|body|), Zeros(Pad(off + Pad(off, 4) + 4, align)), body);
  }
}
