/** The codec round trip: unmarshalling marshalled bytes gives the value back, and exactly when it does. */
module DBusRoundTrip {
  import opened Wrappers
  import opened Bytes
  import opened DBusTypes
  import opened DBusDecode
  import opened DBusEncode

  /** The value a sender means. */
  function Meant(t: Tree): Value {
    match t
    case FixedNode(_, v) => v
    case TextNode(c, s) => if c == 's' as int then Str(s) else ObjectPath(s)
    case SigNode(s) => Signature(s)
    case VariantNode(inner) => Variant(Meant(inner))
    case ArrayNode(_, items) => Array(MeantAll(items))
    case StructNode(fs) => Struct(MeantAll(fs))
    case DictNode(k, v) => DictEntry(Meant(k), Meant(v))
  }

  function MeantAll(ts: seq<Tree>): (vs: seq<Value>)
    ensures |vs| == |ts|
  {
    if ts == [] then [] else [Meant(ts[0])] + MeantAll(ts[1..])
  }

  /** What a receiver sees: the same, with every array cut at the decoder's element cap. */
  function Seen(t: Tree): Value {
    match t
    case FixedNode(_, v) => v
    case TextNode(c, s) => if c == 's' as int then Str(s) else ObjectPath(s)
    case SigNode(s) => Signature(s)
    case VariantNode(inner) => Variant(Seen(inner))
    case ArrayNode(_, items) => Array(SeenAll(items)[..Min(|items|, ITEM_CAP)])
    case StructNode(fs) => Struct(SeenAll(fs))
    case DictNode(k, v) => DictEntry(Seen(k), Seen(v))
  }

  function SeenAll(ts: seq<Tree>): (vs: seq<Value>)
    ensures |vs| == |ts|
  {
    if ts == [] then [] else [Seen(ts[0])] + SeenAll(ts[1..])
  }

  // ---- the readers invert the writers ---------------------------------------------

  lemma AlignAt(b: seq<byte>, pos: nat, n: nat, rest: seq<byte>)
    requires AlignSize(n) && At(b, pos, Zeros(Pad(pos, n)) + rest)
    ensures AlignPos(b, pos, n) == pos + Pad(pos, n) && At(b, pos + Pad(pos, n), rest)
  {
    AtSplit(b, pos, Zeros(Pad(pos, n)), rest);
  }

  lemma ReadFixedAt(b: seq<byte>, pos: nat, n: nat, raw: nat)
    requires AlignSize(n) && raw < Pow256(n) && At(b, pos, Zeros(Pad(pos, n)) + LE(raw, n))
    ensures ReadFixed(b, pos, n) == Got(raw, pos + Pad(pos, n) + n)
  {
    hide Pad;
    AlignAt(b, pos, n, LE(raw, n));
    LERoundTrip(raw, n);
  }

  lemma ReadU32At(b: seq<byte>, pos: nat, n: nat)
    requires n < TWO_32 && At(b, pos, Zeros(Pad(pos, 4)) + U32Bytes(n))
    ensures ReadFixed(b, pos, 4) == Got(n, pos + Pad(pos, 4) + 4)
  {
    hide Pad, ReadFixed, LE, FromLE, Pow256;
    Pow256Values();
    ReadFixedAt(b, pos, 4, n);
  }

  lemma ReadStringAt(b: seq<byte>, pos: nat, s: seq<byte>)
    requires ValidUtf8(s) && |s| < TWO_32 && At(b, pos, StringBytes(s, pos))
    ensures ReadString(b, pos) == Got(s, pos + |StringBytes(s, pos)|)
  {
    hide Pad, ReadFixed, ValidUtf8;
    AtSplit(b, pos, Zeros(Pad(pos, 4)) + U32Bytes(|s|) + s, [0]);
    AtSplit(b, pos, Zeros(Pad(pos, 4)) + U32Bytes(|s|), s);
    ReadU32At(b, pos, |s|);
  }

  lemma ReadSigAt(b: seq<byte>, pos: nat, s: seq<byte>)
    requires ValidUtf8(s) && |s| < 256 && At(b, pos, SigBytes(s))
    ensures ReadSig(b, pos) == Got(s, pos + |SigBytes(s)|)
  {
    hide ReadFixed, ValidUtf8, FromLE;
    AtSplit(b, pos, [|s| % 256] + s, [0]);
    AtSplit(b, pos, [|s| % 256], s);
    Pow256Values();
    assert LE(|s|, 1) == [|s| % 256] + LE(|s| / 256, 0);
    assert Zeros(Pad(pos, 1)) + LE(|s|, 1) == [|s| % 256];
    ReadFixedAt(b, pos, 1, |s|);
  }

  /** Signatures of well-formed types are ASCII, hence UTF-8. */
  lemma {:induction false} SigIsAscii(ty: Ty)
    requires WellFormed(ty)
    ensures forall j :: 0 <= j < |Sig(ty)| ==> Sig(ty)[j] < 0x80
    decreases ty, 1
  {
    match ty
    case ArrayTy(e) => SigIsAscii(e);
    case StructTy(fs) => SigAllIsAscii(fs);
    case DictTy(k, v) =>
      SigIsAscii(k);
      SigIsAscii(v);
    case _ =>
  }

  lemma {:induction false} SigAllIsAscii(tys: seq<Ty>)
    requires forall k :: 0 <= k < |tys| ==> WellFormed(tys[k])
    ensures forall j :: 0 <= j < |SigAll(tys)| ==> SigAll(tys)[j] < 0x80
    decreases tys, 0
  {
    if tys != [] {
      SigIsAscii(tys[0]);
      SigAllIsAscii(tys[1..]);
    }
  }

  // ---- where the parts of a node's bytes lie, and what one step of the decoder does ---------

  lemma VariantBytes(inner: Tree, b: seq<byte>, pos: nat)
    requires At(b, pos, Encode(VariantNode(inner), pos))
    ensures var s := SigBytes(Sig(TypeOf(inner)));
      && At(b, pos, s) && At(b, pos + |s|, Encode(inner, pos + |s|))
      && |Encode(VariantNode(inner), pos)| == |s| + |Encode(inner, pos + |s|)|
  {
    hide SigBytes, Sig, TypeOf;
    var s := SigBytes(Sig(TypeOf(inner)));
    AtSplit(b, pos, s, Encode(inner, pos + |s|));
  }

  lemma VariantStep(b: seq<byte>, pos: nat, sig: seq<byte>, i: nat, s: seq<byte>, p: nat, v: Value, q: nat, j: nat)
    requires pos <= |b| + 1 && i < |sig| && sig[i] == 'v' as int
    requires ReadSig(b, pos) == Got(s, p) && Decode(b, p, s, 0) == Decoded(v, q, j)
    ensures Decode(b, pos, sig, i) == Decoded(Variant(v), q, i + 1)
  {
    hide ReadSig;
  }

  lemma ArrayBytes(e: Ty, items: seq<Tree>, b: seq<byte>, pos: nat)
    requires At(b, pos, Encode(ArrayNode(e, items), pos))
    ensures var start := ArrayStart(Alignment(e), pos);
      var body := EncodeAll(items, start);
      && At(b, pos, ArrayHead(|body|, Alignment(e), pos)) && At(b, start, body)
      && pos + |Encode(ArrayNode(e, items), pos)| == start + |body|
  {
    hide Pad, EncodeAll, Alignment;
    var start := ArrayStart(Alignment(e), pos);
    var body := EncodeAll(items, start);
    AtSplit(b, pos, ArrayHead(|body|, Alignment(e), pos), body);
  }

  lemma ArrayHeadAt(b: seq<byte>, pos: nat, len: nat, align: nat)
    requires AlignSize(align) && len < TWO_32 && At(b, pos, ArrayHead(len, align, pos))
    ensures ReadFixed(b, pos, 4) == Got(len, pos + Pad(pos, 4) + 4)
    ensures AlignPos(b, pos + Pad(pos, 4) + 4, align) == ArrayStart(align, pos)
  {
    hide Pad, ReadFixed;
    var p := pos + Pad(pos, 4) + 4;
    AtSplit(b, pos, Zeros(Pad(pos, 4)) + U32Bytes(len), Zeros(Pad(p, align)));
    ReadU32At(b, pos, len);
  }

  lemma ArrayStep(b: seq<byte>, pos: nat, sig: seq<byte>, i: nat, p: nat, len: nat, start: nat, vs: seq<Value>)
    requires pos <= |b| + 1 && p <= |b| && start + len <= |b| && i < |sig| && sig[i] == 'a' as int
    requires ReadFixed(b, pos, 4) == Got(len, p) && AlignPos(b, p, ElemAlignment(sig, i + 1)) == start
    requires DecodeItems(b, start, start + len, sig, i + 1, 0) == Some(vs)
    ensures Decode(b, pos, sig, i) == Decoded(Array(vs), start + len, SkipType(sig, i + 1))
  {
    hide ReadFixed, AlignPos, ElemAlignment, SkipType, DecodeItems;
  }

  lemma StructBytes(fs: seq<Tree>, b: seq<byte>, pos: nat)
    requires At(b, pos, Encode(StructNode(fs), pos))
    ensures var p := pos + Pad(pos, 8);
      && AlignPos(b, pos, 8) == p && At(b, p, EncodeAll(fs, p))
      && pos + |Encode(StructNode(fs), pos)| == p + |EncodeAll(fs, p)|
  {
    hide EncodeAll, Pad, AlignPos;
    AlignAt(b, pos, 8, EncodeAll(fs, pos + Pad(pos, 8)));
  }

  lemma StructStep(b: seq<byte>, pos: nat, sig: seq<byte>, i: nat, p: nat, vs: seq<Value>, q: nat, j: nat)
    requires pos <= |b| + 1 && p <= |b| + 1 && i < |sig| && sig[i] == '(' as int && AlignPos(b, pos, 8) == p
    requires DecodeFields(b, p, sig, i + 1) == Some((vs, q, j))
    ensures Decode(b, pos, sig, i) == Decoded(Struct(vs), q, j + 1)
  {
    hide AlignPos, DecodeFields;
  }

  lemma DictEncoding(k: Tree, v: Tree, pos: nat)
    ensures var p := pos + Pad(pos, 8);
      Encode(DictNode(k, v), pos) == Zeros(Pad(pos, 8)) + (Encode(k, p) + Encode(v, p + |Encode(k, p)|))
  {
    hide Pad, Encode, Zeros;
    PairEncoding(k, v, pos + Pad(pos, 8));
    DictIsPair(k, v, pos);
  }

  lemma PairEncoding(k: Tree, v: Tree, off: nat)
    ensures EncodePair(k, v, off) == Encode(k, off) + Encode(v, off + |Encode(k, off)|)
  {
    hide Encode;
  }

  lemma DictIsPair(k: Tree, v: Tree, pos: nat)
    ensures Encode(DictNode(k, v), pos) == Zeros(Pad(pos, 8)) + EncodePair(k, v, pos + Pad(pos, 8))
  {
    hide Pad, TypeOf, SigBytes, StringBytes, LE, RawOf, ArrayHead, EncodeAll, EncodePair, Sig, FixedSize, Zeros;
  }

  lemma DictBytes(k: Tree, v: Tree, b: seq<byte>, pos: nat)
    requires At(b, pos, Encode(DictNode(k, v), pos))
    ensures var p := pos + Pad(pos, 8);
      var q := p + |Encode(k, p)|;
      && AlignPos(b, pos, 8) == p && At(b, p, Encode(k, p)) && At(b, q, Encode(v, q))
      && pos + |Encode(DictNode(k, v), pos)| == q + |Encode(v, q)|
  {
    hide Pad, AlignPos, Encode;
    var p := pos + Pad(pos, 8);
    var kb, vb := Encode(k, p), Encode(v, p + |Encode(k, p)|);
    DictEncoding(k, v, pos);
    AlignAt(b, pos, 8, kb + vb);
    AtSplit(b, p, kb, vb);
  }

  lemma DictStep(b: seq<byte>, pos: nat, sig: seq<byte>, i: nat,
                 p: nat, kv: Value, q: nat, j: nat, vv: Value, r: nat, n: nat)
    requires pos <= |b| + 1 && p <= |b| + 1 && q <= |b| + 1 && i < |sig| && sig[i] == '{' as int
    requires AlignPos(b, pos, 8) == p
    requires Decode(b, p, sig, i + 1) == Decoded(kv, q, j) && Decode(b, q, sig, j) == Decoded(vv, r, n)
    ensures Decode(b, pos, sig, i) == Decoded(DictEntry(kv, vv), r, n + 1)
  {
    hide AlignPos;
  }

  // ---- the round trip, one lemma per kind of container ---------------------------------

  ghost predicate Written(t: Tree, b: seq<byte>, pos: nat, sig: seq<byte>, i: nat) {
    WellTyped(t) && At(b, pos, Encode(t, pos)) && At(sig, i, Sig(TypeOf(t)))
  }

  ghost predicate ReadsBack(t: Tree, b: seq<byte>, pos: nat, sig: seq<byte>, i: nat) {
    pos <= |b| + 1 &&
    Decode(b, pos, sig, i) == Decoded(Seen(t), pos + |Encode(t, pos)|, i + |Sig(TypeOf(t))|)
  }

  /**
   * Decoding what was encoded gives the value the sender meant (arrays cut at the element cap),
   * consumes exactly its bytes and leaves the signature index just past its type.
   */
  lemma {:induction false} RoundTrip(t: Tree, b: seq<byte>, pos: nat, sig: seq<byte>, i: nat)
    requires Written(t, b, pos, sig, i)
    ensures ReadsBack(t, b, pos, sig, i)
    decreases t, 1
  {
    hide Written, ReadsBack;
    match t
    case VariantNode(inner) => RoundTripVariant(inner, b, pos, sig, i);
    case ArrayNode(e, items) => RoundTripArray(e, items, b, pos, sig, i);
    case StructNode(fs) => RoundTripStruct(fs, b, pos, sig, i);
    case DictNode(k, v) => RoundTripDict(k, v, b, pos, sig, i);
    case _ => RoundTripLeaf(t, b, pos, sig, i);
  }

  lemma RoundTripLeaf(t: Tree, b: seq<byte>, pos: nat, sig: seq<byte>, i: nat)
    requires Written(t, b, pos, sig, i) && (t.FixedNode? || t.TextNode? || t.SigNode?)
    ensures ReadsBack(t, b, pos, sig, i)
  {
    hide Pad, ReadFixed, ReadString, ReadSig, ValidUtf8, RawOf, FixedValue;
    WellTypedType(t);
    SingleByteSig(TypeOf(t), sig, i);
    match t
    case FixedNode(c, v) =>
      FixedRoundTrip(c, v);
      ReadFixedAt(b, pos, FixedSize(c), RawOf(v));
    case TextNode(_, s) => ReadStringAt(b, pos, s);
    case SigNode(s) => ReadSigAt(b, pos, s);
  }

  lemma {:induction false} RoundTripVariant(inner: Tree, b: seq<byte>, pos: nat, sig: seq<byte>, i: nat)
    requires Written(VariantNode(inner), b, pos, sig, i)
    ensures ReadsBack(VariantNode(inner), b, pos, sig, i)
    decreases VariantNode(inner), 0
  {
    hide Encode, Decode, SigBytes, ReadSig, ValidUtf8;
    var s := Sig(TypeOf(inner));
    var p := pos + |SigBytes(s)|;
    SingleByteSig(VariantTy, sig, i);
    WellTypedType(inner);
    SigIsAscii(TypeOf(inner));
    AsciiIsUtf8(s);
    VariantBytes(inner, b, pos);
    ReadSigAt(b, pos, s);
    assert At(s, 0, s);
    RoundTrip(inner, b, p, s, 0);
    VariantStep(b, pos, sig, i, s, p, Seen(inner), p + |Encode(inner, p)|, |s|);
  }

  lemma {:induction false} RoundTripArray(e: Ty, items: seq<Tree>, b: seq<byte>, pos: nat, sig: seq<byte>, i: nat)
    requires Written(ArrayNode(e, items), b, pos, sig, i)
    ensures ReadsBack(ArrayNode(e, items), b, pos, sig, i)
    decreases ArrayNode(e, items), 0
  {
    hide Encode, Decode, EncodeAll, Pad, ArrayHead, ReadFixed, AlignPos;
    hide ElemAlignment, SkipType, DecodeItems, Alignment, Sig;
    var start := ArrayStart(Alignment(e), pos);
    var body := EncodeAll(items, start);
    ArrayParts(e, sig, i);
    ElemAlignmentIsAlignment(e, sig, i + 1);
    SkipsExactlyOneType(e, sig, i + 1);
    ArrayBytes(e, items, b, pos);
    ArrayHeadAt(b, pos, |body|, Alignment(e));
    RoundTripItems(e, items, b, start, sig, i + 1, 0);
    ArrayStep(b, pos, sig, i, pos + Pad(pos, 4) + 4, |body|, start, SeenAll(items)[..Min(|items|, ITEM_CAP)]);
  }

  lemma {:induction false} RoundTripItems(e: Ty, items: seq<Tree>, b: seq<byte>, pos: nat,
                                          sig: seq<byte>, elem: nat, count: nat)
    requires AllWellTyped(items) && forall k :: 0 <= k < |items| ==> TypeOf(items[k]) == e
    requires At(b, pos, EncodeAll(items, pos)) && At(sig, elem, Sig(e)) && count < ITEM_CAP
    ensures DecodeItems(b, pos, pos + |EncodeAll(items, pos)|, sig, elem, count)
         == Some(SeenAll(items)[..Min(|items|, ITEM_CAP - count)])
    decreases items, 0
  {
    hide Encode, Decode, Seen, Sig, TypeOf;
    if items != [] {
      var h := Encode(items[0], pos);
      AtSplit(b, pos, h, EncodeAll(items[1..], pos + |h|));
      EncodeNonEmpty(items[0], pos);
      RoundTrip(items[0], b, pos, sig, elem);
      var vs, m := SeenAll(items), Min(|items|, ITEM_CAP - count);
      if count + 1 < ITEM_CAP {
        RoundTripItems(e, items[1..], b, pos + |h|, sig, elem, count + 1);
        assert vs[..m] == [vs[0]] + vs[1..][..m - 1];
      } else {
        assert vs[..m] == [vs[0]];
      }
    }
  }

  lemma {:induction false} RoundTripStruct(fs: seq<Tree>, b: seq<byte>, pos: nat, sig: seq<byte>, i: nat)
    requires Written(StructNode(fs), b, pos, sig, i)
    ensures ReadsBack(StructNode(fs), b, pos, sig, i)
    decreases StructNode(fs), 0
  {
    hide Encode, Decode, EncodeAll, Pad, AlignPos, DecodeFields, Sig, SigAll, SeenAll, TypesOf;
    var p := pos + Pad(pos, 8);
    StructParts(TypesOf(fs), sig, i);
    StructBytes(fs, b, pos);
    RoundTripFields(fs, b, p, sig, i + 1);
    StructStep(b, pos, sig, i, p, SeenAll(fs), p + |EncodeAll(fs, p)|, i + 1 + |SigAll(TypesOf(fs))|);
  }

  lemma {:induction false} RoundTripFields(ts: seq<Tree>, b: seq<byte>, pos: nat, sig: seq<byte>, i: nat)
    requires AllWellTyped(ts) && At(b, pos, EncodeAll(ts, pos)) && At(sig, i, SigAll(TypesOf(ts)))
    requires i + |SigAll(TypesOf(ts))| < |sig| && sig[i + |SigAll(TypesOf(ts))|] == ')' as int
    ensures DecodeFields(b, pos, sig, i)
         == Some((SeenAll(ts), pos + |EncodeAll(ts, pos)|, i + |SigAll(TypesOf(ts))|))
    decreases ts, 0
  {
    hide Encode, Decode, Sig, Seen, TypeOf, WellFormed, WellTyped;
    if ts != [] {
      hide TypesOf, SigAll, DecodeFields;
      var h := Encode(ts[0], pos);
      AtSplit(b, pos, h, EncodeAll(ts[1..], pos + |h|));
      TypesCons(ts);
      AtSplit(sig, i, Sig(TypeOf(ts[0])), SigAll(TypesOf(ts[1..])));
      WellTypedType(ts[0]);
      SigHead(TypeOf(ts[0]), sig, i);
      RoundTrip(ts[0], b, pos, sig, i);
      var p, j := pos + |h|, i + |Sig(TypeOf(ts[0]))|;
      RoundTripFields(ts[1..], b, p, sig, j);
      FieldsStep(b, pos, sig, i, Seen(ts[0]), p, j, SeenAll(ts[1..]), p + |EncodeAll(ts[1..], p)|,
                 j + |SigAll(TypesOf(ts[1..]))|);
    }
  }

  lemma FieldsStep(b: seq<byte>, pos: nat, sig: seq<byte>, i: nat, v: Value, p: nat, j: nat,
                   vs: seq<Value>, q: nat, n: nat)
    requires pos <= |b| + 1 && p <= |b| + 1 && i < |sig| && sig[i] != ')' as int
    requires Decode(b, pos, sig, i) == Decoded(v, p, j) && DecodeFields(b, p, sig, j) == Some((vs, q, n))
    ensures DecodeFields(b, pos, sig, i) == Some(([v] + vs, q, n))
  {
    hide Decode;
  }

  lemma TypesCons(ts: seq<Tree>)
    requires ts != []
    ensures SigAll(TypesOf(ts)) == Sig(TypeOf(ts[0])) + SigAll(TypesOf(ts[1..]))
  {
    hide Sig, TypeOf;
    assert TypesOf(ts)[1..] == TypesOf(ts[1..]);
  }

  /** No type starts with a closing bracket. */
  lemma SigHead(ty: Ty, sig: seq<byte>, i: nat)
    requires WellFormed(ty) && At(sig, i, Sig(ty))
    ensures i < |sig| && sig[i] != ')' as int
  {
    assert sig[i] == sig[i..i + |Sig(ty)|][0] == Sig(ty)[0];
  }

  lemma {:induction false} RoundTripDict(k: Tree, v: Tree, b: seq<byte>, pos: nat, sig: seq<byte>, i: nat)
    requires Written(DictNode(k, v), b, pos, sig, i)
    ensures ReadsBack(DictNode(k, v), b, pos, sig, i)
    decreases DictNode(k, v), 0
  {
    hide Encode, Decode, Pad, AlignPos, Sig;
    var p := pos + Pad(pos, 8);
    var q := p + |Encode(k, p)|;
    var j := i + 1 + |Sig(TypeOf(k))|;
    DictParts(TypeOf(k), TypeOf(v), sig, i);
    DictBytes(k, v, b, pos);
    RoundTrip(k, b, p, sig, i + 1);
    RoundTrip(v, b, q, sig, j);
    DictStep(b, pos, sig, i, p, Seen(k), q, j, Seen(v), q + |Encode(v, q)|, j + |Sig(TypeOf(v))|);
  }

  /**
   * The same when the bytes were produced at a different offset of a longer message: header
   * fields are written at offset 16 and read back from a buffer of their own.
   */
  lemma RoundTripElsewhere(t: Tree, off: nat, b: seq<byte>, pos: nat, sig: seq<byte>, i: nat)
    requires WellTyped(t) && off % 8 == pos % 8
    requires At(b, pos, Encode(t, off)) && At(sig, i, Sig(TypeOf(t)))
    ensures pos <= |b|
    ensures Decode(b, pos, sig, i) == Decoded(Seen(t), pos + |Encode(t, off)|, i + |Sig(TypeOf(t))|)
  {
    EncodeMod8(t, off, pos);
    RoundTrip(t, b, pos, sig, i);
  }

  // ---- when the round trip is exact ---------------------------------------------------

  /** No array of the tree is longer than the decoder's element cap. */
  predicate WithinCap(t: Tree)
    decreases t, 1
  {
    match t
    case VariantNode(inner) => WithinCap(inner)
    case ArrayNode(_, items) => |items| <= 100_001 && AllWithinCap(items)
    case StructNode(fs) => AllWithinCap(fs)
    case DictNode(k, v) => WithinCap(k) && WithinCap(v)
    case _ => true
  }

  predicate AllWithinCap(ts: seq<Tree>)
    decreases ts, 0
  {
    ts == [] || (WithinCap(ts[0]) && AllWithinCap(ts[1..]))
  }

  /** The receiver sees what the sender meant exactly when no array is longer than the cap. */
  lemma {:induction false} ExactIffWithinCap(t: Tree)
    ensures Seen(t) == Meant(t) <==> WithinCap(t)
    decreases t, 1
  {
    match t
    case VariantNode(inner) => ExactIffWithinCap(inner);
    case ArrayNode(_, items) => 
      AllExactIffWithinCap(items);
      if |items| <= ITEM_CAP {
        assert SeenAll(items)[..Min(|items|, ITEM_CAP)] == SeenAll(items);
      } else {
        assert |Seen(t).items| != |Meant(t).items|;
      }
    case StructNode(fs) => AllExactIffWithinCap(fs);
    case DictNode(k, v) =>
      ExactIffWithinCap(k);
      ExactIffWithinCap(v);
    case _ =>
  }

  lemma {:induction false} AllExactIffWithinCap(ts: seq<Tree>)
    ensures SeenAll(ts) == MeantAll(ts) <==> AllWithinCap(ts)
    decreases ts, 0
  {
    if ts != [] {
      ExactIffWithinCap(ts[0]);
      AllExactIffWithinCap(ts[1..]);
      assert SeenAll(ts)[0] == Seen(ts[0]) && SeenAll(ts)[1..] == SeenAll(ts[1..]);
      assert MeantAll(ts)[0] == Meant(ts[0]) && MeantAll(ts)[1..] == MeantAll(ts[1..]);
    }
  }

  /** `Message::args` reads a whole body back: the concatenation of values under the concatenated signature. */
  lemma {:induction false} ArgsRoundTrip(ts: seq<Tree>, b: seq<byte>, pos: nat, sig: seq<byte>, i: nat)
    requires AllWellTyped(ts) && At(b, pos, EncodeAll(ts, pos))
    requires At(sig, i, SigAll(TypesOf(ts))) && i + |SigAll(TypesOf(ts))| == |sig|
    ensures DecodeArgs(b, pos, sig, i) == SeenAll(ts)
    decreases ts
  {
    hide Encode, Decode, Sig, Seen;
    if ts != [] {
      var h := Encode(ts[0], pos);
      AtSplit(b, pos, h, EncodeAll(ts[1..], pos + |h|));
      TypesCons(ts);
      AtSplit(sig, i, Sig(TypeOf(ts[0])), SigAll(TypesOf(ts[1..])));
      RoundTrip(ts[0], b, pos, sig, i);
      ArgsRoundTrip(ts[1..], b, pos + |h|, sig, i + |Sig(TypeOf(ts[0]))|);
    }
  }
}
