/** What the decoder makes of bytes no sender of this program writes. */
module DBusEdges {
  import opened Wrappers
  import opened Bytes
  import opened DBusTypes
  import opened DBusDecode
  import opened DBusEncode
  import opened DBusRoundTrip

  /** Every pattern of a fixed-size code is the pattern of the value read, but for truth values: any but 0 is true. */
  lemma EveryPattern(code: byte, raw: nat)
    requires FixedSize(code) != 0 && raw < Pow256(FixedSize(code))
    ensures code != 'b' as int ==> FixedFits(code, FixedValue(code, raw)) && RawOf(FixedValue(code, raw)) == raw
    ensures code == 'b' as int ==> FixedValue(code, raw) == Bool(raw != 0)
  {
    Pow256Values();
  }

  /** A code that is no type of the protocol stands for itself and takes no bytes. */
  lemma UnknownCode(b: seq<byte>, pos: nat, sig: seq<byte>, i: nat)
    requires pos <= |b| + 1 && i < |sig|
    requires sig[i] as int !in {'y' as int, 'b' as int, 'n' as int, 'q' as int, 'i' as int, 'u' as int, 'x' as int,
                                't' as int, 'd' as int, 'h' as int, 's' as int, 'o' as int, 'g' as int, 'v' as int,
                                'a' as int, '(' as int, '{' as int}
    ensures Decode(b, pos, sig, i) == Decoded(Unsupported, pos, i + 1) && ElemAlignment(sig, i) == 1
  {
  }

  /** Truth values are the words 1 and 0. */
  lemma TruthOnTheWire(off: nat)
    requires off % 4 == 0
    ensures Encode(FixedNode('b' as int, Bool(true)), off) == [1, 0, 0, 0]
    ensures Encode(FixedNode('b' as int, Bool(false)), off) == [0, 0, 0, 0]
  {
    hide Pad;
    PadStep(off, 4);
    assert Zeros(0) == [];
    assert LE(0, 3) == [0, 0, 0] by {
      assert LE(0, 3) == [0] + LE(0, 2) && LE(0, 2) == [0] + LE(0, 1) && LE(0, 1) == [0] + LE(0, 0);
    }
    assert LE(1, 4) == [1] + LE(0, 3) && LE(0, 4) == [0] + LE(0, 3);
  }

  /** A fixed-size value whose bytes are not all there does not decode. */
  lemma CutShort(b: seq<byte>, pos: nat, sig: seq<byte>, i: nat)
    requires pos <= |b| && i < |sig| && FixedSize(sig[i]) != 0
    requires |b| < pos + Pad(pos, FixedSize(sig[i])) + FixedSize(sig[i])
    ensures Decode(b, pos, sig, i) == NoValue
  {
    hide Pad, FixedValue, FromLE;
  }

  /** Text whose bytes are not UTF-8 does not decode. */
  lemma NotText(b: seq<byte>, pos: nat, sig: seq<byte>, i: nat, s: seq<byte>)
    requires pos <= |b| && i < |sig| && (sig[i] == 's' as int || sig[i] == 'o' as int)
    requires At(b, pos, Zeros(Pad(pos, 4)) + U32Bytes(|s|) + s) && |s| < TWO_32 && !ValidUtf8(s)
    ensures Decode(b, pos, sig, i) == NoValue
  {
    hide Pad, ValidUtf8, ReadFixed, U32Bytes, Decode, ReadString;
    AtSplit(b, pos, Zeros(Pad(pos, 4)) + U32Bytes(|s|), s);
    ReadU32At(b, pos, |s|);
    NotTextRead(b, pos, pos + Pad(pos, 4) + 4, s);
    TextLeaf(b, pos, sig, i);
  }

  lemma NotTextRead(b: seq<byte>, pos: nat, start: nat, s: seq<byte>)
    requires ReadFixed(b, pos, 4) == Got(|s|, start) && At(b, start, s) && !ValidUtf8(s)
    ensures ReadString(b, pos) == Fail
  {
    hide ValidUtf8, ReadFixed;
  }

  lemma TextLeaf(b: seq<byte>, pos: nat, sig: seq<byte>, i: nat)
    requires pos <= |b| && i < |sig| && (sig[i] == 's' as int || sig[i] == 'o' as int)
    ensures ReadString(b, pos) == Fail ==> Decode(b, pos, sig, i) == NoValue
  {
    hide ReadString;
  }

  /** A variant whose signature or value does not decode does not decode. */
  lemma VariantMustDecode(b: seq<byte>, pos: nat, sig: seq<byte>, i: nat)
    requires pos <= |b| + 1 && i < |sig| && sig[i] == 'v' as int
    requires var s := ReadSig(b, pos); s.Got? ==> Decode(b, s.pos, s.value, 0) == NoValue
    ensures Decode(b, pos, sig, i) == NoValue
  {
    hide ReadSig;
  }

  /** Nor does a dictionary entry without its key, or without its value. */
  lemma EntryMustDecode(b: seq<byte>, pos: nat, sig: seq<byte>, i: nat)
    requires pos <= |b| + 1 && i < |sig| && sig[i] == '{' as int
    requires var k := Decode(b, AlignPos(b, pos, 8), sig, i + 1);
      k.Decoded? ==> Decode(b, k.pos, sig, k.i) == NoValue
    ensures Decode(b, pos, sig, i) == NoValue
  {
    hide AlignPos;
  }

  /** Nor a struct without its first field, and so on for the others. */
  lemma FieldsMustDecode(b: seq<byte>, pos: nat, sig: seq<byte>, i: nat)
    requires pos <= |b| + 1 && i < |sig| && sig[i] != ')' as int
    requires var v := Decode(b, pos, sig, i); v.Decoded? ==> DecodeFields(b, v.pos, sig, v.i) == None
    ensures DecodeFields(b, pos, sig, i) == None
  {
    hide Decode;
  }

  lemma StructMustDecode(b: seq<byte>, pos: nat, sig: seq<byte>, i: nat)
    requires pos <= |b| + 1 && i < |sig| && sig[i] == '(' as int
    requires DecodeFields(b, AlignPos(b, pos, 8), sig, i + 1) == None
    ensures Decode(b, pos, sig, i) == NoValue
  {
    hide AlignPos, DecodeFields;
  }

  /** Nor an array with an element that does not decode. */
  lemma {:induction false} ItemsMustDecode(b: seq<byte>, pos: nat, end: nat, sig: seq<byte>, elem: nat, count: nat)
    requires pos <= |b| + 1 && count < ITEM_CAP && pos < end && pos < |b| && Decode(b, pos, sig, elem).NoValue?
    ensures DecodeItems(b, pos, end, sig, elem, count) == None
  {
    hide Decode;
  }

  lemma ArrayMustDecode(b: seq<byte>, pos: nat, sig: seq<byte>, i: nat)
    requires pos <= |b| + 1 && i < |sig| && sig[i] == 'a' as int
    requires var n := ReadFixed(b, pos, 4);
      n.Got? ==>
        var start := AlignPos(b, n.pos, ElemAlignment(sig, i + 1));
        DecodeItems(b, start, start + n.value, sig, i + 1, 0) == None
    ensures Decode(b, pos, sig, i) == NoValue
  {
    hide ReadFixed, AlignPos, ElemAlignment, DecodeItems;
  }

  /** An array that claims to be longer than what is left is not refused: it holds what is there. */
  lemma CutArray(n: nat)
    requires 2 < n < TWO_32
    ensures Decode(U32Bytes(n) + [7, 9], 0, ['a' as int, 'y' as int], 0) == Decoded(Array([Byte(7), Byte(9)]), 6, 2)
  {
    hide Decode, LE, FromLE;
    var b, sig := U32Bytes(n) + [7, 9], ['a' as int, 'y' as int];
    U32RoundTrip(n);
    assert b[0..4] == U32Bytes(n);
    assert n % TWO_32 == n;
    assert ReadFixed(b, 0, 4) == Got(n, 4);
    OneByte(b, 4, sig, 1);
    OneByte(b, 5, sig, 1);
    ItemsOf(b, n, sig);
    SkipsOne(sig);
    ArrayIs(b, sig, n);
  }

  lemma OneByte(b: seq<byte>, pos: nat, sig: seq<byte>, i: nat)
    requires pos < |b| && i < |sig| && sig[i] == 'y' as int
    ensures Decode(b, pos, sig, i) == Decoded(Byte(b[pos]), pos + 1, i + 1)
  {
    Pow256Values();
    assert b[pos..pos + 1] == [b[pos]];
    assert FromLE([b[pos]]) == b[pos] + 256 * FromLE([b[pos]][1..]);
  }

  lemma NextItem(b: seq<byte>, pos: nat, end: nat, sig: seq<byte>, elem: nat, count: nat, v: Value, q: nat, j: nat,
                 rest: seq<Value>)
    requires pos < end && pos < |b| && q <= |b| + 1 && count + 1 < ITEM_CAP
    requires Decode(b, pos, sig, elem) == Decoded(v, q, j)
    requires DecodeItems(b, q, end, sig, elem, count + 1) == Some(rest)
    ensures DecodeItems(b, pos, end, sig, elem, count) == Some([v] + rest)
  {
    hide Decode;
  }

  lemma ItemsOf(b: seq<byte>, n: nat, sig: seq<byte>)
    requires |b| == 6 && n > 2 && |sig| == 2
    requires Decode(b, 4, sig, 1) == Decoded(Byte(7), 5, 2) && Decode(b, 5, sig, 1) == Decoded(Byte(9), 6, 2)
    ensures DecodeItems(b, 4, 4 + n, sig, 1, 0) == Some([Byte(7), Byte(9)])
  {
    hide Decode;
    assert DecodeItems(b, 6, 4 + n, sig, 1, 2) == Some([]);
    hide DecodeItems;
    NextItem(b, 5, 4 + n, sig, 1, 1, Byte(9), 6, 2, []);
    NextItem(b, 4, 4 + n, sig, 1, 0, Byte(7), 5, 2, [Byte(9)] + []);
    assert [Byte(7)] + ([Byte(9)] + []) == [Byte(7), Byte(9)];
  }

  lemma SkipsOne(sig: seq<byte>)
    requires sig == ['a' as int, 'y' as int]
    ensures SkipType(sig, 1) == 2 && ElemAlignment(sig, 1) == 1
  {
  }

  lemma ArrayIs(b: seq<byte>, sig: seq<byte>, n: nat)
    requires |b| == 6 && n > 2 && sig == ['a' as int, 'y' as int] && ReadFixed(b, 0, 4) == Got(n, 4)
    requires DecodeItems(b, 4, 4 + n, sig, 1, 0) == Some([Byte(7), Byte(9)])
    requires SkipType(sig, 1) == 2 && ElemAlignment(sig, 1) == 1
    ensures Decode(b, 0, sig, 0) == Decoded(Array([Byte(7), Byte(9)]), 6, 2)
  {
    hide DecodeItems, ReadFixed, SkipType, ElemAlignment;
  }
}
