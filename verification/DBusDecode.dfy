/** Values and the unmarshaller: the decoder recurses over the bytes and over the signature. */
module DBusDecode {
  import opened Wrappers
  import opened Bytes
  import opened DBusTypes

  datatype Value =
    | Byte(b: byte)
    | Bool(flag: bool)
    | I16(n16: i16)
    | U16(q16: u16)
    | I32(n32: i32)
    | U32(q32: u32)
    | I64(n64: i64)
    | U64(q64: u64)
    | F64(bits: u64)                 // the 64-bit pattern
    | Str(s: seq<byte>)
    | ObjectPath(path: seq<byte>)
    | Signature(sig: seq<byte>)
    | Array(items: seq<Value>)
    | Struct(fields: seq<Value>)
    | Variant(inner: Value)
    | DictEntry(key: Value, val: Value)
    | Unsupported
  {
    /** `as_str` */
    function AsStr(): Option<seq<byte>> {
      match this
      case Str(t) => Some(t)
      case ObjectPath(t) => Some(t)
      case Signature(t) => Some(t)
      case Variant(v) => v.AsStr()
      case _ => None
    }

    /** `as_u32` */
    function AsU32(): Option<u32> {
      match this
      case U32(n) => Some(n)
      case Variant(v) => v.AsU32()
      case _ => None
    }
  }

  /** Reinterpret an unsigned pattern below `2 * half` as two's complement. */
  function Signed(raw: nat, half: nat): (n: int)
    requires raw < 2 * half
    ensures 0 <= n + half < 2 * half
  {
    if raw < half then raw else raw - 2 * half
  }

  /** The value of a fixed-size type whose little-endian bytes spell `raw`. */
  function FixedValue(code: byte, raw: nat): Value
    requires FixedSize(code) != 0 && raw < Pow256(FixedSize(code))
  {
    Pow256Values();
    if code == 'y' as int then Byte(raw)
    else if code == 'b' as int then Bool(raw != 0)
    else if code == 'n' as int then I16(Signed(raw, 0x8000))
    else if code == 'q' as int then U16(raw)
    else if code == 'i' as int then I32(Signed(raw, 0x8000_0000))
    else if code == 'u' as int || code == 'h' as int then U32(raw)
    else if code == 'x' as int then I64(Signed(raw, 0x8000_0000_0000_0000))
    else if code == 't' as int then U64(raw)
    else F64(raw)
  }

  datatype Read<+T> = Fail | Got(value: T, pos: nat)
  datatype Decoded = NoValue | Decoded(value: Value, pos: nat, i: nat)

  /** Elements decoded after which the array loop gives up. */
  const ITEM_CAP: nat := 100_001

  function AlignPos(b: seq<byte>, pos: nat, n: nat): (p: nat)
    requires AlignSize(n)
    ensures p >= pos && (pos <= |b| ==> p <= |b|) && (pos > |b| ==> p == pos)
  {
    if pos >= |b| then pos
    else if pos + Pad(pos, n) <= |b| then pos + Pad(pos, n)
    else |b|
  }

  function Take(b: seq<byte>, pos: nat, n: nat): (r: Read<seq<byte>>)
    ensures r.Got? ==> |r.value| == n && r.pos == pos + n <= |b|
  {
    if pos + n > |b| then Fail else Got(b[pos..pos + n], pos + n)
  }

  function ReadFixed(b: seq<byte>, pos: nat, n: nat): (r: Read<nat>)
    requires AlignSize(n)
    ensures r.Got? ==> r.value < Pow256(n) && pos + n <= r.pos <= |b|
  {
    var t := Take(b, AlignPos(b, pos, n), n);
    if t.Fail? then Fail else Got(FromLE(t.value), t.pos)
  }

  /** `string`: the NUL is stepped over without looking, so `pos` may end one past the buffer. */
  function ReadString(b: seq<byte>, pos: nat): (r: Read<seq<byte>>)
    ensures r.Got? ==> pos + 5 <= r.pos <= |b| + 1 && ValidUtf8(r.value)
  {
    var n := ReadFixed(b, pos, 4);
    if n.Fail? then Fail else
    var s := Take(b, n.pos, n.value);
    if s.Fail? || !ValidUtf8(s.value) then Fail else Got(s.value, s.pos + 1)
  }

  /** `sigstring`: the same with a one-byte length. */
  function ReadSig(b: seq<byte>, pos: nat): (r: Read<seq<byte>>)
    ensures r.Got? ==> pos + 2 <= r.pos <= |b| + 1 && ValidUtf8(r.value)
  {
    var n := ReadFixed(b, pos, 1);
    if n.Fail? then Fail else
    var s := Take(b, n.pos, n.value);
    if s.Fail? || !ValidUtf8(s.value) then Fail else Got(s.value, s.pos + 1)
  }

  function Remaining(sig: seq<byte>, i: nat): nat {
    if i <= |sig| then |sig| - i else 0
  }

  function Min(a: nat, b: nat): nat {
    if a < b then a else b
  }

  /** The types that hold no other value, and the type codes the decoder does not know. */
  function DecodeLeaf(b: seq<byte>, pos: nat, sig: seq<byte>, i: nat): (r: Decoded)
    requires pos <= |b| + 1 && i < |sig|
    ensures r.Decoded? ==> pos <= r.pos <= |b| + 1 && r.i == i + 1
  {
    var t := sig[i];
    if FixedSize(t) != 0 then
      var r := ReadFixed(b, pos, FixedSize(t));
      if r.Fail? then NoValue else Decoded(FixedValue(t, r.value), r.pos, i + 1)
    else if TextCode(t) then
      var r := ReadString(b, pos);
      if r.Fail? then NoValue
      else Decoded(if t == 's' as int then Str(r.value) else ObjectPath(r.value), r.pos, i + 1)
    else if t == 'g' as int then
      var r := ReadSig(b, pos);
      if r.Fail? then NoValue else Decoded(Signature(r.value), r.pos, i + 1)
    else Decoded(Unsupported, pos, i + 1)
  }

  /** `Unmarshal::value`. It never moves `pos` back, although an array resets `pos` to its declared end. */
  function Decode(b: seq<byte>, pos: nat, sig: seq<byte>, i: nat): (r: Decoded)
    requires pos <= |b| + 1
    ensures r.Decoded? ==> pos <= r.pos <= |b| + 1 && i < r.i && i < |sig|
    decreases |b| + 1 - pos, Remaining(sig, i), 1
  {
    if i >= |sig| then NoValue
    else if sig[i] == 'v' as int then DecodeVariant(b, pos, i)
    else if sig[i] == 'a' as int then DecodeArray(b, pos, sig, i + 1)
    else if sig[i] == '(' as int then DecodeStruct(b, AlignPos(b, pos, 8), sig, i + 1)
    else if sig[i] == '{' as int then DecodeDict(b, AlignPos(b, pos, 8), sig, i + 1)
    else DecodeLeaf(b, pos, sig, i)
  }

  /** A variant brings its own signature. */
  function DecodeVariant(b: seq<byte>, pos: nat, i: nat): (r: Decoded)
    requires pos <= |b| + 1
    ensures r.Decoded? ==> pos < r.pos <= |b| + 1 && r.i == i + 1
    decreases |b| + 1 - pos, 0
  {
    var s := ReadSig(b, pos);
    if s.Fail? then NoValue else
    var v := Decode(b, s.pos, s.value, 0);
    if v.NoValue? then NoValue else Decoded(Variant(v.value), v.pos, i + 1)
  }

  /** An array whose element type starts at `elem`: decode up to the declared end, then jump there. */
  function DecodeArray(b: seq<byte>, pos: nat, sig: seq<byte>, elem: nat): (r: Decoded)
    requires pos <= |b| + 1
    ensures r.Decoded? ==> pos <= r.pos <= |b| + 1 && elem <= r.i
    decreases |b| + 1 - pos, 0
  {
    var n := ReadFixed(b, pos, 4);
    if n.Fail? then NoValue else
    var start := AlignPos(b, n.pos, ElemAlignment(sig, elem));
    var items := DecodeItems(b, start, start + n.value, sig, elem, 0);
    if items.None? then NoValue
    else Decoded(Array(items.value), Min(start + n.value, |b|), SkipType(sig, elem))
  }

  function DecodeStruct(b: seq<byte>, pos: nat, sig: seq<byte>, i: nat): (r: Decoded)
    requires pos <= |b| + 1
    ensures r.Decoded? ==> pos <= r.pos <= |b| + 1 && i < r.i
    decreases |b| + 1 - pos, Remaining(sig, i), 3
  {
    var fs := DecodeFields(b, pos, sig, i);
    if fs.None? then NoValue
    else Decoded(Struct(fs.value.0), fs.value.1, fs.value.2 + 1)
  }

  function DecodeDict(b: seq<byte>, pos: nat, sig: seq<byte>, i: nat): (r: Decoded)
    requires pos <= |b| + 1
    ensures r.Decoded? ==> pos <= r.pos <= |b| + 1 && i < r.i
    decreases |b| + 1 - pos, Remaining(sig, i), 3
  {
    var k := Decode(b, pos, sig, i);
    if k.NoValue? then NoValue else
    var v := Decode(b, k.pos, sig, k.i);
    if v.NoValue? then NoValue else Decoded(DictEntry(k.value, v.value), v.pos, v.i + 1)
  }

  /** The array loop: every element restarts the signature at `elem`. */
  function DecodeItems(b: seq<byte>, pos: nat, end: nat, sig: seq<byte>, elem: nat, count: nat)
    : (r: Option<seq<Value>>)
    requires pos <= |b| + 1 && count < ITEM_CAP
    ensures r.Some? ==> count + |r.value| <= ITEM_CAP
    decreases |b| + 1 - pos, Remaining(sig, elem), 2 + ITEM_CAP - count
  {
    if pos < end && pos < |b| then
      var v := Decode(b, pos, sig, elem);
      if v.NoValue? then None
      else if count + 1 >= ITEM_CAP then Some([v.value])
      else
        var rest := DecodeItems(b, v.pos, end, sig, elem, count + 1);
        if rest.None? then None else Some([v.value] + rest.value)
    else Some([])
  }

  /** The struct loop: fields until the closing bracket or the end of the signature. */
  function DecodeFields(b: seq<byte>, pos: nat, sig: seq<byte>, i: nat)
    : (r: Option<(seq<Value>, nat, nat)>)
    requires pos <= |b| + 1
    ensures r.Some? ==> pos <= r.value.1 <= |b| + 1 && i <= r.value.2
    decreases |b| + 1 - pos, Remaining(sig, i), 2
  {
    if i < |sig| && sig[i] != ')' as int then
      var v := Decode(b, pos, sig, i);
      if v.NoValue? then None else
      var rest := DecodeFields(b, v.pos, sig, v.i);
      if rest.None? then None else Some(([v.value] + rest.value.0, rest.value.1, rest.value.2))
    else Some(([], pos, i))
  }

  /** `Message::args` as a function: decode until the signature is used up or a value is missing. */
  function DecodeArgs(b: seq<byte>, pos: nat, sig: seq<byte>, i: nat): (r: seq<Value>)
    requires pos <= |b| + 1
    decreases Remaining(sig, i)
  {
    if i >= |sig| then [] else
    var v := Decode(b, pos, sig, i);
    if v.NoValue? then [] else [v.value] + DecodeArgs(b, v.pos, sig, v.i)
  }
}
