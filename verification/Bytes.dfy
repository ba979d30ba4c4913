/** Bytes, little-endian integers, alignment padding and UTF-8, as the wire code uses them. */
module Bytes {
  type byte = i: int | 0 <= i < 256
  type u16 = i: int | 0 <= i < 0x1_0000
  type u32 = i: int | 0 <= i < 0x1_0000_0000
  type u64 = i: int | 0 <= i < 0x1_0000_0000_0000_0000
  type i16 = i: int | -0x8000 <= i < 0x8000
  type i32 = i: int | -0x8000_0000 <= i < 0x8000_0000
  type i64 = i: int | -0x8000_0000_0000_0000 <= i < 0x8000_0000_0000_0000

  const TWO_32: int := 0x1_0000_0000

  // ---- padding ---------------------------------------------------------------

  /** The alignments the protocol knows. */
  predicate AlignSize(n: nat) {
    n == 1 || n == 2 || n == 4 || n == 8
  }

  /** Number of bytes from `pos` to the next multiple of `n`; it only depends on `pos` modulo 8. */
  function Pad(pos: nat, n: nat): (k: nat)
    requires AlignSize(n)
    ensures k < n
  {
    var r := pos % 8;
    if n == 8 then (if r == 0 then 0 else 8 - r)
    else if n == 4 then (if r == 0 || r == 4 then 0 else if r < 4 then 4 - r else 8 - r)
    else if n == 2 then (if r == 1 || r == 3 || r == 5 || r == 7 then 1 else 0)
    else 0
  }

  lemma Mod2(x: nat, q: nat, r: nat)
    requires x == 2 * q + r && r < 2
    ensures x % 2 == r
  {
  }

  lemma Mod4(x: nat, q: nat, r: nat)
    requires x == 4 * q + r && r < 4
    ensures x % 4 == r
  {
  }

  lemma Mod8(x: nat, q: nat, r: nat)
    requires x == 8 * q + r && r < 8
    ensures x % 8 == r
  {
  }

  lemma ModParts(pos: nat)
    ensures pos % 4 == (if pos % 8 < 4 then pos % 8 else pos % 8 - 4)
    ensures pos % 2 == if pos % 8 in {1, 3, 5, 7} then 1 else 0
    ensures (pos + 1) % 8 == if pos % 8 == 7 then 0 else pos % 8 + 1
  {
    var q, r := pos / 8, pos % 8;
    Mod4(pos, if r < 4 then 2 * q else 2 * q + 1, if r < 4 then r else r - 4);
    Mod2(pos, 4 * q + r / 2, if r in {1, 3, 5, 7} then 1 else 0);
    Mod8(pos + 1, if r == 7 then q + 1 else q, if r == 7 then 0 else r + 1);
  }

  /** `Pad` is the least number of single-byte steps to a multiple of `n`. */
  lemma PadStep(pos: nat, n: nat)
    requires AlignSize(n)
    ensures pos % n == 0 <==> Pad(pos, n) == 0
    ensures pos % n != 0 ==> Pad(pos + 1, n) == Pad(pos, n) - 1
  {
    ModParts(pos);
    if n == 8 {
    } else if n == 4 {
    } else if n == 2 {
    } else {
      assert pos % 1 == 0;
    }
  }

  /** After padding, the position is aligned. */
  lemma {:induction false} PadAligns(pos: nat, n: nat)
    requires AlignSize(n)
    ensures (pos + Pad(pos, n)) % n == 0
    decreases Pad(pos, n)
  {
    PadStep(pos, n);
    if Pad(pos, n) > 0 {
      PadAligns(pos + 1, n);
    }
  }

  lemma PadShift(p: nat, q: nat, d: nat)
    requires q == p + 8 * d
    ensures forall n: nat {:trigger Pad(p, n)} :: AlignSize(n) ==> Pad(p, n) == Pad(q, n)
  {
    assert q % 8 == p % 8;
  }

  function Zeros(k: nat): (s: seq<byte>)
    ensures |s| == k && forall j :: 0 <= j < k ==> s[j] == 0
  {
    seq(k, _ => 0)
  }

  // ---- occurrence of a byte string inside a buffer ------------------------------

  /** `e` occurs in `b` at `pos`. */
  ghost predicate At(b: seq<byte>, pos: nat, e: seq<byte>) {
    pos + |e| <= |b| && b[pos..pos + |e|] == e
  }

  lemma AtSplit(b: seq<byte>, pos: nat, x: seq<byte>, y: seq<byte>)
    requires At(b, pos, x + y)
    ensures At(b, pos, x) && At(b, pos + |x|, y)
  {
    assert b[pos..pos + |x|] == (x + y)[..|x|];
    assert b[pos + |x|..pos + |x| + |y|] == (x + y)[|x|..];
  }

  // ---- little-endian integers ----------------------------------------------------

  function Pow256(k: nat): (p: nat)
    ensures p > 0
  {
    if k == 0 then 1 else 256 * Pow256(k - 1)
  }

  /** The `k` low bytes of `v`, least significant first. */
  function LE(v: nat, k: nat): (s: seq<byte>)
    ensures |s| == k
  {
    if k == 0 then [] else [v % 256] + LE(v / 256, k - 1)
  }

  function FromLE(s: seq<byte>): (v: nat)
    ensures v < Pow256(|s|)
  {
    if s == [] then 0 else s[0] + 256 * FromLE(s[1..])
  }

  lemma {:induction false} LERoundTrip(v: nat, k: nat)
    requires v < Pow256(k)
    ensures FromLE(LE(v, k)) == v
  {
    if k > 0 {
      LERoundTrip(v / 256, k - 1);
      assert LE(v, k)[1..] == LE(v / 256, k - 1);
    }
  }

  lemma Pow256Values()
    ensures Pow256(1) == 0x100 && Pow256(2) == 0x1_0000 && Pow256(4) == 0x1_0000_0000
    ensures Pow256(8) == 0x1_0000_0000_0000_0000
  {
    assert Pow256(3) == 0x100_0000;
    assert Pow256(5) == 0x100_0000_0000;
    assert Pow256(6) == 0x1_0000_0000_0000;
    assert Pow256(7) == 0x100_0000_0000_0000;
  }

  function U32Bytes(v: nat): (s: seq<byte>)
    ensures |s| == 4
  {
    LE(v % TWO_32, 4)
  }

  function U32Of(s: seq<byte>): (v: u32)
    requires |s| == 4
  {
    Pow256Values();
    FromLE(s)
  }

  lemma U32RoundTrip(v: nat)
    ensures U32Of(U32Bytes(v)) == v % TWO_32
  {
    Pow256Values();
    LERoundTrip(v % TWO_32, 4);
  }

  // ---- UTF-8 ---------------------------------------------------------------------

  predicate Cont(b: byte) {
    0x80 <= b < 0xC0
  }

  /** Length of the well-formed UTF-8 sequence that starts `s`, or 0 (table 3-7 of the Unicode Standard). */
  function Utf8Head(s: seq<byte>): (n: nat)
    ensures n <= |s| && n <= 4
  {
    if |s| >= 1 && s[0] < 0x80 then 1
    else if |s| >= 2 && 0xC2 <= s[0] < 0xE0 && Cont(s[1]) then 2
    else if |s| >= 3 && 0xE0 <= s[0] < 0xF0 && Cont(s[1]) && Cont(s[2])
            && (s[0] == 0xE0 ==> s[1] >= 0xA0) && (s[0] == 0xED ==> s[1] < 0xA0) then 3
    else if |s| >= 4 && 0xF0 <= s[0] < 0xF5 && Cont(s[1]) && Cont(s[2]) && Cont(s[3])
            && (s[0] == 0xF0 ==> s[1] >= 0x90) && (s[0] == 0xF4 ==> s[1] < 0x90) then 4
    else 0
  }

  predicate ValidUtf8(s: seq<byte>) {
    s == [] || (Utf8Head(s) > 0 && ValidUtf8(s[Utf8Head(s)..]))
  }

  lemma {:induction false} AsciiIsUtf8(s: seq<byte>)
    requires forall j :: 0 <= j < |s| ==> s[j] < 0x80
    ensures ValidUtf8(s)
  {
    if s != [] {
      AsciiIsUtf8(s[1..]);
    }
  }

  // ---- chunks ----------------------------------------------------------------------

  /** What the reads of one call add up to. */
  function Flat(xs: seq<seq<byte>>): seq<byte> {
    if xs == [] then [] else xs[0] + Flat(xs[1..])
  }

  /** What the calls of a run receive in all. */
  function FlatCalls(calls: seq<seq<seq<byte>>>): seq<byte> {
    if calls == [] then [] else Flat(calls[0]) + FlatCalls(calls[1..])
  }
}
