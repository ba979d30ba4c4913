/** The UTF-8 check accepts exactly the byte strings that encode some text, and words are laid out low byte first. */
module Utf8 {
  import opened Bytes

  /** A Unicode scalar value. */
  predicate Scalar(c: nat) {
    c < 0xD800 || 0xE000 <= c < 0x11_0000
  }

  /** UTF-8 form of a scalar value (table 3-6 of the Unicode Standard). */
  function Encoded(c: nat): (s: seq<byte>)
    requires Scalar(c)
    ensures 1 <= |s| <= 4
  {
    if c < 0x80 then [c]
    else if c < 0x800 then [0xC0 + c / 64, 0x80 + c % 64]
    else if c < 0x1_0000 then [0xE0 + c / 4096, 0x80 + c / 64 % 64, 0x80 + c % 64]
    else [0xF0 + c / 262144, 0x80 + c / 4096 % 64, 0x80 + c / 64 % 64, 0x80 + c % 64]
  }

  predicate AllScalar(cs: seq<nat>) {
    forall i :: 0 <= i < |cs| ==> Scalar(cs[i])
  }

  function EncodedAll(cs: seq<nat>): seq<byte>
    requires AllScalar(cs)
  {
    if cs == [] then [] else Encoded(cs[0]) + EncodedAll(cs[1..])
  }

  lemma HeadOfTwo(c: nat, rest: seq<byte>)
    requires 0x80 <= c < 0x800
    ensures Utf8Head(Encoded(c) + rest) == 2
  {
    var s := Encoded(c) + rest;
    assert s[0] == 0xC0 + c / 64 && s[1] == 0x80 + c % 64;
  }

  lemma HeadOfThree(c: nat, rest: seq<byte>)
    requires 0x800 <= c < 0x1_0000 && Scalar(c)
    ensures Utf8Head(Encoded(c) + rest) == 3
  {
    var s, a, b := Encoded(c) + rest, c / 4096, c / 64 % 64;
    assert s[0] == 0xE0 + a && s[1] == 0x80 + b && s[2] == 0x80 + c % 64;
    assert c / 64 == 64 * a + b;
  }

  lemma HeadOfFour(c: nat, rest: seq<byte>)
    requires 0x1_0000 <= c < 0x11_0000
    ensures Utf8Head(Encoded(c) + rest) == 4
  {
    var s, a, b := Encoded(c) + rest, c / 262144, c / 4096 % 64;
    assert s[0] == 0xF0 + a && s[1] == 0x80 + b && s[2] == 0x80 + c / 64 % 64 && s[3] == 0x80 + c % 64;
    assert c / 4096 == 64 * a + b;
  }

  lemma HeadOfEncoded(c: nat, rest: seq<byte>)
    requires Scalar(c)
    ensures Utf8Head(Encoded(c) + rest) == |Encoded(c)|
  {
    if c < 0x80 {
    } else if c < 0x800 {
      HeadOfTwo(c, rest);
    } else if c < 0x1_0000 {
      HeadOfThree(c, rest);
    } else {
      HeadOfFour(c, rest);
    }
  }

  lemma {:induction false} EncodedIsValid(cs: seq<nat>)
    requires AllScalar(cs)
    ensures ValidUtf8(EncodedAll(cs))
    decreases |cs|
  {
    hide Utf8Head, Encoded;
    if cs != [] {
      HeadOfEncoded(cs[0], EncodedAll(cs[1..]));
      EncodedIsValid(cs[1..]);
      var s, n := EncodedAll(cs), |Encoded(cs[0])|;
      assert s[n..] == EncodedAll(cs[1..]);
    }
  }

  /** The scalar value a well-formed head encodes. */
  lemma HeadDecodes(s: seq<byte>) returns (c: nat)
    requires Utf8Head(s) > 0
    ensures Scalar(c) && Encoded(c) == s[..Utf8Head(s)]
  {
    var n := Utf8Head(s);
    if n == 1 {
      c := s[0];
    } else if n == 2 {
      c := TwoBytes(s[0] - 0xC0, s[1] - 0x80);
    } else if n == 3 {
      c := ThreeBytes(s[0] - 0xE0, s[1] - 0x80, s[2] - 0x80);
    } else {
      c := FourBytes(s[0] - 0xF0, s[1] - 0x80, s[2] - 0x80, s[3] - 0x80);
    }
  }

  lemma TwoBytes(a: nat, b: nat) returns (c: nat)
    requires a < 32 && b < 64
    ensures c == a * 64 + b && c / 64 == a && c % 64 == b
  {
    c := a * 64 + b;
  }

  lemma ThreeBytes(a: nat, b: nat, d: nat) returns (c: nat)
    requires a < 16 && b < 64 && d < 64
    ensures c == a * 4096 + b * 64 + d && c / 4096 == a && c / 64 % 64 == b && c % 64 == d
  {
    c := a * 4096 + b * 64 + d;
    assert c / 64 == a * 64 + b;
  }

  lemma FourBytes(a: nat, b: nat, d: nat, e: nat) returns (c: nat)
    requires a < 8 && b < 64 && d < 64 && e < 64
    ensures c == a * 262144 + b * 4096 + d * 64 + e
    ensures c / 262144 == a && c / 4096 % 64 == b && c / 64 % 64 == d && c % 64 == e
  {
    c := a * 262144 + b * 4096 + d * 64 + e;
    assert c / 64 == a * 4096 + b * 64 + d;
    assert c / 4096 == a * 64 + b;
  }

  lemma {:induction false} ValidDecodes(s: seq<byte>) returns (cs: seq<nat>)
    requires ValidUtf8(s)
    ensures AllScalar(cs) && EncodedAll(cs) == s
    decreases |s|
  {
    hide Utf8Head, Encoded;
    cs := [];
    if s != [] {
      var n := Utf8Head(s);
      var c := HeadDecodes(s);
      var rest := ValidDecodes(s[n..]);
      cs := [c] + rest;
      assert cs[1..] == rest;
      assert s == s[..n] + s[n..];
    }
  }

  /** The check accepts exactly what some sequence of scalar values encodes to. */
  lemma ValidIffEncoded(s: seq<byte>)
    ensures ValidUtf8(s) <==> exists cs: seq<nat> :: AllScalar(cs) && EncodedAll(cs) == s
  {
    if ValidUtf8(s) {
      var cs := ValidDecodes(s);
    }
    if exists cs: seq<nat> :: AllScalar(cs) && EncodedAll(cs) == s {
      var cs: seq<nat> :| AllScalar(cs) && EncodedAll(cs) == s;
      EncodedIsValid(cs);
    }
  }

  /** A 32-bit word on the wire. */
  lemma WordLayout(v: u32)
    ensures var b := U32Bytes(v);
      v == b[0] as int + 256 * (b[1] as int) + 65_536 * (b[2] as int) + 16_777_216 * (b[3] as int)
    ensures U32Of(U32Bytes(v)) == v
  {
    U32RoundTrip(v);
    var b := U32Bytes(v);
    assert b[1..][1..][1..][1..] == [];
    assert FromLE([]) == 0;
    assert FromLE(b) == b[0] + 256 * FromLE(b[1..]);
    assert FromLE(b[1..]) == b[1] + 256 * FromLE(b[1..][1..]);
    assert FromLE(b[1..][1..]) == b[2] + 256 * FromLE(b[1..][1..][1..]);
    assert FromLE(b[1..][1..][1..]) == b[3] + 256 * FromLE(b[1..][1..][1..][1..]);
  }
}
