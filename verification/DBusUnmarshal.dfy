/** The unmarshaller as the program runs it: a cursor over a buffer, refining the function `Decode`. */
module DBusUnmarshal {
  import opened Wrappers
  import opened Bytes
  import opened DBusTypes
  import opened DBusDecode

  class Unmarshal {
    const b: seq<byte>
    var pos: nat

    constructor (b: seq<byte>)
      ensures this.b == b && pos == 0
    {
      this.b := b;
      pos := 0;
    }

    method Align(n: nat)
      requires AlignSize(n)
      modifies this
      ensures pos == AlignPos(b, old(pos), n)
    {
      while pos % n != 0 && pos < |b|
        invariant pos >= old(pos) && AlignPos(b, pos, n) == AlignPos(b, old(pos), n)
        decreases |b| - pos
      {
        PadStep(pos, n);
        pos := pos + 1;
      }
      PadStep(pos, n);
    }

    method TakeBytes(n: nat) returns (r: Option<seq<byte>>)
      modifies this
      ensures r.None? <==> Take(b, old(pos), n).Fail?
      ensures r.Some? ==> Take(b, old(pos), n) == Got(r.value, pos)
      ensures r.None? ==> pos == old(pos)
    {
      if pos + n > |b| {
        return None;
      }
      r := Some(b[pos..pos + n]);
      pos := pos + n;
    }

    /** `u8`, `u16`, `u32` and `u64`: align, take, little-endian. */
    method Fixed(n: nat) returns (r: Option<nat>)
      requires AlignSize(n)
      modifies this
      ensures r.None? <==> ReadFixed(b, old(pos), n).Fail?
      ensures r.Some? ==> ReadFixed(b, old(pos), n) == Got(r.value, pos)
      ensures old(pos) <= |b| + 1 ==> pos <= |b| + 1
    {
      Align(n);
      var s := TakeBytes(n);
      r := if s.None? then None else Some(FromLE(s.value));
    }

    method StringValue() returns (r: Option<seq<byte>>)
      modifies this
      ensures r.None? <==> ReadString(b, old(pos)).Fail?
      ensures r.Some? ==> ReadString(b, old(pos)) == Got(r.value, pos)
      ensures old(pos) <= |b| + 1 ==> pos <= |b| + 1
    {
      var n := Fixed(4);
      if n.None? {
        return None;
      }
      var s := TakeBytes(n.value);
      if s.None? {
        return None;
      }
      pos := pos + 1;
      r := if ValidUtf8(s.value) then s else None;
    }

    method SigString() returns (r: Option<seq<byte>>)
      modifies this
      ensures r.None? <==> ReadSig(b, old(pos)).Fail?
      ensures r.Some? ==> ReadSig(b, old(pos)) == Got(r.value, pos)
      ensures old(pos) <= |b| + 1 ==> pos <= |b| + 1
    {
      var n := Fixed(1);
      if n.None? {
        return None;
      }
      var s := TakeBytes(n.value);
      if s.None? {
        return None;
      }
      pos := pos + 1;
      r := if ValidUtf8(s.value) then s else None;
    }

    /** The cursor ended where the specification says, or there is no value on either side. */
    ghost predicate Agrees(d: Decoded, r: Option<Value>, i: nat)
      reads this
    {
      pos <= |b| + 1 && (if d.NoValue? then r.None? else r == Some(d.value) && pos == d.pos && i == d.i)
    }

    /** `value`: one complete value of the type at `sig[i]`; `j` is the advanced index. */
    method ValueAt(sig: seq<byte>, i: nat) returns (r: Option<Value>, j: nat)
      requires pos <= |b| + 1
      modifies this
      ensures Agrees(Decode(b, old(pos), sig, i), r, j)
      decreases |b| + 1 - pos, Remaining(sig, i), 1
    {
      hide ReadFixed, ReadString, ReadSig, AlignPos, DecodeVariant, DecodeArray, DecodeStruct, DecodeDict;
      if i >= |sig| {
        return None, i;
      }
      if sig[i] == 'v' as int {
        r := VariantAt();
        j := i + 1;
        assert Agrees(DecodeVariant(b, old(pos), i), r, j);
      } else if sig[i] == 'a' as int {
        r, j := ArrayAt(sig, i + 1);
      } else if sig[i] == '(' as int {
        Align(8);
        r, j := StructAt(sig, i + 1);
      } else if sig[i] == '{' as int {
        Align(8);
        r, j := DictAt(sig, i + 1);
      } else {
        r := LeafAt(sig, i);
        j := i + 1;
      }
    }

    method LeafAt(sig: seq<byte>, i: nat) returns (r: Option<Value>)
      requires pos <= |b| + 1 && i < |sig|
      modifies this
      ensures Agrees(DecodeLeaf(b, old(pos), sig, i), r, i + 1)
    {
      hide ReadFixed, ReadString, ReadSig, FixedValue;
      var t := sig[i];
      if FixedSize(t) != 0 {
        var raw := Fixed(FixedSize(t));
        r := if raw.None? then None else Some(FixedValue(t, raw.value));
      } else if TextCode(t) {
        var s := StringValue();
        r := if s.None? then None else Some(if t == 's' as int then Str(s.value) else ObjectPath(s.value));
      } else if t == 'g' as int {
        var s := SigString();
        r := if s.None? then None else Some(Signature(s.value));
      } else {
        r := Some(Unsupported);
      }
    }

    method VariantAt() returns (r: Option<Value>)
      requires pos <= |b| + 1
      modifies this
      ensures forall i: nat :: Agrees(DecodeVariant(b, old(pos), i), r, i + 1)
      decreases |b| + 1 - pos, 0
    {
      hide ReadSig, Decode;
      var s := SigString();
      if s.None? {
        return None;
      }
      var v, _ := ValueAt(s.value, 0);
      r := if v.None? then None else Some(Variant(v.value));
    }

    method ArrayAt(sig: seq<byte>, elem: nat) returns (r: Option<Value>, j: nat)
      requires pos <= |b| + 1
      modifies this
      ensures Agrees(DecodeArray(b, old(pos), sig, elem), r, j)
      decreases |b| + 1 - pos, 0
    {
      hide ReadFixed, AlignPos, ElemAlignment, Decode;
      j := elem;
      var n := Fixed(4);
      if n.None? {
        return None, j;
      }
      Align(ElemAlignment(sig, elem));
      ghost var start := pos;
      var end := pos + n.value;
      var items: seq<Value> := [];
      AfterNil(DecodeItems(b, start, end, sig, elem, 0));
      while pos < end && pos < |b|
        invariant start <= pos <= |b| + 1 && |items| < ITEM_CAP
        invariant DecodeItems(b, start, end, sig, elem, 0)
               == After(items, DecodeItems(b, pos, end, sig, elem, |items|))
        decreases ITEM_CAP - |items|
      {
        var v, _ := ValueAt(sig, elem);
        if v.None? {
          return None, j;
        }
        if |items| + 1 < ITEM_CAP {
          AfterOne(items, v.value, DecodeItems(b, pos, end, sig, elem, |items| + 1));
        }
        items := items + [v.value];
        if |items| > 100_000 {
          break;
        }
      }
      assert items + [] == items;
      assert DecodeItems(b, start, end, sig, elem, 0) == Some(items);
      pos := if end < |b| then end else |b|;
      j := SkipType(sig, elem);
      r := Some(Array(items));
    }

    method StructAt(sig: seq<byte>, i: nat) returns (r: Option<Value>, j: nat)
      requires pos <= |b| + 1
      modifies this
      ensures Agrees(DecodeStruct(b, old(pos), sig, i), r, j)
      decreases |b| + 1 - pos, Remaining(sig, i), 3
    {
      hide Decode;
      ghost var start := pos;
      j := i;
      var items: seq<Value> := [];
      AfterFieldsNil(DecodeFields(b, start, sig, i));
      while j < |sig| && sig[j] != ')' as int
        invariant start <= pos <= |b| + 1 && i <= j
        invariant DecodeFields(b, start, sig, i) == AfterFields(items, DecodeFields(b, pos, sig, j))
        decreases Remaining(sig, j)
      {
        var v, k := ValueAt(sig, j);
        if v.None? {
          return None, k;
        }
        AfterFieldsOne(items, v.value, DecodeFields(b, pos, sig, k));
        items := items + [v.value];
        j := k;
      }
      assert items + [] == items;
      j := j + 1;
      r := Some(Struct(items));
    }

    method DictAt(sig: seq<byte>, i: nat) returns (r: Option<Value>, j: nat)
      requires pos <= |b| + 1
      modifies this
      ensures Agrees(DecodeDict(b, old(pos), sig, i), r, j)
      decreases |b| + 1 - pos, Remaining(sig, i), 3
    {
      hide Decode;
      var k, jk := ValueAt(sig, i);
      if k.None? {
        return None, jk;
      }
      var v, jv := ValueAt(sig, jk);
      if v.None? {
        return None, jv;
      }
      j := jv + 1;
      r := Some(DictEntry(k.value, v.value));
    }

    /** The loop of `Message::args` over a fresh cursor. */
    method Args(sig: seq<byte>) returns (out: seq<Value>)
      requires pos == 0
      modifies this
      ensures out == DecodeArgs(b, 0, sig, 0)
    {
      hide Decode;
      var i: nat := 0;
      out := [];
      while i < |sig|
        invariant pos <= |b| + 1 && DecodeArgs(b, 0, sig, 0) == out + DecodeArgs(b, pos, sig, i)
        decreases Remaining(sig, i)
      {
        var v, j := ValueAt(sig, i);
        if v.None? {
          break;
        }
        out := out + [v.value];
        i := j;
      }
    }
  }

  ghost function After(items: seq<Value>, rest: Option<seq<Value>>): Option<seq<Value>> {
    if rest.None? then None else Some(items + rest.value)
  }

  ghost function AfterFields(items: seq<Value>, rest: Option<(seq<Value>, nat, nat)>)
    : Option<(seq<Value>, nat, nat)>
  {
    if rest.None? then None else Some((items + rest.value.0, rest.value.1, rest.value.2))
  }

  lemma AfterNil(rest: Option<seq<Value>>)
    ensures After([], rest) == rest
  {
    if rest.Some? {
      assert [] + rest.value == rest.value;
    }
  }

  lemma AfterOne(items: seq<Value>, v: Value, rest: Option<seq<Value>>)
    ensures After(items, After([v], rest)) == After(items + [v], rest)
  {
    if rest.Some? {
      assert items + ([v] + rest.value) == items + [v] + rest.value;
    }
  }

  lemma AfterFieldsNil(rest: Option<(seq<Value>, nat, nat)>)
    ensures AfterFields([], rest) == rest
  {
    if rest.Some? {
      assert [] + rest.value.0 == rest.value.0;
    }
  }

  lemma AfterFieldsOne(items: seq<Value>, v: Value, rest: Option<(seq<Value>, nat, nat)>)
    ensures AfterFields(items, AfterFields([v], rest)) == AfterFields(items + [v], rest)
  {
    if rest.Some? {
      assert items + ([v] + rest.value.0) == items + [v] + rest.value.0;
    }
  }
}
