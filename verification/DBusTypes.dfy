/** Complete D-Bus types, their signature strings, and the decoder's two signature helpers. */
module DBusTypes {
  import opened Bytes

  datatype Ty =
    | FixedTy(code: byte)            // one of y b n q i u x t d h
    | TextTy(code: byte)             // s or o
    | SigTy                          // g
    | VariantTy                      // v
    | ArrayTy(elem: Ty)              // a...
    | StructTy(fields: seq<Ty>)      // (...)
    | DictTy(key: Ty, val: Ty)       // {..}

  /** Size, and alignment, of a fixed-size type; 0 for any other code. */
  function FixedSize(code: byte): (n: nat)
    ensures n != 0 ==> AlignSize(n)
  {
    if code == 'y' as int then 1
    else if code == 'n' as int || code == 'q' as int then 2
    else if code == 'b' as int || code == 'i' as int || code == 'u' as int || code == 'h' as int then 4
    else if code == 'x' as int || code == 't' as int || code == 'd' as int then 8
    else 0
  }

  predicate TextCode(code: byte) {
    code == 's' as int || code == 'o' as int
  }

  /** A complete type; the protocol has no empty struct. */
  predicate WellFormed(ty: Ty) {
    match ty
    case FixedTy(c) => FixedSize(c) != 0
    case TextTy(c) => TextCode(c)
    case SigTy => true
    case VariantTy => true
    case ArrayTy(e) => WellFormed(e)
    case StructTy(fs) => fs != [] && forall k :: 0 <= k < |fs| ==> WellFormed(fs[k])
    case DictTy(k, v) => WellFormed(k) && WellFormed(v)
  }

  function Sig(ty: Ty): (s: seq<byte>)
    ensures |s| > 0
    decreases ty, 1
  {
    match ty
    case FixedTy(c) => [c]
    case TextTy(c) => [c]
    case SigTy => ['g' as int]
    case VariantTy => ['v' as int]
    case ArrayTy(e) => ['a' as int] + Sig(e)
    case StructTy(fs) => ['(' as int] + SigAll(fs) + [')' as int]
    case DictTy(k, v) => ['{' as int] + (Sig(k) + Sig(v)) + ['}' as int]
  }

  function SigAll(tys: seq<Ty>): (s: seq<byte>)
    decreases tys, 0
  {
    if tys == [] then [] else Sig(tys[0]) + SigAll(tys[1..])
  }

  /** `elem_alignment`: alignment of the type that starts at `sig[i]`. */
  function ElemAlignment(sig: seq<byte>, i: nat): (n: nat)
    ensures AlignSize(n)
  {
    var t := if i < |sig| then sig[i] else 'y' as int;
    if t == 'y' as int || t == 'g' as int || t == 'v' as int then 1
    else if t == 'n' as int || t == 'q' as int then 2
    else if t == 'b' as int || t == 'i' as int || t == 'u' as int || t == 's' as int || t == 'o' as int
            || t == 'a' as int || t == 'h' as int then 4
    else if t == 'x' as int || t == 't' as int || t == 'd' as int || t == '(' as int || t == '{' as int then 8
    else 1
  }

  /** Alignment of a type, read off the type itself. */
  function Alignment(ty: Ty): (n: nat)
    ensures AlignSize(n)
  {
    match ty
    case FixedTy(c) => if FixedSize(c) == 0 then 1 else FixedSize(c)
    case TextTy(_) => 4
    case SigTy => 1
    case VariantTy => 1
    case ArrayTy(_) => 4
    case StructTy(_) => 8
    case DictTy(_, _) => 8
  }

  lemma ElemAlignmentIsAlignment(ty: Ty, sig: seq<byte>, i: nat)
    requires WellFormed(ty) && At(sig, i, Sig(ty))
    ensures ElemAlignment(sig, i) == Alignment(ty)
  {
    assert sig[i] == sig[i..i + |Sig(ty)|][0] == Sig(ty)[0];
  }

  // ---- skip_type -------------------------------------------------------------------

  /** The bracket loop of `skip_type`: where scanning from `i` at bracket depth `depth` stops. */
  function Scan(sig: seq<byte>, i: nat, open: byte, close: byte, depth: nat): (r: nat)
    ensures i <= r && (i <= |sig| ==> r <= |sig|)
    decreases |sig| - i
  {
    if i < |sig| && depth > 0 then
      Scan(sig, i + 1, open, close,
           if sig[i] == open then depth + 1 else if sig[i] == close then depth - 1 else depth)
    else i
  }

  /** `skip_type` as a function from index to index. */
  function SkipType(sig: seq<byte>, i: nat): (r: nat)
    ensures i <= r && (i <= |sig| ==> r <= |sig|)
    decreases |sig| - i
  {
    if i >= |sig| then i
    else if sig[i] == 'a' as int then SkipType(sig, i + 1)
    else if sig[i] == '(' as int || sig[i] == '{' as int then
      Scan(sig, i + 1, sig[i], if sig[i] == '(' as int then ')' as int else '}' as int, 1)
    else i + 1
  }

  predicate Brackets(open: byte, close: byte) {
    (open == '(' as int && close == ')' as int) || (open == '{' as int && close == '}' as int)
  }

  lemma BracketParts(sig: seq<byte>, i: nat, open: byte, inner: seq<byte>, close: byte)
    requires At(sig, i, [open] + inner + [close])
    ensures i + |inner| + 2 <= |sig| && sig[i] == open && sig[i + 1 + |inner|] == close
    ensures At(sig, i + 1, inner)
  {
    var s := [open] + inner + [close];
    assert sig[i..i + |s|][0] == s[0];
    assert sig[i..i + |s|][1 + |inner|] == s[1 + |inner|];
    AtSplit(sig, i, [open] + inner, [close]);
    AtSplit(sig, i, [open], inner);
  }

  lemma ArrayParts(e: Ty, sig: seq<byte>, i: nat)
    requires At(sig, i, Sig(ArrayTy(e)))
    ensures |Sig(ArrayTy(e))| == 1 + |Sig(e)|
    ensures i < |sig| && sig[i] == 'a' as int && At(sig, i + 1, Sig(e))
  {
    AtSplit(sig, i, ['a' as int], Sig(e));
  }

  lemma StructParts(fs: seq<Ty>, sig: seq<byte>, i: nat)
    requires At(sig, i, Sig(StructTy(fs)))
    ensures |Sig(StructTy(fs))| == |SigAll(fs)| + 2 && i + |SigAll(fs)| + 2 <= |sig|
    ensures sig[i] == '(' as int && sig[i + 1 + |SigAll(fs)|] == ')' as int
    ensures At(sig, i + 1, SigAll(fs))
  {
    BracketParts(sig, i, '(' as int, SigAll(fs), ')' as int);
  }

  lemma DictParts(k: Ty, v: Ty, sig: seq<byte>, i: nat)
    requires At(sig, i, Sig(DictTy(k, v)))
    ensures |Sig(DictTy(k, v))| == |Sig(k)| + |Sig(v)| + 2 && i + |Sig(k)| + |Sig(v)| + 2 <= |sig|
    ensures sig[i] == '{' as int && sig[i + 1 + |Sig(k)| + |Sig(v)|] == '}' as int
    ensures At(sig, i + 1, Sig(k)) && At(sig, i + 1 + |Sig(k)|, Sig(v))
  {
    BracketParts(sig, i, '{' as int, Sig(k) + Sig(v), '}' as int);
    AtSplit(sig, i + 1, Sig(k), Sig(v));
  }

  predicate SingleByte(ty: Ty) {
    ty.FixedTy? || ty.TextTy? || ty.SigTy? || ty.VariantTy?
  }

  /** A one-byte type is no bracket and no array. */
  lemma SingleByteSig(ty: Ty, sig: seq<byte>, i: nat)
    requires WellFormed(ty) && SingleByte(ty) && At(sig, i, Sig(ty))
    ensures |Sig(ty)| == 1 && i < |sig| && sig[i] == Sig(ty)[0]
    ensures sig[i] != 'a' as int && sig[i] != '(' as int && sig[i] != ')' as int
    ensures sig[i] != '{' as int && sig[i] != '}' as int
  {
    assert |Sig(ty)| == 1;
    assert sig[i] == sig[i..i + 1][0];
  }

  lemma ScanSingle(ty: Ty, sig: seq<byte>, i: nat, open: byte, close: byte, depth: nat)
    requires WellFormed(ty) && SingleByte(ty) && At(sig, i, Sig(ty))
    requires Brackets(open, close) && depth > 0
    ensures Scan(sig, i, open, close, depth) == Scan(sig, i + |Sig(ty)|, open, close, depth)
    ensures SkipType(sig, i) == i + |Sig(ty)|
  {
    SingleByteSig(ty, sig, i);
  }

  lemma ScanArray(sig: seq<byte>, i: nat, open: byte, close: byte, depth: nat)
    requires i < |sig| && sig[i] == 'a' as int && Brackets(open, close) && depth > 0
    ensures Scan(sig, i, open, close, depth) == Scan(sig, i + 1, open, close, depth)
  {
  }

  /** If scanning crosses `n` bytes at every positive depth, it also crosses them in brackets. */
  lemma ScanBracketed(sig: seq<byte>, i: nat, n: nat, b: byte, e: byte, open: byte, close: byte, depth: nat)
    requires Brackets(open, close) && Brackets(b, e) && depth > 0
    requires i + n + 2 <= |sig| && sig[i] == b && sig[i + 1 + n] == e
    requires var d := if open == b then depth + 1 else depth;
      Scan(sig, i + 1, open, close, d) == Scan(sig, i + 1 + n, open, close, d)
    ensures Scan(sig, i, open, close, depth) == Scan(sig, i + n + 2, open, close, depth)
  {
  }

  lemma SkipBracketed(sig: seq<byte>, i: nat, n: nat, b: byte, e: byte)
    requires Brackets(b, e) && i + n + 2 <= |sig| && sig[i] == b && sig[i + 1 + n] == e
    requires Scan(sig, i + 1, b, e, 1) == Scan(sig, i + 1 + n, b, e, 1)
    ensures SkipType(sig, i) == i + n + 2
  {
  }

  /** Scanning across a whole type changes neither depth nor goal: signatures are balanced. */
  lemma {:induction false} ScanType(ty: Ty, sig: seq<byte>, i: nat, open: byte, close: byte, depth: nat)
    requires WellFormed(ty) && At(sig, i, Sig(ty)) && Brackets(open, close) && depth > 0
    ensures Scan(sig, i, open, close, depth) == Scan(sig, i + |Sig(ty)|, open, close, depth)
    decreases ty, 1
  {
    hide Scan;
    match ty
    case ArrayTy(e) =>
      ArrayParts(e, sig, i);
      ScanArray(sig, i, open, close, depth);
      ScanType(e, sig, i + 1, open, close, depth);
    case StructTy(fs) =>
      ScanStruct(fs, sig, i, open, close, depth);
    case DictTy(k, v) =>
      ScanDict(k, v, sig, i, open, close, depth);
    case _ =>
      ScanSingle(ty, sig, i, open, close, depth);
  }

  lemma {:induction false} ScanStruct(fs: seq<Ty>, sig: seq<byte>, i: nat, open: byte, close: byte, depth: nat)
    requires WellFormed(StructTy(fs)) && At(sig, i, Sig(StructTy(fs))) && Brackets(open, close) && depth > 0
    ensures Scan(sig, i, open, close, depth) == Scan(sig, i + |Sig(StructTy(fs))|, open, close, depth)
    decreases StructTy(fs), 0
  {
    hide Scan, Sig;
    StructParts(fs, sig, i);
    ScanTypes(fs, sig, i + 1, open, close, if open == '(' as int then depth + 1 else depth);
    ScanBracketed(sig, i, |SigAll(fs)|, '(' as int, ')' as int, open, close, depth);
  }

  lemma {:induction false} ScanDict(k: Ty, v: Ty, sig: seq<byte>, i: nat, open: byte, close: byte, depth: nat)
    requires WellFormed(DictTy(k, v)) && At(sig, i, Sig(DictTy(k, v))) && Brackets(open, close) && depth > 0
    ensures Scan(sig, i, open, close, depth) == Scan(sig, i + |Sig(DictTy(k, v))|, open, close, depth)
    decreases DictTy(k, v), 0
  {
    hide Scan, Sig;
    var d := if open == '{' as int then depth + 1 else depth;
    DictParts(k, v, sig, i);
    ScanType(k, sig, i + 1, open, close, d);
    ScanType(v, sig, i + 1 + |Sig(k)|, open, close, d);
    ScanBracketed(sig, i, |Sig(k)| + |Sig(v)|, '{' as int, '}' as int, open, close, depth);
  }

  lemma {:induction false} ScanTypes(tys: seq<Ty>, sig: seq<byte>, i: nat, open: byte, close: byte, depth: nat)
    requires forall k :: 0 <= k < |tys| ==> WellFormed(tys[k])
    requires At(sig, i, SigAll(tys)) && Brackets(open, close) && depth > 0
    ensures Scan(sig, i, open, close, depth) == Scan(sig, i + |SigAll(tys)|, open, close, depth)
    decreases tys, 0
  {
    hide Scan, Sig;
    if tys != [] {
      AtSplit(sig, i, Sig(tys[0]), SigAll(tys[1..]));
      ScanType(tys[0], sig, i, open, close, depth);
      ScanTypes(tys[1..], sig, i + |Sig(tys[0])|, open, close, depth);
    }
  }

  lemma SkipStruct(fs: seq<Ty>, sig: seq<byte>, i: nat)
    requires WellFormed(StructTy(fs)) && At(sig, i, Sig(StructTy(fs)))
    ensures SkipType(sig, i) == i + |Sig(StructTy(fs))|
  {
    hide Scan, SkipType, Sig;
    StructParts(fs, sig, i);
    ScanTypes(fs, sig, i + 1, '(' as int, ')' as int, 1);
    SkipBracketed(sig, i, |SigAll(fs)|, '(' as int, ')' as int);
  }

  lemma SkipDict(k: Ty, v: Ty, sig: seq<byte>, i: nat)
    requires WellFormed(DictTy(k, v)) && At(sig, i, Sig(DictTy(k, v)))
    ensures SkipType(sig, i) == i + |Sig(DictTy(k, v))|
  {
    hide Scan, SkipType, Sig;
    DictParts(k, v, sig, i);
    ScanType(k, sig, i + 1, '{' as int, '}' as int, 1);
    ScanType(v, sig, i + 1 + |Sig(k)|, '{' as int, '}' as int, 1);
    SkipBracketed(sig, i, |Sig(k)| + |Sig(v)|, '{' as int, '}' as int);
  }

  /** `skip_type` moves past exactly one complete type, however deeply it nests. */
  lemma {:induction false} SkipsExactlyOneType(ty: Ty, sig: seq<byte>, i: nat)
    requires WellFormed(ty) && At(sig, i, Sig(ty))
    ensures SkipType(sig, i) == i + |Sig(ty)|
  {
    match ty
    case ArrayTy(e) =>
      ArrayParts(e, sig, i);
      SkipsExactlyOneType(e, sig, i + 1);
    case StructTy(fs) =>
      SkipStruct(fs, sig, i);
    case DictTy(k, v) =>
      SkipDict(k, v, sig, i);
    case _ =>
      ScanSingle(ty, sig, i, '(' as int, ')' as int, 1);
  }
}
