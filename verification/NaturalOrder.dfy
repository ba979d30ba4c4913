/** Natural ordering of names: embedded numbers compare by value. */
module NaturalOrder {
  datatype Ordering = Less | Equal | Greater

  function Swap(o: Ordering): Ordering {
    match o
    case Less => Greater
    case Equal => Equal
    case Greater => Less
  }

  function CompareInt(x: int, y: int): Ordering {
    if x < y then Less else if x == y then Equal else Greater
  }

  const U64_MAX: nat := 0xFFFF_FFFF_FFFF_FFFF

  predicate IsDigit(c: char) { '0' <= c <= '9' }

  function Digit(c: char): (d: nat)
    requires IsDigit(c)
    ensures d < 10
  {
    c as int - '0' as int
  }

  function Saturate(n: nat): nat { if n < U64_MAX then n else U64_MAX }

  // ---- the meaning: compare token by token ------------------------------------------------

  datatype Token = Number(n: nat) | Letter(c: char)

  /** Length of the digit run at the start of `s`. */
  function RunLength(s: string): (n: nat)
    ensures n <= |s| && (forall i :: 0 <= i < n ==> IsDigit(s[i])) && (n < |s| ==> !IsDigit(s[n]))
  {
    if s == [] || !IsDigit(s[0]) then 0 else 1 + RunLength(s[1..])
  }

  /** Decimal value of a digit string. */
  function Decimal(s: string): nat
    requires forall i :: 0 <= i < |s| ==> IsDigit(s[i])
  {
    if s == [] then 0 else 10 * Decimal(s[..|s| - 1]) + Digit(s[|s| - 1])
  }

  /** Digit runs as numbers, everything else character by character. */
  function Tokens(s: string): seq<Token>
    decreases |s|
  {
    if s == [] then []
    else if IsDigit(s[0]) then
      var n := RunLength(s);
      [Number(Saturate(Decimal(s[..n])))] + Tokens(s[n..])
    else [Letter(s[0])] + Tokens(s[1..])
  }

  /** A number stands where its digits stand among the characters; numbers compare by value. */
  function CompareToken(x: Token, y: Token): Ordering {
    var rx := if x.Number? then '0' as int else x.c as int;
    var ry := if y.Number? then '0' as int else y.c as int;
    if rx != ry then CompareInt(rx, ry)
    else if x.Number? && y.Number? then CompareInt(x.n, y.n)
    else CompareInt(if x.Number? then 1 else 0, if y.Number? then 1 else 0)
  }

  /** Lexicographic comparison; a proper prefix comes first. */
  function Compare(x: seq<Token>, y: seq<Token>): Ordering
    decreases |x|
  {
    if x == [] && y == [] then Equal
    else if x == [] then Less
    else if y == [] then Greater
    else
      var o := CompareToken(x[0], y[0]);
      if o != Equal then o else Compare(x[1..], y[1..])
  }

  function Natural(a: string, b: string): Ordering {
    Compare(Tokens(a), Tokens(b))
  }

  // ---- the comparison as the program runs it -----------------------------------------------

  /** The accumulator of the digit loop after one more digit: multiply and add, both saturating. */
  function Accumulate(acc: nat, c: char): nat
    requires IsDigit(c)
  {
    Saturate(Saturate(acc * 10) + Digit(c))
  }

  lemma AccumulateIsDecimal(s: string, n: nat)
    requires n < |s| && forall i :: 0 <= i <= n ==> IsDigit(s[i])
    ensures Accumulate(Saturate(Decimal(s[..n])), s[n]) == Saturate(Decimal(s[..n + 1]))
  {
    assert s[..n + 1][..n] == s[..n];
  }

  /** The inner loop: consume a digit run, saturating. */
  method ReadNumber(s: string, i: nat) returns (value: nat, j: nat)
    requires i < |s| && IsDigit(s[i])
    ensures j == i + RunLength(s[i..]) && i < j <= |s|
    ensures value == Saturate(Decimal(s[i..][..j - i]))
  {
    ghost var run := s[i..];
    value := 0;
    j := i;
    while j < |s| && IsDigit(s[j])
      invariant i <= j <= i + RunLength(run)
      invariant value == Saturate(Decimal(run[..j - i]))
    {
      assert s[j] == run[j - i];
      RunCovers(run, j - i);
      AccumulateIsDecimal(run, j - i);
      value := Accumulate(value, s[j]);
      j := j + 1;
    }
    assert j < |s| ==> s[j] == run[j - i];
  }

  lemma {:induction false} RunCovers(s: string, k: nat)
    requires k <= RunLength(s) && k < |s| && IsDigit(s[k])
    ensures k < RunLength(s)
  {
  }

  lemma NumberStep(s: string)
    requires s != [] && IsDigit(s[0])
    ensures RunLength(s) > 0
    ensures Tokens(s) == [Number(Saturate(Decimal(s[..RunLength(s)])))] + Tokens(s[RunLength(s)..])
  {
  }

  lemma LetterStep(s: string)
    requires s != [] && !IsDigit(s[0])
    ensures Tokens(s) == [Letter(s[0])] + Tokens(s[1..])
  {
  }

  /** `natural_cmp` */
  method NaturalCmp(a: string, b: string) returns (o: Ordering)
    ensures o == Natural(a, b)
  {
    hide Tokens, Decimal, RunLength;
    var i: nat, j: nat := 0, 0;
    assert a[0..] == a && b[0..] == b;
    while true
      invariant i <= |a| && j <= |b| && Natural(a, b) == Compare(Tokens(a[i..]), Tokens(b[j..]))
      decreases |a| - i
    {
      if i == |a| || j == |b| {
        TokensEmpty(a[i..]);
        TokensEmpty(b[j..]);
        return if i == |a| && j == |b| then Equal else if i == |a| then Less else Greater;
      }
      var x, y := a[i], b[j];
      assert a[i..][0] == x && b[j..][0] == y;
      if IsDigit(x) && IsDigit(y) {
        NumberStep(a[i..]);
        NumberStep(b[j..]);
        var nx, i' := ReadNumber(a, i);
        var ny, j' := ReadNumber(b, j);
        assert a[i..][i' - i..] == a[i'..] && b[j..][j' - j..] == b[j'..];
        CompareCons(Number(nx), Tokens(a[i'..]), Number(ny), Tokens(b[j'..]));
        if nx != ny {
          return CompareInt(nx, ny);
        }
        i, j := i', j';
      } else {
        var tx, xs := FirstToken(a[i..]);
        var ty, ys := FirstToken(b[j..]);
        CompareCons(tx, xs, ty, ys);
        if x != y {
          return CompareInt(x as int, y as int);
        }
        assert a[i..][1..] == a[i + 1..] && b[j..][1..] == b[j + 1..];
        i, j := i + 1, j + 1;
      }
    }
  }

  lemma TokensEmpty(s: string)
    ensures Tokens(s) == [] <==> s == []
  {
  }

  /** The first token: a letter as it is, or a number that stands for its first digit's place. */
  lemma FirstToken(s: string) returns (t: Token, rest: seq<Token>)
    requires s != []
    ensures Tokens(s) == [t] + rest
    ensures IsDigit(s[0]) ==> t.Number?
    ensures !IsDigit(s[0]) ==> t == Letter(s[0]) && rest == Tokens(s[1..])
  {
    t, rest := Tokens(s)[0], Tokens(s)[1..];
  }

  lemma CompareCons(x: Token, xs: seq<Token>, y: Token, ys: seq<Token>)
    ensures Compare([x] + xs, [y] + ys)
         == if CompareToken(x, y) != Equal then CompareToken(x, y) else Compare(xs, ys)
  {
    assert ([x] + xs)[1..] == xs && ([y] + ys)[1..] == ys;
  }

  // ---- a total preorder ------------------------------------------------------------------------

  lemma {:induction false} CompareSwaps(x: seq<Token>, y: seq<Token>)
    ensures Compare(y, x) == Swap(Compare(x, y))
    decreases |x|
  {
    if x != [] && y != [] {
      CompareSwaps(x[1..], y[1..]);
    }
  }

  lemma {:induction false} CompareEqual(x: seq<Token>, y: seq<Token>)
    requires WellFormed(x) && WellFormed(y)
    ensures Compare(x, y) == Equal <==> x == y
    decreases |x|
  {
    if x != [] && y != [] {
      CompareEqual(x[1..], y[1..]);
      assert x == [x[0]] + x[1..] && y == [y[0]] + y[1..];
    }
  }

  /** No letter token is a digit. */
  predicate WellFormed(x: seq<Token>) {
    forall i :: 0 <= i < |x| && x[i].Letter? ==> !IsDigit(x[i].c)
  }

  lemma {:induction false} TokensWellFormed(s: string)
    ensures WellFormed(Tokens(s))
    decreases |s|
  {
    if s != [] {
      if IsDigit(s[0]) {
        NumberStep(s);
        TokensWellFormed(s[RunLength(s)..]);
      } else {
        TokensWellFormed(s[1..]);
      }
    }
  }

  lemma {:induction false} CompareTransitive(x: seq<Token>, y: seq<Token>, z: seq<Token>)
    requires Compare(x, y) != Greater && Compare(y, z) != Greater
    ensures Compare(x, z) != Greater
    ensures Compare(x, y) == Less || Compare(y, z) == Less ==> Compare(x, z) == Less
    decreases |x|
  {
    if x != [] && y != [] && z != [] {
      if CompareToken(x[0], y[0]) == Equal && CompareToken(y[0], z[0]) == Equal {
        CompareTransitive(x[1..], y[1..], z[1..]);
      }
    }
  }

  /**
   * `natural_cmp` is a total preorder: swapping the arguments swaps the answer, the order is
   * transitive, and two names are equal exactly when their token sequences are.
   */
  lemma TotalPreorder(a: string, b: string, c: string)
    ensures Natural(b, a) == Swap(Natural(a, b))
    ensures Natural(a, b) == Equal <==> Tokens(a) == Tokens(b)
    ensures Natural(a, b) != Greater && Natural(b, c) != Greater ==> Natural(a, c) != Greater
    ensures Natural(a, b) != Greater && Natural(b, c) != Greater && (Natural(a, b) == Less || Natural(b, c) == Less)
      ==> Natural(a, c) == Less
  {
    hide Tokens, Compare, WellFormed;
    CompareSwaps(Tokens(a), Tokens(b));
    TokensWellFormed(a);
    TokensWellFormed(b);
    CompareEqual(Tokens(a), Tokens(b));
    if Natural(a, b) != Greater && Natural(b, c) != Greater {
      CompareTransitive(Tokens(a), Tokens(b), Tokens(c));
    }
  }

  // ---- numbers at the end of a common name ---------------------------------------------------------

  predicate AllDigits(s: string) {
    s != [] && forall i :: 0 <= i < |s| ==> IsDigit(s[i])
  }

  lemma {:induction false} RunOfDigits(s: string)
    requires AllDigits(s)
    ensures RunLength(s) == |s| && Tokens(s) == [Number(Saturate(Decimal(s)))]
  {
    var n := RunLength(s);
    assert n == |s|;
    assert s[..|s|] == s && s[|s|..] == [];
  }

  lemma {:induction false} RunStops(p: string, d: string)
    requires p != [] && !IsDigit(p[|p| - 1])
    ensures RunLength(p + d) == RunLength(p) < |p|
    decreases |p|
  {
    if IsDigit(p[0]) {
      assert (p + d)[1..] == p[1..] + d;
      RunStops(p[1..], d);
    }
  }

  lemma {:induction false} TokensAppend(p: string, d: string)
    requires p == [] || !IsDigit(p[|p| - 1])
    ensures Tokens(p + d) == Tokens(p) + Tokens(d)
    decreases |p|
  {
    hide Decimal, Tokens, RunLength;
    TokensEmpty(p);
    if p == [] {
      assert p + d == d;
    } else if IsDigit(p[0]) {
      RunStops(p, d);
      var n := RunLength(p);
      NumberStep(p);
      NumberStep(p + d);
      assert (p + d)[..n] == p[..n] && (p + d)[n..] == p[n..] + d;
      TokensAppend(p[n..], d);
    } else {
      LetterStep(p);
      LetterStep(p + d);
      assert (p + d)[1..] == p[1..] + d;
      TokensAppend(p[1..], d);
    }
  }

  lemma {:induction false} CompareSamePrefix(p: seq<Token>, x: seq<Token>, y: seq<Token>)
    ensures Compare(p + x, p + y) == Compare(x, y)
    decreases |p|
  {
    if p == [] {
      assert p + x == x && p + y == y;
    } else {
      assert (p + x)[1..] == p[1..] + x && (p + y)[1..] == p[1..] + y;
      CompareSamePrefix(p[1..], x, y);
    }
  }

  /** `cpu2` sorts before `cpu10`: after a common name, numbers order by value (up to the largest u64). */
  lemma NumberedNames(name: string, d: string, e: string)
    requires (name == [] || !IsDigit(name[|name| - 1])) && AllDigits(d) && AllDigits(e)
    ensures Natural(name + d, name + e) == CompareInt(Saturate(Decimal(d)), Saturate(Decimal(e)))
  {
    TokensAppend(name, d);
    TokensAppend(name, e);
    RunOfDigits(d);
    RunOfDigits(e);
    CompareSamePrefix(Tokens(name), Tokens(d), Tokens(e));
    CompareCons(Number(Saturate(Decimal(d))), [], Number(Saturate(Decimal(e))), []);
    assert [Number(Saturate(Decimal(d)))] + [] == Tokens(d) && [Number(Saturate(Decimal(e)))] + [] == Tokens(e);
  }
}
