/** The natural order in terms of names as people write them. */
module NaturalNames {
  import opened NaturalOrder

  const DIGITS: string := "0123456789"

  /** A number in decimal notation. */
  function Written(n: nat): (s: string)
    ensures s != []
  {
    if n < 10 then [DIGITS[n]] else Written(n / 10) + [DIGITS[n % 10]]
  }

  lemma DigitOf(d: nat)
    requires d < 10
    ensures IsDigit(DIGITS[d]) && Digit(DIGITS[d]) == d
  {
    if d < 5 {
      assert d == 0 || d == 1 || d == 2 || d == 3 || d == 4;
    } else {
      assert d == 5 || d == 6 || d == 7 || d == 8 || d == 9;
    }
  }

  /** Reading a written number gives it back. */
  lemma {:induction false} ReadsWritten(n: nat)
    ensures AllDigits(Written(n)) && Decimal(Written(n)) == n
  {
    DigitOf(n % 10);
    if n >= 10 {
      ReadsWritten(n / 10);
      var s := Written(n);
      assert s[..|s| - 1] == Written(n / 10);
    } else {
      assert [DIGITS[n]][..0] == [];
      assert n % 10 == n;
    }
  }

  /** The two parts of a name do not run into one number. */
  predicate Apart(p: string, d: string) {
    p == [] || d == [] || !IsDigit(p[|p| - 1]) || !IsDigit(d[0])
  }

  lemma {:induction false} RunWithin(p: string, d: string)
    requires p != [] && Apart(p, d)
    ensures RunLength(p + d) == RunLength(p)
    decreases |p|
  {
    if IsDigit(p[0]) {
      assert (p + d)[1..] == p[1..] + d;
      if |p| > 1 {
        RunWithin(p[1..], d);
      } else {
        assert p[1..] == [] && [] + d == d;
      }
    }
  }

  lemma {:induction false} TokensOfParts(p: string, d: string)
    requires Apart(p, d)
    ensures Tokens(p + d) == Tokens(p) + Tokens(d)
    decreases |p|
  {
    hide Decimal, Tokens, RunLength;
    TokensEmpty(p);
    if p == [] {
      assert p + d == d;
    } else if IsDigit(p[0]) {
      RunWithin(p, d);
      var n := RunLength(p);
      NumberStep(p);
      NumberStep(p + d);
      assert (p + d)[..n] == p[..n] && (p + d)[n..] == p[n..] + d;
      TokensOfParts(p[n..], d);
    } else {
      LetterStep(p);
      LetterStep(p + d);
      assert (p + d)[1..] == p[1..] + d;
      TokensOfParts(p[1..], d);
    }
  }

  /** After a common name numbers that fit 64 bits order by value. */
  lemma NumbersInOrder(name: string, m: nat, n: nat)
    requires name == [] || !IsDigit(name[|name| - 1])
    requires m <= 18_446_744_073_709_551_615 && n <= 18_446_744_073_709_551_615
    ensures Natural(name + Written(m), name + Written(n)) == if m < n then Less else if m == n then Equal else Greater
  {
    hide Natural, Decimal;
    ReadsWritten(m);
    ReadsWritten(n);
    NumberedNames(name, Written(m), Written(n));
  }

  /** Larger ones are all equal to it. */
  lemma HugeNumbersAreEqual(name: string, m: nat, n: nat)
    requires name == [] || !IsDigit(name[|name| - 1])
    requires m >= 18_446_744_073_709_551_615 && n >= 18_446_744_073_709_551_615
    ensures Natural(name + Written(m), name + Written(n)) == Equal
  {
    hide Natural, Decimal;
    ReadsWritten(m);
    ReadsWritten(n);
    NumberedNames(name, Written(m), Written(n));
  }

  /** A name comes before every longer name that starts with it. */
  lemma PrefixFirst(name: string, more: string)
    requires Apart(name, more) && more != []
    ensures Natural(name, name + more) == Less
  {
    hide Tokens, Compare;
    TokensOfParts(name, more);
    TokensEmpty(more);
    CompareSamePrefix(Tokens(name), [], Tokens(more));
    assert Tokens(name) + [] == Tokens(name);
    NothingFirst(Tokens(more));
  }

  lemma NothingFirst(x: seq<Token>)
    requires x != []
    ensures Compare([], x) == Less
  {
  }

  /** After a common name the first character that differs decides, unless both are digits. */
  lemma FirstDifferenceDecides(name: string, x: string, y: string)
    requires x != [] && y != [] && Apart(name, x) && Apart(name, y)
    requires x[0] < y[0] && !(IsDigit(x[0]) && IsDigit(y[0]))
    ensures Natural(name + x, name + y) == Less
  {
    hide Tokens, Compare;
    TokensOfParts(name, x);
    TokensOfParts(name, y);
    CompareSamePrefix(Tokens(name), Tokens(x), Tokens(y));
    var tx, xs := FirstToken(x);
    var ty, ys := FirstToken(y);
    CompareCons(tx, xs, ty, ys);
  }
}
