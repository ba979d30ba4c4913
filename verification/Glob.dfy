/** The glob matcher: one remembered star is enough, and exactly for which texts. */
module Glob {
  import opened Wrappers

  function LowerChar(c: char): char {
    if 'A' <= c <= 'Z' then c - 'A' + 'a' else c
  }

  /** `to_ascii_lowercase` */
  function Lower(s: string): (r: string)
    ensures |r| == |s| && forall i :: 0 <= i < |s| ==> r[i] == LowerChar(s[i])
  {
    seq(|s|, i requires 0 <= i < |s| => LowerChar(s[i]))
  }

  /** What a pattern means: `*` any run, `?` any one character, anything else itself. */
  predicate Matches(p: string, t: string)
    decreases |p| + |t|
  {
    if p == [] then t == []
    else if p[0] == '*' then Matches(p[1..], t) || (t != [] && Matches(p, t[1..]))
    else t != [] && (p[0] == '?' || p[0] == t[0]) && Matches(p[1..], t[1..])
  }

  /** The trailing loop: only stars are left. */
  predicate OnlyStars(p: string) {
    forall i :: 0 <= i < |p| ==> p[i] == '*'
  }

  /** The state of the matching loop: positions, and the last star with the text position it stands for. */
  datatype State = State(pi: nat, ti: nat, star: Option<nat>, mark: nat)

  predicate Within(p: string, t: string, s: State) {
    s.pi <= |p| && s.ti <= |t| && s.mark <= s.ti && (s.star.Some? ==> s.star.value < s.pi)
  }

  predicate CharStep(p: string, t: string, s: State) {
    s.pi < |p| && s.ti < |t| && (p[s.pi] == '?' || p[s.pi] == t[s.ti])
  }

  predicate StarStep(p: string, s: State) {
    s.pi < |p| && p[s.pi] == '*'
  }

  function StarsLeft(p: string, s: State): int {
    |p| - (if s.star.Some? then s.star.value + 1 else 0)
  }

  /** The matching loop as a function of its state. */
  function Scan(p: string, t: string, s: State): bool
    requires Within(p, t, s)
    decreases StarsLeft(p, s), |t| - s.mark, |p| - s.pi
  {
    if s.ti >= |t| then OnlyStars(p[s.pi..])
    else if CharStep(p, t, s) then Scan(p, t, State(s.pi + 1, s.ti + 1, s.star, s.mark))
    else if StarStep(p, s) then Scan(p, t, State(s.pi + 1, s.ti, Some(s.pi), s.ti))
    else if s.star.Some? then Scan(p, t, State(s.star.value + 1, s.mark + 1, s.star, s.mark + 1))
    else false
  }

  const START: State := State(0, 0, None, 0)

  function Glob(pattern: string, text: string): bool {
    Scan(Lower(pattern), Lower(text), START)
  }

  /** `glob_match` */
  method GlobMatch(pattern: string, text: string) returns (r: bool)
    ensures r == Glob(pattern, text)
  {
    var p, t := Lower(pattern), Lower(text);
    var pi: nat, ti: nat := 0, 0;
    var star: Option<nat>, mark: nat := None, 0;
    while ti < |t|
      invariant Within(p, t, State(pi, ti, star, mark))
      invariant Scan(p, t, START) == Scan(p, t, State(pi, ti, star, mark))
      decreases StarsLeft(p, State(pi, ti, star, mark)), |t| - mark, |p| - pi
    {
      if pi < |p| && (p[pi] == '?' || p[pi] == t[ti]) {
        pi := pi + 1;
        ti := ti + 1;
      } else if pi < |p| && p[pi] == '*' {
        star := Some(pi);
        mark := ti;
        pi := pi + 1;
      } else if star.Some? {
        pi := star.value + 1;
        mark := mark + 1;
        ti := mark;
      } else {
        return false;
      }
    }
    ghost var rest := p[pi..];
    ghost var at := pi;
    while pi < |p| && p[pi] == '*'
      invariant at <= pi <= |p| && forall i :: at <= i < pi ==> p[i] == '*'
    {
      pi := pi + 1;
    }
    assert forall i :: 0 <= i < |rest| ==> rest[i] == p[at + i];
    if pi < |p| {
      assert rest[pi - at] == p[pi];
    }
    return pi == |p|;
  }

  // ---- facts about the meaning ----------------------------------------------------------

  lemma {:induction false} MatchesEmpty(p: string)
    ensures Matches(p, []) <==> OnlyStars(p)
    decreases |p|
  {
    if p != [] {
      MatchesEmpty(p[1..]);
      assert OnlyStars(p) <==> p[0] == '*' && OnlyStars(p[1..]) by {
        if OnlyStars(p[1..]) && p[0] == '*' {
          forall i | 0 <= i < |p| ensures p[i] == '*' {
            if i > 0 {
              assert p[1..][i - 1] == p[i];
            }
          }
        }
      }
    }
  }

  /** A leading star absorbs any further text in front. */
  lemma {:induction false} StarAbsorbs(p: string, t: string, i: nat, j: nat)
    requires p != [] && p[0] == '*' && i <= j <= |t| && Matches(p, t[j..])
    ensures Matches(p, t[i..])
    decreases j - i
  {
    if i < j {
      StarAbsorbs(p, t, i + 1, j);
      assert t[i..][1..] == t[i + 1..];
    }
  }

  /** Pattern characters `a..b` are no stars and each fits the text character it stands over. */
  ghost predicate Fits(p: string, t: string, a: nat, b: nat, k: nat) {
    a <= b <= |p| && k + (b - a) <= |t| &&
    forall j :: a <= j < b ==> p[j] != '*' && (p[j] == '?' || p[j] == t[k + (j - a)])
  }

  /** Over a star-free stretch that fits, matching moves along both strings together. */
  lemma {:induction false} Along(p: string, t: string, a: nat, b: nat, k: nat)
    requires Fits(p, t, a, b, k)
    ensures Matches(p[a..], t[k..]) <==> Matches(p[b..], t[k + (b - a)..])
    decreases b - a
  {
    if a < b {
      assert p[a..][0] == p[a] && t[k..][0] == t[k];
      assert p[a..][1..] == p[a + 1..] && t[k..][1..] == t[k + 1..];
      Along(p, t, a + 1, b, k + 1);
    }
  }

  /** If a star-free stretch of pattern begins a match at `k`, the stretch fits there. */
  lemma {:induction false} MatchFits(p: string, t: string, a: nat, b: nat, k: nat)
    requires a <= b <= |p| && k <= |t| && Matches(p[a..], t[k..])
    requires forall j :: a <= j < b ==> p[j] != '*'
    ensures Fits(p, t, a, b, k)
    decreases b - a
  {
    if a < b {
      assert p[a..][0] == p[a];
      assert t[k..][0] == t[k] && p[a..][1..] == p[a + 1..] && t[k..][1..] == t[k + 1..];
      MatchFits(p, t, a + 1, b, k + 1);
      forall j | a <= j < b ensures p[j] == '?' || p[j] == t[k + (j - a)] {
        if j > a {
          assert p[j] == '?' || p[j] == t[k + 1 + (j - (a + 1))];
        }
      }
    }
  }

  /** A star matches exactly when the rest of the pattern matches somewhere further on. */
  lemma {:induction false} StarPlace(p: string, t: string, s: nat, m: nat) returns (k: nat)
    requires s < |p| && p[s] == '*' && m <= |t| && Matches(p[s..], t[m..])
    ensures m <= k <= |t| && Matches(p[s + 1..], t[k..])
    decreases |t| - m
  {
    assert p[s..][1..] == p[s + 1..];
    if Matches(p[s + 1..], t[m..]) {
      k := m;
    } else {
      assert t[m..][1..] == t[m + 1..];
      k := StarPlace(p, t, s, m + 1);
    }
  }

  // ---- one star is enough -----------------------------------------------------------------

  /** The text position and pattern suffix the whole question has been reduced to. */
  ghost predicate Reduced(p: string, t: string, s: State) {
    Within(p, t, s) &&
    match s.star
    case None => Matches(p, t) <==> Matches(p[s.pi..], t[s.ti..])
    case Some(x) =>
      p[x] == '*' && s.ti - s.mark == s.pi - (x + 1) && Fits(p, t, x + 1, s.pi, s.mark)
      && (Matches(p, t) <==> Matches(p[x..], t[s.mark..]))
  }

  lemma CharKeeps(p: string, t: string, s: State)
    requires Reduced(p, t, s) && CharStep(p, t, s) && p[s.pi] != '*'
    ensures Reduced(p, t, State(s.pi + 1, s.ti + 1, s.star, s.mark))
  {
    assert p[s.pi..][0] == p[s.pi] && t[s.ti..][0] == t[s.ti];
    assert p[s.pi..][1..] == p[s.pi + 1..] && t[s.ti..][1..] == t[s.ti + 1..];
  }

  /** A new star may forget the old one: what stood between them keeps its earliest place. */
  lemma StarKeeps(p: string, t: string, s: State)
    requires Reduced(p, t, s) && StarStep(p, s)
    ensures Reduced(p, t, State(s.pi + 1, s.ti, Some(s.pi), s.ti))
  {
    if s.star.Some? {
      var x := s.star.value;
      if Matches(p[s.pi..], t[s.ti..]) {
        Along(p, t, x + 1, s.pi, s.mark);
        assert p[x..][1..] == p[x + 1..];
      }
      if Matches(p[x..], t[s.mark..]) {
        var k := StarPlace(p, t, x, s.mark);
        MatchFits(p, t, x + 1, s.pi, k);
        Along(p, t, x + 1, s.pi, k);
        assert p[s.pi..][0] == '*';
        StarAbsorbs(p[s.pi..], t, s.ti, k + (s.pi - (x + 1)));
      }
    }
  }

  /** A mismatch rules out the star's current place, so it has to stand for one more character. */
  lemma BackKeeps(p: string, t: string, s: State)
    requires Reduced(p, t, s) && s.ti < |t| && !CharStep(p, t, s) && !StarStep(p, s) && s.star.Some?
    ensures Reduced(p, t, State(s.star.value + 1, s.mark + 1, s.star, s.mark + 1))
  {
    var x := s.star.value;
    assert p[x..][1..] == p[x + 1..] && t[s.mark..][1..] == t[s.mark + 1..];
    Along(p, t, x + 1, s.pi, s.mark);
    Stuck(p, t, s);
  }

  lemma Stuck(p: string, t: string, s: State)
    requires Within(p, t, s) && s.ti < |t| && !CharStep(p, t, s) && !StarStep(p, s)
    ensures !Matches(p[s.pi..], t[s.ti..])
  {
    if s.pi < |p| {
      assert p[s.pi..][0] == p[s.pi] && t[s.ti..][0] == t[s.ti];
    }
  }

  lemma EndDecides(p: string, t: string, s: State)
    requires Reduced(p, t, s) && s.ti == |t|
    ensures Matches(p, t) <==> OnlyStars(p[s.pi..])
  {
    MatchesEmpty(p[s.pi..]);
    assert t[s.ti..] == [];
    if s.star.Some? {
      var x := s.star.value;
      Along(p, t, x + 1, s.pi, s.mark);
      assert p[x..][1..] == p[x + 1..];
      if Matches(p[x..], t[s.mark..]) {
        var k := StarPlace(p, t, x, s.mark);
        MatchFits(p, t, x + 1, s.pi, k);
      }
    }
  }

  /** From any reduced state the loop decides the match, if no star of the pattern meets a star of the text. */
  lemma {:induction false} ScanDecides(p: string, t: string, s: State)
    requires Reduced(p, t, s) && ('*' !in t || '*' !in p)
    ensures Scan(p, t, s) <==> Matches(p, t)
    decreases StarsLeft(p, s), |t| - s.mark, |p| - s.pi
  {
    hide Reduced, Matches;
    assert Within(p, t, s) by {
      ReducedWithin(p, t, s);
    }
    if s.ti >= |t| {
      EndDecides(p, t, s);
    } else if CharStep(p, t, s) {
      assert t[s.ti] in t && p[s.pi] in p;
      CharKeeps(p, t, s);
      ScanDecides(p, t, State(s.pi + 1, s.ti + 1, s.star, s.mark));
    } else if StarStep(p, s) {
      StarKeeps(p, t, s);
      ScanDecides(p, t, State(s.pi + 1, s.ti, Some(s.pi), s.ti));
    } else if s.star.Some? {
      BackKeeps(p, t, s);
      ScanDecides(p, t, State(s.star.value + 1, s.mark + 1, s.star, s.mark + 1));
    } else {
      Stuck(p, t, s);
      NoStarReduced(p, t, s);
    }
  }

  lemma ReducedWithin(p: string, t: string, s: State)
    requires Reduced(p, t, s)
    ensures Within(p, t, s)
  {
  }

  lemma NoStarReduced(p: string, t: string, s: State)
    requires Reduced(p, t, s) && s.star.None?
    ensures Matches(p, t) <==> Matches(p[s.pi..], t[s.ti..])
  {
  }

  lemma LowerStars(s: string)
    ensures '*' in Lower(s) <==> '*' in s
  {
    if '*' in s {
      var i :| 0 <= i < |s| && s[i] == '*';
      assert Lower(s)[i] == '*';
    }
    if '*' in Lower(s) {
      var i :| 0 <= i < |s| && Lower(s)[i] == '*';
      assert s[i] == '*';
    }
  }

  /** The matcher is right whenever the text, or the pattern, has no `*`. */
  lemma GlobIsRight(pattern: string, text: string)
    requires '*' !in text || '*' !in pattern
    ensures Glob(pattern, text) <==> Matches(Lower(pattern), Lower(text))
  {
    var p, t := Lower(pattern), Lower(text);
    LowerStars(pattern);
    LowerStars(text);
    assert p[0..] == p && t[0..] == t;
    ScanDecides(p, t, START);
  }

  // ---- exactly for these texts --------------------------------------------------------------

  function Questions(n: nat): (s: string)
    ensures |s| == n && forall i :: 0 <= i < n ==> s[i] == '?'
  {
    seq(n, _ => '?')
  }

  /** The pattern that goes wrong on a text of length `n` whose character `k` is a star. */
  function Trap(n: nat, k: nat): string
    requires k < n
  {
    Questions(k) + "*" + Questions(n - k)
  }

  lemma {:induction false} TrapMisses(t: string, k: nat, j: nat)
    requires k < |t| && t[k] == '*' && j <= |t|
    ensures !Scan(Trap(|t|, k), t, State(j, j, None, 0))
    decreases |t| - j
  {
    var p := Trap(|t|, k);
    if j < |t| {
      assert j == k ==> p[j] == '*' == t[j];
      TrapMisses(t, k, j + 1);
    } else {
      assert p[j..][0] == '?';
    }
  }

  lemma {:induction false} QuestionsMatch(t: string)
    ensures Matches(Questions(|t|), t)
    decreases |t|
  {
    if t != [] {
      assert Questions(|t|)[1..] == Questions(|t[1..]|);
      QuestionsMatch(t[1..]);
    }
  }

  lemma {:induction false} TrapMatches(t: string, k: nat)
    requires k < |t|
    ensures Matches(Trap(|t|, k), t)
    decreases k
  {
    var p := Trap(|t|, k);
    if k == 0 {
      assert p[1..] == Questions(|t|);
      QuestionsMatch(t);
    } else {
      assert p[0] == '?' && p[1..] == Trap(|t[1..]|, k - 1);
      TrapMatches(t[1..], k - 1);
    }
  }

  /** A text is matched rightly by every pattern exactly when it holds no `*`. */
  lemma RightIffNoStarInText(text: string)
    ensures (forall pattern :: Glob(pattern, text) <==> Matches(Lower(pattern), Lower(text))) <==> '*' !in text
  {
    if '*' !in text {
      forall pattern ensures Glob(pattern, text) <==> Matches(Lower(pattern), Lower(text)) {
        GlobIsRight(pattern, text);
      }
    } else {
      LowerStars(text);
      var t := Lower(text);
      var k :| 0 <= k < |t| && t[k] == '*';
      var trap := Trap(|t|, k);
      assert Lower(trap) == trap;
      TrapMisses(t, k, 0);
      TrapMatches(t, k);
      assert !(Glob(trap, text) <==> Matches(Lower(trap), Lower(text)));
    }
  }

  /** The shortest case: the pattern `*` does not match the text `*a`. */
  lemma StarRejectsStarA()
    ensures !Glob("*", "*a") && Matches("*", "*a")
  {
    assert Lower("*") == "*" && Lower("*a") == "*a";
    assert Scan("*", "*a", State(1, 1, None, 0)) == false;
    assert "*"[1..] == "" && "*a"[1..] == "a" && "a"[1..] == "";
    assert Matches("", "");
    assert Matches("*", "") && Matches("*", "a");
  }
}
