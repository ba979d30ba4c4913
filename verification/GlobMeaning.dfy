/** What the glob matcher accepts, without reference to how patterns are defined. */
module GlobMeaning {
  import opened Matcher = Glob

  /** The same letter, whichever case; only A to Z have one. */
  predicate SameLetter(c: char, d: char) {
    || c == d
    || ('A' <= c <= 'Z' && d as int == c as int + 32)
    || ('A' <= d <= 'Z' && c as int == d as int + 32)
  }

  lemma LowerSame(c: char, d: char)
    ensures LowerChar(c) == LowerChar(d) <==> SameLetter(c, d)
    ensures LowerChar(c) == '?' <==> c == '?'
    ensures LowerChar(c) == '*' <==> c == '*'
  {
  }

  /** Same length, and each character is `?` or the same. */
  predicate Over(p: string, t: string) {
    |p| == |t| && forall i :: 0 <= i < |p| ==> p[i] == '?' || p[i] == t[i]
  }

  lemma {:induction false} StarFreeMatches(p: string, t: string)
    requires '*' !in p
    ensures Matches(p, t) <==> Over(p, t)
    decreases |p|
  {
    if p != [] {
      assert p[0] in p && forall c :: c in p[1..] ==> c in p;
      if t != [] {
        StarFreeMatches(p[1..], t[1..]);
        if Over(p[1..], t[1..]) && (p[0] == '?' || p[0] == t[0]) {
          forall i | 0 <= i < |p| ensures p[i] == '?' || p[i] == t[i] {
            if i > 0 {
              assert p[1..][i - 1] == p[i] && t[1..][i - 1] == t[i];
            }
          }
        }
        if Over(p, t) {
          forall i | 0 <= i < |p| - 1 ensures p[1..][i] == '?' || p[1..][i] == t[1..][i] {
            assert p[i + 1] == '?' || p[i + 1] == t[i + 1];
          }
        }
      }
    }
  }

  /** A pattern without a star accepts the texts of its length that agree up to case, `?` standing for any character. */
  lemma StarFreePattern(pattern: string, text: string)
    requires '*' !in pattern
    ensures Glob(pattern, text) <==>
              && |pattern| == |text|
              && forall i :: 0 <= i < |text| ==> pattern[i] == '?' || SameLetter(pattern[i], text[i])
  {
    hide Glob, Matches, LowerChar, SameLetter;
    GlobIsRight(pattern, text);
    LowerStars(pattern);
    var p, t := Lower(pattern), Lower(text);
    StarFreeMatches(p, t);
    if |p| == |t| {
      forall i | 0 <= i < |p|
        ensures p[i] == '?' || p[i] == t[i] <==> pattern[i] == '?' || SameLetter(pattern[i], text[i])
      {
        LowerSame(pattern[i], text[i]);
      }
    }
  }

  // ---- one star after another -------------------------------------------------------------

  /** The pattern before the star takes a front of the text, the pattern after it a back, with any gap between. */
  predicate SplitsAt(p: string, q: string, t: string, k: nat, m: nat) {
    k <= m <= |t| && Matches(p, t[..k]) && Matches(q, t[m..])
  }

  /** Any text splits into front, gap and back as the pattern splits at a star. */
  lemma {:induction false} SplitMatches(p: string, q: string, t: string, k: nat, m: nat)
    requires SplitsAt(p, q, t, k, m)
    ensures Matches(p + ['*'] + q, t)
    decreases |p| + |t|
  {
    var r := p + ['*'] + q;
    if p == [] {
      assert r[1..] == q && r[0] == '*';
      assert r[0..] == r && t[0..] == t;
      assert Matches(r, t[m..]);
      StarAbsorbs(r, t, 0, m);
    } else {
      assert r[0] == p[0] && r[1..] == p[1..] + ['*'] + q;
      if p[0] == '*' {
        if Matches(p[1..], t[..k]) {
          SplitMatches(p[1..], q, t, k, m);
        } else {
          assert t[..k][1..] == t[1..][..k - 1] && t[1..][m - 1..] == t[m..];
          SplitMatches(p, q, t[1..], k - 1, m - 1);
        }
      } else {
        assert t[..k][1..] == t[1..][..k - 1] && t[1..][m - 1..] == t[m..];
        SplitMatches(p[1..], q, t[1..], k - 1, m - 1);
      }
    }
  }

  lemma {:induction false} MatchSplits(p: string, q: string, t: string) returns (k: nat, m: nat)
    requires Matches(p + ['*'] + q, t)
    ensures SplitsAt(p, q, t, k, m)
    decreases |p| + |t|
  {
    var r := p + ['*'] + q;
    if p == [] {
      assert r[0] == '*' && r[0..] == r && r[1..] == q && t[0..] == t;
      m := StarPlace(r, t, 0, 0);
      k := 0;
    } else {
      assert r[0] == p[0] && r[1..] == p[1..] + ['*'] + q;
      if p[0] == '*' && Matches(p[1..] + ['*'] + q, t) {
        k, m := MatchSplits(p[1..], q, t);
      } else {
        if p[0] == '*' {
          k, m := MatchSplits(p, q, t[1..]);
        } else {
          k, m := MatchSplits(p[1..], q, t[1..]);
        }
        k, m := k + 1, m + 1;
        assert t[..k][1..] == t[1..][..k - 1] && t[1..][m - 1..] == t[m..];
      }
    }
  }

  /** Case folding a pattern in parts. */
  lemma LowerParts(p: string, q: string)
    ensures Lower(p + ['*'] + q) == Lower(p) + ['*'] + Lower(q)
  {
  }

  ghost predicate GlobSplits(p: string, q: string, t: string) {
    exists k: nat, m: nat :: GlobSplitsAt(p, q, t, k, m)
  }

  predicate GlobSplitsAt(p: string, q: string, t: string, k: nat, m: nat) {
    k <= m <= |t| && Glob(p, t[..k]) && Glob(q, t[m..])
  }

  lemma SameSplit(p: string, q: string, t: string, k: nat, m: nat)
    requires '*' !in t
    ensures GlobSplitsAt(p, q, t, k, m) <==> SplitsAt(Lower(p), Lower(q), Lower(t), k, m)
  {
    hide Glob, Matches;
    if k <= m <= |t| {
      assert Lower(t[..k]) == Lower(t)[..k] && Lower(t[m..]) == Lower(t)[m..];
      assert (forall c :: c in t[..k] ==> c in t) && (forall c :: c in t[m..] ==> c in t);
      GlobIsRight(p, t[..k]);
      GlobIsRight(q, t[m..]);
    }
  }

  /**
   * On a text without `*`, a pattern with a star in it accepts exactly the texts that consist of one
   * the part before the star accepts, anything, and one the part after it accepts.
   */
  lemma StarStandsForAnything(p: string, q: string, text: string)
    requires '*' !in text
    ensures Glob(p + ['*'] + q, text) <==> GlobSplits(p, q, text)
  {
    hide Glob, Matches, SplitsAt, GlobSplitsAt;
    GlobIsRight(p + ['*'] + q, text);
    LowerParts(p, q);
    if Matches(Lower(p + ['*'] + q), Lower(text)) {
      var k, m := MatchSplits(Lower(p), Lower(q), Lower(text));
      SameSplit(p, q, text, k, m);
    }
    if GlobSplits(p, q, text) {
      var k: nat, m: nat :| GlobSplitsAt(p, q, text, k, m);
      SameSplit(p, q, text, k, m);
      SplitMatches(Lower(p), Lower(q), Lower(text), k, m);
    }
  }
}
