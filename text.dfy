/** The string operations the source relies on, with ordinal (char-by-char) semantics. */
module Text {

  predicate StartsWith(s: string, prefix: string)
  {
    |prefix| <= |s| && s[..|prefix|] == prefix
  }

  predicate EndsWith(s: string, suffix: string)
  {
    |suffix| <= |s| && s[|s| - |suffix|..] == suffix
  }

  /** ASCII case folding; the culture-aware folding of the host library is not modelled. */
  function ToLower(c: char): char
  {
    if 'A' <= c <= 'Z' then (c as int + 32) as char else c
  }

  /** `a` and `b` are equal up to case. */
  predicate EqualsIgnoreCase(a: string, b: string)
  {
    |a| == |b| && (a == [] || (ToLower(a[0]) == ToLower(b[0]) && EqualsIgnoreCase(a[1..], b[1..])))
  }

  /** `s` has `t` at position `i`, ignoring case. */
  predicate MatchesAtIgnoreCase(s: string, t: string, i: int)
  {
    0 <= i && i + |t| <= |s| && EqualsIgnoreCase(s[i..i + |t|], t)
  }

  /** `str.IndexOf(other, ...IgnoreCase) >= 0`, searched from the left. */
  predicate ContainsIgnoreCase(s: string, t: string)
  {
    if |t| > |s| then false
    else EqualsIgnoreCase(s[..|t|], t) || (|s| > 0 && ContainsIgnoreCase(s[1..], t))
  }

  /** Every occurrence of `t` in `s` is found by the search. */
  lemma {:induction false} ContainsIgnoreCaseComplete(s: string, t: string, i: int)
    requires MatchesAtIgnoreCase(s, t, i)
    ensures ContainsIgnoreCase(s, t)
    decreases i
  {
    if i > 0 {
      assert s[1..][i - 1..i - 1 + |t|] == s[i..i + |t|];
      ContainsIgnoreCaseComplete(s[1..], t, i - 1);
    }
  }

  /** What the search finds is an occurrence of `t` in `s`. */
  lemma {:induction false} ContainsIgnoreCaseSound(s: string, t: string) returns (i: int)
    requires ContainsIgnoreCase(s, t)
    ensures MatchesAtIgnoreCase(s, t, i)
  {
    if EqualsIgnoreCase(s[..|t|], t) {
      i := 0;
    } else {
      var j := ContainsIgnoreCaseSound(s[1..], t);
      assert s[1..][j..j + |t|] == s[j + 1..j + 1 + |t|];
      i := j + 1;
    }
  }

  /** The search succeeds iff `t` occurs somewhere in `s`, ignoring case. */
  lemma ContainsIgnoreCaseSpec(s: string, t: string)
    ensures ContainsIgnoreCase(s, t) <==> exists i :: MatchesAtIgnoreCase(s, t, i)
  {
    if ContainsIgnoreCase(s, t) {
      var i := ContainsIgnoreCaseSound(s, t);
    }
    forall i | MatchesAtIgnoreCase(s, t, i) ensures ContainsIgnoreCase(s, t) {
      ContainsIgnoreCaseComplete(s, t, i);
    }
  }

  /** `s.Replace(p, q)`: every non-overlapping occurrence of `p`, found from the left, becomes `q`. */
  function ReplaceAll(s: string, p: string, q: string): string
    requires |p| > 0
  {
    if |s| < |p| then s
    else if s[..|p|] == p then q + ReplaceAll(s[|p|..], p, q)
    else [s[0]] + ReplaceAll(s[1..], p, q)
  }

  /** No proper prefix of `p` is also a suffix of it, so two occurrences of `p` never overlap. */
  predicate BorderFree(p: string)
  {
    forall k :: 0 < k < |p| ==> p[..k] != p[|p| - k..]
  }

  /** Replacing with a string of equal length keeps the length. */
  lemma {:induction false} ReplaceAllLength(s: string, p: string, q: string)
    requires |p| > 0 && |q| == |p|
    ensures |ReplaceAll(s, p, q)| == |s|
  {
    if |s| < |p| {
    } else if s[..|p|] == p {
      ReplaceAllLength(s[|p|..], p, q);
    } else {
      ReplaceAllLength(s[1..], p, q);
    }
  }

  /** A string shorter than `2 * |p|` that starts and ends with `p`, and is not `p` itself,
      shows a border of `p`. */
  lemma OverlapIsBorder(s: string, p: string)
    requires |p| < |s| < 2 * |p|
    requires s[..|p|] == p && EndsWith(s, p)
    ensures !BorderFree(p)
  {
    var r := |s| - |p|;
    var k := |p| - r;
    assert s[r..] == p;
    assert p[..k] == s[r..|p|];
    assert p[|p| - k..] == s[r..|p|];
  }

  /** A string ending in a border-free `p` ends in `q` after the replacement. */
  lemma {:induction false} ReplaceAllSuffix(s: string, p: string, q: string)
    requires |p| > 0 && BorderFree(p)
    requires EndsWith(s, p)
    ensures EndsWith(ReplaceAll(s, p, q), q)
    decreases |s|
  {
    if s[..|p|] == p {
      var rest := s[|p|..];
      if |rest| == 0 {
        assert ReplaceAll(rest, p, q) == [];
        assert ReplaceAll(s, p, q) == q;
      } else if |rest| < |p| {
        OverlapIsBorder(s, p);
      } else {
        assert rest[|rest| - |p|..] == s[|s| - |p|..];
        ReplaceAllSuffix(rest, p, q);
        var r := ReplaceAll(rest, p, q);
        assert (q + r)[|q + r| - |q|..] == r[|r| - |q|..];
      }
    } else {
      assert |s| > |p|;
      assert s[1..][|s| - 1 - |p|..] == s[|s| - |p|..];
      ReplaceAllSuffix(s[1..], p, q);
      var r := ReplaceAll(s[1..], p, q);
      assert ([s[0]] + r)[|[s[0]] + r| - |q|..] == r[|r| - |q|..];
    }
  }
}
