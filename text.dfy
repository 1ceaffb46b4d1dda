/** Character counting and substring replacement on Kotlin strings, which are
    modelled as sequences of characters. */
module Text {

  /** `s.count { it == c }`: how many times `c` occurs in `s`. */
  function Count(s: string, c: char): (n: nat)
    ensures n <= |s|
    ensures n == 0 <==> c !in s
  {
    if |s| == 0 then 0 else (if s[0] == c then 1 else 0) + Count(s[1..], c)
  }

  lemma {:induction false} CountAppend(a: string, b: string, c: char)
    ensures Count(a + b, c) == Count(a, c) + Count(b, c)
  {
    if |a| == 0 {
      assert a + b == b;
    } else {
      assert (a + b)[1..] == a[1..] + b;
      CountAppend(a[1..], b, c);
    }
  }

  /** Count agrees with the multiplicity of `c` in the multiset of `s`. */
  lemma {:induction false} CountIsMultiplicity(s: string, c: char)
    ensures Count(s, c) == multiset(s)[c]
  {
    if |s| > 0 {
      assert s == [s[0]] + s[1..];
      CountIsMultiplicity(s[1..], c);
    }
  }

  /** `n` closing parentheses. */
  function Closers(n: nat): (r: string)
    ensures |r| == n
    ensures forall i :: 0 <= i < n ==> r[i] == ')'
  {
    seq(n, _ => ')')
  }

  lemma {:induction false} CountClosers(n: nat, c: char)
    ensures Count(Closers(n), c) == if c == ')' then n else 0
  {
    if n > 0 {
      assert Closers(n)[1..] == Closers(n - 1);
      CountClosers(n - 1, c);
    }
  }

  /** Kotlin's `String.replace(oldValue, newValue)` for a non-empty `oldValue`:
      scans left to right and replaces every non-overlapping occurrence of `pat`. */
  function Replace(s: string, pat: string, rep: string): string
    requires pat != []
    decreases |s|
  {
    if |s| == 0 then []
    else if pat <= s then rep + Replace(s[|pat|..], pat, rep)
    else [s[0]] + Replace(s[1..], pat, rep)
  }

  /** A prefix that cannot start an occurrence of `pat` passes through unchanged. */
  lemma {:induction false} ReplaceSkips(w: string, t: string, pat: string, rep: string)
    requires pat != []
    requires pat[0] !in w
    ensures Replace(w + t, pat, rep) == w + Replace(t, pat, rep)
  {
    if |w| > 0 {
      assert (w + t)[0] == w[0];
      assert !(pat <= w + t);
      assert (w + t)[1..] == w[1..] + t;
      ReplaceSkips(w[1..], t, pat, rep);
      assert w == [w[0]] + w[1..];
    } else {
      assert w + t == t;
    }
  }

  /** An occurrence at the front is replaced. */
  lemma ReplaceAtFront(t: string, pat: string, rep: string)
    requires pat != []
    ensures Replace(pat + t, pat, rep) == rep + Replace(t, pat, rep)
  {
    assert (pat + t)[|pat|..] == t;
  }

  /** If neither `s` nor `rep` starts with `ch`, the result does not either. */
  lemma ReplaceHead(s: string, pat: string, rep: string, ch: char)
    requires pat != [] && rep != [] && rep[0] != ch
    requires s == [] || s[0] != ch
    ensures var r := Replace(s, pat, rep); r == [] || r[0] != ch
  {
  }

  /** `pat` occurs in `s` at index `i`. */
  predicate OccursAt(s: string, pat: string, i: nat)
  {
    i + |pat| <= |s| && s[i..i + |pat|] == pat
  }

  /** `pat` occurs nowhere in `s`. */
  predicate NoOccurrence(s: string, pat: string)
  {
    forall i: nat :: i <= |s| ==> !OccursAt(s, pat, i)
  }

  /** Text holding no first character of `pat` holds no occurrence of it. */
  lemma NoHeadNoOccurrence(s: string, pat: string)
    requires pat != [] && pat[0] !in s
    ensures NoOccurrence(s, pat)
  {
    forall i: nat | i <= |s| ensures !OccursAt(s, pat, i) {
      if i + |pat| <= |s| {
        assert s[i..i + |pat|][0] == s[i];
      }
    }
  }

  /** Without an occurrence of `pat`, `replace` changes nothing. */
  lemma {:induction false} ReplaceNothing(s: string, pat: string, rep: string)
    requires pat != [] && NoOccurrence(s, pat)
    ensures Replace(s, pat, rep) == s
    decreases |s|
  {
    if |s| > 0 {
      assert !(pat <= s) by {
        assert !OccursAt(s, pat, 0);
        if |pat| <= |s| {
          assert s[0..|pat|] == s[..|pat|];
        }
      }
      assert NoOccurrence(s[1..], pat) by {
        forall i: nat | i <= |s[1..]| ensures !OccursAt(s[1..], pat, i) {
          assert !OccursAt(s, pat, i + 1);
          if i + |pat| <= |s[1..]| {
            assert s[1..][i..i + |pat|] == s[i + 1..i + 1 + |pat|];
          }
        }
      }
      ReplaceNothing(s[1..], pat, rep);
      assert s == [s[0]] + s[1..];
    }
  }
}
