/** The pre-pass of `CalculatorEngine.evaluate`: display glyphs are rewritten
    into the tokens the expression parser understands, then one `)` is
    appended for each `(` in excess of `)`. */
module Sanitizer {
  import opened Text

  /** The chain of `replace` calls, in the order the source applies them. */
  function Glyphs(raw: string): string
  {
    Replace(Replace(Replace(Replace(raw, "×", "*"), "÷", "/"), "√", "sqrt"), "xʸ", "^")
  }

  /** The token a single glyph character stands for. */
  function GlyphToken(c: char): string
  {
    match c
    case '×' => "*"
    case '÷' => "/"
    case '√' => "sqrt"
    case _ => [c]
  }

  /** Reference definition: one left-to-right pass that rewrites each glyph
      where it stands and copies every other character. */
  function Transliterate(s: string): string
    decreases |s|
  {
    if |s| == 0 then []
    else if |s| >= 2 && s[0] == 'x' && s[1] == 'ʸ' then "^" + Transliterate(s[2..])
    else GlyphToken(s[0]) + Transliterate(s[1..])
  }

  /** No multiplication, division or root glyph, and no power glyph `xʸ`. */
  predicate GlyphFree(t: string)
  {
    (forall i :: 0 <= i < |t| ==> t[i] != '×' && t[i] != '÷' && t[i] != '√') &&
    (forall i :: 0 <= i < |t| - 1 ==> !(t[i] == 'x' && t[i + 1] == 'ʸ'))
  }

  /** Surplus of opening over closing parentheses. */
  function Surplus(s: string): int
  {
    Count(s, '(') - Count(s, ')')
  }

  /** The balancing step: one `)` for every surplus `(`. */
  function Balance(s: string): string
  {
    if Surplus(s) > 0 then s + Closers(Surplus(s)) else s
  }

  /** The whole pre-pass: what `evaluate` hands to the expression parser. */
  function Normalize(raw: string): string
  {
    Balance(Glyphs(raw))
  }

  // ---------------------------------------------------------------------------
  // The replace chain equals the one-pass reference.

  /** Replacing a two-character pattern skips a lone first character. */
  lemma ReplaceLoneHead(a: char, u: string, pat: string, rep: string)
    requires |pat| == 2 && pat[0] == a
    requires u == [] || u[0] != pat[1]
    ensures Replace([a] + u, pat, rep) == [a] + Replace(u, pat, rep)
  {
    if u != [] {
      assert ([a] + u)[1] == u[0];
    }
    assert ([a] + u)[1..] == u;
  }

  /** A head `w` that none of the first three patterns touches passes them unchanged. */
  lemma SkipFirstThree(w: string, t: string)
    requires '×' !in w && '÷' !in w && '√' !in w
    ensures Replace(Replace(Replace(w + t, "×", "*"), "÷", "/"), "√", "sqrt")
         == w + Replace(Replace(Replace(t, "×", "*"), "÷", "/"), "√", "sqrt")
  {
    ReplaceSkips(w, t, "×", "*");
    var t1 := Replace(t, "×", "*");
    ReplaceSkips(w, t1, "÷", "/");
    var t2 := Replace(t1, "÷", "/");
    ReplaceSkips(w, t2, "√", "sqrt");
  }

  lemma {:induction false} GlyphsIsTransliterate(s: string)
    ensures Glyphs(s) == Transliterate(s)
    decreases |s|
  {
    if |s| == 0 {
    } else if |s| >= 2 && s[0] == 'x' && s[1] == 'ʸ' {
      var t := s[2..];
      assert s == "xʸ" + t;
      SkipFirstThree("xʸ", t);
      ReplaceAtFront(Replace(Replace(Replace(t, "×", "*"), "÷", "/"), "√", "sqrt"), "xʸ", "^");
      GlyphsIsTransliterate(t);
    } else {
      var t := s[1..];
      assert s == [s[0]] + t;
      var t1 := Replace(t, "×", "*");
      var t2 := Replace(t1, "÷", "/");
      var t3 := Replace(t2, "√", "sqrt");
      if s[0] == '×' {
        ReplaceAtFront(t, "×", "*");
        ReplaceSkips("*", t1, "÷", "/");
        ReplaceSkips("*", t2, "√", "sqrt");
        ReplaceSkips("*", t3, "xʸ", "^");
      } else if s[0] == '÷' {
        ReplaceSkips("÷", t, "×", "*");
        ReplaceAtFront(t1, "÷", "/");
        ReplaceSkips("/", t2, "√", "sqrt");
        ReplaceSkips("/", t3, "xʸ", "^");
      } else if s[0] == '√' {
        ReplaceSkips("√", t, "×", "*");
        ReplaceSkips("√", t1, "÷", "/");
        ReplaceAtFront(t2, "√", "sqrt");
        ReplaceSkips("sqrt", t3, "xʸ", "^");
      } else if s[0] == 'x' {
        SkipFirstThree([s[0]], t);
        ReplaceHead(t, "×", "*", 'ʸ');
        ReplaceHead(t1, "÷", "/", 'ʸ');
        ReplaceHead(t2, "√", "sqrt", 'ʸ');
        ReplaceLoneHead('x', t3, "xʸ", "^");
      } else {
        SkipFirstThree([s[0]], t);
        ReplaceSkips([s[0]], t3, "xʸ", "^");
      }
      GlyphsIsTransliterate(t);
    }
  }

  // ---------------------------------------------------------------------------
  // What the glyph pass produces.

  lemma GlyphFreeAppend(a: string, b: string)
    requires GlyphFree(a) && GlyphFree(b)
    requires a == [] || b == [] || a[|a| - 1] != 'x' || b[0] != 'ʸ'
    ensures GlyphFree(a + b)
  {
    var t := a + b;
    forall i | 0 <= i < |t| - 1
      ensures !(t[i] == 'x' && t[i + 1] == 'ʸ')
    {
      if i + 1 < |a| {
        assert t[i] == a[i] && t[i + 1] == a[i + 1];
      } else if i >= |a| {
        assert t[i] == b[i - |a|] && t[i + 1] == b[i - |a| + 1];
      }
    }
  }

  /** The reference pass leaves no glyph behind. */
  lemma {:induction false} TransliterateGlyphFree(s: string)
    ensures GlyphFree(Transliterate(s))
    ensures Transliterate(s) != [] && Transliterate(s)[0] == 'ʸ' ==> s != [] && s[0] == 'ʸ'
    decreases |s|
  {
    if |s| == 0 {
    } else if |s| >= 2 && s[0] == 'x' && s[1] == 'ʸ' {
      TransliterateGlyphFree(s[2..]);
      GlyphFreeAppend("^", Transliterate(s[2..]));
    } else {
      TransliterateGlyphFree(s[1..]);
      var h := GlyphToken(s[0]);
      assert GlyphFree(h);
      GlyphFreeAppend(h, Transliterate(s[1..]));
    }
  }

  /** Text without glyphs is left exactly as it is. */
  lemma {:induction false} TransliterateFixes(t: string)
    requires GlyphFree(t)
    ensures Transliterate(t) == t
    decreases |t|
  {
    if |t| > 0 {
      assert t[0] != '×' && t[0] != '÷' && t[0] != '√';
      assert !(|t| >= 2 && t[0] == 'x' && t[1] == 'ʸ');
      assert GlyphFree(t[1..]) by {
        forall i | 0 <= i < |t[1..]| - 1 ensures !(t[1..][i] == 'x' && t[1..][i + 1] == 'ʸ') {
          assert t[1..][i] == t[i + 1] && t[1..][i + 1] == t[i + 2];
        }
      }
      TransliterateFixes(t[1..]);
      assert t == [t[0]] + t[1..];
    }
  }

  /** The glyph pass leaves no glyph behind and changes nothing in glyph-free text. */
  lemma GlyphsSpec(s: string)
    ensures GlyphFree(Glyphs(s))
    ensures GlyphFree(s) ==> Glyphs(s) == s
  {
    GlyphsIsTransliterate(s);
    TransliterateGlyphFree(s);
    if GlyphFree(s) {
      TransliterateFixes(s);
    }
  }

  /** Characters that occur neither in a glyph nor in a token. */
  predicate Untouched(c: char)
  {
    c != '×' && c != '÷' && c != '√' && c != 'x' && c != 'ʸ' &&
    c != '*' && c != '/' && c != 's' && c != 'q' && c != 'r' && c != 't' && c != '^'
  }

  lemma TokenCount(a: char, c: char)
    requires Untouched(c)
    ensures Count(GlyphToken(a), c) == Count([a], c)
  {
    if a == '√' {
      assert GlyphToken(a) == "sqrt";
      assert "sqrt"[1..] == "qrt" && "qrt"[1..] == "rt" && "rt"[1..] == "t";
    }
  }

  lemma {:induction false} TransliterateKeepsCount(s: string, c: char)
    requires Untouched(c)
    ensures Count(Transliterate(s), c) == Count(s, c)
    decreases |s|
  {
    if |s| == 0 {
    } else if |s| >= 2 && s[0] == 'x' && s[1] == 'ʸ' {
      TransliterateKeepsCount(s[2..], c);
      CountAppend("^", Transliterate(s[2..]), c);
      assert s == "xʸ" + s[2..];
      CountAppend("xʸ", s[2..], c);
    } else {
      TransliterateKeepsCount(s[1..], c);
      TokenCount(s[0], c);
      CountAppend(GlyphToken(s[0]), Transliterate(s[1..]), c);
      assert s == [s[0]] + s[1..];
      CountAppend([s[0]], s[1..], c);
    }
  }

  /** Characters that occur neither in a glyph nor in a token, parentheses among
      them, are counted alike before and after the glyph pass. */
  lemma GlyphsKeepCount(s: string, c: char)
    requires Untouched(c)
    ensures Count(Glyphs(s), c) == Count(s, c)
  {
    GlyphsIsTransliterate(s);
    TransliterateKeepsCount(s, c);
  }

  // ---------------------------------------------------------------------------
  // What the balancing step produces.

  /** Balancing keeps the input as a prefix, appends only `)`, exactly as many as
      there are surplus `(`, after which the counts are equal; with no surplus
      it appends nothing. */
  lemma BalanceSpec(s: string)
    ensures s <= Balance(s)
    ensures |Balance(s)| == |s| + (if Surplus(s) > 0 then Surplus(s) else 0)
    ensures forall i :: |s| <= i < |Balance(s)| ==> Balance(s)[i] == ')'
    ensures Surplus(s) >= 0 ==> Count(Balance(s), '(') == Count(Balance(s), ')')
    ensures Surplus(s) <= 0 ==> Balance(s) == s
  {
    if Surplus(s) > 0 {
      var k := Surplus(s);
      CountAppend(s, Closers(k), '(');
      CountAppend(s, Closers(k), ')');
      CountClosers(k, '(');
      CountClosers(k, ')');
    }
  }

  /** The glyph pass and the balancing step commute on parenthesis counts: the
      number of `)` appended is the surplus of the raw input. */
  lemma NormalizeAppends(raw: string)
    ensures Surplus(Glyphs(raw)) == Surplus(raw)
    ensures Normalize(raw) == Glyphs(raw) + Closers(if Surplus(raw) > 0 then Surplus(raw) else 0)
  {
    GlyphsKeepCount(raw, '(');
    GlyphsKeepCount(raw, ')');
    assert Glyphs(raw) + [] == Glyphs(raw);
  }

  /** Normalizing twice is normalizing once. */
  lemma NormalizeIdempotent(raw: string)
    ensures Normalize(Normalize(raw)) == Normalize(raw)
  {
    var g := Glyphs(raw);
    var n := Normalize(raw);
    GlyphsSpec(raw);
    BalanceSpec(g);
    var k := |n| - |g|;
    assert n == g + Closers(k);
    assert GlyphFree(Closers(k));
    GlyphFreeAppend(g, Closers(k));
    GlyphsSpec(n);
    assert Glyphs(n) == n;
    BalanceSpec(n);
    if Surplus(g) > 0 {
      assert Surplus(n) == 0;
    } else {
      assert n == g;
    }
  }

  /** Text with none of the four glyphs' first characters passes the glyph pass unchanged. */
  lemma GlyphsNothing(s: string)
    requires '×' !in s && '÷' !in s && '√' !in s && 'x' !in s
    ensures Glyphs(s) == s
  {
    NoHeadNoOccurrence(s, "×");
    ReplaceNothing(s, "×", "*");
    NoHeadNoOccurrence(s, "÷");
    ReplaceNothing(s, "÷", "/");
    NoHeadNoOccurrence(s, "√");
    ReplaceNothing(s, "√", "sqrt");
    NoHeadNoOccurrence(s, "xʸ");
    ReplaceNothing(s, "xʸ", "^");
  }

  lemma NormalizeClosesOne()
    ensures Normalize("(1+2") == "(1+2)"
  {
    var s := "(1+2";
    assert Glyphs(s) == s by { GlyphsNothing(s); }
    assert Surplus(s) == 1 by {
      assert s == "(" + "1+2";
      CountAppend("(", "1+2", '(');
      CountAppend("(", "1+2", ')');
      assert '(' !in "1+2" && ')' !in "1+2" && ')' !in "(";
    }
    assert Closers(1) == ")";
  }
}
