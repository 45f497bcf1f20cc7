/**
 * Four texts for which restoring the placeholders (js/app.js:132-178, with
 * `marked` taken as the identity) does not give the text back, one for each
 * condition of MathRoundTrip.MathRoundTrip: a placeholder already written in
 * the text, a closer followed by `_`, a `$$` inside a segment (a placeholder
 * holding `$`) and display math inside inline math (a placeholder holding a
 * marker). Each lemma computes what the restore actually produces.
 */
module MathCounterexamples {
  import opened Wrappers
  import opened Text
  import opened JsReplace
  import opened MathPlaceholders
  import opened MathRoundTrip

  // ---------------------------------------------------------------------
  // The passes on concrete pieces
  // ---------------------------------------------------------------------

  /** The first closer after a segment's opener is the segment's own. */
  lemma {:induction false} SegmentCloser(seg: string, inner: string, rest: string, k: Kind)
    requires seg == Opener(k) + inner + Closer(k) && '\\' !in inner
    ensures var s := seg + rest;
            |s| >= 2 && s[..2] == Opener(k) && IndexOf(s, Closer(k), 2) == Some(|seg| - 2)
  {
    var s := seg + rest;
    var j := |seg| - 2;
    assert s[..2] == seg[..2] == Opener(k);
    assert s[j..j + 2] == seg[j..j + 2] == Closer(k);
    forall q: nat | 2 <= q < j
      ensures !OccursAt(s, Closer(k), q)
    {
      assert s[q] == inner[q - 2];
      assert inner[q - 2] in inner;
      assert Closer(k)[0] == '\\';
      assert s[q..q + 2][0] == s[q];
    }
    IndexOfUnique(s, Closer(k), 2, j);
  }

  /** A closed math segment at the front becomes the pass's next placeholder, and the pass goes on after it. */
  lemma {:induction false} ProtectSegment(seg: string, inner: string, rest: string, k: Kind, c: nat)
    requires seg == Opener(k) + inner + Closer(k) && '\\' !in inner
    ensures Render(Protect(seg + rest, k, c)) == Token(k, c) + Render(Protect(rest, k, c + 1))
    ensures Protect(seg + rest, k, c).toks == [Tok(k, c, seg)] + Protect(rest, k, c + 1).toks
  {
    var s := seg + rest;
    var j := |seg| - 2;
    SegmentCloser(seg, inner, rest, k);
    ProtectMatchStep(s, k, c, j);
    ProtectMatchShape(s, k, c, j);
    assert s[j + 2..] == rest && s[..j + 2] == seg;
  }

  /** A placeholder holds no backslash, so a pass copies it unchanged. */
  lemma ProtectToken(k: Kind, i: nat, rest: string, k2: Kind, c: nat)
    ensures Render(Protect(Token(k, i) + rest, k2, c)) == Token(k, i) + Render(Protect(rest, k2, c))
    ensures Protect(Token(k, i) + rest, k2, c).toks == Protect(rest, k2, c).toks
  {
    TokenChars(k, i);
    ProtectSkip(Token(k, i), rest, k2, c);
  }

  /** Text without an `M` holds no placeholder. */
  lemma NoMHasNoToken(s: string, k: Kind, i: nat)
    requires 'M' !in s
    ensures !Contains(s, Token(k, i))
  {
    TokenChars(k, i);
  }

  /** Replacing a whole text that is the pattern gives the expanded replacement. */
  lemma ReplaceWhole(pat: string, rep: string)
    requires |pat| > 0
    ensures ReplaceAll(pat, pat, rep) == Expand(rep, pat, "", "")
  {
    assert ReplaceFrom(pat, pat, rep, |pat|) == "";
    assert pat[0..0 + |pat|] == pat && pat[..0] == "" && pat[0 + |pat|..] == "";
  }

  // ---------------------------------------------------------------------
  // A placeholder already in the text
  // ---------------------------------------------------------------------

  /** The passes on `MATHPLACEHOLDER_DISPLAY_0_MATHPLACEHOLDER\[a\]`: the copied text and the segment both read as placeholder 0. */
  lemma MarkerLayout(a: string)
    requires '\\' !in a
    ensures var t := Token(Display, 0) + DisplaySeg(a);
            ProtectedText(t) == Token(Display, 0) + Token(Display, 0) && Placeholders(t) == [DisplaySeg(a)]
  {
    var p0 := Token(Display, 0);
    var t := p0 + DisplaySeg(a);
    TokenChars(Display, 0);
    assert '\\' !in p0;
    PlainThenSegment(p0, a, 0);
    assert DisplayLayout(t) == Protect(t, Display, 0);
    NoBackslashAt(p0 + p0);
    InlineLayoutIdle(t);
    assert [Tok(Display, 0, DisplaySeg(a))][1..] == [];
  }

  /** Restoring placeholder 0 rewrites the copied text as well as the placeholder. */
  lemma MarkerRestore(m: string)
    ensures Substitute(Token(Display, 0) + Token(Display, 0), Token(Display, 0), m) == m + m
  {
    var p0 := Token(Display, 0);
    TokenChars(Display, 0);
    assert (p0 + p0)[..|p0|] == p0 && (p0 + p0)[|p0|..] == p0;
    SubstituteWhole(p0, m);
  }

  /**
   * Text that already holds `MATHPLACEHOLDER_DISPLAY_0_MATHPLACEHOLDER`,
   * followed by `\[a\]` (here `a` holds no backslash, `$` or `M`), comes
   * back as `\[a\]\[a\]`: the text written in placeholder form is restored
   * as if the pass had made it.
   */
  lemma MarkerBreaksRoundTrip(a: string)
    requires '\\' !in a && '$' !in a && 'M' !in a
    ensures var t := Token(Display, 0) + DisplaySeg(a);
            RestoreFrom(ProtectedText(t), Placeholders(t), 0) == DisplaySeg(a) + DisplaySeg(a) &&
            DisplaySeg(a) + DisplaySeg(a) != t
  {
    var p0 := Token(Display, 0);
    var t := p0 + DisplaySeg(a);
    var m := DisplaySeg(a);
    var r := m + m;
    MarkerLayout(a);
    assert '$' !in m && 'M' !in m;
    RestoreOneIsSubstitute(p0 + p0, Display, 0, m);
    MarkerRestore(m);
    NoMHasNoToken(r, Inline, 0);
    assert RestoreFrom(r, [m], 1) == r;
    TokenChars(Display, 0);
    assert t[0] == 'M' && r[0] == '\\';
  }

  // ---------------------------------------------------------------------
  // A `$` sequence in a segment
  // ---------------------------------------------------------------------

  /** The passes on `\[a$$b\]`: one display placeholder, no inline one. */
  lemma DollarLayout(a: string, b: string)
    requires '\\' !in a + b
    ensures var t := Opener(Display) + a + "$$" + b + Closer(Display);
            ProtectedText(t) == Token(Display, 0) && Placeholders(t) == [t]
  {
    var t := Opener(Display) + a + "$$" + b + Closer(Display);
    var p0 := Token(Display, 0);
    assert t == Opener(Display) + (a + "$$" + b) + Closer(Display) && t + "" == t;
    assert '\\' !in "$$";
    ProtectSegment(t, a + "$$" + b, "", Display, 0);
    var d := DisplayLayout(t);
    assert Render(d) == p0 && d.toks == [Tok(Display, 0, t)];
    ProtectToken(Display, 0, "", Inline, 1);
    assert p0 + "" == p0;
    assert Segs(d.toks) == [t];
  }

  /** Restoring placeholder 0 of `\[a$$b\]` writes back `\[a$b\]`. */
  lemma DollarRestore(a: string, b: string)
    requires '$' !in a + b
    ensures var t := Opener(Display) + a + "$$" + b + Closer(Display);
            RestoreOne(Token(Display, 0), Display, 0, t) == Opener(Display) + a + "$" + b + Closer(Display)
  {
    var t := Opener(Display) + a + "$$" + b + Closer(Display);
    var p0 := Token(Display, 0);
    assert OccursAt(p0, p0, 0);
    ReplaceWhole(p0, t);
    var pre := Opener(Display) + a;
    assert '$' !in pre;
    assert t == pre + "$$" + (b + Closer(Display));
    ExpandDollarDollar(pre, b + Closer(Display), p0, "", "");
    ExpandPlain(b + Closer(Display), p0, "", "");
  }

  /**
   * A display segment `\[a$$b\]` (here `a` and `b` hold no backslash, `$` or
   * `M`, so the text has no marker and no underscore after a closer) comes
   * back as `\[a$b\]`: `replace` reads the `$$` as an escaped `$`.
   */
  lemma DollarBreaksRoundTrip(a: string, b: string)
    requires '\\' !in a + b && '$' !in a + b && 'M' !in a + b
    ensures var t := Opener(Display) + a + "$$" + b + Closer(Display);
            Placeholders(t) == [t] &&
            RestoreFrom(ProtectedText(t), Placeholders(t), 0) == Opener(Display) + a + "$" + b + Closer(Display) &&
            RestoreFrom(ProtectedText(t), Placeholders(t), 0) != t
  {
    var t := Opener(Display) + a + "$$" + b + Closer(Display);
    var r := Opener(Display) + a + "$" + b + Closer(Display);
    DollarLayout(a, b);
    DollarRestore(a, b);
    NoMHasNoToken(r, Inline, 0);
    assert RestoreFrom(r, [t], 1) == r;
    assert |r| == |t| - 1;
  }

  // ---------------------------------------------------------------------
  // Display math inside inline math
  // ---------------------------------------------------------------------

  /** A placeholder holds no `$`. */
  lemma TokenNoDollar(k: Kind, i: nat)
    ensures '$' !in Token(k, i)
  {
    var d := NatToString(i);
    NatToStringDigits(i);
    forall q | 0 <= q < |d|
      ensures d[q] != '$'
    {
      assert IsDigit(d[q]);
    }
    assert '$' !in MARKER && '$' !in KindName(k) && '$' !in d;
  }

  /** Text without a backslash has none at any position. */
  lemma NoBackslashAt(x: string)
    requires '\\' !in x
    ensures forall q :: 0 <= q < |x| ==> x[q] != '\\'
  {
  }

  /** Plain text holds neither letter. */
  lemma PlainLetters(u: string)
    requires Plain(u)
    ensures '\\' !in u && 'M' !in u
  {
  }

  /** The display pass copies the inline closer `\)`. */
  lemma DisplayPassCloser(c: nat)
    ensures Render(Protect(Closer(Inline), Display, c)) == Closer(Inline)
    ensures Protect(Closer(Inline), Display, c).toks == []
  {
    var ci := Closer(Inline);
    assert ci[..2] == ci && ci[1..] == ")" + "";
    ProtectCopyStep(ci, Display, c);
    ProtectSkip(")", "", Display, c);
  }

  /** The display pass copies a backslash that does not open display math. */
  lemma DisplayPassBackslash(s: string, c: nat)
    requires |s| > 0 && s[0] != '['
    ensures Render(Protect(['\\'] + s, Display, c)) == ['\\'] + Render(Protect(s, Display, c))
    ensures Protect(['\\'] + s, Display, c).toks == Protect(s, Display, c).toks
  {
    var t := ['\\'] + s;
    assert t[1] == s[0] && t[1..] == s;
    assert t[..2] != Opener(Display) by {
      assert t[..2][1] == s[0];
    }
    ProtectCopyStep(t, Display, c);
  }

  /** The display pass copies an inline opener `\(` and whatever plain text follows it. */
  lemma DisplayPassOpener(x: string, rest: string, c: nat)
    requires '\\' !in x
    ensures Render(Protect(Opener(Inline) + x + rest, Display, c)) == Opener(Inline) + x + Render(Protect(rest, Display, c))
    ensures Protect(Opener(Inline) + x + rest, Display, c).toks == Protect(rest, Display, c).toks
  {
    var u := "(" + x;
    assert '\\' !in u;
    NoBackslashAt(u);
    ProtectSkip(u, rest, Display, c);
    DisplayPassBackslash(u + rest, c);
    var r := Render(Protect(rest, Display, c));
    assert Opener(Inline) == ['\\'] + "(";
    AppendAssoc(['\\'], "(", x);
    AppendAssoc(['\\'], u, rest);
    AppendAssoc(['\\'], u, r);
  }

  /** The display pass copies plain text followed by the inline closer `\)`. */
  lemma DisplayPassTail(z: string, c: nat)
    requires '\\' !in z
    ensures Render(Protect(z + Closer(Inline), Display, c)) == z + Closer(Inline)
    ensures Protect(z + Closer(Inline), Display, c).toks == []
  {
    NoBackslashAt(z);
    ProtectSkip(z, Closer(Inline), Display, c);
    DisplayPassCloser(c);
  }

  /** `\[y\]`. */
  function DisplaySeg(y: string): string
  {
    Opener(Display) + y + Closer(Display)
  }

  /** `\(x \[y\] z\)`. */
  function NestedText(x: string, y: string, z: string): string
  {
    Opener(Inline) + x + (DisplaySeg(y) + (z + Closer(Inline)))
  }

  /** `\(x P z\)`, with `P` display placeholder 0. */
  function NestedRendered(x: string, z: string): string
  {
    Opener(Inline) + x + (Token(Display, 0) + (z + Closer(Inline)))
  }

  /** The display pass on `\[y\] z\)` replaces the display math and copies the rest. */
  lemma DisplayPassInner(y: string, z: string)
    requires '\\' !in y + z
    ensures Render(Protect(DisplaySeg(y) + (z + Closer(Inline)), Display, 0)) == Token(Display, 0) + (z + Closer(Inline))
    ensures Protect(DisplaySeg(y) + (z + Closer(Inline)), Display, 0).toks == [Tok(Display, 0, DisplaySeg(y))]
  {
    DisplayPassTail(z, 1);
    ProtectSegment(DisplaySeg(y), y, z + Closer(Inline), Display, 0);
  }

  /** The display pass on `\(x \[y\] z\)` replaces the inner display math only. */
  lemma NestedDisplayPass(x: string, y: string, z: string)
    requires '\\' !in x + y + z
    ensures Render(DisplayLayout(NestedText(x, y, z))) == NestedRendered(x, z)
    ensures DisplayLayout(NestedText(x, y, z)).toks == [Tok(Display, 0, DisplaySeg(y))]
  {
    assert '\\' !in y + z;
    DisplayPassInner(y, z);
    DisplayPassOpener(x, DisplaySeg(y) + (z + Closer(Inline)), 0);
  }

  /** The rendered inline math is one inline segment around plain text and the display placeholder. */
  lemma NestedRenderedSegment(x: string, z: string)
    ensures NestedRendered(x, z) == Opener(Inline) + (x + Token(Display, 0) + z) + Closer(Inline)
  {
  }

  /** The inline pass then records the whole inline math, display placeholder included, as one segment. */
  lemma NestedLayout(x: string, y: string, z: string)
    requires '\\' !in x + y + z
    ensures ProtectedText(NestedText(x, y, z)) == Token(Inline, 1)
    ensures Placeholders(NestedText(x, y, z)) == [DisplaySeg(y), NestedRendered(x, z)]
  {
    var t := NestedText(x, y, z);
    var p0 := Token(Display, 0);
    var r := NestedRendered(x, z);
    NestedDisplayPass(x, y, z);
    TokenChars(Display, 0);
    assert '\\' !in p0;
    NestedRenderedSegment(x, z);
    assert r + "" == r;
    ProtectSegment(r, x + p0 + z, "", Inline, 1);
    assert Render(InlineLayout(t)) == Token(Inline, 1) + "";
  }

  /** Restoring `[m0, m1]` into inline placeholder 1 alone gives `m1`. */
  lemma RestoreInlineOne(m0: string, m1: string)
    requires '$' !in m0 && '$' !in m1
    ensures RestoreFrom(Token(Inline, 1), [m0, m1], 0) == m1
  {
    var q := Token(Inline, 1);
    var ph := [m0, m1];
    RestoreOneIsSubstitute(q, Display, 0, m0);
    SubstituteToken(Inline, 1, Display, 0, m0);
    RestoreOneIsSubstitute(q, Inline, 0, m0);
    SubstituteToken(Inline, 1, Inline, 0, m0);
    assert RestoreFrom(q, ph, 0) == RestoreFrom(q, ph, 1);
    RestoreOneIsSubstitute(q, Display, 1, m1);
    SubstituteToken(Inline, 1, Display, 1, m1);
    RestoreOneIsSubstitute(q, Inline, 1, m1);
    SubstituteToken(Inline, 1, Inline, 1, m1);
    assert RestoreFrom(q, ph, 1) == RestoreFrom(m1, ph, 2);
  }

  /** The rendered text holds a marker letter that `\(x \[y\] z\)` lacks. */
  lemma NestedRenderedDiffers(x: string, y: string, z: string)
    requires 'M' !in x + y + z
    ensures NestedRendered(x, z) != NestedText(x, y, z)
  {
    var p0 := Token(Display, 0);
    TokenChars(Display, 0);
    assert NestedRendered(x, z)[2 + |x|..2 + |x| + |p0|] == p0;
    assert 'M' in NestedRendered(x, z);
  }

  /**
   * `\(x \[y\] z\)` (here `x`, `y` and `z` hold no backslash, `$` or `M`)
   * has no marker, yet the restored text keeps the display placeholder:
   * the inline segment was recorded after the display pass had replaced the
   * inner math, and display placeholder 0 was restored before it came back.
   */
  lemma NestedBreaksRoundTrip(x: string, y: string, z: string)
    requires '\\' !in x + y + z && '$' !in x + y + z && 'M' !in x + y + z
    ensures var t := NestedText(x, y, z);
            RestoreFrom(ProtectedText(t), Placeholders(t), 0) == NestedRendered(x, z) &&
            NestedRendered(x, z) != t
  {
    NestedLayout(x, y, z);
    TokenNoDollar(Display, 0);
    assert '$' !in DisplaySeg(y) && '$' !in NestedRendered(x, z);
    RestoreInlineOne(DisplaySeg(y), NestedRendered(x, z));
    NestedRenderedDiffers(x, y, z);
  }

  // ---------------------------------------------------------------------
  // A closer followed by `_`: `\[a\]\[b\]_DISPLAY_0_\[c\]`
  // ---------------------------------------------------------------------

  /** `\[a\]\[b\]_DISPLAY_0_\[c\]`. */
  function UnderText(a: string, b: string, c: string): string
  {
    DisplaySeg(a) + (DisplaySeg(b) + (Middle(Display, 0) + DisplaySeg(c)))
  }

  /** The display pass's output on it: placeholders 0 and 1, the plain `_DISPLAY_0_`, placeholder 2. */
  function UnderRendered(): string
  {
    Token(Display, 0) + (Token(Display, 1) + (Middle(Display, 0) + Token(Display, 2)))
  }

  /**
   * What the restore makes of it, `\[a\]MATHPLACEHOLDER_DISPLAY_1_\[a\]_DISPLAY_2_MATHPLACEHOLDER`:
   * the end of placeholder 1, the plain text and the start of placeholder 2
   * spell placeholder 0, which is restored first, in both places.
   */
  function UnderRestored(a: string): string
  {
    DisplaySeg(a) + MARKER + (Middle(Display, 1) + DisplaySeg(a) + Middle(Display, 2)) + MARKER
  }

  /** The display pass on plain text `u` followed by one display segment. */
  lemma PlainThenSegment(u: string, x: string, c: nat)
    requires '\\' !in u && '\\' !in x
    ensures Render(Protect(u + DisplaySeg(x), Display, c)) == u + Token(Display, c)
    ensures Protect(u + DisplaySeg(x), Display, c).toks == [Tok(Display, c, DisplaySeg(x))]
  {
    var seg := DisplaySeg(x);
    assert seg + "" == seg;
    ProtectSegment(seg, x, "", Display, c);
    assert Render(Protect("", Display, c + 1)) == "";
    NoBackslashAt(u);
    ProtectSkip(u, seg, Display, c);
  }

  /** Two display segments in a row become two consecutive placeholders. */
  lemma TwoSegments(a: string, b: string, rest: string, c: nat)
    requires '\\' !in a && '\\' !in b
    ensures Render(Protect(DisplaySeg(a) + (DisplaySeg(b) + rest), Display, c)) ==
            Token(Display, c) + (Token(Display, c + 1) + Render(Protect(rest, Display, c + 2)))
    ensures Protect(DisplaySeg(a) + (DisplaySeg(b) + rest), Display, c).toks ==
            [Tok(Display, c, DisplaySeg(a)), Tok(Display, c + 1, DisplaySeg(b))] + Protect(rest, Display, c + 2).toks
  {
    ProtectSegment(DisplaySeg(b), b, rest, Display, c + 1);
    ProtectSegment(DisplaySeg(a), a, DisplaySeg(b) + rest, Display, c);
  }

  /** The display pass on `\[a\]\[b\]u\[c\]` for plain `u`, with counters `n0`, `n1`, `n2` in a row. */
  lemma ThreeSegments(a: string, b: string, u: string, c: string, n0: nat, n1: nat, n2: nat)
    requires '\\' !in a && '\\' !in b && '\\' !in u && '\\' !in c
    requires n1 == n0 + 1 && n2 == n0 + 2
    ensures Render(Protect(DisplaySeg(a) + (DisplaySeg(b) + (u + DisplaySeg(c))), Display, n0)) ==
            Token(Display, n0) + (Token(Display, n1) + (u + Token(Display, n2)))
    ensures Protect(DisplaySeg(a) + (DisplaySeg(b) + (u + DisplaySeg(c))), Display, n0).toks ==
            [Tok(Display, n0, DisplaySeg(a)), Tok(Display, n1, DisplaySeg(b)), Tok(Display, n2, DisplaySeg(c))]
  {
    PlainThenSegment(u, c, n2);
    TwoSegments(a, b, u + DisplaySeg(c), n0);
  }

  /** The display pass replaces the three display segments and copies `_DISPLAY_0_`. */
  lemma UnderDisplayPass(a: string, b: string, c: string)
    requires '\\' !in a + b + c
    ensures Render(DisplayLayout(UnderText(a, b, c))) == UnderRendered()
    ensures DisplayLayout(UnderText(a, b, c)).toks ==
            [Tok(Display, 0, DisplaySeg(a)), Tok(Display, 1, DisplaySeg(b)), Tok(Display, 2, DisplaySeg(c))]
  {
    assert '\\' !in a && '\\' !in b && '\\' !in c;
    MiddlePlain(Display, 0);
    PlainLetters(Middle(Display, 0));
    ThreeSegments(a, b, Middle(Display, 0), c, 0, 1, 2);
    var t := UnderText(a, b, c);
    assert DisplayLayout(t) == Protect(t, Display, 0);
  }

  /** The display pass's output holds no backslash. */
  lemma UnderRenderedNoBackslash()
    ensures forall q :: 0 <= q < |UnderRendered()| ==> UnderRendered()[q] != '\\'
  {
    TokenChars(Display, 0);
    TokenChars(Display, 1);
    TokenChars(Display, 2);
    MiddlePlain(Display, 0);
    var u := Middle(Display, 0);
    assert forall q :: 0 <= q < |u| ==> u[q] != '\\';
    assert '\\' !in Token(Display, 0) && '\\' !in Token(Display, 1) && '\\' !in Token(Display, 2) && '\\' !in u;
    NoBackslashAt(UnderRendered());
  }

  /** The inline pass copies text without a backslash and finds nothing. */
  lemma InlineIdle(r: string, n: nat)
    requires forall q :: 0 <= q < |r| ==> r[q] != '\\'
    ensures Render(Protect(r, Inline, n)) == r && Protect(r, Inline, n).toks == []
  {
    assert r + "" == r;
    ProtectSkip(r, "", Inline, n);
    assert Protect("", Inline, n) == Layout([""], []);
  }

  /** The inline pass finds nothing, so the placeholders are the three display segments. */
  lemma UnderLayout(a: string, b: string, c: string)
    requires '\\' !in a + b + c
    ensures ProtectedText(UnderText(a, b, c)) == UnderRendered()
    ensures Placeholders(UnderText(a, b, c)) == [DisplaySeg(a), DisplaySeg(b), DisplaySeg(c)]
  {
    var t := UnderText(a, b, c);
    UnderDisplayPass(a, b, c);
    UnderRenderedNoBackslash();
    InlineLayoutIdle(t);
    SegsThree(Tok(Display, 0, DisplaySeg(a)), Tok(Display, 1, DisplaySeg(b)), Tok(Display, 2, DisplaySeg(c)));
  }

  /** The segments of three placeholders. */
  lemma SegsThree(x: Tok, y: Tok, z: Tok)
    ensures Segs([x, y, z]) == [x.seg, y.seg, z.seg]
  {
    assert [z][1..] == [] && Segs([z]) == [z.seg];
    assert [y, z][1..] == [z] && Segs([y, z]) == [y.seg, z.seg];
    assert [x, y, z][1..] == [y, z];
  }

  /** When the display pass leaves no backslash, the inline pass changes nothing. */
  lemma InlineLayoutIdle(t: string)
    requires forall q :: 0 <= q < |Render(DisplayLayout(t))| ==> Render(DisplayLayout(t))[q] != '\\'
    ensures ProtectedText(t) == Render(DisplayLayout(t))
    ensures Placeholders(t) == Segs(DisplayLayout(t).toks)
  {
    var d := DisplayLayout(t);
    InlineIdle(Render(d), |d.toks|);
    assert Segs(InlineLayout(t).toks) == [];
  }

  /** Placeholder 1, `_DISPLAY_0_` and placeholder 2 hold placeholder 0 across their joins. */
  lemma UnderSplit()
    ensures UnderRendered() ==
            Token(Display, 0) + ((MARKER + Middle(Display, 1)) + (Token(Display, 0) + (Middle(Display, 2) + MARKER)))
  {
    MiddleToken(Display, 0);
    MiddleToken(Display, 1);
    MiddleToken(Display, 2);
    Rebracket(Token(Display, 0), MARKER, Middle(Display, 0), Middle(Display, 1), Middle(Display, 2));
  }

  /** The regrouping behind UnderSplit, on any strings. */
  lemma Rebracket(p: string, k: string, m0: string, m1: string, m2: string)
    ensures p + ((k + m1 + k) + (m0 + (k + m2 + k))) == p + ((k + m1) + ((k + m0 + k) + (m2 + k)))
  {
    assert (k + m1 + k) + (m0 + (k + m2 + k)) == (k + m1) + ((k + m0 + k) + (m2 + k));
  }

  /** A single-digit placeholder is at most 41 characters long. */
  lemma TokenShort(k: Kind, i: nat)
    requires i < 10
    ensures |Token(k, i)| <= 41
  {
    assert |NatToString(i)| == 1;
  }

  /**
   * A marker followed by plain text holds no occurrence of a pattern that
   * starts with `M`, except possibly one at its very start.
   */
  lemma {:induction false} MarkerFrontNoStraddle(w: string, rest: string, pat: string)
    requires Plain(w) && |pat| > 0 && pat[0] == 'M'
    requires !OccursAt(MARKER + w + rest, pat, 0)
    ensures NoStraddle(MARKER + w, rest, pat)
  {
    var y := MARKER + w;
    MarkerChars();
    forall p: nat | 0 < p < |y|
      ensures !OccursAt(y + rest, pat, p)
    {
      assert (y + rest)[p] == y[p];
      if p < 15 {
        assert y[p] == MARKER[p];
      } else {
        assert y[p] == w[p - 15];
      }
      if p + |pat| <= |y + rest| {
        assert (y + rest)[p..p + |pat|][0] == y[p];
      }
    }
  }

  /** Substituting a pattern that occurs exactly at both ends of short text `y`. */
  lemma {:induction false} SubstituteTwice(p: string, y: string, z: string, m: string)
    requires |y| < |p| && |z| < |p| && NoStraddle(y, p + z, p)
    ensures Substitute(p + (y + (p + z)), p, m) == m + (y + (m + z))
  {
    var x := y + (p + z);
    assert (p + x)[..|p|] == p && (p + x)[|p|..] == x;
    assert Substitute(p + x, p, m) == m + Substitute(x, p, m);
    SubstituteAppend(y, p + z, p, m);
    assert Substitute(y, p, m) == y;
    assert (p + z)[..|p|] == p && (p + z)[|p|..] == z;
    assert Substitute(p + z, p, m) == m + Substitute(z, p, m);
    assert Substitute(z, p, m) == z;
  }

  /** Restoring placeholder 0 rewrites both of its occurrences. */
  lemma UnderFirstRestore(m: string)
    ensures Substitute(UnderRendered(), Token(Display, 0), m) ==
            m + ((MARKER + Middle(Display, 1)) + (m + (Middle(Display, 2) + MARKER)))
  {
    var p0 := Token(Display, 0);
    var y := MARKER + Middle(Display, 1);
    var z := Middle(Display, 2) + MARKER;
    UnderSplit();
    TokenChars(Display, 0);
    MiddleToken(Display, 0);
    MiddleToken(Display, 1);
    TokenShort(Display, 1);
    TokenShort(Display, 2);
    MiddlePlain(Display, 1);
    TokenInjective(Display, 1, Display, 0);
    assert (y + (p0 + z))[..|p0|] == y + MARKER;
    MarkerFrontNoStraddle(Middle(Display, 1), p0 + z, p0);
    SubstituteTwice(p0, y, z, m);
  }

  /** Two markers too far apart to be the two ends of one placeholder hold no placeholder between them. */
  lemma {:induction false} MarkersApart(a: string, w: string, k: Kind, i: nat)
    requires 'M' !in a && 'M' !in w && |Token(k, i)| != 30 + |w|
    ensures !Contains(a + MARKER + w + MARKER, Token(k, i))
  {
    var s := a + MARKER + w + MARKER;
    var t := Token(k, i);
    var m2 := |a| + 15 + |w|;
    TokenChars(k, i);
    MarkerChars();
    forall q | 0 <= q < |s| && q != |a| && q != m2
      ensures s[q] != 'M'
    {
      if q < |a| {
        assert s[q] == a[q] && a[q] in a;
      } else if q < |a| + 15 {
        assert s[q] == MARKER[q - |a|];
      } else if q < m2 {
        assert s[q] == w[q - |a| - 15] && w[q - |a| - 15] in w;
      } else {
        assert s[q] == MARKER[q - m2];
      }
    }
    forall p: nat | p <= |s|
      ensures !OccursAt(s, t, p)
    {
      if p + |t| <= |s| {
        var u := s[p..p + |t|];
        if s[p] != 'M' {
          assert u[0] != t[0];
        } else {
          assert p == |a|;
          assert u[|t| - 15] == s[p + |t| - 15] != 'M';
        }
      }
    }
  }

  /** No placeholder of a single-digit index occurs in the restored text, so the later steps leave it alone. */
  lemma UnderRestoredStable(a: string, k: Kind, i: nat, m: string)
    requires 'M' !in a && i < 10
    ensures RestoreOne(UnderRestored(a), k, i, m) == UnderRestored(a)
  {
    var w := Middle(Display, 1) + DisplaySeg(a) + Middle(Display, 2);
    MiddlePlain(Display, 1);
    MiddlePlain(Display, 2);
    assert 'M' !in Middle(Display, 1) && 'M' !in Middle(Display, 2) && 'M' !in DisplaySeg(a);
    assert 'M' !in w;
    TokenShort(k, i);
    MarkersApart(DisplaySeg(a), w, k, i);
  }

  /** Restoring placeholder 0 gives the restored text. */
  lemma UnderFirstStep(a: string)
    requires '$' !in a
    ensures RestoreOne(UnderRendered(), Display, 0, DisplaySeg(a)) == UnderRestored(a)
  {
    var m := DisplaySeg(a);
    assert '$' !in m;
    RestoreOneIsSubstitute(UnderRendered(), Display, 0, m);
    UnderFirstRestore(m);
    Regroup(m, MARKER, Middle(Display, 1), Middle(Display, 2));
  }

  /** The regrouping behind UnderFirstStep, on any strings. */
  lemma Regroup(m: string, k: string, m1: string, m2: string)
    ensures m + ((k + m1) + (m + (m2 + k))) == m + k + (m1 + m + m2) + k
  {
  }

  /** A restore from index `j` on leaves alone a text none of whose remaining steps changes it. */
  lemma {:induction false} RestoreFromFixed(h: string, ph: seq<string>, j: nat)
    requires j <= |ph|
    requires forall k: Kind, i | j <= i < |ph| :: RestoreOne(h, k, i, ph[i]) == h
    ensures RestoreFrom(h, ph, j) == h
    decreases |ph| - j
  {
    if j < |ph| {
      assert RestoreOne(h, Display, j, ph[j]) == h && RestoreOne(h, Inline, j, ph[j]) == h;
      RestoreFromFixed(h, ph, j + 1);
    }
  }

  /**
   * `\[a\]\[b\]_DISPLAY_0_\[c\]` (here `a`, `b` and `c` hold no backslash,
   * `$` or `M`) has no marker, yet the restore turns it into
   * UnderRestored(a): display math `b` and `c` are lost and `a` appears twice.
   */
  lemma UnderscoreBreaksRoundTrip(a: string, b: string, c: string)
    requires '\\' !in a + b + c && '$' !in a + b + c && 'M' !in a + b + c
    ensures var t := UnderText(a, b, c);
            RestoreFrom(ProtectedText(t), Placeholders(t), 0) == UnderRestored(a) &&
            UnderRestored(a) != t
  {
    var t := UnderText(a, b, c);
    var h := UnderRestored(a);
    var ph := [DisplaySeg(a), DisplaySeg(b), DisplaySeg(c)];
    assert '$' !in a && 'M' !in a;
    UnderLayout(a, b, c);
    UnderFirstStep(a);
    forall k: Kind, i | 0 <= i < 3
      ensures RestoreOne(h, k, i, ph[i]) == h
    {
      UnderRestoredStable(a, k, i, ph[i]);
    }
    assert RestoreFrom(UnderRendered(), ph, 0) == RestoreFrom(h, ph, 1);
    RestoreFromFixed(h, ph, 1);
    UnderDiffers(a, b, c);
  }

  /** The restored text holds a marker letter that `\[a\]\[b\]_DISPLAY_0_\[c\]` lacks. */
  lemma UnderDiffers(a: string, b: string, c: string)
    requires 'M' !in a + b + c
    ensures UnderRestored(a) != UnderText(a, b, c)
  {
    var u := Middle(Display, 0);
    MiddlePlain(Display, 0);
    PlainLetters(u);
    assert 'M' !in a && 'M' !in b && 'M' !in c;
    NoMarkerLetter(a, b, u, c);
    MarkerChars();
    assert UnderRestored(a)[|DisplaySeg(a)|] == 'M';
  }

  /** `\[a\]\[b\]u\[c\]` has no `M` when its pieces have none. */
  lemma NoMarkerLetter(a: string, b: string, u: string, c: string)
    requires 'M' !in a && 'M' !in b && 'M' !in u && 'M' !in c
    ensures 'M' !in DisplaySeg(a) + (DisplaySeg(b) + (u + DisplaySeg(c)))
  {
  }
}
