/**
 * When restoring placeholders gives back the protected text (js/app.js:132-178
 * with `marked` taken as the identity). MathCounterexamples exhibits, for each
 * condition of MathRoundTrip below, texts breaking it that do not come back.
 *
 * The argument goes through layouts: the protected text is cut into plain
 * runs and placeholders, each restore step is shown to turn exactly one
 * placeholder back into its segment, and the passes are shown to produce
 * such a layout of the original text.
 */
module MathRoundTrip {
  import opened Wrappers
  import opened Text
  import opened JsReplace
  import opened MathPlaceholders

  // ---------------------------------------------------------------------
  // The characters of a placeholder
  // ---------------------------------------------------------------------

  /** The marker begins with its only `M` and ends with its only `R`; it has no `\` or `_`. */
  lemma {:induction false} MarkerChars()
    ensures |MARKER| == 15 && MARKER[0] == 'M' && MARKER[14] == 'R'
    ensures forall q :: 0 < q < 15 ==> MARKER[q] != 'M'
    ensures forall q :: 0 <= q < 14 ==> MARKER[q] != 'R'
    ensures forall q :: 0 <= q < 15 ==> MARKER[q] != '\\' && MARKER[q] != '_'
  {
  }

  /** The part of a placeholder between its two markers. */
  function Middle(k: Kind, i: nat): string
  {
    "_" + KindName(k) + "_" + NatToString(i) + "_"
  }

  /** Text with neither an `M` nor a backslash. */
  predicate Plain(s: string)
  {
    forall q :: 0 <= q < |s| ==> s[q] != 'M' && s[q] != '\\'
  }

  lemma PlainAppend(a: string, b: string)
    requires Plain(a) && Plain(b)
    ensures Plain(a + b)
  {
  }

  /** A placeholder is its middle between two markers. */
  lemma {:induction false} MiddleToken(k: Kind, i: nat)
    ensures Token(k, i) == MARKER + Middle(k, i) + MARKER
  {
    var name, digits := KindName(k), NatToString(i);
    AppendAssoc(MARKER, "_" + name, "_");
    AppendAssoc(MARKER, "_", name);
    AppendAssoc(MARKER, "_" + name + "_", digits);
    AppendAssoc(MARKER, "_" + name + "_" + digits, "_");
  }

  /** The middle starts with an underscore and holds at least the kind name, the number and three underscores. */
  lemma {:induction false} MiddleShape(k: Kind, i: nat)
    ensures |Middle(k, i)| >= 10 && Middle(k, i)[0] == '_'
  {
  }

  /** The middle holds neither an `M` nor a backslash. */
  lemma {:induction false} MiddlePlain(k: Kind, i: nat)
    ensures Plain(Middle(k, i))
  {
    var name, digits := KindName(k), NatToString(i);
    NatToStringDigits(i);
    assert Plain(name) && Plain(digits) && Plain("_");
    PlainAppend("_", name);
    PlainAppend("_" + name, "_");
    PlainAppend("_" + name + "_", digits);
    PlainAppend("_" + name + "_" + digits, "_");
  }

  /**
   * A placeholder starts with `M`, ends with `R`, has `_` right after its
   * first marker, contains no backslash, and has `M` only where a marker starts.
   */
  lemma {:induction false} TokenChars(k: Kind, i: nat)
    ensures var t := Token(k, i);
      |t| >= 40 && t[..15] == MARKER && t[|t| - 15..] == MARKER &&
      t[0] == 'M' && t[|t| - 1] == 'R' && t[15] == '_' &&
      (forall p :: 0 <= p < |t| ==> t[p] != '\\') &&
      (forall p :: 0 <= p < |t| && t[p] == 'M' ==> p == 0 || p == |t| - 15)
  {
    MarkerChars();
    MiddleToken(k, i);
    MiddleShape(k, i);
    MiddlePlain(k, i);
    var t := Token(k, i);
    var m := Middle(k, i);
    forall p | 0 <= p < |t|
      ensures t[p] != '\\'
      ensures t[p] == 'M' ==> p == 0 || p == |t| - 15
    {
      if p < 15 {
        assert t[p] == MARKER[p];
      } else if p < 15 + |m| {
        assert t[p] == m[p - 15];
      } else {
        assert t[p] == MARKER[p - 15 - |m|];
      }
    }
  }

  /** Placeholder text identifies its kind and number: one placeholder is a prefix of another only if they are equal. */
  lemma {:induction false} TokenPrefix(k1: Kind, i1: nat, k2: Kind, i2: nat)
    requires |Token(k1, i1)| <= |Token(k2, i2)|
    requires Token(k1, i1) == Token(k2, i2)[..|Token(k1, i1)|]
    ensures k1 == k2 && i1 == i2
  {
    TokenKindPrefix(k1, i1, k2, i2);
    var head, tail := MARKER + "_" + KindName(k1) + "_", "_" + MARKER;
    var d1, d2 := NatToString(i1), NatToString(i2);
    TokenParts(k1, i1);
    TokenParts(k2, i2);
    HeadPrefix(head, d1 + tail, d2 + tail);
    NatToStringDigits(i1);
    NatToStringDigits(i2);
    DigitsPrefix(d1, d2, tail, tail);
    NatToStringInjective(i1, i2);
  }

  /** The kind name sits at the same place in every placeholder, and kind names differ in their first letter. */
  lemma {:induction false} TokenKindPrefix(k1: Kind, i1: nat, k2: Kind, i2: nat)
    requires |Token(k1, i1)| <= |Token(k2, i2)|
    requires Token(k1, i1) == Token(k2, i2)[..|Token(k1, i1)|]
    ensures k1 == k2
  {
    var t1, t2 := Token(k1, i1), Token(k2, i2);
    assert t1[16] == KindName(k1)[0] && t2[16] == KindName(k2)[0];
    assert t1[16] == t2[16];
  }

  /** A placeholder is its kind-dependent head, then its number, then the closing marker. */
  lemma {:induction false} TokenParts(k: Kind, i: nat)
    ensures Token(k, i) == (MARKER + "_" + KindName(k) + "_") + (NatToString(i) + ("_" + MARKER))
  {
    var head := MARKER + "_" + KindName(k) + "_";
    AppendAssoc(head + NatToString(i), "_", MARKER);
    AppendAssoc(head, NatToString(i), "_" + MARKER);
  }

  /** Dropping a common head from a text and a longer one keeps the prefix relation. */
  lemma {:induction false} HeadPrefix(h: string, u1: string, u2: string)
    requires |h + u1| <= |h + u2| && h + u1 == (h + u2)[..|h + u1|]
    ensures |u1| <= |u2| && u1 == u2[..|u1|]
  {
    forall q | 0 <= q < |u1|
      ensures u1[q] == u2[q]
    {
      assert (h + u1)[|h| + q] == (h + u2)[|h| + q];
    }
  }

  /** A run of digits ended by an underscore is a prefix of another such run only when the digits agree. */
  lemma {:induction false} DigitsPrefix(d1: string, d2: string, x1: string, x2: string)
    requires AllDigits(d1) && AllDigits(d2)
    requires |x1| > 0 && x1[0] == '_' && |x2| > 0 && x2[0] == '_'
    requires |d1 + x1| <= |d2 + x2| && d1 + x1 == (d2 + x2)[..|d1 + x1|]
    ensures d1 == d2
  {
    assert (d1 + x1)[|d1|] == '_';
    assert forall q :: 0 <= q < |d2| ==> (d2 + x2)[q] == d2[q];
    assert |d2| <= |d1|;
    assert (d2 + x2)[|d2|] == '_';
    assert forall q :: 0 <= q < |d1| ==> (d1 + x1)[q] == d1[q];
    assert |d1| == |d2|;
    forall q | 0 <= q < |d1|
      ensures d1[q] == d2[q]
    {
      assert (d1 + x1)[q] == (d2 + x2)[q];
    }
  }

  /** Distinct placeholders have distinct text. */
  lemma {:induction false} TokenInjective(k1: Kind, i1: nat, k2: Kind, i2: nat)
    ensures Token(k1, i1) == Token(k2, i2) <==> k1 == k2 && i1 == i2
  {
    if Token(k1, i1) == Token(k2, i2) {
      TokenPrefix(k1, i1, k2, i2);
    }
  }

  // ---------------------------------------------------------------------
  // Where a placeholder can occur
  // ---------------------------------------------------------------------

  /** Where `u` occurs, so does each prefix of it. */
  lemma {:induction false} OccursPrefix(s: string, u: string, p: nat, n: nat)
    requires OccursAt(s, u, p) && n <= |u|
    ensures OccursAt(s, u[..n], p)
  {
    assert s[p..p + n] == u[..n];
  }

  /** Text without the marker holds no placeholder. */
  lemma {:induction false} NoMarkerNoToken(s: string, k: Kind, i: nat)
    requires !Contains(s, MARKER)
    ensures forall p: nat :: !OccursAt(s, Token(k, i), p)
  {
    TokenChars(k, i);
    var t := Token(k, i);
    forall p: nat | OccursAt(s, t, p)
      ensures false
    {
      OccursPrefix(s, t, p, 15);
    }
  }

  /**
   * An occurrence of `t` in `a + b` that starts inside `a` either ends inside
   * `a` or runs on into `b`, agreeing with the end of `a` on the way.
   */
  lemma {:induction false} Overlap(a: string, b: string, t: string, p: nat)
    requires p < |a| && OccursAt(a + b, t, p)
    ensures p + |t| <= |a| ||
      (|b| > 0 && t[|a| - p] == b[0] && a[p] == t[0] && t[..|a| - p] == a[p..] &&
       (|a| - p >= 15 ==> OccursAt(a, t[..15], p)))
  {
    if |a| < p + |t| {
      var n := |a| - p;
      assert (a + b)[p..p + |t|] == t;
      assert t[n] == (a + b)[|a|];
      assert t[..n] == a[p..];
      if n >= 15 {
        assert a[p..p + 15] == t[..15];
      }
    }
  }

  /**
   * A placeholder never straddles the end of marker-free text followed by
   * something that starts with `M`.
   */
  lemma {:induction false} NoStraddleAfterText(a: string, b: string, k: Kind, i: nat)
    requires !Contains(a, MARKER) && |b| > 0 && b[0] == 'M'
    ensures forall p: nat :: p < |a| && OccursAt(a + b, Token(k, i), p) ==> p + |Token(k, i)| <= |a|
  {
    TokenChars(k, i);
    var t := Token(k, i);
    forall p: nat | p < |a| && OccursAt(a + b, t, p)
      ensures p + |t| <= |a|
    {
      Overlap(a, b, t, p);
    }
  }

  /**
   * A placeholder never straddles the end of another placeholder unless an
   * underscore follows it.
   */
  lemma {:induction false} NoStraddleAfterToken(k1: Kind, i1: nat, b: string, k: Kind, i: nat)
    requires b == [] || b[0] != '_'
    ensures var u := Token(k1, i1);
      forall p: nat :: p < |u| && OccursAt(u + b, Token(k, i), p) ==> p + |Token(k, i)| <= |u|
  {
    TokenChars(k1, i1);
    TokenChars(k, i);
    var u := Token(k1, i1);
    var t := Token(k, i);
    forall p: nat | p < |u| && OccursAt(u + b, t, p)
      ensures p + |t| <= |u|
    {
      Overlap(u, b, t, p);
      if p == 0 && |u| <= |t| && u == t[..|u|] {
        TokenPrefix(k1, i1, k, i);
      }
    }
  }

  /** A placeholder occurs in another only as the whole of it. */
  lemma {:induction false} TokenOccurs(k1: Kind, i1: nat, k: Kind, i: nat, p: nat)
    requires OccursAt(Token(k1, i1), Token(k, i), p)
    ensures p == 0 && k1 == k && i1 == i
  {
    TokenChars(k1, i1);
    TokenChars(k, i);
    var u := Token(k1, i1);
    var t := Token(k, i);
    assert u[p] == t[0];
    assert p == 0;
    assert t == u[..|t|];
    TokenPrefix(k, i, k1, i1);
  }

  /** Substituting one placeholder in another changes it only if they are the same. */
  lemma {:induction false} SubstituteToken(k1: Kind, i1: nat, k: Kind, i: nat, rep: string)
    ensures Substitute(Token(k1, i1), Token(k, i), rep) == if k1 == k && i1 == i then rep else Token(k1, i1)
  {
    var u := Token(k1, i1);
    var t := Token(k, i);
    if k1 == k && i1 == i {
      SubstituteWhole(t, rep);
    } else {
      TokenChars(k1, i1);
      TokenChars(k, i);
      forall p: nat | OccursAt(u, t, p)
        ensures false
      {
        TokenOccurs(k1, i1, k, i, p);
      }
      SubstituteAbsent(u, t, rep);
    }
  }

  /** Text containing no occurrence of the marker: neither does any part of it. */
  lemma {:induction false} ContainsAppend(a: string, b: string, pat: string)
    requires !Contains(a + b, pat)
    ensures !Contains(a, pat) && !Contains(b, pat)
  {
    forall q: nat | q <= |a| && OccursAt(a, pat, q)
      ensures OccursAt(a + b, pat, q)
    {
      assert (a + b)[q..q + |pat|] == a[q..q + |pat|];
    }
    forall q: nat | q <= |b| && OccursAt(b, pat, q)
      ensures OccursAt(a + b, pat, |a| + q)
    {
      assert (a + b)[|a| + q..|a| + q + |pat|] == b[q..q + |pat|];
    }
  }

  // ---------------------------------------------------------------------
  // Layouts whose placeholders can be found again
  // ---------------------------------------------------------------------

  /** Empty, or not starting with an underscore. */
  predicate FirstOk(x: string)
  {
    x == [] || x[0] != '_'
  }

  /** No run after a placeholder starts with an underscore. */
  predicate RunsOk(l: Layout)
  {
    forall m :: 1 <= m < |l.texts| ==> FirstOk(l.texts[m])
  }

  /** Every segment is non-empty and does not start with an underscore. */
  predicate SegsOk(toks: seq<Tok>)
  {
    forall tok <- toks :: |tok.seg| > 0 && tok.seg[0] != '_'
  }

  /** The placeholders of one kind, in text order. */
  function OfKind(toks: seq<Tok>, k: Kind): (r: seq<Tok>)
    ensures |r| <= |toks|
  {
    if |toks| == 0 then []
    else (if toks[0].kind == k then [toks[0]] else []) + OfKind(toks[1..], k)
  }

  lemma {:induction false} OfKindAppend(a: seq<Tok>, b: seq<Tok>, k: Kind)
    ensures OfKind(a + b, k) == OfKind(a, k) + OfKind(b, k)
    decreases |a|
  {
    if |a| > 0 {
      assert (a + b)[1..] == a[1..] + b;
      OfKindAppend(a[1..], b, k);
    } else {
      assert a + b == b;
    }
  }

  lemma {:induction false} OfKindMember(toks: seq<Tok>, tok: Tok)
    requires tok in toks
    ensures tok in OfKind(toks, tok.kind)
    decreases |toks|
  {
    if toks[0] != tok {
      OfKindMember(toks[1..], tok);
    }
  }

  /** Every placeholder is of one kind or the other. */
  lemma {:induction false} OfKindCount(toks: seq<Tok>)
    ensures |OfKind(toks, Display)| + |OfKind(toks, Inline)| == |toks|
    decreases |toks|
  {
    if |toks| > 0 {
      OfKindCount(toks[1..]);
    }
  }

  /** Rendered text keeps the first run's shape: a placeholder starts with `M`. */
  lemma {:induction false} RenderStart(l: Layout)
    requires l.Shaped() && FirstOk(l.texts[0])
    ensures FirstOk(Render(l))
  {
    if |l.toks| > 0 && l.texts[0] == [] {
      TokenChars(l.toks[0].kind, l.toks[0].index);
      var t := Token(l.toks[0].kind, l.toks[0].index);
      assert Render(l) == l.texts[0] + t + Render(l.Tail());
      assert Render(l)[0] == t[0];
    } else if |l.toks| > 0 {
      assert Render(l) == l.texts[0] + Token(l.toks[0].kind, l.toks[0].index) + Render(l.Tail());
      assert Render(l)[0] == l.texts[0][0];
    }
  }

  /** The front of a rendered layout: its first run, first placeholder and the rest. */
  lemma {:induction false} RenderSplit(l: Layout)
    requires l.Shaped() && |l.toks| > 0
    ensures Render(l) == l.texts[0] + (Token(l.toks[0].kind, l.toks[0].index) + Render(l.Tail()))
    ensures Original(l) == l.texts[0] + (l.toks[0].seg + Original(l.Tail()))
  {
    RenderSplitText(l);
    RenderSplitOriginal(l);
  }

  lemma {:induction false} RenderSplitText(l: Layout)
    requires l.Shaped() && |l.toks| > 0
    ensures Render(l) == l.texts[0] + (Token(l.toks[0].kind, l.toks[0].index) + Render(l.Tail()))
  {
    AppendAssoc(l.texts[0], Token(l.toks[0].kind, l.toks[0].index), Render(l.Tail()));
  }

  lemma {:induction false} RenderSplitOriginal(l: Layout)
    requires l.Shaped() && |l.toks| > 0
    ensures Original(l) == l.texts[0] + (l.toks[0].seg + Original(l.Tail()))
  {
    AppendAssoc(l.texts[0], l.toks[0].seg, Original(l.Tail()));
  }

  lemma {:induction false} RunsTail(l: Layout)
    requires l.Shaped() && |l.toks| > 0 && RunsOk(l)
    ensures RunsOk(l.Tail()) && FirstOk(l.Tail().texts[0])
  {
    forall m | 1 <= m < |l.Tail().texts|
      ensures FirstOk(l.Tail().texts[m])
    {
      assert l.Tail().texts[m] == l.texts[m + 1];
    }
    assert l.Tail().texts[0] == l.texts[1];
  }

  /**
   * Substitution in a rendered layout works piece by piece: its first run,
   * its first placeholder and the rest, since no match straddles them.
   */
  lemma {:induction false} SubstituteFront(l: Layout, k: Kind, i: nat, rep: string)
    requires l.Shaped() && |l.toks| > 0 && !Contains(Original(l), MARKER) && RunsOk(l)
    ensures var t := Token(k, i);
      Substitute(Render(l), t, rep) ==
        l.texts[0] + (Substitute(Token(l.toks[0].kind, l.toks[0].index), t, rep) + Substitute(Render(l.Tail()), t, rep))
    ensures !Contains(Original(l.Tail()), MARKER) && RunsOk(l.Tail())
  {
    var t := Token(k, i);
    var tail := l.Tail();
    var u := Token(l.toks[0].kind, l.toks[0].index);
    var rest := Render(tail);
    TokenChars(k, i);
    TokenChars(l.toks[0].kind, l.toks[0].index);
    RenderSplit(l);
    RunsTail(l);
    ContainsAppend(l.texts[0], l.toks[0].seg + Original(tail), MARKER);
    ContainsAppend(l.toks[0].seg, Original(tail), MARKER);
    NoStraddleAfterText(l.texts[0], u + rest, k, i);
    SubstituteAppend(l.texts[0], u + rest, t, rep);
    NoMarkerNoToken(l.texts[0], k, i);
    SubstituteAbsent(l.texts[0], t, rep);
    RenderStart(tail);
    NoStraddleAfterToken(l.toks[0].kind, l.toks[0].index, rest, k, i);
    SubstituteAppend(u, rest, t, rep);
  }

  /**
   * Substituting a placeholder that the layout does not hold leaves its
   * rendering unchanged: no placeholder text appears by accident.
   */
  lemma {:induction false} SubstituteAbsentLayout(l: Layout, k: Kind, i: nat, rep: string)
    requires l.Shaped() && !Contains(Original(l), MARKER) && RunsOk(l)
    requires forall tok <- l.toks :: !(tok.kind == k && tok.index == i)
    ensures Substitute(Render(l), Token(k, i), rep) == Render(l)
    decreases |l.toks|
  {
    if |l.toks| == 0 {
      TokenChars(k, i);
      NoMarkerNoToken(l.texts[0], k, i);
      SubstituteAbsent(l.texts[0], Token(k, i), rep);
    } else {
      SubstituteFront(l, k, i, rep);
      SubstituteToken(l.toks[0].kind, l.toks[0].index, k, i, rep);
      SubstituteAbsentLayout(l.Tail(), k, i, rep);
      RenderSplit(l);
    }
  }

  /**
   * The first placeholder of kind `k` written back as its segment, joined
   * with the runs on either side.
   */
  function MergeFirst(l: Layout, k: Kind): (r: Layout)
    requires l.Shaped() && OfKind(l.toks, k) != []
    ensures r.Shaped() && |r.toks| == |l.toks| - 1
    decreases |l.toks|
  {
    if l.toks[0].kind == k then PrependText(l.texts[0] + l.toks[0].seg, l.Tail())
    else
      var r := MergeFirst(l.Tail(), k);
      Layout([l.texts[0]] + r.texts, [l.toks[0]] + r.toks)
  }

  /** Merging changes nothing in the original text. */
  lemma {:induction false} MergeFirstOriginal(l: Layout, k: Kind)
    requires l.Shaped() && OfKind(l.toks, k) != []
    ensures Original(MergeFirst(l, k)) == Original(l)
    decreases |l.toks|
  {
    var tail := l.Tail();
    RenderSplit(l);
    if l.toks[0].kind == k {
      RenderPrependText(l.texts[0] + l.toks[0].seg, tail);
      AppendAssoc(l.texts[0], l.toks[0].seg, Original(tail));
    } else {
      assert OfKind(l.toks, k) == OfKind(tail.toks, k);
      MergeFirstOriginal(tail, k);
      RenderCons(l.texts[0], l.toks[0], MergeFirst(tail, k));
    }
  }

  /** Merging removes exactly the first placeholder of its kind. */
  lemma {:induction false} MergeFirstKinds(l: Layout, k: Kind)
    requires l.Shaped() && OfKind(l.toks, k) != []
    ensures var m := MergeFirst(l, k);
      OfKind(m.toks, k) == OfKind(l.toks, k)[1..] &&
      (forall k' :: k' != k ==> OfKind(m.toks, k') == OfKind(l.toks, k')) &&
      (forall tok <- m.toks :: tok in l.toks)
    decreases |l.toks|
  {
    var m := MergeFirst(l, k);
    var tail := l.Tail();
    assert l.toks == [l.toks[0]] + tail.toks;
    if l.toks[0].kind == k {
      forall k' | k' != k
        ensures OfKind(m.toks, k') == OfKind(l.toks, k')
      {
        assert OfKind(l.toks, k') == OfKind(tail.toks, k');
      }
    } else {
      assert OfKind(l.toks, k) == OfKind(tail.toks, k);
      MergeFirstKinds(tail, k);
      var r := MergeFirst(tail, k);
      assert m.toks == [l.toks[0]] + r.toks;
      forall k' | k' != k
        ensures OfKind(m.toks, k') == OfKind(l.toks, k')
      {
        assert m.toks[1..] == r.toks;
      }
      assert m.toks[1..] == r.toks;
    }
  }

  /** Merging keeps every run after a placeholder free of a leading underscore. */
  lemma {:induction false} MergeFirstRuns(l: Layout, k: Kind)
    requires l.Shaped() && OfKind(l.toks, k) != [] && SegsOk(l.toks) && RunsOk(l)
    ensures RunsOk(MergeFirst(l, k))
    ensures FirstOk(l.texts[0]) ==> FirstOk(MergeFirst(l, k).texts[0])
    decreases |l.toks|
  {
    var m := MergeFirst(l, k);
    var tail := l.Tail();
    RunsTail(l);
    if l.toks[0].kind == k {
      assert l.toks[0] in l.toks;
      forall j | 1 <= j < |m.texts|
        ensures FirstOk(m.texts[j])
      {
        assert m.texts[j] == l.texts[j + 1];
      }
    } else {
      assert OfKind(l.toks, k) == OfKind(tail.toks, k);
      assert SegsOk(tail.toks);
      MergeFirstRuns(tail, k);
      var r := MergeFirst(tail, k);
      forall j | 1 <= j < |m.texts|
        ensures FirstOk(m.texts[j])
      {
        assert m.texts[j] == r.texts[j - 1];
      }
    }
  }

  /**
   * Substituting the first placeholder of kind `k`, when it carries number
   * `i` and no later one of that kind does, writes back exactly that one.
   */
  lemma {:induction false} SubstituteMergeFirst(l: Layout, k: Kind, i: nat)
    requires l.Shaped() && !Contains(Original(l), MARKER) && RunsOk(l)
    requires OfKind(l.toks, k) != [] && OfKind(l.toks, k)[0].index == i
    requires forall tok <- OfKind(l.toks, k)[1..] :: tok.index != i
    ensures Substitute(Render(l), Token(k, i), OfKind(l.toks, k)[0].seg) == Render(MergeFirst(l, k))
    decreases |l.toks|
  {
    var rep := OfKind(l.toks, k)[0].seg;
    var tail := l.Tail();
    var rest := Render(tail);
    SubstituteFront(l, k, i, rep);
    SubstituteToken(l.toks[0].kind, l.toks[0].index, k, i, rep);
    if l.toks[0].kind == k {
      assert OfKind(l.toks, k) == [l.toks[0]] + OfKind(tail.toks, k);
      forall tok <- tail.toks
        ensures !(tok.kind == k && tok.index == i)
      {
        if tok.kind == k {
          OfKindMember(tail.toks, tok);
        }
      }
      SubstituteAbsentLayout(tail, k, i, rep);
      RenderPrependText(l.texts[0] + l.toks[0].seg, tail);
      AppendAssoc(l.texts[0], rep, rest);
    } else {
      assert OfKind(l.toks, k) == OfKind(tail.toks, k);
      SubstituteMergeFirst(tail, k, i);
      RenderCons(l.texts[0], l.toks[0], MergeFirst(tail, k));
      AppendAssoc(l.texts[0], Token(l.toks[0].kind, l.toks[0].index), Render(MergeFirst(tail, k)));
    }
  }

  /** A restore step whose segment has no `$` is a literal substitution. */
  lemma {:induction false} RestoreOneIsSubstitute(html: string, k: Kind, i: nat, math: string)
    requires '$' !in math
    ensures RestoreOne(html, k, i, math) == Substitute(html, Token(k, i), math)
  {
    var t := Token(k, i);
    TokenChars(k, i);
    if Contains(html, t) {
      ReplaceAllIsSubstitute(html, t, math);
    } else {
      SubstituteAbsent(html, t, math);
    }
  }

  /** The kind that is not `k`. */
  function Other(k: Kind): (r: Kind)
    ensures r != k
  {
    if k == Display then Inline else Display
  }

  /** The placeholders still to be restored, display ones first. */
  function Queue(l: Layout): seq<Tok>
  {
    OfKind(l.toks, Display) + OfKind(l.toks, Inline)
  }

  /** The queue holds numbers `i`, `i + 1`, ... with the recorded segments. */
  predicate QueuedFrom(q: seq<Tok>, ph: seq<string>, i: nat)
  {
    i <= |ph| && |q| == |ph| - i &&
    forall a :: 0 <= a < |q| ==> q[a].index == i + a && q[a].seg == ph[i + a]
  }

  lemma {:induction false} QueuedFromTail(q: seq<Tok>, ph: seq<string>, i: nat)
    requires QueuedFrom(q, ph, i) && i < |ph|
    ensures QueuedFrom(q[1..], ph, i + 1)
  {
    forall a | 0 <= a < |q[1..]|
      ensures q[1..][a].index == i + 1 + a && q[1..][a].seg == ph[i + 1 + a]
    {
      assert q[1..][a] == q[a + 1];
    }
  }

  /** After the front of the queue, no placeholder carries its number. */
  lemma {:induction false} QueuedFromUnique(q: seq<Tok>, ph: seq<string>, i: nat, b: nat, e: nat)
    requires QueuedFrom(q, ph, i) && 1 <= b <= e <= |q|
    ensures forall tok <- q[b..e] :: tok.index != i
  {
    forall tok <- q[b..e]
      ensures tok.index != i
    {
      var a :| 0 <= a < |q[b..e]| && q[b..e][a] == tok;
      assert tok == q[b + a];
    }
  }

  /** A restore step for a number no placeholder of that kind carries changes nothing. */
  lemma {:induction false} SkipStep(l: Layout, k: Kind, i: nat, m: string)
    requires l.Shaped() && !Contains(Original(l), MARKER) && RunsOk(l) && '$' !in m
    requires forall tok <- OfKind(l.toks, k) :: tok.index != i
    ensures RestoreOne(Render(l), k, i, m) == Render(l)
  {
    forall tok <- l.toks
      ensures !(tok.kind == k && tok.index == i)
    {
      if tok.kind == k {
        OfKindMember(l.toks, tok);
      }
    }
    RestoreOneIsSubstitute(Render(l), k, i, m);
    SubstituteAbsentLayout(l, k, i, m);
  }

  /** A restore step for the first placeholder of its kind writes back exactly that one. */
  lemma {:induction false} MergeStep(l: Layout, k: Kind, i: nat) returns (l1: Layout)
    requires l.Shaped() && !Contains(Original(l), MARKER) && RunsOk(l) && SegsOk(l.toks)
    requires OfKind(l.toks, k) != [] && OfKind(l.toks, k)[0].index == i && '$' !in OfKind(l.toks, k)[0].seg
    requires forall tok <- OfKind(l.toks, k)[1..] :: tok.index != i
    ensures l1.Shaped() && Original(l1) == Original(l) && RunsOk(l1) && SegsOk(l1.toks)
    ensures OfKind(l1.toks, k) == OfKind(l.toks, k)[1..]
    ensures OfKind(l1.toks, Other(k)) == OfKind(l.toks, Other(k))
    ensures RestoreOne(Render(l), k, i, OfKind(l.toks, k)[0].seg) == Render(l1)
  {
    RestoreOneIsSubstitute(Render(l), k, i, OfKind(l.toks, k)[0].seg);
    SubstituteMergeFirst(l, k, i);
    l1 := MergeFirst(l, k);
    MergeFirstOriginal(l, k);
    MergeFirstKinds(l, k);
    MergeFirstRuns(l, k);
  }

  /** A numbered queue of display then inline placeholders: its head is number `i`, and no other entry is. */
  lemma {:induction false} QueueFront(ds: seq<Tok>, ins: seq<Tok>, ph: seq<string>, i: nat)
    requires QueuedFrom(ds + ins, ph, i) && ds != []
    ensures ds[0].index == i && ds[0].seg == ph[i]
    ensures forall tok <- ds[1..] :: tok.index != i
    ensures forall tok <- ins :: tok.index != i
    ensures (ds + ins)[1..] == ds[1..] + ins
  {
    var q := ds + ins;
    assert q[0] == ds[0];
    assert q[1..|ds|] == ds[1..];
    QueuedFromUnique(q, ph, i, 1, |ds|);
    assert q[|ds|..|q|] == ins;
    QueuedFromUnique(q, ph, i, |ds|, |q|);
  }

  /** Step `i` when the queue starts with a display placeholder. */
  lemma {:induction false} RestoreStepDisplay(l: Layout, ph: seq<string>, i: nat) returns (l1: Layout)
    requires l.Shaped() && !Contains(Original(l), MARKER) && RunsOk(l) && SegsOk(l.toks)
    requires i < |ph| && '$' !in ph[i] && QueuedFrom(Queue(l), ph, i)
    requires OfKind(l.toks, Display) != []
    ensures l1.Shaped() && Original(l1) == Original(l) && RunsOk(l1) && SegsOk(l1.toks)
    ensures Queue(l1) == Queue(l)[1..]
    ensures RestoreOne(RestoreOne(Render(l), Display, i, ph[i]), Inline, i, ph[i]) == Render(l1)
  {
    var ds := OfKind(l.toks, Display);
    var ins := OfKind(l.toks, Inline);
    QueueFront(ds, ins, ph, i);
    l1 := MergeStep(l, Display, i);
    SkipStep(l1, Inline, i, ph[i]);
  }

  /** Step `i` when no display placeholder is left. */
  lemma {:induction false} RestoreStepInline(l: Layout, ph: seq<string>, i: nat) returns (l1: Layout)
    requires l.Shaped() && !Contains(Original(l), MARKER) && RunsOk(l) && SegsOk(l.toks)
    requires i < |ph| && '$' !in ph[i] && QueuedFrom(Queue(l), ph, i)
    requires OfKind(l.toks, Display) == []
    ensures l1.Shaped() && Original(l1) == Original(l) && RunsOk(l1) && SegsOk(l1.toks)
    ensures Queue(l1) == Queue(l)[1..]
    ensures RestoreOne(RestoreOne(Render(l), Display, i, ph[i]), Inline, i, ph[i]) == Render(l1)
  {
    var q := Queue(l);
    SkipStep(l, Display, i, ph[i]);
    assert q == OfKind(l.toks, Inline);
    assert q[1..|q|] == q[1..];
    QueuedFromUnique(q, ph, i, 1, |q|);
    l1 := MergeStep(l, Inline, i);
  }

  /**
   * From step `i` on, the restore loop writes back every placeholder of a
   * layout whose remaining placeholders are numbered `i`, `i + 1`, ... in
   * queue order and whose segments are the recorded ones.
   */
  lemma {:induction false} RestoreLayout(l: Layout, ph: seq<string>, i: nat)
    requires l.Shaped() && !Contains(Original(l), MARKER) && RunsOk(l) && SegsOk(l.toks)
    requires forall m <- ph :: '$' !in m
    requires QueuedFrom(Queue(l), ph, i)
    ensures RestoreFrom(Render(l), ph, i) == Original(l)
    decreases |ph| - i
  {
    if i == |ph| {
      OfKindCount(l.toks);
    } else {
      assert ph[i] in ph;
      var l1: Layout;
      if OfKind(l.toks, Display) != [] {
        l1 := RestoreStepDisplay(l, ph, i);
      } else {
        l1 := RestoreStepInline(l, ph, i);
      }
      QueuedFromTail(Queue(l), ph, i);
      RestoreLayout(l1, ph, i + 1);
    }
  }

  // ---------------------------------------------------------------------
  // What one protection pass produces
  // ---------------------------------------------------------------------

  /** `indexOf` finds an occurrence when no earlier one exists. */
  lemma {:induction false} IndexOfUnique(s: string, pat: string, from: nat, j: nat)
    requires from <= j && OccursAt(s, pat, j)
    requires forall q: nat :: from <= q < j ==> !OccursAt(s, pat, q)
    ensures IndexOf(s, pat, from) == Some(j)
  {
    IndexOfFirst(s, pat, from);
  }

  /** A match at the front of the text, as a layout. */
  lemma {:induction false} ProtectMatchShape(s: string, k: Kind, c: nat, j: nat)
    requires |s| >= 2 && s[..2] == Opener(k) && IndexOf(s, Closer(k), 2) == Some(j)
    ensures j + 2 <= |s|
    ensures Protect(s, k, c) ==
      Layout([""] + Protect(s[j + 2..], k, c + 1).texts, [Tok(k, c, s[..j + 2])] + Protect(s[j + 2..], k, c + 1).toks)
  {
    assert |Closer(k)| == 2;
  }

  /** No match at the front: the first character joins the first run. */
  lemma {:induction false} ProtectCopyShape(s: string, k: Kind, c: nat)
    requires |s| > 0 && !(|s| >= 2 && s[..2] == Opener(k) && IndexOf(s, Closer(k), 2).Some?)
    ensures Protect(s, k, c) == PrependText([s[0]], Protect(s[1..], k, c))
  {
  }

  /** Writing each placeholder of the pass back as its segment gives `s`. */
  predicate WritesBack(s: string, k: Kind, c: nat)
  {
    Original(Protect(s, k, c)) == s
  }

  lemma {:induction false} OriginalMatchStep(s: string, k: Kind, c: nat, j: nat)
    requires |s| >= 2 && s[..2] == Opener(k) && IndexOf(s, Closer(k), 2) == Some(j)
    requires j + 2 <= |s| && WritesBack(s[j + 2..], k, c + 1)
    ensures WritesBack(s, k, c)
  {
    OriginalMatchEq(s, k, c, j);
    CutJoin(s, j + 2);
  }

  /** A match at the front: its segment, then what the pass over the rest writes back. */
  lemma {:induction false} OriginalMatchEq(s: string, k: Kind, c: nat, j: nat)
    requires |s| >= 2 && s[..2] == Opener(k) && IndexOf(s, Closer(k), 2) == Some(j)
    ensures j + 2 <= |s|
    ensures Original(Protect(s, k, c)) == s[..j + 2] + Original(Protect(s[j + 2..], k, c + 1))
  {
    var rest := Protect(s[j + 2..], k, c + 1);
    var tok := Tok(k, c, s[..j + 2]);
    assert Protect(s, k, c) == Layout([""] + rest.texts, [tok] + rest.toks);
    RenderCons("", tok, rest);
    assert "" + tok.seg == tok.seg;
  }

  lemma {:induction false} OriginalCons(tok: Tok, rest: Layout, x: string, y: string)
    requires rest.Shaped() && tok.seg == x && Original(rest) == y
    ensures Original(Layout([""] + rest.texts, [tok] + rest.toks)) == x + y
  {
    RenderCons("", tok, rest);
    assert "" + x == x;
  }

  lemma {:induction false} OriginalCopyStep(s: string, k: Kind, c: nat)
    requires |s| > 0 && !(|s| >= 2 && s[..2] == Opener(k) && IndexOf(s, Closer(k), 2).Some?)
    requires WritesBack(s[1..], k, c)
    ensures WritesBack(s, k, c)
  {
    ProtectCopyShape(s, k, c);
    RenderPrependText([s[0]], Protect(s[1..], k, c));
    assert s == [s[0]] + s[1..];
  }

  /** Writing each placeholder back as its segment gives the scanned text. */
  lemma {:induction false} ProtectOriginal(s: string, k: Kind, c: nat)
    ensures WritesBack(s, k, c)
    decreases |s|
  {
    if |s| >= 2 && s[..2] == Opener(k) && IndexOf(s, Closer(k), 2).Some? {
      var j := IndexOf(s, Closer(k), 2).value;
      ProtectOriginal(s[j + 2..], k, c + 1);
      OriginalMatchStep(s, k, c, j);
    } else if |s| > 0 {
      ProtectOriginal(s[1..], k, c);
      OriginalCopyStep(s, k, c);
    }
  }

  /**
   * The placeholders of one pass are of its kind and numbered from the
   * counter on, in text order; each stands for a segment that starts with
   * the opener's backslash.
   */
  lemma {:induction false} ProtectToks(s: string, k: Kind, c: nat)
    ensures var toks := Protect(s, k, c).toks;
      forall a :: 0 <= a < |toks| ==>
        toks[a].kind == k && toks[a].index == c + a && |toks[a].seg| >= 4 && toks[a].seg[0] == '\\'
    decreases |s|
  {
    if |s| >= 2 && s[..2] == Opener(k) && IndexOf(s, Closer(k), 2).Some? {
      var j := IndexOf(s, Closer(k), 2).value;
      var rest := Protect(s[j + 2..], k, c + 1);
      ProtectMatchShape(s, k, c, j);
      ProtectToks(s[j + 2..], k, c + 1);
      var toks := Protect(s, k, c).toks;
      assert s[0] == Opener(k)[0];
      forall a | 1 <= a < |toks|
        ensures toks[a] == rest.toks[a - 1]
      {
      }
    } else if |s| > 0 {
      ProtectToks(s[1..], k, c);
      ProtectCopyStep(s, k, c);
    }
  }

  /**
   * When the text never has an underscore right after a closer, no run
   * after a placeholder starts with one.
   */
  lemma {:induction false} ProtectRuns(s: string, k: Kind, c: nat)
    requires !Contains(s, Closer(k) + "_")
    ensures RunsOk(Protect(s, k, c))
    decreases |s|
  {
    if |s| >= 2 && s[..2] == Opener(k) && IndexOf(s, Closer(k), 2).Some? {
      var j := IndexOf(s, Closer(k), 2).value;
      AfterCloser(s, k, j);
      ProtectRuns(s[j + 2..], k, c + 1);
      ProtectFirst(s[j + 2..], k, c + 1);
      RunsMatchStep(s, k, c, j);
    } else if |s| > 0 {
      DropFirst(s, Closer(k) + "_");
      ProtectRuns(s[1..], k, c);
      RunsCopyStep(s, k, c);
    }
  }

  /** The first run of a pass keeps the text's first character. */
  lemma {:induction false} ProtectFirst(s: string, k: Kind, c: nat)
    requires FirstOk(s)
    ensures FirstOk(Protect(s, k, c).texts[0])
  {
    if |s| >= 2 && s[..2] == Opener(k) && IndexOf(s, Closer(k), 2).Some? {
      ProtectMatchShape(s, k, c, IndexOf(s, Closer(k), 2).value);
    } else if |s| > 0 {
      ProtectCopyShape(s, k, c);
    }
  }

  lemma {:induction false} ProtectFirstIf(s: string, k: Kind, c: nat)
    ensures FirstOk(s) ==> FirstOk(Protect(s, k, c).texts[0])
  {
    if FirstOk(s) {
      ProtectFirst(s, k, c);
    }
  }

  /** What follows a matched closer neither starts with an underscore nor holds a closer followed by one. */
  lemma {:induction false} AfterCloser(s: string, k: Kind, j: nat)
    requires |s| >= 2 && s[..2] == Opener(k) && IndexOf(s, Closer(k), 2) == Some(j)
    requires !Contains(s, Closer(k) + "_")
    ensures j + 2 <= |s| && FirstOk(s[j + 2..]) && !Contains(s[j + 2..], Closer(k) + "_")
  {
    CutJoin(s, j + 2);
    ContainsAppend(s[..j + 2], s[j + 2..], Closer(k) + "_");
    UnderscoreAfter(s, k, j);
  }

  /** A closer followed by an underscore is an occurrence of the two together. */
  lemma {:induction false} UnderscoreAfter(s: string, k: Kind, j: nat)
    requires OccursAt(s, Closer(k), j)
    ensures FirstOk(s[j + 2..]) || Contains(s, Closer(k) + "_")
  {
    if |s| > j + 2 && s[j + 2] == '_' {
      assert s[j..j + 3] == Closer(k) + "_";
      assert OccursAt(s, Closer(k) + "_", j);
    }
  }

  /** A text without `pat` has no `pat` after its first character. */
  lemma {:induction false} DropFirst(s: string, pat: string)
    requires |s| > 0 && !Contains(s, pat)
    ensures !Contains(s[1..], pat)
  {
    CutJoin(s, 1);
    ContainsAppend(s[..1], s[1..], pat);
  }

  lemma {:induction false} RunsMatchStep(s: string, k: Kind, c: nat, j: nat)
    requires |s| >= 2 && s[..2] == Opener(k) && IndexOf(s, Closer(k), 2) == Some(j)
    requires j + 2 <= |s| && RunsOk(Protect(s[j + 2..], k, c + 1)) && FirstOk(Protect(s[j + 2..], k, c + 1).texts[0])
    ensures RunsOk(Protect(s, k, c))
  {
    ProtectMatchShape(s, k, c, j);
    RunsAfterEmpty(Protect(s, k, c), Protect(s[j + 2..], k, c + 1));
  }

  /** Runs after an empty first run and then the runs of `r`: fine when those of `r` all are. */
  lemma {:induction false} RunsAfterEmpty(l: Layout, r: Layout)
    requires |r.texts| > 0 && l.texts == [""] + r.texts && RunsOk(r) && FirstOk(r.texts[0])
    ensures RunsOk(l)
  {
    forall m | 1 <= m < |l.texts|
      ensures FirstOk(l.texts[m])
    {
      assert l.texts[m] == r.texts[m - 1];
    }
  }

  lemma {:induction false} RunsCopyStep(s: string, k: Kind, c: nat)
    requires |s| > 0 && !(|s| >= 2 && s[..2] == Opener(k) && IndexOf(s, Closer(k), 2).Some?)
    requires RunsOk(Protect(s[1..], k, c))
    ensures RunsOk(Protect(s, k, c))
  {
    ProtectCopyShape(s, k, c);
    RunsPrepend([s[0]], Protect(s[1..], k, c));
  }

  /** Text put in front of the first run leaves the later runs as they are. */
  lemma {:induction false} RunsPrepend(x: string, r: Layout)
    requires r.Shaped() && RunsOk(r)
    ensures RunsOk(PrependText(x, r))
  {
    var l := PrependText(x, r);
    forall m | 1 <= m < |l.texts|
      ensures FirstOk(l.texts[m])
    {
      assert l.texts[m] == r.texts[m];
    }
  }

  /** Text without a backslash holds no match: the pass copies it. */
  lemma {:induction false} ProtectSkip(x: string, rest: string, k: Kind, c: nat)
    requires forall q :: 0 <= q < |x| ==> x[q] != '\\'
    ensures Render(Protect(x + rest, k, c)) == x + Render(Protect(rest, k, c))
    ensures Protect(x + rest, k, c).toks == Protect(rest, k, c).toks
    decreases |x|
  {
    if |x| == 0 {
      assert x + rest == rest;
    } else {
      var s := x + rest;
      assert s[0] == x[0];
      assert Opener(k)[0] == '\\';
      ProtectCopyStep(s, k, c);
      assert s[1..] == x[1..] + rest;
      ProtectSkip(x[1..], rest, k, c);
      AppendAssoc([x[0]], x[1..], Render(Protect(rest, k, c)));
      assert x == [x[0]] + x[1..];
    }
  }

  /** The pass finds a match at the front of the text. */
  predicate FrontMatch(s: string, k: Kind)
  {
    |s| >= 2 && s[..2] == Opener(k) && IndexOf(s, Closer(k), 2).Some?
  }

  /** No segment the pass records contains the marker. */
  predicate SegsFree(s: string, k: Kind, c: nat)
  {
    forall tok <- Protect(s, k, c).toks :: !Contains(tok.seg, MARKER)
  }

  /**
   * The pass over `a + b` is the pass over `a`, which records `n`
   * placeholders, followed by the pass over `b` counting on from there.
   */
  predicate Splits(a: string, b: string, k: Kind, c: nat, n: nat)
  {
    |Protect(a, k, c).toks| == n &&
    Render(Protect(a + b, k, c)) == Render(Protect(a, k, c)) + Render(Protect(b, k, c + n)) &&
    Protect(a + b, k, c).toks == Protect(a, k, c).toks + Protect(b, k, c + n).toks
  }

  lemma {:induction false} SplitsNil(b: string, k: Kind, c: nat)
    ensures Splits("", b, k, c, 0)
  {
    assert "" + b == b;
  }

  /** The first segment of a pass and the segments after it hold no marker. */
  lemma {:induction false} FirstSegFree(s: string, k: Kind, c: nat, j: nat)
    requires |s| >= 2 && s[..2] == Opener(k) && IndexOf(s, Closer(k), 2) == Some(j)
    requires SegsFree(s, k, c)
    ensures j + 2 <= |s| && !Contains(s[..j + 2], MARKER) && SegsFree(s[j + 2..], k, c + 1)
  {
    var rs := Protect(s[j + 2..], k, c + 1);
    var tok := Tok(k, c, s[..j + 2]);
    ProtectMatchShape(s, k, c, j);
    assert Protect(s, k, c).toks == [tok] + rs.toks;
    assert tok in Protect(s, k, c).toks;
    forall t <- rs.toks
      ensures !Contains(t.seg, MARKER)
    {
      assert t in Protect(s, k, c).toks;
    }
  }

  /**
   * A match of `a + b`, where `b` starts with the marker, that holds no
   * marker ends inside `a`.
   */
  lemma {:induction false} MatchInside(a: string, b: string, k: Kind, j: nat)
    requires |a| > 0 && |b| >= 15 && b[..15] == MARKER
    requires |a + b| >= 2 && (a + b)[..2] == Opener(k) && 2 <= j && OccursAt(a + b, Closer(k), j)
    requires !Contains((a + b)[..j + 2], MARKER)
    ensures |a| >= 2 && j + 2 <= |a|
  {
    var s := a + b;
    MarkerChars();
    assert forall q :: |a| <= q < |a| + 15 ==> s[q] == MARKER[q - |a|];
    assert s[1] == s[..2][1] == Opener(k)[1];
    assert s[j..j + 2] == Closer(k);
    assert s[j] == Closer(k)[0] == '\\' && s[j + 1] == Closer(k)[1] && MARKER[0] == 'M';
    assert s[|a|..|a| + 15] == MARKER;
    MarkerWithin(s, |a|, j + 2);
  }

  /** Text holding the marker at `a` contains it in every prefix long enough to reach past it. */
  lemma {:induction false} MarkerWithin(s: string, a: nat, n: nat)
    requires a + 15 <= |s| && s[a..a + 15] == MARKER
    ensures a + 15 <= n <= |s| ==> Contains(s[..n], MARKER)
  {
    if a + 15 <= n <= |s| {
      assert s[..n][a..a + 15] == MARKER;
      assert OccursAt(s[..n], MARKER, a);
    }
  }

  /** `indexOf` on a prefix that holds the first occurrence. */
  lemma {:induction false} IndexOfPrefix(a: string, b: string, pat: string, from: nat, j: nat)
    requires IndexOf(a + b, pat, from) == Some(j) && j + |pat| <= |a|
    ensures IndexOf(a, pat, from) == Some(j)
  {
    IndexOfFirst(a + b, pat, from);
    forall q: nat | from <= q < j
      ensures !OccursAt(a, pat, q)
    {
      assert !OccursAt(a + b, pat, q);
      assert (a + b)[q..q + |pat|] == a[q..q + |pat|];
    }
    assert (a + b)[j..j + |pat|] == a[j..j + |pat|];
    IndexOfUnique(a, pat, from, j);
  }

  /**
   * A match at the front of `a + b`, where `b` starts with the marker and
   * no segment holds one, ends inside `a` and is `a`'s own match.
   */
  lemma {:induction false} AppendMatchFront(a: string, b: string, k: Kind, c: nat, j: nat)
    requires |a| > 0 && |b| >= 15 && b[..15] == MARKER
    requires |a + b| >= 2 && (a + b)[..2] == Opener(k) && IndexOf(a + b, Closer(k), 2) == Some(j)
    requires SegsFree(a + b, k, c)
    ensures |a| >= 2 && a[..2] == Opener(k) && j + 2 <= |a| && IndexOf(a, Closer(k), 2) == Some(j)
    ensures (a + b)[j + 2..] == a[j + 2..] + b
    ensures SegsFree(a[j + 2..] + b, k, c + 1)
  {
    FirstSegFree(a + b, k, c, j);
    MatchInside(a, b, k, j);
    IndexOfPrefix(a, b, Closer(k), 2, j);
    assert a[..2] == (a + b)[..2];
    assert (a + b)[j + 2..] == a[j + 2..] + b;
  }

  lemma {:induction false} SplitAlgebra<T>(x: seq<T>, ws: seq<T>, ws1: seq<T>, wa: seq<T>, wa1: seq<T>, wb: seq<T>)
    requires ws == x + ws1 && wa == x + wa1 && ws1 == wa1 + wb
    ensures ws == wa + wb
  {
  }

  lemma {:induction false} AppendMatchStep(a: string, b: string, k: Kind, c: nat, j: nat, n: nat)
    requires |a| >= 2 && a[..2] == Opener(k) && j + 2 <= |a| && IndexOf(a, Closer(k), 2) == Some(j)
    requires (a + b)[..2] == Opener(k) && IndexOf(a + b, Closer(k), 2) == Some(j)
    requires (a + b)[j + 2..] == a[j + 2..] + b
    requires Splits(a[j + 2..], b, k, c + 1, n)
    ensures Splits(a, b, k, c, n + 1)
  {
    var s := a + b;
    var ps := Protect(s, k, c);
    var pa := Protect(a, k, c);
    var rb := Protect(b, k, c + 1 + n);
    var tok := Tok(k, c, a[..j + 2]);
    assert s[..j + 2] == a[..j + 2];
    ProtectMatchShape(s, k, c, j);
    ProtectMatchShape(a, k, c, j);
    ProtectMatchStep(s, k, c, j);
    ProtectMatchStep(a, k, c, j);
    SplitAlgebra(Token(k, c), Render(ps), Render(Protect(a[j + 2..] + b, k, c + 1)), Render(pa), Render(Protect(a[j + 2..], k, c + 1)), Render(rb));
    SplitAlgebra([tok], ps.toks, Protect(a[j + 2..] + b, k, c + 1).toks, pa.toks, Protect(a[j + 2..], k, c + 1).toks, rb.toks);
  }

  /** A match at the front of `a` is still one at the front of `a + b`. */
  lemma {:induction false} FrontMatchExtends(a: string, b: string, k: Kind)
    ensures FrontMatch(a, k) ==> FrontMatch(a + b, k)
  {
    if FrontMatch(a, k) {
      var s := a + b;
      var j := IndexOf(a, Closer(k), 2).value;
      assert s[..2] == a[..2];
      assert s[j..j + 2] == a[j..j + 2];
      assert OccursAt(s, Closer(k), j);
      IndexOfFirst(s, Closer(k), 2);
    }
  }

  /** Without a match at the front of `a + b`, the pass copies its first character. */
  lemma {:induction false} AppendCopyFront(a: string, b: string, k: Kind, c: nat)
    requires |a| > 0 && !FrontMatch(a + b, k)
    requires SegsFree(a + b, k, c)
    ensures SegsFree(a[1..] + b, k, c)
  {
    var s := a + b;
    ProtectCopyStep(s, k, c);
    assert s[1..] == a[1..] + b;
  }

  lemma {:induction false} AppendCopyStep(a: string, b: string, k: Kind, c: nat, n: nat)
    requires |a| > 0 && !FrontMatch(a + b, k) && !FrontMatch(a, k)
    requires (a + b)[1..] == a[1..] + b
    requires Splits(a[1..], b, k, c, n)
    ensures Splits(a, b, k, c, n)
  {
    var s := a + b;
    var ps := Protect(s, k, c);
    var pa := Protect(a, k, c);
    var rb := Protect(b, k, c + n);
    ProtectCopyStep(s, k, c);
    ProtectCopyStep(a, k, c);
    assert s[0] == a[0];
    SplitAlgebra([a[0]], Render(ps), Render(Protect(a[1..] + b, k, c)), Render(pa), Render(Protect(a[1..], k, c)), Render(rb));
  }

  /**
   * A pass over text followed by a placeholder splits there, provided no
   * match swallows the placeholder (no segment contains the marker).
   */
  lemma {:induction false} ProtectAppend(a: string, b: string, k: Kind, c: nat)
    requires |b| >= 15 && b[..15] == MARKER
    requires SegsFree(a + b, k, c)
    ensures Splits(a, b, k, c, |Protect(a, k, c).toks|)
    decreases |a|
  {
    if |a| == 0 {
      SplitsNil(b, k, c);
    } else if FrontMatch(a + b, k) {
      var j := IndexOf(a + b, Closer(k), 2).value;
      AppendMatchFront(a, b, k, c, j);
      ProtectAppend(a[j + 2..], b, k, c + 1);
      AppendMatchStep(a, b, k, c, j, |Protect(a[j + 2..], k, c + 1).toks|);
    } else {
      FrontMatchExtends(a, b, k);
      assert (a + b)[1..] == a[1..] + b;
      AppendCopyFront(a, b, k, c);
      ProtectAppend(a[1..], b, k, c);
      AppendCopyStep(a, b, k, c, |Protect(a[1..], k, c).toks|);
    }
  }

  // ---------------------------------------------------------------------
  // Both passes as one layout of the original text
  // ---------------------------------------------------------------------

  /** Two layouts joined by a placeholder. */
  function JoinLayouts(p: Layout, tok: Tok, r: Layout): (j: Layout)
    requires p.Shaped() && r.Shaped()
    ensures j.Shaped()
  {
    Layout(p.texts + r.texts, p.toks + [tok] + r.toks)
  }

  lemma {:induction false} JoinTail(p: Layout, tok: Tok, r: Layout)
    requires p.Shaped() && r.Shaped() && |p.toks| > 0
    ensures JoinLayouts(p, tok, r).Tail() == JoinLayouts(p.Tail(), tok, r)
    ensures JoinLayouts(p, tok, r).texts[0] == p.texts[0] && JoinLayouts(p, tok, r).toks[0] == p.toks[0]
  {
    var j := JoinLayouts(p, tok, r);
    assert j.texts[1..] == p.texts[1..] + r.texts;
    assert j.toks[1..] == p.toks[1..] + [tok] + r.toks;
  }

  lemma {:induction false} Assoc4<T>(a: seq<T>, b: seq<T>, c: seq<T>, x: seq<T>)
    ensures a + (b + (c + x)) == (a + (b + c)) + x
  {
  }

  lemma {:induction false} RenderJoinStep(p: Layout, tok: Tok, r: Layout)
    requires p.Shaped() && r.Shaped() && |p.toks| > 0
    requires Render(JoinLayouts(p.Tail(), tok, r)) == Render(p.Tail()) + (Token(tok.kind, tok.index) + Render(r))
    ensures Render(JoinLayouts(p, tok, r)) == Render(p) + (Token(tok.kind, tok.index) + Render(r))
  {
    JoinTail(p, tok, r);
    RenderSplit(JoinLayouts(p, tok, r));
    RenderSplit(p);
    Assoc4(p.texts[0], Token(p.toks[0].kind, p.toks[0].index), Render(p.Tail()), Token(tok.kind, tok.index) + Render(r));
  }

  lemma {:induction false} OriginalJoinStep(p: Layout, tok: Tok, r: Layout)
    requires p.Shaped() && r.Shaped() && |p.toks| > 0
    requires Original(JoinLayouts(p.Tail(), tok, r)) == Original(p.Tail()) + (tok.seg + Original(r))
    ensures Original(JoinLayouts(p, tok, r)) == Original(p) + (tok.seg + Original(r))
  {
    JoinTail(p, tok, r);
    RenderSplit(JoinLayouts(p, tok, r));
    RenderSplit(p);
    Assoc4(p.texts[0], p.toks[0].seg, Original(p.Tail()), tok.seg + Original(r));
  }

  lemma {:induction false} RenderJoinBase(p: Layout, tok: Tok, r: Layout)
    requires p.Shaped() && r.Shaped() && |p.toks| == 0
    ensures Render(JoinLayouts(p, tok, r)) == Render(p) + (Token(tok.kind, tok.index) + Render(r))
    ensures Original(JoinLayouts(p, tok, r)) == Original(p) + (tok.seg + Original(r))
  {
    assert JoinLayouts(p, tok, r) == Layout([p.texts[0]] + r.texts, [tok] + r.toks);
    RenderCons(p.texts[0], tok, r);
    AppendAssoc(p.texts[0], Token(tok.kind, tok.index), Render(r));
    AppendAssoc(p.texts[0], tok.seg, Original(r));
  }

  lemma {:induction false} RenderJoin(p: Layout, tok: Tok, r: Layout)
    requires p.Shaped() && r.Shaped()
    ensures Render(JoinLayouts(p, tok, r)) == Render(p) + (Token(tok.kind, tok.index) + Render(r))
    ensures Original(JoinLayouts(p, tok, r)) == Original(p) + (tok.seg + Original(r))
    decreases |p.toks|
  {
    if |p.toks| == 0 {
      RenderJoinBase(p, tok, r);
    } else {
      RenderJoin(p.Tail(), tok, r);
      RenderJoinStep(p, tok, r);
      OriginalJoinStep(p, tok, r);
    }
  }

  /**
   * The layout after both passes, built from the display layout: each run
   * of the display layout cut by the inline pass, counting on from `c`.
   */
  function Combined(d: Layout, c: nat): (l: Layout)
    requires d.Shaped()
    ensures l.Shaped()
    decreases |d.toks|
  {
    var p := Protect(d.texts[0], Inline, c);
    if |d.toks| == 0 then p else JoinLayouts(p, d.toks[0], Combined(d.Tail(), c + |p.toks|))
  }

  /** Every placeholder of `toks` is of kind `k`. */
  predicate AllOf(toks: seq<Tok>, k: Kind)
  {
    forall a :: 0 <= a < |toks| ==> toks[a].kind == k
  }

  lemma {:induction false} OfKindAll(toks: seq<Tok>, k: Kind)
    requires AllOf(toks, k)
    ensures OfKind(toks, k) == toks && OfKind(toks, Other(k)) == []
    decreases |toks|
  {
    if |toks| > 0 {
      OfKindAll(toks[1..], k);
    }
  }

  /** Every placeholder of `toks` is of kind `k`, counted the way the queue counts. */
  predicate OnlyKind(toks: seq<Tok>, k: Kind)
  {
    OfKind(toks, k) == toks && OfKind(toks, Other(k)) == []
  }

  /** A pass records placeholders of its own kind only. */
  lemma {:induction false} ProtectKinds(s: string, k: Kind, c: nat)
    ensures OnlyKind(Protect(s, k, c).toks, k)
  {
    ProtectToks(s, k, c);
    OfKindAll(Protect(s, k, c).toks, k);
  }

  /** `whole` is `p`, then the placeholder text `t`, then `q`. */
  predicate Across(whole: Layout, p: Layout, t: string, q: Layout)
    requires whole.Shaped() && p.Shaped() && q.Shaped()
  {
    Render(whole) == Render(p) + (t + Render(q)) && whole.toks == p.toks + q.toks
  }

  /** Text that starts with the marker and holds no backslash, as a placeholder does. */
  predicate PlaceholderLike(t: string)
  {
    |t| >= 15 && t[..15] == MARKER && forall q :: 0 <= q < |t| ==> t[q] != '\\'
  }

  lemma {:induction false} TokenLike(k: Kind, i: nat)
    ensures PlaceholderLike(Token(k, i))
  {
    TokenChars(k, i);
  }

  /** `w` renders as `p` followed by `m` and holds `p`'s placeholders followed by `m`'s. */
  predicate SplitsAs(w: Layout, p: Layout, m: Layout)
    requires w.Shaped() && p.Shaped() && m.Shaped()
  {
    Render(w) == Render(p) + Render(m) && w.toks == p.toks + m.toks
  }

  /** `m` is the placeholder text `t` followed by `q`, which holds all of `m`'s placeholders. */
  predicate Skips(m: Layout, t: string, q: Layout)
    requires m.Shaped() && q.Shaped()
  {
    Render(m) == t + Render(q) && m.toks == q.toks
  }

  /** The counter once the placeholders of `p` are numbered from `c`. */
  function Past(c: nat, p: Layout): nat
  {
    c + |p.toks|
  }

  /** The inline pass over a run `x` followed by a placeholder and the rest. */
  lemma {:induction false} SplitAt(s: string, x: string, t: string, rest: string, c: nat, p: Layout)
    requires SplitSetup(s, x, t, rest, c, p)
    ensures SplitsAs(Protect(s, Inline, c), p, Protect(t + rest, Inline, c + |p.toks|))
  {
    assert (t + rest)[..15] == t[..15];
    ProtectAppend(x, t + rest, Inline, c);
    SameCounter(t + rest, Inline, c + |Protect(x, Inline, c).toks|, c + |p.toks|);
  }

  /** Numbering from `Past(c, p)` is numbering from `c + |p.toks|`. */
  lemma PastCounter(u: string, c: nat, p: Layout)
    ensures Protect(u, Inline, Past(c, p)) == Protect(u, Inline, c + |p.toks|)
  {
  }

  /** The pass depends on the counter's value only. */
  lemma SameCounter(s: string, k: Kind, c1: nat, c2: nat)
    requires c1 == c2
    ensures Protect(s, k, c1) == Protect(s, k, c2)
  {
  }

  /** `p` is the inline pass over the run `x` of `s`. */
  predicate SplitSetup(s: string, x: string, t: string, rest: string, c: nat, p: Layout)
  {
    Straddles(s, x, t, rest, c) && p == Protect(x, Inline, c)
  }

  /** The inline pass leaves a placeholder at the front untouched. */
  lemma {:induction false} SkipAt(t: string, rest: string, c: nat)
    requires PlaceholderLike(t)
    ensures Skips(Protect(t + rest, Inline, c), t, Protect(rest, Inline, c))
  {
    ProtectSkip(t, rest, Inline, c);
  }

  lemma {:induction false} AcrossCompose(whole: Layout, p: Layout, m: Layout, t: string, q: Layout)
    requires whole.Shaped() && p.Shaped() && m.Shaped() && q.Shaped()
    requires SplitsAs(whole, p, m) && Skips(m, t, q)
    ensures Across(whole, p, t, q)
  {
  }

  /**
   * `l` renders as `q` does, its inline placeholders are `q`'s and its
   * display placeholders are `ds`.
   */
  predicate RendersAs(l: Layout, q: Layout, ds: seq<Tok>)
    requires l.Shaped() && q.Shaped()
  {
    Render(l) == Render(q) && OfKind(l.toks, Inline) == q.toks && OfKind(l.toks, Display) == ds
  }

  /**
   * The inline pass over the rendered display layout renders as the
   * combined layout, whose inline placeholders are the inline pass's and
   * whose display placeholders are the display layout's.
   */
  predicate CombinedRenders(d: Layout, c: nat)
    requires d.Shaped()
  {
    RendersAs(Combined(d, c), Protect(Render(d), Inline, c), d.toks)
  }

  lemma {:induction false} CombinedRenderNil(d: Layout, c: nat)
    requires d.Shaped() && |d.toks| == 0
    ensures CombinedRenders(d, c)
  {
    ProtectKinds(d.texts[0], Inline, c);
  }

  /** The joined layout renders as the whole pass. */
  lemma {:induction false} JoinRendersText(p: Layout, tok: Tok, r: Layout, whole: Layout, q: Layout)
    requires p.Shaped() && r.Shaped() && whole.Shaped() && q.Shaped()
    requires Render(r) == Render(q) && Across(whole, p, Token(tok.kind, tok.index), q)
    ensures Render(JoinLayouts(p, tok, r)) == Render(whole)
  {
    RenderJoin(p, tok, r);
  }

  /** The joined layout's placeholders of each kind. */
  lemma {:induction false} JoinKinds(p: Layout, tok: Tok, r: Layout, k: Kind)
    requires p.Shaped() && r.Shaped()
    ensures OfKind(JoinLayouts(p, tok, r).toks, k) == OfKind(p.toks, k) + (OfKind([tok], k) + OfKind(r.toks, k))
  {
    OfKindAppend(p.toks + [tok], r.toks, k);
    OfKindAppend(p.toks, [tok], k);
  }

  lemma {:induction false} JoinInline(d: Layout, p: Layout, r: Layout, whole: Layout, q: Layout)
    requires d.Shaped() && |d.toks| > 0 && p.Shaped() && r.Shaped() && whole.Shaped() && q.Shaped()
    requires OfKind(p.toks, Inline) == p.toks && d.toks[0].kind == Display
    requires OfKind(r.toks, Inline) == q.toks && whole.toks == p.toks + q.toks
    ensures OfKind(JoinLayouts(p, d.toks[0], r).toks, Inline) == whole.toks
  {
    JoinKinds(p, d.toks[0], r, Inline);
    assert OfKind([d.toks[0]], Inline) == [];
  }

  lemma {:induction false} JoinDisplay(d: Layout, p: Layout, r: Layout)
    requires d.Shaped() && |d.toks| > 0 && p.Shaped() && r.Shaped()
    requires OfKind(p.toks, Display) == [] && d.toks[0].kind == Display
    requires OfKind(r.toks, Display) == d.Tail().toks
    ensures OfKind(JoinLayouts(p, d.toks[0], r).toks, Display) == d.toks
  {
    JoinKinds(p, d.toks[0], r, Display);
    assert OfKind([d.toks[0]], Display) == [d.toks[0]];
    assert d.toks == [d.toks[0]] + d.Tail().toks;
  }

  /**
   * A run cut by the inline pass, the display placeholder, and the rest
   * already combined, joined: stated over plain layouts.
   */
  lemma {:induction false} JoinRenders(d: Layout, p: Layout, r: Layout, whole: Layout, q: Layout)
    requires d.Shaped() && |d.toks| > 0 && p.Shaped() && r.Shaped() && whole.Shaped() && q.Shaped()
    requires OnlyKind(p.toks, Inline) && d.toks[0].kind == Display
    requires RendersAs(r, q, d.Tail().toks)
    requires Across(whole, p, Token(d.toks[0].kind, d.toks[0].index), q)
    ensures RendersAs(JoinLayouts(p, d.toks[0], r), whole, d.toks)
  {
    JoinRendersText(p, d.toks[0], r, whole, q);
    JoinInline(d, p, r, whole, q);
    JoinDisplay(d, p, r);
  }

  lemma {:induction false} CombinedRenderStep(d: Layout, c: nat, p: Layout, l: Layout, r: Layout, w: Layout, w': Layout)
    requires d.Shaped() && |d.toks| > 0 && d.toks[0].kind == Display && w.Shaped() && w'.Shaped()
    requires p == Protect(d.texts[0], Inline, c) && OnlyKind(p.toks, Inline)
    requires l == Combined(d, c) && r == Combined(d.Tail(), c + |p.toks|)
    requires Across(w, p, Token(d.toks[0].kind, d.toks[0].index), w') && RendersAs(r, w', d.Tail().toks)
    ensures RendersAs(l, w, d.toks)
  {
    CombinedCons(d, c, p);
    JoinRenders(d, p, r, w, w');
  }

  /** The inline pass across the first display placeholder. */
  lemma {:induction false} CombinedAcross(d: Layout, c: nat, w: Layout, p: Layout, q: Layout)
    requires d.Shaped() && |d.toks| > 0 && SegsFree(Render(d), Inline, c) && w == Protect(Render(d), Inline, c)
    requires p == Protect(d.texts[0], Inline, c) && q == Protect(Render(d.Tail()), Inline, c + |p.toks|)
    ensures Across(w, p, Token(d.toks[0].kind, d.toks[0].index), q)
  {
    RenderSplitText(d);
    TokenLike(d.toks[0].kind, d.toks[0].index);
    AcrossVars(Render(d), d.texts[0], Token(d.toks[0].kind, d.toks[0].index), Render(d.Tail()), c, w, p, q);
  }

  /** The inline pass over `s` across a placeholder `t` standing between `x` and `rest`. */
  lemma {:induction false} AcrossAt(s: string, x: string, t: string, rest: string, c: nat, p: Layout)
    requires SplitSetup(s, x, t, rest, c, p)
    ensures Across(Protect(s, Inline, c), p, t, Protect(rest, Inline, Past(c, p)))
  {
    SplitAt(s, x, t, rest, c, p);
    PastCounter(t + rest, c, p);
    SkipAt(t, rest, Past(c, p));
    AcrossCompose(Protect(s, Inline, c), p, Protect(t + rest, Inline, Past(c, p)), t, Protect(rest, Inline, Past(c, p)));
  }

  lemma {:induction false} AcrossVars(s: string, x: string, t: string, rest: string, c: nat, w: Layout, p: Layout, q: Layout)
    requires AcrossSetup(s, x, t, rest, c, w, p, q)
    ensures w.Shaped() && p.Shaped() && q.Shaped()
    ensures Render(w) == Render(p) + (t + Render(q))
    ensures w.toks == p.toks + q.toks
  {
    AcrossAt(s, x, t, rest, c, p);
    PastCounter(rest, c, p);
  }

  /** `w`, `p` and `q` are the inline passes over `s`, over its run `x` and over what follows `t`. */
  predicate AcrossSetup(s: string, x: string, t: string, rest: string, c: nat, w: Layout, p: Layout, q: Layout)
  {
    Straddles(s, x, t, rest, c) && w == Protect(s, Inline, c) && p == Protect(x, Inline, c) && q == Protect(rest, Inline, c + |p.toks|)
  }

  /** `s` is a run `x`, a placeholder `t` and the rest, and no inline segment of `s` holds the marker. */
  predicate Straddles(s: string, x: string, t: string, rest: string, c: nat)
  {
    s == x + (t + rest) && PlaceholderLike(t) && SegsFree(s, Inline, c)
  }

  lemma {:induction false} CombinedTailFree(d: Layout, c: nat, p: Layout)
    requires d.Shaped() && |d.toks| > 0 && SegsFree(Render(d), Inline, c)
    requires p == Protect(d.texts[0], Inline, c)
    ensures SegsFree(Render(d.Tail()), Inline, c + |p.toks|)
  {
    var q := Protect(Render(d.Tail()), Inline, c + |p.toks|);
    CombinedAcross(d, c, Protect(Render(d), Inline, c), p, q);
    forall tok <- q.toks
      ensures !Contains(tok.seg, MARKER)
    {
      assert tok in Protect(Render(d), Inline, c).toks;
    }
  }

  lemma {:induction false} AllOfTail(d: Layout, k: Kind)
    requires d.Shaped() && |d.toks| > 0 && AllOf(d.toks, k)
    ensures AllOf(d.Tail().toks, k) && d.toks[0].kind == k
  {
  }

  lemma {:induction false} CombinedRender(d: Layout, c: nat)
    requires d.Shaped() && AllOf(d.toks, Display) && SegsFree(Render(d), Inline, c)
    ensures CombinedRenders(d, c)
    decreases |d.toks|
  {
    if |d.toks| == 0 {
      CombinedRenderNil(d, c);
    } else {
      var p := Protect(d.texts[0], Inline, c);
      AllOfTail(d, Display);
      CombinedTailFree(d, c, p);
      CombinedRender(d.Tail(), c + |p.toks|);
      CombinedAcross(d, c, Protect(Render(d), Inline, c), p, Protect(Render(d.Tail()), Inline, c + |p.toks|));
      ProtectKinds(d.texts[0], Inline, c);
      CombinedRenderStep(d, c, p, Combined(d, c), Combined(d.Tail(), c + |p.toks|),
                         Protect(Render(d), Inline, c), Protect(Render(d.Tail()), Inline, c + |p.toks|));
    }
  }

  /** The combined layout of a display layout with at least one placeholder. */
  /** The same, with the counter after `p` given. */
  lemma {:induction false} CombinedConsAt(d: Layout, c: nat, p: Layout, c2: nat)
    requires d.Shaped() && |d.toks| > 0 && p == Protect(d.texts[0], Inline, c) && c2 == c + |p.toks|
    ensures Combined(d, c) == JoinLayouts(p, d.toks[0], Combined(d.Tail(), c2))
  {
  }

  lemma {:induction false} CombinedCons(d: Layout, c: nat, p: Layout)
    requires d.Shaped() && |d.toks| > 0 && p == Protect(d.texts[0], Inline, c)
    ensures Combined(d, c) == JoinLayouts(p, d.toks[0], Combined(d.Tail(), c + |p.toks|))
  {
  }

  /** A run and the rest, each written back, joined by the display placeholder give the display layout's text. */
  lemma {:induction false} JoinOriginal(d: Layout, p: Layout, r: Layout)
    requires d.Shaped() && |d.toks| > 0 && p.Shaped() && r.Shaped()
    requires Original(r) == Original(d.Tail()) && Original(p) == d.texts[0]
    ensures Original(JoinLayouts(p, d.toks[0], r)) == Original(d)
  {
    RenderJoin(p, d.toks[0], r);
    RenderSplit(d);
  }

  /** The combined layout writes back to the display layout's text. */
  predicate CombinedKeepsOriginal(d: Layout, c: nat)
    requires d.Shaped()
  {
    Original(Combined(d, c)) == Original(d)
  }

  lemma {:induction false} CombinedOriginalStep(d: Layout, c: nat)
    requires d.Shaped() && |d.toks| > 0
    requires CombinedKeepsOriginal(d.Tail(), c + |Protect(d.texts[0], Inline, c).toks|)
    ensures CombinedKeepsOriginal(d, c)
  {
    CombinedCons(d, c, Protect(d.texts[0], Inline, c));
    ProtectOriginal(d.texts[0], Inline, c);
    JoinOriginal(d, Protect(d.texts[0], Inline, c), Combined(d.Tail(), c + |Protect(d.texts[0], Inline, c).toks|));
  }

  lemma {:induction false} CombinedOriginalNil(d: Layout, c: nat)
    requires d.Shaped() && |d.toks| == 0
    ensures CombinedKeepsOriginal(d, c)
  {
    ProtectOriginal(d.texts[0], Inline, c);
  }

  /** The combined layout writes back to the same text as the display layout. */
  lemma {:induction false} CombinedOriginal(d: Layout, c: nat)
    requires d.Shaped()
    ensures CombinedKeepsOriginal(d, c)
    decreases |d.toks|
  {
    if |d.toks| == 0 {
      CombinedOriginalNil(d, c);
    } else {
      CombinedOriginal(d.Tail(), c + |Protect(d.texts[0], Inline, c).toks|);
      CombinedOriginalStep(d, c);
    }
  }

  /** No run after a placeholder of the combined layout starts with an underscore. */
  lemma {:induction false} CombinedRuns(d: Layout, c: nat)
    requires d.Shaped() && RunsOk(d) && !Contains(Original(d), "\\)_")
    ensures RunsOk(Combined(d, c))
    ensures FirstOk(d.texts[0]) ==> FirstOk(Combined(d, c).texts[0])
    decreases |d.toks|
  {
    var p := Protect(d.texts[0], Inline, c);
    assert Closer(Inline) + "_" == "\\)_";
    if |d.toks| == 0 {
      ProtectRuns(d.texts[0], Inline, c);
      ProtectFirstIf(d.texts[0], Inline, c);
    } else {
      var tail := d.Tail();
      RenderSplit(d);
      RunsTail(d);
      ContainsAppend(d.texts[0], d.toks[0].seg + Original(tail), "\\)_");
      ContainsAppend(d.toks[0].seg, Original(tail), "\\)_");
      ProtectRuns(d.texts[0], Inline, c);
      ProtectFirstIf(d.texts[0], Inline, c);
      var c2 := c + |p.toks|;
      CombinedRuns(tail, c2);
      CombinedConsAt(d, c, p, c2);
      RunsJoin(p, d.toks[0], Combined(tail, c2));
    }
  }

  /** Joining by a placeholder keeps the runs after placeholders fine when the second layout's first run is. */
  lemma {:induction false} RunsJoin(p: Layout, tok: Tok, r: Layout)
    requires p.Shaped() && r.Shaped() && RunsOk(p) && RunsOk(r) && FirstOk(r.texts[0])
    ensures RunsOk(JoinLayouts(p, tok, r)) && JoinLayouts(p, tok, r).texts[0] == p.texts[0]
  {
    var l := JoinLayouts(p, tok, r);
    forall m | 1 <= m < |l.texts|
      ensures FirstOk(l.texts[m])
    {
      if m < |p.texts| {
        assert l.texts[m] == p.texts[m];
      } else {
        assert l.texts[m] == r.texts[m - |p.texts|];
      }
    }
  }

  lemma {:induction false} SegsAt(toks: seq<Tok>)
    ensures forall a :: 0 <= a < |toks| ==> Segs(toks)[a] == toks[a].seg
    decreases |toks|
  {
    if |toks| > 0 {
      SegsAt(toks[1..]);
      assert forall a :: 1 <= a < |toks| ==> Segs(toks)[a] == Segs(toks[1..])[a - 1];
    }
  }

  // ---------------------------------------------------------------------
  // The round trip
  // ---------------------------------------------------------------------

  /** Placeholders numbered from `i` on, each standing for a segment that starts with a backslash. */
  predicate QueuedFromSlice(toks: seq<Tok>, i: nat)
  {
    forall a :: 0 <= a < |toks| ==> toks[a].index == i + a && |toks[a].seg| > 0 && toks[a].seg[0] == '\\'
  }

  lemma {:induction false} ProtectNumbered(s: string, k: Kind, c: nat)
    ensures QueuedFromSlice(Protect(s, k, c).toks, c) && AllOf(Protect(s, k, c).toks, k)
  {
    ProtectToks(s, k, c);
  }

  /** No inline segment holds a marker when no recorded segment does. */
  lemma {:induction false} InlineSegsFree(t: string)
    requires forall m <- Placeholders(t) :: !Contains(m, MARKER)
    ensures SegsFree(Render(DisplayLayout(t)), Inline, |DisplayLayout(t).toks|)
  {
    var nd := |DisplayLayout(t).toks|;
    var w := InlineLayout(t);
    var ph := Placeholders(t);
    SegsAt(w.toks);
    forall tok <- w.toks
      ensures !Contains(tok.seg, MARKER)
    {
      var a :| 0 <= a < |w.toks| && w.toks[a] == tok;
      assert ph[nd + a] == tok.seg;
      assert ph[nd + a] in ph;
    }
  }

  /**
   * The last step, over plain layouts: a combined layout `l` that renders
   * as the inline layout `w`, holds the display placeholders of `d` and
   * writes back to `t`, restores to `t`.
   */
  lemma {:induction false} RestoreCombined(l: Layout, d: Layout, w: Layout, t: string, ph: seq<string>)
    requires l.Shaped() && d.Shaped() && w.Shaped()
    requires RendersAs(l, w, d.toks) && Original(l) == t && !Contains(t, MARKER) && RunsOk(l)
    requires QueuedFromSlice(d.toks, 0) && QueuedFromSlice(w.toks, |d.toks|)
    requires ph == Segs(d.toks) + Segs(w.toks) && forall m <- ph :: '$' !in m
    ensures RestoreFrom(Render(w), ph, 0) == t
  {
    SegsAt(d.toks);
    SegsAt(w.toks);
    forall tok <- l.toks
      ensures |tok.seg| > 0 && tok.seg[0] != '_'
    {
      OfKindMember(l.toks, tok);
    }
    var q := Queue(l);
    assert q == d.toks + w.toks;
    forall a | 0 <= a < |q|
      ensures q[a].index == a && q[a].seg == ph[a]
    {
      if a >= |d.toks| {
        assert q[a] == w.toks[a - |d.toks|];
      }
    }
    RestoreLayout(l, ph, 0);
  }

  /**
   * With `marked` taking its input unchanged, restoring the placeholders
   * gives back the text that was protected, provided the text has no
   * marker of its own, no underscore directly after a closer, and no
   * recorded segment contains `$` (which `replace` would expand) or a
   * marker (inline math enclosing display math).
   */
  lemma {:induction false} MathRoundTrip(t: string)
    requires !Contains(t, MARKER)
    requires !Contains(t, "\\]_") && !Contains(t, "\\)_")
    requires forall m <- Placeholders(t) :: '$' !in m && !Contains(m, MARKER)
    ensures RestoreFrom(ProtectedText(t), Placeholders(t), 0) == t
  {
    var d := DisplayLayout(t);
    var nd := |d.toks|;
    assert Closer(Display) + "_" == "\\]_";
    ProtectOriginal(t, Display, 0);
    ProtectNumbered(t, Display, 0);
    ProtectRuns(t, Display, 0);
    ProtectFirstIf(t, Display, 0);
    ProtectNumbered(Render(d), Inline, nd);
    InlineSegsFree(t);
    CombinedRender(d, nd);
    CombinedOriginal(d, nd);
    CombinedRuns(d, nd);
    RestoreCombined(Combined(d, nd), d, InlineLayout(t), t, Placeholders(t));
  }
}
