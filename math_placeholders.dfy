/**
 * The response-rendering string pipeline of js/app.js: literal `\n` pairs
 * become newlines, display math `\[...\]` and then inline math `\(...\)`
 * are swapped for numbered placeholders drawn from one shared counter, the
 * text goes through `marked`, and the placeholders are put back.
 *
 * `marked.parse` is a parameter.
 */
module MathPlaceholders {
  import opened Text
  import opened JsReplace
  import opened Wrappers

  // ---------------------------------------------------------------------
  // Literal "\n" pairs
  // ---------------------------------------------------------------------

  /** `text.replace(/\\n/g, '\n')`: every backslash-n pair, left to right, becomes a newline. */
  function UnescapeNewlines(s: string): string
    decreases |s|
  {
    if |s| >= 2 && s[0] == '\\' && s[1] == 'n' then "\n" + UnescapeNewlines(s[2..])
    else if |s| == 0 then ""
    else [s[0]] + UnescapeNewlines(s[1..])
  }

  /** A backslash followed by `n`. */
  predicate EscapedNewlineAt(s: string, p: int)
  {
    0 <= p && p + 1 < |s| && s[p] == '\\' && s[p + 1] == 'n'
  }

  /**
   * No backslash-n pair survives, and only such pairs change: text without
   * a backslash comes out as it went in.
   */
  lemma {:induction false} UnescapeComplete(s: string)
    ensures forall p :: !EscapedNewlineAt(UnescapeNewlines(s), p)
    ensures |UnescapeNewlines(s)| <= |s|
    ensures UnescapeNewlines(s) == [] || UnescapeNewlines(s)[0] != 'n' || (|s| > 0 && s[0] == 'n')
    decreases |s|
  {
    if |s| >= 2 && s[0] == '\\' && s[1] == 'n' {
      UnescapeComplete(s[2..]);
      var rest := UnescapeNewlines(s[2..]);
      var r := UnescapeNewlines(s);
      assert r == "\n" + rest;
      forall p
        ensures !EscapedNewlineAt(r, p)
      {
        if p >= 1 {
          assert !EscapedNewlineAt(rest, p - 1);
        }
      }
    } else if |s| > 0 {
      UnescapeComplete(s[1..]);
      var rest := UnescapeNewlines(s[1..]);
      var r := UnescapeNewlines(s);
      assert r == [s[0]] + rest;
      forall p
        ensures !EscapedNewlineAt(r, p)
      {
        if p >= 1 {
          assert !EscapedNewlineAt(rest, p - 1);
        }
      }
    }
  }

  /** Text without a backslash is not changed. */
  lemma {:induction false} UnescapeNoBackslash(s: string)
    requires '\\' !in s
    ensures UnescapeNewlines(s) == s
    decreases |s|
  {
    if |s| > 0 {
      assert s[0] in s;
      assert forall c :: c in s[1..] ==> c in s;
      UnescapeNoBackslash(s[1..]);
    }
  }

  /** LaTeX commands that begin with `n` are broken too: `\neq` becomes a newline and `eq`. */
  lemma UnescapeBreaksLatex()
    ensures UnescapeNewlines("\\neq") == "\neq"
  {
    assert "\\neq"[2..] == "eq";
    assert "eq"[1..] == "q";
  }

  // ---------------------------------------------------------------------
  // Placeholders
  // ---------------------------------------------------------------------

  datatype Kind = Display | Inline

  function KindName(k: Kind): string
  {
    match k
    case Display => "DISPLAY"
    case Inline => "INLINE"
  }

  /** `\[` or `\(`. */
  function Opener(k: Kind): string
  {
    match k
    case Display => "\\["
    case Inline => "\\("
  }

  /** `\]` or `\)`. */
  function Closer(k: Kind): string
  {
    match k
    case Display => "\\]"
    case Inline => "\\)"
  }

  /** The marker at both ends of every placeholder. */
  const MARKER: string := "MATHPLACEHOLDER"

  /** `MATHPLACEHOLDER_DISPLAY_${i}_MATHPLACEHOLDER` and its inline twin. */
  function Token(k: Kind, i: nat): string
  {
    MARKER + "_" + KindName(k) + "_" + NatToString(i) + "_" + MARKER
  }

  /** A placeholder: its kind, its counter value and the exact text it stands for. */
  datatype Tok = Tok(kind: Kind, index: nat, seg: string)

  /**
   * A text cut into plain runs and placeholders: `texts[0]`, `toks[0]`,
   * `texts[1]`, ..., `texts[|toks|]`.
   */
  datatype Layout = Layout(texts: seq<string>, toks: seq<Tok>)
  {
    predicate Shaped()
    {
      |texts| == |toks| + 1
    }

    /** The layout without its first run and placeholder. */
    function Tail(): Layout
      requires Shaped() && |toks| > 0
    {
      Layout(texts[1..], toks[1..])
    }
  }

  /** The text with each placeholder written as its token. */
  function Render(l: Layout): string
    requires l.Shaped()
    decreases |l.toks|
  {
    if |l.toks| == 0 then l.texts[0]
    else l.texts[0] + Token(l.toks[0].kind, l.toks[0].index) + Render(l.Tail())
  }

  /** The text with each placeholder written as the segment it stands for. */
  function Original(l: Layout): string
    requires l.Shaped()
    decreases |l.toks|
  {
    if |l.toks| == 0 then l.texts[0]
    else l.texts[0] + l.toks[0].seg + Original(l.Tail())
  }

  /** The segments of the placeholders, in text order. */
  function Segs(toks: seq<Tok>): (r: seq<string>)
    ensures |r| == |toks|
  {
    if |toks| == 0 then [] else [toks[0].seg] + Segs(toks[1..])
  }

  /** `x` put in front of the first run. */
  function PrependText(x: string, l: Layout): (r: Layout)
    requires l.Shaped()
    ensures r.Shaped() && r.toks == l.toks
  {
    Layout([x + l.texts[0]] + l.texts[1..], l.toks)
  }

  lemma RenderPrependText(x: string, l: Layout)
    requires l.Shaped()
    ensures Render(PrependText(x, l)) == x + Render(l)
    ensures Original(PrependText(x, l)) == x + Original(l)
  {
    RenderPrepend(x, l);
    OriginalPrepend(x, l);
  }

  lemma RenderPrepend(x: string, l: Layout)
    requires l.Shaped()
    ensures Render(PrependText(x, l)) == x + Render(l)
  {
    if |l.toks| > 0 {
      var r := PrependText(x, l);
      assert r.Tail() == l.Tail();
      assert r.texts[0] == x + l.texts[0];
    }
  }

  lemma OriginalPrepend(x: string, l: Layout)
    requires l.Shaped()
    ensures Original(PrependText(x, l)) == x + Original(l)
  {
    if |l.toks| > 0 {
      var r := PrependText(x, l);
      assert r.Tail() == l.Tail();
      assert r.texts[0] == x + l.texts[0];
    }
  }

  /**
   * One global `replace` of js/app.js:138-153: at each position, from left
   * to right, the opener followed later by a closer is one match, ending at
   * the first closer (the lazy `[\s\S]*?`); it becomes the next placeholder
   * and records its exact text. Anything else is copied.
   */
  function Protect(s: string, k: Kind, counter: nat): (l: Layout)
    ensures l.Shaped()
    decreases |s|
  {
    if |s| >= 2 && s[..2] == Opener(k) && IndexOf(s, Closer(k), 2).Some? then
      var j := IndexOf(s, Closer(k), 2).value;
      var rest := Protect(s[j + 2..], k, counter + 1);
      Layout([""] + rest.texts, [Tok(k, counter, s[..j + 2])] + rest.toks)
    else if |s| == 0 then Layout([""], [])
    else PrependText([s[0]], Protect(s[1..], k, counter))
  }

  /** A layout that starts with a run and a placeholder. */
  lemma RenderCons(x: string, tok: Tok, rest: Layout)
    requires rest.Shaped()
    ensures Render(Layout([x] + rest.texts, [tok] + rest.toks)) == x + Token(tok.kind, tok.index) + Render(rest)
    ensures Original(Layout([x] + rest.texts, [tok] + rest.toks)) == x + tok.seg + Original(rest)
    ensures Segs([tok] + rest.toks) == [tok.seg] + Segs(rest.toks)
  {
    assert Layout([x] + rest.texts, [tok] + rest.toks).Tail() == rest;
  }

  /** A match at the front: the placeholder, then the pass over what follows the match. */
  lemma ProtectMatchStep(s: string, k: Kind, counter: nat, j: nat)
    requires |s| >= 2 && s[..2] == Opener(k) && IndexOf(s, Closer(k), 2) == Some(j)
    ensures j + 2 <= |s|
    ensures Render(Protect(s, k, counter)) == Token(k, counter) + Render(Protect(s[j + 2..], k, counter + 1))
    ensures Segs(Protect(s, k, counter).toks) == [s[..j + 2]] + Segs(Protect(s[j + 2..], k, counter + 1).toks)
    ensures |Protect(s, k, counter).toks| == 1 + |Protect(s[j + 2..], k, counter + 1).toks|
  {
    var rest := Protect(s[j + 2..], k, counter + 1);
    var tok := Tok(k, counter, s[..j + 2]);
    assert Protect(s, k, counter) == Layout([""] + rest.texts, [tok] + rest.toks);
    RenderCons("", tok, rest);
    assert "" + Token(k, counter) == Token(k, counter);
  }

  /** No match at the front: the first character, then the pass over the rest. */
  lemma ProtectCopyStep(s: string, k: Kind, counter: nat)
    requires |s| > 0 && !(|s| >= 2 && s[..2] == Opener(k) && IndexOf(s, Closer(k), 2).Some?)
    ensures Render(Protect(s, k, counter)) == [s[0]] + Render(Protect(s[1..], k, counter))
    ensures Protect(s, k, counter).toks == Protect(s[1..], k, counter).toks
  {
    RenderPrependText([s[0]], Protect(s[1..], k, counter));
  }

  /** The text the pass produces. */
  function Protected(s: string, k: Kind, counter: nat): string
  {
    Render(Protect(s, k, counter))
  }

  /**
   * One protection pass as js/app.js runs it: a scan that appends each
   * placeholder's text to `mathPlaceholders` and advances `mathIndex`.
   */
  method ProtectPass(s: string, k: Kind, mathIndex: nat, mathPlaceholders: seq<string>)
      returns (out: string, nextIndex: nat, placeholders: seq<string>)
    ensures var l := Protect(s, k, mathIndex);
      out == Render(l) && placeholders == mathPlaceholders + Segs(l.toks) && nextIndex == mathIndex + |l.toks|
  {
    ghost var l0 := Protect(s, k, mathIndex);
    var rest := s;
    out := "";
    nextIndex := mathIndex;
    placeholders := mathPlaceholders;
    while |rest| > 0
      invariant out + Render(Protect(rest, k, nextIndex)) == Render(l0)
      invariant placeholders + Segs(Protect(rest, k, nextIndex).toks) == mathPlaceholders + Segs(l0.toks)
      invariant nextIndex + |Protect(rest, k, nextIndex).toks| == mathIndex + |l0.toks|
      decreases |rest|
    {
      if |rest| >= 2 && rest[..2] == Opener(k) && IndexOf(rest, Closer(k), 2).Some? {
        var j := IndexOf(rest, Closer(k), 2).value;
        ProtectMatchStep(rest, k, nextIndex, j);
        AppendAssoc(out, Token(k, nextIndex), Render(Protect(rest[j + 2..], k, nextIndex + 1)));
        out := out + Token(k, nextIndex);
        placeholders := placeholders + [rest[..j + 2]];
        nextIndex := nextIndex + 1;
        rest := rest[j + 2..];
      } else {
        ProtectCopyStep(rest, k, nextIndex);
        AppendAssoc(out, [rest[0]], Render(Protect(rest[1..], k, nextIndex)));
        out := out + [rest[0]];
        rest := rest[1..];
      }
    }
  }

  /** Display math first, then inline math, numbered from one counter. */
  function DisplayLayout(t: string): Layout
  {
    Protect(t, Display, 0)
  }

  function InlineLayout(t: string): Layout
  {
    var d := DisplayLayout(t);
    Protect(Render(d), Inline, |d.toks|)
  }

  /** The markdown handed to `marked`. */
  function ProtectedText(t: string): string
  {
    Render(InlineLayout(t))
  }

  /** `mathPlaceholders`: display segments by index, then inline segments. */
  function Placeholders(t: string): seq<string>
  {
    Segs(DisplayLayout(t).toks) + Segs(InlineLayout(t).toks)
  }

  /** Both passes, with the shared counter and list threaded through. */
  method ProtectMath(t: string) returns (markdown: string, mathPlaceholders: seq<string>)
    ensures markdown == ProtectedText(t) && mathPlaceholders == Placeholders(t)
  {
    var mathIndex: nat := 0;
    mathPlaceholders := [];
    markdown, mathIndex, mathPlaceholders := ProtectPass(t, Display, mathIndex, mathPlaceholders);
    assert [] + Segs(DisplayLayout(t).toks) == Segs(DisplayLayout(t).toks);
    markdown, mathIndex, mathPlaceholders := ProtectPass(markdown, Inline, mathIndex, mathPlaceholders);
  }

  /** One `if (html.includes(p)) html = html.replace(new RegExp(p, 'g'), math)`. */
  function RestoreOne(html: string, k: Kind, i: nat, math: string): string
  {
    var p := Token(k, i);
    if Contains(html, p) then ReplaceAll(html, p, math) else html
  }

  /** The restore loop from index `i` on: display placeholder `i`, then inline placeholder `i`. */
  function RestoreFrom(html: string, mathPlaceholders: seq<string>, i: nat): string
    requires i <= |mathPlaceholders|
    decreases |mathPlaceholders| - i
  {
    if i == |mathPlaceholders| then html
    else
      var m := mathPlaceholders[i];
      RestoreFrom(RestoreOne(RestoreOne(html, Display, i, m), Inline, i, m), mathPlaceholders, i + 1)
  }

  /** The loop of js/app.js:164-178. */
  method RestoreMath(html0: string, mathPlaceholders: seq<string>) returns (html: string)
    ensures html == RestoreFrom(html0, mathPlaceholders, 0)
  {
    html := html0;
    for i := 0 to |mathPlaceholders|
      invariant RestoreFrom(html, mathPlaceholders, i) == RestoreFrom(html0, mathPlaceholders, 0)
    {
      var displayPlaceholder := Token(Display, i);
      var inlinePlaceholder := Token(Inline, i);
      if Contains(html, displayPlaceholder) {
        html := ReplaceAll(html, displayPlaceholder, mathPlaceholders[i]);
      }
      if Contains(html, inlinePlaceholder) {
        html := ReplaceAll(html, inlinePlaceholder, mathPlaceholders[i]);
      }
    }
  }

  /** The whole success-path rendering: unescape, protect, `marked`, restore. */
  method RenderReply(fullResponse: string, markedParse: string -> string) returns (finalHtml: string)
    ensures var t := UnescapeNewlines(fullResponse);
      finalHtml == RestoreFrom(markedParse(ProtectedText(t)), Placeholders(t), 0)
  {
    var finalMarkdown := UnescapeNewlines(fullResponse);
    var markdown, mathPlaceholders := ProtectMath(finalMarkdown);
    var html := markedParse(markdown);
    finalHtml := RestoreMath(html, mathPlaceholders);
  }
}
