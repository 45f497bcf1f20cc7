/**
 * What `addBotMessage` (js/utils.js) puts in a bot bubble, and the typing
 * indicator slot of `showTypingIndicator` / `hideTypingIndicator`.
 *
 * The bracket rewrite is the global replace of `/\[([^\[\]]+)\]/g` with a
 * function replacer, so no `$` pattern of the replacement is interpreted.
 * `marked.parse` is a parameter; DOM building, MathJax and scrolling are left
 * out, and a DOM node is an identity number.
 */
module BotMessage {
  import opened Wrappers
  import opened Text

  /** The characters the class `[^\[\]]` excludes. */
  predicate IsBracket(c: char)
  {
    c == '[' || c == ']'
  }

  /** The first position at or after `i` that holds a bracket, or `|s|` when there is none. */
  function NextBracket(s: string, i: nat): (j: nat)
    requires i <= |s|
    ensures i <= j <= |s|
    ensures forall q :: i <= q < j ==> !IsBracket(s[q])
    ensures j < |s| ==> IsBracket(s[j])
    decreases |s| - i
  {
    if i == |s| || IsBracket(s[i]) then i else NextBracket(s, i + 1)
  }

  /**
   * The regular expression matches at the front of `s`: an opening bracket,
   * at least one character that is not a bracket, and a closing bracket.
   * The run `[^\[\]]+` cannot cross a bracket, so backtracking never finds
   * another match: the run stops at the first bracket, which must close.
   */
  predicate MatchAtFront(s: string)
  {
    |s| > 0 && s[0] == '[' && 1 < NextBracket(s, 1) < |s| && s[NextBracket(s, 1)] == ']'
  }

  /**
   * `text.replace(/\[([^\[\]]+)\]/g, (_, inner) => `$$${inner}$$`)`: left to
   * right, each match becomes its inner run between `$$` and `$$`, scanning
   * resumes after the match, and other characters are copied.
   */
  function BracketRewrite(s: string): string
    decreases |s|
  {
    if |s| == 0 then ""
    else if MatchAtFront(s) then
      var j := NextBracket(s, 1);
      "$$" + s[1..j] + "$$" + BracketRewrite(s[j + 1..])
    else [s[0]] + BracketRewrite(s[1..])
  }

  /** `s` holds an opening bracket, then a non-empty run without brackets, then a closing bracket. */
  predicate HasPair(s: string)
  {
    exists i: nat, j: nat | i < j < |s| :: PairAt(s, i, j)
  }

  /** `s[i..j + 1]` is an opening bracket, a non-empty run without brackets and a closing bracket. */
  predicate PairAt(s: string, i: nat, j: nat)
  {
    i + 1 < j < |s| && s[i] == '[' && s[j] == ']' && NoBracketIn(s, i + 1, j)
  }

  /** No bracket in `s[b..e]`. */
  predicate NoBracketIn(s: string, b: nat, e: nat)
    requires b <= e <= |s|
  {
    forall q :: b <= q < e ==> !IsBracket(s[q])
  }

  /** A rewrite never shortens the text: each match trades two brackets for four dollar signs. */
  lemma {:induction false} RewriteLength(s: string)
    ensures |BracketRewrite(s)| >= |s|
    ensures |BracketRewrite(s)| == |s| ==> BracketRewrite(s) == s
    ensures MatchAtFront(s) ==> |BracketRewrite(s)| > |s|
    decreases |s|
  {
    if |s| > 0 {
      if MatchAtFront(s) {
        var j := NextBracket(s, 1);
        RewriteLength(s[j + 1..]);
      } else {
        RewriteLength(s[1..]);
        assert [s[0]] + s[1..] == s;
      }
    }
  }

  /** A pair in `s` is a match at the front or a pair after the first character. */
  lemma PairSplit(s: string, i: nat, j: nat)
    requires PairAt(s, i, j)
    ensures (i == 0 && MatchAtFront(s)) || (i > 0 && HasPair(s[1..]))
  {
    if i == 0 {
      NextBracketRun(s, 1, j);
    } else {
      assert s[1..][i - 1] == '[' && s[1..][j - 1] == ']';
      assert NoBracketIn(s[1..], i, j - 1);
      assert PairAt(s[1..], i - 1, j - 1);
    }
  }

  /** With a pair anywhere, the rewrite performs at least one replacement and the text grows. */
  lemma {:induction false} PairGrows(s: string)
    requires HasPair(s)
    ensures |BracketRewrite(s)| > |s|
    decreases |s|
  {
    var i: nat, j: nat :| PairAt(s, i, j);
    PairSplit(s, i, j);
    if MatchAtFront(s) {
      RewriteLength(s);
    } else {
      PairGrows(s[1..]);
    }
  }

  /** A match at the front is a pair, and so is a pair after the first character. */
  lemma PairFromParts(s: string)
    ensures MatchAtFront(s) ==> HasPair(s)
    ensures |s| > 0 && HasPair(s[1..]) ==> HasPair(s)
  {
    if MatchAtFront(s) {
      assert PairAt(s, 0, NextBracket(s, 1));
    }
    if |s| > 0 && HasPair(s[1..]) {
      var t := s[1..];
      var i: nat, j: nat :| PairAt(t, i, j);
      PairShift(s, i, j);
    }
  }

  /** A pair of `s[1..]` is a pair of `s`, one position on. */
  lemma PairShift(s: string, i: nat, j: nat)
    requires |s| > 0 && PairAt(s[1..], i, j)
    ensures PairAt(s, i + 1, j + 1)
  {
    forall q | i + 2 <= q < j + 1
      ensures !IsBracket(s[q])
    {
      assert s[q] == s[1..][q - 1];
    }
  }

  /** Without a pair nothing matches anywhere, so the text is copied as it is. */
  lemma {:induction false} NoPairUnchanged(s: string)
    requires !HasPair(s)
    ensures BracketRewrite(s) == s
    decreases |s|
  {
    if |s| > 0 {
      PairFromParts(s);
      NoPairUnchanged(s[1..]);
      assert [s[0]] + s[1..] == s;
    }
  }

  /** The text changes exactly when it holds a bracketed non-empty run without brackets. */
  lemma RewriteChangesIffPair(s: string)
    ensures BracketRewrite(s) == s <==> !HasPair(s)
  {
    if HasPair(s) {
      PairGrows(s);
    } else {
      NoPairUnchanged(s);
    }
  }

  /** The rewrite works piece by piece when the second piece starts with an opening bracket. */
  lemma {:induction false} RewriteAppend(a: string, b: string)
    requires b == [] || b[0] == '['
    ensures BracketRewrite(a + b) == BracketRewrite(a) + BracketRewrite(b)
    decreases |a|
  {
    if |a| == 0 {
      assert a + b == b;
    } else if MatchAtFront(a) {
      var na := NextBracket(a, 1);
      FrontMatchAppend(a, b);
      RewriteAppend(a[na + 1..], b);
      AppendAssoc("$$" + a[1..na] + "$$", BracketRewrite(a[na + 1..]), BracketRewrite(b));
    } else {
      FrontCopyAppend(a, b);
      RewriteAppend(a[1..], b);
      AppendAssoc([a[0]], BracketRewrite(a[1..]), BracketRewrite(b));
    }
  }

  /** A match at the front of `a` is the match at the front of `a + b`. */
  lemma FrontMatchAppend(a: string, b: string)
    requires MatchAtFront(a) && (b == [] || b[0] == '[')
    ensures var na := NextBracket(a, 1);
      BracketRewrite(a + b) == "$$" + a[1..na] + "$$" + BracketRewrite(a[na + 1..] + b)
  {
    var s := a + b;
    var na := NextBracket(a, 1);
    NextBracketAppend(a, b, 1);
    assert s[0] == a[0] && s[na] == a[na];
    assert s[1..na] == a[1..na];
    assert s[na + 1..] == a[na + 1..] + b;
  }

  /** No match at the front of `a`: none at the front of `a + b` either. */
  lemma FrontCopyAppend(a: string, b: string)
    requires |a| > 0 && !MatchAtFront(a) && (b == [] || b[0] == '[')
    ensures BracketRewrite(a + b) == [a[0]] + BracketRewrite(a[1..] + b)
  {
    var s := a + b;
    NextBracketAppend(a, b, 1);
    assert s[0] == a[0];
    assert !MatchAtFront(s) by {
      if NextBracket(a, 1) < |a| {
        assert s[NextBracket(a, 1)] == a[NextBracket(a, 1)];
      }
    }
    assert s[1..] == a[1..] + b;
  }

  /** Where `a` has no bracket from `i` on, the search in `a + b` ends at the start of `b`. */
  lemma {:induction false} NextBracketAppend(a: string, b: string, i: nat)
    requires i <= |a|
    requires b == [] || b[0] == '['
    ensures NextBracket(a, i) < |a| ==> NextBracket(a + b, i) == NextBracket(a, i)
    ensures NextBracket(a, i) == |a| ==> NextBracket(a + b, i) == |a| && (b == [] || (a + b)[|a|] == '[')
    decreases |a| - i
  {
    if i < |a| && !IsBracket(a[i]) {
      assert (a + b)[i] == a[i];
      NextBracketAppend(a, b, i + 1);
    } else if i < |a| {
      assert (a + b)[i] == a[i];
    } else {
      if b != [] {
        assert (a + b)[|a|] == b[0];
      }
    }
  }

  /** A bracketed run without brackets becomes the run between `$$` and `$$`, whatever comes after. */
  lemma RewritePair(x: string, rest: string)
    requires |x| > 0 && forall q :: 0 <= q < |x| ==> !IsBracket(x[q])
    ensures BracketRewrite("[" + x + "]" + rest) == "$$" + x + "$$" + BracketRewrite(rest)
  {
    var s := "[" + x + "]" + rest;
    assert NextBracket(s, 1) == |x| + 1 by {
      assert forall q :: 1 <= q < |x| + 1 ==> s[q] == x[q - 1];
      NextBracketRun(s, 1, |x| + 1);
    }
    assert s[1..|x| + 1] == x;
    assert s[|x| + 2..] == rest;
  }

  /** The search from `i` skips a run without brackets that ends at a bracket. */
  lemma {:induction false} NextBracketRun(s: string, i: nat, e: nat)
    requires i <= e < |s| && IsBracket(s[e]) && forall q :: i <= q < e ==> !IsBracket(s[q])
    ensures NextBracket(s, i) == e
    decreases e - i
  {
    if i < e {
      NextBracketRun(s, i + 1, e);
    }
  }

  /**
   * Every bracketed run without brackets is rewritten where it stands, when
   * what comes after it starts a new piece.
   */
  lemma RewriteInContext(pre: string, x: string, post: string)
    requires |x| > 0 && forall q :: 0 <= q < |x| ==> !IsBracket(x[q])
    ensures BracketRewrite(pre + ("[" + x + "]" + post)) == BracketRewrite(pre) + ("$$" + x + "$$" + BracketRewrite(post))
  {
    RewriteAppend(pre, "[" + x + "]" + post);
    RewritePair(x, post);
  }

  /** No rescan: only the innermost pair of nested brackets is rewritten. */
  lemma NestedInnermostOnly(x: string, y: string, z: string)
    requires NoBracketIn(x, 0, |x|) && NoBracketIn(z, 0, |z|)
    requires |y| > 0 && NoBracketIn(y, 0, |y|)
    ensures BracketRewrite(("[" + x) + ("[" + y + "]" + (z + "]"))) == ("[" + x) + ("$$" + y + "$$" + (z + "]"))
  {
    var front, back := "[" + x, z + "]";
    RewriteAppend(front, "[" + y + "]" + back);
    RewritePair(y, back);
    NoBracketNotIn(x);
    NoBracketNotIn(z);
    OneKindUnchanged(front);
    OneKindUnchanged(back);
  }

  /** A run without brackets holds neither bracket. */
  lemma NoBracketNotIn(x: string)
    requires NoBracketIn(x, 0, |x|)
    ensures '[' !in x && ']' !in x
  {
  }

  /** Text with no closing bracket, or no opening one, is left as it is. */
  lemma OneKindUnchanged(s: string)
    requires ']' !in s || '[' !in s
    ensures BracketRewrite(s) == s
  {
    PairHasBoth(s);
    NoPairUnchanged(s);
  }

  /** A pair needs both brackets. */
  lemma PairHasBoth(s: string)
    ensures HasPair(s) ==> '[' in s && ']' in s
  {
    if HasPair(s) {
      var i: nat, j: nat :| i < j < |s| && PairAt(s, i, j);
      assert s[i] in s && s[j] in s;
    }
  }

  /** Empty brackets are not a match. */
  lemma EmptyBracketsKept()
    ensures BracketRewrite("[]") == "[]"
  {
    RewriteChangesIffPair("[]");
  }

  /** What a bot bubble holds: rendered HTML, or raw text. */
  datatype Bubble = Html(html: string) | RawText(text: string)

  /**
   * The bubble `addBotMessage` fills: when `marked` is loaded, the rewritten
   * text through `marked.parse`; otherwise the raw text, not rewritten.
   */
  function BubbleFor(text: string, markedLoaded: bool, parse: string -> string): (b: Bubble)
    ensures !markedLoaded ==> b == RawText(text)
    ensures markedLoaded ==> b == Html(parse(BracketRewrite(text)))
  {
    if markedLoaded then Html(parse(BracketRewrite(text))) else RawText(text)
  }

  /** The chat area's wrappers as far as the typing indicator is concerned, and the indicator slot. */
  class TypingSlot {
    /** Identities of the wrappers currently in the chat area, in order. */
    var shown: seq<nat>
    /** `typingIndicatorElement`: the wrapper last shown, until hidden. */
    var element: Option<nat>
    /** The identity the next created wrapper gets. */
    var next: nat

    /** Every wrapper in the chat area was created earlier and appears once. */
    predicate Valid()
      reads this
    {
      (forall q :: 0 <= q < |shown| ==> shown[q] < next) &&
      (forall p, q :: 0 <= p < q < |shown| ==> shown[p] != shown[q]) &&
      (element.Some? ==> element.value < next)
    }

    constructor(existing: seq<nat>)
      ensures shown == existing && element == None && next == Fresh(existing)
      ensures Valid() <==> Distinct(existing)
    {
      shown := existing;
      element := None;
      next := Fresh(existing);
    }

    /** `showTypingIndicator`: a new wrapper is appended and recorded, replacing any earlier record. */
    method Show()
      modifies this
      requires Valid()
      ensures Valid()
      ensures (shown, element, next) == AfterShow(old(shown), old(next))
    {
      shown := shown + [next];
      element := Some(next);
      next := next + 1;
    }

    /** `hideTypingIndicator`: the recorded wrapper, if any, is removed and the record cleared. */
    method Hide()
      modifies this
      requires Valid()
      ensures Valid()
      ensures (shown, element) == AfterHide(old(shown), old(element)) && next == old(next)
    {
      if element.Some? {
        WithoutKeeps(shown, element.value, next);
        shown := Without(shown, element.value);
        element := None;
      }
    }
  }

  /** A number above every element of `s`. */
  function Fresh(s: seq<nat>): (n: nat)
    ensures forall q :: 0 <= q < |s| ==> s[q] < n
  {
    if |s| == 0 then 0 else
      var m := Fresh(s[1..]);
      if s[0] >= m then s[0] + 1 else m
  }

  /** No element of `s` appears twice. */
  predicate Distinct(s: seq<nat>)
  {
    forall p, q :: 0 <= p < q < |s| ==> s[p] != s[q]
  }

  /** `s` with every occurrence of `x` removed, the DOM's `remove()` of that node. */
  function Without(s: seq<nat>, x: nat): (r: seq<nat>)
    ensures forall y :: y in r <==> y in s && y != x
    ensures |r| <= |s|
  {
    if |s| == 0 then []
    else if s[0] == x then Without(s[1..], x)
    else [s[0]] + Without(s[1..], x)
  }

  /** Removing keeps the wrappers distinct and below the next identity. */
  lemma {:induction false} WithoutKeeps(s: seq<nat>, x: nat, n: nat)
    requires Distinct(s) && forall q :: 0 <= q < |s| ==> s[q] < n
    ensures Distinct(Without(s, x)) && forall q :: 0 <= q < |Without(s, x)| ==> Without(s, x)[q] < n
    decreases |s|
  {
    if |s| > 0 {
      WithoutKeeps(s[1..], x, n);
      var r := Without(s[1..], x);
      assert forall q :: 0 <= q < |r| ==> r[q] in s[1..];
      assert s[0] !in s[1..];
    }
  }

  /** The chat area, record and next identity after a show. */
  function AfterShow(shown: seq<nat>, next: nat): (r: (seq<nat>, Option<nat>, nat))
    ensures r.0 == shown + [next] && r.1 == Some(next) && r.2 == next + 1
  {
    (shown + [next], Some(next), next + 1)
  }

  /** The chat area and record after a hide. */
  function AfterHide(shown: seq<nat>, element: Option<nat>): (r: (seq<nat>, Option<nat>))
    ensures r.1 == None
    ensures element.None? ==> r.0 == shown
    ensures element.Some? ==> element.value !in r.0 && forall y :: y in shown && y != element.value ==> y in r.0
  {
    if element.Some? then (Without(shown, element.value), None) else (shown, None)
  }

  /** A second hide does nothing. */
  lemma HideTwiceNoOp(shown: seq<nat>, element: Option<nat>)
    ensures var once := AfterHide(shown, element);
      AfterHide(once.0, once.1) == once
  {
  }

  /** Hiding right after showing removes exactly the wrapper just shown. */
  lemma ShowThenHide(shown: seq<nat>, next: nat)
    requires forall q :: 0 <= q < |shown| ==> shown[q] < next
    ensures var s := AfterShow(shown, next);
      AfterHide(s.0, s.1) == (shown, None)
  {
    WithoutFresh(shown, next);
  }

  /** Removing a number that is not present changes nothing; appending it and removing it gives the start back. */
  lemma {:induction false} WithoutFresh(s: seq<nat>, x: nat)
    requires forall q :: 0 <= q < |s| ==> s[q] < x
    ensures Without(s, x) == s && Without(s + [x], x) == s
    decreases |s|
  {
    if |s| == 0 {
      assert [] + [x] == [x];
      assert [x][1..] == [];
    } else {
      WithoutFresh(s[1..], x);
      assert (s + [x])[1..] == s[1..] + [x];
      assert [s[0]] + s[1..] == s;
    }
  }

  /**
   * The slot holds one wrapper: showing twice before a hide records only the
   * second, so the hide leaves the first one in the chat area.
   */
  lemma ShowTwiceLeavesFirst(shown: seq<nat>, next: nat)
    requires forall q :: 0 <= q < |shown| ==> shown[q] < next
    ensures var s1 := AfterShow(shown, next);
      var s2 := AfterShow(s1.0, s1.2);
      var h := AfterHide(s2.0, s2.1);
      next in h.0 && next + 1 !in h.0
  {
  }
}
