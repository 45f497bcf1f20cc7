/**
 * JavaScript `String.prototype.replace` with a global, literal pattern and a
 * replacement string (js/app.js restores placeholders this way): matches are
 * found left to right without overlap, and the replacement string is
 * expanded for `$$`, `$&`, `` $` `` and `$'`. The pattern has no capture
 * groups, so `$1`, `$<` and every other `$` sequence stays as written.
 */
module JsReplace {
  import opened Text

  /** The replacement text for one match (GetSubstitution with no captures). */
  function Expand(rep: string, matched: string, before: string, after: string): string
    decreases |rep|
  {
    if |rep| == 0 then ""
    else if rep[0] == '$' && |rep| >= 2 && rep[1] == '$' then "$" + Expand(rep[2..], matched, before, after)
    else if rep[0] == '$' && |rep| >= 2 && rep[1] == '&' then matched + Expand(rep[2..], matched, before, after)
    else if rep[0] == '$' && |rep| >= 2 && rep[1] == '`' then before + Expand(rep[2..], matched, before, after)
    else if rep[0] == '$' && |rep| >= 2 && rep[1] == '\'' then after + Expand(rep[2..], matched, before, after)
    else [rep[0]] + Expand(rep[1..], matched, before, after)
  }

  /** A replacement without `$` is inserted exactly as written. */
  lemma {:induction false} ExpandPlain(rep: string, matched: string, before: string, after: string)
    requires '$' !in rep
    ensures Expand(rep, matched, before, after) == rep
    decreases |rep|
  {
    if |rep| > 0 {
      assert rep[0] in rep;
      assert forall c :: c in rep[1..] ==> c in rep;
      ExpandPlain(rep[1..], matched, before, after);
    }
  }

  /** Text without `$` at the front of a replacement is copied, and expansion goes on after it. */
  lemma {:induction false} ExpandPlainPrefix(pre: string, rest: string, matched: string, before: string, after: string)
    requires '$' !in pre
    ensures Expand(pre + rest, matched, before, after) == pre + Expand(rest, matched, before, after)
    decreases |pre|
  {
    if |pre| == 0 {
      assert pre + rest == rest;
    } else {
      assert pre[0] in pre && (pre + rest)[0] == pre[0];
      assert (pre + rest)[1..] == pre[1..] + rest;
      assert forall c :: c in pre[1..] ==> c in pre;
      ExpandPlainPrefix(pre[1..], rest, matched, before, after);
    }
  }

  /** A `$$` in the replacement comes out as a single `$`. */
  lemma ExpandDollarDollar(pre: string, post: string, matched: string, before: string, after: string)
    requires '$' !in pre
    ensures Expand(pre + "$$" + post, matched, before, after) == pre + "$" + Expand(post, matched, before, after)
  {
    var rep := "$$" + post;
    assert pre + "$$" + post == pre + rep;
    ExpandPlainPrefix(pre, rep, matched, before, after);
    assert rep[0] == '$' && rep[1] == '$' && rep[2..] == post;
  }

  /** A `$` followed by anything but `$`, `&`, `` ` `` or `'` stays as written. */
  lemma ExpandLoneDollar(pre: string, c: char, post: string, matched: string, before: string, after: string)
    requires '$' !in pre && c != '$' && c != '&' && c != '`' && c != '\''
    ensures Expand(pre + ['$', c] + post, matched, before, after) == pre + ['$', c] + Expand(post, matched, before, after)
  {
    var rep := ['$', c] + post;
    assert pre + ['$', c] + post == pre + rep;
    ExpandPlainPrefix(pre, rep, matched, before, after);
    assert rep[0] == '$' && rep[1] == c && rep[1..] == [c] + post;
    assert ([c] + post)[0] == c && ([c] + post)[1..] == post;
  }

  /** The result of replacing every match of `pat` in `s` at or after position `i`. */
  function ReplaceFrom(s: string, pat: string, rep: string, i: nat): string
    requires |pat| > 0 && i <= |s|
    decreases |s| - i
  {
    if i + |pat| > |s| then s[i..]
    else if s[i..i + |pat|] == pat then
      Expand(rep, pat, s[..i], s[i + |pat|..]) + ReplaceFrom(s, pat, rep, i + |pat|)
    else [s[i]] + ReplaceFrom(s, pat, rep, i + 1)
  }

  /** `s.replace(new RegExp(pat, 'g'), rep)` for a pattern made of plain characters. */
  function ReplaceAll(s: string, pat: string, rep: string): string
    requires |pat| > 0
  {
    ReplaceFrom(s, pat, rep, 0)
  }

  /** Literal substitution: every non-overlapping match, left to right, becomes `rep`. */
  function Substitute(s: string, pat: string, rep: string): string
    requires |pat| > 0
    decreases |s|
  {
    if |s| < |pat| then s
    else if s[..|pat|] == pat then rep + Substitute(s[|pat|..], pat, rep)
    else [s[0]] + Substitute(s[1..], pat, rep)
  }

  /** From position `i` on, JavaScript's replace agrees with literal substitution. */
  predicate AgreesFrom(s: string, pat: string, rep: string, i: nat)
    requires |pat| > 0 && i <= |s|
  {
    ReplaceFrom(s, pat, rep, i) == Substitute(s[i..], pat, rep)
  }

  /** Without `$` in the replacement, JavaScript's replace is literal substitution. */
  lemma {:induction false} ReplaceFromIsSubstitute(s: string, pat: string, rep: string, i: nat)
    requires |pat| > 0 && i <= |s| && '$' !in rep
    ensures AgreesFrom(s, pat, rep, i)
    decreases |s| - i
  {
    if i + |pat| > |s| {
      ReplaceEndStep(s, pat, rep, i);
    } else if s[i..i + |pat|] == pat {
      ReplaceFromIsSubstitute(s, pat, rep, i + |pat|);
      ReplaceMatchStep(s, pat, rep, i);
    } else {
      ReplaceFromIsSubstitute(s, pat, rep, i + 1);
      ReplaceCopyStep(s, pat, rep, i);
    }
  }

  lemma {:induction false} ReplaceEndStep(s: string, pat: string, rep: string, i: nat)
    requires |pat| > 0 && i <= |s| < i + |pat|
    ensures AgreesFrom(s, pat, rep, i)
  {
    assert ReplaceFrom(s, pat, rep, i) == s[i..];
    assert Substitute(s[i..], pat, rep) == s[i..];
  }

  lemma {:induction false} ReplaceMatchStep(s: string, pat: string, rep: string, i: nat)
    requires |pat| > 0 && i + |pat| <= |s| && s[i..i + |pat|] == pat && '$' !in rep
    requires AgreesFrom(s, pat, rep, i + |pat|)
    ensures AgreesFrom(s, pat, rep, i)
  {
    ExpandPlain(rep, pat, s[..i], s[i + |pat|..]);
    assert ReplaceFrom(s, pat, rep, i) == rep + ReplaceFrom(s, pat, rep, i + |pat|);
    assert s[i..][..|pat|] == pat;
    assert s[i..][|pat|..] == s[i + |pat|..];
    assert Substitute(s[i..], pat, rep) == rep + Substitute(s[i + |pat|..], pat, rep);
  }

  lemma {:induction false} ReplaceCopyStep(s: string, pat: string, rep: string, i: nat)
    requires |pat| > 0 && i + |pat| <= |s| && s[i..i + |pat|] != pat
    requires AgreesFrom(s, pat, rep, i + 1)
    ensures AgreesFrom(s, pat, rep, i)
  {
    assert ReplaceFrom(s, pat, rep, i) == [s[i]] + ReplaceFrom(s, pat, rep, i + 1);
    assert s[i..][..|pat|] == s[i..i + |pat|];
    assert s[i..][1..] == s[i + 1..];
    assert Substitute(s[i..], pat, rep) == [s[i]] + Substitute(s[i + 1..], pat, rep);
  }

  lemma ReplaceAllIsSubstitute(s: string, pat: string, rep: string)
    requires |pat| > 0 && '$' !in rep
    ensures ReplaceAll(s, pat, rep) == Substitute(s, pat, rep)
  {
    ReplaceFromIsSubstitute(s, pat, rep, 0);
    assert s[0..] == s;
  }

  /** Text in which the pattern does not occur is left unchanged. */
  lemma {:induction false} SubstituteAbsent(s: string, pat: string, rep: string)
    requires |pat| > 0
    requires forall p: nat :: !OccursAt(s, pat, p)
    ensures Substitute(s, pat, rep) == s
    decreases |s|
  {
    if |s| >= |pat| {
      assert !OccursAt(s, pat, 0);
      forall p: nat
        ensures !OccursAt(s[1..], pat, p)
      {
        assert !OccursAt(s, pat, p + 1);
        if p + |pat| <= |s[1..]| {
          assert s[1..][p..p + |pat|] == s[p + 1..p + 1 + |pat|];
        }
      }
      SubstituteAbsent(s[1..], pat, rep);
    }
  }

  /** Replacing in text that does not contain the pattern returns it unchanged. */
  lemma ReplaceAllAbsent(s: string, pat: string, rep: string)
    requires |pat| > 0 && !Contains(s, pat)
    ensures ReplaceAll(s, pat, rep) == s
  {
    ReplaceAllAbsentFrom(s, pat, rep, 0);
    assert s[0..] == s;
  }

  lemma {:induction false} ReplaceAllAbsentFrom(s: string, pat: string, rep: string, i: nat)
    requires |pat| > 0 && i <= |s| && !Contains(s, pat)
    ensures ReplaceFrom(s, pat, rep, i) == s[i..]
    decreases |s| - i
  {
    if i + |pat| <= |s| {
      assert !OccursAt(s, pat, i);
      ReplaceAllAbsentFrom(s, pat, rep, i + 1);
    }
  }

  /** The pattern itself becomes exactly the replacement. */
  lemma SubstituteWhole(pat: string, rep: string)
    requires |pat| > 0
    ensures Substitute(pat, pat, rep) == rep
  {
    assert pat[..|pat|] == pat;
    assert Substitute(pat[|pat|..], pat, rep) == [];
  }

  /** No match of `pat` in `a + b` starts in `a` and ends in `b`. */
  predicate NoStraddle(a: string, b: string, pat: string)
  {
    forall p: nat :: p < |a| && OccursAt(a + b, pat, p) ==> p + |pat| <= |a|
  }

  predicate SplitsAt(a: string, b: string, pat: string, rep: string)
    requires |pat| > 0
  {
    Substitute(a + b, pat, rep) == Substitute(a, pat, rep) + Substitute(b, pat, rep)
  }

  /**
   * Substitution splits at a boundary that no match straddles: every match
   * that starts in `a` also ends in `a`.
   */
  lemma {:induction false} SubstituteAppend(a: string, b: string, pat: string, rep: string)
    requires |pat| > 0 && NoStraddle(a, b, pat)
    ensures SplitsAt(a, b, pat, rep)
    decreases |a|
  {
    if |a| == 0 {
      assert a + b == b;
    } else if |a + b| >= |pat| && (a + b)[..|pat|] == pat {
      AppendMatchFront(a, b, pat);
      SubstituteAppend(a[|pat|..], b, pat, rep);
      AppendMatchJoin(a, b, pat, rep);
    } else {
      AppendCopyFront(a, b, pat);
      SubstituteAppend(a[1..], b, pat, rep);
      AppendCopyJoin(a, b, pat, rep);
    }
  }

  /** A match at the front of `a + b` lies inside `a`; what follows it still straddles nothing. */
  lemma {:induction false} AppendMatchFront(a: string, b: string, pat: string)
    requires |pat| > 0 && |a| > 0 && NoStraddle(a, b, pat)
    requires |a + b| >= |pat| && (a + b)[..|pat|] == pat
    ensures |pat| <= |a| && NoStraddle(a[|pat|..], b, pat)
  {
    assert OccursAt(a + b, pat, 0);
    var a' := a[|pat|..];
    assert (a + b)[|pat|..] == a' + b;
    forall p: nat | p < |a'| && OccursAt(a' + b, pat, p)
      ensures p + |pat| <= |a'|
    {
      assert (a + b)[p + |pat|..p + |pat| + |pat|] == (a' + b)[p..p + |pat|];
      assert OccursAt(a + b, pat, p + |pat|);
    }
  }

  lemma {:induction false} AppendMatchJoin(a: string, b: string, pat: string, rep: string)
    requires |pat| > 0 && |pat| <= |a| && (a + b)[..|pat|] == pat
    requires SplitsAt(a[|pat|..], b, pat, rep)
    ensures SplitsAt(a, b, pat, rep)
  {
    var a' := a[|pat|..];
    assert a[..|pat|] == pat;
    assert (a + b)[|pat|..] == a' + b;
    assert Substitute(a + b, pat, rep) == rep + Substitute(a' + b, pat, rep);
    var y, z := Substitute(a', pat, rep), Substitute(b, pat, rep);
    assert rep + (y + z) == (rep + y) + z;
    assert Substitute(a, pat, rep) == rep + y;
  }

  /** No match at the front of `a + b`: none at the front of `a`, and the rest still straddles nothing. */
  lemma {:induction false} AppendCopyFront(a: string, b: string, pat: string)
    requires |pat| > 0 && |a| > 0 && NoStraddle(a, b, pat)
    requires !(|a + b| >= |pat| && (a + b)[..|pat|] == pat)
    ensures NoStraddle(a[1..], b, pat)
  {
    var a' := a[1..];
    assert (a + b)[1..] == a' + b;
    forall p: nat | p < |a'| && OccursAt(a' + b, pat, p)
      ensures p + |pat| <= |a'|
    {
      assert (a + b)[p + 1..p + 1 + |pat|] == (a' + b)[p..p + |pat|];
      assert OccursAt(a + b, pat, p + 1);
    }
  }

  lemma {:induction false} AppendCopyJoin(a: string, b: string, pat: string, rep: string)
    requires |pat| > 0 && |a| > 0 && !(|a + b| >= |pat| && (a + b)[..|pat|] == pat)
    requires SplitsAt(a[1..], b, pat, rep)
    ensures SplitsAt(a, b, pat, rep)
  {
    assert (a + b)[1..] == a[1..] + b;
    if |a| >= |pat| {
      assert a[..|pat|] == (a + b)[..|pat|];
      CopyJoinLong(a, b, pat, rep);
    } else {
      CopyJoinShort(a, b, pat, rep);
    }
  }

  lemma {:induction false} CopyJoinLong(a: string, b: string, pat: string, rep: string)
    requires |pat| > 0 && |pat| <= |a| && a[..|pat|] != pat && (a + b)[1..] == a[1..] + b
    requires Substitute(a + b, pat, rep) == [a[0]] + Substitute(a[1..] + b, pat, rep)
    requires SplitsAt(a[1..], b, pat, rep)
    ensures SplitsAt(a, b, pat, rep)
  {
    var x, y, z := [a[0]], Substitute(a[1..], pat, rep), Substitute(b, pat, rep);
    assert x + (y + z) == (x + y) + z;
    assert Substitute(a, pat, rep) == x + y;
  }

  lemma {:induction false} CopyJoinShort(a: string, b: string, pat: string, rep: string)
    requires |pat| > 0 && 0 < |a| < |pat|
    requires Substitute(a + b, pat, rep) == [a[0]] + Substitute(a[1..] + b, pat, rep)
    requires SplitsAt(a[1..], b, pat, rep)
    ensures SplitsAt(a, b, pat, rep)
  {
    assert Substitute(a, pat, rep) == a;
    assert Substitute(a[1..], pat, rep) == a[1..];
    assert a == [a[0]] + a[1..];
  }
}
