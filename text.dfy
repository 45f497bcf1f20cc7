/**
 * String helpers shared by the model: decimal conversion as Python's
 * `str(int)` and `int(str)` do it on plain decimal text, `str.join`,
 * and substring search.
 */
module Text {
  import opened Wrappers

  predicate IsDigit(c: char) { '0' <= c <= '9' }

  predicate AllDigits(s: string) { forall i :: 0 <= i < |s| ==> IsDigit(s[i]) }

  function DigitChar(d: nat): (c: char)
    requires d < 10
    ensures IsDigit(c)
  {
    ['0', '1', '2', '3', '4', '5', '6', '7', '8', '9'][d]
  }

  function DigitValue(c: char): (d: nat)
    requires IsDigit(c)
    ensures d < 10
  {
    (c as int - '0' as int) as nat
  }

  lemma DigitRoundTrip(d: nat)
    requires d < 10
    ensures DigitValue(DigitChar(d)) == d
  {
  }

  /** Python `str(n)` for a non-negative integer: decimal, no leading zero. */
  function NatToString(n: nat): (s: string)
    ensures |s| > 0
    ensures s[0] == '0' ==> n == 0
    decreases n
  {
    if n < 10 then [DigitChar(n)] else NatToString(n / 10) + [DigitChar(n % 10)]
  }

  /** `str(n)` is made of decimal digits only. */
  lemma {:induction false} NatToStringDigits(n: nat)
    ensures AllDigits(NatToString(n))
    decreases n
  {
    if n >= 10 {
      NatToStringDigits(n / 10);
    }
  }

  /** The value of a string of decimal digits, read left to right. */
  function DigitsValue(s: string): nat
    requires AllDigits(s)
  {
    if |s| == 0 then 0 else DigitsValue(s[..|s| - 1]) * 10 + DigitValue(s[|s| - 1])
  }

  /** Python `str(i)` for any integer. */
  function IntToString(i: int): (s: string)
    ensures |s| > 0
    ensures i >= 0 ==> AllDigits(s)
    ensures i < 0 ==> s[0] == '-' && AllDigits(s[1..])
  {
    if i >= 0 then NatToStringDigits(i); NatToString(i)
    else NatToStringDigits(-i); "-" + NatToString(-i)
  }

  /**
   * Python `int(s)` restricted to text made of an optional sign and
   * decimal digits; anything else raises ValueError (`None` here).
   */
  function ParseInt(s: string): (r: Option<int>)
    ensures r.Some? ==> |s| > 0
    ensures AllDigits(s) && |s| > 0 ==> r == Some(DigitsValue(s))
  {
    if |s| == 0 then None
    else if AllDigits(s) then Some(DigitsValue(s))
    else if (s[0] == '-' || s[0] == '+') && |s| > 1 && AllDigits(s[1..]) then
      var magnitude: int := DigitsValue(s[1..]);
      Some(if s[0] == '-' then -magnitude else magnitude)
    else None
  }

  lemma {:induction false} NatToStringValue(n: nat)
    ensures AllDigits(NatToString(n)) && DigitsValue(NatToString(n)) == n
    decreases n
  {
    NatToStringDigits(n);
    var s := NatToString(n);
    if n < 10 {
      assert s[..|s| - 1] == [];
      DigitRoundTrip(n);
    } else {
      NatToStringValue(n / 10);
      assert s[..|s| - 1] == NatToString(n / 10);
      DigitRoundTrip(n % 10);
    }
  }

  /** Decoding what `str` printed gives the number back. */
  lemma IntStringRoundTrip(i: int)
    ensures ParseInt(IntToString(i)) == Some(i)
  {
    if i >= 0 {
      NatToStringValue(i);
    } else {
      var s := IntToString(i);
      NatToStringValue(-i);
      assert s[1..] == NatToString(-i);
      assert !IsDigit(s[0]);
    }
  }

  /** `str` never prints two integers the same way. */
  lemma IntToStringInjective(i: int, j: int)
    requires IntToString(i) == IntToString(j)
    ensures i == j
  {
    IntStringRoundTrip(i);
    IntStringRoundTrip(j);
  }

  lemma NatToStringInjective(i: nat, j: nat)
    requires NatToString(i) == NatToString(j)
    ensures i == j
  {
    NatToStringValue(i);
    NatToStringValue(j);
  }

  /** Python `sep.join(parts)`. */
  function Join(parts: seq<string>, sep: string): (r: string)
    ensures |parts| == 0 ==> r == ""
    ensures |parts| == 1 ==> r == parts[0]
  {
    if |parts| == 0 then ""
    else if |parts| == 1 then parts[0]
    else parts[0] + sep + Join(parts[1..], sep)
  }

  /** Concatenation is associative. */
  lemma AppendAssoc<T>(a: seq<T>, b: seq<T>, c: seq<T>)
    ensures (a + b) + c == a + (b + c)
  {
  }

  /** Cutting a sequence at `n` and joining the pieces gives it back. */
  lemma CutJoin<T>(s: seq<T>, n: nat)
    requires n <= |s|
    ensures s[..n] + s[n..] == s
  {
  }

  /** Joining two non-empty lists puts one separator between their joins. */
  lemma {:induction false} JoinAppend(a: seq<string>, b: seq<string>, sep: string)
    requires |a| > 0 && |b| > 0
    ensures Join(a + b, sep) == Join(a, sep) + sep + Join(b, sep)
    decreases |a|
  {
    if |a| == 1 {
      assert (a + b)[1..] == b;
    } else {
      JoinAppend(a[1..], b, sep);
      assert (a + b)[1..] == a[1..] + b;
    }
  }

  /** The joined text is exactly as long as the parts plus one separator between each two. */
  function TotalLength(parts: seq<string>): nat
  {
    if |parts| == 0 then 0 else |parts[0]| + TotalLength(parts[1..])
  }

  lemma {:induction false} JoinLength(parts: seq<string>, sep: string)
    requires |parts| > 0
    ensures |Join(parts, sep)| == TotalLength(parts) + (|parts| - 1) * |sep|
    decreases |parts|
  {
    if |parts| > 1 {
      JoinLength(parts[1..], sep);
    }
  }

  /** `pat` occurs in `s` starting at position `i`. */
  predicate OccursAt(s: string, pat: string, i: nat)
  {
    i + |pat| <= |s| && s[i..i + |pat|] == pat
  }

  /** JavaScript `s.includes(pat)`. */
  predicate Contains(s: string, pat: string)
  {
    exists i: nat | i <= |s| :: OccursAt(s, pat, i)
  }

  /** The first position at or after `from` where `pat` occurs, as `indexOf` finds it. */
  function IndexOf(s: string, pat: string, from: nat): (r: Option<nat>)
    ensures r.Some? ==> from <= r.value && OccursAt(s, pat, r.value)
    decreases |s| - from
  {
    if from + |pat| > |s| then None
    else if s[from..from + |pat|] == pat then Some(from)
    else IndexOf(s, pat, from + 1)
  }

  /** What `indexOf` finds is the first occurrence at or after `from`; when it finds none there is none. */
  lemma {:induction false} IndexOfFirst(s: string, pat: string, from: nat)
    ensures IndexOf(s, pat, from).Some? ==> forall j: nat :: from <= j < IndexOf(s, pat, from).value ==> !OccursAt(s, pat, j)
    ensures IndexOf(s, pat, from).None? ==> forall j: nat :: from <= j ==> !OccursAt(s, pat, j)
    decreases |s| - from
  {
    if from + |pat| <= |s| && s[from..from + |pat|] != pat {
      IndexOfFirst(s, pat, from + 1);
    }
  }

  /** Leading characters satisfying `ws` removed: the longest such prefix goes. */
  function StripLeft(s: string, ws: char -> bool): (r: string)
    ensures |r| <= |s| && r == s[|s| - |r|..]
    ensures forall k {:trigger ws(s[k])} :: 0 <= k < |s| - |r| ==> ws(s[k])
    ensures r == [] || !ws(r[0])
  {
    if |s| > 0 && ws(s[0]) then StripLeft(s[1..], ws) else s
  }

  /** Trailing characters satisfying `ws` removed: the longest such suffix goes. */
  function StripRight(s: string, ws: char -> bool): (r: string)
    ensures |r| <= |s| && r == s[..|r|]
    ensures forall k {:trigger ws(s[k])} :: |r| <= k < |s| ==> ws(s[k])
    ensures r == [] || !ws(r[|r| - 1])
  {
    if |s| > 0 && ws(s[|s| - 1]) then StripRight(s[..|s| - 1], ws) else s
  }

  /** The characters for which Python's `str.isspace()` holds, which `str.strip()` removes. */
  predicate IsPySpace(c: char)
  {
    if c <= ' ' then '\t' <= c <= '\r' || '\U{001C}' <= c
    else '\U{0085}' <= c && IsWideSpace(c)
  }

  /** The whitespace characters of `str.isspace()` above U+0084. */
  predicate IsWideSpace(c: char)
  {
    c == '\U{0085}' || c == '\U{00A0}' ||
    c == '\U{1680}' || ('\U{2000}' <= c <= '\U{200A}') || c == '\U{2028}' || c == '\U{2029}' ||
    c == '\U{202F}' || c == '\U{205F}' || c == '\U{3000}'
  }

  /** Python `str.strip()` and JavaScript `trim()`, for their own whitespace sets. */
  function Strip(s: string, ws: char -> bool): (r: string)
    ensures r == [] || (!ws(r[0]) && !ws(r[|r| - 1]))
  {
    StripRight(StripLeft(s, ws), ws)
  }

  /**
   * Strip removes exactly the whitespace at both ends: the result is a slice
   * `s[i..j]` with only whitespace outside it, and it is empty exactly when
   * every character is whitespace.
   */
  lemma StripSlice(s: string, ws: char -> bool)
    ensures exists i, j :: 0 <= i <= j <= |s| && Strip(s, ws) == s[i..j] &&
              (forall k :: 0 <= k < i ==> ws(s[k])) && (forall k :: j <= k < |s| ==> ws(s[k]))
    ensures Strip(s, ws) == [] <==> forall k :: 0 <= k < |s| ==> ws(s[k])
  {
    var l := StripLeft(s, ws);
    var i := |s| - |l|;
    var r := StripRight(l, ws);
    var j := i + |r|;
    assert Strip(s, ws) == r;
    assert r == s[i..j];
    assert forall k :: 0 <= k < i ==> ws(s[k]);
    forall k | j <= k < |s|
      ensures ws(s[k])
    {
      assert l[k - i] == s[k];
    }
    assert 0 <= i <= j <= |s| && Strip(s, ws) == s[i..j];
    if r == [] {
      assert j == i;
    }
  }

  /** Text without whitespace at either end is left as it is. */
  lemma StripUnchanged(s: string, ws: char -> bool)
    requires s == [] || (!ws(s[0]) && !ws(s[|s| - 1]))
    ensures Strip(s, ws) == s
  {
  }

  /**
   * Python's rule for `_` in `int()` text: every `_` stands between two
   * digits. `afterDigit` says whether the character before `t` is a digit.
   */
  predicate UnderscoresOk(t: string, afterDigit: bool := false)
  {
    if t == [] then true
    else if t[0] == '_' then afterDigit && |t| > 1 && IsDigit(t[1]) && UnderscoresOk(t[1..], false)
    else UnderscoresOk(t[1..], IsDigit(t[0]))
  }

  /** Text without `_` meets the rule. */
  lemma {:induction false} NoUnderscoresOk(t: string, afterDigit: bool)
    requires '_' !in t
    ensures UnderscoresOk(t, afterDigit)
  {
    if t != [] {
      assert t[0] in t;
      NoUnderscoresOk(t[1..], IsDigit(t[0]));
    }
  }

  /** The text with its `_` separators taken out. */
  function DropUnderscores(t: string): (r: string)
    ensures '_' !in r && |r| <= |t|
    ensures '_' !in t ==> r == t
  {
    if t == [] then [] else (if t[0] == '_' then [] else [t[0]]) + DropUnderscores(t[1..])
  }

  /**
   * Python `int(s)` in base 10: surrounding whitespace is ignored, and `_`
   * may separate digits; what is left must be an optional sign and decimal
   * digits, or ValueError is raised (`None` here).
   */
  function PyInt(s: string): Option<int>
  {
    var t := PyStrip(s);
    if UnderscoresOk(t) then ParseInt(DropUnderscores(t)) else None
  }

  /**
   * Python `str.strip()`, as `int()` applies it: Strip specialised to
   * IsPySpace (PyStripIsStrip), spelled out so that `int()` unfolds cheaply.
   */
  function PyStrip(s: string): string
  {
    PyStripRight(PyStripLeft(s))
  }

  function PyStripLeft(s: string): string
  {
    if |s| > 0 && IsPySpace(s[0]) then PyStripLeft(s[1..]) else s
  }

  function PyStripRight(s: string): string
  {
    if |s| > 0 && IsPySpace(s[|s| - 1]) then PyStripRight(s[..|s| - 1]) else s
  }

  lemma {:induction false} PyStripLeftIsStripLeft(s: string)
    ensures PyStripLeft(s) == StripLeft(s, IsPySpace)
  {
    if |s| > 0 && IsPySpace(s[0]) {
      PyStripLeftIsStripLeft(s[1..]);
    }
  }

  lemma {:induction false} PyStripRightIsStripRight(s: string)
    ensures PyStripRight(s) == StripRight(s, IsPySpace)
  {
    if |s| > 0 && IsPySpace(s[|s| - 1]) {
      PyStripRightIsStripRight(s[..|s| - 1]);
    }
  }

  /** The strip `int()` applies is `str.strip()` on Python's whitespace. */
  lemma PyStripIsStrip(s: string)
    ensures PyStrip(s) == Strip(s, IsPySpace)
  {
    PyStripLeftIsStripLeft(s);
    PyStripRightIsStripRight(StripLeft(s, IsPySpace));
  }

  /** On text with no `_` and no whitespace at either end, `int()` reads a plain signed decimal. */
  lemma PyIntPlain(s: string)
    requires '_' !in s && (s == [] || (!IsPySpace(s[0]) && !IsPySpace(s[|s| - 1])))
    ensures PyInt(s) == ParseInt(s)
  {
    PyStripIsStrip(s);
    StripUnchanged(s, IsPySpace);
    NoUnderscoresOk(s, false);
  }

  /** What `str` prints is a sign and digits: no `_`, no whitespace. */
  lemma IntToStringPlain(i: int)
    ensures var s := IntToString(i);
            '_' !in s && !IsPySpace(s[0]) && !IsPySpace(s[|s| - 1])
  {
    var s := IntToString(i);
    forall q | 0 <= q < |s|
      ensures s[q] == '-' || IsDigit(s[q])
    {
      if i < 0 && q > 0 {
        assert s[q] == s[1..][q - 1];
      }
    }
  }

  /** `int(str(i)) == i`. */
  lemma PyIntRoundTrip(i: int)
    ensures PyInt(IntToString(i)) == Some(i)
  {
    IntToStringPlain(i);
    PyIntPlain(IntToString(i));
    IntStringRoundTrip(i);
  }

  /** `int()` ignores the whitespace around a number. */
  lemma PyIntSpaces()
    ensures PyInt(" 7\n") == Some(7)
  {
    assert PyStripLeft(" 7\n") == "7\n";
    assert PyStripRight("7\n") == "7";
    assert DropUnderscores("7") == "7";
  }

  /** `int()` reads `_` between digits as a separator. */
  lemma PyIntSeparator()
    ensures PyInt("2_5") == Some(25)
  {
    var s := "2_5";
    assert PyStrip(s) == s;
    assert UnderscoresOk(s) && DropUnderscores(s) == "25" by {
      assert s[1..] == "_5" && s[2..] == "5" && "5"[1..] == [];
    }
    assert ParseInt("25") == Some(25) by {
      assert "25"[..1] == "2" && "2"[..0] == [];
    }
  }

  /** `int()` rejects a doubled `_`. */
  lemma PyIntDoubledSeparator()
    ensures PyInt("1__0") == None
  {
    var s := "1__0";
    assert PyStrip(s) == s;
    assert !UnderscoresOk(s[2..], false);
  }
}
