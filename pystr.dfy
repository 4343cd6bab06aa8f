/**
 * The few Python `str` operations the calculators rely on, with Python's
 * semantics: `p in s`, `s.find(p)`, `s.replace(p, r)` (every non-overlapping
 * occurrence, scanned left to right), `s.strip()`, `s.endswith(p)`,
 * `str.isalpha()` on one character, and `template.format(arg)` for
 * templates holding a single `{}`.
 */
module PyStr {

  /** `p` occurs in `s` starting at index `i`. */
  predicate OccursAt(s: string, p: string, i: int) {
    0 <= i && i + |p| <= |s| && s[i..i + |p|] == p
  }

  predicate StartsWith(s: string, p: string) {
    |p| <= |s| && s[..|p|] == p
  }

  predicate EndsWith(s: string, p: string) {
    |p| <= |s| && s[|s| - |p|..] == p
  }

  /** Python's `s.endswith(p)` holds exactly when `s` is some text followed
      by `p`. */
  lemma EndsWithAppend(t: string, p: string, s: string)
    ensures EndsWith(t + p, p)
    ensures EndsWith(s, p) ==> s[..|s| - |p|] + p == s
  {
    assert (t + p)[|t + p| - |p|..] == p;
  }

  /** Python's `s.find(p)`: the first index at which `p` occurs, or -1. */
  function Find(s: string, p: string): (i: int)
    ensures -1 <= i && (i >= 0 ==> i <= |s| - |p|)
    ensures i >= 0 ==> OccursAt(s, p, i)
    ensures forall j :: 0 <= j && (i < 0 || j < i) ==> !OccursAt(s, p, j)
    decreases |s|
  {
    if |s| < |p| then -1
    else if s[..|p|] == p then 0
    else
      var k := Find(s[1..], p);
      forall j | 1 <= j ensures OccursAt(s, p, j) <==> OccursAt(s[1..], p, j - 1) {
        if j + |p| <= |s| { SliceOfTail(s, j, |p|); }
      }
      if k < 0 then -1 else k + 1
  }

  /** A slice of `s[1..]` is the slice of `s` one further on. */
  lemma SliceOfTail(s: string, j: int, n: int)
    requires 1 <= j && 0 <= n && j + n <= |s|
    ensures s[1..][j - 1..j - 1 + n] == s[j..j + n]
  {
    var a, b := s[1..][j - 1..j - 1 + n], s[j..j + n];
    forall m | 0 <= m < n ensures a[m] == b[m] { }
  }

  /** Python's `p in s` on strings (a substring test). */
  predicate Contains(s: string, p: string) {
    Find(s, p) >= 0
  }

  lemma ContainsIff(s: string, p: string)
    ensures Contains(s, p) <==> exists i :: OccursAt(s, p, i)
  {
    if !Contains(s, p) {
      forall i ensures !OccursAt(s, p, i) {
        if i < 0 { } else { assert !OccursAt(s, p, i); }
      }
    }
  }

  /** Text found in `t` is found in any text that ends with `t`. */
  lemma ContainsAfter(h: string, t: string, p: string)
    requires Contains(t, p)
    ensures Contains(h + t, p)
  {
    ContainsIff(t, p);
    var k :| OccursAt(t, p, k);
    assert (h + t)[|h| + k..|h| + k + |p|] == t[k..k + |p|];
    assert OccursAt(h + t, p, |h| + k);
    ContainsIff(h + t, p);
  }

  /** A one-character pattern is contained exactly when the character is. */
  lemma {:induction false} ContainsChar(s: string, c: char)
    ensures Contains(s, [c]) <==> c in s
  {
    if c in s {
      var i :| 0 <= i < |s| && s[i] == c;
      assert s[i..i + 1] == [c];
      assert OccursAt(s, [c], i);
    } else {
      forall i ensures !OccursAt(s, [c], i) {
        if 0 <= i < |s| { assert s[i..i + 1] == [s[i]]; }
      }
      ContainsIff(s, [c]);
    }
  }

  /** Python's `s.replace(p, r)`; for an empty `p` Python puts `r` before
      every character and at the end. */
  function Replace(s: string, p: string, r: string): string
    decreases |s|
  {
    if |p| == 0 then (if s == [] then r else r + [s[0]] + Replace(s[1..], p, r))
    else if |s| < |p| then s
    else if s[..|p|] == p then r + Replace(s[|p|..], p, r)
    else [s[0]] + Replace(s[1..], p, r)
  }

  /** Replacing a pattern that does not occur leaves the text unchanged. */
  lemma {:induction false} ReplaceAbsent(s: string, p: string, r: string)
    requires |p| > 0 && !Contains(s, p)
    ensures Replace(s, p, r) == s
    decreases |s|
  {
    if |s| >= |p| {
      assert !OccursAt(s, p, 0);
      forall j | 0 <= j ensures !OccursAt(s[1..], p, j) {
        assert !OccursAt(s, p, j + 1);
      }
      ContainsIff(s[1..], p);
      ReplaceAbsent(s[1..], p, r);
    }
  }

  /** A character found neither in the text nor in the replacement is not
      in the result. */
  lemma {:induction false} ReplaceKeepsAbsent(s: string, p: string, r: string, c: char)
    requires c !in s && c !in r
    ensures c !in Replace(s, p, r)
    decreases |s|
  {
    if |p| == 0 {
      if s != [] { ReplaceKeepsAbsent(s[1..], p, r, c); }
    } else if |s| >= |p| {
      if s[..|p|] == p {
        assert forall k :: 0 <= k < |s[|p|..]| ==> s[|p|..][k] == s[|p| + k];
        ReplaceKeepsAbsent(s[|p|..], p, r, c);
      } else {
        ReplaceKeepsAbsent(s[1..], p, r, c);
      }
    }
  }

  /** Replacing a one-character pattern by a text without that character
      removes every occurrence of it. */
  lemma {:induction false} ReplaceRemovesChar(s: string, c: char, r: string)
    requires c !in r
    ensures c !in Replace(s, [c], r)
    decreases |s|
  {
    if |s| >= 1 {
      if s[..1] == [c] {
        ReplaceRemovesChar(s[1..], c, r);
      } else {
        assert s[0] != c by { assert s[..1][0] == s[0]; }
        ReplaceRemovesChar(s[1..], c, r);
      }
    }
  }

  /** Python's `s.replace(p, r)` on a text starting with a character that
      cannot begin `p` keeps that character and goes on with the rest. */
  lemma ReplaceSkip(c: char, s: string, p: string, r: string)
    requires |p| > 0 && c != p[0]
    ensures Replace([c] + s, p, r) == [c] + Replace(s, p, r)
  {
    var t := [c] + s;
    if |t| >= |p| { assert t[..|p|][0] == c; }
    assert t[1..] == s;
  }

  /** The same for a text whose first character starts `p` but whose
      second does not continue it. */
  lemma ReplaceSkipSecond(c: char, d: char, s: string, p: string, r: string)
    requires |p| > 1 && c == p[0] && d != p[1]
    ensures Replace([c] + ([d] + s), p, r) == [c] + Replace([d] + s, p, r)
  {
    var t := [c] + ([d] + s);
    if |t| >= |p| { assert t[..|p|][1] == d; }
    assert t[1..] == [d] + s;
  }

  /** A text starting with `p` gets `r` and goes on after `p`. */
  lemma ReplaceHit(p: string, s: string, r: string)
    requires |p| > 0
    ensures Replace(p + s, p, r) == r + Replace(s, p, r)
  {
    var t := p + s;
    assert t[..|p|] == p && t[|p|..] == s;
  }

  /** A pattern holding a character the text lacks does not occur in it, so
      replacing it changes nothing. */
  lemma ReplaceMissingChar(s: string, p: string, r: string, c: char)
    requires c in p && c !in s
    ensures !Contains(s, p)
    ensures Replace(s, p, r) == s
  {
    var k :| 0 <= k < |p| && p[k] == c;
    forall i | 0 <= i && i + |p| <= |s| ensures !OccursAt(s, p, i) {
      assert s[i..i + |p|][k] == s[i + k] != c;
    }
    ContainsIff(s, p);
    ReplaceAbsent(s, p, r);
  }

  /** The characters `str.isspace()` accepts. */
  predicate IsSpace(c: char) {
    ('\t' <= c <= '\r') || ('\U{1C}' <= c <= ' ') || c == '\U{85}' || c == '\U{A0}'
    || c == '\U{1680}' || ('\U{2000}' <= c <= '\U{200A}') || c == '\U{2028}' || c == '\U{2029}'
    || c == '\U{202F}' || c == '\U{205F}' || c == '\U{3000}'
  }

  /** Python's `s.lstrip()`: drops the leading run of whitespace. */
  function LStrip(s: string): (r: string)
    ensures |r| <= |s| && r == s[|s| - |r|..]
    ensures r == [] || !IsSpace(r[0])
    ensures forall i :: 0 <= i < |s| - |r| ==> IsSpace(s[i])
    decreases |s|
  {
    if s != [] && IsSpace(s[0]) then LStrip(s[1..]) else s
  }

  /** Python's `s.rstrip()`: drops the trailing run of whitespace. */
  function RStrip(s: string): (r: string)
    ensures |r| <= |s| && r == s[..|r|]
    ensures r == [] || !IsSpace(r[|r| - 1])
    ensures forall i :: |r| <= i < |s| ==> IsSpace(s[i])
    decreases |s|
  {
    if s != [] && IsSpace(s[|s| - 1]) then RStrip(s[..|s| - 1]) else s
  }

  /** Python's `s.strip()`. */
  function Strip(s: string): string {
    RStrip(LStrip(s))
  }

  lemma StripShape(s: string)
    ensures var r := Strip(s); r == [] || (!IsSpace(r[0]) && !IsSpace(r[|r| - 1]))
  {
    var l := LStrip(s);
    var r := RStrip(l);
    if r != [] { assert r[0] == l[0]; }
  }

  /** Stripping twice is stripping once. */
  lemma StripIdempotent(s: string)
    ensures Strip(Strip(s)) == Strip(s)
  {
    var r := Strip(s);
    StripShape(s);
    if r != [] {
      assert LStrip(r) == r;
      assert RStrip(r) == r;
    }
  }

  /** A text that neither starts nor ends with whitespace is its own strip. */
  lemma StripNoSpace(s: string)
    requires s == [] || (!IsSpace(s[0]) && !IsSpace(s[|s| - 1]))
    ensures Strip(s) == s
  {
    if s != [] {
      assert LStrip(s) == s;
    }
  }

  /** Appending whitespace: the left strip keeps it only after a
      non-blank text. */
  lemma {:induction false} LStripAppendSpace(s: string, c: char)
    requires IsSpace(c)
    ensures LStrip(s + [c]) == if LStrip(s) == [] then [] else LStrip(s) + [c]
    decreases |s|
  {
    if s != [] && IsSpace(s[0]) {
      assert (s + [c])[1..] == s[1..] + [c];
      LStripAppendSpace(s[1..], c);
    }
  }

  /** Trailing whitespace does not survive `strip()`. */
  lemma StripAppendSpace(s: string, c: char)
    requires IsSpace(c)
    ensures Strip(s + [c]) == Strip(s)
  {
    LStripAppendSpace(s, c);
    var l := LStrip(s);
    if l != [] {
      assert (l + [c])[..|l|] == l;
    }
  }

  /** A text ending in a non-blank character still ends with it after
      `strip()`. */
  lemma StripKeepsLast(s: string, c: char)
    requires !IsSpace(c)
    ensures EndsWith(Strip(s + [c]), [c])
  {
    var t := s + [c];
    var l := LStrip(t);
    assert l != [] by { assert t[|t| - 1] == c; }
    assert l[|l| - 1] == c;
    assert RStrip(l) == l;
  }

  /** `str.isalpha()` for one character: ASCII and Greek letters (every
      character a calculator button carries that Python treats as a letter). */
  predicate IsAlpha(c: char) {
    ('A' <= c <= 'Z') || ('a' <= c <= 'z')
    || ('Α' <= c <= 'Ρ') || ('Σ' <= c <= 'Ω') || ('α' <= c <= 'ω')
  }

  /** Python's `c.upper()` on an ASCII lower-case letter. */
  function UpperAscii(c: char): (u: char)
    ensures 'a' <= c <= 'z' ==> 'A' <= u <= 'Z' && u as int == c as int - 32
    ensures !('a' <= c <= 'z') ==> u == c
  {
    if 'a' <= c <= 'z' then (c as int - 32) as char else c
  }

  /** `template.format(arg)` for a template whose only braces are one `{}`:
      the first `{}` is replaced by `arg`; a template without `{}` is
      returned unchanged. */
  function Format(template: string, arg: string): (r: string)
    ensures Find(template, "{}") < 0 ==> r == template
    ensures Find(template, "{}") >= 0 ==> |r| == |template| - 2 + |arg|
  {
    var i := Find(template, "{}");
    if i < 0 then template else template[..i] + arg + template[i + 2..]
  }

  /** `Find` returns the first occurrence. */
  lemma FindIsFirst(s: string, p: string, k: int)
    requires OccursAt(s, p, k)
    requires forall j :: 0 <= j < k ==> !OccursAt(s, p, j)
    ensures Find(s, p) == k
  {
  }

  /** The first occurrence of a character is found. */
  lemma FindChar(s: string, c: char, k: int)
    requires 0 <= k < |s| && s[k] == c && c !in s[..k]
    ensures Find(s, [c]) == k
  {
    assert s[k..k + 1] == [c];
    forall j | 0 <= j < k ensures !OccursAt(s, [c], j) {
      assert s[j..j + 1][0] == s[j] == s[..k][j];
    }
    FindIsFirst(s, [c], k);
  }

  /** In a template `f({}rest)` whose head has no brace, the placeholder
      follows the first `(` after `f`. */
  lemma FindPlaceholder(f: string, rest: string)
    requires '{' !in f
    ensures Find(f + "({}" + rest, "{}") == |f| + 1
  {
    var t := f + "({}" + rest;
    assert t[|f| + 1..|f| + 3] == "{}";
    forall j | 0 <= j < |f| + 1 ensures !OccursAt(t, "{}", j) {
      assert t[j] != '{' by {
        if j < |f| { assert t[j] == f[j]; } else { assert t[j] == '('; }
      }
      assert t[j..j + 2][0] == t[j];
    }
    FindIsFirst(t, "{}", |f| + 1);
  }

  /** On such a template the argument takes the placeholder's place, right
      after the `(`. */
  lemma FormatPlaceholder(f: string, arg: string, rest: string)
    requires '{' !in f
    ensures Format(f + "({}" + rest, arg) == f + "(" + arg + rest
  {
    var t := f + "({}" + rest;
    FindPlaceholder(f, rest);
    assert t[..|f| + 1] == f + "(";
    assert t[|f| + 3..] == rest;
  }

  /** On a call template `f({})` the argument lands between the parentheses. */
  lemma FormatCall(f: string, arg: string)
    requires '{' !in f
    ensures Format(f + "({})", arg) == f + "(" + arg + ")"
  {
    FormatPlaceholder(f, arg, ")");
    assert f + "({}" + ")" == f + "({})";
  }
}
