/**
 * Text rewriting done before an expression is handed to the engine:
 * dropping a trailing `=`, substituting the display operators `×` and `÷`,
 * and, in degree mode, scaling the trigonometric calls.
 */
module Rewrite {
  import opened PyStr

  /** The session's angle setting, "RAD" or "DEG". */
  datatype AngleMode = Rad | Deg

  /** `toggle_angle_mode`: RAD becomes DEG and anything else becomes RAD. */
  function Toggle(m: AngleMode): (r: AngleMode)
    ensures r != m
  {
    if m == Rad then Deg else Rad
  }

  /** Toggling twice gives back the original mode. */
  lemma ToggleTwice(m: AngleMode)
    ensures Toggle(Toggle(m)) == m
  {
  }

  /** `e[:-1]` when `e.endswith('=')`. */
  function DropTrailingEquals(e: string): (r: string)
    ensures EndsWith(e, "=") ==> r + "=" == e
    ensures !EndsWith(e, "=") ==> r == e
  {
    if EndsWith(e, "=") then e[..|e| - 1] else e
  }

  /** `e.replace('×', '*').replace('÷', '/')`. */
  function SubstituteOperators(e: string): (r: string)
    ensures '×' !in r && '÷' !in r
  {
    var m := Replace(e, "×", "*");
    ReplaceRemovesChar(e, '×', "*");
    ReplaceRemovesChar(m, '÷', "/");
    ReplaceKeepsAbsent(m, "÷", "/", '×');
    Replace(m, "÷", "/")
  }

  /** Text without `×` and `÷` reaches the engine unchanged. */
  lemma SubstituteOperatorsIdentity(e: string)
    requires '×' !in e && '÷' !in e
    ensures SubstituteOperators(e) == e
  {
    ContainsChar(e, '×');
    ReplaceAbsent(e, "×", "*");
    ContainsChar(e, '÷');
    ReplaceAbsent(e, "÷", "/");
  }

  /** Python's `if p in e: e = e.replace(p, r)`. */
  function ReplaceIfPresent(e: string, p: string, r: string): string {
    if Contains(e, p) then Replace(e, p, r) else e
  }

  /** The guard in front of each replace changes nothing: a replace of an
      absent pattern is already the identity. */
  lemma ReplaceIfPresentIsReplace(e: string, p: string, r: string)
    requires |p| > 0
    ensures ReplaceIfPresent(e, p, r) == Replace(e, p, r)
  {
    if !Contains(e, p) { ReplaceAbsent(e, p, r); }
  }

  /** The degree-mode chain exactly as written: six guarded replaces, in
      this order. Because `sin(` is rewritten first, it also rewrites the
      `sin(` inside `asin(` (likewise `cos(`/`acos(` and `tan(`/`atan(`). */
  function DegreeChainAsWritten(e: string): string {
    InverseRulesAsWritten(DirectRulesAsWritten(e))
  }

  /** The first three replaces: the direct functions' arguments. */
  function DirectRulesAsWritten(e: string): string {
    var e1 := ReplaceIfPresent(e, "sin(", "sin(pi/180*");
    var e2 := ReplaceIfPresent(e1, "cos(", "cos(pi/180*");
    ReplaceIfPresent(e2, "tan(", "tan(pi/180*")
  }

  /** The last three replaces: the inverse functions' results. */
  function InverseRulesAsWritten(e: string): string {
    var e4 := ReplaceIfPresent(e, "asin(", "(180/pi)*asin(");
    var e5 := ReplaceIfPresent(e4, "acos(", "(180/pi)*acos(");
    ReplaceIfPresent(e5, "atan(", "(180/pi)*atan(")
  }

  /** A plain number: digits and decimal points only. */
  predicate Numeral(x: string) {
    forall i :: 0 <= i < |x| ==> ('0' <= x[i] <= '9' || x[i] == '.')
  }

  /** A guarded replace whose pattern holds a character the text lacks
      leaves the text alone. */
  lemma GuardSkips(e: string, p: string, r: string, c: char)
    requires c in p && c !in e
    ensures ReplaceIfPresent(e, p, r) == e
  {
    ReplaceMissingChar(e, p, r, c);
  }

  /** A guarded replace on `p + t`, where `t` lacks a character of `p`,
      rewrites the leading `p` only. */
  lemma GuardHitsAtStart(p: string, t: string, r: string, c: char)
    requires c in p && c !in t
    ensures ReplaceIfPresent(p + t, p, r) == r + t
  {
    ReplaceHit(p, t, r);
    ReplaceMissingChar(t, p, r, c);
    ReplaceIfPresentIsReplace(p + t, p, r);
  }

  /** The same behind a first character that cannot start `p`. */
  lemma GuardHitsAfterFirst(a: char, p: string, t: string, r: string, c: char)
    requires c in p && c !in t && a != p[0]
    ensures ReplaceIfPresent([a] + (p + t), p, r) == [a] + (r + t)
  {
    ReplaceSkip(a, p + t, p, r);
    ReplaceHit(p, t, r);
    ReplaceMissingChar(t, p, r, c);
    ReplaceIfPresentIsReplace([a] + (p + t), p, r);
  }

  /** `[a] + p + x + ")"` read as `[a]` before `p` before the rest. */
  lemma Regroup(a: char, p: string, x: string)
    ensures ([a] + p) + x + ")" == [a] + (p + (x + ")"))
  {
  }

  /** A guarded replace on a call `[a] + p + x + ")"`, where `a` cannot
      start `p` and `x` lacks a character of `p`, rewrites `p` only. */
  lemma GuardHitsCallAfterFirst(a: char, p: string, x: string, r: string, c: char)
    requires c in p && c !in x && c != ')' && a != p[0]
    ensures ReplaceIfPresent(([a] + p) + x + ")", p, r) == ([a] + r) + x + ")"
  {
    assert c !in x + ")";
    GuardHitsAfterFirst(a, p, x + ")", r, c);
    Regroup(a, p, x);
    Regroup(a, r, x);
  }

  lemma AsinSplit()
    ensures "asin(" == ['a'] + "sin(" && "asin(pi/180*" == ['a'] + "sin(pi/180*"
  {
  }

  /** The `sin(` rule fires inside `asin(`. */
  lemma SinRuleInsideAsin(x: string)
    requires Numeral(x)
    ensures ReplaceIfPresent("asin(" + x + ")", "sin(", "sin(pi/180*") == "asin(pi/180*" + x + ")"
  {
    assert 's' !in x;
    GuardHitsCallAfterFirst('a', "sin(", x, "sin(pi/180*", 's');
    AsinSplit();
  }

  /** The `asin(` rule then fires on the already scaled call. */
  lemma AsinRuleAfterSinRule(x: string)
    requires Numeral(x)
    ensures ReplaceIfPresent("asin(pi/180*" + x + ")", "asin(", "(180/pi)*asin(")
            == "(180/pi)*asin(pi/180*" + x + ")"
  {
    var t := "pi/180*" + x + ")";
    ScaledLacks("pi/180*", x);
    GuardHitsAtStart("asin(", t, "(180/pi)*asin(", 'a');
    ScaledSplit();
    Regroup3("asin(", "pi/180*", x);
    Regroup3("(180/pi)*asin(", "pi/180*", x);
  }

  /** The scaled heads, split before the scale factor. */
  lemma ScaledSplit()
    ensures "asin(pi/180*" == "asin(" + "pi/180*"
    ensures "(180/pi)*asin(pi/180*" == "(180/pi)*asin(" + "pi/180*"
    ensures "(180/pi)*asin(" == "(180/pi)*" + "asin("
  {
  }

  /** `a + b + x + ")"` read as `a` before the rest. */
  lemma Regroup3(a: string, b: string, x: string)
    ensures (a + b) + x + ")" == a + (b + x + ")")
  {
  }

  /** A number in a call whose head lacks `c`, `t` (and `a`) lacks them too. */
  lemma ScaledLacks(head: string, x: string)
    requires Numeral(x)
    ensures 'c' !in head ==> 'c' !in head + x + ")"
    ensures 't' !in head ==> 't' !in head + x + ")"
    ensures 'a' !in head ==> 'a' !in head + x + ")"
    ensures '×' !in head ==> '×' !in head + x + ")"
    ensures '÷' !in head ==> '÷' !in head + x + ")"
  {
  }

  /** A number in a call whose head lacks the letter `ch` lacks it too. */
  lemma NumeralCallLacks(head: string, x: string, ch: char)
    requires Numeral(x) && ch !in head
    requires ch != ')' && ch != '.' && !('0' <= ch <= '9')
    ensures ch !in head + x + ")"
  {
  }

  /** The direct rules turn `asin(x)` into `asin(pi/180*x)`. */
  lemma DirectRulesInsideAsin(x: string)
    requires Numeral(x)
    ensures DirectRulesAsWritten("asin(" + x + ")") == "asin(pi/180*" + x + ")"
  {
    var e1 := "asin(pi/180*" + x + ")";
    SinRuleInsideAsin(x);
    ScaledLacks("asin(pi/180*", x);
    GuardSkips(e1, "cos(", "cos(pi/180*", 'c');
    GuardSkips(e1, "tan(", "tan(pi/180*", 't');
  }

  /** The inverse rules then scale the result of the `asin(` call. */
  lemma InverseRulesAfterScaling(x: string)
    requires Numeral(x)
    ensures InverseRulesAsWritten("asin(pi/180*" + x + ")") == "(180/pi)*asin(pi/180*" + x + ")"
  {
    var e4 := "(180/pi)*asin(pi/180*" + x + ")";
    AsinRuleAfterSinRule(x);
    ScaledLacks("(180/pi)*asin(pi/180*", x);
    GuardSkips(e4, "acos(", "(180/pi)*acos(", 'c');
    GuardSkips(e4, "atan(", "(180/pi)*atan(", 't');
  }

  /** As written, an inverse call such as `asin(1)` gets both conversions:
      its argument is scaled from degrees to radians (by the `sin(` rule,
      which also matches inside `asin(`) as well as its result from radians
      to degrees. */
  lemma {:induction false} DegreeChainScalesInverseArgument(x: string)
    requires Numeral(x)
    ensures DegreeChainAsWritten("asin(" + x + ")") == "(180/pi)*asin(pi/180*" + x + ")"
  {
    DirectRulesInsideAsin(x);
    InverseRulesAfterScaling(x);
  }

  /** The `sin(` rule scales the argument of a leading `sin(`. */
  lemma SinRuleOnSin(x: string)
    requires Numeral(x)
    ensures ReplaceIfPresent("sin(" + x + ")", "sin(", "sin(pi/180*") == "sin(pi/180*" + x + ")"
  {
    var t := x + ")";
    assert 's' !in t;
    GuardHitsAtStart("sin(", t, "sin(pi/180*", 's');
    assert "sin(" + x + ")" == "sin(" + t;
    assert "sin(pi/180*" + t == "sin(pi/180*" + x + ")";
  }

  /** The direct rules turn `sin(x)` into `sin(pi/180*x)`. */
  lemma DirectRulesOnSin(x: string)
    requires Numeral(x)
    ensures DirectRulesAsWritten("sin(" + x + ")") == "sin(pi/180*" + x + ")"
  {
    var e1 := "sin(pi/180*" + x + ")";
    SinRuleOnSin(x);
    ScaledLacks("sin(pi/180*", x);
    GuardSkips(e1, "cos(", "cos(pi/180*", 'c');
    GuardSkips(e1, "tan(", "tan(pi/180*", 't');
  }

  /** The inverse rules leave a text without `a` alone. */
  lemma InverseRulesSkip(e: string)
    requires 'a' !in e
    ensures InverseRulesAsWritten(e) == e
  {
    GuardSkips(e, "asin(", "(180/pi)*asin(", 'a');
    GuardSkips(e, "acos(", "(180/pi)*acos(", 'a');
    GuardSkips(e, "atan(", "(180/pi)*atan(", 'a');
  }

  /** As written, a direct call is scaled once: `sin(30)` becomes
      `sin(pi/180*30)`. */
  lemma {:induction false} DegreeChainScalesDirectArgument(x: string)
    requires Numeral(x)
    ensures DegreeChainAsWritten("sin(" + x + ")") == "sin(pi/180*" + x + ")"
  {
    DirectRulesOnSin(x);
    ScaledLacks("sin(pi/180*", x);
    InverseRulesSkip("sin(pi/180*" + x + ")");
  }

  /** The direct rules turn `cos(x)` into `cos(pi/180*x)`. */
  lemma DirectRulesOnCos(x: string)
    requires Numeral(x)
    ensures DirectRulesAsWritten("cos(" + x + ")") == "cos(pi/180*" + x + ")"
  {
    var e := "cos(" + x + ")";
    var t := x + ")";
    NumeralCallLacks("cos(", x, 'i');
    GuardSkips(e, "sin(", "sin(pi/180*", 'i');
    assert 'c' !in t;
    GuardHitsAtStart("cos(", t, "cos(pi/180*", 'c');
    assert e == "cos(" + t;
    assert "cos(pi/180*" + t == "cos(pi/180*" + x + ")";
    NumeralCallLacks("cos(pi/180*", x, 't');
    GuardSkips("cos(pi/180*" + x + ")", "tan(", "tan(pi/180*", 't');
  }

  /** The direct rules turn `tan(x)` into `tan(pi/180*x)`. */
  lemma DirectRulesOnTan(x: string)
    requires Numeral(x)
    ensures DirectRulesAsWritten("tan(" + x + ")") == "tan(pi/180*" + x + ")"
  {
    var e := "tan(" + x + ")";
    var t := x + ")";
    NumeralCallLacks("tan(", x, 's');
    GuardSkips(e, "sin(", "sin(pi/180*", 's');
    NumeralCallLacks("tan(", x, 'c');
    GuardSkips(e, "cos(", "cos(pi/180*", 'c');
    assert 't' !in t;
    GuardHitsAtStart("tan(", t, "tan(pi/180*", 't');
    assert e == "tan(" + t;
    assert "tan(pi/180*" + t == "tan(pi/180*" + x + ")";
  }

  /** `tan(pi/180*x)` read character by character up to its `(`. */
  lemma TanSplit(x: string)
    ensures "tan(pi/180*" + x + ")" == ['t'] + (['a'] + (['n'] + ("(pi/180*" + x + ")")))
  {
  }

  /** The inverse rules leave a scaled `tan(` call alone: its `a` is not
      followed by `tan(`. */
  lemma InverseRulesOnScaledTan(x: string)
    requires Numeral(x)
    ensures InverseRulesAsWritten("tan(pi/180*" + x + ")") == "tan(pi/180*" + x + ")"
  {
    var e := "tan(pi/180*" + x + ")";
    NumeralCallLacks("tan(pi/180*", x, 's');
    GuardSkips(e, "asin(", "(180/pi)*asin(", 's');
    NumeralCallLacks("tan(pi/180*", x, 'c');
    GuardSkips(e, "acos(", "(180/pi)*acos(", 'c');
    AtanRuleSkipsTan(x);
  }

  /** The `atan(` rule skips the `t`, then the `a` that `n` follows, and the
      rest holds no `a`. */
  lemma AtanRuleSkipsTan(x: string)
    requires Numeral(x)
    ensures var e := "tan(pi/180*" + x + ")";
      ReplaceIfPresent(e, "atan(", "(180/pi)*atan(") == e
  {
    var e := "tan(pi/180*" + x + ")";
    var rest := "(pi/180*" + x + ")";
    var r := "(180/pi)*atan(";
    NumeralCallLacks("(pi/180*", x, 'a');
    TanSplit(x);
    ReplaceSkip('t', ['a'] + (['n'] + rest), "atan(", r);
    ReplaceSkipSecond('a', 'n', rest, "atan(", r);
    ReplaceSkip('n', rest, "atan(", r);
    ReplaceMissingChar(rest, "atan(", r, 'a');
    ReplaceIfPresentIsReplace(e, "atan(", r);
  }

  /** As written, `cos(30)` becomes `cos(pi/180*30)`. */
  lemma {:induction false} DegreeChainScalesCos(x: string)
    requires Numeral(x)
    ensures DegreeChainAsWritten("cos(" + x + ")") == "cos(pi/180*" + x + ")"
  {
    DirectRulesOnCos(x);
    NumeralCallLacks("cos(pi/180*", x, 'a');
    InverseRulesSkip("cos(pi/180*" + x + ")");
  }

  /** As written, `tan(30)` becomes `tan(pi/180*30)`. */
  lemma {:induction false} DegreeChainScalesTan(x: string)
    requires Numeral(x)
    ensures DegreeChainAsWritten("tan(" + x + ")") == "tan(pi/180*" + x + ")"
  {
    DirectRulesOnTan(x);
    InverseRulesOnScaledTan(x);
  }

  lemma AcosAtanSplit()
    ensures "acos(" == ['a'] + "cos(" && "acos(pi/180*" == ['a'] + "cos(pi/180*"
    ensures "atan(" == ['a'] + "tan(" && "atan(pi/180*" == ['a'] + "tan(pi/180*"
  {
  }

  lemma AcosAtanScaledSplit()
    ensures "acos(pi/180*" == "acos(" + "pi/180*"
    ensures "(180/pi)*acos(pi/180*" == "(180/pi)*acos(" + "pi/180*"
    ensures "atan(pi/180*" == "atan(" + "pi/180*"
    ensures "(180/pi)*atan(pi/180*" == "(180/pi)*atan(" + "pi/180*"
  {
  }

  /** The `cos(` rule fires inside `acos(`. */
  lemma DirectRulesInsideAcos(x: string)
    requires Numeral(x)
    ensures DirectRulesAsWritten("acos(" + x + ")") == "acos(pi/180*" + x + ")"
  {
    NumeralCallLacks("acos(", x, 'i');
    GuardSkips("acos(" + x + ")", "sin(", "sin(pi/180*", 'i');
    CosRuleInsideAcos(x);
    NumeralCallLacks("acos(pi/180*", x, 't');
    GuardSkips("acos(pi/180*" + x + ")", "tan(", "tan(pi/180*", 't');
  }

  lemma CosRuleInsideAcos(x: string)
    requires Numeral(x)
    ensures ReplaceIfPresent("acos(" + x + ")", "cos(", "cos(pi/180*") == "acos(pi/180*" + x + ")"
  {
    assert 'c' !in x;
    GuardHitsCallAfterFirst('a', "cos(", x, "cos(pi/180*", 'c');
    AcosAtanSplit();
  }

  /** The `tan(` rule fires inside `atan(`. */
  lemma DirectRulesInsideAtan(x: string)
    requires Numeral(x)
    ensures DirectRulesAsWritten("atan(" + x + ")") == "atan(pi/180*" + x + ")"
  {
    var e := "atan(" + x + ")";
    NumeralCallLacks("atan(", x, 's');
    GuardSkips(e, "sin(", "sin(pi/180*", 's');
    NumeralCallLacks("atan(", x, 'c');
    GuardSkips(e, "cos(", "cos(pi/180*", 'c');
    assert 't' !in x;
    GuardHitsCallAfterFirst('a', "tan(", x, "tan(pi/180*", 't');
    AcosAtanSplit();
  }

  /** The `acos(` rule fires on the already scaled call. */
  lemma AcosRuleAfterCosRule(x: string)
    requires Numeral(x)
    ensures ReplaceIfPresent("acos(pi/180*" + x + ")", "acos(", "(180/pi)*acos(")
            == "(180/pi)*acos(pi/180*" + x + ")"
  {
    var t := "pi/180*" + x + ")";
    NumeralCallLacks("pi/180*", x, 'c');
    GuardHitsAtStart("acos(", t, "(180/pi)*acos(", 'c');
    AcosAtanScaledSplit();
    Regroup3("acos(", "pi/180*", x);
    Regroup3("(180/pi)*acos(", "pi/180*", x);
  }

  /** The `atan(` rule fires on the already scaled call. */
  lemma AtanRuleAfterTanRule(x: string)
    requires Numeral(x)
    ensures ReplaceIfPresent("atan(pi/180*" + x + ")", "atan(", "(180/pi)*atan(")
            == "(180/pi)*atan(pi/180*" + x + ")"
  {
    var t := "pi/180*" + x + ")";
    NumeralCallLacks("pi/180*", x, 't');
    GuardHitsAtStart("atan(", t, "(180/pi)*atan(", 't');
    AcosAtanScaledSplit();
    Regroup3("atan(", "pi/180*", x);
    Regroup3("(180/pi)*atan(", "pi/180*", x);
  }

  /** The inverse rules then scale the result of the `acos(` call. */
  lemma InverseRulesAfterScalingAcos(x: string)
    requires Numeral(x)
    ensures InverseRulesAsWritten("acos(pi/180*" + x + ")") == "(180/pi)*acos(pi/180*" + x + ")"
  {
    AsinRuleSkipsAcos(x);
    AcosRuleAfterCosRule(x);
    AtanRuleSkipsAcos(x);
  }

  /** A scaled `acos(` call holds no `n`, so the `asin(` rule skips it. */
  lemma AsinRuleSkipsAcos(x: string)
    requires Numeral(x)
    ensures ReplaceIfPresent("acos(pi/180*" + x + ")", "asin(", "(180/pi)*asin(") == "acos(pi/180*" + x + ")"
  {
    NumeralCallLacks("acos(pi/180*", x, 'n');
    GuardSkips("acos(pi/180*" + x + ")", "asin(", "(180/pi)*asin(", 'n');
  }

  /** Nor any `t`, so the `atan(` rule skips it once its result is scaled. */
  lemma AtanRuleSkipsAcos(x: string)
    requires Numeral(x)
    ensures var e := "(180/pi)*acos(pi/180*" + x + ")";
      ReplaceIfPresent(e, "atan(", "(180/pi)*atan(") == e
  {
    NumeralCallLacks("(180/pi)*acos(pi/180*", x, 't');
    GuardSkips("(180/pi)*acos(pi/180*" + x + ")", "atan(", "(180/pi)*atan(", 't');
  }

  /** The inverse rules then scale the result of the `atan(` call. */
  lemma InverseRulesAfterScalingAtan(x: string)
    requires Numeral(x)
    ensures InverseRulesAsWritten("atan(pi/180*" + x + ")") == "(180/pi)*atan(pi/180*" + x + ")"
  {
    var e := "atan(pi/180*" + x + ")";
    NumeralCallLacks("atan(pi/180*", x, 's');
    GuardSkips(e, "asin(", "(180/pi)*asin(", 's');
    NumeralCallLacks("atan(pi/180*", x, 'c');
    GuardSkips(e, "acos(", "(180/pi)*acos(", 'c');
    AtanRuleAfterTanRule(x);
  }

  /** As written, `acos(x)` gets both conversions, as `asin(x)` does. */
  lemma {:induction false} DegreeChainScalesAcos(x: string)
    requires Numeral(x)
    ensures DegreeChainAsWritten("acos(" + x + ")") == "(180/pi)*acos(pi/180*" + x + ")"
  {
    DirectRulesInsideAcos(x);
    InverseRulesAfterScalingAcos(x);
  }

  /** As written, `atan(x)` gets both conversions, as `asin(x)` does. */
  lemma {:induction false} DegreeChainScalesAtan(x: string)
    requires Numeral(x)
    ensures DegreeChainAsWritten("atan(" + x + ")") == "(180/pi)*atan(pi/180*" + x + ")"
  {
    DirectRulesInsideAtan(x);
    InverseRulesAfterScalingAtan(x);
  }

  /** `sin(`, `cos(` or `tan(` starts `e`. */
  predicate DirectCallAt(e: string) {
    |e| >= 4 && e[..4] in {"sin(", "cos(", "tan("}
  }

  /** `asin(`, `acos(` or `atan(` starts `e`. */
  predicate InverseCallAt(e: string) {
    |e| >= 5 && e[..5] in {"asin(", "acos(", "atan("}
  }

  /** The degree-mode rewrite as intended: one left-to-right scan in which
      an inverse call `asin(`/`acos(`/`atan(` gets only its result scaled
      and a direct call `sin(`/`cos(`/`tan(` gets only its argument scaled. */
  function DegreeRewrite(e: string): string
    decreases |e|
  {
    if e == [] then []
    else if InverseCallAt(e) then "(180/pi)*" + e[..5] + DegreeRewrite(e[5..])
    else if DirectCallAt(e) then e[..4] + "pi/180*" + DegreeRewrite(e[4..])
    else [e[0]] + DegreeRewrite(e[1..])
  }

  /** Text without a call (no `(`) is left alone. */
  lemma {:induction false} DegreeRewriteNoCall(e: string)
    requires '(' !in e
    ensures DegreeRewrite(e) == e
    decreases |e|
  {
    if e != [] {
      assert !DirectCallAt(e) by { if |e| >= 4 { assert e[3] == e[..4][3]; } }
      assert !InverseCallAt(e) by { if |e| >= 5 { assert e[4] == e[..5][4]; } }
      DegreeRewriteNoCall(e[1..]);
    }
  }

  /** The chain as written leaves a text with no call alone: every one of
      its six patterns holds a `(`. On such a text it agrees with the
      intended rewrite. */
  lemma DegreeChainNoCall(e: string)
    requires '(' !in e
    ensures DegreeChainAsWritten(e) == e
    ensures DegreeChainAsWritten(e) == DegreeRewrite(e)
  {
    GuardSkips(e, "sin(", "sin(pi/180*", '(');
    GuardSkips(e, "cos(", "cos(pi/180*", '(');
    GuardSkips(e, "tan(", "tan(pi/180*", '(');
    GuardSkips(e, "asin(", "(180/pi)*asin(", '(');
    GuardSkips(e, "acos(", "(180/pi)*acos(", '(');
    GuardSkips(e, "atan(", "(180/pi)*atan(", '(');
    DegreeRewriteNoCall(e);
  }

  /** The intended rewrite scales the argument of a direct call `f(` (one
      of `sin(`, `cos(`, `tan(`) from degrees to radians and leaves a
      plain argument alone. */
  lemma DegreeRewriteDirect(f: string, arg: string)
    requires f in {"sin(", "cos(", "tan("}
    requires '(' !in arg
    ensures DegreeRewrite(f + arg + ")") == f + "pi/180*" + arg + ")"
  {
    var tail := arg + ")";
    DegreeRewriteNoCall(tail);
    var e := f + arg + ")";
    assert e == f + tail;
    assert e[..4] == f && e[4..] == tail;
    assert !InverseCallAt(e) by {
      if |e| >= 5 { assert e[..5][0] == f[0] != 'a'; }
    }
  }

  /** The intended rewrite scales the result of an inverse call `f(` (one of
      `asin(`, `acos(`, `atan(`) from radians to degrees and leaves a plain
      argument alone. */
  lemma DegreeRewriteInverse(f: string, arg: string)
    requires f in {"asin(", "acos(", "atan("}
    requires '(' !in arg
    ensures DegreeRewrite(f + arg + ")") == "(180/pi)*" + f + arg + ")"
  {
    var tail := arg + ")";
    DegreeRewriteNoCall(tail);
    var e := f + arg + ")";
    assert e == f + tail;
    assert e[..5] == f && e[5..] == tail;
  }

  /** A call on a number holds no display operator and ends with `)`. */
  lemma CallPlain(f: string, x: string)
    requires f in {"sin(", "cos(", "tan(", "asin(", "acos(", "atan("} && Numeral(x)
    ensures '×' !in f + x + ")" && '÷' !in f + x + ")"
    ensures var e := f + x + ")"; e[|e| - 1] == ')'
  {
    ScaledLacks(f, x);
  }

  /** The scaled heads of the six calls, split after the function name. */
  lemma ScaledHeads()
    ensures "sin(pi/180*" == "sin(" + "pi/180*" && "cos(pi/180*" == "cos(" + "pi/180*"
    ensures "tan(pi/180*" == "tan(" + "pi/180*"
    ensures "(180/pi)*asin(pi/180*" == "(180/pi)*" + "asin(" + "pi/180*"
    ensures "(180/pi)*acos(pi/180*" == "(180/pi)*" + "acos(" + "pi/180*"
    ensures "(180/pi)*atan(pi/180*" == "(180/pi)*" + "atan(" + "pi/180*"
  {
  }

  /** As written, every direct call `f(x)` on a number has its argument
      scaled once. */
  lemma DegreeChainDirectCall(f: string, x: string)
    requires f in {"sin(", "cos(", "tan("} && Numeral(x)
    ensures DegreeChainAsWritten(f + x + ")") == f + "pi/180*" + x + ")"
  {
    ScaledHeads();
    if f == "sin(" {
      DegreeChainScalesDirectArgument(x);
    } else if f == "cos(" {
      DegreeChainScalesCos(x);
    } else {
      DegreeChainScalesTan(x);
    }
  }

  /** As written, every inverse call `f(x)` on a number gets both
      conversions: its argument scaled by the direct rule that matches
      inside it, and its result scaled by its own rule. */
  lemma DegreeChainInverseCall(f: string, x: string)
    requires f in {"asin(", "acos(", "atan("} && Numeral(x)
    ensures DegreeChainAsWritten(f + x + ")") == "(180/pi)*" + f + "pi/180*" + x + ")"
  {
    ScaledHeads();
    if f == "asin(" {
      DegreeChainScalesInverseArgument(x);
    } else if f == "acos(" {
      DegreeChainScalesAcos(x);
    } else {
      DegreeChainScalesAtan(x);
    }
  }

  /** On every direct call on a number the intended rewrite and the chain
      as written agree. */
  lemma DegreeRewriteAgreesOnDirect(f: string, x: string)
    requires f in {"sin(", "cos(", "tan("} && Numeral(x)
    ensures DegreeRewrite(f + x + ")") == DegreeChainAsWritten(f + x + ")")
  {
    assert '(' !in x;
    DegreeRewriteDirect(f, x);
    DegreeChainDirectCall(f, x);
  }

  /** On every inverse call on a number they differ: the intended rewrite
      leaves the argument unscaled. */
  lemma DegreeRewriteDiffersOnInverse(f: string, x: string)
    requires f in {"asin(", "acos(", "atan("} && Numeral(x)
    ensures DegreeRewrite(f + x + ")") == "(180/pi)*" + f + x + ")"
    ensures DegreeRewrite(f + x + ")") != DegreeChainAsWritten(f + x + ")")
  {
    assert '(' !in x;
    DegreeRewriteInverse(f, x);
    DegreeChainInverseCall(f, x);
    assert |"(180/pi)*" + f + x + ")"| < |"(180/pi)*" + f + "pi/180*" + x + ")"|;
  }
}
