/**
 * The first calculator, `CalculatorApp` in Kalculate.py: the expression
 * line edit and its editing buttons, the RAD/DEG setting, the evaluation
 * request with its text rewriting, the history list, and the two LaTeX
 * converters of the input display.
 */
module Kalculate {
  import opened PyStr
  import opened TextEdit
  import opened Engine
  import opened Rewrite

  /* ---------------------------------------------------------------------
   * LaTeX conversion: an ordered table of `str.replace` rules.
   * --------------------------------------------------------------------- */

  /** One `(pattern, replacement)` entry of a replacement table. */
  datatype Rule = Rule(pattern: string, replacement: string)

  /** The text after applying every rule of the table in order, each one to
      the result of the previous ones. */
  function ApplyRules(rules: seq<Rule>, text: string): string
    decreases |rules|
  {
    if rules == [] then text
    else ApplyRules(rules[1..], Replace(text, rules[0].pattern, rules[0].replacement))
  }

  /** The loop `for pattern, replacement in replacements: latex_text =
      latex_text.replace(pattern, replacement)`. */
  method ApplyReplacements(rules: seq<Rule>, text: string) returns (latex: string)
    ensures latex == ApplyRules(rules, text)
  {
    latex := text;
    for i := 0 to |rules|
      invariant ApplyRules(rules[i..], latex) == ApplyRules(rules, text)
    {
      assert rules[i..][1..] == rules[i + 1..];
      latex := Replace(latex, rules[i].pattern, rules[i].replacement);
    }
    assert rules[|rules|..] == [];
  }

  /** The table of `convert_to_latex`. */
  const LatexRules: seq<Rule> := [
    Rule("pi", "\\pi"), Rule("*", "\\times"), Rule("/", "\\div"), Rule("sqrt(", "\\sqrt{"),
    Rule(")", "}"), Rule("**", "^"), Rule("1/(", "\\frac{1}{"), Rule("sin(", "\\sin("),
    Rule("cos(", "\\cos("), Rule("tan(", "\\tan("), Rule("log(", "\\log(")]

  /** The table of `convert_to_latex_improved`. */
  const ImprovedLatexRules: seq<Rule> := [
    Rule("pi", "\\pi"), Rule("*", "\\times"), Rule("/", "\\div"), Rule("**", "^"),
    Rule("sqrt(", "\\sqrt{"), Rule("sin(", "\\sin{"), Rule("cos(", "\\cos{"), Rule("tan(", "\\tan{"),
    Rule("asin(", "\\arcsin{"), Rule("acos(", "\\arccos{"), Rule("atan(", "\\arctan{"),
    Rule("log(", "\\log{"), Rule("ln(", "\\ln{"), Rule("1/(", "\\frac{1}{"), Rule(")", "}")]

  /** Splitting a table: the first `k` rules, then the rest. */
  lemma {:induction false} ApplyRulesSplit(rules: seq<Rule>, k: int, text: string)
    requires 0 <= k <= |rules|
    ensures ApplyRules(rules, text) == ApplyRules(rules[k..], ApplyRules(rules[..k], text))
    decreases k
  {
    if k > 0 {
      var t := Replace(text, rules[0].pattern, rules[0].replacement);
      assert rules[1..][k - 1..] == rules[k..];
      assert rules[..k][1..] == rules[1..][..k - 1];
      ApplyRulesSplit(rules[1..], k - 1, t);
    } else {
      assert rules[0..] == rules;
    }
  }

  /** A character that is neither in the text nor in any replacement is not
      in the result. */
  lemma {:induction false} ApplyRulesKeepsAbsent(rules: seq<Rule>, text: string, c: char)
    requires c !in text
    requires forall j :: 0 <= j < |rules| ==> c !in rules[j].replacement
    ensures c !in ApplyRules(rules, text)
    decreases |rules|
  {
    if rules != [] {
      ReplaceKeepsAbsent(text, rules[0].pattern, rules[0].replacement, c);
      ApplyRulesKeepsAbsent(rules[1..], Replace(text, rules[0].pattern, rules[0].replacement), c);
    }
  }

  /** A one-character rule removes that character for good when no rule from
      it on puts the character back. */
  lemma {:induction false} ApplyRulesRemoves(rules: seq<Rule>, text: string, c: char, k: int)
    requires 0 <= k < |rules| && rules[k].pattern == [c]
    requires forall j :: k <= j < |rules| ==> c !in rules[j].replacement
    ensures c !in ApplyRules(rules, text)
    decreases k
  {
    var t := Replace(text, rules[0].pattern, rules[0].replacement);
    if k == 0 {
      ReplaceRemovesChar(text, c, rules[0].replacement);
      ApplyRulesKeepsAbsent(rules[1..], t, c);
    } else {
      ApplyRulesRemoves(rules[1..], t, c, k - 1);
    }
  }

  /** With no empty pattern in the table, the empty text stays empty. */
  lemma {:induction false} ApplyRulesEmpty(rules: seq<Rule>)
    requires forall j :: 0 <= j < |rules| ==> |rules[j].pattern| > 0
    ensures ApplyRules(rules, "") == ""
    decreases |rules|
  {
    if rules != [] { ApplyRulesEmpty(rules[1..]); }
  }

  /** The replacements of `convert_to_latex` from the `*` rule on. */
  const LatexReplacements: set<string> := {"\\times", "\\div", "\\sqrt{", "}", "^", "\\frac{1}{",
    "\\sin(", "\\cos(", "\\tan(", "\\log("}

  /** The replacements of `convert_to_latex_improved` from the `*` rule on. */
  const ImprovedLatexReplacements: set<string> := {"\\times", "\\div", "^", "\\sqrt{", "\\sin{",
    "\\cos{", "\\tan{", "\\arcsin{", "\\arccos{", "\\arctan{", "\\log{", "\\ln{", "\\frac{1}{", "}"}

  /** No pattern of `convert_to_latex` is empty, and every replacement from
      the `*` rule on is one of `LatexReplacements`. */
  lemma LatexTableShape()
    ensures forall j :: 0 <= j < |LatexRules| ==> |LatexRules[j].pattern| > 0
    ensures forall j :: 1 <= j < |LatexRules| ==> LatexRules[j].replacement in LatexReplacements
  {
  }

  /** The same for `convert_to_latex_improved`. */
  lemma ImprovedLatexTableShape()
    ensures forall j :: 0 <= j < |ImprovedLatexRules| ==> |ImprovedLatexRules[j].pattern| > 0
    ensures forall j :: 1 <= j < |ImprovedLatexRules| ==>
      ImprovedLatexRules[j].replacement in ImprovedLatexReplacements
  {
  }

  /** No replacement of `convert_to_latex` puts back a `*`, a `/` or a
      `)`. */
  lemma LatexReplacementsClean()
    ensures forall r :: r in LatexReplacements ==> '*' !in r && '/' !in r && ')' !in r
  {
  }

  /** No replacement of `convert_to_latex_improved` puts back a `*`, a `/`
      or a `)`. */
  lemma ImprovedLatexReplacementsClean()
    ensures forall r :: r in ImprovedLatexReplacements ==> '*' !in r && '/' !in r && ')' !in r
  {
  }

  /** `ApplyRulesRemoves` for a table whose replacements after the first
      rule all come from a set of strings lacking `c`. */
  lemma RemovedFromTable(rules: seq<Rule>, text: string, c: char, k: int, replacements: set<string>)
    requires 1 <= k < |rules| && rules[k].pattern == [c]
    requires forall j :: 1 <= j < |rules| ==> rules[j].replacement in replacements
    requires forall r :: r in replacements ==> c !in r
    ensures c !in ApplyRules(rules, text)
  {
    ApplyRulesRemoves(rules, text, c, k);
  }

  /** `convert_to_latex` leaves no `*`, `/` or `)`, and keeps the empty text
      empty. */
  lemma LatexRemovesOperators(text: string)
    ensures var latex := ApplyRules(LatexRules, text);
      '*' !in latex && '/' !in latex && ')' !in latex
    ensures ApplyRules(LatexRules, "") == ""
  {
    LatexTableShape();
    LatexReplacementsClean();
    RemovedFromTable(LatexRules, text, '*', 1, LatexReplacements);
    RemovedFromTable(LatexRules, text, '/', 2, LatexReplacements);
    RemovedFromTable(LatexRules, text, ')', 4, LatexReplacements);
    ApplyRulesEmpty(LatexRules);
  }

  /** `convert_to_latex_improved` leaves no `*`, `/` or `)` (its last rule
      turns every `)` into `}`), and keeps the empty text empty. */
  lemma ImprovedLatexRemovesOperators(text: string)
    ensures var latex := ApplyRules(ImprovedLatexRules, text);
      '*' !in latex && '/' !in latex && ')' !in latex
    ensures ApplyRules(ImprovedLatexRules, "") == ""
  {
    ImprovedLatexTableShape();
    ImprovedLatexReplacementsClean();
    RemovedFromTable(ImprovedLatexRules, text, '*', 1, ImprovedLatexReplacements);
    RemovedFromTable(ImprovedLatexRules, text, '/', 2, ImprovedLatexReplacements);
    RemovedFromTable(ImprovedLatexRules, text, ')', 14, ImprovedLatexReplacements);
    ApplyRulesEmpty(ImprovedLatexRules);
  }

  /** `convert_to_latex`: the table applied in order. */
  method ConvertToLatex(text: string) returns (latex: string)
    ensures latex == ApplyRules(LatexRules, text)
    ensures '*' !in latex && '/' !in latex && ')' !in latex
    ensures text == "" ==> latex == ""
  {
    latex := ApplyReplacements(LatexRules, text);
    LatexRemovesOperators(text);
  }

  /** `convert_to_latex_improved`: the table applied in order. */
  method ConvertToLatexImproved(text: string) returns (latex: string)
    ensures latex == ApplyRules(ImprovedLatexRules, text)
    ensures '*' !in latex && '/' !in latex && ')' !in latex
    ensures text == "" ==> latex == ""
  {
    latex := ApplyReplacements(ImprovedLatexRules, text);
    ImprovedLatexRemovesOperators(text);
  }

  /** A rule whose pattern holds a character that an earlier one-character
      rule removed, and that no rule in between put back, never fires. */
  lemma DeadRule(rules: seq<Rule>, text: string, m: int, k: int, c: char)
    requires 0 <= m < k < |rules| && rules[m].pattern == [c] && c in rules[k].pattern
    requires forall j :: m <= j < k ==> c !in rules[j].replacement
    ensures var before := ApplyRules(rules[..k], text);
      Replace(before, rules[k].pattern, rules[k].replacement) == before
  {
    ApplyRulesRemoves(rules[..k], text, c, m);
    ReplaceMissingChar(ApplyRules(rules[..k], text), rules[k].pattern, rules[k].replacement, c);
  }

  /** In both tables the `**` rule comes after the `*` rule and the `1/(`
      rule after the `/` rule, so neither ever fires: a power is rendered as
      two `\times` and a reciprocal as `\div`. */
  lemma DeadPowerAndFractionRules(text: string)
    ensures var before := ApplyRules(LatexRules[..5], text);
      Replace(before, "**", "^") == before
    ensures var before := ApplyRules(LatexRules[..6], text);
      Replace(before, "1/(", "\\frac{1}{") == before
    ensures var before := ApplyRules(ImprovedLatexRules[..3], text);
      Replace(before, "**", "^") == before
    ensures var before := ApplyRules(ImprovedLatexRules[..13], text);
      Replace(before, "1/(", "\\frac{1}{") == before
  {
    LatexTableShape();
    ImprovedLatexTableShape();
    LatexReplacementsClean();
    ImprovedLatexReplacementsClean();
    DeadRule(LatexRules, text, 1, 5, '*');
    DeadRule(LatexRules, text, 2, 6, '/');
    DeadRule(ImprovedLatexRules, text, 1, 3, '*');
    DeadRule(ImprovedLatexRules, text, 2, 13, '/');
  }

  /** Of the improved table's replacements only `\frac{1}{` holds an `f`. */
  lemma OnlyFractionHasF()
    ensures forall j :: 0 <= j < |ImprovedLatexRules| && j != 13 ==> 'f' !in ImprovedLatexRules[j].replacement
  {
  }

  /** Consequently `\frac` never appears: no other replacement holds an `f`,
      so an input without `f` gives an output without `f`. */
  lemma {:induction false} NoFraction(text: string)
    requires 'f' !in text
    ensures 'f' !in ApplyRules(ImprovedLatexRules, text)
  {
    var rules := ImprovedLatexRules;
    OnlyFractionHasF();
    ApplyRulesKeepsAbsent(rules[..13], text, 'f');
    var before := ApplyRules(rules[..13], text);
    ImprovedLatexTableShape();
    ImprovedLatexReplacementsClean();
    DeadRule(rules, text, 2, 13, '/');
    assert rules[13..][1..] == rules[14..];
    ApplyRulesKeepsAbsent(rules[14..], before, 'f');
    ApplyRulesSplit(rules, 13, text);
  }

  /* ---------------------------------------------------------------------
   * Buffer operations, as functions of the line edit's state.
   * --------------------------------------------------------------------- */

  /** `add_to_expression_with_cursor` as written: with a selection, the call
      `code + selection + ")"` is inserted at the cursor and the selected
      text is left where it is; without one, `code + ")"` is inserted and the
      cursor stops before the `)`. */
  function AddWithCursorAsWritten(b: Buffer, code: string): (r: Buffer)
    requires b.Valid()
    ensures r.Valid() && r.selection == NoSelection
    ensures r.text == b.text[..b.cursor] + code + b.SelectedText() + ")" + b.text[b.cursor..]
    ensures b.selection.Selected? ==> r.cursor == b.cursor + |code| + |b.SelectedText()| + 1
    ensures b.selection.NoSelection? ==> r.cursor == b.cursor + |code|
  {
    if b.selection.Selected? then Insert(b, code + b.SelectedText() + ")")
    else Buffer(b.text[..b.cursor] + code + ")" + b.text[b.cursor..], b.cursor + |code|, NoSelection)
  }

  /** As written, a selected text is not wrapped but duplicated: selecting
      all of `2` and pressing `√` gives `2sqrt(2)`. */
  lemma AddWithCursorDuplicatesSelection()
    ensures AddWithCursorAsWritten(Buffer("2", 1, Selected(0, 1)), "sqrt(").text == "2sqrt(2)"
    ensures AddWithCursor(Buffer("2", 1, Selected(0, 1)), "sqrt(").text == "sqrt(2)"
  {
  }

  /** `add_to_expression_with_cursor` as intended: a selection is replaced by
      the call `code + selection + ")"`, the cursor going after it; without
      one, `code + ")"` is inserted and the cursor stops before the `)`. */
  function AddWithCursor(b: Buffer, code: string): (r: Buffer)
    requires b.Valid()
    ensures r.Valid() && r.selection == NoSelection
  {
    if b.selection.Selected? then ReplaceSelection(b, code + b.SelectedText() + ")")
    else Buffer(b.text[..b.cursor] + code + ")" + b.text[b.cursor..], b.cursor + |code|, NoSelection)
  }

  /** The intended operation wraps the selection in place: the text around
      it is kept, the selection is replaced by `code + selection + ")"`, and
      the cursor follows the `)`. Without a selection the cursor stops right
      before the inserted `)`. */
  lemma AddWithCursorWraps(b: Buffer, code: string)
    requires b.Valid()
    ensures var r := AddWithCursor(b, code);
      && (b.selection.Selected? ==>
            && r.text[..b.selection.start] == b.text[..b.selection.start]
            && r.text[b.selection.start..r.cursor] == code + b.SelectedText() + ")"
            && r.text[r.cursor..] == b.text[b.selection.end..])
      && (b.selection.NoSelection? ==>
            && r.text[..b.cursor] == b.text[..b.cursor]
            && r.text[b.cursor..r.cursor] == code
            && r.text[r.cursor] == ')'
            && r.text[r.cursor + 1..] == b.text[b.cursor..])
  {
    var r := AddWithCursor(b, code);
    if b.selection.Selected? {
      ReplaceSelectionPlacesText(b, code + b.SelectedText() + ")");
    } else {
      assert r.text == b.text[..b.cursor] + code + ([')'] + b.text[b.cursor..]);
      assert r.text[r.cursor + 1..] == b.text[b.cursor..];
    }
  }

  /** `add_function`: a selection is replaced by `template.format(selection)`
      with the cursor after it; otherwise `template.format("")` is inserted
      and the cursor goes one before its end (Qt clamps a negative position
      to 0). */
  function AddFunctionTo(b: Buffer, template: string): (r: Buffer)
    requires b.Valid()
    ensures r.Valid() && r.selection == NoSelection
  {
    if b.selection.Selected? then ReplaceSelection(b, Format(template, b.SelectedText()))
    else
      var f := Format(template, "");
      var t := b.text[..b.cursor] + f + b.text[b.cursor..];
      Buffer(t, QtCursor(b.cursor + |f| - 1, |t|), NoSelection)
  }

  /** For a call template `f({})` without a selection, `f()` is inserted and
      the cursor lands between the parentheses. */
  lemma AddFunctionCall(b: Buffer, f: string)
    requires b.Valid() && b.selection.NoSelection? && '{' !in f
    ensures var r := AddFunctionTo(b, f + "({})");
      && r.text == b.text[..b.cursor] + f + "()" + b.text[b.cursor..]
      && r.cursor == b.cursor + |f| + 1
      && r.text[r.cursor - 1] == '(' && r.text[r.cursor] == ')'
  {
    FormatCall(f, "");
    var r := AddFunctionTo(b, f + "({})");
    assert f + "(" + "" + ")" == f + "()";
    assert r.text == b.text[..b.cursor] + (f + "()") + b.text[b.cursor..];
    assert r.text[b.cursor + |f|] == '(';
  }

  /** `backspace`: at the start nothing happens; otherwise the character
      before the cursor goes and the cursor moves back by one. */
  function BackspaceIn(b: Buffer): (r: Buffer)
    requires b.Valid()
    ensures r.Valid()
    ensures b.cursor == 0 ==> r == b
    ensures b.cursor > 0 ==>
      && |r.text| == |b.text| - 1
      && r.cursor == b.cursor - 1
      && r.text == b.text[..b.cursor - 1] + b.text[b.cursor..]
      && r.selection == NoSelection
  {
    if b.cursor > 0 then Buffer(b.text[..b.cursor - 1] + b.text[b.cursor..], b.cursor - 1, NoSelection)
    else b
  }

  /** Backspace undoes the insertion of one character. */
  lemma BackspaceUndoesInsert(b: Buffer, c: char)
    requires b.Valid()
    ensures BackspaceIn(Insert(b, [c])) == b.(selection := NoSelection)
  {
    var i := Insert(b, [c]);
    assert i.text[..i.cursor - 1] == b.text[..b.cursor];
    assert i.text[i.cursor..] == b.text[b.cursor..];
    assert b.text[..b.cursor] + b.text[b.cursor..] == b.text;
  }

  /** `move_cursor_left`: one step left unless at the start; moving the
      cursor drops the selection. */
  function MoveLeft(b: Buffer): (r: Buffer)
    requires b.Valid()
    ensures r.Valid() && r.text == b.text
    ensures b.cursor == 0 ==> r == b
    ensures b.cursor > 0 ==> r.cursor == b.cursor - 1 && r.selection == NoSelection
  {
    if b.cursor > 0 then Buffer(b.text, b.cursor - 1, NoSelection) else b
  }

  /** `move_cursor_right`: one step right unless at the end. */
  function MoveRight(b: Buffer): (r: Buffer)
    requires b.Valid()
    ensures r.Valid() && r.text == b.text
    ensures b.cursor == |b.text| ==> r == b
    ensures b.cursor < |b.text| ==> r.cursor == b.cursor + 1 && r.selection == NoSelection
  {
    if b.cursor < |b.text| then Buffer(b.text, b.cursor + 1, NoSelection) else b
  }

  /** Left then right comes back to the same place. */
  lemma MoveLeftThenRight(b: Buffer)
    requires b.Valid() && b.cursor > 0 && b.selection == NoSelection
    ensures MoveRight(MoveLeft(b)) == b
  {
  }

  /* ---------------------------------------------------------------------
   * Evaluation request and history replay.
   * --------------------------------------------------------------------- */

  /** The text `calculate` hands to the engine as written: one trailing `=`
      dropped, the degree chain in DEG mode, then `×` and `÷` substituted. */
  function EngineInputAsWritten(mode: AngleMode, expression: string): (input: string)
    ensures '×' !in input && '÷' !in input
  {
    var e := DropTrailingEquals(expression);
    SubstituteOperators(if mode == Deg then DegreeChainAsWritten(e) else e)
  }

  /** The same with the intended degree rewrite. */
  function EngineInput(mode: AngleMode, expression: string): (input: string)
    ensures '×' !in input && '÷' !in input
  {
    var e := DropTrailingEquals(expression);
    SubstituteOperators(if mode == Deg then DegreeRewrite(e) else e)
  }

  /** In RAD mode an expression with no trailing `=` and no `×` or `÷`
      reaches the engine unchanged; a trailing `=` is the only thing
      dropped. */
  lemma EngineInputRad(expression: string)
    requires '×' !in expression && '÷' !in expression
    ensures !EndsWith(expression, "=") ==> EngineInput(Rad, expression) == expression
    ensures EngineInput(Rad, expression + "=") == expression
  {
    SubstituteOperatorsIdentity(expression);
    var t := expression + "=";
    assert t[|t| - 1..] == "=";
    assert t[..|t| - 1] == expression;
  }

  /** In DEG mode a sine of a number is taken in degrees. */
  lemma EngineInputDegSin(x: string)
    requires Numeral(x)
    ensures EngineInput(Deg, "sin(" + x + ")") == "sin(pi/180*" + x + ")"
  {
    assert '(' !in x && '×' !in x && '÷' !in x;
    var s := "sin(" + x + ")";
    var rs := "sin(pi/180*" + x + ")";
    assert s[|s| - 1] == ')';
    assert DegreeRewrite(s) == rs by {
      DegreeRewriteDirect("sin(", x);
      assert "sin(" + "pi/180*" == "sin(pi/180*";
    }
    EngineInputOfRewrite(s, rs);
  }

  /** In DEG mode an arcsine of a number is returned in degrees. */
  lemma EngineInputDegAsin(x: string)
    requires Numeral(x)
    ensures EngineInput(Deg, "asin(" + x + ")") == "(180/pi)*asin(" + x + ")"
  {
    assert '(' !in x && '×' !in x && '÷' !in x;
    var a := "asin(" + x + ")";
    var ra := "(180/pi)*asin(" + x + ")";
    assert a[|a| - 1] == ')';
    assert DegreeRewrite(a) == ra by {
      DegreeRewriteInverse("asin(", x);
      Rewrite.ScaledSplit();
    }
    EngineInputOfRewrite(a, ra);
  }

  /** As written, the engine receives a sine of a number scaled once, as
      with the intended rewrite. */
  lemma EngineInputAsWrittenDegSin(x: string)
    requires Numeral(x)
    ensures EngineInputAsWritten(Deg, "sin(" + x + ")") == "sin(pi/180*" + x + ")"
  {
    DegreeChainScalesDirectArgument(x);
    ScaledHeadsPlain();
    ScaledLacks("sin(pi/180*", x);
    EndsWithClose("sin(", x);
    EngineInputOfChain("sin(" + x + ")", "sin(pi/180*" + x + ")");
  }

  /** As written, the engine receives an arcsine of a number with both
      conversions: `asin(1)` in DEG mode reaches it as
      `(180/pi)*asin(pi/180*1)`. */
  lemma EngineInputAsWrittenDegAsin(x: string)
    requires Numeral(x)
    ensures EngineInputAsWritten(Deg, "asin(" + x + ")") == "(180/pi)*asin(pi/180*" + x + ")"
  {
    DegreeChainScalesInverseArgument(x);
    ScaledHeadsPlain();
    ScaledLacks("(180/pi)*asin(pi/180*", x);
    EndsWithClose("asin(", x);
    EngineInputOfChain("asin(" + x + ")", "(180/pi)*asin(pi/180*" + x + ")");
  }

  /** The scaled heads hold no display operator. */
  lemma ScaledHeadsPlain()
    ensures '×' !in "sin(pi/180*" && '÷' !in "sin(pi/180*"
    ensures '×' !in "(180/pi)*asin(pi/180*" && '÷' !in "(180/pi)*asin(pi/180*"
  {
  }

  /** A call text ends with its `)`. */
  lemma EndsWithClose(head: string, x: string)
    ensures var e := head + x + ")"; |e| > 0 && e[|e| - 1] == ')'
  {
  }

  /** An expression ending in `)` whose degree chain has no `×` or `÷`
      reaches the engine as that chain's output. */
  lemma EngineInputOfChain(e: string, r: string)
    requires |e| > 0 && e[|e| - 1] == ')' && DegreeChainAsWritten(e) == r
    requires '×' !in r && '÷' !in r
    ensures EngineInputAsWritten(Deg, e) == r
  {
    assert !EndsWith(e, "=");
    SubstituteOperatorsIdentity(r);
  }

  /** An expression ending in `)` whose degree rewrite has no `×` or `÷`
      reaches the engine as that rewrite. */
  lemma EngineInputOfRewrite(e: string, r: string)
    requires |e| > 0 && e[|e| - 1] == ')' && DegreeRewrite(e) == r
    requires '×' !in r && '÷' !in r
    ensures EngineInput(Deg, e) == r
  {
    assert !EndsWith(e, "=");
    SubstituteOperatorsIdentity(r);
  }

  /** `on_history_item_clicked`: the text before the first `=`, stripped,
      or nothing for an entry without `=`. */
  function ReplayText(item: string): (r: Option<string>)
    ensures r.Some? <==> '=' in item
  {
    ContainsChar(item, '=');
    if Contains(item, "=") then Some(Strip(item[..Find(item, "=")])) else None
  }

  /** Replaying a history entry gives back its expression, stripped, when
      the expression holds no `=`. */
  lemma ReplayHistoryItem(expression: string, result: string)
    requires '=' !in expression
    ensures ReplayText(HistoryItem(expression, result)) == Some(Strip(expression))
  {
    var item := HistoryItem(expression, result);
    var k := |expression| + 1;
    assert item[k..k + 1] == "=";
    forall j | 0 <= j < k ensures !OccursAt(item, "=", j) {
      assert item[j..j + 1][0] == item[j];
      if j < |expression| { assert item[j] == expression[j]; }
    }
    FindIsFirst(item, "=", k);
    assert item[..k] == expression + [' '];
    StripAppendSpace(expression, ' ');
  }

  /* ---------------------------------------------------------------------
   * Button dispatch.
   * --------------------------------------------------------------------- */

  /** What a button press does. */
  datatype Action =
    | Evaluate
    | InsertCode(code: string)
    | InsertCall(code: string)
    | ToggleAngle
    | DeleteBack
    | Clear
    | Left
    | Right

  /** The editing buttons. */
  const SpecialButtons: map<string, Action> :=
    map["⌫" := DeleteBack, "CLR" := Clear, "←" := Left, "→" := Right]

  /** Labels whose LaTeX entry has one part (a symbol). */
  const OnePart: set<string> := {"π", "÷", "×", "e"}

  /** Labels whose LaTeX entry has two parts (an opening and a closing). */
  const TwoPart: set<string> := {"√", "^", "1/", "sin", "cos", "tan", "log"}

  /** `code_replacements` as written. */
  const CodesAsWritten: map<string, string> :=
    map["π" := "pi", "÷" := "/", "×" := "*", "√" := "sqrt(", "^" := "**", "1/" := "1/("]

  /** `code_replacements` with an opening parenthesis for every two-part
      label, as the closing `)` and the cursor placement expect. */
  const Codes: map<string, string> :=
    map["π" := "pi", "÷" := "/", "×" := "*", "√" := "sqrt(", "^" := "**(", "1/" := "1/(",
        "sin" := "sin(", "cos" := "cos(", "tan" := "tan(", "log" := "log("]

  /** The intended table differs from the written one only on `^`, which it
      extends, and on the four functions, which it adds. */
  lemma CodesExtendWritten()
    ensures CodesAsWritten.Keys <= Codes.Keys
    ensures forall k :: k in CodesAsWritten && k != "^" ==> Codes[k] == CodesAsWritten[k]
    ensures Codes["^"] == CodesAsWritten["^"] + "("
    ensures Codes.Keys - CodesAsWritten.Keys == {"sin", "cos", "tan", "log"}
  {
  }

  /** With the intended table the code of every two-part label ends with
      `(`. */
  lemma CallCodesOpen()
    ensures forall k :: k in TwoPart ==> k in Codes && EndsWith(Codes[k], "(")
  {
  }

  /** `code_replacements.get(text, text)`. */
  function CodeFor(codes: map<string, string>, button: string): string {
    if button in codes then codes[button] else button
  }

  /** `on_button_clicked` with a given code table; `display` is the line
      edit's text. */
  function DispatchWith(codes: map<string, string>, button: string, display: string): Action {
    if button == "=" then (if EndsWith(Strip(display), "=") then Evaluate else InsertCode("="))
    else if button == "DEG" || button == "RAD" then ToggleAngle
    else if button in SpecialButtons then SpecialButtons[button]
    else if button in OnePart then InsertCode(CodeFor(codes, button))
    else if button in TwoPart then InsertCall(CodeFor(codes, button))
    else InsertCode(button)
  }

  function DispatchAsWritten(button: string, display: string): Action {
    DispatchWith(CodesAsWritten, button, display)
  }

  function Dispatch(button: string, display: string): Action {
    DispatchWith(Codes, button, display)
  }

  /** As written, `sin`, `cos`, `tan`, `log` and `^` insert their bare code
      followed by `)`: on an empty line `sin` gives `sin)`. */
  lemma TwoPartWithoutParenthesis(line: Buffer)
    requires line.Valid() && line.text == ""
    ensures DispatchAsWritten("sin", line.text) == InsertCall("sin")
    ensures AddWithCursorAsWritten(line, "sin").text == "sin)"
    ensures DispatchAsWritten("^", line.text) == InsertCall("**")
  {
    WrittenTwoPartCodes();
    DispatchTwoPart(CodesAsWritten, "sin", line.text);
    DispatchTwoPart(CodesAsWritten, "^", line.text);
    CallOnEmptyLine(line, "sin");
  }

  /** The written table has no entry for `sin` and a bare `**` for `^`. */
  lemma WrittenTwoPartCodes()
    ensures "sin" in TwoPart && "^" in TwoPart
    ensures CodeFor(CodesAsWritten, "sin") == "sin" && CodeFor(CodesAsWritten, "^") == "**"
  {
  }

  /** On an empty line without a selection, a call code is followed by `)`. */
  lemma CallOnEmptyLine(line: Buffer, code: string)
    requires line.Valid() && line.text == ""
    ensures AddWithCursorAsWritten(line, code).text == code + ")"
  {
    assert line.selection.NoSelection? && line.cursor == 0;
    assert line.text[..0] + code + ")" + line.text[0..] == code + ")";
  }

  /** The label groups are disjoint, so a two-part label always reaches
      its own branch. */
  lemma DispatchTwoPart(codes: map<string, string>, button: string, display: string)
    requires button in TwoPart
    ensures DispatchWith(codes, button, display) == InsertCall(CodeFor(codes, button))
  {
    assert button != "=" && button != "DEG" && button != "RAD";
    assert button !in SpecialButtons && button !in OnePart;
  }

  /** With the intended table every two-part label opens a call: its code
      ends with `(`, so on an empty line it inserts `code)` and leaves the
      cursor between the parentheses. */
  lemma TwoPartOpensCall(button: string, line: Buffer)
    requires button in TwoPart
    requires line.Valid() && line.text == ""
    ensures Dispatch(button, line.text).InsertCall?
    ensures var code := Dispatch(button, line.text).code;
      && EndsWith(code, "(")
      && var r := AddWithCursor(line, code);
         r.text == code + ")" && r.text[r.cursor - 1] == '(' && r.text[r.cursor] == ')'
  {
    CallCodesOpen();
    DispatchTwoPart(Codes, button, line.text);
    OpenCallOnEmptyLine(line, Codes[button]);
  }

  /** On an empty line, a code ending with `(` is closed by `)` and the
      cursor stops between the two. */
  lemma OpenCallOnEmptyLine(line: Buffer, code: string)
    requires line.Valid() && line.text == "" && EndsWith(code, "(")
    ensures var r := AddWithCursor(line, code);
      r.text == code + ")" && r.text[r.cursor - 1] == '(' && r.text[r.cursor] == ')'
  {
    assert line.selection.NoSelection? && line.cursor == 0;
    var r := AddWithCursor(line, code);
    assert r.text == code + ")";
    assert code[|code| - 1..] == "(";
    assert r.text[r.cursor - 1] == code[|code| - 1];
  }

  /** The `=` key evaluates exactly when the stripped line already ends with
      `=`, and otherwise types `=`. */
  lemma EqualsKey(display: string)
    ensures Dispatch("=", display) == Evaluate <==> EndsWith(Strip(display), "=")
    ensures Dispatch("=", display) != Evaluate ==> Dispatch("=", display) == InsertCode("=")
  {
  }

  /** So pressing `=` with the cursor at the end of a line that does not end
      with `=` types it, and pressing `=` again evaluates. */
  lemma EqualsTwiceEvaluates(b: Buffer)
    requires b.Valid() && b.cursor == |b.text| && !EndsWith(Strip(b.text), "=")
    ensures Dispatch("=", b.text) == InsertCode("=")
    ensures Dispatch("=", TextEdit.Insert(b, "=").text) == Evaluate
  {
    var t := TextEdit.Insert(b, "=").text;
    assert t == b.text + ['='];
    StripKeepsLast(b.text, '=');
  }

  /* ---------------------------------------------------------------------
   * The controller state.
   * --------------------------------------------------------------------- */

  class Calculator {
    /** `current_expression`, which the controller keeps equal to the line
        edit's text. */
    var text: string
    var cursor: nat
    var selection: Selection
    var history: seq<string>
    var angleMode: AngleMode

    function Buf(): Buffer
      reads this
    {
      Buffer(text, cursor, selection)
    }

    predicate Valid()
      reads this
    {
      Buf().Valid()
    }

    constructor()
      ensures Valid()
      ensures Buf() == Buffer("", 0, NoSelection) && history == [] && angleMode == Rad
    {
      text, cursor, selection := "", 0, NoSelection;
      history := [];
      angleMode := Rad;
    }

    /** The user selects `[start, end)` in the line edit, the cursor at one
        end. */
    method Select(start: nat, end: nat, cursorAtEnd: bool)
      requires Valid() && start < end <= |text|
      modifies this
      ensures Valid()
      ensures Buf() == Buffer(old(text), if cursorAtEnd then end else start, Selected(start, end))
      ensures history == old(history) && angleMode == old(angleMode)
    {
      selection := Selected(start, end);
      cursor := if cursorAtEnd then end else start;
    }

    /** `clear_display`. */
    method ClearDisplay()
      modifies this
      ensures Valid() && Buf() == Buffer("", 0, NoSelection)
      ensures history == old(history) && angleMode == old(angleMode)
    {
      SetText("");
    }

    /** `add_to_expression`. */
    method AddToExpression(t: string)
      requires Valid()
      modifies this
      ensures Valid() && Buf() == TextEdit.Insert(old(Buf()), t)
      ensures history == old(history) && angleMode == old(angleMode)
    {
      var c := cursor;
      text := text[..c] + t + text[c..];
      cursor := c + |t|;
      selection := NoSelection;
    }

    /** `add_to_expression_with_cursor`, wrapping the selection. */
    method AddToExpressionWithCursor(code: string)
      requires Valid()
      modifies this
      ensures Valid() && Buf() == AddWithCursor(old(Buf()), code)
      ensures history == old(history) && angleMode == old(angleMode)
    {
      if selection.Selected? {
        var s, e := selection.start, selection.end;
        var call := code + text[s..e] + ")";
        text := text[..s] + call + text[e..];
        cursor := s + |call|;
      } else {
        var c := cursor;
        text := text[..c] + code + ")" + text[c..];
        cursor := c + |code|;
      }
      selection := NoSelection;
    }

    /** `add_function`. */
    method AddFunction(template: string)
      requires Valid()
      modifies this
      ensures Valid() && Buf() == AddFunctionTo(old(Buf()), template)
      ensures history == old(history) && angleMode == old(angleMode)
    {
      if selection.Selected? {
        var s, e := selection.start, selection.end;
        var f := Format(template, text[s..e]);
        text := text[..s] + f + text[e..];
        cursor := s + |f|;
      } else {
        var c := cursor;
        var f := Format(template, "");
        text := text[..c] + f + text[c..];
        cursor := QtCursor(c + |f| - 1, |text|);
      }
      selection := NoSelection;
    }

    /** `backspace`. */
    method Backspace()
      requires Valid()
      modifies this
      ensures Valid() && Buf() == BackspaceIn(old(Buf()))
      ensures history == old(history) && angleMode == old(angleMode)
    {
      var c := cursor;
      if c > 0 {
        text := text[..c - 1] + text[c..];
        cursor := c - 1;
        selection := NoSelection;
      }
    }

    /** `move_cursor_left`. */
    method MoveCursorLeft()
      requires Valid()
      modifies this
      ensures Valid() && Buf() == MoveLeft(old(Buf()))
      ensures history == old(history) && angleMode == old(angleMode)
    {
      if cursor > 0 {
        cursor := cursor - 1;
        selection := NoSelection;
      }
    }

    /** `move_cursor_right`, bounded by the length of `current_expression`. */
    method MoveCursorRight()
      requires Valid()
      modifies this
      ensures Valid() && Buf() == MoveRight(old(Buf()))
      ensures history == old(history) && angleMode == old(angleMode)
    {
      if cursor < |text| {
        cursor := cursor + 1;
        selection := NoSelection;
      }
    }

    /** `toggle_angle_mode`. */
    method ToggleAngleMode()
      modifies this
      ensures angleMode == Toggle(old(angleMode))
      ensures Buf() == old(Buf()) && history == old(history)
    {
      if angleMode == Rad { angleMode := Deg; } else { angleMode := Rad; }
    }

    /** `calculate`: the line is left as it is; the history grows by the
        entry `"<expression> = <result>"` exactly when the expression is not
        empty and the engine parses and renders its rewritten form. */
    method Calculate(eval: Evaluator)
      modifies this
      ensures history == old(history) + HistoryEntries(old(text), eval(EngineInput(old(angleMode), old(text))))
      ensures Buf() == old(Buf()) && angleMode == old(angleMode)
    {
      if text == "" {
        return;
      }
      var expression := text;
      if EndsWith(expression, "=") {
        expression := expression[..|expression| - 1];
      }
      if angleMode == Deg {
        expression := DegreeRewrite(expression);
      }
      expression := Replace(Replace(expression, "×", "*"), "÷", "/");
      var e := eval(expression);
      if e.Some? && e.value.latex.Some? {
        history := history + [HistoryItem(text, e.value.text)];
      }
    }

    /** `on_history_item_clicked`: an entry with `=` puts its expression,
        stripped, on the line; any other entry changes nothing. */
    method OnHistoryItemClicked(item: string)
      requires Valid()
      modifies this
      ensures Valid()
      ensures ReplayText(item).Some? ==>
        Buf() == Buffer(ReplayText(item).value, |ReplayText(item).value|, NoSelection)
      ensures ReplayText(item).None? ==> Buf() == old(Buf())
      ensures history == old(history) && angleMode == old(angleMode)
    {
      var r := ReplayText(item);
      if r.Some? {
        SetText(r.value);
      }
    }

    /** `setText`: the line holds `t`, the cursor at its end. */
    method SetText(t: string)
      modifies this
      ensures Valid() && Buf() == Buffer(t, |t|, NoSelection)
      ensures history == old(history) && angleMode == old(angleMode)
    {
      text, cursor, selection := t, |t|, NoSelection;
    }

    /** `clear_history`. */
    method ClearHistory()
      modifies this
      ensures history == []
      ensures Buf() == old(Buf()) && angleMode == old(angleMode)
    {
      history := [];
    }

    /** `on_button_clicked` for the `=` key. */
    method PressEquals(eval: Evaluator)
      requires Valid()
      modifies this
      ensures Valid()
      ensures EndsWith(Strip(old(text)), "=") ==>
        && Buf() == old(Buf())
        && history == old(history) + HistoryEntries(old(text), eval(EngineInput(old(angleMode), old(text))))
      ensures !EndsWith(Strip(old(text)), "=") ==>
        Buf() == TextEdit.Insert(old(Buf()), "=") && history == old(history)
      ensures angleMode == old(angleMode)
    {
      if EndsWith(Strip(text), "=") {
        Calculate(eval);
      } else {
        AddToExpression("=");
      }
    }
  }
}
