/**
 * The third calculator, `CalculatorApp` in NewKalculate.py: the line edit
 * with its placeholder-based template insertion, the evaluation request and
 * its history, the equation solver's text rewrite, the per-tab 2nd flags
 * with their label tables, and the button dispatch.
 */
module NewKalculate {
  import opened PyStr
  import opened TextEdit
  import opened Engine
  import opened SecondMode
  import NewCalculator

  /* ---------------------------------------------------------------------
   * Template insertion.
   * --------------------------------------------------------------------- */

  /** `add_function`: a selection is replaced by `template.format(selection)`
      with the cursor after it. Otherwise the template is inserted with its
      first `{}` removed and the cursor where the `{}` was; a template
      without `{}` is inserted whole with the cursor after it. */
  function AddFunctionTo(b: Buffer, template: string): (r: Buffer)
    requires b.Valid()
    ensures r.Valid() && r.selection == NoSelection
  {
    if b.selection.Selected? then ReplaceSelection(b, Format(template, b.SelectedText()))
    else
      var p := Find(template, "{}");
      if p != -1 then
        var t := b.text[..b.cursor] + (template[..p] + template[p + 2..]) + b.text[b.cursor..];
        Buffer(t, b.cursor + p, NoSelection)
      else TextEdit.Insert(b, template)
  }

  /** `add_function` without a selection, in terms of the placeholder's
      index. */
  lemma AddFunctionNoSelection(b: Buffer, template: string)
    requires b.Valid() && b.selection.NoSelection?
    ensures var p := Find(template, "{}"); var head, tail := b.text[..b.cursor], b.text[b.cursor..];
      && (p >= 0 ==> AddFunctionTo(b, template)
                      == Buffer(head + (template[..p] + template[p + 2..]) + tail, |head| + |template[..p]|, NoSelection))
      && (p < 0 ==> AddFunctionTo(b, template) == TextEdit.Insert(b, template))
  {
  }

  /** Without a selection the text around the cursor is kept, the template
      minus its first placeholder lands between, and the cursor sits exactly
      where the placeholder was. */
  lemma AddFunctionPlacesTemplate(b: Buffer, template: string)
    requires b.Valid() && b.selection.NoSelection? && Find(template, "{}") >= 0
    ensures var r := AddFunctionTo(b, template); var p := Find(template, "{}");
      && r.cursor == b.cursor + p
      && r.text[..r.cursor] == b.text[..b.cursor] + template[..p]
      && r.text[r.cursor..] == template[p + 2..] + b.text[b.cursor..]
  {
    var p := Find(template, "{}");
    var head, tail := b.text[..b.cursor], b.text[b.cursor..];
    var before, after := template[..p], template[p + 2..];
    assert AddFunctionTo(b, template) == Buffer(head + (before + after) + tail, |head| + |before|, NoSelection) by {
      AddFunctionNoSelection(b, template);
    }
    SpliceAt(head, before, after, tail);
  }

  /** A template without a placeholder is inserted whole, with the cursor
      after it. */
  lemma AddFunctionWithoutPlaceholder(b: Buffer, template: string)
    requires b.Valid() && b.selection.NoSelection? && Find(template, "{}") < 0
    ensures var r := AddFunctionTo(b, template);
      && r.cursor == b.cursor + |template|
      && r.text[..r.cursor] == b.text[..b.cursor] + template
      && r.text[r.cursor..] == b.text[b.cursor..]
  {
    assert AddFunctionTo(b, template) == TextEdit.Insert(b, template) by {
      AddFunctionNoSelection(b, template);
    }
    InsertPlacesText(b, template);
  }

  /** The text before and after a cursor placed between `before` and
      `after`. */
  lemma SpliceAt(head: string, before: string, after: string, tail: string)
    ensures var t := head + (before + after) + tail;
      t[..|head| + |before|] == head + before && t[|head| + |before|..] == after + tail
  {
    var t := head + (before + after) + tail;
    assert t == (head + before) + (after + tail);
  }

  /** Typing an argument right after inserting a template with a placeholder
      gives the text that inserting the template formatted with that argument
      gives, whatever the template. */
  lemma AddFunctionThenType(b: Buffer, template: string, arg: string)
    requires b.Valid() && b.selection.NoSelection? && Find(template, "{}") >= 0
    ensures TextEdit.Insert(AddFunctionTo(b, template), arg).text
         == TextEdit.Insert(b, Format(template, arg)).text
  {
    var p := Find(template, "{}");
    var head, tail := b.text[..b.cursor], b.text[b.cursor..];
    var before, after := template[..p], template[p + 2..];
    assert AddFunctionTo(b, template) == Buffer(head + (before + after) + tail, |head| + |before|, NoSelection) by {
      AddFunctionNoSelection(b, template);
    }
    NewCalculator.InsertAfterOpen(head, before, after, tail, arg);
    assert Format(template, arg) == before + arg + after;
  }

  /** On a selection, inserting a template wraps it: the selected text takes
      the placeholder's place. */
  lemma AddFunctionWrapsSelection(b: Buffer, template: string)
    requires b.Valid() && b.selection.Selected?
    ensures var r := AddFunctionTo(b, template);
      && r.text[..b.selection.start] == b.text[..b.selection.start]
      && r.text[b.selection.start..r.cursor] == Format(template, b.SelectedText())
      && r.text[r.cursor..] == b.text[b.selection.end..]
  {
    ReplaceSelectionPlacesText(b, Format(template, b.SelectedText()));
  }

  /** On the call templates both calculators use (`f({}rest)` with no `(` or
      `{` in `f` and a `)` in `rest`) this calculator's placeholder rule and
      NewCalculator's parenthesis rule put the same text and cursor. */
  lemma AddFunctionAgreesWithNewCalculator(b: Buffer, f: string, rest: string)
    requires b.Valid() && b.selection.NoSelection?
    requires '(' !in f && '{' !in f && ')' in rest
    ensures AddFunctionTo(b, f + "({}" + rest) == NewCalculator.AddFunctionTo(b, f + "({}" + rest)
  {
    var t := f + "({}" + rest;
    var head, tail := b.text[..b.cursor], b.text[b.cursor..];
    var placed := Buffer(head + (f + "(" + rest) + tail, b.cursor + |f| + 1, NoSelection);
    assert AddFunctionTo(b, t) == placed by {
      FindPlaceholder(f, rest);
      assert t[..|f| + 1] == f + "(" && t[|f| + 3..] == rest;
      assert t[..|f| + 1] + t[|f| + 1 + 2..] == f + "(" + rest;
      AddFunctionNoSelection(b, t);
    }
    assert NewCalculator.AddFunctionTo(b, t) == placed by {
      NewCalculator.AddPlaceholderTemplate(b, f, rest);
    }
  }

  /* ---------------------------------------------------------------------
   * The equation solver's text.
   * --------------------------------------------------------------------- */

  /** `s.split(c, 1)` when `c` occurs: the text before the first `c` and the
      text after it; None when `c` does not occur. */
  function SplitFirst(s: string, c: char): (r: Option<(string, string)>)
    ensures r.None? <==> c !in s
    ensures r.Some? ==> r.value.0 + [c] + r.value.1 == s && c !in r.value.0
  {
    if s == [] then None
    else if s[0] == c then Some(([], s[1..]))
    else
      match SplitFirst(s[1..], c)
      case None => None
      case Some((l, r)) =>
        assert [s[0]] + l + [c] + r == [s[0]] + (l + [c] + r);
        Some(([s[0]] + l, r))
  }

  /** The split is the only one at a first occurrence: any `l + [c] + r`
      with no `c` in `l` splits back into `l` and `r`. */
  lemma {:induction false} SplitFirstUnique(l: string, c: char, r: string)
    requires c !in l
    ensures SplitFirst(l + [c] + r, c) == Some((l, r))
    decreases |l|
  {
    var s := l + [c] + r;
    if l == [] {
      assert s == [c] + r;
    } else {
      assert s[0] == l[0] != c;
      assert s[1..] == l[1..] + [c] + r;
      SplitFirstUnique(l[1..], c, r);
      assert [l[0]] + l[1..] == l;
    }
  }

  /** What `solve_equation` hands to the engine: an equation `L=R`, split at
      its first `=`, becomes `(L)-(R)`; any other text is passed as it is. */
  function EquationInput(text: string): string {
    match SplitFirst(text, '=')
    case None => text
    case Some((l, r)) => "(" + l + ")-(" + r + ")"
  }

  /** An equation is moved to the form `(L)-(R) = 0`, with `L` everything
      before its first `=` and `R` everything after it, `=` included. */
  lemma EquationInputZeroForm(l: string, r: string)
    requires '=' !in l
    ensures EquationInput(l + "=" + r) == "(" + l + ")-(" + r + ")"
  {
    SplitFirstUnique(l, '=', r);
  }

  /** A text without `=` reaches the engine unchanged. */
  lemma EquationInputPlain(text: string)
    requires '=' !in text
    ensures EquationInput(text) == text
  {
  }

  /** `sep.join(parts)`. */
  function Join(sep: string, parts: seq<string>): string {
    if parts == [] then ""
    else if |parts| == 1 then parts[0]
    else parts[0] + sep + Join(sep, parts[1..])
  }

  /** Every part appears in the joined text. */
  lemma {:induction false} JoinShowsEach(sep: string, parts: seq<string>, i: int)
    requires 0 <= i < |parts|
    ensures Contains(Join(sep, parts), parts[i])
    decreases |parts|
  {
    var j := Join(sep, parts);
    if i == 0 {
      if |parts| > 1 {
        assert j[..|parts[0]|] == parts[0];
      }
      assert OccursAt(j, parts[0], 0);
      ContainsIff(j, parts[0]);
    } else {
      var rest := Join(sep, parts[1..]);
      JoinShowsEach(sep, parts[1..], i - 1);
      assert j == (parts[0] + sep) + rest;
      ContainsAfter(parts[0] + sep, rest, parts[i]);
    }
  }

  /** `f"x = {s}"` for each solution. */
  function Labelled(solutions: seq<string>): (r: seq<string>)
    ensures |r| == |solutions|
    ensures forall i :: 0 <= i < |solutions| ==> r[i] == "x = " + solutions[i]
  {
    if solutions == [] then [] else ["x = " + solutions[0]] + Labelled(solutions[1..])
  }

  /** The text `solve_equation` puts in the line edit. */
  function SolutionText(solutions: seq<string>): string {
    if solutions == [] then "未找到解"
    else if |solutions| == 1 then "x = " + solutions[0]
    else "解: " + Join(", ", Labelled(solutions))
  }

  /** A single solution is shown as `x = s`; no solution gives the fixed
      message; with several, the message carries the header and every
      solution as `x = s`. */
  lemma SolutionTextShowsEach(solutions: seq<string>, i: int)
    requires 0 <= i < |solutions|
    ensures Contains(SolutionText(solutions), "x = " + solutions[i])
    ensures |solutions| == 1 ==> SolutionText(solutions) == "x = " + solutions[0]
    ensures |solutions| >= 2 ==> StartsWith(SolutionText(solutions), "解: ")
  {
    var t := SolutionText(solutions);
    if |solutions| == 1 {
      assert OccursAt(t, "x = " + solutions[0], 0);
      ContainsIff(t, "x = " + solutions[0]);
    } else {
      var labelled := Labelled(solutions);
      var j := Join(", ", labelled);
      JoinShowsEach(", ", labelled, i);
      assert t == "解: " + j;
      ContainsAfter("解: ", j, labelled[i]);
      assert t[..3] == "解: ";
    }
  }

  /* ---------------------------------------------------------------------
   * Label tables.
   * --------------------------------------------------------------------- */

  /** `update_buttons_for_second_mode`: the labels each tab changes. The
      algebra, statistics and matrix tabs only highlight their 2nd button. */
  function TabRules(tab: string): seq<LabelRule> {
    if tab == "basic_tab" then BasicRules
    else if tab == "trigo_tab" then TrigRules
    else if tab == "calcu_tab" then CalculusRules
    else if tab == "tab_char" then CharacterRules()
    else []
  }

  /* ---------------------------------------------------------------------
   * Button dispatch.
   * --------------------------------------------------------------------- */

  /** What a button press does. `Delegated` names a handler that hands the
      expression to the engine (derivatives, integrals, algebraic operations,
      statistics) and is not part of this model. */
  datatype Action =
    | InsertText(text: string)
    | AddFunction(template: string)
    | Calculate
    | SolveEquation
    | Delegated(handler: string)

  const DigitKeys: seq<string> := ["0", "1", "2", "3", "4", "5", "6", "7", "8", "9", "."]
  const OperatorKeys: seq<string> := ["+", "-", "×", "÷", "=", "(", ")", "<", ">", "≤", "≥", "≠"]

  /** The trigonometric, inverse and hyperbolic names, each of which inserts
      a call of itself. */
  const TrigKeys: seq<string> := [
    "sin", "cos", "tan", "cot", "sec", "csc", "asin", "acos", "atan", "acot", "asec", "acsc",
    "sinh", "cosh", "tanh"]

  /** Branches 376-404: digits, operators, constants, the basic functions and
      evaluation. */
  function DispatchEntry(text: string): Option<Action> {
    if text in DigitKeys then Some(InsertText(text))
    else if text in OperatorKeys then
      Some(InsertText(if text == "×" then "*" else if text == "÷" then "/" else text))
    else if text == "π" then Some(InsertText("pi"))
    else if text == "e" then Some(InsertText("e"))
    else if text == "i" then Some(InsertText("I"))
    else if text == "√" then Some(AddFunction("sqrt({})"))
    else if text == "x²" then Some(AddFunction("({})**2"))
    else if text == "^" then Some(InsertText("**"))
    else if text == "log" then Some(AddFunction("log({}, 10)"))
    else if text == "ln" then Some(AddFunction("log({})"))
    else if text == "=" then Some(Calculate)
    else None
  }

  /** Branches 406-440: calls, calculus, algebra and statistics. */
  function DispatchCalls(text: string): Option<Action> {
    if text in TrigKeys then Some(AddFunction(text + "({})"))
    else if text == "'" then Some(Delegated("calculate_derivative"))
    else if text == "∂" then Some(Delegated("calculate_partial_derivative"))
    else if text == "∫" then Some(Delegated("calculate_integral"))
    else if text == "∬" then Some(Delegated("calculate_double_integral"))
    else if text == "lim" then Some(AddFunction("limit({}, x, 0)"))
    else if text == "Factor" then Some(Delegated("factor"))
    else if text == "Expend" then Some(Delegated("expand"))
    else if text == "Simplify" then Some(Delegated("simplify"))
    else if text == "Solve" then Some(SolveEquation)
    else if text == "x\U{305}" then Some(Delegated("calculate_mean"))
    else if text == "x\U{303}" then Some(Delegated("calculate_median"))
    else if text == "σ" then Some(Delegated("calculate_std"))
    else None
  }

  /** The final branch: a Greek letter becomes its SymPy name (the same table
      NewCalculator has), anything else is typed as it is. */
  function DispatchRest(text: string): Action {
    if text in NewCalculator.GreekNames then InsertText(NewCalculator.GreekNames[text]) else InsertText(text)
  }

  /** `on_button_clicked`: the first matching branch, in source order. The
      tests here are list memberships and equalities. */
  function Dispatch(text: string): Action {
    var entry := DispatchEntry(text);
    if entry.Some? then entry.value
    else
      var call := DispatchCalls(text);
      if call.Some? then call.value else DispatchRest(text)
  }

  /** The `=` button types `=`: `=` is in the operator list, so the evaluate
      branch is never reached. */
  lemma EqualsTypesEquals()
    ensures Dispatch("=") == InsertText("=")
  {
    assert "=" !in DigitKeys;
    assert "=" in OperatorKeys;
  }

  /** No button text reaches the evaluate branch. */
  lemma CalculateUnreachable(text: string)
    ensures Dispatch(text) != Calculate
  {
    if text == "=" {
      EqualsTypesEquals();
    } else {
      EntryCalculatesOnlyOnEquals(text);
    }
  }

  /** The first group evaluates only on `=`. */
  lemma EntryCalculatesOnlyOnEquals(text: string)
    ensures DispatchEntry(text) == Some(Calculate) ==> text == "="
  {
  }

  /** The display operators and `π` become their SymPy spelling. */
  lemma OperatorsTranslated(c: char)
    requires c in "×÷^π"
    ensures Dispatch([c]) == InsertText(
      if c == '×' then "*" else if c == '÷' then "/" else if c == '^' then "**" else "pi")
  {
    assert [c] !in DigitKeys;
    assert [c] in OperatorKeys <==> c == '×' || c == '÷';
    assert [c] == "×" <==> c == '×';
    assert [c] == "÷" <==> c == '÷';
    assert [c] == "^" <==> c == '^';
    assert [c] == "π" <==> c == 'π';
    assert [c] != "e" && [c] != "i" && [c] != "√";
  }

  /** The keys of the digit and operator lists are one character each, none
      of them a Greek letter. */
  lemma KeysNotGreek(k: string)
    requires k in DigitKeys || k in OperatorKeys
    ensures |k| == 1 && (k[0] < 'Α' || 'ω' < k[0])
  {
  }

  /** A Greek letter passes the first group untaken, except `π`. */
  lemma EntryGreek(k: string)
    requires |k| == 1 && 'Α' <= k[0] <= 'ω'
    ensures DispatchEntry(k) == if k == "π" then Some(InsertText("pi")) else None
  {
    if k in DigitKeys || k in OperatorKeys { KeysNotGreek(k); }
    var c := k[0];
    assert k == [c];
    assert k == "π" <==> c == 'π';
    assert k != "e" && k != "i" && k != "√" && k != "^" && k != "=";
    assert k != "x²" && k != "log" && k != "ln" by { assert |k| == 1; }
  }

  /** A Greek letter passes the second group untaken, except `σ`. */
  lemma CallsGreek(k: string)
    requires |k| == 1 && 'Α' <= k[0] <= 'ω'
    ensures DispatchCalls(k) == if k == "σ" then Some(Delegated("calculate_std")) else None
  {
    var c := k[0];
    assert k == [c];
    assert k !in TrigKeys;
    assert k != "'" && k != "∂" && k != "∫" && k != "∬";
    assert k != "lim" && k != "Factor" && k != "Expend" && k != "Simplify" && k != "Solve" by {
      assert |k| == 1;
    }
    assert k != "x\U{305}" && k != "x\U{303}" by { assert |k| == 1; }
    assert k == "σ" <==> c == 'σ';
  }

  /** Unlike NewCalculator, this calculator reaches its table of Greek
      names: every Greek letter button except `σ` (the standard deviation)
      types the letter's SymPy name. */
  lemma GreekNamesReached(k: string)
    requires k in NewCalculator.GreekNames && k != "σ"
    ensures Dispatch(k) == InsertText(NewCalculator.GreekNames[k])
  {
    assert |k| == 1 && 'Α' <= k[0] <= 'ω' by {
      NewCalculator.GreekNamesAreLetters(k);
    }
    if k == "π" {
      assert Dispatch(k) == InsertText("pi") by { EntryGreek(k); }
      PiName();
    } else {
      assert DispatchEntry(k) == None by { EntryGreek(k); }
      assert DispatchCalls(k) == None by { CallsGreek(k); }
    }
  }

  /** The table's name for `π` is SymPy's `pi`. */
  lemma PiName()
    ensures NewCalculator.GreekNames["π"] == "pi"
  {
    assert "π" in NewCalculator.LowerGreekNames;
  }

  /** An ASCII letter button types its letter, except `i`, which types the
      imaginary unit `I`. */
  lemma LetterDispatch(c: char)
    requires 'a' <= c <= 'z' || 'A' <= c <= 'Z'
    ensures Dispatch([c]) == InsertText(if c == 'i' then "I" else [c])
  {
    EntryAscii(c);
    CallsAscii(c);
    if [c] in NewCalculator.GreekNames {
      NewCalculator.GreekNamesAreLetters([c]);
    }
  }

  /** The first group on an ASCII letter: only `e` and `i` are taken. */
  lemma EntryAscii(c: char)
    requires 'a' <= c <= 'z' || 'A' <= c <= 'Z'
    ensures DispatchEntry([c]) ==
      if c == 'e' then Some(InsertText("e")) else if c == 'i' then Some(InsertText("I")) else None
  {
    var k := [c];
    assert k !in DigitKeys && k !in OperatorKeys;
    assert k == "e" <==> c == 'e';
    assert k == "i" <==> c == 'i';
    assert k != "π" && k != "√" && k != "^" && k != "=";
    assert k != "x²" && k != "log" && k != "ln" by { assert |k| == 1; }
  }

  /** The second group takes no ASCII letter. */
  lemma CallsAscii(c: char)
    requires 'a' <= c <= 'z' || 'A' <= c <= 'Z'
    ensures DispatchCalls([c]) == None
  {
    var k := [c];
    assert k !in TrigKeys;
    assert k != "'" && k != "∂" && k != "∫" && k != "∬" && k != "σ";
    assert k != "lim" && k != "Factor" && k != "Expend" && k != "Simplify" && k != "Solve" by {
      assert |k| == 1;
    }
    assert k != "x\U{305}" && k != "x\U{303}" by { assert |k| == 1; }
  }

  /** The trigonometry labels, normal or 2nd, are in the list of names. */
  lemma TrigLabelsAreKeys(r: LabelRule, second: bool)
    requires r in TrigRules
    ensures var t := Shown(r, second); t in TrigKeys && |t| >= 3
  {
  }

  /** Every trigonometry label inserts a call of the function it shows: in
      2nd mode the inverse `a`-prefixed function, once. */
  lemma TrigLabelsDispatch(r: LabelRule, second: bool)
    requires r in TrigRules
    ensures Dispatch(Shown(r, second)) == AddFunction(Shown(r, second) + "({})")
    ensures second ==> Dispatch(Shown(r, second)) == AddFunction("a" + r.normal + "({})")
  {
    var t := Shown(r, second);
    TrigLabelsAreKeys(r, second);
    assert t !in DigitKeys && t !in OperatorKeys by {
      if t in DigitKeys || t in OperatorKeys { KeysNotGreek(t); }
    }
    assert t != "π" && t != "e" && t != "i" && t != "√" && t != "^" && t != "=" && t != "x²" && t != "ln";
    assert t != "log" by { assert "log"[0] == 'l'; }
    TrigSecondIsInverse();
  }

  /** The basic tab's labels: `√` a square root and `x²` a square; `log` the
      base-10 logarithm and `ln` the natural one. */
  lemma BasicLabelsDispatch(second: bool)
    ensures Dispatch(Shown(BasicRules[0], second)) == AddFunction(if second then "log({})" else "log({}, 10)")
    ensures Dispatch(Shown(BasicRules[1], second)) == AddFunction(if second then "({})**2" else "sqrt({})")
  {
    var log, root := Shown(BasicRules[0], second), Shown(BasicRules[1], second);
    assert log == (if second then "ln" else "log") && root == (if second then "x²" else "√");
    BasicKeyDispatch(log);
    BasicKeyDispatch(root);
  }

  /** The four basic function keys pass the digit and operator lists and
      reach their own branches. */
  lemma BasicKeyDispatch(t: string)
    requires t == "log" || t == "ln" || t == "√" || t == "x²"
    ensures t == "log" ==> Dispatch(t) == AddFunction("log({}, 10)")
    ensures t == "ln" ==> Dispatch(t) == AddFunction("log({})")
    ensures t == "√" ==> Dispatch(t) == AddFunction("sqrt({})")
    ensures t == "x²" ==> Dispatch(t) == AddFunction("({})**2")
  {
    if t in DigitKeys || t in OperatorKeys {
      KeysNotGreek(t);
      assert false;
    }
  }

  /* ---------------------------------------------------------------------
   * The controller state.
   * --------------------------------------------------------------------- */

  class Calculator {
    var text: string
    var cursor: nat
    var selection: Selection
    var history: seq<string>
    var secondMode: Flags
    /** The object name of the tab the tab widget shows. */
    var currentTab: string

    function Buf(): Buffer
      reads this
    {
      Buffer(text, cursor, selection)
    }

    predicate Valid()
      reads this
    {
      Buf().Valid()
    }

    /** The labels a tab's buttons show, set from the tab's flag. */
    function TabLabels(tab: string): seq<(string, string)>
      reads this
    {
      Labels(TabRules(tab), IsSecond(secondMode, tab))
    }

    constructor(firstTab: string)
      ensures Valid() && Buf() == Buffer("", 0, NoSelection)
      ensures history == [] && secondMode == InitialFlags() && currentTab == firstTab
    {
      text, cursor, selection := "", 0, NoSelection;
      history := [];
      secondMode := InitialFlags();
      currentTab := firstTab;
    }

    /** The user selects `[start, end)`, the cursor at one end. */
    method Select(start: nat, end: nat, cursorAtEnd: bool)
      requires Valid() && start < end <= |text|
      modifies this
      ensures Valid()
      ensures Buf() == Buffer(old(text), if cursorAtEnd then end else start, Selected(start, end))
      ensures history == old(history) && secondMode == old(secondMode) && currentTab == old(currentTab)
    {
      selection := Selected(start, end);
      cursor := if cursorAtEnd then end else start;
    }

    /** `add_to_expression`. */
    method AddToExpression(t: string)
      requires Valid()
      modifies this
      ensures Valid() && Buf() == TextEdit.Insert(old(Buf()), t)
      ensures history == old(history) && secondMode == old(secondMode) && currentTab == old(currentTab)
    {
      var c := cursor;
      text := text[..c] + t + text[c..];
      cursor := c + |t|;
      selection := NoSelection;
    }

    /** `add_function`. */
    method AddFunction(template: string)
      requires Valid()
      modifies this
      ensures Valid() && Buf() == AddFunctionTo(old(Buf()), template)
      ensures history == old(history) && secondMode == old(secondMode) && currentTab == old(currentTab)
    {
      if selection.Selected? {
        var s, e := selection.start, selection.end;
        var f := Format(template, text[s..e]);
        text := text[..s] + f + text[e..];
        cursor := s + |f|;
      } else {
        var c := cursor;
        var p := Find(template, "{}");
        if p != -1 {
          var before, after := template[..p], template[p + 2..];
          text := text[..c] + (before + after) + text[c..];
          cursor := c + |before|;
        } else {
          text := text[..c] + template + text[c..];
          cursor := c + |template|;
        }
      }
      selection := NoSelection;
    }

    /** `setText`: the text is replaced, the cursor goes to its end and the
        selection is dropped. */
    method SetText(t: string)
      modifies this
      ensures Valid() && Buf() == Buffer(t, |t|, NoSelection)
      ensures history == old(history) && secondMode == old(secondMode) && currentTab == old(currentTab)
    {
      text, cursor, selection := t, |t|, NoSelection;
    }

    /** `add_to_history`: one entry at the end. */
    method AddToHistory(item: string)
      modifies this
      ensures history == old(history) + [item]
      ensures Buf() == old(Buf()) && secondMode == old(secondMode) && currentTab == old(currentTab)
    {
      history := history + [item];
    }

    /** `solve_equation`: when the engine solves the rewritten text the line
        shows the solutions; when the text is empty or the engine raises,
        nothing changes. The history is never touched. */
    method SolveEquation(solve: Solver)
      modifies this
      ensures var s := solve(EquationInput(old(text)));
        if old(text) != "" && s.Some? then Valid() && Buf() == Buffer(SolutionText(s.value), |SolutionText(s.value)|, NoSelection)
        else Buf() == old(Buf())
      ensures history == old(history) && secondMode == old(secondMode) && currentTab == old(currentTab)
    {
      if text == "" {
        return;
      }
      var input := EquationInput(text);
      var s := solve(input);
      if s.Some? {
        SetText(SolutionText(s.value));
      }
    }

    /** `calculate`: an empty line does nothing; a line holding `=` is an
        equation and goes to the solver, adding no history; anything else is
        evaluated as it is and, when it is also rendered, exactly one entry
        `"<expression> = <result>"` is appended. */
    method Calculate(eval: Evaluator, solve: Solver)
      modifies this
      ensures old(text) == "" ==> Buf() == old(Buf()) && history == old(history)
      ensures '=' in old(text) ==>
        && history == old(history)
        && var s := solve(EquationInput(old(text)));
           if s.Some? then Buf() == Buffer(SolutionText(s.value), |SolutionText(s.value)|, NoSelection)
           else Buf() == old(Buf())
      ensures '=' !in old(text) ==>
        Buf() == old(Buf()) && history == old(history) + HistoryEntries(old(text), eval(old(text)))
      ensures secondMode == old(secondMode) && currentTab == old(currentTab)
    {
      if text == "" {
        return;
      }
      if '=' in text {
        SolveEquation(solve);
        return;
      }
      var e := eval(text);
      if e.None? || e.value.latex.None? {
        return;
      }
      AddToHistory(HistoryItem(text, e.value.text));
    }

    /** `toggle_second_mode`: only the current tab's flag flips. */
    method ToggleSecondMode()
      modifies this
      ensures secondMode == Flip(old(secondMode), currentTab)
      ensures Buf() == old(Buf()) && history == old(history) && currentTab == old(currentTab)
    {
      if currentTab in secondMode {
        secondMode := secondMode[currentTab := !secondMode[currentTab]];
      }
    }

    /** `on_tab_changed`: the entered tab becomes current and its flag is
        cleared. */
    method OnTabChanged(tab: string)
      modifies this
      ensures currentTab == tab && secondMode == Reset(old(secondMode), tab)
      ensures TabLabels(tab) == Labels(TabRules(tab), false)
      ensures Buf() == old(Buf()) && history == old(history)
    {
      currentTab := tab;
      if tab in secondMode {
        secondMode := secondMode[tab := false];
      }
      assert TabLabels(tab) == Labels(TabRules(tab), false) by {
        assert !IsSecond(secondMode, tab);
      }
    }
  }
}
