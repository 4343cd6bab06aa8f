/**
 * The second calculator, `CalculatorApp` in NewCalculator.py: the line edit
 * and its template insertion, the sign toggle and answer recall, the
 * evaluation request with its last answer and history, the per-tab 2nd
 * flags with their label tables, and the button dispatch.
 */
module NewCalculator {
  import opened PyStr
  import opened TextEdit
  import opened Engine
  import opened Rewrite
  import opened SecondMode

  /* ---------------------------------------------------------------------
   * Buffer operations, as functions of the line edit's state.
   * --------------------------------------------------------------------- */

  /** `add_function`: a selection is replaced by `template.format(selection)`
      with the cursor after it. Otherwise `template.format("")` is inserted;
      when it holds both a `(` and a `)` the cursor goes right after the first
      `(`, else after the inserted text. */
  function AddFunctionTo(b: Buffer, template: string): (r: Buffer)
    requires b.Valid()
    ensures r.Valid() && r.selection == NoSelection
  {
    if b.selection.Selected? then ReplaceSelection(b, Format(template, b.SelectedText()))
    else
      var f := Format(template, "");
      Buffer(b.text[..b.cursor] + f + b.text[b.cursor..], b.cursor + CursorOffset(f), NoSelection)
  }

  /** Where `add_function` puts the cursor in the inserted text `f`: right
      after the first `(` when `f` holds both a `(` and a `)`, else after
      `f`. */
  function CursorOffset(f: string): (k: nat)
    ensures k <= |f|
    ensures Find(f, "(") >= 0 && Find(f, ")") >= 0 ==> k == Find(f, "(") + 1
    ensures !(Find(f, "(") >= 0 && Find(f, ")") >= 0) ==> k == |f|
  {
    var open, close := Find(f, "("), Find(f, ")");
    if open >= 0 && close >= 0 then open + 1 else |f|
  }

  /** In `f(rest)` with no `(` in `f`, the first `(` follows `f`. */
  lemma OpenAfterName(f: string, rest: string)
    requires '(' !in f
    ensures Find(f + "(" + rest, "(") == |f|
  {
    var ft := f + "(" + rest;
    assert ft[..|f|] == f;
    FindChar(ft, '(', |f|);
  }

  /** A `)` in `rest` is found in `f(rest)`. */
  lemma CloseInRest(f: string, rest: string)
    requires ')' in rest
    ensures Find(f + "(" + rest, ")") >= 0
  {
    var ft := f + "(" + rest;
    var k :| 0 <= k < |rest| && rest[k] == ')';
    assert ft[|f| + 1 + k] == rest[k];
    ContainsChar(ft, ')');
  }

  /** A template `f({}rest)` with no `(` or `{` in `f` and a `)` in `rest`,
      formatted with nothing, holds its first `(` right after `f`, and a
      `)`. */
  lemma PlaceholderTemplate(f: string, rest: string)
    requires '(' !in f && '{' !in f && ')' in rest
    ensures Format(f + "({}" + rest, "") == f + "(" + rest
    ensures Find(f + "(" + rest, "(") == |f|
    ensures Find(f + "(" + rest, ")") >= 0
  {
    FormatPlaceholder(f, "", rest);
    OpenAfterName(f, rest);
    CloseInRest(f, rest);
  }

  /** Without a selection, such a template is inserted formatted with
      nothing, and the cursor follows its first `(`. */
  lemma AddPlaceholderTemplate(b: Buffer, f: string, rest: string)
    requires b.Valid() && b.selection.NoSelection?
    requires '(' !in f && '{' !in f && ')' in rest
    ensures AddFunctionTo(b, f + "({}" + rest)
         == Buffer(b.text[..b.cursor] + (f + "(" + rest) + b.text[b.cursor..], b.cursor + |f| + 1, NoSelection)
  {
    PlaceholderTemplate(f, rest);
  }

  /** Typing at the end of `head + open` in `head + open + rest + tail`
      puts the typed text between `open` and `rest`. */
  lemma InsertAfterOpen(head: string, open: string, rest: string, tail: string, arg: string)
    ensures TextEdit.Insert(Buffer(head + (open + rest) + tail, |head| + |open|, NoSelection), arg).text
         == head + (open + arg + rest) + tail
  {
    var t, x, y := head + (open + rest) + tail, head + open, rest + tail;
    assert t == x + y;
    assert t[..|x|] == x && t[|x|..] == y;
  }

  /** For such a template (`sqrt({})`, `log({}, 10)`, `({})**2`,
      `limit({}, x, 0)`, every trigonometric call) the cursor lands where
      the placeholder was, so typing an argument then gives the same text as
      inserting the call already formatted with it. */
  lemma AddFunctionThenType(b: Buffer, f: string, rest: string, arg: string)
    requires b.Valid() && b.selection.NoSelection?
    requires '(' !in f && '{' !in f && ')' in rest
    ensures AddFunctionTo(b, f + "({}" + rest).cursor == b.cursor + |f| + 1
    ensures TextEdit.Insert(AddFunctionTo(b, f + "({}" + rest), arg).text
         == TextEdit.Insert(b, f + "(" + arg + rest).text
  {
    var head, tail, open := b.text[..b.cursor], b.text[b.cursor..], f + "(";
    assert AddFunctionTo(b, f + "({}" + rest) == Buffer(head + (open + rest) + tail, |head| + |open|, NoSelection) by {
      AddPlaceholderTemplate(b, f, rest);
    }
    InsertAfterOpen(head, open, rest, tail, arg);
  }

  /** `toggle_sign`: a selection is replaced by `(-1)*(selection)`; otherwise
      `(-1)*` is inserted at the cursor. */
  function ToggleSignIn(b: Buffer): (r: Buffer)
    requires b.Valid()
    ensures r.Valid() && r.selection == NoSelection
  {
    if b.selection.Selected? then ReplaceSelection(b, "(-1)*(" + b.SelectedText() + ")")
    else TextEdit.Insert(b, "(-1)*")
  }

  /** The sign toggle negates exactly the selection, keeping the text around
      it, or puts the factor `(-1)*` at the cursor and moves past it. */
  lemma ToggleSignNegates(b: Buffer)
    requires b.Valid()
    ensures var r := ToggleSignIn(b);
      && (b.selection.Selected? ==>
            && r.text[..b.selection.start] == b.text[..b.selection.start]
            && r.text[b.selection.start..r.cursor] == "(-1)*(" + b.SelectedText() + ")"
            && r.text[r.cursor..] == b.text[b.selection.end..])
      && (b.selection.NoSelection? ==>
            && r.cursor == b.cursor + 5
            && r.text[..b.cursor] == b.text[..b.cursor]
            && r.text[b.cursor..r.cursor] == "(-1)*"
            && r.text[r.cursor..] == b.text[b.cursor..])
  {
    if b.selection.Selected? {
      ReplaceSelectionPlacesText(b, "(-1)*(" + b.SelectedText() + ")");
    } else {
      InsertPlacesText(b, "(-1)*");
    }
  }

  /* ---------------------------------------------------------------------
   * Templates chosen by the 2nd flag of the current tab.
   * --------------------------------------------------------------------- */

  /** `insert_sqrt`: a square in 2nd mode, a square root otherwise. */
  function SqrtTemplate(second: bool): string {
    if second then "({})**2" else "sqrt({})"
  }

  /** `insert_log`: the natural logarithm in 2nd mode, base 10 otherwise. */
  function LogTemplate(second: bool): string {
    if second then "log({})" else "log({}, 10)"
  }

  /** `insert_trig_function` as written: 2nd mode prefixes `a`, hyperbolic
      mode suffixes `h`. In 2nd mode the trigonometry buttons already show
      `asin` … `acsc`, so the prefix is doubled. */
  function TrigTemplateAsWritten(name: string, second: bool, hyperbolic: bool): string {
    (if second then "a" else "") + name + (if hyperbolic then "h" else "") + "({})"
  }

  /** `insert_trig_function` as intended: the inverse prefix is added only
      to a name that does not already carry it. */
  function TrigTemplate(name: string, second: bool, hyperbolic: bool): string {
    (if second && !StartsWith(name, "a") then "a" else "") + name + (if hyperbolic then "h" else "") + "({})"
  }

  /** As written, the `asin` button in 2nd mode inserts `aasin()`. */
  lemma TrigTemplateDoublesPrefix(r: LabelRule)
    requires r in TrigRules
    ensures TrigTemplateAsWritten(Shown(r, true), true, false) == "aa" + r.normal + "({})"
  {
    TrigSecondIsInverse();
  }

  /** As intended, every trigonometry button, in either mode, inserts a call
      of the function its label shows, in 2nd mode the inverse of its normal
      function. */
  lemma TrigTemplateFollowsLabel(r: LabelRule, second: bool)
    requires r in TrigRules
    ensures TrigTemplate(Shown(r, second), second, false) == Shown(r, second) + "({})"
    ensures second ==> TrigTemplate(Shown(r, second), second, false) == "a" + r.normal + "({})"
  {
    TrigSecondIsInverse();
    if second {
      assert StartsWith(r.second, "a");
    } else {
      assert r.normal[0] != 'a';
    }
  }

  /* ---------------------------------------------------------------------
   * Label tables that only this calculator has.
   * --------------------------------------------------------------------- */

  /** The algebra tab: ceiling becomes floor, nearest integer becomes norm. */
  const AlgebraRules: seq<LabelRule> :=
    [LabelRule("pushButton_cefl", "⌈a⌉", "⌊a⌋"), LabelRule("pushButton_gidp", "[a]", "‖a‖")]

  /** The calculus tab: derivative, integral and limit. */
  const CalculusLimitRules: seq<LabelRule> := CalculusRules + [LabelRule("pushButton_lim", "lim", "lim_{∞}")]

  /** The statistics tab: mean becomes expectation, deviation becomes
      variance. */
  const StatsRules: seq<LabelRule> :=
    [LabelRule("pushButton_mea", "x\U{305}", "E(X)"), LabelRule("pushButton_vari", "σ", "σ²")]

  /** The matrix and set tab. */
  const MatrixRules: seq<LabelRule> := [
    LabelRule("pushButton_lsb", "[", "⟨"), LabelRule("pushButton_rsb", "]", "⟩"),
    LabelRule("pushButton_Pm", "P", "det")]

  /** `update_buttons_for_second_mode`: the table each tab updates. */
  function TabRules(tab: string): seq<LabelRule> {
    if tab == "basic_tab" then BasicRules
    else if tab == "tab_alge" then AlgebraRules
    else if tab == "trigo_tab" then TrigRules
    else if tab == "calcu_tab" then CalculusLimitRules
    else if tab == "tab_stat" then StatsRules
    else if tab == "tab_marset" then MatrixRules
    else if tab == "tab_char" then CharacterRules()
    else []
  }

  /** After its flag is cleared a tab shows its normal labels. */
  lemma TabShowsNormal(m: Flags, tab: string)
    ensures Labels(TabRules(tab), IsSecond(Reset(m, tab), tab)) == Labels(TabRules(tab), false)
  {
    SecondMode.ResetShowsNormal(m, tab);
  }

  /* ---------------------------------------------------------------------
   * Button dispatch.
   * --------------------------------------------------------------------- */

  /** What a button press does. `Delegated` names a handler that hands the
      expression to the engine (derivatives, integrals, factoring, solving,
      statistics) and is not part of this model. */
  datatype Action =
    | InsertText(text: string)
    | AddFunction(template: string)
    | InsertSqrt
    | InsertLog
    | InsertTrig(name: string)
    | InsertAnswer
    | ToggleSign
    | Calculate
    | Delegated(handler: string)

  /** The names `insert_trig_function` accepts. */
  const TrigNames: seq<string> := [
    "sin", "cos", "tan", "cot", "sec", "csc", "asin", "acos", "atan", "acot", "asec", "acsc",
    "sinh", "cosh", "tanh"]

  /** The symbol names of the final branch: each lower-case Greek letter to
      its SymPy name ... */
  const LowerGreekNames: map<string, string> := map[
    "α" := "alpha", "β" := "beta", "γ" := "gamma", "δ" := "delta", "ε" := "epsilon",
    "ζ" := "zeta", "η" := "eta", "θ" := "theta", "ι" := "iota", "κ" := "kappa",
    "λ" := "lambda", "μ" := "mu", "ν" := "nu", "ξ" := "xi", "ο" := "omicron", "π" := "pi",
    "ρ" := "rho", "σ" := "sigma", "τ" := "tau", "υ" := "upsilon", "φ" := "phi", "χ" := "chi",
    "ψ" := "psi", "ω" := "omega"]

  /** ... and each upper-case one to the capitalised name. */
  const UpperGreekNames: map<string, string> := map[
    "Α" := "Alpha", "Β" := "Beta", "Γ" := "Gamma", "Δ" := "Delta", "Ε" := "Epsilon",
    "Ζ" := "Zeta", "Η" := "Eta", "Θ" := "Theta", "Ι" := "Iota", "Κ" := "Kappa",
    "Λ" := "Lambda", "Μ" := "Mu", "Ν" := "Nu", "Ξ" := "Xi", "Ο" := "Omicron", "Π" := "Pi",
    "Ρ" := "Rho", "Σ" := "Sigma", "Τ" := "Tau", "Υ" := "Upsilon", "Φ" := "Phi", "Χ" := "Chi",
    "Ψ" := "Psi", "Ω" := "Omega"]

  /** `sympy_replacements`. */
  const GreekNames: map<string, string> := LowerGreekNames + UpperGreekNames

  const Digits: string := "0123456789."
  const Relations: string := "()=<>≤≥≠"
  const SetSymbols: string := "[]{}⟨⟩|∈∩∪\\⊂⊃⊆⊇∀∃△∅#"

  /** `on_button_clicked`, branches 122-149: digits, operators, relations,
      constants and the basic functions. */
  function DispatchEntry(text: string): (r: Option<Action>)
    ensures r != Some(Calculate)
  {
    if Contains(Digits, text) then Some(InsertText(text))
    else if Contains("+-", text) then Some(InsertText(text))
    else if text == "×" then Some(InsertText("*"))
    else if text == "÷" then Some(InsertText("/"))
    else if text == "^" then Some(InsertText("**"))
    else if Contains(Relations, text) then Some(InsertText(text))
    else if text == "π" then Some(InsertText("pi"))
    else if text == "e" || text == "E" then Some(InsertText("E"))
    else if text == "i" || text == "I" then Some(InsertText("I"))
    else if text == "√" then Some(InsertSqrt)
    else if text == "x²" then Some(AddFunction("({})**2"))
    else if text == "log" then Some(InsertLog)
    else if text == "ln" then Some(AddFunction("log({})"))
    else None
  }

  /** Branches 151-202: trigonometry, calculus, algebra, the answer, the
      sign, evaluation and statistics. */
  function DispatchCalls(text: string): Option<Action> {
    if text in TrigNames then Some(InsertTrig(text))
    else if text == "'" then Some(Delegated("calculate_derivative"))
    else if text == "∂" then Some(Delegated("calculate_partial_derivative"))
    else if text == "∫" then Some(Delegated("calculate_integral"))
    else if text == "∬" then Some(Delegated("calculate_double_integral"))
    else if text == "lim" then Some(AddFunction("limit({}, x, 0)"))
    else if text == "Factor" then Some(Delegated("factor"))
    else if text == "Expend" then Some(Delegated("expand"))
    else if text == "Simplify" then Some(Delegated("simplify"))
    else if text == "Solve" then Some(Delegated("solve_equation"))
    else if text == "Answer" then Some(InsertAnswer)
    else if text == "+/-" then Some(ToggleSign)
    else if text == "=" then Some(Calculate)
    else if text == "x\U{305}" || text == "E(X)" then Some(Delegated("calculate_mean"))
    else if text == "x\U{303}" then Some(Delegated("calculate_median"))
    else if text == "σ" then Some(Delegated("calculate_std"))
    else if text == "σ²" then Some(Delegated("calculate_variance"))
    else if text == "gcd" then Some(Delegated("calculate_gcd"))
    else if text == "lcm" then Some(Delegated("calculate_lcm"))
    else if text == "max" then Some(Delegated("calculate_max"))
    else if text == "min" then Some(Delegated("calculate_min"))
    else None
  }

  /** Branches 204-232: set symbols, single letters, Greek names, and
      anything else typed as it is. */
  function DispatchRest(text: string): Action {
    if Contains(SetSymbols, text) then InsertText(text)
    else if |text| == 1 && IsAlpha(text[0]) then InsertText(text)
    else if text in GreekNames then InsertText(GreekNames[text])
    else InsertText(text)
  }

  /** `on_button_clicked`: the first matching branch, in source order. The
      character-class tests are Python substring tests (`text in '+-'`). */
  function Dispatch(text: string): Action {
    var entry := DispatchEntry(text);
    if entry.Some? then entry.value
    else
      var call := DispatchCalls(text);
      if call.Some? then call.value else DispatchRest(text)
  }

  /** A relation or parenthesis button, `=` among them, types its own
      character: the relation branch comes before the evaluate branch
      further down, so `=` never evaluates. */
  lemma RelationTypesItself(c: char)
    requires c in Relations
    ensures Dispatch([c]) == InsertText([c])
  {
    EntryRelation(c);
  }

  /** The first group on a relation character: it falls through the digit
      and operator tests to the relation test. */
  lemma EntryRelation(c: char)
    requires c in Relations
    ensures DispatchEntry([c]) == Some(InsertText([c]))
  {
    assert c !in Digits && c != '+' && c != '-' && c != '×' && c != '÷' && c != '^';
    ContainsChar(Digits, c);
    ContainsChar("+-", c);
    ContainsChar(Relations, c);
    assert [c] != "×" && [c] != "÷" && [c] != "^" by {
      assert [c][0] == c;
    }
  }

  /** No button text reaches the evaluate branch. */
  lemma CalculateUnreachable(text: string)
    ensures Dispatch(text) != Calculate
  {
    if text == "=" {
      assert text == ['='];
      RelationTypesItself('=');
    } else {
      CallsCalculateOnEquals(text);
    }
  }

  /** The second group evaluates only on `=`. */
  lemma CallsCalculateOnEquals(text: string)
    ensures DispatchCalls(text) == Some(Calculate) ==> text == "="
  {
  }

  /** The display operators and `π` become their SymPy spelling. */
  lemma OperatorsTranslated(c: char)
    requires c in "×÷^π"
    ensures Dispatch([c]) == InsertText(
      if c == '×' then "*" else if c == '÷' then "/" else if c == '^' then "**" else "pi")
  {
    EntryOperator(c);
  }

  /** The first group on a display operator or `π`: it passes the digit
      and sign tests, and `π` also the relation test. */
  lemma EntryOperator(c: char)
    requires c in "×÷^π"
    ensures DispatchEntry([c]) == Some(InsertText(
      if c == '×' then "*" else if c == '÷' then "/" else if c == '^' then "**" else "pi"))
  {
    OperatorChar(c);
    ContainsChar(Digits, c);
    ContainsChar("+-", c);
    ContainsChar(Relations, c);
  }

  /** The display operators and `π` are no digit, sign or relation, and
      their one-letter texts are the four labels. */
  lemma OperatorChar(c: char)
    requires c in "×÷^π"
    ensures c !in Digits && c != '+' && c != '-' && (c == 'π' ==> c !in Relations)
    ensures [c] == "×" <==> c == '×'
    ensures [c] == "÷" <==> c == '÷'
    ensures [c] == "^" <==> c == '^'
    ensures [c] == "π" <==> c == 'π'
  {
  }

  /** The character-class tests on a one-character text. */
  lemma EntryChar(c: char)
    ensures Contains(Digits, [c]) <==> c in Digits
    ensures Contains("+-", [c]) <==> c == '+' || c == '-'
    ensures Contains(Relations, [c]) <==> c in Relations
    ensures Contains(SetSymbols, [c]) <==> c in SetSymbols
    ensures [c] == "×" <==> c == '×'
    ensures [c] == "÷" <==> c == '÷'
    ensures [c] == "^" <==> c == '^'
    ensures [c] == "π" <==> c == 'π'
  {
    ContainsChar(Digits, c);
    ContainsChar("+-", c);
    ContainsChar(Relations, c);
    ContainsChar(SetSymbols, c);
  }

  /** A letter is none of the digit, operator, relation or set symbols. */
  lemma LetterNotSymbol(c: char)
    requires IsAlpha(c)
    ensures c !in Digits && c != '+' && c != '-' && c !in Relations && c !in SetSymbols
  {
  }

  /** The first group on a letter. */
  lemma EntryLetter(c: char)
    requires IsAlpha(c)
    ensures DispatchEntry([c]) ==
      if c == 'e' || c == 'E' then Some(InsertText("E"))
      else if c == 'i' || c == 'I' then Some(InsertText("I"))
      else if c == 'π' then Some(InsertText("pi"))
      else None
  {
    assert !Contains(Digits, [c]) && !Contains("+-", [c]) && !Contains(Relations, [c]) by {
      EntryChar(c);
      LetterNotSymbol(c);
    }
    assert [c] != "×" && [c] != "÷" && [c] != "^" && [c] != "√" by {
      assert [c][0] == c;
    }
    assert [c] == "π" <==> c == 'π';
    assert [c] == "e" <==> c == 'e';
    assert [c] == "E" <==> c == 'E';
    assert [c] == "i" <==> c == 'i';
    assert [c] == "I" <==> c == 'I';
  }

  /** The second group on a letter: only `σ` is taken. */
  lemma CallsLetter(c: char)
    requires IsAlpha(c)
    ensures DispatchCalls([c]) == if c == 'σ' then Some(Delegated("calculate_std")) else None
  {
    assert [c] !in TrigNames;
    assert [c] == "'" <==> c == '\'';
    assert [c] == "∂" <==> c == '∂';
    assert [c] == "∫" <==> c == '∫';
    assert [c] == "∬" <==> c == '∬';
    assert [c] == "=" <==> c == '=';
    assert [c] == "σ" <==> c == 'σ';
  }

  /** A one-letter button (ASCII or Greek) types its letter, except `e`/`E`
      (Euler's number), `i`/`I` (the imaginary unit), `π` (typed as `pi`)
      and `σ` (standard deviation): the letter branch comes before the table
      of Greek names. */
  lemma LetterDispatch(c: char)
    requires IsAlpha(c)
    ensures Dispatch([c]) ==
      if c == 'e' || c == 'E' then InsertText("E")
      else if c == 'i' || c == 'I' then InsertText("I")
      else if c == 'π' then InsertText("pi")
      else if c == 'σ' then Delegated("calculate_std")
      else InsertText([c])
  {
    EntryLetter(c);
    CallsLetter(c);
    EntryChar(c);
    assert DispatchRest([c]) == InsertText([c]);
  }

  /** Every key of the lower-case half of the Greek-name table is one
      letter. */
  lemma LowerGreekNamesAreLetters(k: string)
    requires k in LowerGreekNames
    ensures |k| == 1 && IsAlpha(k[0]) && 'Α' <= k[0]
  {
  }

  /** Every key of the upper-case half is one letter. */
  lemma UpperGreekNamesAreLetters(k: string)
    requires k in UpperGreekNames
    ensures |k| == 1 && IsAlpha(k[0]) && 'Α' <= k[0]
  {
  }

  /** Every key of the Greek-name table is one letter. */
  lemma GreekNamesAreLetters(k: string)
    requires k in GreekNames
    ensures |k| == 1 && IsAlpha(k[0]) && 'Α' <= k[0]
  {
    if k in LowerGreekNames {
      LowerGreekNamesAreLetters(k);
    } else {
      UpperGreekNamesAreLetters(k);
    }
  }

  /** Hence the table of Greek names is never consulted: `α` types `α`, not
      `alpha`. */
  lemma GreekNamesUnused(k: string)
    requires k in GreekNames
    ensures Dispatch(k) ==
      if k == "π" then InsertText("pi")
      else if k == "σ" then Delegated("calculate_std")
      else InsertText(k)
  {
    GreekNamesAreLetters(k);
    var c := k[0];
    assert k == [c];
    assert k == "π" <==> c == 'π';
    assert k == "σ" <==> c == 'σ';
    LetterDispatch(c);
  }

  /** A word of three or more letters that does not start with `l` passes
      the first group untaken. */
  lemma EntryWord(t: string)
    requires |t| >= 3 && IsAlpha(t[0]) && t[0] != 'l'
    ensures DispatchEntry(t) == None
  {
    LetterNotSymbol(t[0]);
    forall i | 0 <= i && i + |t| <= |Digits| ensures !OccursAt(Digits, t, i) {
      assert Digits[i..i + |t|][0] == Digits[i];
    }
    forall i | 0 <= i && i + |t| <= |Relations| ensures !OccursAt(Relations, t, i) {
      assert Relations[i..i + |t|][0] == Relations[i];
    }
    ContainsIff(Digits, t);
    ContainsIff("+-", t);
    ContainsIff(Relations, t);
    assert t != "log" by { assert "log"[0] == 'l'; }
  }

  /** The trigonometry labels are names `insert_trig_function` accepts, and
      words of three or more letters starting with `s`, `c`, `t` or `a`. */
  lemma TrigLabelFacts(r: LabelRule, second: bool)
    requires r in TrigRules
    ensures var t := Shown(r, second);
      t in TrigNames && |t| >= 3 && IsAlpha(t[0]) && t[0] != 'l'
  {
  }

  /** Every trigonometry label, normal or 2nd, reaches
      `insert_trig_function` with its own text. */
  lemma TrigLabelsDispatch(r: LabelRule, second: bool)
    requires r in TrigRules
    ensures Dispatch(Shown(r, second)) == InsertTrig(Shown(r, second))
  {
    TrigLabelFacts(r, second);
    EntryWord(Shown(r, second));
  }

  /* ---------------------------------------------------------------------
   * Evaluation request.
   * --------------------------------------------------------------------- */

  /** The text `calculate` hands to the engine: a trailing `=` dropped and
      the rest stripped, `×` and `÷` substituted, and then in DEG mode the
      same six guarded replaces as `Kalculate.py`, after the substitution
      rather than before it. */
  function EngineInput(mode: AngleMode, expression: string): (input: string)
    ensures mode == Rad ==> '×' !in input && '÷' !in input
  {
    var e := if EndsWith(expression, "=") then Strip(expression[..|expression| - 1]) else expression;
    var s := SubstituteOperators(e);
    if mode == Deg then DegreeChainAsWritten(s) else s
  }

  /** In DEG mode a direct call on a number would reach the engine scaled
      once and an inverse call converted twice, as in `Kalculate.py`. The
      mode is never DEG here, so neither happens. */
  lemma EngineInputDegCall(f: string, x: string)
    requires Numeral(x)
    ensures f in {"sin(", "cos(", "tan("} ==>
      EngineInput(Deg, f + x + ")") == f + "pi/180*" + x + ")"
    ensures f in {"asin(", "acos(", "atan("} ==>
      EngineInput(Deg, f + x + ")") == "(180/pi)*" + f + "pi/180*" + x + ")"
  {
    if f in {"sin(", "cos(", "tan(", "asin(", "acos(", "atan("} {
      var e := f + x + ")";
      CallPlain(f, x);
      assert !EndsWith(e, "=");
      SubstituteOperatorsIdentity(e);
      if f in {"sin(", "cos(", "tan("} {
        DegreeChainDirectCall(f, x);
      } else {
        DegreeChainInverseCall(f, x);
      }
    }
  }

  /** This calculator never leaves RAD mode, so the text reaches the engine
      with only the trailing `=` and the operators changed. */
  lemma EngineInputRad(expression: string)
    requires '×' !in expression && '÷' !in expression
    ensures !EndsWith(expression, "=") ==> EngineInput(Rad, expression) == expression
    ensures EngineInput(Rad, expression + "=") == Strip(expression)
  {
    SubstituteOperatorsIdentity(expression);
    var t := expression + "=";
    assert t[|t| - 1..] == "=";
    assert t[..|t| - 1] == expression;
    assert '×' !in Strip(expression) && '÷' !in Strip(expression) by {
      var l := LStrip(expression);
      assert forall c :: c in l ==> c in expression;
      assert forall c :: c in RStrip(l) ==> c in l;
    }
    SubstituteOperatorsIdentity(Strip(expression));
  }

  /* ---------------------------------------------------------------------
   * The controller state.
   * --------------------------------------------------------------------- */

  class Calculator {
    var text: string
    var cursor: nat
    var selection: Selection
    var history: seq<string>
    /** `last_answer`, absent until an evaluation succeeds. */
    var lastAnswer: Option<string>
    var secondMode: Flags
    /** The object name of the tab the tab widget shows. */
    var currentTab: string
    /** Whether the hyperbolic button is highlighted. */
    var hyperbolic: bool

    /** `angle_mode` is set to RAD in `__init__` and never changed. */
    const angleMode: AngleMode := Rad

    function Buf(): Buffer
      reads this
    {
      Buffer(text, cursor, selection)
    }

    predicate Valid()
      reads this
    {
      Buf().Valid()
    }

    /** The labels a tab's buttons show, set from the tab's flag. */
    function TabLabels(tab: string): seq<(string, string)>
      reads this
    {
      Labels(TabRules(tab), IsSecond(secondMode, tab))
    }

    constructor(firstTab: string)
      ensures Valid() && Buf() == Buffer("", 0, NoSelection)
      ensures history == [] && lastAnswer == None && secondMode == InitialFlags()
      ensures currentTab == firstTab && !hyperbolic
    {
      text, cursor, selection := "", 0, NoSelection;
      history := [];
      lastAnswer := None;
      secondMode := InitialFlags();
      currentTab := firstTab;
      hyperbolic := false;
    }

    /** The user selects `[start, end)`, the cursor at one end. */
    method Select(start: nat, end: nat, cursorAtEnd: bool)
      requires Valid() && start < end <= |text|
      modifies this
      ensures Valid()
      ensures Buf() == Buffer(old(text), if cursorAtEnd then end else start, Selected(start, end))
      ensures history == old(history) && lastAnswer == old(lastAnswer)
      ensures secondMode == old(secondMode) && currentTab == old(currentTab) && hyperbolic == old(hyperbolic)
    {
      selection := Selected(start, end);
      cursor := if cursorAtEnd then end else start;
    }

    /** `add_to_expression`. */
    method AddToExpression(t: string)
      requires Valid()
      modifies this
      ensures Valid() && Buf() == TextEdit.Insert(old(Buf()), t)
      ensures history == old(history) && lastAnswer == old(lastAnswer)
      ensures secondMode == old(secondMode) && currentTab == old(currentTab) && hyperbolic == old(hyperbolic)
    {
      var c := cursor;
      text := text[..c] + t + text[c..];
      cursor := c + |t|;
      selection := NoSelection;
    }

    /** `add_function`. */
    method AddFunction(template: string)
      requires Valid()
      modifies this
      ensures Valid() && Buf() == AddFunctionTo(old(Buf()), template)
      ensures history == old(history) && lastAnswer == old(lastAnswer)
      ensures secondMode == old(secondMode) && currentTab == old(currentTab) && hyperbolic == old(hyperbolic)
    {
      if selection.Selected? {
        var s, e := selection.start, selection.end;
        var f := Format(template, text[s..e]);
        text := text[..s] + f + text[e..];
        cursor := s + |f|;
      } else {
        var c := cursor;
        var f := Format(template, "");
        var open := Find(f, "(");
        var close := Find(f, ")");
        text := text[..c] + f + text[c..];
        if open >= 0 && close >= 0 {
          cursor := c + open + 1;
        } else {
          cursor := c + |f|;
        }
      }
      selection := NoSelection;
    }

    /** `toggle_sign`. */
    method ToggleSign()
      requires Valid()
      modifies this
      ensures Valid() && Buf() == ToggleSignIn(old(Buf()))
      ensures history == old(history) && lastAnswer == old(lastAnswer)
      ensures secondMode == old(secondMode) && currentTab == old(currentTab) && hyperbolic == old(hyperbolic)
    {
      if selection.Selected? {
        var s, e := selection.start, selection.end;
        var negated := "(-1)*(" + text[s..e] + ")";
        text := text[..s] + negated + text[e..];
        cursor := s + |negated|;
        selection := NoSelection;
      } else {
        AddToExpression("(-1)*");
      }
    }

    /** `insert_answer`: the last answer is typed at the cursor when there is
        one; otherwise nothing changes. */
    method InsertAnswer()
      requires Valid()
      modifies this
      ensures Valid()
      ensures lastAnswer.Some? ==> Buf() == TextEdit.Insert(old(Buf()), lastAnswer.value)
      ensures lastAnswer.None? ==> Buf() == old(Buf())
      ensures history == old(history) && lastAnswer == old(lastAnswer)
      ensures secondMode == old(secondMode) && currentTab == old(currentTab) && hyperbolic == old(hyperbolic)
    {
      if lastAnswer.Some? {
        AddToExpression(lastAnswer.value);
      }
    }

    /** `add_to_history`: one entry at the end. */
    method AddToHistory(item: string)
      modifies this
      ensures history == old(history) + [item]
      ensures Buf() == old(Buf()) && lastAnswer == old(lastAnswer)
      ensures secondMode == old(secondMode) && currentTab == old(currentTab) && hyperbolic == old(hyperbolic)
    {
      history := history + [item];
    }

    /** The rewriting steps of `calculate`, in order: a trailing `=` dropped
        and the rest stripped, the display operators substituted, and in DEG
        mode the six guarded replaces. */
    method Rewritten(expression: string) returns (input: string)
      ensures input == EngineInput(angleMode, expression)
    {
      input := expression;
      if EndsWith(input, "=") {
        input := Strip(input[..|input| - 1]);
      }
      input := Replace(Replace(input, "×", "*"), "÷", "/");
      if angleMode == Deg {
        if Contains(input, "sin(") { input := Replace(input, "sin(", "sin(pi/180*"); }
        if Contains(input, "cos(") { input := Replace(input, "cos(", "cos(pi/180*"); }
        if Contains(input, "tan(") { input := Replace(input, "tan(", "tan(pi/180*"); }
        if Contains(input, "asin(") { input := Replace(input, "asin(", "(180/pi)*asin("); }
        if Contains(input, "acos(") { input := Replace(input, "acos(", "(180/pi)*acos("); }
        if Contains(input, "atan(") { input := Replace(input, "atan(", "(180/pi)*atan("); }
      }
    }

    /** `calculate`: the line is left alone. When the engine evaluates the
        rewritten text the result becomes the last answer, even if it cannot
        be rendered; the result is returned and one history entry added only
        when it is also rendered. */
    method Calculate(eval: Evaluator) returns (result: Option<string>)
      modifies this
      ensures var e := eval(EngineInput(angleMode, old(text)));
        && history == old(history) + HistoryEntries(old(text), e)
        && (result.Some? <==> old(text) != "" && Rendered(e))
        && (result.Some? ==> result.value == e.value.text)
        && lastAnswer == (if old(text) != "" && e.Some? then Some(e.value.text) else old(lastAnswer))
      ensures Buf() == old(Buf())
      ensures secondMode == old(secondMode) && currentTab == old(currentTab) && hyperbolic == old(hyperbolic)
    {
      if text == "" {
        return None;
      }
      var expression := Rewritten(text);
      var e := eval(expression);
      if e.None? {
        return None;
      }
      lastAnswer := Some(e.value.text);
      if e.value.latex.None? {
        return None;
      }
      AddToHistory(HistoryItem(text, e.value.text));
      result := Some(e.value.text);
    }

    /** `toggle_second_mode`: only the given tab's flag flips. */
    method ToggleSecondMode(tab: string)
      modifies this
      ensures secondMode == Flip(old(secondMode), tab)
      ensures Buf() == old(Buf()) && history == old(history) && lastAnswer == old(lastAnswer)
      ensures currentTab == old(currentTab) && hyperbolic == old(hyperbolic)
    {
      if tab in secondMode {
        secondMode := secondMode[tab := !secondMode[tab]];
      }
    }

    /** `on_tab_changed`: the entered tab becomes current and its flag is
        cleared. */
    method OnTabChanged(tab: string)
      modifies this
      ensures currentTab == tab && secondMode == Reset(old(secondMode), tab)
      ensures TabLabels(tab) == Labels(TabRules(tab), false)
      ensures Buf() == old(Buf()) && history == old(history) && lastAnswer == old(lastAnswer)
      ensures hyperbolic == old(hyperbolic)
    {
      currentTab := tab;
      secondMode := Reset(secondMode, tab);
      TabShowsNormal(old(secondMode), tab);
    }

    /** `toggle_hyperbolic`. */
    method ToggleHyperbolic()
      modifies this
      ensures hyperbolic == !old(hyperbolic)
      ensures Buf() == old(Buf()) && history == old(history) && lastAnswer == old(lastAnswer)
      ensures secondMode == old(secondMode) && currentTab == old(currentTab)
    {
      hyperbolic := !hyperbolic;
    }

    /** `insert_sqrt`. */
    method InsertSqrt()
      requires Valid()
      modifies this
      ensures Valid() && Buf() == AddFunctionTo(old(Buf()), SqrtTemplate(IsSecond(secondMode, currentTab)))
      ensures history == old(history) && lastAnswer == old(lastAnswer)
      ensures secondMode == old(secondMode) && currentTab == old(currentTab) && hyperbolic == old(hyperbolic)
    {
      AddFunction(SqrtTemplate(IsSecond(secondMode, currentTab)));
    }

    /** `insert_log`. */
    method InsertLog()
      requires Valid()
      modifies this
      ensures Valid() && Buf() == AddFunctionTo(old(Buf()), LogTemplate(IsSecond(secondMode, currentTab)))
      ensures history == old(history) && lastAnswer == old(lastAnswer)
      ensures secondMode == old(secondMode) && currentTab == old(currentTab) && hyperbolic == old(hyperbolic)
    {
      AddFunction(LogTemplate(IsSecond(secondMode, currentTab)));
    }

    /** `insert_trig_function`, with the inverse prefix added once. */
    method InsertTrigFunction(name: string)
      requires Valid()
      modifies this
      ensures Valid()
      ensures Buf() == AddFunctionTo(old(Buf()), TrigTemplate(name, IsSecond(secondMode, currentTab), hyperbolic))
      ensures history == old(history) && lastAnswer == old(lastAnswer)
      ensures secondMode == old(secondMode) && currentTab == old(currentTab) && hyperbolic == old(hyperbolic)
    {
      AddFunction(TrigTemplate(name, IsSecond(secondMode, currentTab), hyperbolic));
    }
  }
}
