/**
 * The per-tab "2nd" flags of NewCalculator and NewKalculate and the button
 * labels they select. `second_mode` is a dictionary from tab object name to
 * a flag; the 2nd button of a tab flips its flag, entering a tab clears it,
 * and every labelled button of the tab shows its normal or its second text
 * according to the flag.
 */
module SecondMode {
  import opened PyStr

  /** The object names of the seven calculator tabs. */
  const Tabs: seq<string> :=
    ["basic_tab", "tab_alge", "trigo_tab", "calcu_tab", "tab_stat", "tab_marset", "tab_char"]

  type Flags = map<string, bool>

  /** The dictionary built in `__init__`: every tab present, every flag off. */
  function InitialFlags(): (m: Flags)
    ensures m.Keys == set t | t in Tabs
    ensures forall t :: t in m ==> !m[t]
  {
    map t | t in Tabs :: false
  }

  /** `second_mode.get(tab, False)`. */
  function IsSecond(m: Flags, tab: string): (b: bool)
    ensures b <==> tab in m && m[tab]
  {
    if tab in m then m[tab] else false
  }

  /** `second_mode[tab] = not second_mode[tab]`; a tab that is not a key
      raises KeyError inside the Qt slot and nothing changes. */
  function Flip(m: Flags, tab: string): (r: Flags)
    ensures r.Keys == m.Keys
    ensures tab in m ==> r[tab] == !m[tab]
    ensures forall t :: t in m && t != tab ==> r[t] == m[t]
  {
    if tab in m then m[tab := !m[tab]] else m
  }

  /** `on_tab_changed`: the entered tab's flag is cleared when it is a key. */
  function Reset(m: Flags, tab: string): (r: Flags)
    ensures r.Keys == m.Keys
    ensures tab in m ==> !r[tab]
    ensures forall t :: t in m && t != tab ==> r[t] == m[t]
  {
    if tab in m then m[tab := false] else m
  }

  /** Pressing a tab's 2nd button twice restores every flag. */
  lemma FlipTwice(m: Flags, tab: string)
    ensures Flip(Flip(m, tab), tab) == m
  {
  }

  /** Entering a tab forgets whether its 2nd button was pressed. */
  lemma ResetAfterFlip(m: Flags, tab: string)
    ensures Reset(Flip(m, tab), tab) == Reset(m, tab)
  {
  }

  /** After entering a tab, its buttons show their normal labels. */
  lemma ResetShowsNormal(m: Flags, tab: string)
    ensures !IsSecond(Reset(m, tab), tab)
  {
  }

  /** One labelled button: its object name, its normal text and the text it
      shows while its tab's flag is set. */
  datatype LabelRule = LabelRule(button: string, normal: string, second: string)

  /** The text `setText` gives the button for a flag value. */
  function Shown(r: LabelRule, second: bool): string {
    if second then r.second else r.normal
  }

  /** The (button, text) pairs a label table sets for a flag value. */
  function Labels(rules: seq<LabelRule>, second: bool): (labels: seq<(string, string)>)
    ensures |labels| == |rules|
    ensures forall i :: 0 <= i < |rules| ==>
      labels[i].0 == rules[i].button && labels[i].1 in {rules[i].normal, rules[i].second}
  {
    if rules == [] then [] else [(rules[0].button, Shown(rules[0], second))] + Labels(rules[1..], second)
  }

  /** The labels shown depend on the flag alone: a tab whose 2nd button was
      pressed twice shows the same labels as before. */
  lemma {:induction false} LabelsAfterFlipTwice(rules: seq<LabelRule>, m: Flags, tab: string)
    ensures Labels(rules, IsSecond(Flip(Flip(m, tab), tab), tab)) == Labels(rules, IsSecond(m, tab))
  {
    FlipTwice(m, tab);
  }

  /** A table sets each button to its second text exactly when the flag is
      set, and to its normal text when it is clear. */
  lemma {:induction false} LabelsFollowFlag(rules: seq<LabelRule>, second: bool, i: int)
    requires 0 <= i < |rules|
    ensures Labels(rules, second)[i] == (rules[i].button, if second then rules[i].second else rules[i].normal)
    decreases |rules|
  {
    if i > 0 { LabelsFollowFlag(rules[1..], second, i - 1); }
  }

  /** The basic tab: `log` becomes `ln`, `√` becomes `x²`. */
  const BasicRules: seq<LabelRule> :=
    [LabelRule("pushButton_log", "log", "ln"), LabelRule("pushButton_root", "√", "x²")]

  /** The trigonometry tab: each function becomes its inverse. */
  const TrigRules: seq<LabelRule> := [
    LabelRule("pushButton_sin", "sin", "asin"), LabelRule("pushButton_cos", "cos", "acos"),
    LabelRule("pushButton_tan", "tan", "atan"), LabelRule("pushButton_cot", "cot", "acot"),
    LabelRule("pushButton_sec", "sec", "asec"), LabelRule("pushButton_csc", "csc", "acsc")]

  /** The second label of every trigonometry button is its normal label with
      the prefix `a`. */
  lemma TrigSecondIsInverse()
    ensures forall r :: r in TrigRules ==> r.second == "a" + r.normal
  {
  }

  /** The calculus tab of NewKalculate: derivative and integral. */
  const CalculusRules: seq<LabelRule> :=
    [LabelRule("pushButton_diff", "'", "∂"), LabelRule("pushButton_inter", "∫", "∬")]

  /** The lower-case ASCII letters, in order. */
  const Letters: string := "abcdefghijklmnopqrstuvwxyz"

  /** One rule per letter button `pushButton_<letter>`: the letter, and its
      upper case in 2nd mode. */
  function LetterRules(letters: string): (rules: seq<LabelRule>)
    ensures |rules| == |letters|
    ensures forall i :: 0 <= i < |letters| ==>
      rules[i] == LabelRule("pushButton_" + [letters[i]], [letters[i]], [UpperAscii(letters[i])])
  {
    if letters == [] then []
    else [LabelRule("pushButton_" + [letters[0]], [letters[0]], [UpperAscii(letters[0])])]
         + LetterRules(letters[1..])
  }

  /** Greek letter buttons, alpha to mu: lower case, and upper case in 2nd
      mode ... */
  const GreekRulesAlphaToMu: seq<LabelRule> := [
    LabelRule("pushButton_alph", "α", "Α"), LabelRule("pushButton_beta", "β", "Β"),
    LabelRule("pushButton_gama", "γ", "Γ"), LabelRule("pushButton_delt", "δ", "Δ"),
    LabelRule("pushButton_epsi", "ε", "Ε"), LabelRule("pushButton_zeta", "ζ", "Ζ"),
    LabelRule("pushButton_eta", "η", "Η"), LabelRule("pushButton_thet", "θ", "Θ"),
    LabelRule("pushButton_iota", "ι", "Ι"), LabelRule("pushButton_kapa", "κ", "Κ"),
    LabelRule("pushButton_lamd", "λ", "Λ"), LabelRule("pushButton_mu", "μ", "Μ")]

  /** ... and nu to omega. */
  const GreekRulesNuToOmega: seq<LabelRule> := [
    LabelRule("pushButton_nu", "ν", "Ν"), LabelRule("pushButton_ksi", "ξ", "Ξ"),
    LabelRule("pushButton_omic", "ο", "Ο"), LabelRule("pushButton_pi", "π", "Π"),
    LabelRule("pushButton_rho", "ρ", "Ρ"), LabelRule("pushButton_sigm", "σ", "Σ"),
    LabelRule("pushButton_tau", "τ", "Τ"), LabelRule("pushButton_upsi", "υ", "Υ"),
    LabelRule("pushButton_phi", "φ", "Φ"), LabelRule("pushButton_chi", "χ", "Χ"),
    LabelRule("pushButton_psi", "ψ", "Ψ"), LabelRule("pushButton_omeg", "ω", "Ω")]

  /** The Greek letter buttons in the order the source lists them. */
  const GreekRules: seq<LabelRule> := GreekRulesAlphaToMu + GreekRulesNuToOmega

  /** The eight extra symbol buttons of the character tab. */
  const SymbolRules: seq<LabelRule> := [
    LabelRule("pushButton_sym1", "∞", "⊥"), LabelRule("pushButton_sym2", "z̄", "‖"),
    LabelRule("pushButton_sym3", "%", "♯"), LabelRule("pushButton_sym4", "mod", "♭"),
    LabelRule("pushButton_sym5", "∂", "♮"), LabelRule("pushButton_sym6", "!", "♦"),
    LabelRule("pushButton_sym7", "a/b", "♣"), LabelRule("pushButton_sym8", "°", "♠")]

  /** The character tab: letters, Greek letters, then the symbols. */
  function CharacterRules(): seq<LabelRule> {
    LetterRules(Letters) + GreekRules + SymbolRules
  }

  /** Only lower-case ASCII letters, as in `Letters`. */
  predicate LowerLetters(letters: string) {
    forall i :: 0 <= i < |letters| ==> 'a' <= letters[i] <= 'z'
  }

  /** In 2nd mode every letter button shows the upper case of the letter it
      shows normally. */
  lemma LetterLabelsUpper(letters: string, i: int)
    requires LowerLetters(letters) && 0 <= i < |letters|
    ensures var r := LetterRules(letters)[i];
      && r.normal == [letters[i]]
      && r.second == [UpperAscii(letters[i])]
      && 'A' <= r.second[0] <= 'Z'
      && r.second[0] as int == r.normal[0] as int - 32
  {
  }

  /** A label is one alphabetic character. */
  predicate OneLetter(t: string) {
    |t| == 1 && IsAlpha(t[0])
  }

  lemma GreekFirstHalfAlphabetic(r: LabelRule)
    requires r in GreekRulesAlphaToMu
    ensures OneLetter(r.normal) && OneLetter(r.second)
  {
  }

  lemma GreekSecondHalfAlphabetic(r: LabelRule)
    requires r in GreekRulesNuToOmega
    ensures OneLetter(r.normal) && OneLetter(r.second)
  {
  }

  /** Both labels of every Greek letter button are one alphabetic
      character. */
  lemma GreekLabelsAlphabetic(r: LabelRule)
    requires r in GreekRules
    ensures OneLetter(r.normal) && OneLetter(r.second)
  {
    if r in GreekRulesAlphaToMu {
      GreekFirstHalfAlphabetic(r);
    } else {
      GreekSecondHalfAlphabetic(r);
    }
  }

  /** Both labels of every letter button are one alphabetic character. */
  lemma LetterLabelsAlphabetic(letters: string, r: LabelRule)
    requires LowerLetters(letters) && r in LetterRules(letters)
    ensures OneLetter(r.normal) && OneLetter(r.second)
  {
    var i :| 0 <= i < |letters| && LetterRules(letters)[i] == r;
  }
}
