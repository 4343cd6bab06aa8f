# Kalculate calculators in Dafny

Kalculate is a set of desktop scientific calculators written in Python with a
Qt user interface and SymPy as the symbolic engine. This project models the
controller logic of three of them:

- `Kalculate.py`, the first calculator. Its controller has an expression line
  edit with cursor-aware editing buttons, a RAD/DEG setting, and an evaluation
  request that rewrites the text before the engine sees it. It also keeps a
  history list that can be replayed, and has two LaTeX converters built from
  ordered tables of `str.replace` rules.
- `NewCalculator.py`. It adds placeholder templates (`sqrt({})`, `log({}, 10)`
  and others), a sign toggle and answer recall. Each tab has a "2nd" flag that
  switches its button labels. A long `on_button_clicked` dispatch chain
  handles the buttons.
- `NewKalculate.py`. It inserts templates by placeholder index and has its
  own dispatch chain. Any expression holding `=` goes to the equation solver,
  which rewrites `L=R` into `(L)-(R)` and formats the solutions.

The model is split into eight modules:

- `PyStr` holds the Python string operations the controllers rely on, with
  Python's semantics: `in`, `find`, `replace`, `strip`, `isalpha`, `upper`
  and `format` with a single `{}`.
- `TextEdit` is the line edit's text, cursor and selection, with the two
  splices every calculator performs on them.
- `Engine` is the SymPy engine, reduced to a possibly failing function
  parameter, plus the history entry format.
- `Rewrite` holds the text rewriting done before evaluation: the trailing
  `=`, the `×`/`÷` substitution and the degree-mode chain.
- `SecondMode` holds the per-tab 2nd flags and the label tables.
- `Kalculate`, `NewCalculator` and `NewKalculate` model the three
  controllers.

The controllers' state lives in a `class Calculator` per file. Its fields are
updated in place, as in the source: the expression text, the cursor, the
selection, the history list, the angle mode, the 2nd flags, the last answer
and the current tab. Pure parts are functions with lemmas about them: the
dispatch chains, the templates, the rewrites and the label tables.

Two parts of the code do not do what their own tables and comments
suggest. Lemmas state what the code does:

- Both LaTeX tables of `Kalculate.py` have a `**` rule and a `1/(` rule,
  but the `*` and `/` rules come first, so those two rules never fire
  (`Kalculate.DeadPowerAndFractionRules`).
- The comment at `Kalculate.py:804` says inverse-function results are
  converted from radians to degrees, but the chain as written also scales
  the argument; see Findings.

Where Findings records a defect, the as-written behaviour and the corrected
one are both defined and related by lemmas. The `Calculator` methods
use the corrected behaviour; their rows say so.

## Model

| member | source | states |
|---|---|---|
| Engine.HistoryItem | Python/Kalculate/NewKalculate.py:588 | the entry is the expression, then `" = "`, then the result, and nothing else |
| Engine.HistoryEntries | Python/Kalculate/Kalculate.py:786-822 | one evaluation adds at most one entry; it adds one exactly when the expression is non-empty and the engine both parses and renders it, and that entry is `"<expression> = <result>"` |
| TextEdit.Buffer.SelectedText | Python/Kalculate/Kalculate.py:533-536 | `selectedText()` is non-empty exactly when there is a selection |
| TextEdit.QtCursor | Python/Kalculate/Kalculate.py:591-593 | `setCursorPosition` after `setText` keeps a position inside the text, clamps a negative one to 0 and leaves the cursor at the end for one past it |
| TextEdit.Insert | Python/Kalculate/NewKalculate.py:517-526 | an insertion at the cursor leaves a valid line with no selection |
| TextEdit.InsertPlacesText | Python/Kalculate/NewKalculate.py:517-526 | the text before and after the cursor is kept, exactly `t` sits between them, and the cursor lands right after `t` |
| TextEdit.ReplaceSelection | Python/Kalculate/NewCalculator.py:468-476 | replacing the selection leaves a valid line with no selection |
| TextEdit.ReplaceSelectionPlacesText | Python/Kalculate/NewCalculator.py:468-476 | the text before and after the selection is kept, exactly `t` takes its place, and the cursor lands after `t` |
| PyStr.Find | Python/Kalculate/NewCalculator.py:483-484 | `find` returns the first index at which the pattern occurs, or -1 when it occurs nowhere |
| PyStr.EndsWith | Python/Kalculate/Kalculate.py:792 | `str.endswith`: holds for any text followed by `p`, and a text ending with `p` is its prefix followed by `p` (`EndsWithAppend`) |
| PyStr.EndsWithAppend | Python/Kalculate/NewCalculator.py:514 | every `t + p` ends with `p`, and a text that ends with `p` is its prefix followed by `p` |
| PyStr.ContainsIff | Python/Kalculate/NewKalculate.py:573 | `p in s` holds exactly when `p` occurs somewhere in `s` |
| PyStr.Contains | Python/Kalculate/NewKalculate.py:573 | `p in s` on strings; it holds exactly when `p` occurs in `s` (`ContainsIff`) |
| PyStr.ContainsAfter | Python/Kalculate/NewKalculate.py:663 | a substring of the tail of a text is a substring of the whole text |
| PyStr.ContainsChar | Python/Kalculate/NewCalculator.py:122 | a one-character substring test is a character membership test |
| PyStr.ReplaceAbsent | Python/Kalculate/Kalculate.py:162 | replacing a pattern that does not occur leaves the text unchanged |
| PyStr.ReplaceKeepsAbsent | Python/Kalculate/Kalculate.py:162 | a character in neither the text nor the replacement is not in the result |
| PyStr.ReplaceRemovesChar | Python/Kalculate/Kalculate.py:812 | replacing a character by text without it removes every occurrence |
| PyStr.ReplaceSkip | Python/Kalculate/Kalculate.py:799 | a first character that cannot start the pattern is kept, and replacing continues after it |
| PyStr.ReplaceHit | Python/Kalculate/Kalculate.py:799 | a leading occurrence is replaced, and replacing continues after it |
| PyStr.ReplaceSkipSecond | Python/Kalculate/Kalculate.py:809 | a first character that starts the pattern but is followed by one that does not continue it is kept, and replacing goes on after it |
| PyStr.ReplaceMissingChar | Python/Kalculate/Kalculate.py:798-810 | a pattern with a character the text lacks is not contained, and replacing it changes nothing |
| PyStr.Replace | Python/Kalculate/Kalculate.py:159-164 | `str.replace`: occurrences are replaced left to right without overlap (`ReplaceHit`, `ReplaceSkip`); an absent pattern changes nothing (`ReplaceAbsent`); a one-character pattern not in its replacement leaves no occurrence (`ReplaceRemovesChar`) |
| PyStr.LStrip | Python/Kalculate/Kalculate.py:1069 | the result is a suffix of the text with no leading whitespace, and only whitespace was dropped |
| PyStr.RStrip | Python/Kalculate/Kalculate.py:1069 | the result is a prefix of the text with no trailing whitespace, and only whitespace was dropped |
| PyStr.StripShape | Python/Kalculate/Kalculate.py:1069 | a stripped text is empty or starts and ends with a non-blank character |
| PyStr.StripIdempotent | Python/Kalculate/Kalculate.py:1069 | stripping twice is stripping once |
| PyStr.Strip | Python/Kalculate/Kalculate.py:1069 | `str.strip`: the result is empty or has non-blank ends (`StripShape`), only whitespace is dropped (`LStrip`, `RStrip`), and stripping twice is stripping once (`StripIdempotent`) |
| PyStr.StripNoSpace | Python/Kalculate/Kalculate.py:1069 | a text that neither starts nor ends with whitespace is its own strip |
| PyStr.StripAppendSpace | Python/Kalculate/Kalculate.py:1069 | trailing whitespace does not survive `strip()` |
| PyStr.StripKeepsLast | Python/Kalculate/Kalculate.py:621 | a text ending in a non-blank character still ends with it after `strip()` |
| PyStr.UpperAscii | Python/Kalculate/NewCalculator.py:388 | `upper()` maps a lower-case ASCII letter 32 code points down to an upper-case one and leaves other characters alone |
| PyStr.IsAlpha | Python/Kalculate/NewCalculator.py:205 | `str.isalpha` on the keypad's characters, the ASCII and Greek letters; both labels of every letter and Greek button satisfy it (`LetterLabelsAlphabetic`, `GreekLabelsAlphabetic`) |
| PyStr.Format | Python/Kalculate/NewKalculate.py:535 | a template without `{}` is unchanged; otherwise the length changes by `len(arg) - 2` |
| PyStr.FindIsFirst | Python/Kalculate/NewKalculate.py:544 | an occurrence with none before it is what `find` returns |
| PyStr.FindChar | Python/Kalculate/NewCalculator.py:483 | the first occurrence of a character is what `find` returns |
| PyStr.FindPlaceholder | Python/Kalculate/NewKalculate.py:544 | in `f({}rest)` with no brace in `f`, the placeholder is found right after the `(` |
| PyStr.FormatPlaceholder | Python/Kalculate/NewCalculator.py:480 | formatting `f({}rest)` puts the argument right after the `(` |
| PyStr.FormatCall | Python/Kalculate/Kalculate.py:585 | formatting `f({})` puts the argument between the parentheses |
| Rewrite.Toggle | Python/Kalculate/Kalculate.py:225-230 | toggling always changes the angle mode |
| Rewrite.ToggleTwice | Python/Kalculate/Kalculate.py:225-230 | toggling twice restores the mode |
| Rewrite.DropTrailingEquals | Python/Kalculate/Kalculate.py:791-793 | a trailing `=` is the only thing removed, and text without one is unchanged |
| Rewrite.SubstituteOperators | Python/Kalculate/Kalculate.py:812 | no `×` or `÷` reaches the engine |
| Rewrite.SubstituteOperatorsIdentity | Python/Kalculate/Kalculate.py:812 | text without `×` and `÷` is passed unchanged |
| Rewrite.ReplaceIfPresentIsReplace | Python/Kalculate/Kalculate.py:798-810 | the `if p in e` guard in front of each replace changes nothing |
| Rewrite.ReplaceIfPresent | Python/Kalculate/Kalculate.py:798-799 | the `if p in e: e = e.replace(p, r)` form; its guard changes nothing (`ReplaceIfPresentIsReplace`) |
| Rewrite.DirectRulesAsWritten | Python/Kalculate/Kalculate.py:798-803 | the three direct replaces: a direct call on a number has its argument scaled (`DirectRulesOnSin`, `DirectRulesOnCos`, `DirectRulesOnTan`), and so does an inverse call, inside which they match (`DirectRulesInsideAsin`, `DirectRulesInsideAcos`, `DirectRulesInsideAtan`) |
| Rewrite.InverseRulesAsWritten | Python/Kalculate/Kalculate.py:805-810 | the three inverse replaces: a text without `a` and a scaled `tan(` call are unchanged (`InverseRulesSkip`, `InverseRulesOnScaledTan`), and a scaled inverse call gets `(180/pi)*` in front (`InverseRulesAfterScaling`, `InverseRulesAfterScalingAcos`, `InverseRulesAfterScalingAtan`) |
| Rewrite.GuardSkips | Python/Kalculate/Kalculate.py:800-801 | a guarded rule whose pattern has a character the text lacks leaves the text alone |
| Rewrite.GuardHitsAtStart | Python/Kalculate/Kalculate.py:805-806 | a guarded rule rewrites only the leading pattern when the rest cannot hold it |
| Rewrite.GuardHitsAfterFirst | Python/Kalculate/Kalculate.py:798-799 | the same behind a first character that cannot start the pattern |
| Rewrite.SinRuleInsideAsin | Python/Kalculate/Kalculate.py:798-799 | the `sin(` rule also fires inside `asin(`, scaling its argument |
| Rewrite.AsinRuleAfterSinRule | Python/Kalculate/Kalculate.py:805-806 | the `asin(` rule then scales the result of the already rewritten call |
| Rewrite.DirectRulesInsideAsin | Python/Kalculate/Kalculate.py:798-803 | the three direct rules turn `asin(x)` on a number into `asin(pi/180*x)` |
| Rewrite.InverseRulesAfterScaling | Python/Kalculate/Kalculate.py:805-810 | the three inverse rules then put `(180/pi)*` in front of that call |
| Rewrite.SinRuleOnSin | Python/Kalculate/Kalculate.py:798-799 | the `sin(` rule scales the argument of a leading `sin(` |
| Rewrite.DirectRulesOnSin | Python/Kalculate/Kalculate.py:798-803 | the three direct rules turn `sin(x)` on a number into `sin(pi/180*x)` |
| Rewrite.InverseRulesSkip | Python/Kalculate/Kalculate.py:805-810 | a text without the letter `a` passes the three inverse rules unchanged |
| Rewrite.DegreeChainScalesInverseArgument | Python/Kalculate/Kalculate.py:796-810 | as written, `asin(x)` on a number is converted twice, argument and result |
| Rewrite.DegreeChainScalesDirectArgument | Python/Kalculate/Kalculate.py:796-810 | as written, `sin(x)` on a number has its argument scaled once |
| Rewrite.DirectRulesOnCos | Python/Kalculate/Kalculate.py:798-803 | the direct rules turn `cos(x)` on a number into `cos(pi/180*x)` |
| Rewrite.DirectRulesOnTan | Python/Kalculate/Kalculate.py:798-803 | the direct rules turn `tan(x)` on a number into `tan(pi/180*x)` |
| Rewrite.InverseRulesOnScaledTan | Python/Kalculate/Kalculate.py:805-810 | the inverse rules leave a scaled `tan(` call alone: its `a` does not start `atan(` |
| Rewrite.AtanRuleSkipsTan | Python/Kalculate/Kalculate.py:809-810 | the `atan(` rule leaves a scaled `tan(` call alone |
| Rewrite.DegreeChainScalesCos | Python/Kalculate/Kalculate.py:796-810 | as written, `cos(x)` on a number has its argument scaled once |
| Rewrite.DegreeChainScalesTan | Python/Kalculate/Kalculate.py:796-810 | as written, `tan(x)` on a number has its argument scaled once |
| Rewrite.DirectRulesInsideAcos | Python/Kalculate/Kalculate.py:798-803 | the `cos(` rule matches inside `acos(`, so `acos(x)` becomes `acos(pi/180*x)` |
| Rewrite.CosRuleInsideAcos | Python/Kalculate/Kalculate.py:800-801 | the `cos(` rule matches inside `acos(` and scales its argument |
| Rewrite.DirectRulesInsideAtan | Python/Kalculate/Kalculate.py:798-803 | the `tan(` rule matches inside `atan(`, so `atan(x)` becomes `atan(pi/180*x)` |
| Rewrite.AcosRuleAfterCosRule | Python/Kalculate/Kalculate.py:807-808 | the `acos(` rule then prefixes the already scaled call with `(180/pi)*` |
| Rewrite.AtanRuleAfterTanRule | Python/Kalculate/Kalculate.py:809-810 | the `atan(` rule then prefixes the already scaled call with `(180/pi)*` |
| Rewrite.AsinRuleSkipsAcos | Python/Kalculate/Kalculate.py:805-806 | the `asin(` rule leaves a scaled `acos(` call alone |
| Rewrite.AtanRuleSkipsAcos | Python/Kalculate/Kalculate.py:809-810 | the `atan(` rule leaves a converted `acos(` call alone |
| Rewrite.InverseRulesAfterScalingAcos | Python/Kalculate/Kalculate.py:805-810 | the inverse rules put `(180/pi)*` in front of a scaled `acos(` call |
| Rewrite.InverseRulesAfterScalingAtan | Python/Kalculate/Kalculate.py:805-810 | the inverse rules put `(180/pi)*` in front of a scaled `atan(` call |
| Rewrite.DegreeChainScalesAcos | Python/Kalculate/Kalculate.py:796-810 | as written, `acos(x)` on a number is converted twice, argument and result |
| Rewrite.DegreeChainScalesAtan | Python/Kalculate/Kalculate.py:796-810 | as written, `atan(x)` on a number is converted twice, argument and result |
| Rewrite.DegreeChainDirectCall | Python/Kalculate/Kalculate.py:796-810 | as written, every direct call `f(x)` on a number becomes `f(pi/180*x)` |
| Rewrite.DegreeChainInverseCall | Python/Kalculate/Kalculate.py:796-810 | as written, every inverse call `f(x)` on a number becomes `(180/pi)*f(pi/180*x)` |
| Rewrite.CallPlain | Python/Kalculate/Kalculate.py:812 | a call on a number holds no `×` or `÷` and ends with `)`, so the other rewriting steps leave it alone |
| Rewrite.DegreeChainAsWritten | Python/Kalculate/Kalculate.py:796-810 | the six guarded replaces in source order: a text with no call is unchanged (`DegreeChainNoCall`), each of `sin(x)`, `cos(x)`, `tan(x)` on a number is scaled once (`DegreeChainDirectCall`) and each of `asin(x)`, `acos(x)`, `atan(x)` twice (`DegreeChainInverseCall`) |
| Rewrite.DegreeChainNoCall | Python/Kalculate/Kalculate.py:796-810 | for every text without `(` the chain as written changes nothing, so there it agrees with the intended rewrite |
| Rewrite.DegreeRewrite | Python/Kalculate/Kalculate.py:796-810 | corrected half of Findings: a text with no call is unchanged (`DegreeRewriteNoCall`), a direct call has its argument scaled (`DegreeRewriteDirect`), an inverse call has only its result scaled (`DegreeRewriteInverse`) |
| Rewrite.DegreeRewriteNoCall | Python/Kalculate/Kalculate.py:796-810 | text without a call is left alone by the degree rewrite |
| Rewrite.DegreeRewriteDirect | Python/Kalculate/Kalculate.py:798-803 | a direct call `sin(`/`cos(`/`tan(` gets its argument scaled from degrees to radians, and nothing else changes |
| Rewrite.DegreeRewriteInverse | Python/Kalculate/Kalculate.py:804-810 | an inverse call `asin(`/`acos(`/`atan(` gets its result scaled from radians to degrees, and its argument is left alone |
| Rewrite.DegreeRewriteAgreesOnDirect | Python/Kalculate/Kalculate.py:798-803 | on every direct call `sin(x)`, `cos(x)`, `tan(x)` on a number the intended rewrite and the chain as written agree |
| Rewrite.DegreeRewriteDiffersOnInverse | Python/Kalculate/Kalculate.py:798-810 | on every inverse call `asin(x)`, `acos(x)`, `atan(x)` on a number they differ: the intended rewrite does not scale the argument |
| SecondMode.InitialFlags | Python/Kalculate/NewCalculator.py:42-50 | every one of the seven tabs has a flag, and every flag starts off |
| SecondMode.IsSecond | Python/Kalculate/NewCalculator.py:119 | `get(tab, False)` is set exactly when the tab is a key whose flag is on |
| SecondMode.Flip | Python/Kalculate/NewCalculator.py:235-241 | only the given tab's flag is negated; the keys and every other flag are unchanged |
| SecondMode.Reset | Python/Kalculate/NewCalculator.py:441-449 | the entered tab's flag is cleared; the keys and every other flag are unchanged |
| SecondMode.FlipTwice | Python/Kalculate/NewCalculator.py:235-241 | pressing a 2nd button twice restores every flag |
| SecondMode.ResetAfterFlip | Python/Kalculate/NewCalculator.py:441-449 | entering a tab forgets whether its 2nd button was pressed |
| SecondMode.ResetShowsNormal | Python/Kalculate/NewKalculate.py:351-361 | after entering a tab its flag is clear |
| SecondMode.Labels | Python/Kalculate/NewCalculator.py:293-296 | a table sets one label per button, to the button's normal or second text |
| SecondMode.LabelsAfterFlipTwice | Python/Kalculate/NewCalculator.py:235-241 | labels shown after pressing 2nd twice are the labels shown before |
| SecondMode.LabelsFollowFlag | Python/Kalculate/NewCalculator.py:293-296 | each button shows its second text exactly when the flag is set, else its normal text |
| SecondMode.Shown | Python/Kalculate/NewCalculator.py:296 | `second if is_second else normal`: each button shows its second text exactly when the flag is set (`LabelsFollowFlag`) |
| SecondMode.TrigSecondIsInverse | Python/Kalculate/NewKalculate.py:175-223 | each trigonometry button's second label is its normal label with the prefix `a` |
| SecondMode.LetterRules | Python/Kalculate/NewCalculator.py:384-388 | one rule per letter: the button `pushButton_<letter>`, the letter, and its upper case |
| SecondMode.LetterLabelsUpper | Python/Kalculate/NewCalculator.py:384-388 | in 2nd mode each letter button shows the ASCII upper case of its normal letter |
| SecondMode.GreekFirstHalfAlphabetic | Python/Kalculate/NewCalculator.py:392-403 | Greek labels alpha to mu are single alphabetic characters |
| SecondMode.GreekSecondHalfAlphabetic | Python/Kalculate/NewCalculator.py:404-415 | Greek labels nu to omega are single alphabetic characters |
| SecondMode.GreekLabelsAlphabetic | Python/Kalculate/NewCalculator.py:391-422 | both labels of every Greek letter button are one alphabetic character |
| SecondMode.LetterLabelsAlphabetic | Python/Kalculate/NewCalculator.py:384-388 | both labels of every letter button are one alphabetic character |
| SecondMode.CharacterRules | Python/Kalculate/NewCalculator.py:379-439 | the character tab's table: the letters, then the Greek letters, then the symbols; both labels of every letter and Greek button are one alphabetic character (`LetterLabelsAlphabetic`, `GreekLabelsAlphabetic`) |
| Kalculate.ApplyReplacements | Python/Kalculate/Kalculate.py:159-164 | the loop applies every rule of the table in order, each to the previous result |
| Kalculate.ApplyRules | Python/Kalculate/Kalculate.py:159-164 | the table applied rule by rule in order: it splits at any rule (`ApplyRulesSplit`), keeps absent characters absent (`ApplyRulesKeepsAbsent`), and a one-character rule removes its character unless a later replacement brings it back (`ApplyRulesRemoves`) |
| Kalculate.ApplyRulesSplit | Python/Kalculate/Kalculate.py:161-162 | applying a table is applying its first `k` rules and then the rest |
| Kalculate.ApplyRulesKeepsAbsent | Python/Kalculate/Kalculate.py:161-162 | a character in neither the text nor any replacement is not in the result |
| Kalculate.ApplyRulesRemoves | Python/Kalculate/Kalculate.py:161-162 | a one-character rule removes its character for good when no later rule puts it back |
| Kalculate.ApplyRulesEmpty | Python/Kalculate/Kalculate.py:161-162 | with no empty pattern, the empty text stays empty |
| Kalculate.LatexTableShape | Python/Kalculate/Kalculate.py:145-157 | no pattern of `convert_to_latex` is empty, and the replacements come from a fixed set |
| Kalculate.ImprovedLatexTableShape | Python/Kalculate/Kalculate.py:169-194 | the same for `convert_to_latex_improved` |
| Kalculate.LatexReplacementsClean | Python/Kalculate/Kalculate.py:147-156 | no replacement puts back a `*`, `/` or `)` |
| Kalculate.ImprovedLatexReplacementsClean | Python/Kalculate/Kalculate.py:174-193 | no replacement puts back a `*`, `/` or `)` |
| Kalculate.RemovedFromTable | Python/Kalculate/Kalculate.py:161-162 | a one-character rule removes its character when every later replacement lacks it |
| Kalculate.LatexRemovesOperators | Python/Kalculate/Kalculate.py:142-164 | `convert_to_latex` leaves no `*`, `/` or `)`, and the empty text stays empty |
| Kalculate.ImprovedLatexRemovesOperators | Python/Kalculate/Kalculate.py:166-201 | `convert_to_latex_improved` leaves no `*`, `/` or `)`, and the empty text stays empty |
| Kalculate.ConvertToLatex | Python/Kalculate/Kalculate.py:142-164 | the converter is the table applied in order; its output has no `*`, `/` or `)`, and the empty text maps to empty |
| Kalculate.ConvertToLatexImproved | Python/Kalculate/Kalculate.py:166-201 | the same for the improved converter |
| Kalculate.DeadRule | Python/Kalculate/Kalculate.py:197-199 | a rule whose pattern holds a character that an earlier rule removed never fires |
| Kalculate.DeadPowerAndFractionRules | Python/Kalculate/Kalculate.py:145-194 | in both tables the `**` and `1/(` rules never fire, because the `*` and `/` rules come first |
| Kalculate.NoFraction | Python/Kalculate/Kalculate.py:189-193 | so `\frac` never appears: an input without `f` gives an output without `f` |
| Kalculate.AddWithCursorAsWritten | Python/Kalculate/Kalculate.py:530-571 | as written, `code + selection + ")"` is inserted at the cursor and the selected text stays where it is; the cursor goes after the `)` when there was a selection and before it otherwise; the result has no selection |
| Kalculate.AddWithCursorDuplicatesSelection | Python/Kalculate/Kalculate.py:536-566 | as written, selecting `2` and pressing `√` gives `2sqrt(2)`; the intended operation gives `sqrt(2)` |
| Kalculate.AddWithCursor | Python/Kalculate/Kalculate.py:530-571 | the intended operation leaves a valid line with no selection |
| Kalculate.AddWithCursorWraps | Python/Kalculate/Kalculate.py:530-571 | a selection is replaced by `code + selection + ")"` with the text around it kept; without one, `code` then `)` go in at the cursor, which stops before the `)` |
| Kalculate.AddFunctionTo | Python/Kalculate/Kalculate.py:573-594 | `add_function` leaves a valid line with no selection |
| Kalculate.AddFunctionCall | Python/Kalculate/Kalculate.py:584-593 | without a selection, `f({})` inserts `f()` with the cursor between the parentheses |
| Kalculate.BackspaceIn | Python/Kalculate/Kalculate.py:596-605 | at the start nothing changes; otherwise exactly the character before the cursor goes and the cursor moves back one |
| Kalculate.BackspaceUndoesInsert | Python/Kalculate/Kalculate.py:596-605 | backspace undoes typing one character |
| Kalculate.MoveLeft | Python/Kalculate/Kalculate.py:676-681 | the text is kept; the cursor moves one left unless at the start |
| Kalculate.MoveRight | Python/Kalculate/Kalculate.py:683-688 | the text is kept; the cursor moves one right unless at the end |
| Kalculate.MoveLeftThenRight | Python/Kalculate/Kalculate.py:676-688 | moving left then right comes back to the same place |
| Kalculate.EngineInput | Python/Kalculate/Kalculate.py:791-812 | with the intended degree rewrite of Findings (not the chain as written), the engine never receives a `×` or `÷` |
| Kalculate.EngineInputRad | Python/Kalculate/Kalculate.py:791-812 | in RAD mode, plain text reaches the engine unchanged, and a trailing `=` is the only thing dropped |
| Kalculate.EngineInputDegSin | Python/Kalculate/Kalculate.py:796-803 | with the intended rewrite, in DEG mode a sine of a number is taken in degrees, as the code also does (`EngineInputAsWrittenDegSin`) |
| Kalculate.EngineInputDegAsin | Python/Kalculate/Kalculate.py:804-810 | corrected half of Findings: with the intended rewrite, in DEG mode an arcsine of a number is returned in degrees with its argument untouched; the code as written differs (`EngineInputAsWrittenDegAsin`) |
| Kalculate.EngineInputOfRewrite | Python/Kalculate/Kalculate.py:791-812 | corrected half of Findings: a text ending in `)` reaches the engine as its intended degree rewrite when that has no `×` or `÷` |
| Kalculate.EngineInputAsWritten | Python/Kalculate/Kalculate.py:791-812 | the text `calculate` hands to the engine as written never holds `×` or `÷` |
| Kalculate.EngineInputAsWrittenDegSin | Python/Kalculate/Kalculate.py:796-812 | as written, in DEG mode the engine receives a sine of a number with its argument scaled once |
| Kalculate.EngineInputAsWrittenDegAsin | Python/Kalculate/Kalculate.py:796-812 | as written, in DEG mode the engine receives `asin(x)` on a number as `(180/pi)*asin(pi/180*x)`: argument and result both converted |
| Kalculate.EngineInputOfChain | Python/Kalculate/Kalculate.py:791-812 | as written, a text ending in `)` reaches the engine as the chain's output when that has no `×` or `÷` |
| Kalculate.ReplayText | Python/Kalculate/Kalculate.py:1064-1069 | a history entry yields an expression exactly when it holds `=` |
| Kalculate.ReplayHistoryItem | Python/Kalculate/Kalculate.py:1064-1069 | replaying an entry recorded by `calculate` gives back its expression, stripped, when the expression holds no `=` |
| Kalculate.CodesExtendWritten | Python/Kalculate/Kalculate.py:648-655 | the intended code table agrees with the written one except that `^` gains a `(` and the four functions are added |
| Kalculate.CodeFor | Python/Kalculate/Kalculate.py:662-665 | `code_replacements.get(text, text)`: a two-part label reaches the cursor branch with its table entry (`DispatchTwoPart`), and in the intended table every such entry opens a call (`CallCodesOpen`) |
| Kalculate.CallCodesOpen | Python/Kalculate/Kalculate.py:638-644 | with the intended table every two-part label's code ends with `(` |
| Kalculate.DispatchWith | Python/Kalculate/Kalculate.py:607-668 | `on_button_clicked` for a given code table: a two-part label reaches the cursor branch with its code (`DispatchTwoPart`) |
| Kalculate.DispatchAsWritten | Python/Kalculate/Kalculate.py:607-668 | with the written table, `sin` on an empty line gives `sin)` (`TwoPartWithoutParenthesis`) |
| Kalculate.Dispatch | Python/Kalculate/Kalculate.py:607-668 | with the intended table every two-part label opens a call, and `=` evaluates exactly when the stripped line ends with `=` (`TwoPartOpensCall`, `EqualsKey`) |
| Kalculate.TwoPartWithoutParenthesis | Python/Kalculate/Kalculate.py:648-665 | as written, `sin` on an empty line gives `sin)`, and `^` inserts `**` followed by `)` |
| Kalculate.DispatchTwoPart | Python/Kalculate/Kalculate.py:658-665 | every two-part label reaches the `add_to_expression_with_cursor` branch |
| Kalculate.TwoPartOpensCall | Python/Kalculate/Kalculate.py:546-569 | with the intended table every two-part label inserts `code)` and leaves the cursor between the parentheses |
| Kalculate.EqualsKey | Python/Kalculate/Kalculate.py:619-626 | `=` evaluates exactly when the stripped line already ends with `=`, and otherwise types `=` |
| Kalculate.EqualsTwiceEvaluates | Python/Kalculate/Kalculate.py:619-626 | at the end of a line, the first `=` is typed and the second evaluates |
| Kalculate.Calculator.constructor | Python/Kalculate/Kalculate.py:26-31 | an empty line, an empty history and RAD mode |
| Kalculate.Calculator.ClearDisplay | Python/Kalculate/Kalculate.py:508-512 | the line becomes empty; history and mode are kept |
| Kalculate.Calculator.AddToExpression | Python/Kalculate/Kalculate.py:514-528 | the line becomes the insertion of the text at the cursor; history and mode are kept |
| Kalculate.Calculator.AddToExpressionWithCursor | Python/Kalculate/Kalculate.py:530-571 | corrected behaviour (Findings): the line becomes `AddWithCursor` of the old line, which wraps a selection; history and mode are kept |
| Kalculate.Calculator.AddFunction | Python/Kalculate/Kalculate.py:573-594 | the line becomes `AddFunctionTo` of the old line; history and mode are kept |
| Kalculate.Calculator.Backspace | Python/Kalculate/Kalculate.py:596-605 | the line becomes `BackspaceIn` of the old line |
| Kalculate.Calculator.MoveCursorLeft | Python/Kalculate/Kalculate.py:676-681 | the line becomes `MoveLeft` of the old line |
| Kalculate.Calculator.MoveCursorRight | Python/Kalculate/Kalculate.py:683-688 | the line becomes `MoveRight` of the old line |
| Kalculate.Calculator.ToggleAngleMode | Python/Kalculate/Kalculate.py:225-230 | the mode is toggled; line and history are kept |
| Kalculate.Calculator.Calculate | Python/Kalculate/Kalculate.py:784-824 | corrected behaviour (Findings): the line is kept, and the history grows by exactly the entries `HistoryEntries` gives for the expression under the intended degree rewrite |
| Kalculate.Calculator.OnHistoryItemClicked | Python/Kalculate/Kalculate.py:1064-1075 | an entry with `=` puts its stripped expression on the line with the cursor at the end; any other entry changes nothing |
| Kalculate.Calculator.SetText | Python/Kalculate/Kalculate.py:1070-1071 | the line holds the text with the cursor at its end and no selection |
| Kalculate.Calculator.ClearHistory | Python/Kalculate/Kalculate.py:1077-1080 | the history becomes empty; the line is kept |
| Kalculate.Calculator.PressEquals | Python/Kalculate/Kalculate.py:619-626 | on a line ending in `=` the expression is evaluated; otherwise `=` is typed and the history is kept |
| NewCalculator.AddFunctionTo | Python/Kalculate/NewCalculator.py:463-504 | `add_function` leaves a valid line with no selection |
| NewCalculator.CursorOffset | Python/Kalculate/NewCalculator.py:482-501 | the cursor goes right after the first `(` when the inserted text holds both `(` and `)`, else after the text |
| NewCalculator.OpenAfterName | Python/Kalculate/NewCalculator.py:483 | in `f(rest)` the first `(` follows `f` |
| NewCalculator.CloseInRest | Python/Kalculate/NewCalculator.py:484 | a `)` in the arguments is found |
| NewCalculator.PlaceholderTemplate | Python/Kalculate/NewCalculator.py:479-486 | `f({}rest)` formatted with nothing is `f(rest)`, with both parentheses found |
| NewCalculator.AddPlaceholderTemplate | Python/Kalculate/NewCalculator.py:478-493 | without a selection, `f(rest)` is inserted and the cursor follows its `(` |
| NewCalculator.InsertAfterOpen | Python/Kalculate/NewCalculator.py:493 | typing after `open` puts the text between `open` and `rest` |
| NewCalculator.AddFunctionThenType | Python/Kalculate/NewCalculator.py:478-504 | inserting a call template and then typing an argument gives the call with that argument, the cursor having landed where the placeholder was |
| NewCalculator.ToggleSignIn | Python/Kalculate/NewCalculator.py:1057-1082 | the sign toggle leaves a valid line with no selection |
| NewCalculator.ToggleSignNegates | Python/Kalculate/NewCalculator.py:1057-1082 | a selection becomes `(-1)*(selection)` with the text around it kept; without one, `(-1)*` goes in at the cursor, which advances by 5 |
| NewCalculator.TrigTemplateDoublesPrefix | Python/Kalculate/NewCalculator.py:622-629 | as written, an inverse label in 2nd mode inserts `aa<name>(…)` |
| NewCalculator.TrigTemplateFollowsLabel | Python/Kalculate/NewCalculator.py:610-636 | as intended, every trigonometry label inserts a call of the function it shows, in 2nd mode the inverse of its normal function |
| NewCalculator.SqrtTemplate | Python/Kalculate/NewCalculator.py:584-595 | a square in 2nd mode, a square root otherwise (`Calculator.InsertSqrt`) |
| NewCalculator.LogTemplate | Python/Kalculate/NewCalculator.py:597-608 | the natural logarithm in 2nd mode, base 10 otherwise (`Calculator.InsertLog`) |
| NewCalculator.TrigTemplateAsWritten | Python/Kalculate/NewCalculator.py:610-636 | as written, 2nd mode prefixes `a` even to a label that already has it (`TrigTemplateDoublesPrefix`) |
| NewCalculator.TrigTemplate | Python/Kalculate/NewCalculator.py:610-636 | corrected half of Findings: the prefix is added once, so every label inserts the function it shows (`TrigTemplateFollowsLabel`) |
| NewCalculator.TabRules | Python/Kalculate/NewCalculator.py:243-281 | the label table each tab updates; its labels follow the tab's flag (`SecondMode.LabelsFollowFlag`) |
| NewCalculator.TabShowsNormal | Python/Kalculate/NewCalculator.py:441-449 | after entering a tab its flag is clear, so its table shows the normal labels |
| NewCalculator.RelationTypesItself | Python/Kalculate/NewCalculator.py:132-133 | a relation or parenthesis key, `=` included, types its own character |
| NewCalculator.EntryRelation | Python/Kalculate/NewCalculator.py:122-133 | a relation character falls through the digit and operator tests to the relation branch |
| NewCalculator.CalculateUnreachable | Python/Kalculate/NewCalculator.py:132-183 | no button text reaches the evaluate branch at line 182 |
| NewCalculator.DispatchEntry | Python/Kalculate/NewCalculator.py:122-149 | the first group of branches never evaluates |
| NewCalculator.CallsCalculateOnEquals | Python/Kalculate/NewCalculator.py:151-200 | the second group evaluates only on `=` |
| NewCalculator.DispatchCalls | Python/Kalculate/NewCalculator.py:151-202 | the second group evaluates only on `=` (`CallsCalculateOnEquals`) and takes only `σ` among letters (`CallsLetter`) |
| NewCalculator.DispatchRest | Python/Kalculate/NewCalculator.py:204-232 | a one-letter key types itself before the Greek table is consulted (`LetterDispatch`, `GreekNamesUnused`) |
| NewCalculator.Dispatch | Python/Kalculate/NewCalculator.py:111-232 | no button text evaluates (`CalculateUnreachable`) |
| NewCalculator.OperatorsTranslated | Python/Kalculate/NewCalculator.py:126-136 | `×`, `÷`, `^` and `π` type `*`, `/`, `**` and `pi` |
| NewCalculator.EntryOperator | Python/Kalculate/NewCalculator.py:122-136 | the first group sends each of them to its own branch |
| NewCalculator.EntryChar | Python/Kalculate/NewCalculator.py:122-132 | the substring tests on one character are membership tests |
| NewCalculator.LetterNotSymbol | Python/Kalculate/NewCalculator.py:202-205 | a letter is none of the digit, operator, relation or set symbols |
| NewCalculator.EntryLetter | Python/Kalculate/NewCalculator.py:122-149 | the first group takes only `e`/`E`, `i`/`I` and `π` among letters |
| NewCalculator.CallsLetter | Python/Kalculate/NewCalculator.py:151-200 | the second group takes only `σ` among letters |
| NewCalculator.LetterDispatch | Python/Kalculate/NewCalculator.py:204-207 | a one-letter key types its letter, except `e`/`E`, `i`/`I`, `π` and `σ` |
| NewCalculator.LowerGreekNamesAreLetters | Python/Kalculate/NewCalculator.py:211-216 | every lower-case key of the Greek table is one letter |
| NewCalculator.UpperGreekNamesAreLetters | Python/Kalculate/NewCalculator.py:218-223 | every upper-case key of the Greek table is one letter |
| NewCalculator.GreekNamesAreLetters | Python/Kalculate/NewCalculator.py:210-224 | every key of the Greek table is one letter |
| NewCalculator.GreekNamesUnused | Python/Kalculate/NewCalculator.py:204-227 | the Greek table is never consulted: `α` types `α`, not `alpha` |
| NewCalculator.EntryWord | Python/Kalculate/NewCalculator.py:122-149 | a word of three or more letters not starting with `l` passes the first group |
| NewCalculator.TrigLabelFacts | Python/Kalculate/NewCalculator.py:151-153 | every trigonometry label, normal or 2nd, is a name `insert_trig_function` accepts |
| NewCalculator.TrigLabelsDispatch | Python/Kalculate/NewCalculator.py:151-154 | every trigonometry label reaches `insert_trig_function` with its own text |
| NewCalculator.EngineInput | Python/Kalculate/NewCalculator.py:512-535 | a trailing `=` dropped, the operators substituted, and in DEG mode the six guarded replaces of `Kalculate.py` as written; in RAD mode the engine never receives a `×` or `÷` |
| NewCalculator.EngineInputRad | Python/Kalculate/NewCalculator.py:512-518 | in RAD mode plain text reaches the engine unchanged, and `e=` reaches it as `e` stripped |
| NewCalculator.EngineInputDegCall | Python/Kalculate/NewCalculator.py:512-535 | in DEG mode a direct call on a number would reach the engine scaled once and an inverse call converted twice; `angle_mode` never leaves RAD, so neither happens |
| NewCalculator.Calculator.constructor | Python/Kalculate/NewCalculator.py:35-50 | an empty line and history, no last answer, and every tab flag off |
| NewCalculator.Calculator.AddToExpression | Python/Kalculate/NewCalculator.py:451-461 | the line becomes the insertion of the text at the cursor; everything else is kept |
| NewCalculator.Calculator.AddFunction | Python/Kalculate/NewCalculator.py:463-504 | the line becomes `AddFunctionTo` of the old line; everything else is kept |
| NewCalculator.Calculator.ToggleSign | Python/Kalculate/NewCalculator.py:1057-1082 | the line becomes `ToggleSignIn` of the old line; everything else is kept |
| NewCalculator.Calculator.InsertAnswer | Python/Kalculate/NewCalculator.py:1050-1055 | the last answer is typed at the cursor when there is one; otherwise nothing changes |
| NewCalculator.Calculator.AddToHistory | Python/Kalculate/NewCalculator.py:1084-1088 | exactly one entry is appended at the end |
| NewCalculator.Calculator.Rewritten | Python/Kalculate/NewCalculator.py:512-535 | the rewriting steps, the six guarded replaces included, give `EngineInput` of the mode |
| NewCalculator.Calculator.Calculate | Python/Kalculate/NewCalculator.py:506-561 | the line is kept; a successful evaluation sets the last answer even if rendering fails; the result is returned and one entry added exactly when it is also rendered |
| NewCalculator.Calculator.ToggleSecondMode | Python/Kalculate/NewCalculator.py:235-241 | only the given tab's flag flips |
| NewCalculator.Calculator.OnTabChanged | Python/Kalculate/NewCalculator.py:441-449 | the entered tab's flag is cleared, so its buttons show their normal labels |
| NewCalculator.Calculator.TabLabels | Python/Kalculate/NewCalculator.py:243-281 | the labels `update_buttons_for_second_mode` sets on a tab; right after the tab is entered they are its normal labels (`OnTabChanged`) |
| NewCalculator.Calculator.ToggleHyperbolic | Python/Kalculate/NewCalculator.py:638-647 | the hyperbolic highlight is negated |
| NewCalculator.Calculator.InsertSqrt | Python/Kalculate/NewCalculator.py:584-595 | a square in 2nd mode, a square root otherwise |
| NewCalculator.Calculator.InsertLog | Python/Kalculate/NewCalculator.py:597-608 | the natural logarithm in 2nd mode, base 10 otherwise |
| NewCalculator.Calculator.InsertTrigFunction | Python/Kalculate/NewCalculator.py:610-636 | corrected behaviour (Findings): the call template built from the 2nd and hyperbolic flags is inserted, with the inverse prefix added once |
| NewKalculate.AddFunctionTo | Python/Kalculate/NewKalculate.py:528-564 | `add_function` leaves a valid line with no selection |
| NewKalculate.AddFunctionNoSelection | Python/Kalculate/NewKalculate.py:543-561 | without a selection the template minus its first `{}` is inserted with the cursor at the placeholder's index; without `{}` it is inserted whole |
| NewKalculate.AddFunctionPlacesTemplate | Python/Kalculate/NewKalculate.py:544-553 | the text around the cursor is kept, and the cursor sits exactly where the placeholder was |
| NewKalculate.AddFunctionWithoutPlaceholder | Python/Kalculate/NewKalculate.py:554-561 | a template without `{}` is inserted whole, with the cursor after it |
| NewKalculate.SpliceAt | Python/Kalculate/NewKalculate.py:548-553 | a cursor placed between `before` and `after` splits the text there |
| NewKalculate.AddFunctionThenType | Python/Kalculate/NewKalculate.py:543-553 | for any template with a placeholder, inserting it and typing an argument gives the template formatted with that argument |
| NewKalculate.AddFunctionWrapsSelection | Python/Kalculate/NewKalculate.py:533-541 | a selection takes the placeholder's place, with the text around it kept |
| NewKalculate.AddFunctionAgreesWithNewCalculator | Python/Kalculate/NewKalculate.py:528-564 | on call templates this placeholder rule and NewCalculator's parenthesis rule give the same line |
| NewKalculate.SplitFirst | Python/Kalculate/NewKalculate.py:647 | `split("=", 1)` splits exactly when `=` occurs, at the first `=`, and the parts rejoin to the text |
| NewKalculate.SplitFirstUnique | Python/Kalculate/NewKalculate.py:647 | any text `l + "=" + r` with no `=` in `l` splits into `l` and `r` |
| NewKalculate.EquationInputZeroForm | Python/Kalculate/NewKalculate.py:646-650 | the equation `L=R` is handed to the engine as `(L)-(R)`, split at its first `=` |
| NewKalculate.EquationInputPlain | Python/Kalculate/NewKalculate.py:651-654 | a text without `=` is handed over unchanged |
| NewKalculate.EquationInput | Python/Kalculate/NewKalculate.py:646-650 | `L=R` becomes `(L)-(R)`, split at the first `=` (`EquationInputZeroForm`); a text without `=` is passed unchanged (`EquationInputPlain`) |
| NewKalculate.JoinShowsEach | Python/Kalculate/NewKalculate.py:663 | every part appears in the joined text |
| NewKalculate.Join | Python/Kalculate/NewKalculate.py:662 | `", ".join`: every part appears in the joined text (`JoinShowsEach`) |
| NewKalculate.Labelled | Python/Kalculate/NewKalculate.py:663 | each solution is labelled `x = s`, in order |
| NewKalculate.SolutionTextShowsEach | Python/Kalculate/NewKalculate.py:659-665 | every solution appears as `x = s`; one solution is shown alone, and several follow the header `解: ` |
| NewKalculate.SolutionText | Python/Kalculate/NewKalculate.py:659-665 | every solution appears as `x = s`, one alone, several after the header `解: ` (`SolutionTextShowsEach`) |
| NewKalculate.EqualsTypesEquals | Python/Kalculate/NewKalculate.py:377-383 | the `=` key types `=` |
| NewKalculate.CalculateUnreachable | Python/Kalculate/NewKalculate.py:377-404 | no button text reaches the evaluate branch at line 403 |
| NewKalculate.EntryCalculatesOnlyOnEquals | Python/Kalculate/NewKalculate.py:374-404 | the first group evaluates only on `=` |
| NewKalculate.DispatchEntry | Python/Kalculate/NewKalculate.py:376-404 | the first group evaluates only on `=` (`EntryCalculatesOnlyOnEquals`) and takes only `π` among Greek letters (`EntryGreek`) |
| NewKalculate.DispatchCalls | Python/Kalculate/NewKalculate.py:406-440 | the second group takes only `σ` among Greek letters (`CallsGreek`) and no ASCII letter (`CallsAscii`) |
| NewKalculate.DispatchRest | Python/Kalculate/NewKalculate.py:448-469 | every Greek key but `σ` types its SymPy name (`GreekNamesReached`) |
| NewKalculate.Dispatch | Python/Kalculate/NewKalculate.py:363-469 | no button text evaluates (`CalculateUnreachable`) |
| NewKalculate.TabRules | Python/Kalculate/NewKalculate.py:123-142 | the label table each tab updates; the basic and trigonometry labels insert the functions they show (`BasicLabelsDispatch`, `TrigLabelsDispatch`) |
| NewKalculate.OperatorsTranslated | Python/Kalculate/NewKalculate.py:377-397 | `×`, `÷`, `^` and `π` type `*`, `/`, `**` and `pi` |
| NewKalculate.KeysNotGreek | Python/Kalculate/NewKalculate.py:374-377 | the digit and operator keys are single non-Greek characters |
| NewKalculate.EntryGreek | Python/Kalculate/NewKalculate.py:374-404 | the first group takes only `π` among Greek letters |
| NewKalculate.CallsGreek | Python/Kalculate/NewKalculate.py:406-440 | the second group takes only `σ` among Greek letters |
| NewKalculate.GreekNamesReached | Python/Kalculate/NewKalculate.py:448-469 | every Greek letter key except `σ` types its SymPy name |
| NewKalculate.PiName | Python/Kalculate/NewKalculate.py:454 | the table's name for `π` is `pi` |
| NewKalculate.LetterDispatch | Python/Kalculate/NewKalculate.py:374-469 | an ASCII letter key types its letter, except `i`, which types `I` |
| NewKalculate.EntryAscii | Python/Kalculate/NewKalculate.py:374-404 | the first group takes only `e` and `i` among ASCII letters |
| NewKalculate.CallsAscii | Python/Kalculate/NewKalculate.py:406-440 | the second group takes no ASCII letter |
| NewKalculate.TrigLabelsAreKeys | Python/Kalculate/NewKalculate.py:406-413 | every trigonometry label is in the lists of names |
| NewKalculate.TrigLabelsDispatch | Python/Kalculate/NewKalculate.py:406-413 | every trigonometry label inserts a call of the function it shows, in 2nd mode the `a`-prefixed inverse, once |
| NewKalculate.BasicKeyDispatch | Python/Kalculate/NewKalculate.py:392-401 | `log`, `ln`, `√` and `x²` pass the digit and operator lists and each inserts its own function template |
| NewKalculate.BasicLabelsDispatch | Python/Kalculate/NewKalculate.py:392-401 | the basic tab's buttons give base-10 log and square root normally, natural log and square in 2nd mode |
| NewKalculate.Calculator.constructor | Python/Kalculate/NewKalculate.py:31-47 | an empty line and history, and every tab flag off |
| NewKalculate.Calculator.AddToExpression | Python/Kalculate/NewKalculate.py:517-526 | the line becomes the insertion of the text at the cursor; everything else is kept |
| NewKalculate.Calculator.AddFunction | Python/Kalculate/NewKalculate.py:528-564 | the line becomes `AddFunctionTo` of the old line; everything else is kept |
| NewKalculate.Calculator.SetText | Python/Kalculate/NewKalculate.py:668-669 | the line holds the text with the cursor at its end and no selection |
| NewKalculate.Calculator.AddToHistory | Python/Kalculate/NewKalculate.py:614-619 | exactly one entry is appended at the end |
| NewKalculate.Calculator.SolveEquation | Python/Kalculate/NewKalculate.py:638-673 | when the engine solves the rewritten equation the line shows the solution text; an empty line or a failure changes nothing, and the history is never touched |
| NewKalculate.Calculator.Calculate | Python/Kalculate/NewKalculate.py:566-592 | an empty line does nothing; a line with `=` goes to the solver and adds no entry; otherwise the line is kept and exactly the entries `HistoryEntries` gives are appended |
| NewKalculate.Calculator.ToggleSecondMode | Python/Kalculate/NewKalculate.py:112-121 | only the current tab's flag flips |
| NewKalculate.Calculator.OnTabChanged | Python/Kalculate/NewKalculate.py:351-361 | the entered tab's flag is cleared, so its buttons show their normal labels |
| NewKalculate.Calculator.TabLabels | Python/Kalculate/NewKalculate.py:123-142 | the labels `update_buttons_for_second_mode` sets on a tab; right after the tab is entered they are its normal labels (`OnTabChanged`) |

## Left out

- The SymPy engine is not modelled. `parse_expr`, `evalf`, `latex` and `solve` are a function parameter that may fail (`Engine.Evaluator`, `Engine.Solver`). Only what the controllers do with the answer is modelled.
- The handlers that only hand the expression to the engine are not modelled. They appear as `Delegated` actions in the dispatch: derivatives, integrals, limits and series, `factor`/`expand`/`simplify`, statistics, `gcd`/`lcm`, and matrices.
- The Qt user interface is not modelled: widget construction, the MathJax HTML of the LaTeX displays, message boxes and `hasattr` checks on widgets. Output shown only in message boxes is not modelled either.
- The cursor highlight in `update_input_latex_display` is not modelled. It is display-only.
- `convert_trig_to_radians` (Kalculate.py:760-782) is not modelled. It is never called.
- The set-operator branch of NewKalculate.py:442-446 is not modelled, because its literal `'\'` is unterminated and the file does not parse as written. Without it, those keys reach the final branch, which types them as they are.
- NewKalculate's `angle_mode` is set but never read, so it is not modelled.
- NewCalculator's `angle_mode` is never changed from RAD, so it is a constant field and its DEG chain never runs.
- `on_tab_changed` receives a tab index and looks up the object name. The model takes the object name as the parameter.
- Selecting text in the line edit is a user action modelled by each class's `Select` method.
- Focus is not modelled: the buttons are plain `QPushButton`s with no focus policy (Kalculate.py:262 and after). Where a clicked button takes focus, `QLineEdit` drops its selection, so the selection branches of `add_to_expression_with_cursor` and `add_function` are reachable only where buttons do not take focus.
- `PyStr.IsAlpha` is `str.isalpha` only for ASCII and Greek letters, the letters calculator buttons carry.
- The error texts shown on an engine exception are not modelled. An exception is the `None` of the evaluator or solver.
- `Kalculate.Calculator.Calculate`, `Kalculate.Calculator.AddToExpressionWithCursor` and `NewCalculator.Calculator.InsertTrigFunction` use the corrected behaviour from Findings, not the behaviour as written.
- The `asin(`, `acos(` and `atan(` rules of `convert_to_latex_improved` (Kalculate.py:183-185) come after the `sin(`, `cos(` and `tan(` rules, which already rewrite the inner call, so they never fire either. The model keeps them in the table but does not prove that they are dead.
- The button dispatch of `Kalculate.py` is a function (`Kalculate.Dispatch`) whose actions are the `Kalculate.Calculator` methods. Only the `=` key is wired as a method (`PressEquals`).
- `NewCalculator.AddFunctionThenType` is stated for call templates `f({}rest)`. On such templates the placeholder and the first `(` coincide. For other templates NewCalculator's cursor rule is stated by `NewCalculator.CursorOffset` alone.

## Findings

| source | as written | input that shows it | evidently intended | confidence | as-written member | corrected member |
|---|---|---|---|---|---|---|
| Python/Kalculate/Kalculate.py:796-810 | in DEG mode `sin(` is replaced first and also matches inside `asin(`, so an inverse call has its argument scaled as well as its result | `asin(1)` in DEG mode becomes `(180/pi)*asin(pi/180*1)` | `(180/pi)*asin(1)`: only the result converted to degrees | not executed | Rewrite.DegreeChainScalesInverseArgument | Rewrite.DegreeRewriteInverse |
| Python/Kalculate/Kalculate.py:648-665 | `sin`, `cos`, `tan`, `log` have no code and `^` has the code `**`, yet their branch appends `)` and puts the cursor before it | `sin` on an empty line gives `sin)` | `sin()` with the cursor between the parentheses | not executed | Kalculate.TwoPartWithoutParenthesis | Kalculate.TwoPartOpensCall |
| Python/Kalculate/Kalculate.py:536-560 | with a selection, the call holding it is inserted at the cursor and the selected text stays | where a clicked button does not take focus from the line edit, so the selection survives the click: select all of `2` and press `√`: `2sqrt(2)` | `sqrt(2)`: the selection wrapped | not executed | Kalculate.AddWithCursorDuplicatesSelection | Kalculate.AddWithCursorWraps |
| Python/Kalculate/NewCalculator.py:622-629 | in 2nd mode the prefix `a` is added to the label, which already shows the inverse name | 2nd mode on the trigonometry tab, press `asin`: `aasin()` | `asin()` | not executed | NewCalculator.TrigTemplateDoublesPrefix | NewCalculator.TrigTemplateFollowsLabel |
