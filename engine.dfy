/**
 * The symbolic engine the calculators call (SymPy's `parse_expr`, `evalf`,
 * `latex`, `solve`) is not part of this model: it enters as a function
 * parameter that may fail, and only what the controllers do with its answer
 * is modelled.
 */
module Engine {

  datatype Option<T> = None | Some(value: T)

  /** One successful evaluation: `str(result)`, and `sp.latex(result)`,
      which is None when `sp.latex` raises. */
  datatype Evaluated = Evaluated(text: string, latex: Option<string>)

  /** Parse (and, where the calculator does so, `evalf`) one engine input;
      None when the engine raises. */
  type Evaluator = string -> Option<Evaluated>

  /** `sp.solve`: the `str()` of each solution, None when parsing or solving
      raises. */
  type Solver = string -> Option<seq<string>>

  /** Parsing and rendering both succeeded, so the result can be shown. */
  predicate Rendered(e: Option<Evaluated>) {
    e.Some? && e.value.latex.Some?
  }

  /** The history line `f"{expression} = {result}"`. */
  function HistoryItem(expression: string, result: string): (item: string)
    ensures |item| == |expression| + 3 + |result|
    ensures item[..|expression|] == expression
    ensures item[|expression|..|expression| + 3] == " = "
    ensures item[|expression| + 3..] == result
  {
    expression + " = " + result
  }

  /** What one `calculate` adds to the history: nothing for an empty
      expression or when parsing or rendering raises, otherwise exactly the
      entry `"<expression> = <result>"`. */
  function HistoryEntries(expression: string, e: Option<Evaluated>): (entries: seq<string>)
    ensures |entries| <= 1
    ensures |entries| == 1 <==> expression != "" && Rendered(e)
    ensures |entries| == 1 ==> entries[0] == HistoryItem(expression, e.value.text)
  {
    if expression != "" && Rendered(e) then [HistoryItem(expression, e.value.text)] else []
  }
}
