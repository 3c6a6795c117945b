/** The formal-grammar AST of `core/ast.py`: a program made of lines, and logical
    expressions made of terms joined by `et`/`ou`. */
module CoreAst {
  import opened Basics
  import opened Text

  /** `OperateurLogique`; only `et` and `ou` can be built (`MakeOperator`). */
  datatype OperateurLogique = OperateurLogique(operator: string)

  predicate ValidOperator(o: OperateurLogique) {
    o.operator == "et" || o.operator == "ou"
  }

  /** `OperateurLogique(op)` with its `__post_init__` check. */
  function MakeOperator(op: string): (r: Result<OperateurLogique>)
    ensures r.Ok? <==> op == "et" || op == "ou"
    ensures r.Ok? ==> r.value.operator == op && ValidOperator(r.value)
    ensures r.Fail? ==> r.exc == ValueError("Invalid logical operator: " + op)
  {
    if op == "et" || op == "ou" then Ok(OperateurLogique(op)) else Fail(ValueError("Invalid logical operator: " + op))
  }

  /** A built operator can be built again from its text. */
  lemma OperatorRoundTrip(o: OperateurLogique)
    requires ValidOperator(o)
    ensures MakeOperator(o.operator) == Ok(o)
  {
  }

  /** `Terme`: a simple result text, or a parenthesized sub-expression. */
  datatype Terme = ResultatSimple(text: string) | Parenthesized(expr: ExpressionLogique)

  /** `ExpressionLogique`: the terms and the operators between them. */
  class ExpressionLogique {
    var terms: seq<Terme>
    var operators: seq<OperateurLogique>

    /** At most one operator fewer than terms, and none without terms. */
    predicate Valid()
      reads this
    {
      |operators| <= MaxOperators(|terms|)
    }

    constructor ()
      ensures terms == [] && operators == [] && Valid()
    {
      terms := [];
      operators := [];
    }

    /** `add_term(term, operator)`: the term is always appended; the operator only when
        one is given and there is already a term before it. */
    method AddTerm(term: Terme, operator: Option<OperateurLogique>)
      requires Valid()
      modifies this
      ensures terms == old(terms) + [term]
      ensures operators == old(operators) + (if operator.Some? && old(terms) != [] then [operator.value] else [])
      ensures Valid()
    {
      if operator.Some? && terms != [] {
        operators := operators + [operator.value];
      }
      terms := terms + [term];
    }
  }

  /** `max(0, n - 1)`. */
  function MaxOperators(n: nat): nat {
    if n == 0 then 0 else n - 1
  }

  /** The two lists after `add_term` on explicit values. */
  function AddedTerm(terms: seq<Terme>, ops: seq<OperateurLogique>, term: Terme, operator: Option<OperateurLogique>)
    : (seq<Terme>, seq<OperateurLogique>)
  {
    (terms + [term], ops + (if operator.Some? && terms != [] then [operator.value] else []))
  }

  /** An expression grown from empty by a sequence of `add_term` calls. */
  function Grown(calls: seq<(Terme, Option<OperateurLogique>)>): (seq<Terme>, seq<OperateurLogique>) {
    if calls == [] then ([], [])
    else
      var p := Grown(Pop(calls));
      AddedTerm(p.0, p.1, Top(calls).0, Top(calls).1)
  }

  /** The number of calls after the first that pass an operator. */
  function LaterOperators(calls: seq<(Terme, Option<OperateurLogique>)>): nat {
    if |calls| <= 1 then 0
    else LaterOperators(Pop(calls)) + (if Top(calls).1.Some? then 1 else 0)
  }

  /** Growing an expression keeps every term in order, records exactly the operators of
      the calls after the first, and so never has more than one operator fewer than terms. */
  lemma {:induction false} GrownShape(calls: seq<(Terme, Option<OperateurLogique>)>)
    ensures |Grown(calls).0| == |calls|
    ensures forall i :: 0 <= i < |calls| ==> Grown(calls).0[i] == calls[i].0
    ensures |Grown(calls).1| == LaterOperators(calls) <= MaxOperators(|calls|)
  {
    if calls != [] {
      var p := Pop(calls);
      GrownShape(p);
      assert forall i :: 0 <= i < |p| ==> p[i] == calls[i];
    }
  }

  /** The line kinds of a program, each with its line number and raw text. */
  datatype Line =
    | Comment(lineno: int, rawText: string, text: string)
    | Step(lineno: int, rawText: string, name: string)
    | ActionResultLine(lineno: int, rawText: string, action: string, result: ExpressionLogique)
    | ActionResultTwoLines(lineno: int, rawText: string, action: string, result: ExpressionLogique)
    | ResultOnly(lineno: int, rawText: string, result: ExpressionLogique)

  /** `Program`: the lines of a `.shtest` file. */
  class Program {
    var lines: seq<Line>

    constructor ()
      ensures lines == []
    {
      lines := [];
    }

    /** `add_line`: appended after the existing lines, which keep their order. */
    method AddLine(line: Line)
      modifies this
      ensures lines == old(lines) + [line]
      ensures forall i :: 0 <= i < |old(lines)| ==> lines[i] == old(lines)[i]
    {
      lines := lines + [line];
    }
  }

  /** `ParseError.__str__`. */
  function ParseErrorText(message: string, lineno: int, lineContent: string): (r: string)
    ensures StartsWith(r, "Parse error at line " + IntToString(lineno) + ": " + message + "\n")
    ensures EndsWith(r, "\nLine: " + lineContent)
  {
    var head := "Parse error at line " + IntToString(lineno) + ": " + message + "\n";
    ConcatEnds(head, "Line: " + lineContent);
    ConcatEnds(head + "Line: ", lineContent);
    assert head + "Line: " + lineContent == head[..|head| - 1] + ("\nLine: " + lineContent);
    ConcatEnds(head[..|head| - 1], "\nLine: " + lineContent);
    head + "Line: " + lineContent
  }
}
