/** The older copy of the validation-expression parser. Tokenizer, postfix conversion and
    stack evaluation are the same code as in `ShuntingYard`; only the last step differs:
    `stack.pop() if stack else Atomic("")` returns the LAST node left on the stack, and an
    empty stack gives `Atomic("")` instead of an error. */
module LegacyShuntingYard {
  import opened Basics
  import opened ShuntingYard

  /** The tree this version returns for resolved tokens. */
  function LegacyParseTokens(tokens: seq<string>): (r: Result<Node>)
    ensures Eval([], Postfix(tokens)).Ok? ==> r.Ok?
    ensures Eval([], Postfix(tokens)) == Ok([]) ==> r == Ok(Atomic(""))
  {
    var st :- Eval([], Postfix(tokens));
    if st == [] then Ok(Atomic("")) else Ok(Top(st))
  }

  function LegacyParse(expression: string, resolve: string -> string): Result<Node> {
    LegacyParseTokens(Resolve(Tokenize(expression), resolve))
  }

  /** `parse_validation_expression` of the older copy. */
  method LegacyParseValidationExpression(expression: string, resolve: string -> string) returns (r: Result<Node>)
    ensures r == LegacyParse(expression, resolve)
  {
    var tokens := Tokenize(expression);
    tokens := Resolve(tokens, resolve);
    r := LegacyParseResolved(tokens);
  }

  /** The part of `parse_validation_expression` after the tokens are resolved. */
  method LegacyParseResolved(tokens: seq<string>) returns (r: Result<Node>)
    ensures r == LegacyParseTokens(tokens)
  {
    var postfix := ToPostfix(tokens);
    var stack :- EvaluatePostfix(postfix);
    if stack == [] {
      return Ok(Atomic(""));
    }
    return Ok(stack[|stack| - 1]);
  }

  /** An expression with no token gives `Atomic("")`, where the newer copy fails. */
  lemma EmptyExpressionIsEmptyAtom(resolve: string -> string)
    ensures LegacyParse("", resolve) == Ok(Atomic(""))
    ensures Parse("", resolve).Fail?
  {
    EmptyTokens();
    ResolveNothing(resolve);
    assert Postfix([]) == [];
    EmptyExpressionFails(resolve);
  }

  /** Whenever evaluation leaves exactly one tree, both copies return it. */
  lemma SingleTreeAgrees(tokens: seq<string>, n: Node)
    requires Eval([], Postfix(tokens)) == Ok([n])
    ensures LegacyParseTokens(tokens) == Ok(n)
    ensures ParseTokens(tokens) == Ok(n)
  {
    assert Top([n]) == n;
  }

  /** On a well-formed expression the two copies build the same tree. */
  lemma AlternatingAgrees(tokens: seq<string>)
    requires Alternating(tokens)
    ensures LegacyParseTokens(tokens) == ParseTokens(tokens) == Ok(Reference(tokens))
  {
    AlternatingParse(tokens);
    SingleTreeAgrees(tokens, Reference(tokens));
  }

  /** With an unclosed `(` two nodes are left: the newer copy returns the first (the
      operand), this one the last (the parenthesis). */
  lemma UnclosedParenDiffers(a: string)
    requires IsOperand(a)
    ensures ParseTokens(["(", a]) == Ok(Atomic(a))
    ensures LegacyParseTokens(["(", a]) == Ok(Atomic("("))
  {
    UnclosedParen(a);
    assert Top([Atomic(a), Atomic("(")]) == Atomic("(");
  }
}
