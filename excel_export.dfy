/** The printer the Excel export uses to put a validation expression in canonical form:
    it parses the expression and prints the tree back with the fewest parentheses the
    precedence of `et` over `ou` allows. */
module ExcelExport {
  import opened Basics
  import opened Text
  import opened ShuntingYard

  /** Every operator of the tree is `et` or `ou`, so that `_PREC` has an entry for it. */
  predicate OpsOk(n: Node) {
    match n
    case Atomic(_) => true
    case BinaryOp(op, l, r) => IsOperator(op) && OpsOk(l) && OpsOk(r)
  }

  predicate ParentOk(parent: Option<string>) {
    parent.Some? ==> IsOperator(parent.value)
  }

  /** A sub-expression is wrapped exactly when its operator binds less tightly than the
      operator above it; the top level has no operator above it. */
  predicate NeedsParens(op: string, parent: Option<string>)
    requires IsOperator(op) && ParentOk(parent)
  {
    parent.Some? && Precedence(op) < Precedence(parent.value)
  }

  /** `_ast_to_str(node, parent_op)`. */
  function AstToStr(n: Node, parent: Option<string>): (s: string)
    requires OpsOk(n) && ParentOk(parent)
    ensures n.Atomic? ==> s == n.value
  {
    match n
    case Atomic(v) => v
    case BinaryOp(op, l, r) =>
      var expr := AstToStr(l, Some(op)) + " " + op + " " + AstToStr(r, Some(op));
      if NeedsParens(op, parent) then "(" + expr + ")" else expr
  }

  /** What the top-level call `_ast_to_str(ast)` prints. */
  function Print(n: Node): string
    requires OpsOk(n)
  {
    AstToStr(n, None)
  }

  /** A binary node prints as its two sides around the operator, single spaces apart,
      and the top level is never wrapped in parentheses. */
  lemma PrintBinary(op: string, l: Node, r: Node)
    requires IsOperator(op) && OpsOk(l) && OpsOk(r)
    ensures Print(BinaryOp(op, l, r)) == AstToStr(l, Some(op)) + " " + op + " " + AstToStr(r, Some(op))
  {
  }

  /** Parentheses appear for an `ou` node directly under an `et` node, and nowhere else:
      in every other position a node prints as it does at the top level. */
  lemma ParensOnlyOuUnderEt(n: Node, p: string)
    requires OpsOk(n) && IsOperator(p)
    ensures AstToStr(n, Some(p))
            == if n.BinaryOp? && n.op == "ou" && p == "et" then "(" + Print(n) + ")" else Print(n)
  {
  }

  /** `a ou b` under `et` is parenthesized: `(a ou b) et c`. */
  lemma OuUnderEtPrints(a: string, b: string, c: string)
    ensures Print(BinaryOp("et", BinaryOp("ou", Atomic(a), Atomic(b)), Atomic(c)))
            == "(" + a + " ou " + b + ") et " + c
  {
    ParensOnlyOuUnderEt(BinaryOp("ou", Atomic(a), Atomic(b)), "et");
  }

  /** `a et b` under `ou` needs no parentheses: `a et b ou c`. */
  lemma EtUnderOuPrints(a: string, b: string, c: string)
    ensures Print(BinaryOp("ou", BinaryOp("et", Atomic(a), Atomic(b)), Atomic(c)))
            == a + " et " + b + " ou " + c
  {
    ParensOnlyOuUnderEt(BinaryOp("et", Atomic(a), Atomic(b)), "ou");
  }

  /** Equal precedence on the right is not parenthesized either, so the printer does not
      tell `a ou (b ou c)` from `(a ou b) ou c`; both read back as the latter. */
  lemma RightNestingFlattens(op: string, a: string, b: string, c: string)
    requires IsOperator(op)
    ensures Print(BinaryOp(op, Atomic(a), BinaryOp(op, Atomic(b), Atomic(c))))
            == Print(BinaryOp(op, BinaryOp(op, Atomic(a), Atomic(b)), Atomic(c)))
  {
    ParensOnlyOuUnderEt(BinaryOp(op, Atomic(b), Atomic(c)), op);
    ParensOnlyOuUnderEt(BinaryOp(op, Atomic(a), Atomic(b)), op);
  }

  // ---------------------------------------------------------------- trees of the parser

  /** Evaluation only builds `et` and `ou` nodes. */
  lemma {:induction false} EvalOpsOk(stack: seq<Node>, postfix: seq<string>)
    requires forall k :: 0 <= k < |stack| ==> OpsOk(stack[k])
    requires Eval(stack, postfix).Ok?
    ensures forall k :: 0 <= k < |Eval(stack, postfix).value| ==> OpsOk(Eval(stack, postfix).value[k])
    decreases |postfix|
  {
    if postfix != [] {
      if IsOperator(postfix[0]) {
        var st := stack[..|stack| - 2] + [BinaryOp(postfix[0], stack[|stack| - 2], stack[|stack| - 1])];
        assert forall k :: 0 <= k < |st| ==> OpsOk(st[k]) by {
          forall k | 0 <= k < |st| ensures OpsOk(st[k]) {
            if k < |stack| - 2 {
              assert st[k] == stack[k];
            }
          }
        }
        EvalOpsOk(st, postfix[1..]);
      } else {
        var st := stack + [Atomic(postfix[0])];
        assert forall k :: 0 <= k < |st| ==> OpsOk(st[k]) by {
          forall k | 0 <= k < |st| ensures OpsOk(st[k]) {
            if k < |stack| {
              assert st[k] == stack[k];
            }
          }
        }
        EvalOpsOk(st, postfix[1..]);
      }
    }
  }

  /** A parsed tree has only `et` and `ou` nodes, so it can always be printed. */
  lemma ParsedOpsOk(expression: string, resolve: string -> string)
    requires Parse(expression, resolve).Ok?
    ensures OpsOk(Parse(expression, resolve).value)
  {
    EvalOpsOk([], Postfix(Resolve(Tokenize(expression), resolve)));
  }

  /** The text `canonicalize_result` parses: the result without its trailing `.` and `;`,
      then stripped. */
  function Cleaned(result: string): string {
    Strip(RStripChars(result, {'.', ';'}))
  }

  /** `canonicalize_result(result)`; a parse error propagates. */
  function CanonicalizeResult(result: string, resolve: string -> string): (r: Result<string>)
    ensures r.Fail? <==> Parse(Cleaned(result), resolve).Fail?
  {
    var tree :- Parse(Cleaned(result), resolve);
    ParsedOpsOk(Cleaned(result), resolve);
    Ok(Print(tree))
  }

  /** When the cleaned result parses, its canonical form is the printed tree. */
  lemma CanonicalizeIsPrint(result: string, resolve: string -> string, tree: Node)
    requires Parse(Cleaned(result), resolve) == Ok(tree)
    ensures OpsOk(tree) && CanonicalizeResult(result, resolve) == Ok(Print(tree))
  {
    ParsedOpsOk(Cleaned(result), resolve);
  }

  /** Trailing `.` and `;` do not change the canonical form. */
  lemma TrailingPunctuationIgnored(result: string, c: char, resolve: string -> string)
    requires c == '.' || c == ';'
    ensures CanonicalizeResult(result + [c], resolve) == CanonicalizeResult(result, resolve)
  {
    var s := result + [c];
    assert s[|s| - 1] == c && s[..|s| - 1] == result;
    assert RStripChars(s, {'.', ';'}) == RStripChars(result, {'.', ';'});
  }

  // ---------------------------------------------------------------- round trip

  /** The tokens as the printer spells them again: operators in lower case. */
  function Spelled(tokens: seq<string>): (r: seq<string>)
    ensures |r| == |tokens|
  {
    seq(|tokens|, k requires 0 <= k < |tokens| => if k % 2 == 1 then AsciiLower(tokens[k]) else tokens[k])
  }

  lemma SpelledSnoc(pre: seq<string>, op: string, a: string)
    requires |pre| % 2 == 1
    ensures Spelled(pre + [op, a]) == Spelled(pre) + [AsciiLower(op), a]
  {
    var t := pre + [op, a];
    assert forall k :: 0 <= k < |pre| ==> t[k] == pre[k];
    assert t[|pre|] == op && t[|pre| + 1] == a;
  }

  lemma JoinSpelledSnoc(pre: seq<string>, op: string, a: string)
    requires |pre| % 2 == 1
    ensures Join(" ", Spelled(pre + [op, a])) == Join(" ", Spelled(pre)) + " " + AsciiLower(op) + " " + a
  {
    SpelledSnoc(pre, op, a);
    var sp := Spelled(pre);
    assert sp + [AsciiLower(op), a] == (sp + [AsciiLower(op)]) + [a];
    JoinSnoc(" ", sp, AsciiLower(op));
    JoinSnoc(" ", sp + [AsciiLower(op)], a);
  }

  lemma {:induction false} AndChainOpsOk(g: seq<string>)
    requires g != []
    ensures OpsOk(AndChain(g)) && (AndChain(g).BinaryOp? ==> AndChain(g).op == "et")
    decreases |g|
  {
    if |g| > 1 {
      AndChainOpsOk(Pop(g));
    }
  }

  lemma {:induction false} OrChainOpsOk(gs: seq<seq<string>>)
    requires NonEmptyGroups(gs)
    ensures OpsOk(OrChain(gs))
    decreases |gs|
  {
    if |gs| == 1 {
      AndChainOpsOk(gs[0]);
    } else {
      OrChainOpsOk(Pop(gs));
      AndChainOpsOk(Top(gs));
    }
  }

  /** Appending `et a` to an `et`-chain appends it to the printed chain. */
  lemma AndChainSnoc(g: seq<string>, a: string)
    requires g != []
    ensures OpsOk(AndChain(g)) && OpsOk(AndChain(g + [a]))
    ensures Print(AndChain(g + [a])) == Print(AndChain(g)) + " " + "et" + " " + a
  {
    AndChainOpsOk(g);
    AndChainOpsOk(g + [a]);
    assert Pop(g + [a]) == g && Top(g + [a]) == a;
    ParensOnlyOuUnderEt(AndChain(g), "et");
  }

  /** A new `ou` group of one operand appends `ou a`. */
  lemma OrChainNewGroup(gs: seq<seq<string>>, a: string)
    requires NonEmptyGroups(gs)
    ensures NonEmptyGroups(gs + [[a]]) && OpsOk(OrChain(gs)) && OpsOk(OrChain(gs + [[a]]))
    ensures Print(OrChain(gs + [[a]])) == Print(OrChain(gs)) + " " + "ou" + " " + a
  {
    var gs' := gs + [[a]];
    assert Pop(gs') == gs && Top(gs') == [a];
    OrChainOpsOk(gs);
    OrChainOpsOk(gs');
    ParensOnlyOuUnderEt(OrChain(gs), "ou");
  }

  /** Extending the last group appends `et a`. */
  lemma OrChainExtend(gs: seq<seq<string>>, a: string)
    requires NonEmptyGroups(gs)
    ensures NonEmptyGroups(Pop(gs) + [Top(gs) + [a]])
    ensures OpsOk(OrChain(gs)) && OpsOk(OrChain(Pop(gs) + [Top(gs) + [a]]))
    ensures Print(OrChain(Pop(gs) + [Top(gs) + [a]])) == Print(OrChain(gs)) + " " + "et" + " " + a
  {
    if |gs| > 1 {
      OrChainExtendMore(gs, a);
    } else {
      OrChainExtendOne(gs, a);
    }
  }

  /** The groups with `a` added to the last one. */
  lemma ExtendLast(gs: seq<seq<string>>, a: string)
    requires NonEmptyGroups(gs)
    ensures var gs' := Pop(gs) + [Top(gs) + [a]];
      NonEmptyGroups(gs') && |gs'| == |gs| && Pop(gs') == Pop(gs) && Top(gs') == Top(gs) + [a]
  {
    var gs' := Pop(gs) + [Top(gs) + [a]];
    assert gs'[|gs'| - 1] == Top(gs) + [a];
    assert forall k :: 0 <= k < |gs'| - 1 ==> gs'[k] == gs[k];
  }

  lemma OrChainExtendOne(gs: seq<seq<string>>, a: string)
    requires NonEmptyGroups(gs) && |gs| == 1
    ensures NonEmptyGroups(Pop(gs) + [Top(gs) + [a]])
    ensures OpsOk(OrChain(gs)) && OpsOk(OrChain(Pop(gs) + [Top(gs) + [a]]))
    ensures Print(OrChain(Pop(gs) + [Top(gs) + [a]])) == Print(OrChain(gs)) + " " + "et" + " " + a
  {
    ExtendLast(gs, a);
    var gs' := Pop(gs) + [Top(gs) + [a]];
    assert OrChain(gs') == AndChain(Top(gs) + [a]);
    assert OrChain(gs) == AndChain(Top(gs));
    AndChainSnoc(Top(gs), a);
  }

  lemma OrChainExtendMore(gs: seq<seq<string>>, a: string)
    requires NonEmptyGroups(gs) && |gs| > 1
    ensures NonEmptyGroups(Pop(gs) + [Top(gs) + [a]])
    ensures OpsOk(OrChain(gs)) && OpsOk(OrChain(Pop(gs) + [Top(gs) + [a]]))
    ensures Print(OrChain(Pop(gs) + [Top(gs) + [a]])) == Print(OrChain(gs)) + " " + "et" + " " + a
  {
    ExtendLast(gs, a);
    var gs' := Pop(gs) + [Top(gs) + [a]];
    var front := OrChain(Pop(gs));
    var last, last' := AndChain(Top(gs)), AndChain(Top(gs) + [a]);
    assert OrChain(gs) == BinaryOp("ou", front, last);
    assert OrChain(gs') == BinaryOp("ou", front, last');
    OrChainOpsOk(Pop(gs));
    AndChainSnoc(Top(gs), a);
    OuPrint(front, last);
    OuPrint(front, last');
    Regroup(Print(front), Print(last), a);
  }

  /** An `ou` node prints its two sides without parentheses. */
  lemma OuPrint(l: Node, r: Node)
    requires OpsOk(l) && OpsOk(r)
    ensures OpsOk(BinaryOp("ou", l, r))
    ensures Print(BinaryOp("ou", l, r)) == Print(l) + " " + "ou" + " " + Print(r)
  {
    PrintBinary("ou", l, r);
    ParensOnlyOuUnderEt(l, "ou");
    ParensOnlyOuUnderEt(r, "ou");
  }

  lemma Regroup(x: string, z: string, a: string)
    ensures x + " " + "ou" + " " + (z + " " + "et" + " " + a) == (x + " " + "ou" + " " + z) + " " + "et" + " " + a
  {
  }

  /** One more operator and operand add themselves to the printed text. */
  lemma PrintReferenceSnoc(pre: seq<string>, op: string, a: string)
    requires Alternating(pre) && IsOperator(AsciiLower(op)) && IsOperand(a)
    requires OpsOk(Reference(pre)) && Print(Reference(pre)) == Join(" ", Spelled(pre))
    ensures Alternating(pre + [op, a]) && OpsOk(Reference(pre + [op, a]))
    ensures Print(Reference(pre + [op, a])) == Join(" ", Spelled(pre + [op, a]))
  {
    GroupsSnoc(pre, op, a);
    JoinSpelledSnoc(pre, op, a);
    var gs := Groups(pre);
    if AsciiLower(op) == "ou" {
      OrChainNewGroup(gs, a);
    } else {
      OrChainExtend(gs, a);
    }
  }

  /** Printing the tree of a well-formed, parenthesis-free expression gives its tokens
      back, joined by single spaces, with the operators in lower case. */
  lemma {:induction false} PrintReference(tokens: seq<string>)
    requires Alternating(tokens)
    ensures OpsOk(Reference(tokens))
    ensures Print(Reference(tokens)) == Join(" ", Spelled(tokens))
    decreases |tokens|
  {
    if |tokens| == 1 {
      OrChainOpsOk(Groups(tokens));
      assert Spelled(tokens) == [tokens[0]];
    } else {
      var pre := tokens[..|tokens| - 2];
      var op, a := tokens[|tokens| - 2], tokens[|tokens| - 1];
      AlternatingPrefix(tokens);
      PrintReference(pre);
      PrintReferenceSnoc(pre, op, a);
      LastTwo(tokens);
    }
  }

  /** `canonicalize_result` on a well-formed, parenthesis-free result gives its resolved
      tokens back, single-spaced, with the operators in lower case. */
  lemma CanonicalizeAlternating(result: string, resolve: string -> string)
    requires Alternating(Resolve(Tokenize(Cleaned(result)), resolve))
    ensures CanonicalizeResult(result, resolve) == Ok(Join(" ", Spelled(Resolve(Tokenize(Cleaned(result)), resolve))))
  {
    var e := Cleaned(result);
    var tokens := Resolve(Tokenize(e), resolve);
    AlternatingParse(tokens);
    assert Parse(e, resolve) == Ok(Reference(tokens));
    PrintReference(tokens);
    CanonicalizeIsPrint(result, resolve, Reference(tokens));
  }
}
