/** The validation-expression parser of the compiler. A validation such as
    `stdout contient OK et (retour 0 ou fichier vide)` is cut into tokens around the
    operators `et`/`ou` and the parentheses, converted to postfix by the shunting-yard
    algorithm, and evaluated on a stack into a binary tree of `Atomic` leaves. The alias
    resolver that rewrites each operand token is a parameter of the model. */
module ShuntingYard {
  import opened Basics
  import opened Text

  datatype Node = Atomic(value: string) | BinaryOp(op: string, left: Node, right: Node)

  /** The leaves of a tree, left to right. */
  function Leaves(n: Node): seq<string> {
    match n
    case Atomic(v) => [v]
    case BinaryOp(_, l, r) => Leaves(l) + Leaves(r)
  }

  /** The leaves of a stack of trees, bottom to top. */
  function LeavesOf(ns: seq<Node>): seq<string> {
    if ns == [] then [] else LeavesOf(Pop(ns)) + Leaves(Top(ns))
  }

  // ---------------------------------------------------------------- tokenizer

  predicate IsSeparator(t: string) {
    t == "et" || t == "ou" || t == "(" || t == ")"
  }

  predicate WordAt(s: string, i: int) {
    0 <= i < |s| && IsWordChar(s[i])
  }

  predicate NoParen(t: string) {
    forall j :: 0 <= j < |t| ==> t[j] != '(' && t[j] != ')'
  }

  /** `et` or `ou` as a whole word at position `i`: `\bet\b` or `\bou\b`. */
  predicate WordOperatorAt(s: string, i: nat) {
    i + 2 <= |s| && ((s[i] == 'e' && s[i + 1] == 't') || (s[i] == 'o' && s[i + 1] == 'u'))
    && !WordAt(s, i - 1) && !WordAt(s, i + 2)
  }

  /** Length of the match of `(\bet\b|\bou\b|\(|\))` that starts at `i`, 0 when none. */
  function SeparatorAt(s: string, i: nat): (n: nat)
    requires i < |s|
    ensures n > 0 ==> i + n <= |s| && IsSeparator(s[i..i + n])
    ensures n == 0 ==> s[i] != '(' && s[i] != ')'
  {
    if s[i] == '(' || s[i] == ')' then
      assert s[i..i + 1] == [s[i]];
      1
    else if WordOperatorAt(s, i) then
      assert s[i..i + 2] == [s[i], s[i + 1]];
      2
    else 0
  }

  /** `re.split` with a capturing separator group, scanning from `i`; `s[start..i]` is
      the piece read so far. Pieces of text alternate with the separators matched. */
  function Pieces(s: string, start: nat, i: nat): (r: seq<string>)
    requires start <= i <= |s|
    requires NoParen(s[start..i])
    ensures |r| % 2 == 1
    ensures forall k :: 0 <= k < |r| && k % 2 == 1 ==> IsSeparator(r[k])
    ensures forall k :: 0 <= k < |r| && k % 2 == 0 ==> NoParen(r[k])
    decreases |s| - i
  {
    if i == |s| then
      assert s[start..] == s[start..i];
      [s[start..]]
    else
      var n := SeparatorAt(s, i);
      if n > 0 then
        var rest := Pieces(s, i + n, i + n);
        PiecesCons(s[start..i], s[i..i + n], rest);
        [s[start..i], s[i..i + n]] + rest
      else
        assert s[start..i + 1] == s[start..i] + [s[i]];
        Pieces(s, start, i + 1)
  }

  /** A piece of text and a separator in front keep the pieces alternating. */
  lemma PiecesCons(text: string, sep: string, rest: seq<string>)
    requires NoParen(text) && IsSeparator(sep) && |rest| % 2 == 1
    requires forall k :: 0 <= k < |rest| && k % 2 == 1 ==> IsSeparator(rest[k])
    requires forall k :: 0 <= k < |rest| && k % 2 == 0 ==> NoParen(rest[k])
    ensures var r := [text, sep] + rest;
      |r| % 2 == 1
      && (forall k :: 0 <= k < |r| && k % 2 == 1 ==> IsSeparator(r[k]))
      && (forall k :: 0 <= k < |r| && k % 2 == 0 ==> NoParen(r[k]))
  {
    var r := [text, sep] + rest;
    assert forall k :: 2 <= k < |r| ==> r[k] == rest[k - 2];
  }

  function Split(s: string): seq<string> {
    Pieces(s, 0, 0)
  }

  function Concat(ps: seq<string>): string {
    if ps == [] then [] else ps[0] + Concat(ps[1..])
  }

  /** The pieces of the split, read in order, are the expression itself. */
  lemma {:induction false} PiecesConcat(s: string, start: nat, i: nat)
    requires start <= i <= |s|
    requires NoParen(s[start..i])
    ensures Concat(Pieces(s, start, i)) == s[start..]
    decreases |s| - i
  {
    if i < |s| {
      var n := SeparatorAt(s, i);
      if n > 0 {
        PiecesConcat(s, i + n, i + n);
        ConcatTwo(s, start, i, n, Pieces(s, i + n, i + n));
      } else {
        assert s[start..i + 1] == s[start..i] + [s[i]];
        PiecesConcat(s, start, i + 1);
      }
    }
  }

  lemma ConcatTwo(s: string, start: nat, i: nat, n: nat, rest: seq<string>)
    requires start <= i <= i + n <= |s|
    requires Concat(rest) == s[i + n..]
    ensures Concat([s[start..i], s[i..i + n]] + rest) == s[start..]
  {
    var r := [s[start..i], s[i..i + n]] + rest;
    assert r[0] == s[start..i] && r[1..] == [s[i..i + n]] + rest;
    assert ([s[i..i + n]] + rest)[0] == s[i..i + n] && ([s[i..i + n]] + rest)[1..] == rest;
    assert s[start..] == s[start..i] + (s[i..i + n] + s[i + n..]);
  }

  lemma SplitConcat(s: string)
    ensures Concat(Split(s)) == s
  {
    PiecesConcat(s, 0, 0);
  }

  /** The comprehension `[t.strip() for t in pieces if t.strip()]`. */
  function Clean(ps: seq<string>): (r: seq<string>)
    ensures |r| <= |ps|
    ensures forall k :: 0 <= k < |r| ==> r[k] != [] && IsStripped(r[k])
  {
    if ps == [] then []
    else (if Strip(ps[0]) != [] then [Strip(ps[0])] else []) + Clean(ps[1..])
  }

  lemma {:induction false} CleanAppend(a: seq<string>, b: seq<string>)
    ensures Clean(a + b) == Clean(a) + Clean(b)
  {
    if a != [] {
      assert (a + b)[0] == a[0] && (a + b)[1..] == a[1..] + b;
      CleanAppend(a[1..], b);
    } else {
      assert a + b == b;
    }
  }

  /** A matched operator or parenthesis comes out as a token of its own, between the
      tokens of the text before it and the tokens of the text after it. */
  lemma SeparatorToken(a: seq<string>, sep: string, b: seq<string>)
    requires IsSeparator(sep)
    ensures Clean(a + [sep] + b) == Clean(a) + [sep] + Clean(b)
  {
    CleanAppend(a + [sep], b);
    CleanAppend(a, [sep]);
    CleanSeparator(sep);
  }

  lemma CleanSeparator(sep: string)
    requires IsSeparator(sep)
    ensures Clean([sep]) == [sep]
  {
    SeparatorStripped(sep);
    assert [sep][0] == sep && [sep][1..] == [];
  }

  lemma SeparatorStripped(sep: string)
    requires IsSeparator(sep)
    ensures Strip(sep) == sep
  {
    assert |sep| > 0 && !IsSpace(sep[0]) && !IsSpace(sep[|sep| - 1]);
    StripOfStripped(sep);
  }

  /** A character of `strip(t)` is a character of `t`. */
  lemma StripKeeps(t: string, j: int)
    requires 0 <= j < |Strip(t)|
    ensures exists m :: 0 <= m < |t| && t[m] == Strip(t)[j]
  {
    var l := LStrip(t);
    var r := RStrip(l);
    assert r[j] == l[j];
    assert l[j] == t[|t| - |l| + j];
  }

  /** No whole-word `et` or `ou` anywhere in `t`. */
  predicate NoWordOperator(t: string) {
    forall j :: 0 <= j < |t| ==> !WordOperatorAt(t, j)
  }

  /** The text pieces (the even positions) of a split hold no whole-word operator. */
  predicate TextNoOperator(r: seq<string>) {
    forall k :: 0 <= k < |r| && k % 2 == 0 ==> NoWordOperator(r[k])
  }

  /** A cut `s[a..b]` that starts and ends at a word boundary of `s` (or at the ends of
      `s`) holds a whole-word operator only where `s` has one. */
  lemma CutNoOperator(s: string, a: nat, b: nat)
    requires a <= b <= |s|
    requires a == 0 || !WordAt(s, a - 1) || !WordAt(s, a)
    requires b == |s| || !WordAt(s, b) || !WordAt(s, b - 1)
    requires forall j :: a <= j < b ==> !WordOperatorAt(s, j)
    ensures NoWordOperator(s[a..b])
  {
    var p := s[a..b];
    forall j | 0 <= j < |p| ensures !WordOperatorAt(p, j) {
      assert WordOperatorAt(p, j) ==> WordOperatorAt(s, a + j);
    }
  }

  /** The text pieces of the split hold no whole-word operator: the scan left none in
      them, and each piece is cut at a separator, which sits at a word boundary. */
  lemma {:induction false} PiecesNoOperator(s: string, start: nat, i: nat)
    requires start <= i <= |s|
    requires NoParen(s[start..i])
    requires start == 0 || !WordAt(s, start - 1) || !WordAt(s, start)
    requires forall j :: start <= j < i ==> !WordOperatorAt(s, j)
    ensures TextNoOperator(Pieces(s, start, i))
    decreases |s| - i
  {
    if i == |s| {
      CutNoOperator(s, start, |s|);
      assert s[start..] == s[start..|s|];
    } else {
      var n := SeparatorAt(s, i);
      if n > 0 {
        SeparatorBounds(s, i);
        PiecesNoOperator(s, i + n, i + n);
        PiecesSeparatorStep(s, start, i);
      } else {
        assert s[start..i + 1] == s[start..i] + [s[i]];
        PiecesNoOperator(s, start, i + 1);
      }
    }
  }

  /** A separator ends the current piece, which the scan left free of operators, and the
      pieces after it hold none either. */
  lemma PiecesSeparatorStep(s: string, start: nat, i: nat)
    requires start <= i < |s| && NoParen(s[start..i]) && SeparatorAt(s, i) > 0
    requires start == 0 || !WordAt(s, start - 1) || !WordAt(s, start)
    requires forall j :: start <= j < i ==> !WordOperatorAt(s, j)
    requires TextNoOperator(Pieces(s, i + SeparatorAt(s, i), i + SeparatorAt(s, i)))
    ensures TextNoOperator(Pieces(s, start, i))
  {
    var n := SeparatorAt(s, i);
    SeparatorBounds(s, i);
    CutNoOperator(s, start, i);
    var rest := Pieces(s, i + n, i + n);
    var r := [s[start..i], s[i..i + n]] + rest;
    assert Pieces(s, start, i) == r;
    forall k | 0 <= k < |r| && k % 2 == 0 ensures NoWordOperator(r[k]) {
      if k >= 2 {
        assert r[k] == rest[k - 2];
      }
    }
  }

  /** A separator sits at word boundaries: before it and after it. */
  lemma SeparatorBounds(s: string, i: nat)
    requires i < |s| && SeparatorAt(s, i) > 0
    ensures var n := SeparatorAt(s, i);
      (!WordAt(s, i) || !WordAt(s, i - 1)) && (!WordAt(s, i + n - 1) || !WordAt(s, i + n))
  {
  }

  /** The separator pattern matches nowhere in `t`. */
  predicate SeparatorFree(t: string) {
    forall i :: 0 <= i < |t| ==> SeparatorAt(t, i) == 0
  }

  /** The split alternates text, which holds neither a parenthesis nor a whole-word
      operator, with separators. */
  lemma SplitTokenish(expr: string)
    ensures forall k :: 0 <= k < |Split(expr)| ==> Tokenish(Split(expr)[k])
  {
    var r := Pieces(expr, 0, 0);
    PiecesNoOperator(expr, 0, 0);
    forall k | 0 <= k < |r| ensures Tokenish(r[k]) {
      if k % 2 == 1 {
        assert IsSeparator(r[k]);
      }
    }
  }

  /** Tokens that are text are free of separators. */
  lemma TokensFree(ts: seq<string>)
    requires forall k :: 0 <= k < |ts| ==> Tokenish(ts[k])
    ensures forall k :: 0 <= k < |ts| ==> IsSeparator(ts[k]) || NoParen(ts[k])
    ensures forall k :: 0 <= k < |ts| && !IsSeparator(ts[k]) ==> SeparatorFree(ts[k])
  {
  }

  /** Stripping cuts at whitespace, which is not a word character, so it adds no
      whole-word operator. */
  lemma StripNoOperator(t: string)
    requires NoWordOperator(t)
    ensures NoWordOperator(Strip(t))
  {
    var l := LStrip(t);
    var a := |t| - |l|;
    var b := a + |Strip(t)|;
    assert Strip(t) == t[a..b];
    CutNoOperator(t, a, b);
  }

  /** A token that is an operator or parenthesis on its own, or text holding neither a
      parenthesis nor a whole-word operator. */
  predicate Tokenish(t: string) {
    IsSeparator(t) || (NoParen(t) && NoWordOperator(t))
  }

  lemma {:induction false} CleanParens(ps: seq<string>)
    requires forall k :: 0 <= k < |ps| ==> Tokenish(ps[k])
    ensures forall k :: 0 <= k < |Clean(ps)| ==> Tokenish(Clean(ps)[k])
  {
    if ps != [] {
      CleanParens(ps[1..]);
      StripTokenish(ps[0]);
      TokenishAppend(if Strip(ps[0]) != [] then [Strip(ps[0])] else [], Clean(ps[1..]));
    }
  }

  lemma StripTokenish(p: string)
    requires Tokenish(p)
    ensures Tokenish(Strip(p))
  {
    if IsSeparator(p) {
      SeparatorStripped(p);
    } else {
      forall j | 0 <= j < |Strip(p)| ensures Strip(p)[j] != '(' && Strip(p)[j] != ')' {
        StripKeeps(p, j);
      }
      StripNoOperator(p);
    }
  }

  lemma TokenishAppend(a: seq<string>, b: seq<string>)
    requires forall k :: 0 <= k < |a| ==> Tokenish(a[k])
    requires forall k :: 0 <= k < |b| ==> Tokenish(b[k])
    ensures forall k :: 0 <= k < |a + b| ==> Tokenish((a + b)[k])
  {
    forall k | 0 <= k < |a + b| ensures Tokenish((a + b)[k]) {
      if k >= |a| {
        assert (a + b)[k] == b[k - |a|];
      }
    }
  }

  /** `_tokenize_expression`: every token is trimmed and non-empty, and is either an
      operator or parenthesis on its own, or text in which the separator pattern matches
      nowhere: no parenthesis and no whole-word `et` or `ou`. */
  function Tokenize(expr: string): (r: seq<string>)
    ensures forall k :: 0 <= k < |r| ==> r[k] != [] && IsStripped(r[k])
    ensures forall k :: 0 <= k < |r| ==> IsSeparator(r[k]) || NoParen(r[k])
    ensures forall k :: 0 <= k < |r| && !IsSeparator(r[k]) ==> SeparatorFree(r[k])
  {
    SplitTokenish(expr);
    CleanParens(Split(expr));
    TokensFree(Clean(Split(expr)));
    Clean(Split(expr))
  }

  lemma EmptyTokens()
    ensures Tokenize("") == []
  {
    SplitEmpty();
    CleanEmptyPiece();
  }

  lemma SplitEmpty()
    ensures Split("") == [""]
  {
    assert ""[0..] == "";
  }

  lemma CleanEmptyPiece()
    ensures Clean([""]) == []
  {
    StripNothing();
    assert [""][0] == "" && [""][1..] == [];
  }

  // ---------------------------------------------------------------- postfix

  predicate IsOperator(t: string) {
    t == "et" || t == "ou"
  }

  function Precedence(t: string): (p: int)
    requires IsOperator(t)
    ensures p == 1 || p == 2
  {
    if t == "et" then 2 else 1
  }

  predicate IsParen(t: string) {
    t == "(" || t == ")"
  }

  /** A token the conversion copies straight to the output. */
  predicate IsOperand(t: string) {
    !IsOperator(AsciiLower(t)) && !IsParen(t)
  }

  lemma LowerOperator(t: string)
    requires IsOperator(t) || IsParen(t)
    ensures AsciiLower(t) == t
  {
  }

  /** `_to_postfix` uses `tok.lower()` only to look it up among the operators, and pushes
      it only when it is one. For that use the full lower-casing of `str.lower()` and the
      lower-casing of `A` to `Z` agree on every token, so the conversion below lower-cases
      with the latter. */
  lemma LowerExact(t: string)
    ensures IsOperator(Lower(t)) <==> IsOperator(AsciiLower(t))
    ensures IsOperator(Lower(t)) ==> Lower(t) == AsciiLower(t)
  {
    LowerToAscii(t, "et");
    LowerToAscii(t, "ou");
  }

  /** The state of `_to_postfix`: the output list and the operator stack (top last). */
  datatype Conv = Conv(output: seq<string>, stack: seq<string>)

  /** The inner `while` for an operator: pop while the top is an operator of at least
      precedence `p`. */
  function PopHigher(c: Conv, p: int): Conv
    decreases |c.stack|
  {
    if c.stack != [] && IsOperator(AsciiLower(Top(c.stack))) && Precedence(AsciiLower(Top(c.stack))) >= p
    then PopHigher(Conv(c.output + [Top(c.stack)], Pop(c.stack)), p)
    else c
  }

  /** The inner `while` for `)`: pop until a `(` is on top or the stack is empty. */
  function PopToOpen(c: Conv): Conv
    decreases |c.stack|
  {
    if c.stack != [] && Top(c.stack) != "(" then PopToOpen(Conv(c.output + [Top(c.stack)], Pop(c.stack)))
    else c
  }

  /** One iteration of the `for tok in tokens` loop. */
  function Step(c: Conv, tok: string): Conv {
    var ltok := AsciiLower(tok);
    if IsOperator(ltok) then
      var d := PopHigher(c, Precedence(ltok));
      Conv(d.output, d.stack + [ltok])
    else if tok == "(" then Conv(c.output, c.stack + [tok])
    else if tok == ")" then
      var d := PopToOpen(c);
      if d.stack != [] && Top(d.stack) == "(" then Conv(d.output, Pop(d.stack)) else d
    else Conv(c.output + [tok], c.stack)
  }

  function Run(c: Conv, tokens: seq<string>): Conv
    decreases |tokens|
  {
    if tokens == [] then c else Run(Step(c, tokens[0]), tokens[1..])
  }

  /** The final `while stack: output.append(stack.pop())`. */
  function Flush(c: Conv): seq<string>
    decreases |c.stack|
  {
    if c.stack == [] then c.output else Flush(Conv(c.output + [Top(c.stack)], Pop(c.stack)))
  }

  /** What `_to_postfix` returns. */
  function Postfix(tokens: seq<string>): seq<string> {
    Flush(Run(Conv([], []), tokens))
  }

  /** `_to_postfix`, with its output list and stack. */
  method ToPostfix(tokens: seq<string>) returns (output: seq<string>)
    ensures output == Postfix(tokens)
  {
    output := [];
    var stack: seq<string> := [];
    assert tokens[0..] == tokens;
    for i := 0 to |tokens|
      invariant Run(Conv(output, stack), tokens[i..]) == Run(Conv([], []), tokens)
    {
      assert tokens[i..][0] == tokens[i] && tokens[i..][1..] == tokens[i + 1..];
      ghost var before := Conv(output, stack);
      var tok := tokens[i];
      var ltok := AsciiLower(tok);
      if IsOperator(ltok) {
        while stack != [] && IsOperator(AsciiLower(stack[|stack| - 1]))
              && Precedence(AsciiLower(stack[|stack| - 1])) >= Precedence(ltok)
          invariant PopHigher(Conv(output, stack), Precedence(ltok)) == PopHigher(before, Precedence(ltok))
          decreases |stack|
        {
          output := output + [stack[|stack| - 1]];
          stack := stack[..|stack| - 1];
        }
        stack := stack + [ltok];
      } else if tok == "(" {
        stack := stack + [tok];
      } else if tok == ")" {
        while stack != [] && stack[|stack| - 1] != "("
          invariant PopToOpen(Conv(output, stack)) == PopToOpen(before)
          decreases |stack|
        {
          output := output + [stack[|stack| - 1]];
          stack := stack[..|stack| - 1];
        }
        if stack != [] && stack[|stack| - 1] == "(" {
          stack := stack[..|stack| - 1];
        }
      } else {
        output := output + [tok];
      }
      assert Conv(output, stack) == Step(before, tok);
    }
    ghost var final := Conv(output, stack);
    while stack != []
      invariant Flush(Conv(output, stack)) == Flush(final)
      decreases |stack|
    {
      output := output + [stack[|stack| - 1]];
      stack := stack[..|stack| - 1];
    }
  }

  // ---------------------------------------------------------------- evaluation

  /** The evaluation loop of `parse_validation_expression`, from a given node stack: an
      operator pops the right operand, then the left one. */
  function Eval(stack: seq<Node>, postfix: seq<string>): Result<seq<Node>>
    decreases |postfix|
  {
    if postfix == [] then Ok(stack)
    else if IsOperator(postfix[0]) then
      if |stack| < 2 then Fail(IndexError("pop from empty list"))
      else Eval(stack[..|stack| - 2] + [BinaryOp(postfix[0], stack[|stack| - 2], stack[|stack| - 1])], postfix[1..])
    else Eval(stack + [Atomic(postfix[0])], postfix[1..])
  }

  /** The evaluation loop, on a node stack. */
  method EvaluatePostfix(postfix: seq<string>) returns (r: Result<seq<Node>>)
    ensures r == Eval([], postfix)
  {
    var stack: seq<Node> := [];
    assert postfix[0..] == postfix;
    for i := 0 to |postfix|
      invariant Eval(stack, postfix[i..]) == Eval([], postfix)
    {
      assert postfix[i..][0] == postfix[i] && postfix[i..][1..] == postfix[i + 1..];
      var tok := postfix[i];
      if IsOperator(tok) {
        if |stack| < 2 {
          return Fail(IndexError("pop from empty list"));
        }
        var right := stack[|stack| - 1];
        var left := stack[|stack| - 2];
        stack := stack[..|stack| - 2] + [BinaryOp(tok, left, right)];
      } else {
        stack := stack + [Atomic(tok)];
      }
    }
    return Ok(stack);
  }

  /** The comprehension that sends every token other than `et`, `ou` and the parentheses
      through the alias resolver (`resolver.resolve(t)[0]`). */
  function Resolve(tokens: seq<string>, resolve: string -> string): (r: seq<string>)
    ensures |r| == |tokens|
    ensures forall k :: 0 <= k < |r| ==>
              r[k] == if IsSeparator(tokens[k]) then tokens[k] else resolve(tokens[k])
  {
    seq(|tokens|, k requires 0 <= k < |tokens| =>
      if IsSeparator(tokens[k]) then tokens[k] else resolve(tokens[k]))
  }

  /** The tree `parse_validation_expression` returns for resolved tokens: `stack[0]`. */
  function ParseTokens(tokens: seq<string>): Result<Node> {
    var st :- Eval([], Postfix(tokens));
    if st == [] then Fail(IndexError("list index out of range")) else Ok(st[0])
  }

  function Parse(expression: string, resolve: string -> string): Result<Node> {
    ParseTokens(Resolve(Tokenize(expression), resolve))
  }

  /** `parse_validation_expression`. */
  method ParseValidationExpression(expression: string, resolve: string -> string) returns (r: Result<Node>)
    ensures r == Parse(expression, resolve)
  {
    var tokens := Tokenize(expression);
    tokens := Resolve(tokens, resolve);
    var postfix := ToPostfix(tokens);
    var stack :- EvaluatePostfix(postfix);
    if stack == [] {
      return Fail(IndexError("list index out of range"));
    }
    return Ok(stack[0]);
  }

  /** An expression with no token fails on `stack[0]`. */
  lemma EmptyExpressionFails(resolve: string -> string)
    ensures Parse("", resolve) == Fail(IndexError("list index out of range"))
  {
    EmptyTokens();
    ResolveNothing(resolve);
    assert Postfix([]) == [];
  }

  lemma ResolveNothing(resolve: string -> string)
    ensures Resolve([], resolve) == []
  {
  }

  // ---------------------------------------------------------------- parentheses and operands

  /** The tokens of a list that satisfy `f`, in order. */
  function Keep(s: seq<string>, f: string -> bool): (r: seq<string>)
    ensures |r| <= |s|
  {
    if s == [] then [] else Keep(Pop(s), f) + (if f(Top(s)) then [Top(s)] else [])
  }

  lemma {:induction false} KeepAppend(a: seq<string>, b: seq<string>, f: string -> bool)
    ensures Keep(a + b, f) == Keep(a, f) + Keep(b, f)
    decreases |b|
  {
    if b == [] {
      assert a + b == a;
    } else {
      assert Pop(a + b) == a + Pop(b) && Top(a + b) == Top(b);
      KeepAppend(a, Pop(b), f);
    }
  }

  function Operands(s: seq<string>): seq<string> {
    Keep(s, IsOperand)
  }

  /** Nesting depth of the tokens: a `(` opens, a `)` closes the innermost open one and
      is ignored when none is open. */
  function DepthStep(d: nat, tok: string): nat {
    if AsciiLower(tok) == "et" || AsciiLower(tok) == "ou" then d
    else if tok == "(" then d + 1
    else if tok == ")" then (if d > 0 then d - 1 else 0)
    else d
  }

  function DepthFrom(d: nat, tokens: seq<string>): nat
    decreases |tokens|
  {
    if tokens == [] then d else DepthFrom(DepthStep(d, tokens[0]), tokens[1..])
  }

  /** The number of `(` left unclosed at the end of the tokens. */
  function Depth(tokens: seq<string>): nat {
    DepthFrom(0, tokens)
  }

  function Opens(st: seq<string>): nat {
    if st == [] then 0 else Opens(Pop(st)) + (if Top(st) == "(" then 1 else 0)
  }

  lemma {:induction false} OpensIn(st: seq<string>)
    ensures Opens(st) > 0 <==> "(" in st
  {
    if st != [] {
      OpensIn(Pop(st));
      assert st == Pop(st) + [Top(st)];
    }
  }

  /** Every output token so far is an operator or an operand, so no parenthesis. */
  predicate OutputOk(out: seq<string>) {
    forall t :: t in out ==> IsOperator(t) || IsOperand(t)
  }

  predicate StackOk(st: seq<string>) {
    forall t :: t in st ==> IsOperator(t) || t == "("
  }

  lemma PopOne(c: Conv)
    requires OutputOk(c.output) && StackOk(c.stack) && c.stack != [] && Top(c.stack) != "("
    ensures OutputOk(c.output + [Top(c.stack)]) && StackOk(Pop(c.stack))
    ensures Opens(Pop(c.stack)) == Opens(c.stack)
    ensures Operands(c.output + [Top(c.stack)]) == Operands(c.output)
  {
    assert Top(c.stack) in c.stack;
    LowerOperator(Top(c.stack));
    assert Pop(c.output + [Top(c.stack)]) == c.output;
  }

  lemma {:induction false} PopHigherProps(c: Conv, p: int)
    requires OutputOk(c.output) && StackOk(c.stack)
    ensures var d := PopHigher(c, p);
      OutputOk(d.output) && StackOk(d.stack) && Opens(d.stack) == Opens(c.stack)
      && Operands(d.output) == Operands(c.output)
    decreases |c.stack|
  {
    if c.stack != [] && IsOperator(AsciiLower(Top(c.stack))) && Precedence(AsciiLower(Top(c.stack))) >= p {
      assert Top(c.stack) != "(";
      PopOne(c);
      PopHigherProps(Conv(c.output + [Top(c.stack)], Pop(c.stack)), p);
    }
  }

  lemma {:induction false} PopToOpenProps(c: Conv)
    requires OutputOk(c.output) && StackOk(c.stack)
    ensures var d := PopToOpen(c);
      OutputOk(d.output) && StackOk(d.stack) && Opens(d.stack) == Opens(c.stack)
      && Operands(d.output) == Operands(c.output) && (d.stack == [] || Top(d.stack) == "(")
    decreases |c.stack|
  {
    if c.stack != [] && Top(c.stack) != "(" {
      PopOne(c);
      PopToOpenProps(Conv(c.output + [Top(c.stack)], Pop(c.stack)));
    }
  }

  /** What one step keeps: the shapes of output and stack, the open parentheses and
      the operands. */
  ghost predicate StepKeeps(c: Conv, tok: string) {
    var d := Step(c, tok);
    OutputOk(d.output) && StackOk(d.stack) && Opens(d.stack) == DepthStep(Opens(c.stack), tok)
    && Operands(d.output) == Operands(c.output) + Operands([tok])
  }

  lemma StepOperatorKeeps(c: Conv, tok: string)
    requires OutputOk(c.output) && StackOk(c.stack) && IsOperator(AsciiLower(tok))
    ensures StepKeeps(c, tok)
  {
    var ltok := AsciiLower(tok);
    var d := PopHigher(c, Precedence(ltok));
    PopHigherProps(c, Precedence(ltok));
    PopAppend(d.stack, [ltok]);
    assert Keep([tok], IsOperand) == [] by {
      assert Pop([tok]) == [] && Top([tok]) == tok;
    }
  }

  lemma StepOpenKeeps(c: Conv, tok: string)
    requires OutputOk(c.output) && StackOk(c.stack) && !IsOperator(AsciiLower(tok)) && tok == "("
    ensures StepKeeps(c, tok)
  {
    PopAppend(c.stack, [tok]);
    assert Keep([tok], IsOperand) == [] by {
      assert Pop([tok]) == [] && Top([tok]) == tok;
    }
  }

  lemma StepCloseKeeps(c: Conv, tok: string)
    requires OutputOk(c.output) && StackOk(c.stack) && !IsOperator(AsciiLower(tok)) && tok == ")"
    ensures StepKeeps(c, tok)
  {
    PopToOpenProps(c);
    var d := PopToOpen(c);
    if d.stack != [] {
      PopTop(d.stack);
    }
    assert Keep([tok], IsOperand) == [] by {
      assert Pop([tok]) == [] && Top([tok]) == tok;
    }
  }

  lemma StepOperandKeeps(c: Conv, tok: string)
    requires OutputOk(c.output) && StackOk(c.stack) && !IsOperator(AsciiLower(tok))
    requires tok != "(" && tok != ")"
    ensures StepKeeps(c, tok)
  {
    assert Pop([tok]) == [] && Top([tok]) == tok;
    PopAppend(c.output, [tok]);
  }

  lemma StepProps(c: Conv, tok: string)
    requires OutputOk(c.output) && StackOk(c.stack)
    ensures var d := Step(c, tok);
      OutputOk(d.output) && StackOk(d.stack) && Opens(d.stack) == DepthStep(Opens(c.stack), tok)
      && Operands(d.output) == Operands(c.output) + Operands([tok])
  {
    if IsOperator(AsciiLower(tok)) {
      StepOperatorKeeps(c, tok);
    } else if tok == "(" {
      StepOpenKeeps(c, tok);
    } else if tok == ")" {
      StepCloseKeeps(c, tok);
    } else {
      StepOperandKeeps(c, tok);
    }
  }

  lemma {:induction false} RunProps(c: Conv, tokens: seq<string>)
    requires OutputOk(c.output) && StackOk(c.stack)
    ensures var d := Run(c, tokens);
      OutputOk(d.output) && StackOk(d.stack) && Opens(d.stack) == DepthFrom(Opens(c.stack), tokens)
      && Operands(d.output) == Operands(c.output) + Operands(tokens)
    decreases |tokens|
  {
    if tokens != [] {
      var d := Step(c, tokens[0]);
      StepProps(c, tokens[0]);
      RunProps(d, tokens[1..]);
      HeadTail(tokens);
      KeepAppend([tokens[0]], tokens[1..], IsOperand);
      AppendAssoc(Operands(c.output), Operands([tokens[0]]), Operands(tokens[1..]));
    }
  }

  /** Popping the whole stack appends it to the output, top first. */
  function Reversed(st: seq<string>): seq<string> {
    if st == [] then [] else [Top(st)] + Reversed(Pop(st))
  }

  lemma {:induction false} FlushIs(c: Conv)
    ensures Flush(c) == c.output + Reversed(c.stack)
    decreases |c.stack|
  {
    if c.stack != [] {
      FlushIs(Conv(c.output + [Top(c.stack)], Pop(c.stack)));
    }
  }

  lemma {:induction false} ReversedProps(st: seq<string>)
    requires StackOk(st)
    ensures ")" !in Reversed(st)
    ensures "(" in Reversed(st) <==> "(" in st
    ensures Operands(Reversed(st)) == []
  {
    if st != [] {
      assert Top(st) in st;
      assert st == Pop(st) + [Top(st)];
      ReversedProps(Pop(st));
      KeepAppend([Top(st)], Reversed(Pop(st)), IsOperand);
      assert Pop([Top(st)]) == [];
      LowerOperator(Top(st));
    }
  }

  /** `)` never reaches the postfix output, and `(` reaches it exactly when a `(` of the
      expression is left unclosed. */
  lemma PostfixParens(tokens: seq<string>)
    ensures ")" !in Postfix(tokens)
    ensures "(" in Postfix(tokens) <==> Depth(tokens) > 0
  {
    var c := Run(Conv([], []), tokens);
    RunProps(Conv([], []), tokens);
    FlushIs(c);
    ReversedProps(c.stack);
    OpensIn(c.stack);
    assert ")" !in c.output && "(" !in c.output by {
      LowerOperator("(");
      LowerOperator(")");
    }
  }

  /** With every `(` closed the postfix output holds no parenthesis at all. */
  lemma BalancedPostfix(tokens: seq<string>)
    requires Depth(tokens) == 0
    ensures forall k :: 0 <= k < |Postfix(tokens)| ==> !IsParen(Postfix(tokens)[k])
  {
    PostfixParens(tokens);
  }

  /** The operand tokens reach the postfix output in their original order. */
  lemma PostfixOperands(tokens: seq<string>)
    ensures Operands(Postfix(tokens)) == Operands(tokens)
  {
    var c := Run(Conv([], []), tokens);
    RunProps(Conv([], []), tokens);
    FlushIs(c);
    ReversedProps(c.stack);
    KeepAppend(c.output, Reversed(c.stack), IsOperand);
  }

  // ---------------------------------------------------------------- evaluation order

  predicate NotOperator(t: string) {
    !IsOperator(t)
  }

  lemma {:induction false} EvalAppend(ns: seq<Node>, a: seq<string>, b: seq<string>)
    requires Eval(ns, a).Ok?
    ensures Eval(ns, a + b) == Eval(Eval(ns, a).value, b)
    decreases |a|
  {
    if a == [] {
      assert a + b == b;
    } else {
      assert (a + b)[0] == a[0] && (a + b)[1..] == a[1..] + b;
      if IsOperator(a[0]) {
        EvalAppend(ns[..|ns| - 2] + [BinaryOp(a[0], ns[|ns| - 2], ns[|ns| - 1])], a[1..], b);
      } else {
        EvalAppend(ns + [Atomic(a[0])], a[1..], b);
      }
    }
  }

  /** The stack evaluation keeps the leaves in postfix order: an operator builds
      `BinaryOp(op, left, right)` with `left` the node below `right`. */
  lemma {:induction false} EvalLeaves(ns: seq<Node>, postfix: seq<string>)
    requires Eval(ns, postfix).Ok?
    ensures LeavesOf(Eval(ns, postfix).value) == LeavesOf(ns) + Keep(postfix, NotOperator)
    decreases |postfix|
  {
    if postfix != [] {
      var tok := postfix[0];
      assert postfix == [tok] + postfix[1..];
      KeepAppend([tok], postfix[1..], NotOperator);
      assert Pop([tok]) == [] && Top([tok]) == tok;
      if IsOperator(tok) {
        var pre := ns[..|ns| - 2];
        var l, r := ns[|ns| - 2], ns[|ns| - 1];
        var ns' := pre + [BinaryOp(tok, l, r)];
        EvalLeaves(ns', postfix[1..]);
        assert Pop(ns') == pre && Top(ns') == BinaryOp(tok, l, r);
        assert Pop(ns) == pre + [l] && Top(ns) == r;
        assert Pop(pre + [l]) == pre && Top(pre + [l]) == l;
      } else {
        var ns' := ns + [Atomic(tok)];
        EvalLeaves(ns', postfix[1..]);
        assert Pop(ns') == ns && Top(ns') == Atomic(tok);
      }
    }
  }

  // ---------------------------------------------------------------- precedence

  /** Operands at the even positions, operators (in any case) at the odd ones. */
  predicate Alternating(tokens: seq<string>) {
    |tokens| % 2 == 1
    && forall k :: 0 <= k < |tokens| ==>
         if k % 2 == 0 then IsOperand(tokens[k]) else IsOperator(AsciiLower(tokens[k]))
  }

  /** Dropping the last operator and operand keeps the list alternating. */
  lemma AlternatingPrefix(tokens: seq<string>)
    requires Alternating(tokens) && |tokens| > 1
    ensures Alternating(tokens[..|tokens| - 2])
    ensures IsOperator(AsciiLower(tokens[|tokens| - 2])) && IsOperand(tokens[|tokens| - 1])
  {
    var pre := tokens[..|tokens| - 2];
    assert forall k :: 0 <= k < |pre| ==> pre[k] == tokens[k];
  }

  predicate NonEmptyGroups(gs: seq<seq<string>>) {
    gs != [] && forall k :: 0 <= k < |gs| ==> gs[k] != []
  }

  /** The operands of an alternating list, cut into the runs joined by `et` that the
      `ou` operators separate. */
  function Groups(tokens: seq<string>): (gs: seq<seq<string>>)
    requires Alternating(tokens)
    ensures NonEmptyGroups(gs)
    decreases |tokens|
  {
    if |tokens| == 1 then [[tokens[0]]]
    else
      var pre := tokens[..|tokens| - 2];
      assert forall k :: 0 <= k < |pre| ==> pre[k] == tokens[k];
      var gs := Groups(pre);
      var a := tokens[|tokens| - 1];
      if AsciiLower(tokens[|tokens| - 2]) == "ou" then gs + [[a]]
      else Pop(gs) + [Top(gs) + [a]]
  }

  /** `a1 et a2 et … et an`, grouped to the left. */
  function AndChain(atoms: seq<string>): Node
    requires atoms != []
    decreases |atoms|
  {
    if |atoms| == 1 then Atomic(atoms[0]) else BinaryOp("et", AndChain(Pop(atoms)), Atomic(Top(atoms)))
  }

  /** `g1 ou g2 ou … ou gn` over `et`-chains, grouped to the left. */
  function OrChain(gs: seq<seq<string>>): Node
    requires NonEmptyGroups(gs)
    decreases |gs|
  {
    if |gs| == 1 then AndChain(gs[0]) else BinaryOp("ou", OrChain(Pop(gs)), AndChain(Top(gs)))
  }

  /** The tree the grammar `E := T (ou T)*`, `T := atom (et atom)*`, with both operators
      associating to the left, gives an alternating token list. */
  function Reference(tokens: seq<string>): Node
    requires Alternating(tokens)
  {
    OrChain(Groups(tokens))
  }

  lemma {:induction false} RunAppend(c: Conv, a: seq<string>, b: seq<string>)
    ensures Run(c, a + b) == Run(Run(c, a), b)
    decreases |a|
  {
    if a == [] {
      assert a + b == b;
    } else {
      assert (a + b)[0] == a[0] && (a + b)[1..] == a[1..] + b;
      RunAppend(Step(c, a[0]), a[1..], b);
    }
  }

  /** The operator stack after an operand: an `ou` under the current `et`-chain when one
      was closed, an `et` while the current chain has more than one operand. */
  function PendingOps(gs: seq<seq<string>>): seq<string>
    requires NonEmptyGroups(gs)
  {
    (if |gs| > 1 then ["ou"] else []) + (if |Top(gs)| > 1 then ["et"] else [])
  }

  /** The node stack that evaluating the output gives after an operand. */
  function PendingNodes(gs: seq<seq<string>>): seq<Node>
    requires NonEmptyGroups(gs)
  {
    (if |gs| > 1 then [OrChain(Pop(gs))] else [])
    + (if |Top(gs)| > 1 then [AndChain(Pop(Top(gs))), Atomic(Top(Top(gs)))] else [Atomic(Top(gs)[0])])
  }

  /** An operator combines the two top nodes. */
  lemma EvalCombine(pre: seq<Node>, l: Node, r: Node, op: string, rest: seq<string>)
    requires IsOperator(op)
    ensures Eval(pre + [l, r], [op] + rest) == Eval(pre + [BinaryOp(op, l, r)], rest)
  {
    var ns := pre + [l, r];
    assert ns[..|ns| - 2] == pre && ns[|ns| - 2] == l && ns[|ns| - 1] == r;
    assert ([op] + rest)[0] == op && ([op] + rest)[1..] == rest;
  }

  /** Applying the pending operators to the pending nodes gives the reference tree. */
  lemma FlushPending(gs: seq<seq<string>>)
    requires NonEmptyGroups(gs)
    ensures Eval(PendingNodes(gs), Reversed(PendingOps(gs))) == Ok([OrChain(gs)])
  {
    if |gs| > 1 && |Top(gs)| > 1 {
      FlushOrAnd(gs);
    } else if |gs| > 1 {
      FlushOr(gs);
    } else if |Top(gs)| > 1 {
      FlushAnd(gs);
    } else {
      assert PendingOps(gs) == [] && Reversed([]) == [];
      assert PendingNodes(gs) == [Atomic(Top(gs)[0])];
    }
  }

  /** A single operator combines the two nodes it finds. */
  lemma FlushOne(l: Node, r: Node, op: string)
    requires IsOperator(op)
    ensures Eval([l, r], Reversed([op])) == Ok([BinaryOp(op, l, r)])
  {
    assert Pop([op]) == [] && Top([op]) == op;
    assert Reversed([op]) == [op] + [];
    assert [l, r] == [] + [l, r];
    EvalCombine([], l, r, op, []);
    assert [] + [BinaryOp(op, l, r)] == [BinaryOp(op, l, r)];
  }

  lemma FlushOr(gs: seq<seq<string>>)
    requires NonEmptyGroups(gs) && |gs| > 1 && |Top(gs)| == 1
    ensures Eval(PendingNodes(gs), Reversed(PendingOps(gs))) == Ok([OrChain(gs)])
  {
    var p, r := OrChain(Pop(gs)), AndChain(Top(gs));
    assert PendingOps(gs) == ["ou"];
    assert PendingNodes(gs) == [p, r];
    FlushOne(p, r, "ou");
  }

  lemma FlushAnd(gs: seq<seq<string>>)
    requires NonEmptyGroups(gs) && |gs| == 1 && |Top(gs)| > 1
    ensures Eval(PendingNodes(gs), Reversed(PendingOps(gs))) == Ok([OrChain(gs)])
  {
    var g := Top(gs);
    var l, r := AndChain(Pop(g)), Atomic(Top(g));
    assert PendingOps(gs) == ["et"];
    assert PendingNodes(gs) == [l, r];
    assert OrChain(gs) == AndChain(g);
    FlushOne(l, r, "et");
  }

  lemma FlushOrAnd(gs: seq<seq<string>>)
    requires NonEmptyGroups(gs) && |gs| > 1 && |Top(gs)| > 1
    ensures Eval(PendingNodes(gs), Reversed(PendingOps(gs))) == Ok([OrChain(gs)])
  {
    var g := Top(gs);
    var p, l, r := OrChain(Pop(gs)), AndChain(Pop(g)), Atomic(Top(g));
    var ops := PendingOps(gs);
    assert ops == ["ou", "et"];
    assert Top(ops) == "et" && Pop(ops) == ["ou"] && Pop(["ou"]) == [];
    assert Reversed(ops) == ["et"] + ["ou"];
    assert PendingNodes(gs) == [p] + [l, r];
    EvalCombine([p], l, r, "et", ["ou"]);
    assert [p] + [BinaryOp("et", l, r)] == [] + [p, BinaryOp("et", l, r)];
    EvalCombine([], p, BinaryOp("et", l, r), "ou", []);
    assert ["ou"] + [] == ["ou"];
    assert [] + [BinaryOp("ou", p, BinaryOp("et", l, r))] == [BinaryOp("ou", p, BinaryOp("et", l, r))];
  }

  /** With only operators on the stack, an `ou` pops all of them. */
  lemma {:induction false} PopAllOperators(c: Conv)
    requires forall t :: t in c.stack ==> IsOperator(t)
    ensures PopHigher(c, 1) == Conv(c.output + Reversed(c.stack), [])
    decreases |c.stack|
  {
    if c.stack != [] {
      assert Top(c.stack) in c.stack;
      LowerOperator(Top(c.stack));
      var c' := Conv(c.output + [Top(c.stack)], Pop(c.stack));
      assert forall t :: t in c'.stack ==> t in c.stack;
      PopAllOperators(c');
    }
  }

  /** The conversion state after an operand, for the groups read so far. */
  predicate PendingState(c: Conv, gs: seq<seq<string>>)
    requires NonEmptyGroups(gs)
  {
    c.stack == PendingOps(gs) && Eval([], c.output) == Ok(PendingNodes(gs))
  }

  /** An operand is appended to the output and pushed as a leaf by the evaluation. */
  lemma ShiftOperand(c: Conv, nodes: seq<Node>, a: string)
    requires IsOperand(a) && Eval([], c.output) == Ok(nodes)
    ensures Step(c, a) == Conv(c.output + [a], c.stack)
    ensures Eval([], Step(c, a).output) == Ok(nodes + [Atomic(a)])
  {
    EvalAppend([], c.output, [a]);
    assert [a][1..] == [];
  }

  /** `ou` then an operand: every pending operator is applied and a new group starts. */
  lemma ShiftOu(c: Conv, gs: seq<seq<string>>, op: string, a: string)
    requires NonEmptyGroups(gs) && PendingState(c, gs)
    requires AsciiLower(op) == "ou" && IsOperand(a)
    ensures NonEmptyGroups(gs + [[a]]) && PendingState(Step(Step(c, op), a), gs + [[a]])
  {
    var gs' := gs + [[a]];
    assert Pop(gs') == gs && Top(gs') == [a];
    OuOperator(c, gs, op);
    ShiftOperand(Step(c, op), [OrChain(gs)], a);
    assert PendingOps(gs') == ["ou"];
    assert PendingNodes(gs') == [OrChain(gs), Atomic(a)];
  }

  /** An `ou` applies every pending operator and is pushed alone. */
  lemma OuOperator(c: Conv, gs: seq<seq<string>>, op: string)
    requires NonEmptyGroups(gs) && PendingState(c, gs) && AsciiLower(op) == "ou"
    ensures Step(c, op) == Conv(c.output + Reversed(c.stack), ["ou"])
    ensures Eval([], Step(c, op).output) == Ok([OrChain(gs)])
  {
    assert forall t :: t in c.stack ==> IsOperator(t);
    PopAllOperators(c);
    FlushPending(gs);
    EvalAppend([], c.output, Reversed(c.stack));
  }

  /** `et` then an operand: the operand joins the current group. */
  lemma ShiftEt(c: Conv, gs: seq<seq<string>>, op: string, a: string)
    requires NonEmptyGroups(gs) && PendingState(c, gs)
    requires AsciiLower(op) == "et" && IsOperand(a)
    ensures NonEmptyGroups(Pop(gs) + [Top(gs) + [a]])
    ensures PendingState(Step(Step(c, op), a), Pop(gs) + [Top(gs) + [a]])
  {
    var g := Top(gs);
    var gs' := Pop(gs) + [g + [a]];
    assert Pop(gs') == Pop(gs) && Top(gs') == g + [a] && Pop(g + [a]) == g && Top(g + [a]) == a;
    LowerOperator("et");
    LowerOperator("ou");
    if |g| > 1 {
      ShiftEtChain(c, gs, op, a);
    } else {
      ShiftEtFirst(c, gs, op, a);
    }
  }

  /** The pending `et` of the current group is applied before the new one is pushed. */
  lemma ShiftEtChain(c: Conv, gs: seq<seq<string>>, op: string, a: string)
    requires NonEmptyGroups(gs) && PendingState(c, gs) && |Top(gs)| > 1
    requires AsciiLower(op) == "et" && IsOperand(a)
    ensures PendingState(Step(Step(c, op), a), Pop(gs) + [Top(gs) + [a]])
  {
    var g := Top(gs);
    var gs' := Pop(gs) + [g + [a]];
    var front := if |gs| > 1 then [OrChain(Pop(gs))] else [];
    var ups := if |gs| > 1 then ["ou"] else [];
    var d := Step(c, op);
    EtChainOperator(c, gs, op);
    ShiftOperand(d, front + [AndChain(g)], a);
    assert Pop(gs') == Pop(gs) && Top(gs') == g + [a] && Pop(g + [a]) == g && Top(g + [a]) == a;
    assert PendingNodes(gs') == front + [AndChain(g), Atomic(a)];
    assert front + [AndChain(g)] + [Atomic(a)] == front + [AndChain(g), Atomic(a)];
    assert PendingOps(gs') == ups + ["et"];
  }

  /** An `et` after a longer group: the pending `et` goes to the output, the new one on the stack. */
  lemma EtChainOperator(c: Conv, gs: seq<seq<string>>, op: string)
    requires NonEmptyGroups(gs) && PendingState(c, gs) && |Top(gs)| > 1
    requires AsciiLower(op) == "et"
    ensures Step(c, op) == Conv(c.output + ["et"], (if |gs| > 1 then ["ou"] else []) + ["et"])
    ensures Eval([], Step(c, op).output)
            == Ok((if |gs| > 1 then [OrChain(Pop(gs))] else []) + [AndChain(Top(gs))])
  {
    var g := Top(gs);
    LowerOperator("et");
    LowerOperator("ou");
    var front := if |gs| > 1 then [OrChain(Pop(gs))] else [];
    var ups := if |gs| > 1 then ["ou"] else [];
    var l, r := AndChain(Pop(g)), Atomic(Top(g));
    assert c.stack == ups + ["et"] && Pop(c.stack) == ups && Top(c.stack) == "et";
    assert PendingNodes(gs) == front + [l, r];
    assert PopHigher(Conv(c.output + ["et"], ups), 2) == Conv(c.output + ["et"], ups);
    EvalAppend([], c.output, ["et"]);
    EvalCombine(front, l, r, "et", []);
    assert ["et"] + [] == ["et"];
    assert AndChain(g) == BinaryOp("et", l, r);
  }

  /** The first `et` of a group is pushed above a pending `ou`, if any. */
  lemma ShiftEtFirst(c: Conv, gs: seq<seq<string>>, op: string, a: string)
    requires NonEmptyGroups(gs) && PendingState(c, gs) && |Top(gs)| == 1
    requires AsciiLower(op) == "et" && IsOperand(a)
    ensures PendingState(Step(Step(c, op), a), Pop(gs) + [Top(gs) + [a]])
  {
    var g := Top(gs);
    var gs' := Pop(gs) + [g + [a]];
    assert Pop(gs') == Pop(gs) && Top(gs') == g + [a] && Pop(g + [a]) == g && Top(g + [a]) == a;
    LowerOperator("et");
    LowerOperator("ou");
    var front := if |gs| > 1 then [OrChain(Pop(gs))] else [];
    var ups := if |gs| > 1 then ["ou"] else [];
    assert c.stack == ups;
    assert PopHigher(c, 2) == c;
    var d := Step(c, op);
    assert d == Conv(c.output, ups + ["et"]);
    ShiftOperand(d, PendingNodes(gs), a);
    assert PendingNodes(gs) == front + [Atomic(g[0])];
    assert AndChain(g) == Atomic(g[0]);
    assert PendingNodes(gs') == front + [AndChain(g), Atomic(a)];
    assert PendingOps(gs') == ups + ["et"];
    assert PendingNodes(gs) + [Atomic(a)] == PendingNodes(gs');
  }

  /** Running a list that ends in an operator and an operand takes those two steps last. */
  lemma RunPair(c0: Conv, pre: seq<string>, op: string, a: string)
    ensures Run(c0, pre + [op, a]) == Step(Step(Run(c0, pre), op), a)
  {
    var c := Run(c0, pre);
    RunAppend(c0, pre, [op, a]);
    assert [op, a][0] == op && [op, a][1..] == [a] && [a][1..] == [];
    assert Run(Step(c, op), [a]) == Step(Step(c, op), a);
  }

  /** The shunting-yard state after each operand of an alternating list. */
  lemma {:induction false} RunAlternating(tokens: seq<string>)
    requires Alternating(tokens)
    ensures PendingState(Run(Conv([], []), tokens), Groups(tokens))
    decreases |tokens|
  {
    if |tokens| == 1 {
      assert tokens == [tokens[0]] && tokens[1..] == [];
      assert IsOperand(tokens[0]);
      ShiftOperand(Conv([], []), [], tokens[0]);
      assert Pop([[tokens[0]]]) == [] && Top([[tokens[0]]]) == [tokens[0]];
    } else {
      var pre := tokens[..|tokens| - 2];
      var op, a := tokens[|tokens| - 2], tokens[|tokens| - 1];
      AlternatingPrefix(tokens);
      RunAlternating(pre);
      var c := Run(Conv([], []), pre);
      LastTwo(tokens);
      RunPair(Conv([], []), pre, op, a);
      if AsciiLower(op) == "ou" {
        ShiftOu(c, Groups(pre), op, a);
      } else {
        ShiftEt(c, Groups(pre), op, a);
      }
    }
  }

  /** For an alternating list, `et` binds tighter than `ou` and both associate to the left:
      the parse is the reference tree, the only node left on the stack. */
  lemma AlternatingParse(tokens: seq<string>)
    requires Alternating(tokens)
    ensures Eval([], Postfix(tokens)) == Ok([Reference(tokens)])
    ensures ParseTokens(tokens) == Ok(Reference(tokens))
  {
    var c := Run(Conv([], []), tokens);
    RunAlternating(tokens);
    FlushIs(c);
    FlushPending(Groups(tokens));
    EvalAppend([], c.output, Reversed(c.stack));
  }

  function Flat(gs: seq<seq<string>>): seq<string> {
    if gs == [] then [] else Flat(Pop(gs)) + Top(gs)
  }

  lemma {:induction false} AndChainLeaves(atoms: seq<string>)
    requires atoms != []
    ensures Leaves(AndChain(atoms)) == atoms
    decreases |atoms|
  {
    if |atoms| > 1 {
      AndChainLeaves(Pop(atoms));
      assert atoms == Pop(atoms) + [Top(atoms)];
    }
  }

  lemma {:induction false} OrChainLeaves(gs: seq<seq<string>>)
    requires NonEmptyGroups(gs)
    ensures Leaves(OrChain(gs)) == Flat(gs)
    decreases |gs|
  {
    AndChainLeaves(Top(gs));
    if |gs| > 1 {
      OrChainLeaves(Pop(gs));
    } else {
      assert Pop(gs) == [];
    }
  }

  lemma OperandsSnoc(pre: seq<string>, op: string, a: string)
    requires IsOperator(AsciiLower(op)) && IsOperand(a)
    ensures Operands(pre + [op, a]) == Operands(pre) + [a]
  {
    var t := pre + [op, a];
    assert Pop(t) == pre + [op] && Top(t) == a;
    assert Pop(pre + [op]) == pre && Top(pre + [op]) == op;
    assert !IsOperand(op);
    assert Keep(pre + [op], IsOperand) == Keep(pre, IsOperand);
    assert Keep(t, IsOperand) == Keep(pre + [op], IsOperand) + [a];
  }

  lemma FlatExtend(gs: seq<seq<string>>, a: string)
    requires gs != []
    ensures Flat(gs + [[a]]) == Flat(gs) + [a]
    ensures Flat(Pop(gs) + [Top(gs) + [a]]) == Flat(gs) + [a]
  {
    assert Pop(gs + [[a]]) == gs && Top(gs + [[a]]) == [a];
    var gs' := Pop(gs) + [Top(gs) + [a]];
    assert Pop(gs') == Pop(gs) && Top(gs') == Top(gs) + [a];
  }

  lemma {:induction false} GroupsFlat(tokens: seq<string>)
    requires Alternating(tokens)
    ensures Flat(Groups(tokens)) == Operands(tokens)
    ensures |Operands(tokens)| == |tokens| / 2 + 1
    decreases |tokens|
  {
    if |tokens| == 1 {
      assert Pop(tokens) == [] && Top(tokens) == tokens[0];
      assert Pop([[tokens[0]]]) == [] && Top([[tokens[0]]]) == [tokens[0]];
    } else {
      var pre := tokens[..|tokens| - 2];
      var op, a := tokens[|tokens| - 2], tokens[|tokens| - 1];
      AlternatingPrefix(tokens);
      GroupsFlat(pre);
      LastTwo(tokens);
      OperandsSnoc(pre, op, a);
      FlatExtend(Groups(pre), a);
    }
  }

  /** A well-formed expression of n operands and n-1 operators gives a tree with n
      leaves, the operands in their left-to-right order. */
  lemma ReferenceLeaves(tokens: seq<string>)
    requires Alternating(tokens)
    ensures Leaves(Reference(tokens)) == Operands(tokens)
    ensures |Leaves(Reference(tokens))| == |tokens| / 2 + 1
  {
    OrChainLeaves(Groups(tokens));
    GroupsFlat(tokens);
  }

  lemma GroupsOne(a: string)
    requires IsOperand(a)
    ensures Alternating([a]) && Groups([a]) == [[a]]
  {
  }

  /** One more operator and operand: `ou` opens a group, `et` extends the last one. */
  lemma GroupsSnoc(pre: seq<string>, op: string, a: string)
    requires Alternating(pre) && IsOperator(AsciiLower(op)) && IsOperand(a)
    ensures Alternating(pre + [op, a])
    ensures Groups(pre + [op, a])
            == if AsciiLower(op) == "ou" then Groups(pre) + [[a]] else Pop(Groups(pre)) + [Top(Groups(pre)) + [a]]
  {
    var t := pre + [op, a];
    assert forall k :: 0 <= k < |pre| ==> t[k] == pre[k];
    assert t[|pre|] == op && t[|pre| + 1] == a;
    assert t[..|t| - 2] == pre;
  }

  /** `a ou b et c` is `a ou (b et c)`. */
  lemma EtUnderOu(a: string, b: string, c: string)
    requires IsOperand(a) && IsOperand(b) && IsOperand(c)
    ensures ParseTokens([a, "ou", b, "et", c])
            == Ok(BinaryOp("ou", Atomic(a), BinaryOp("et", Atomic(b), Atomic(c))))
  {
    LowerOperator("et");
    LowerOperator("ou");
    GroupsOne(a);
    GroupsSnoc([a], "ou", b);
    assert [a] + ["ou", b] == [a, "ou", b];
    GroupsSnoc([a, "ou", b], "et", c);
    assert [a, "ou", b] + ["et", c] == [a, "ou", b, "et", c];
    var gs := [[a], [b, c]];
    assert [[a]] + [[b]] == [[a], [b]];
    assert Groups([a, "ou", b]) == [[a], [b]];
    assert Pop([[a], [b]]) == [[a]] && Top([[a], [b]]) == [b];
    assert [b] + [c] == [b, c] && [[a]] + [[b, c]] == gs;
    assert Groups([a, "ou", b, "et", c]) == gs;
    assert Pop(gs) == [[a]] && Top(gs) == [b, c] && Pop([b, c]) == [b] && Top([b, c]) == c;
    assert AndChain([a]) == Atomic(a) && AndChain([b]) == Atomic(b);
    assert AndChain([b, c]) == BinaryOp("et", Atomic(b), Atomic(c));
    assert OrChain([[a]]) == Atomic(a);
    assert OrChain(gs) == BinaryOp("ou", Atomic(a), BinaryOp("et", Atomic(b), Atomic(c)));
    AlternatingParse([a, "ou", b, "et", c]);
  }

  /** `a et b` is one group of two operands. */
  lemma GroupsEt(a: string, b: string)
    requires IsOperand(a) && IsOperand(b)
    ensures Alternating([a, "et", b]) && Groups([a, "et", b]) == [[a, b]]
  {
    LowerOperator("et");
    GroupsOne(a);
    GroupsSnoc([a], "et", b);
    assert [a] + ["et", b] == [a, "et", b];
    assert Pop([[a]]) == [] && Top([[a]]) == [a];
    assert [a] + [b] == [a, b] && [] + [[a, b]] == [[a, b]];
  }

  /** `a et b ou c` is `(a et b) ou c`. */
  lemma EtBeforeOu(a: string, b: string, c: string)
    requires IsOperand(a) && IsOperand(b) && IsOperand(c)
    ensures ParseTokens([a, "et", b, "ou", c])
            == Ok(BinaryOp("ou", BinaryOp("et", Atomic(a), Atomic(b)), Atomic(c)))
  {
    LowerOperator("ou");
    GroupsEt(a, b);
    GroupsSnoc([a, "et", b], "ou", c);
    assert [a, "et", b] + ["ou", c] == [a, "et", b, "ou", c];
    var gs := [[a, b], [c]];
    assert [[a, b]] + [[c]] == gs;
    assert Groups([a, "et", b, "ou", c]) == gs;
    assert Pop(gs) == [[a, b]] && Top(gs) == [c] && Pop([a, b]) == [a] && Top([a, b]) == b;
    assert AndChain([a]) == Atomic(a) && AndChain([c]) == Atomic(c);
    assert AndChain([a, b]) == BinaryOp("et", Atomic(a), Atomic(b));
    assert OrChain([[a, b]]) == AndChain([a, b]);
    assert OrChain(gs) == BinaryOp("ou", BinaryOp("et", Atomic(a), Atomic(b)), Atomic(c));
    AlternatingParse([a, "et", b, "ou", c]);
  }

  /** `a et b et c` is `(a et b) et c`. */
  lemma EtLeftAssociative(a: string, b: string, c: string)
    requires IsOperand(a) && IsOperand(b) && IsOperand(c)
    ensures ParseTokens([a, "et", b, "et", c])
            == Ok(BinaryOp("et", BinaryOp("et", Atomic(a), Atomic(b)), Atomic(c)))
  {
    LowerOperator("et");
    GroupsEt(a, b);
    GroupsSnoc([a, "et", b], "et", c);
    assert [a, "et", b] + ["et", c] == [a, "et", b, "et", c];
    assert Pop([[a, b]]) == [] && Top([[a, b]]) == [a, b];
    var gs := [[a, b, c]];
    assert [a, b] + [c] == [a, b, c] && [] + [[a, b, c]] == gs;
    assert Groups([a, "et", b, "et", c]) == gs;
    assert Pop([a, b, c]) == [a, b] && Top([a, b, c]) == c && Pop([a, b]) == [a] && Top([a, b]) == b;
    assert AndChain([a]) == Atomic(a);
    assert AndChain([a, b]) == BinaryOp("et", Atomic(a), Atomic(b));
    assert AndChain([a, b, c]) == BinaryOp("et", BinaryOp("et", Atomic(a), Atomic(b)), Atomic(c));
    assert OrChain(gs) == AndChain([a, b, c]);
    AlternatingParse([a, "et", b, "et", c]);
  }

  /** `a ou b ou c` is `(a ou b) ou c`. */
  lemma OuLeftAssociative(a: string, b: string, c: string)
    requires IsOperand(a) && IsOperand(b) && IsOperand(c)
    ensures ParseTokens([a, "ou", b, "ou", c])
            == Ok(BinaryOp("ou", BinaryOp("ou", Atomic(a), Atomic(b)), Atomic(c)))
  {
    LowerOperator("ou");
    GroupsOne(a);
    GroupsSnoc([a], "ou", b);
    assert [a] + ["ou", b] == [a, "ou", b];
    GroupsSnoc([a, "ou", b], "ou", c);
    assert [a, "ou", b] + ["ou", c] == [a, "ou", b, "ou", c];
    var gs := [[a], [b], [c]];
    assert [[a]] + [[b]] == [[a], [b]] && [[a], [b]] + [[c]] == gs;
    assert Groups([a, "ou", b]) == [[a], [b]];
    assert Groups([a, "ou", b, "ou", c]) == gs;
    assert Pop(gs) == [[a], [b]] && Top(gs) == [c] && Pop([[a], [b]]) == [[a]] && Top([[a], [b]]) == [b];
    assert AndChain([a]) == Atomic(a) && AndChain([b]) == Atomic(b) && AndChain([c]) == Atomic(c);
    assert OrChain([[a]]) == Atomic(a);
    assert OrChain([[a], [b]]) == BinaryOp("ou", Atomic(a), Atomic(b));
    assert OrChain(gs) == BinaryOp("ou", BinaryOp("ou", Atomic(a), Atomic(b)), Atomic(c));
    AlternatingParse([a, "ou", b, "ou", c]);
  }

  /** An operand is not an operator even before it is lower-cased. */
  lemma OperandNotOperator(a: string)
    requires IsOperand(a)
    ensures !IsOperator(a)
  {
    if IsOperator(a) {
      LowerOperator(a);
    }
  }

  /** An unclosed `(` leaks into the postfix output after the operands that follow it. */
  lemma UnclosedParenPostfix(a: string)
    requires IsOperand(a)
    ensures Postfix(["(", a]) == [a, "("]
  {
    UnclosedParenRun(a);
    var c2 := Conv([a], ["("]);
    assert Pop(["("]) == [] && Top(["("]) == "(";
    assert Flush(c2) == Flush(Conv([a, "("], []));
  }

  lemma UnclosedParenRun(a: string)
    requires IsOperand(a)
    ensures Run(Conv([], []), ["(", a]) == Conv([a], ["("])
  {
    LowerOperator("(");
    var c1 := Conv([], ["("]);
    assert Step(Conv([], []), "(") == c1;
    assert Step(c1, a) == Conv([a], ["("]);
    assert [] + ["(", a] == ["(", a];
    RunPair(Conv([], []), [], "(", a);
  }

  /** ... and is then evaluated as an operand. */
  lemma UnclosedParen(a: string)
    requires IsOperand(a)
    ensures Eval([], Postfix(["(", a])) == Ok([Atomic(a), Atomic("(")])
  {
    UnclosedParenPostfix(a);
    OperandNotOperator(a);
    assert [a, "("][0] == a && [a, "("][1..] == ["("] && ["("][1..] == [];
    assert [] + [Atomic(a)] == [Atomic(a)];
    assert Eval([], [a, "("]) == Eval([Atomic(a)], ["("]);
    assert [Atomic(a)] + [Atomic("(")] == [Atomic(a), Atomic("(")];
  }
}
