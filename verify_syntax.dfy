/** `verify_syntax.check_file`: a pass over the tokens of a `.shtest` file that reports,
    as text lines, steps without an action, an `Action` not followed by its `Résultat`,
    actions and results before any step, unknown lines and validation expressions that do
    not parse. */
module VerifySyntax {
  import opened Basics
  import opened Text
  import opened OrderedDict
  import opened PyValue
  import opened LexerCore
  import ShuntingYard
  import Seqs

  /** What the checker takes from outside: the file's path, `LINE_FORMATS` and
      `VALIDATION_KEY` from the pattern file, `str.format` with the named fields `value`
      and `result`, `Parser.parse`, the alias resolver used by
      `parse_validation_expression`, and the text `f"{expr} ({exc})"` for an expression
      that is not a string. */
  datatype Env = Env(path: string, lineFormats: ODict<string, string>, validationKey: string,
                     fill: (string, string, string) -> string,
                     parse: string -> ODict<string, Value>,
                     resolve: string -> string,
                     nonText: Value -> string)

  /** `token.kind.lower()`. */
  function KindOf(t: TokenType): string {
    match t
    case STEP => "step"
    case ACTION_ONLY => "action_only"
    case ACTION_RESULT => "action_result"
    case RESULT_ONLY => "result_only"
    case COMMENT => "comment"
    case TEXT => "text"
    case EMPTY => "empty"
    case ERROR => "error"
  }

  // ----- _is_actions_empty -----

  /** Every value of the parsed dictionary is falsy. */
  predicate NoneTruthy(actions: ODict<string, Value>) {
    forall i :: 0 <= i < |actions| ==> !Truthy(actions[i].1)
  }

  /** `_is_actions_empty`: its `batch_path` branch decides as the other one does. */
  method IsActionsEmpty(actions: ODict<string, Value>) returns (r: bool)
    ensures r <==> NoneTruthy(actions)
  {
    for i := 0 to |actions|
      invariant forall k :: 0 <= k < i ==> !Truthy(actions[k].1)
    {
      var (key, value) := actions[i];
      if key == "batch_path" {
        if Truthy(value) {
          return false;
        }
      } else if Truthy(value) {
        return false;
      }
    }
    return true;
  }

  // ----- messages -----

  function At(env: Env, lineno: int): string {
    env.path + ":" + IntToString(lineno) + ": "
  }

  function NotFollowed(env: Env, lineno: int): string {
    At(env, lineno) + "'Action' non suivie d'un 'Résultat'"
  }

  function NoAction(env: Env, lineno: int, name: string): string {
    At(env, lineno) + "étape sans action -> " + name
  }

  function Unrecognized(env: Env, lineno: int, line: string): string {
    At(env, lineno) + "ligne non reconnue -> " + line
  }

  /** `token.original or token.value`. */
  function Shown(tok: Token): string {
    if tok.original.Some? && tok.original.value != "" then tok.original.value else tok.value
  }

  function NoStep(env: Env, tok: Token): string {
    At(env, tok.lineno) + (if KindOf(tok.ttype) != "result_only" then "action sans étape" else "résultat sans étape")
    + " -> " + Shown(tok)
  }

  function BadExpr(env: Env, lineno: int, text: string): string {
    At(env, lineno) + "expression invalide -> " + text
  }

  // ----- format_line and validate_actions -----

  /** `format_line`: the kind's format, `"{value}"` for a kind without one, filled with
      the value and `token.result or ""`. */
  function FormatLine(env: Env, tok: Token): string {
    var fmt := GetOr(env.lineFormats, KindOf(tok.ttype), "{value}");
    env.fill(fmt, tok.value, if tok.result.Some? then tok.result.value else "")
  }

  /** The report for one validation expression: nothing when it parses. */
  function ExprError(env: Env, lineno: int, expr: Value): seq<string> {
    if expr.VStr? then
      match ShuntingYard.Parse(expr.s, env.resolve)
      case Ok(_) => []
      case Fail(e) => [BadExpr(env, lineno, expr.s + " (" + e.Describe() + ")")]
    else [BadExpr(env, lineno, env.nonText(expr))]
  }

  function ExprErrors(env: Env, lineno: int, exprs: seq<Value>): seq<string> {
    if exprs == [] then [] else ExprErrors(env, lineno, Pop(exprs)) + ExprError(env, lineno, Top(exprs))
  }

  lemma ExprErrorsSnoc(env: Env, lineno: int, exprs: seq<Value>, i: nat)
    requires i < |exprs|
    ensures ExprErrors(env, lineno, exprs[..i + 1])
            == ExprErrors(env, lineno, exprs[..i]) + ExprError(env, lineno, exprs[i])
  {
    assert Pop(exprs[..i + 1]) == exprs[..i] && Top(exprs[..i + 1]) == exprs[i];
  }

  /** `validate_actions`: whether the line was recognized, and the error list after it.
      Iterating over a validation entry that is not a list raises out of the check. */
  function Validated(env: Env, tok: Token, line: string, errors: seq<string>): Result<(bool, seq<string>)> {
    var actions := env.parse(line);
    if NoneTruthy(actions) then Ok((false, errors + [Unrecognized(env, tok.lineno, line)]))
    else
      var exprs :- Iterate(GetOr(actions, env.validationKey, VList([])));
      Ok((true, errors + ExprErrors(env, tok.lineno, exprs)))
  }

  /** `validate_actions`, with its loop over the validation expressions. */
  method ValidateActions(env: Env, tok: Token, line: string, errors: seq<string>) returns (r: Result<(bool, seq<string>)>)
    ensures r == Validated(env, tok, line, errors)
  {
    var actions := env.parse(line);
    var empty := IsActionsEmpty(actions);
    if empty {
      return Ok((false, errors + [Unrecognized(env, tok.lineno, line)]));
    }
    var exprs :- Iterate(GetOr(actions, env.validationKey, VList([])));
    var errs := ReportExprs(env, tok.lineno, exprs, errors);
    return Ok((true, errs));
  }

  /** The loop of `validate_actions` over `actions.get(VALIDATION_KEY, [])`. */
  method ReportExprs(env: Env, lineno: int, exprs: seq<Value>, errors: seq<string>) returns (errs: seq<string>)
    ensures errs == errors + ExprErrors(env, lineno, exprs)
  {
    errs := errors;
    for i := 0 to |exprs|
      invariant errs == errors + ExprErrors(env, lineno, exprs[..i])
    {
      ExprErrorsSnoc(env, lineno, exprs, i);
      errs := errs + ExprError(env, lineno, exprs[i]);
    }
    assert exprs[..|exprs|] == exprs;
  }

  // ----- check_file -----

  /** The loop's variables: the errors so far, `current_step_lineno`, `current_step_name`,
      `step_has_action` and `previous_action_only_token`. */
  datatype Checker = Checker(errors: seq<string>, stepLine: Option<int>, stepName: string,
                             hasAction: bool, pending: Option<Token>)

  const Start := Checker([], None, "", false, None)

  /** `current_step_lineno` as a condition: `None` and `0` are falsy. */
  predicate LineSet(l: Option<int>) {
    l.Some? && l.value != 0
  }

  /** The pending `action_only` is reported unless this token is a result; either way it
      is no longer pending. */
  function Settled(env: Env, st: Checker, kind: string): Checker {
    if st.pending.Some? && kind != "result_only" then
      st.(errors := st.errors + [NotFollowed(env, st.pending.value.lineno)], pending := None)
    else st.(pending := None)
  }

  /** One token: a step closes the previous one, a token of a known kind is validated,
      anything else is reported. */
  function Feed(env: Env, st: Checker, tok: Token): Result<Checker> {
    var kind := KindOf(tok.ttype);
    var s := Settled(env, st, kind);
    if kind == "step" then
      var errs := if LineSet(s.stepLine) && !s.hasAction then s.errors + [NoAction(env, s.stepLine.value, s.stepName)] else s.errors;
      var v :- Validated(env, tok, FormatLine(env, tok), errs);
      Ok(Checker(v.1, Some(tok.lineno), tok.value, false, None))
    else if HasKey(env.lineFormats, kind) then
      var errs := if s.stepLine.None? then s.errors + [NoStep(env, tok)] else s.errors;
      var v :- Validated(env, tok, FormatLine(env, tok), errs);
      Ok(Checker(v.1, s.stepLine, s.stepName, s.hasAction || v.0, if kind == "action_only" then Some(tok) else None))
    else
      Ok(s.(errors := s.errors + [Unrecognized(env, tok.lineno, tok.value)]))
  }

  function Fed(env: Env, tokens: seq<Token>): Result<Checker> {
    if tokens == [] then Ok(Start)
    else
      var st :- Fed(env, Pop(tokens));
      Feed(env, st, Top(tokens))
  }

  /** After the loop: the last step is reported when it has no action. */
  function Finish(env: Env, st: Checker): seq<string> {
    if LineSet(st.stepLine) && !st.hasAction then st.errors + [NoAction(env, st.stepLine.value, st.stepName)] else st.errors
  }

  function Checked(env: Env, tokens: seq<Token>): Result<seq<string>> {
    var st :- Fed(env, tokens);
    Ok(Finish(env, st))
  }

  /** `check_file` over the tokens `lex_file(path)` yields. */
  method CheckFile(env: Env, tokens: seq<Token>) returns (r: Result<seq<string>>)
    ensures r == Checked(env, tokens)
  {
    var errors: seq<string> := [];
    var currentStepLineno: Option<int> := None;
    var currentStepName := "";
    var stepHasAction := false;
    var previousActionOnly: Option<Token> := None;
    for i := 0 to |tokens|
      invariant Fed(env, tokens[..i]) == Ok(Checker(errors, currentStepLineno, currentStepName, stepHasAction, previousActionOnly))
    {
      FedSnoc(env, tokens, i);
      var next := CheckToken(env, Checker(errors, currentStepLineno, currentStepName, stepHasAction, previousActionOnly), tokens[i]);
      if next.Fail? {
        FedFails(env, tokens, i + 1);
        return Fail(next.exc);
      }
      errors, currentStepLineno, currentStepName, stepHasAction, previousActionOnly :=
        next.value.errors, next.value.stepLine, next.value.stepName, next.value.hasAction, next.value.pending;
    }
    assert tokens[..|tokens|] == tokens;
    if LineSet(currentStepLineno) && !stepHasAction {
      errors := errors + [NoAction(env, currentStepLineno.value, currentStepName)];
    }
    return Ok(errors);
  }

  /** The body of the loop of `check_file` for one token. */
  method CheckToken(env: Env, st: Checker, token: Token) returns (r: Result<Checker>)
    ensures r == Feed(env, st, token)
  {
    var errors, currentStepLineno, currentStepName, stepHasAction, previousActionOnly :=
      st.errors, st.stepLine, st.stepName, st.hasAction, st.pending;
    var kind := KindOf(token.ttype);
    if previousActionOnly.Some? {
      if kind != "result_only" {
        errors := errors + [NotFollowed(env, previousActionOnly.value.lineno)];
      }
      previousActionOnly := None;
    }
    assert Checker(errors, currentStepLineno, currentStepName, stepHasAction, previousActionOnly) == Settled(env, st, kind);
    if kind == "step" {
      if LineSet(currentStepLineno) && !stepHasAction {
        errors := errors + [NoAction(env, currentStepLineno.value, currentStepName)];
      }
      currentStepLineno := Some(token.lineno);
      currentStepName := token.value;
      stepHasAction := false;
      var line := FormatLine(env, token);
      var v :- ValidateActions(env, token, line, errors);
      errors := v.1;
    } else if HasKey(env.lineFormats, kind) {
      if currentStepLineno.None? {
        errors := errors + [NoStep(env, token)];
      }
      var line := FormatLine(env, token);
      var v :- ValidateActions(env, token, line, errors);
      errors := v.1;
      if v.0 {
        stepHasAction := true;
      }
      if kind == "action_only" {
        previousActionOnly := Some(token);
      }
    } else {
      errors := errors + [Unrecognized(env, token.lineno, token.value)];
    }
    return Ok(Checker(errors, currentStepLineno, currentStepName, stepHasAction, previousActionOnly));
  }

  lemma FedSnoc(env: Env, tokens: seq<Token>, i: nat)
    requires i < |tokens|
    ensures Fed(env, tokens[..i + 1]) == (var st :- Fed(env, tokens[..i]); Feed(env, st, tokens[i]))
  {
    assert Pop(tokens[..i + 1]) == tokens[..i] && Top(tokens[..i + 1]) == tokens[i];
  }

  /** Once a prefix raises, the whole check raises the same exception. */
  lemma {:induction false} FedFails(env: Env, tokens: seq<Token>, i: nat)
    requires i <= |tokens| && Fed(env, tokens[..i]).Fail?
    ensures Fed(env, tokens) == Fed(env, tokens[..i])
    decreases |tokens| - i
  {
    if i == |tokens| {
      assert tokens[..i] == tokens;
    } else {
      FedSnoc(env, tokens, i);
      FedFails(env, tokens, i + 1);
    }
  }

  // ----- what the loop keeps -----

  /** Checking a line only adds errors. */
  lemma ValidatedGrows(env: Env, tok: Token, line: string, errors: seq<string>)
    requires Validated(env, tok, line, errors).Ok?
    ensures errors <= Validated(env, tok, line, errors).value.1
  {
  }

  /** A token only adds errors, behind those for a pending `action_only`. */
  lemma FeedGrows(env: Env, st: Checker, tok: Token)
    requires Feed(env, st, tok).Ok?
    ensures st.errors <= Settled(env, st, KindOf(tok.ttype)).errors <= Feed(env, st, tok).value.errors
  {
    var kind := KindOf(tok.ttype);
    if kind == "step" {
      FeedGrowsStep(env, st, tok);
    } else if HasKey(env.lineFormats, kind) {
      FeedGrowsKnown(env, st, tok);
    }
  }

  lemma FeedGrowsStep(env: Env, st: Checker, tok: Token)
    requires Feed(env, st, tok).Ok? && KindOf(tok.ttype) == "step"
    ensures st.errors <= Settled(env, st, KindOf(tok.ttype)).errors <= Feed(env, st, tok).value.errors
  {
    var s := Settled(env, st, "step");
    var errs := if LineSet(s.stepLine) && !s.hasAction then s.errors + [NoAction(env, s.stepLine.value, s.stepName)] else s.errors;
    ValidatedGrows(env, tok, FormatLine(env, tok), errs);
  }

  lemma FeedGrowsKnown(env: Env, st: Checker, tok: Token)
    requires Feed(env, st, tok).Ok? && KindOf(tok.ttype) != "step" && HasKey(env.lineFormats, KindOf(tok.ttype))
    ensures st.errors <= Settled(env, st, KindOf(tok.ttype)).errors <= Feed(env, st, tok).value.errors
  {
    var s := Settled(env, st, KindOf(tok.ttype));
    var errs := if s.stepLine.None? then s.errors + [NoStep(env, tok)] else s.errors;
    ValidatedGrows(env, tok, FormatLine(env, tok), errs);
  }

  /** A check that does not raise went through every prefix without raising, and the
      errors of a prefix are where the errors of the whole begin. */
  lemma {:induction false} FedPrefix(env: Env, tokens: seq<Token>, i: nat)
    requires i <= |tokens| && Fed(env, tokens).Ok?
    ensures Fed(env, tokens[..i]).Ok? && Fed(env, tokens[..i]).value.errors <= Fed(env, tokens).value.errors
    decreases |tokens| - i
  {
    if i == |tokens| {
      assert tokens[..i] == tokens;
    } else {
      FedSnoc(env, tokens, i);
      if Fed(env, tokens[..i]).Fail? {
        FedFails(env, tokens, i);
      }
      FedPrefix(env, tokens, i + 1);
      FeedGrows(env, Fed(env, tokens[..i]).value, tokens[i]);
    }
  }

  /** The index of the last step token. */
  function LastStep(tokens: seq<Token>): (r: Option<nat>)
    ensures r.Some? ==> r.value < |tokens| && KindOf(tokens[r.value].ttype) == "step"
    ensures r.Some? ==> forall j :: r.value < j < |tokens| ==> KindOf(tokens[j].ttype) != "step"
    ensures r.None? ==> forall j :: 0 <= j < |tokens| ==> KindOf(tokens[j].ttype) != "step"
  {
    if tokens == [] then None
    else if KindOf(Top(tokens).ttype) == "step" then Some(|tokens| - 1)
    else
      var r := LastStep(Pop(tokens));
      assert forall j :: 0 <= j < |tokens| - 1 ==> tokens[j] == Pop(tokens)[j];
      r
  }

  /** A step followed by no other step before position `m` is the last step of the first
      `m` tokens. */
  lemma LastStepAt(tokens: seq<Token>, k: nat, m: nat)
    requires k < m <= |tokens| && KindOf(tokens[k].ttype) == "step"
    requires forall j :: k < j < m ==> KindOf(tokens[j].ttype) != "step"
    ensures LastStep(tokens[..m]) == Some(k)
  {
    var p := tokens[..m];
    assert forall j :: 0 <= j < m ==> p[j] == tokens[j];
  }

  /** `current_step_lineno` and `current_step_name` are those of the last step. */
  lemma {:induction false} FedStep(env: Env, tokens: seq<Token>)
    requires Fed(env, tokens).Ok?
    ensures Fed(env, tokens).value.stepLine == if LastStep(tokens).Some? then Some(tokens[LastStep(tokens).value].lineno) else None
    ensures LastStep(tokens).Some? ==> Fed(env, tokens).value.stepName == tokens[LastStep(tokens).value].value
  {
    if tokens != [] {
      var p, t := Pop(tokens), Top(tokens);
      FedStep(env, p);
      FeedStepFields(env, Fed(env, p).value, t);
      var last := LastStep(tokens);
      if KindOf(t.ttype) != "step" {
        assert last == LastStep(p);
        if last.Some? {
          assert tokens[last.value] == p[last.value];
        }
      }
    }
  }

  /** A step token sets the step's line and name; any other token keeps them. */
  lemma FeedStepFields(env: Env, st: Checker, tok: Token)
    requires Feed(env, st, tok).Ok?
    ensures Feed(env, st, tok).value.stepLine == if KindOf(tok.ttype) == "step" then Some(tok.lineno) else st.stepLine
    ensures Feed(env, st, tok).value.stepName == if KindOf(tok.ttype) == "step" then tok.value else st.stepName
  {
    var kind := KindOf(tok.ttype);
    if kind == "step" {
      FeedStepFieldsStep(env, st, tok);
    } else if HasKey(env.lineFormats, kind) {
      FeedStepFieldsKnown(env, st, tok);
    }
  }

  lemma FeedStepFieldsStep(env: Env, st: Checker, tok: Token)
    requires Feed(env, st, tok).Ok? && KindOf(tok.ttype) == "step"
    ensures Feed(env, st, tok).value.stepLine == Some(tok.lineno) && Feed(env, st, tok).value.stepName == tok.value
  {
  }

  lemma FeedStepFieldsKnown(env: Env, st: Checker, tok: Token)
    requires Feed(env, st, tok).Ok? && KindOf(tok.ttype) != "step" && HasKey(env.lineFormats, KindOf(tok.ttype))
    ensures Feed(env, st, tok).value.stepLine == st.stepLine && Feed(env, st, tok).value.stepName == st.stepName
  {
  }

  /** The last token is pending exactly when it is an `action_only` of a known kind. */
  lemma FedPending(env: Env, tokens: seq<Token>)
    requires Fed(env, tokens).Ok?
    ensures Fed(env, tokens).value.pending
            == if tokens != [] && KindOf(Top(tokens).ttype) == "action_only" && HasKey(env.lineFormats, "action_only")
               then Some(Top(tokens)) else None
  {
  }

  /** A token that `validate_actions` takes for an action of the current step. */
  predicate Recognized(env: Env, tok: Token) {
    KindOf(tok.ttype) != "step" && HasKey(env.lineFormats, KindOf(tok.ttype))
    && !NoneTruthy(env.parse(FormatLine(env, tok)))
  }

  /** Where the current step's tokens start. */
  function Since(tokens: seq<Token>): nat {
    if LastStep(tokens).Some? then LastStep(tokens).value + 1 else 0
  }

  /** `validate_actions` recognizes a line exactly when the parser gives it a truthy value. */
  lemma ValidatedRecognizes(env: Env, tok: Token, line: string, errors: seq<string>)
    requires Validated(env, tok, line, errors).Ok?
    ensures Validated(env, tok, line, errors).value.0 <==> !NoneTruthy(env.parse(line))
  {
  }

  /** A token other than a step sets `step_has_action` exactly when it is recognized. */
  lemma FeedHasAction(env: Env, st: Checker, t: Token)
    requires Feed(env, st, t).Ok? && KindOf(t.ttype) != "step"
    ensures Feed(env, st, t).value.hasAction <==> st.hasAction || Recognized(env, t)
  {
    var kind := KindOf(t.ttype);
    if HasKey(env.lineFormats, kind) {
      var s := Settled(env, st, kind);
      var errs := if s.stepLine.None? then s.errors + [NoStep(env, t)] else s.errors;
      ValidatedRecognizes(env, t, FormatLine(env, t), errs);
    }
  }

  /** The check of a non-empty list is the check of its last token after the others. */
  lemma FedLast(env: Env, tokens: seq<Token>)
    requires tokens != [] && Fed(env, tokens).Ok?
    ensures Fed(env, Pop(tokens)).Ok?
    ensures Fed(env, tokens) == Feed(env, Fed(env, Pop(tokens)).value, Top(tokens))
  {
  }

  /** A step restarts the current step's tokens; any other token extends them. */
  lemma SinceLast(tokens: seq<Token>)
    requires tokens != []
    ensures Since(tokens) == if KindOf(Top(tokens).ttype) == "step" then |tokens| else Since(Pop(tokens))
  {
  }

  /** A step token leaves `step_has_action` false. */
  lemma FeedStepNoAction(env: Env, st: Checker, t: Token)
    requires Feed(env, st, t).Ok? && KindOf(t.ttype) == "step"
    ensures !Feed(env, st, t).value.hasAction
  {
  }

  /** Some token from position `k` on is recognized. */
  predicate SomeRecognized(env: Env, tokens: seq<Token>, k: nat) {
    exists j :: k <= j < |tokens| && Recognized(env, tokens[j])
  }

  lemma SomeRecognizedSnoc(env: Env, tokens: seq<Token>, k: nat)
    requires tokens != [] && k <= |tokens| - 1
    ensures SomeRecognized(env, tokens, k) <==> SomeRecognized(env, Pop(tokens), k) || Recognized(env, Top(tokens))
  {
    Seqs.ExistsFromSnoc(tokens, k, t => Recognized(env, t));
  }

  /** `step_has_action` holds exactly when a token since the last step was recognized. */
  lemma {:induction false} FedHasAction(env: Env, tokens: seq<Token>)
    requires Fed(env, tokens).Ok?
    ensures Fed(env, tokens).value.hasAction <==> exists j :: Since(tokens) <= j < |tokens| && Recognized(env, tokens[j])
  {
    if tokens != [] {
      FedLast(env, tokens);
      SinceLast(tokens);
      var st := Fed(env, Pop(tokens)).value;
      if KindOf(Top(tokens).ttype) != "step" {
        FedHasAction(env, Pop(tokens));
        FeedHasAction(env, st, Top(tokens));
        SomeRecognizedSnoc(env, tokens, Since(Pop(tokens)));
        assert SomeRecognized(env, tokens, Since(tokens)) <==> SomeRecognized(env, Pop(tokens), Since(Pop(tokens))) || Recognized(env, Top(tokens));
      } else {
        FeedStepNoAction(env, st, Top(tokens));
      }
    }
  }

  // ----- what is reported -----

  /** A report made while feeding token `i` survives to the end of the check. */
  lemma Kept(env: Env, tokens: seq<Token>, i: nat, msg: string)
    requires i < |tokens| && Checked(env, tokens).Ok?
    requires Fed(env, tokens[..i]).Ok? && msg in Settled(env, Fed(env, tokens[..i]).value, KindOf(tokens[i].ttype)).errors
    ensures msg in Fed(env, tokens).value.errors && msg in Checked(env, tokens).value
  {
    FedSnoc(env, tokens, i);
    FedPrefix(env, tokens, i + 1);
    FeedGrows(env, Fed(env, tokens[..i]).value, tokens[i]);
  }

  lemma KeptFed(env: Env, tokens: seq<Token>, i: nat, msg: string)
    requires i <= |tokens| && Checked(env, tokens).Ok?
    requires Fed(env, tokens[..i]).Ok? && msg in Fed(env, tokens[..i]).value.errors
    ensures msg in Fed(env, tokens).value.errors && msg in Checked(env, tokens).value
  {
    FedPrefix(env, tokens, i);
  }

  /** An `action_only` not immediately followed by a `result_only` is reported at the
      next token. */
  lemma NotFollowedReported(env: Env, tokens: seq<Token>, i: nat)
    requires i + 1 < |tokens| && Checked(env, tokens).Ok?
    requires KindOf(tokens[i].ttype) == "action_only" && HasKey(env.lineFormats, "action_only")
    requires KindOf(tokens[i + 1].ttype) != "result_only"
    ensures NotFollowed(env, tokens[i].lineno) in Fed(env, tokens).value.errors
    ensures NotFollowed(env, tokens[i].lineno) in Checked(env, tokens).value
  {
    FedPrefix(env, tokens, i + 1);
    var p := tokens[..i + 1];
    FedPending(env, p);
    assert Top(p) == tokens[i];
    Kept(env, tokens, i + 1, NotFollowed(env, tokens[i].lineno));
  }

  /** A token of a known kind, fed while no step is open, is reported as without a step. */
  lemma FeedNoStep(env: Env, st: Checker, t: Token)
    requires Feed(env, st, t).Ok? && st.stepLine.None?
    requires KindOf(t.ttype) != "step" && HasKey(env.lineFormats, KindOf(t.ttype))
    ensures NoStep(env, t) in Feed(env, st, t).value.errors
  {
    var s := Settled(env, st, KindOf(t.ttype));
    var errs := s.errors + [NoStep(env, t)];
    assert NoStep(env, t) in errs;
    ValidatedGrows(env, t, FormatLine(env, t), errs);
  }

  /** An action or a result before any step is reported as being without a step. */
  lemma NoStepReported(env: Env, tokens: seq<Token>, i: nat)
    requires i < |tokens| && Checked(env, tokens).Ok?
    requires forall j :: 0 <= j < i ==> KindOf(tokens[j].ttype) != "step"
    requires KindOf(tokens[i].ttype) != "step" && HasKey(env.lineFormats, KindOf(tokens[i].ttype))
    ensures NoStep(env, tokens[i]) in Checked(env, tokens).value
  {
    FedPrefix(env, tokens, i + 1);
    FedPrefix(env, tokens, i);
    var p := tokens[..i];
    FedStep(env, p);
    assert forall j :: 0 <= j < |p| ==> p[j] == tokens[j];
    assert LastStep(p).None?;
    FedSnoc(env, tokens, i);
    var st := Fed(env, p).value;
    FeedNoStep(env, st, tokens[i]);
    KeptFed(env, tokens, i + 1, NoStep(env, tokens[i]));
  }

  /** A token of a kind without a line format is reported with its value. */
  lemma UnknownReported(env: Env, tokens: seq<Token>, i: nat)
    requires i < |tokens| && Checked(env, tokens).Ok?
    requires KindOf(tokens[i].ttype) != "step" && !HasKey(env.lineFormats, KindOf(tokens[i].ttype))
    ensures Unrecognized(env, tokens[i].lineno, tokens[i].value) in Checked(env, tokens).value
  {
    FedPrefix(env, tokens, i + 1);
    FedPrefix(env, tokens, i);
    FedSnoc(env, tokens, i);
    KeptFed(env, tokens, i + 1, Unrecognized(env, tokens[i].lineno, tokens[i].value));
  }

  /** No token after the step at `k` and before position `m` is a step or a recognized
      action. */
  predicate QuietSince(env: Env, tokens: seq<Token>, k: nat, m: nat)
    requires k < m <= |tokens|
  {
    forall j :: k < j < m ==> KindOf(tokens[j].ttype) != "step" && !Recognized(env, tokens[j])
  }

  /** After the tokens of a step none of which is recognized, that step is the current
      one and has no action. */
  lemma OpenStepWithoutAction(env: Env, tokens: seq<Token>, k: nat, m: nat)
    requires k < m <= |tokens| && Fed(env, tokens[..m]).Ok?
    requires KindOf(tokens[k].ttype) == "step"
    requires QuietSince(env, tokens, k, m)
    ensures var st := Fed(env, tokens[..m]).value;
      st.stepLine == Some(tokens[k].lineno) && st.stepName == tokens[k].value && !st.hasAction
  {
    var p := tokens[..m];
    LastStepAt(tokens, k, m);
    assert forall j :: 0 <= j < m ==> p[j] == tokens[j];
    FedStep(env, p);
    FedHasAction(env, p);
  }

  /** A step none of whose tokens is recognized as an action is reported when the next
      step starts or when the file ends. */
  lemma StepWithoutActionReported(env: Env, tokens: seq<Token>, k: nat, m: nat)
    requires k < m <= |tokens| && Checked(env, tokens).Ok?
    requires KindOf(tokens[k].ttype) == "step" && tokens[k].lineno != 0
    requires m == |tokens| || KindOf(tokens[m].ttype) == "step"
    requires QuietSince(env, tokens, k, m)
    ensures NoAction(env, tokens[k].lineno, tokens[k].value) in Checked(env, tokens).value
  {
    FedPrefix(env, tokens, m);
    OpenStepWithoutAction(env, tokens, k, m);
    if m == |tokens| {
      assert tokens[..m] == tokens;
    } else {
      ClosedByNextStep(env, tokens, m);
    }
  }

  /** The next step reports the current one when it has no action. */
  lemma ClosedByNextStep(env: Env, tokens: seq<Token>, m: nat)
    requires m < |tokens| && Checked(env, tokens).Ok? && KindOf(tokens[m].ttype) == "step"
    requires Fed(env, tokens[..m]).Ok? && LineSet(Fed(env, tokens[..m]).value.stepLine) && !Fed(env, tokens[..m]).value.hasAction
    ensures var st := Fed(env, tokens[..m]).value;
      NoAction(env, st.stepLine.value, st.stepName) in Checked(env, tokens).value
  {
    var st := Fed(env, tokens[..m]).value;
    FedPrefix(env, tokens, m + 1);
    StepClosedAt(env, tokens, m);
    KeptFed(env, tokens, m + 1, NoAction(env, st.stepLine.value, st.stepName));
  }

  lemma StepClosedAt(env: Env, tokens: seq<Token>, m: nat)
    requires m < |tokens| && KindOf(tokens[m].ttype) == "step"
    requires Fed(env, tokens[..m]).Ok? && Fed(env, tokens[..m + 1]).Ok?
    requires LineSet(Fed(env, tokens[..m]).value.stepLine) && !Fed(env, tokens[..m]).value.hasAction
    ensures var st := Fed(env, tokens[..m]).value;
      NoAction(env, st.stepLine.value, st.stepName) in Fed(env, tokens[..m + 1]).value.errors
  {
    FedSnoc(env, tokens, m);
    FeedClosesStep(env, Fed(env, tokens[..m]).value, tokens[m]);
  }

  /** A step token reports the current step when it has no action. */
  lemma FeedClosesStep(env: Env, st: Checker, tok: Token)
    requires KindOf(tok.ttype) == "step" && Feed(env, st, tok).Ok?
    requires LineSet(st.stepLine) && !st.hasAction
    ensures NoAction(env, st.stepLine.value, st.stepName) in Feed(env, st, tok).value.errors
  {
    var s := Settled(env, st, "step");
    ValidatedGrows(env, tok, FormatLine(env, tok), s.errors + [NoAction(env, s.stepLine.value, s.stepName)]);
  }

  // ----- an `action_only` at the end of the file -----

  /** A file of two lines, a step and an action, checked with line formats for
      `action_only` only, a parser that reads any line as an action, and no validation
      expressions. */
  const SampleEnv := Env("t.shtest", [("action_only", "{value}")], "validation",
                         (f: string, v: string, r: string) => v, (l: string) => [("action", VStr(l))],
                         (t: string) => t, (x: Value) => "")
  const SampleTokens := [Token(STEP, "s", 1, None, None, None), Token(ACTION_ONLY, "a", 2, None, None, None)]

  /** With the sample parser, a line has one truthy action and no validation expression. */
  lemma EmptyValidation(env: Env, tok: Token, line: string)
    requires env == SampleEnv && line != []
    ensures Validated(env, tok, line, []) == Ok((true, []))
  {
    var actions := env.parse(line);
    assert actions == [("action", VStr(line))];
    assert !NoneTruthy(actions) by { assert Truthy(actions[0].1); }
    assert GetOr(actions, env.validationKey, VList([])) == VList([]);
    assert Iterate(VList([])) == Ok([]);
    assert ExprErrors(env, tok.lineno, []) == [];
    var it := Iterate(GetOr(actions, env.validationKey, VList([])));
    assert !it.IsFailure() && it.Extract() == [];
    assert Validated(env, tok, line, []) == Ok((true, [] + ExprErrors(env, tok.lineno, it.Extract())));
    var e: seq<string> := [] + ExprErrors(env, tok.lineno, it.Extract());
    assert e == [];
    assert Validated(env, tok, line, []) == Ok((true, e));
    assert Validated(env, tok, line, []) == Ok((true, []));
  }

  /** The file's last token is an `action_only` without a result after it: as written,
      nothing reports it, because the check only happens at the next token. */
  lemma TrailingActionUnreported()
    ensures Checked(SampleEnv, SampleTokens) == Ok([])
    ensures CheckedIntended(SampleEnv, SampleTokens) == Ok([NotFollowed(SampleEnv, 2)])
  {
    var env, tokens := SampleEnv, SampleTokens;
    var st2 := Checker([], Some(1), "s", true, Some(tokens[1]));
    SampleFed();
    assert Finish(env, st2) == [];
    var st3 := Settled(env, st2, "");
    assert st3.errors == [NotFollowed(env, 2)] && st3.stepLine == Some(1) && st3.hasAction;
    assert Finish(env, st3) == [NotFollowed(env, 2)];
  }

  /** The sample's step, then its action, which stays pending. */
  lemma SampleFed()
    ensures Fed(SampleEnv, SampleTokens) == Ok(Checker([], Some(1), "s", true, Some(SampleTokens[1])))
  {
    var env, tokens := SampleEnv, SampleTokens;
    var t1, t2 := tokens[0], tokens[1];
    var st1 := Checker([], Some(1), "s", false, None);
    SampleFeedStep();
    assert Pop([t1]) == [] && Top([t1]) == t1;
    assert Fed(env, [t1]) == Ok(st1);
    SampleFeedAction();
    assert Pop(tokens) == [t1] && Top(tokens) == t2;
  }

  lemma SampleFeedStep()
    ensures Feed(SampleEnv, Start, SampleTokens[0]) == Ok(Checker([], Some(1), "s", false, None))
  {
    var env, t1 := SampleEnv, SampleTokens[0];
    assert GetOr(env.lineFormats, "step", "{value}") == "{value}";
    assert env.parse("s") == [("action", VStr("s"))];
    assert FormatLine(env, t1) == "s";
    assert GetOr([("action", VStr("s"))], "validation", VList([])) == VList([]);
    assert !NoneTruthy([("action", VStr("s"))]);
    assert ExprErrors(env, 1, []) == [];
    EmptyValidation(env, t1, "s");
  }

  lemma SampleFeedAction()
    ensures Feed(SampleEnv, Checker([], Some(1), "s", false, None), SampleTokens[1])
            == Ok(Checker([], Some(1), "s", true, Some(SampleTokens[1])))
  {
    var env, t2 := SampleEnv, SampleTokens[1];
    assert HasKey(env.lineFormats, "action_only");
    assert env.parse("a") == [("action", VStr("a"))];
    assert FormatLine(env, t2) == "a";
    assert GetOr([("action", VStr("a"))], "validation", VList([])) == VList([]);
    assert !NoneTruthy([("action", VStr("a"))]);
    assert ExprErrors(env, 2, []) == [];
    EmptyValidation(env, t2, "a");
  }

  /** The check as its own description intends it: every `Action` must be followed by a
      `Résultat`, so an `action_only` still pending at the end of the file is reported,
      before the last step is checked for an action. */
  function CheckedIntended(env: Env, tokens: seq<Token>): Result<seq<string>> {
    var st :- Fed(env, tokens);
    Ok(Finish(env, Settled(env, st, "")))
  }

  /** With the end of the file treated like a token that is not a result, every
      `action_only` not immediately followed by a `result_only` is reported. */
  lemma IntendedReportsEvery(env: Env, tokens: seq<Token>, i: nat)
    requires i < |tokens| && CheckedIntended(env, tokens).Ok?
    requires KindOf(tokens[i].ttype) == "action_only" && HasKey(env.lineFormats, "action_only")
    requires i + 1 == |tokens| || KindOf(tokens[i + 1].ttype) != "result_only"
    ensures NotFollowed(env, tokens[i].lineno) in CheckedIntended(env, tokens).value
  {
    if i + 1 < |tokens| {
      NotFollowedReported(env, tokens, i);
    } else {
      FedPending(env, tokens);
      assert Top(tokens) == tokens[i];
    }
  }
}
