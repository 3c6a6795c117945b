/** The AST builder: tokens become steps holding actions; transformers then tidy the steps
    and validators report what is still wrong. The registry maps builder names to classes.

    A test `token.kind == "X"` of the source is written `t.ttype == X`
    (`LexerCore.KindInjective`). */
module AstBuilder {
  import opened Basics
  import opened Text
  import opened Seqs
  import opened LexerCore
  import opened ShtestAst
  import Grammar
  import OrderedDict

  // ---------------------------------------------------------------- building

  /** The token kinds that become actions. */
  predicate IsActionToken(t: Token) {
    t.ttype == ACTION_RESULT || t.ttype == ACTION_ONLY || t.ttype == RESULT_ONLY
  }

  function IsAction(t: Token): bool { IsActionToken(t) }

  function IsStep(t: Token): bool { t.ttype == STEP }

  /** `token.value.rstrip(" ;")`: the command without its trailing blanks and `;`. */
  function Command(value: string): (c: string)
    ensures |c| <= |value| && c == value[..|c|]
    ensures c == [] || (c[|c| - 1] != ' ' && c[|c| - 1] != ';')
  {
    RStripChars(value, {' ', ';'})
  }

  /** `token.result.rstrip(".;").strip() if token.result else None`. */
  function ResultExpr(result: Option<string>): (r: Option<string>)
    ensures r.Some? <==> result.Some? && result.value != ""
    ensures r.Some? ==> IsStripped(r.value)
  {
    if result.Some? && result.value != "" then Some(Strip(RStripChars(result.value, {'.', ';'}))) else None
  }

  /** The action an action token becomes. */
  function ActionOf(t: Token): (a: Action)
    requires IsActionToken(t)
    ensures a.lineno == t.lineno && a.rawLine == t.original
    ensures a.command.None? <==> t.ttype == RESULT_ONLY
    ensures a.command.Some? ==> a.command.value == Command(t.value)
    ensures t.ttype == ACTION_ONLY ==> a.resultExpr.None?
    ensures t.ttype != ACTION_ONLY ==> a.resultExpr == ResultExpr(t.result)
  {
    if t.ttype == ACTION_RESULT then Action(Some(Command(t.value)), ResultExpr(t.result), t.lineno, t.original)
    else if t.ttype == ACTION_ONLY then Action(Some(Command(t.value)), None, t.lineno, t.original)
    else Action(None, ResultExpr(t.result), t.lineno, t.original)
  }

  /** An action line with neither a command nor a result comes only from a result token
      whose result is missing or empty. */
  lemma EmptyActionOrigin(t: Token)
    requires IsActionToken(t)
    ensures ActionOf(t).command.None? && ActionOf(t).resultExpr.None?
            <==> t.ttype == RESULT_ONLY && (t.result.None? || t.result.value == "")
  {
  }

  /** The step list after one more token: a step token opens a step with the stripped
      name; an action token goes to the current (last) step, and is dropped when there is
      none yet; every other token is ignored. */
  function Feed(steps: seq<TestStep>, t: Token): (r: seq<TestStep>)
    ensures |r| == |steps| + (if t.ttype == STEP then 1 else 0)
  {
    if t.ttype == STEP then steps + [TestStep(Strip(t.value), t.lineno, [])]
    else if IsActionToken(t) && steps != [] then
      steps[|steps| - 1 := Top(steps).(actions := Top(steps).actions + [ActionOf(t)])]
    else steps
  }

  /** The steps `_build_basic_ast` builds from `tokens`. */
  function Built(tokens: seq<Token>): seq<TestStep> {
    if tokens == [] then [] else Feed(Built(Pop(tokens)), Top(tokens))
  }

  /** Where `current_step` sits in the step list: the last step, or none before the first. */
  function LastIndex(steps: seq<TestStep>): Option<nat> {
    if steps == [] then None else Some(|steps| - 1)
  }

  /** `_build_basic_ast`. The step object `current_step` is always the last step of the
      file, so appending to it is updating that step. */
  method BuildBasicAst(tokens: seq<Token>, path: Option<string>) returns (shtest: ShtestFile)
    ensures fresh(shtest)
    ensures shtest.steps == Built(tokens) && shtest.path == path
    ensures shtest.variables == [] && shtest.arguments == [] && shtest.lastFileVar == [None]
  {
    shtest := new ShtestFile(path);
    var current: Option<nat> := None;
    for i := 0 to |tokens|
      invariant shtest.steps == Built(tokens[..i])
      invariant current == LastIndex(shtest.steps)
      invariant shtest.path == path && shtest.variables == [] && shtest.arguments == []
      invariant shtest.lastFileVar == [None]
    {
      PopTop(tokens[..i + 1]);
      assert Pop(tokens[..i + 1]) == tokens[..i] && Top(tokens[..i + 1]) == tokens[i];
      current := FeedToken(shtest, current, tokens[i]);
    }
    assert tokens[..|tokens|] == tokens;
  }

  /** One turn of the loop of `_build_basic_ast`: a step token opens a step, an action
      token is appended to the current step. */
  method FeedToken(shtest: ShtestFile, current: Option<nat>, token: Token) returns (next: Option<nat>)
    requires current == LastIndex(shtest.steps)
    modifies shtest
    ensures shtest.steps == Feed(old(shtest.steps), token)
    ensures next == LastIndex(shtest.steps)
    ensures shtest.path == old(shtest.path) && shtest.variables == old(shtest.variables)
    ensures shtest.arguments == old(shtest.arguments) && shtest.lastFileVar == old(shtest.lastFileVar)
  {
    next := current;
    if token.ttype == STEP {
      var index := shtest.AddStep(Strip(token.value), token.lineno);
      next := Some(index);
    } else if IsActionToken(token) && current.Some? {
      var action := ActionOf(token);
      shtest.AddAction(current.value, action);
    }
  }

  /** The name and line of each step. */
  function StepHeads(steps: seq<TestStep>): seq<(string, int)> {
    seq(|steps|, j requires 0 <= j < |steps| => (steps[j].name, steps[j].lineno))
  }

  /** The stripped value and line of each token. */
  function TokenHeads(tokens: seq<Token>): seq<(string, int)> {
    seq(|tokens|, j requires 0 <= j < |tokens| => (Strip(tokens[j].value), tokens[j].lineno))
  }

  /** Adding an action to a step keeps the heads. */
  lemma FeedHeads(steps: seq<TestStep>, t: Token)
    ensures StepHeads(Feed(steps, t))
            == StepHeads(steps) + (if t.ttype == STEP then [(Strip(t.value), t.lineno)] else [])
  {
  }

  /** Each step token opens exactly one step, in order, named by its stripped value and
      carrying its line. */
  lemma {:induction false} BuiltSteps(tokens: seq<Token>)
    ensures StepHeads(Built(tokens)) == TokenHeads(Retain(tokens, IsStep))
  {
    if tokens != [] {
      var p, t := Pop(tokens), Top(tokens);
      BuiltSteps(p);
      FeedHeads(Built(p), t);
      var r := Retain(p, IsStep);
      if t.ttype == STEP {
        assert Retain(tokens, IsStep) == r + [t];
        assert TokenHeads(r + [t]) == TokenHeads(r) + [(Strip(t.value), t.lineno)];
      } else {
        assert Retain(tokens, IsStep) == r + [];
        assert r + [] == r;
        assert StepHeads(Built(p)) + [] == StepHeads(Built(p));
      }
    }
  }

  /** Tokens before the first step token contribute nothing. */
  lemma {:induction false} DropsBeforeFirstStep(pre: seq<Token>, tokens: seq<Token>)
    requires forall i :: 0 <= i < |pre| ==> pre[i].ttype != STEP
    ensures Built(pre + tokens) == Built(tokens)
    decreases |tokens|
  {
    if tokens == [] {
      assert pre + tokens == pre;
      NoStepNoSteps(pre);
    } else {
      assert Pop(pre + tokens) == pre + Pop(tokens) && Top(pre + tokens) == Top(tokens);
      DropsBeforeFirstStep(pre, Pop(tokens));
    }
  }

  lemma {:induction false} NoStepNoSteps(tokens: seq<Token>)
    requires forall i :: 0 <= i < |tokens| ==> tokens[i].ttype != STEP
    ensures Built(tokens) == []
  {
    if tokens != [] {
      var p := Pop(tokens);
      assert forall i :: 0 <= i < |p| ==> p[i] == tokens[i];
      NoStepNoSteps(p);
    }
  }

  /** All the actions of all the steps, in order. */
  function Flatten(steps: seq<TestStep>): seq<Action> {
    if steps == [] then [] else Flatten(Pop(steps)) + Top(steps).actions
  }

  /** The actions the action tokens become, in order. */
  function ActionsFrom(tokens: seq<Token>): seq<Action> {
    if tokens == [] then []
    else ActionsFrom(Pop(tokens)) + (if IsActionToken(Top(tokens)) then [ActionOf(Top(tokens))] else [])
  }

  lemma FlattenUpdateLast(steps: seq<TestStep>, a: Action)
    requires steps != []
    ensures Flatten(steps[|steps| - 1 := Top(steps).(actions := Top(steps).actions + [a])]) == Flatten(steps) + [a]
  {
    var s := steps[|steps| - 1 := Top(steps).(actions := Top(steps).actions + [a])];
    assert Pop(s) == Pop(steps);
  }

  /** Once a step is open, every action token becomes exactly one action, in token order:
      none is lost and none is made up. */
  lemma {:induction false} BuiltActions(tokens: seq<Token>)
    requires tokens != [] && tokens[0].ttype == STEP
    ensures Built(tokens) != []
    ensures Flatten(Built(tokens)) == ActionsFrom(tokens)
  {
    var p, t := Pop(tokens), Top(tokens);
    if p == [] {
      assert tokens == [t];
      assert Built(tokens) == [TestStep(Strip(t.value), t.lineno, [])];
      assert Flatten(Built(tokens)) == Flatten([]) + [];
    } else {
      assert p[0] == tokens[0];
      BuiltActions(p);
      var b := Built(p);
      if t.ttype == STEP {
        assert Pop(b + [TestStep(Strip(t.value), t.lineno, [])]) == b;
        assert Flatten(Built(tokens)) == Flatten(b) + [];
      } else if IsActionToken(t) {
        FlattenUpdateLast(b, ActionOf(t));
      } else {
        assert ActionsFrom(tokens) == ActionsFrom(p) + [];
      }
    }
  }

  /** Actions attach to the most recent step: the last step holds exactly the actions of
      the tokens after the last step token. */
  lemma {:induction false} LastStepActions(pre: seq<Token>, step: Token, post: seq<Token>)
    requires step.ttype == STEP
    requires forall i :: 0 <= i < |post| ==> post[i].ttype != STEP
    ensures Built(pre + [step] + post) != []
    ensures Top(Built(pre + [step] + post)).name == Strip(step.value)
    ensures Top(Built(pre + [step] + post)).actions == ActionsFrom(post)
    decreases |post|
  {
    var s := pre + [step] + post;
    if post == [] {
      assert s == pre + [step] && Pop(s) == pre && Top(s) == step;
    } else {
      var p, t := Pop(post), Top(post);
      assert forall i :: 0 <= i < |p| ==> p[i] == post[i];
      LastStepActions(pre, step, p);
      PopAppend(pre + [step], post);
      assert t.ttype != STEP;
      if !IsActionToken(t) {
        assert ActionsFrom(post) == ActionsFrom(p) + [];
      }
    }
  }

  // ---------------------------------------------------------------- default transformers

  /** `_normalize_step_names`: every name stripped. */
  function Normalized(steps: seq<TestStep>): (r: seq<TestStep>)
    ensures |r| == |steps|
    ensures forall i :: 0 <= i < |r| ==> r[i] == steps[i].(name := Strip(steps[i].name))
  {
    seq(|steps|, i requires 0 <= i < |steps| => steps[i].(name := Strip(steps[i].name)))
  }

  /** The action `_add_default_actions` gives a step without any. */
  function DefaultAction(lineno: int): Action {
    Action(Some("echo 'Step completed'"), None, lineno, Some("Action: echo 'Step completed'"))
  }

  /** `_add_default_actions`: a step without actions gets the default one. */
  function WithDefaults(steps: seq<TestStep>): (r: seq<TestStep>)
    ensures |r| == |steps|
    ensures forall i :: 0 <= i < |r| ==>
              r[i] == if steps[i].actions == [] then steps[i].(actions := [DefaultAction(steps[i].lineno)]) else steps[i]
  {
    seq(|steps|, i requires 0 <= i < |steps| =>
      if steps[i].actions == [] then steps[i].(actions := [DefaultAction(steps[i].lineno)]) else steps[i])
  }

  /** After the default transformers every name is stripped and every step has an action;
      running them again changes nothing. */
  lemma DefaultTransformersShape(steps: seq<TestStep>)
    ensures forall i :: 0 <= i < |steps| ==>
              IsStripped(WithDefaults(Normalized(steps))[i].name) && WithDefaults(Normalized(steps))[i].actions != []
    ensures Normalized(WithDefaults(Normalized(steps))) == WithDefaults(Normalized(steps))
    ensures WithDefaults(WithDefaults(Normalized(steps))) == WithDefaults(Normalized(steps))
  {
    var w := WithDefaults(Normalized(steps));
    forall i | 0 <= i < |w| ensures w[i].name == Strip(w[i].name) && w[i].actions != [] {
      StripIdempotent(steps[i].name);
    }
    NormalizedFixed(w);
    DefaultsFixed(w);
  }

  /** Steps whose names are stripped are left as they are by `_normalize_step_names`. */
  lemma NormalizedFixed(w: seq<TestStep>)
    requires forall i :: 0 <= i < |w| ==> w[i].name == Strip(w[i].name)
    ensures Normalized(w) == w
  {
    assert forall i :: 0 <= i < |w| ==> Normalized(w)[i] == w[i];
  }

  /** Steps that all have an action are left as they are by `_add_default_actions`. */
  lemma DefaultsFixed(w: seq<TestStep>)
    requires forall i :: 0 <= i < |w| ==> w[i].actions != []
    ensures WithDefaults(w) == w
  {
    assert forall i :: 0 <= i < |w| ==> WithDefaults(w)[i] == w[i];
  }

  /** The default action fills exactly the empty steps; names are untouched. */
  lemma DefaultsGiveActions(steps: seq<TestStep>)
    ensures forall i :: 0 <= i < |steps| ==>
              WithDefaults(steps)[i].actions != [] && WithDefaults(steps)[i].name == steps[i].name
              && WithDefaults(steps)[i].lineno == steps[i].lineno
  {
  }

  /** `_normalize_step_names` on a file. */
  method NormalizeStepNames(ast: ShtestFile)
    modifies ast
    ensures ast.steps == Normalized(old(ast.steps))
    ensures ast.variables == old(ast.variables) && ast.path == old(ast.path)
  {
    ghost var steps0 := ast.steps;
    for i := 0 to |ast.steps|
      invariant |ast.steps| == |steps0| && ast.variables == old(ast.variables) && ast.path == old(ast.path)
      invariant forall j :: 0 <= j < i ==> ast.steps[j] == Normalized(steps0)[j]
      invariant forall j :: i <= j < |steps0| ==> ast.steps[j] == steps0[j]
    {
      ast.steps := ast.steps[i := ast.steps[i].(name := Strip(ast.steps[i].name))];
    }
  }

  /** `_add_default_actions` on a file. */
  method AddDefaultActions(ast: ShtestFile)
    modifies ast
    ensures ast.steps == WithDefaults(old(ast.steps))
    ensures ast.variables == old(ast.variables) && ast.path == old(ast.path)
  {
    ghost var steps0 := ast.steps;
    for i := 0 to |ast.steps|
      invariant |ast.steps| == |steps0| && ast.variables == old(ast.variables) && ast.path == old(ast.path)
      invariant forall j :: 0 <= j < i ==> ast.steps[j] == WithDefaults(steps0)[j]
      invariant forall j :: i <= j < |steps0| ==> ast.steps[j] == steps0[j]
    {
      if ast.steps[i].actions == [] {
        ast.steps := ast.steps[i := ast.steps[i].(actions := ast.steps[i].actions + [DefaultAction(ast.steps[i].lineno)])];
      }
    }
  }

  // ---------------------------------------------------------------- transformers

  /** A transformer: one of the two defaults, or a caller's, run through an oracle that
      returns the new steps or the exception it raised. */
  datatype Transformer = NormalizeNames | AddDefaults | CustomTransformer(id: nat)

  /** `ASTTransformer.transform`: each transformer in turn; one that raises is skipped
      (its message is printed) and the others still run. */
  function TransformSteps(ts: seq<Transformer>, steps: seq<TestStep>,
                          custom: (nat, seq<TestStep>) -> Result<seq<TestStep>>): seq<TestStep>
    decreases |ts|
  {
    if ts == [] then steps
    else
      var next := match ts[0]
        case NormalizeNames => Normalized(steps)
        case AddDefaults => WithDefaults(steps)
        case CustomTransformer(id) => (var r := custom(id, steps); if r.Ok? then r.value else steps);
      TransformSteps(ts[1..], next, custom)
  }

  /** A raising transformer is the same as no transformer. */
  lemma FailingTransformerSkipped(ts: seq<Transformer>, id: nat, steps: seq<TestStep>,
                                  custom: (nat, seq<TestStep>) -> Result<seq<TestStep>>)
    requires custom(id, steps).Fail?
    ensures TransformSteps([CustomTransformer(id)] + ts, steps, custom) == TransformSteps(ts, steps, custom)
  {
    assert ([CustomTransformer(id)] + ts)[1..] == ts;
  }

  /** The two default transformers, in their order. */
  lemma DefaultTransformers(steps: seq<TestStep>, custom: (nat, seq<TestStep>) -> Result<seq<TestStep>>)
    ensures TransformSteps([NormalizeNames, AddDefaults], steps, custom) == WithDefaults(Normalized(steps))
  {
    assert [NormalizeNames, AddDefaults][1..] == [AddDefaults];
    assert [AddDefaults][1..] == [];
  }

  /** `ASTTransformer.transform` on a file. */
  method RunTransformers(ast: ShtestFile, ts: seq<Transformer>, custom: (nat, seq<TestStep>) -> Result<seq<TestStep>>)
    modifies ast
    ensures ast.steps == TransformSteps(ts, old(ast.steps), custom)
    ensures ast.variables == old(ast.variables) && ast.path == old(ast.path)
  {
    assert ts[0..] == ts;
    for i := 0 to |ts|
      invariant TransformSteps(ts[i..], ast.steps, custom) == TransformSteps(ts, old(ast.steps), custom)
      invariant ast.variables == old(ast.variables) && ast.path == old(ast.path)
    {
      assert ts[i..][0] == ts[i] && ts[i..][1..] == ts[i + 1..];
      match ts[i] {
        case NormalizeNames => NormalizeStepNames(ast);
        case AddDefaults => AddDefaultActions(ast);
        case CustomTransformer(id) =>
          var r := custom(id, ast.steps);
          if r.Ok? {
            ast.steps := r.value;
          }
      }
    }
  }

  // ---------------------------------------------------------------- validators

  /** `_validate_steps`' messages for the step at index `i`. */
  function StepErrorsAt(i: nat, step: TestStep): seq<string> {
    (if Blank(step.name) then ["Step " + IntToString(i + 1) + " has empty name"] else [])
    + (if step.actions == [] then ["Step '" + step.name + "' has no actions"] else [])
  }

  /** `_validate_steps` over the first `n` steps. */
  function StepErrors(steps: seq<TestStep>, n: nat): seq<string>
    requires n <= |steps|
  {
    if n == 0 then [] else StepErrors(steps, n - 1) + StepErrorsAt(n - 1, steps[n - 1])
  }

  /** A step passes exactly when its name is not blank and it has an action. */
  predicate GoodStep(step: TestStep) {
    !Blank(step.name) && step.actions != []
  }

  lemma StepErrorsAtEmpty(i: nat, step: TestStep)
    ensures StepErrorsAt(i, step) == [] <==> GoodStep(step)
  {
  }

  /** `_validate_steps` reports nothing exactly when every step is good. */
  lemma {:induction false} StepErrorsEmpty(steps: seq<TestStep>, n: nat)
    requires n <= |steps|
    ensures StepErrors(steps, n) == [] <==> forall i :: 0 <= i < n ==> GoodStep(steps[i])
  {
    if n > 0 {
      StepErrorsEmpty(steps, n - 1);
      StepErrorsAtEmpty(n - 1, steps[n - 1]);
      assert StepErrors(steps, n) == StepErrors(steps, n - 1) + StepErrorsAt(n - 1, steps[n - 1]);
    }
  }

  /** `_validate_steps`, with its loop over `enumerate(ast.steps)`. */
  method ValidateSteps(steps: seq<TestStep>) returns (errors: seq<string>)
    ensures errors == StepErrors(steps, |steps|)
  {
    errors := [];
    for i := 0 to |steps|
      invariant errors == StepErrors(steps, i)
    {
      errors := CheckStep(errors, i, steps[i]);
    }
  }

  /** One turn of the loop of `_validate_steps`: the checks on the `i`-th step. */
  method CheckStep(errors: seq<string>, i: nat, step: TestStep) returns (errs: seq<string>)
    ensures errs == errors + StepErrorsAt(i, step)
  {
    errs := errors;
    var m1: seq<string> := [];
    var blank := StripsToEmpty(step.name);
    if blank {
      m1 := ["Step " + IntToString(i + 1) + " has empty name"];
      errs := errs + m1;
    }
    var m2: seq<string> := [];
    if |step.actions| == 0 {
      m2 := ["Step '" + step.name + "' has no actions"];
      errs := errs + m2;
    }
    AppendAssoc(errors, m1, m2);
  }

  /** `_validate_actions`' message for the `i`-th action of a step, if it has neither a
      command nor a result. */
  function NeitherMessage(n: nat, name: string): string {
    "Action " + IntToString(n) + " in step '" + name + "' has neither command nor result"
  }

  function ActionErrorsAt(name: string, actions: seq<Action>, n: nat): seq<string>
    requires n <= |actions|
  {
    if n == 0 then []
    else ActionErrorsAt(name, actions, n - 1)
         + (if actions[n - 1].command.None? && actions[n - 1].resultExpr.None?
            then [NeitherMessage(n, name)] else [])
  }

  /** `_validate_actions` over the first `n` steps. */
  function ActionErrors(steps: seq<TestStep>, n: nat): seq<string>
    requires n <= |steps|
  {
    if n == 0 then [] else ActionErrors(steps, n - 1) + ActionErrorsAt(steps[n - 1].name, steps[n - 1].actions, |steps[n - 1].actions|)
  }

  predicate EmptyAction(a: Action) {
    a.command.None? && a.resultExpr.None?
  }

  lemma {:induction false} ActionErrorsAtEmpty(name: string, actions: seq<Action>, n: nat)
    requires n <= |actions|
    ensures ActionErrorsAt(name, actions, n) == [] <==> forall i :: 0 <= i < n ==> !EmptyAction(actions[i])
  {
    if n > 0 {
      ActionErrorsAtEmpty(name, actions, n - 1);
    }
  }

  /** `_validate_actions` reports nothing exactly when no action lacks both parts. */
  lemma {:induction false} ActionErrorsEmpty(steps: seq<TestStep>, n: nat)
    requires n <= |steps|
    ensures ActionErrors(steps, n) == [] <==>
            forall i, j :: 0 <= i < n && 0 <= j < |steps[i].actions| ==> !EmptyAction(steps[i].actions[j])
  {
    if n > 0 {
      ActionErrorsEmpty(steps, n - 1);
      ActionErrorsAtEmpty(steps[n - 1].name, steps[n - 1].actions, |steps[n - 1].actions|);
    }
  }

  /** `_validate_actions`, with its two nested loops; the inner one is `StepActionErrors`. */
  method ValidateActions(steps: seq<TestStep>) returns (errors: seq<string>)
    ensures errors == ActionErrors(steps, |steps|)
  {
    errors := [];
    for s := 0 to |steps|
      invariant errors == ActionErrors(steps, s)
    {
      var more := StepActionErrors(steps[s]);
      errors := errors + more;
    }
  }

  /** The inner loop of `_validate_actions`, over the actions of one step. */
  method StepActionErrors(step: TestStep) returns (errors: seq<string>)
    ensures errors == ActionErrorsAt(step.name, step.actions, |step.actions|)
  {
    errors := [];
    for i := 0 to |step.actions|
      invariant errors == ActionErrorsAt(step.name, step.actions, i)
    {
      var action := step.actions[i];
      if action.command.None? && action.resultExpr.None? {
        errors := errors + [NeitherMessage(i + 1, step.name)];
      }
    }
  }

  /** What a validator returned: a list of messages, one other value (shown by its text),
      or nothing. */
  datatype Verdict = Messages(msgs: seq<string>) | Message(text: string) | Nothing

  /** A validator: one of the two defaults, or a caller's, run through an oracle. */
  datatype Validator = StepsValidator | ActionsValidator | CustomValidator(id: nat)

  /** The messages one validator adds: a truthy list is extended, a truthy single value
      appended, and a raised exception recorded as `Validation error: ...`. */
  function Contribution(r: Result<Verdict>): seq<string> {
    match r
    case Fail(e) => ["Validation error: " + e.Describe()]
    case Ok(Messages(ms)) => ms
    case Ok(Message(t)) => if t != "" then [t] else []
    case Ok(Nothing) => []
  }

  function RunValidator(v: Validator, steps: seq<TestStep>, custom: (nat, seq<TestStep>) -> Result<Verdict>): Result<Verdict> {
    match v
    case StepsValidator => Ok(Messages(StepErrors(steps, |steps|)))
    case ActionsValidator => Ok(Messages(ActionErrors(steps, |steps|)))
    case CustomValidator(id) => custom(id, steps)
  }

  /** `ASTValidator.validate` over the first `n` validators. */
  function ValidateAll(vs: seq<Validator>, n: nat, steps: seq<TestStep>,
                       custom: (nat, seq<TestStep>) -> Result<Verdict>): seq<string>
    requires n <= |vs|
  {
    if n == 0 then [] else ValidateAll(vs, n - 1, steps, custom) + Contribution(RunValidator(vs[n - 1], steps, custom))
  }

  /** `ASTValidator.validate`, with its loop and its `try`. */
  method Validate(vs: seq<Validator>, steps: seq<TestStep>, custom: (nat, seq<TestStep>) -> Result<Verdict>)
    returns (errors: seq<string>)
    ensures errors == ValidateAll(vs, |vs|, steps, custom)
  {
    errors := [];
    for i := 0 to |vs|
      invariant errors == ValidateAll(vs, i, steps, custom)
    {
      var result := RunOne(vs[i], steps, custom);
      if result.Fail? {
        errors := errors + ["Validation error: " + result.exc.Describe()];
      } else if result.value.Messages? {
        errors := errors + result.value.msgs;
      } else if result.value.Message? && result.value.text != "" {
        errors := errors + [result.value.text];
      }
    }
  }

  /** One validator of the loop of `ASTValidator.validate`, called on the steps. */
  method RunOne(v: Validator, steps: seq<TestStep>, custom: (nat, seq<TestStep>) -> Result<Verdict>)
    returns (result: Result<Verdict>)
    ensures result == RunValidator(v, steps, custom)
  {
    match v {
      case StepsValidator =>
        var e := ValidateSteps(steps);
        result := Ok(Messages(e));
      case ActionsValidator =>
        var e := ValidateActions(steps);
        result := Ok(Messages(e));
      case CustomValidator(id) =>
        result := custom(id, steps);
    }
  }

  /** A validator that raises adds exactly one message, naming the exception. */
  lemma RaisingValidatorRecorded(vs: seq<Validator>, n: nat, steps: seq<TestStep>,
                                 custom: (nat, seq<TestStep>) -> Result<Verdict>)
    requires 0 < n <= |vs| && vs[n - 1].CustomValidator? && custom(vs[n - 1].id, steps).Fail?
    ensures ValidateAll(vs, n, steps, custom)
            == ValidateAll(vs, n - 1, steps, custom) + ["Validation error: " + custom(vs[n - 1].id, steps).exc.Describe()]
  {
  }

  /** After the default transformers the step validator can only complain about blank
      names: it is silent exactly when every step has a non-blank name. */
  lemma DefaultStepWarnings(steps: seq<TestStep>)
    ensures var w := WithDefaults(Normalized(steps));
            StepErrors(w, |w|) == [] <==> forall i :: 0 <= i < |steps| ==> !Blank(steps[i].name)
  {
    var w := WithDefaults(Normalized(steps));
    StepErrorsEmpty(w, |w|);
    forall i | 0 <= i < |steps| ensures GoodStep(w[i]) <==> !Blank(steps[i].name) {
      DefaultGood(steps, i);
    }
  }

  lemma DefaultGood(steps: seq<TestStep>, i: nat)
    requires i < |steps|
    ensures GoodStep(WithDefaults(Normalized(steps))[i]) <==> !Blank(steps[i].name)
  {
    DefaultsGiveActions(Normalized(steps));
    BlankStrip(steps[i].name);
  }

  // ---------------------------------------------------------------- the builders

  /** `DefaultASTBuilder.build`: the file with the default transformers applied, and the
      warnings the default validators print (they do not stop the build). */
  method Build(tokens: seq<Token>, path: Option<string>) returns (ast: ShtestFile, warnings: seq<string>)
    ensures fresh(ast)
    ensures ast.steps == WithDefaults(Normalized(Built(tokens))) && ast.path == path
    ensures warnings == StepErrors(ast.steps, |ast.steps|) + ActionErrors(ast.steps, |ast.steps|)
  {
    ast := BuildBasicAst(tokens, path);
    NormalizeStepNames(ast);
    AddDefaultActions(ast);
    var e1 := ValidateSteps(ast.steps);
    var e2 := ValidateActions(ast.steps);
    warnings := e1 + e2;
  }

  /** `CustomASTBuilder.build`: the basic build, then the given transformers and
      validators. */
  method BuildCustom(tokens: seq<Token>, path: Option<string>,
                     ts: seq<Transformer>, tcustom: (nat, seq<TestStep>) -> Result<seq<TestStep>>,
                     vs: seq<Validator>, vcustom: (nat, seq<TestStep>) -> Result<Verdict>)
    returns (ast: ShtestFile, warnings: seq<string>)
    ensures fresh(ast)
    ensures ast.steps == TransformSteps(ts, Built(tokens), tcustom) && ast.path == path
    ensures warnings == ValidateAll(vs, |vs|, ast.steps, vcustom)
  {
    ast := BuildBasicAst(tokens, path);
    RunTransformers(ast, ts, tcustom);
    warnings := Validate(vs, ast.steps, vcustom);
  }

  /** What the default builder makes of the tokens: one step per step token, in order,
      with the token's stripped value as its name and the token's line, and at least one
      action in every step. */
  lemma BuildShape(tokens: seq<Token>)
    ensures var w := WithDefaults(Normalized(Built(tokens)));
            StepHeads(w) == TokenHeads(Retain(tokens, IsStep))
            && forall i :: 0 <= i < |w| ==> w[i].actions != []
  {
    var b := Built(tokens);
    var w := WithDefaults(Normalized(b));
    BuiltSteps(tokens);
    DefaultsGiveActions(Normalized(b));
    forall i | 0 <= i < |w| ensures StepHeads(w)[i] == StepHeads(b)[i] {
      StripIdempotent(Retain(tokens, IsStep)[i].value);
    }
  }

  /** The module-level `ast_builder_registry`, with `default` and `custom` registered. */
  method GlobalAstBuilderRegistry() returns (reg: Grammar.Registry)
    ensures fresh(reg) && reg.Valid() && reg.noun == "AST builder" && reg.base == "ASTBuilder"
    ensures reg.List() == ["default", "custom"]
    ensures reg.Get("default") == Ok(Grammar.ClassRef("DefaultASTBuilder", true))
    ensures reg.Get("custom") == Ok(Grammar.ClassRef("CustomASTBuilder", true))
    ensures reg.GetDefault() == "default"
  {
    reg := new Grammar.Registry("AST builder", "ASTBuilder");
    var o := reg.Register("default", Grammar.ClassRef("DefaultASTBuilder", true));
    o := reg.Register("custom", Grammar.ClassRef("CustomASTBuilder", true));
  }
}
