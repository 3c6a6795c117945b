/** `ShellFrameworkBinder`: the scope rule for validations, then the de-duplication of
    repeated actions into numbered helper functions with positional parameters. */
module Binder {
  import opened Basics
  import opened Text
  import opened Seqs
  import OrderedDict
  import ShtestAst
  import opened ShellFramework
  import opened BinderText
  import opened Counter

  // ----- enforce_scope -----

  /** The first validation whose scope is `last_action` (which is also the scope of
      anything that is not a validation check). */
  function FirstLocal(vs: seq<Node>): (r: Option<Node>)
    ensures r.None? <==> forall k :: 0 <= k < |vs| ==> ScopeOf(vs[k]) != "last_action"
    ensures r.Some? ==> ScopeOf(r.value) == "last_action"
  {
    if vs == [] then None
    else if ScopeOf(vs[0]) == "last_action" then Some(vs[0])
    else
      assert forall k :: 1 <= k < |vs| ==> vs[k] == vs[1..][k - 1];
      FirstLocal(vs[1..])
  }

  /** A step that breaks the rule: no action, and a validation bound to the last action. */
  predicate Misplaced(step: ShellTestStep) {
    step.actions == [] && FirstLocal(step.validations).Some?
  }

  /** The `ValueError` text; `shown` is the validation's `str()` (a validation check has
      no `phrase` attribute). */
  function ScopeMessage(shown: string, stepName: string): string {
    "Local validation '" + shown + "' must follow an action in step '" + stepName + "'"
  }

  function ScopeError(step: ShellTestStep, shown: Node -> string): Exc
    requires Misplaced(step)
  {
    ValueError(ScopeMessage(shown(FirstLocal(step.validations).value), step.name))
  }

  /** `enforce_scope`: the error of the first step that breaks the rule, if any. */
  function ScopeCheck(steps: seq<ShellTestStep>, shown: Node -> string): (o: Outcome)
    ensures o.Pass? <==> forall s :: 0 <= s < |steps| ==> !Misplaced(steps[s])
    ensures o.Raise? ==> exists s :: 0 <= s < |steps| && Misplaced(steps[s]) && o.exc == ScopeError(steps[s], shown)
                                     && forall t :: 0 <= t < s ==> !Misplaced(steps[t])
  {
    if steps == [] then Pass
    else if Misplaced(steps[0]) then Raise(ScopeError(steps[0], shown))
    else
      var o := ScopeCheck(steps[1..], shown);
      assert forall s :: 1 <= s < |steps| ==> steps[s] == steps[1..][s - 1];
      if o.Raise? then
        FirstMisplacedShift(steps, shown, o.exc);
        o
      else o
  }

  /** The first misplaced step of the rest is the first of the whole list when the head is fine. */
  lemma FirstMisplacedShift(steps: seq<ShellTestStep>, shown: Node -> string, e: Exc)
    requires steps != [] && !Misplaced(steps[0])
    requires exists s :: 0 <= s < |steps| - 1 && Misplaced(steps[1..][s]) && e == ScopeError(steps[1..][s], shown)
                         && forall t :: 0 <= t < s ==> !Misplaced(steps[1..][t])
    ensures exists s :: 0 <= s < |steps| && Misplaced(steps[s]) && e == ScopeError(steps[s], shown)
                        && forall t :: 0 <= t < s ==> !Misplaced(steps[t])
  {
    var s :| 0 <= s < |steps| - 1 && Misplaced(steps[1..][s]) && e == ScopeError(steps[1..][s], shown)
             && forall t :: 0 <= t < s ==> !Misplaced(steps[1..][t]);
    assert steps[1..][s] == steps[s + 1];
    forall t | 0 <= t < s + 1 ensures !Misplaced(steps[t]) {
      if t > 0 {
        assert steps[t] == steps[1..][t - 1];
      }
    }
  }

  // ----- keys -----

  /** A validation check as shell text: its expectation as a comment, then its command. */
  function CheckText(v: ValidationCheck): seq<string> {
    ["# " + v.expected, v.actualCmd]
  }

  /** The lines of an inline block as text. */
  function LinesOf(code: seq<CodeLine>): (lines: seq<string>)
    ensures |lines| >= |code|
  {
    if code == [] then []
    else LinesOf(Pop(code)) + (if Top(code).CheckLine? then CheckText(Top(code).check) else [Top(code).line])
  }

  /** `_action_key_and_params(action)[0]`; `shown` is `str()` of the other nodes. */
  function ActionKey(n: Node, shown: Node -> string): string {
    match n
    case Inline(code) => Join("\n", LinesOf(code))
    case FunctionCall(name, args) => name + "|" + Join("|", args)
    case Check(v) => "# " + v.expected + "\n" + v.actualCmd
    case _ => shown(n)
  }

  /** A validation check is keyed like an inline block that holds only that check, so the
      two are taken for the same action. */
  lemma CheckKeyedAsInline(v: ValidationCheck, shown: Node -> string)
    ensures ActionKey(Check(v), shown) == ActionKey(Inline([CheckLine(v)]), shown)
  {
    assert Pop([CheckLine(v)]) == [] && Top([CheckLine(v)]) == CheckLine(v);
    var lines := ["# " + v.expected, v.actualCmd];
    assert LinesOf([CheckLine(v)]) == lines;
    assert lines[1..] == [v.actualCmd];
    assert Join("\n", lines) == lines[0] + "\n" + Join("\n", [v.actualCmd]);
  }

  /** `key.split("\n")` gives back the lines of the block the key came from, when no line
      holds a newline itself. */
  lemma KeyLines(code: seq<CodeLine>, shown: Node -> string)
    requires LinesOf(code) != []
    requires forall k :: 0 <= k < |LinesOf(code)| ==> '\n' !in LinesOf(code)[k]
    ensures SplitOn(ActionKey(Inline(code), shown), '\n') == LinesOf(code)
  {
    SplitJoin(LinesOf(code), '\n');
  }

  /** The keys of a list of actions. */
  function KeysOf(actions: seq<Node>, shown: Node -> string): (ks: seq<string>)
    ensures |ks| == |actions|
    ensures forall i :: 0 <= i < |actions| ==> ks[i] == ActionKey(actions[i], shown)
  {
    seq(|actions|, i requires 0 <= i < |actions| => ActionKey(actions[i], shown))
  }

  /** The keys of every action of every step, in order. */
  function AllKeys(steps: seq<ShellTestStep>, shown: Node -> string): seq<string> {
    if steps == [] then [] else AllKeys(Pop(steps), shown) + KeysOf(Top(steps).actions, shown)
  }

  lemma {:induction false} AllKeysHas(steps: seq<ShellTestStep>, shown: Node -> string, s: nat, i: nat)
    requires s < |steps| && i < |steps[s].actions|
    ensures ActionKey(steps[s].actions[i], shown) in AllKeys(steps, shown)
  {
    if s == |steps| - 1 {
      assert KeysOf(Top(steps).actions, shown)[i] == ActionKey(steps[s].actions[i], shown);
    } else {
      assert Pop(steps)[s] == steps[s];
      AllKeysHas(Pop(steps), shown, s, i);
    }
  }

  // ----- helper creation -----

  /** The state step 2 of `bind` updates: `action_map`, `helper_counter` and the AST's
      helper list. */
  datatype HelperPlan = HelperPlan(actionMap: OrderedDict.ODict<string, FunctionDef>, counter: nat, helpers: seq<FunctionDef>)

  function HelperName(n: nat): string {
    "helper_" + IntToString(n)
  }

  /** The body lines with every placeholder replaced by its positional variable. */
  function SubstitutedBody(lines: seq<string>, params: seq<string>): (body: seq<string>)
    ensures |body| == |lines|
    ensures forall i :: 0 <= i < |lines| ==> body[i] == Substitute(lines[i], params)
  {
    seq(|lines|, i requires 0 <= i < |lines| => Substitute(lines[i], params))
  }

  /** The helper made for a key: its lines are the key split at newlines, its parameters
      the placeholders of those lines. */
  predicate Fits(key: string, h: FunctionDef) {
    var lines := SplitOn(key, '\n');
    h.params == Placeholders(lines) && h.bodyLines == SubstitutedBody(lines, h.params)
  }

  function MakeHelper(key: string, n: nat): (h: FunctionDef)
    ensures Fits(key, h) && h.name == HelperName(n)
  {
    var lines := SplitOn(key, '\n');
    var params := Placeholders(lines);
    FunctionDef(HelperName(n), params, SubstitutedBody(lines, params))
  }

  /** One entry of the occurrence counter: a key seen more than once and not yet mapped
      gets the next helper. */
  function PlanStep(p: HelperPlan, key: string, count: nat): HelperPlan {
    if count > 1 && !OrderedDict.HasKey(p.actionMap, key) then
      var h := MakeHelper(key, p.counter + 1);
      HelperPlan(OrderedDict.Set(p.actionMap, key, h), p.counter + 1, p.helpers + [h])
    else p
  }

  lemma PlanStepTaken(p: HelperPlan, key: string, count: nat)
    requires count > 1 && !OrderedDict.HasKey(p.actionMap, key)
    ensures PlanStep(p, key, count) == HelperPlan(OrderedDict.Set(p.actionMap, key, MakeHelper(key, p.counter + 1)),
                                                  p.counter + 1, p.helpers + [MakeHelper(key, p.counter + 1)])
  {
    var h := MakeHelper(key, p.counter + 1);
    assert PlanStep(p, key, count) == HelperPlan(OrderedDict.Set(p.actionMap, key, h), p.counter + 1, p.helpers + [h]);
  }

  lemma PlanStepSkipped(p: HelperPlan, key: string, count: nat)
    requires !(count > 1 && !OrderedDict.HasKey(p.actionMap, key))
    ensures PlanStep(p, key, count) == p
  {
  }

  /** Step 2 of `bind` over the entries of the counter, in order. */
  function Planned(p: HelperPlan, entries: seq<(string, nat)>): HelperPlan {
    if entries == [] then p else PlanStep(Planned(p, Pop(entries)), Top(entries).0, Top(entries).1)
  }

  /** Helpers are only added, one per step of the counter, named `helper_<n>` with
      consecutive numbers after the counter's old value. */
  lemma {:induction false} PlannedNames(p: HelperPlan, entries: seq<(string, nat)>)
    ensures var q := Planned(p, entries);
      q.counter >= p.counter && |q.helpers| == |p.helpers| + (q.counter - p.counter)
      && q.helpers[..|p.helpers|] == p.helpers
      && forall j :: |p.helpers| <= j < |q.helpers| ==> q.helpers[j].name == HelperName(p.counter + 1 + (j - |p.helpers|))
  {
    if entries != [] {
      PlannedNames(p, Pop(entries));
      var q := Planned(p, Pop(entries));
      assert Planned(p, entries) == PlanStep(q, Top(entries).0, Top(entries).1);
      PlanStepNames(q, Top(entries).0, Top(entries).1);
      NamedAfterStep(p, q, PlanStep(q, Top(entries).0, Top(entries).1));
    }
  }

  /** The helpers of `q` extend those of `p` with consecutively numbered names. */
  predicate NamedAfter(p: HelperPlan, q: HelperPlan) {
    q.counter >= p.counter && |q.helpers| == |p.helpers| + (q.counter - p.counter)
    && q.helpers[..|p.helpers|] == p.helpers
    && forall j :: |p.helpers| <= j < |q.helpers| ==> q.helpers[j].name == HelperName(p.counter + 1 + (j - |p.helpers|))
  }

  lemma NamedAfterStep(p: HelperPlan, q: HelperPlan, r: HelperPlan)
    requires NamedAfter(p, q)
    requires r == q || (r.counter == q.counter + 1 && |r.helpers| == |q.helpers| + 1 && r.helpers == q.helpers + [r.helpers[|q.helpers|]]
                        && r.helpers[|q.helpers|].name == HelperName(q.counter + 1))
    ensures NamedAfter(p, r)
  {
    if r != q {
      var n := |p.helpers|;
      assert r.helpers[..n] == q.helpers[..n];
      forall j | n <= j < |r.helpers| ensures r.helpers[j].name == HelperName(p.counter + 1 + (j - n)) {
        if j < |q.helpers| {
          assert r.helpers[j] == q.helpers[j];
        } else {
          assert j == |q.helpers| && p.counter + 1 + (j - n) == q.counter + 1;
        }
      }
    }
  }

  /** One entry leaves the plan as it was or adds the helper numbered one past the counter. */
  lemma PlanStepNames(q: HelperPlan, key: string, count: nat)
    ensures var r := PlanStep(q, key, count);
      r == q || (r.counter == q.counter + 1 && |r.helpers| == |q.helpers| + 1 && r.helpers == q.helpers + [r.helpers[|q.helpers|]]
                 && r.helpers[|q.helpers|].name == HelperName(q.counter + 1))
  {
  }

  /** A key is mapped afterwards exactly when it was before or some entry for it counts
      more than once. */
  lemma {:induction false} PlannedKeys(p: HelperPlan, entries: seq<(string, nat)>, k: string)
    ensures OrderedDict.HasKey(Planned(p, entries).actionMap, k)
            <==> OrderedDict.HasKey(p.actionMap, k) || exists i :: 0 <= i < |entries| && entries[i].0 == k && entries[i].1 > 1
  {
    if entries != [] {
      PlannedKeys(p, Pop(entries), k);
      PlanStepKeys(Planned(p, Pop(entries)), Top(entries).0, Top(entries).1, k);
      ExistsFromSnoc(entries, 0, (e: (string, nat)) => e.0 == k && e.1 > 1);
    }
  }

  /** One entry maps its key when it counts more than once, and leaves the other keys. */
  lemma PlanStepKeys(q: HelperPlan, key: string, count: nat, k: string)
    ensures OrderedDict.HasKey(PlanStep(q, key, count).actionMap, k)
            <==> OrderedDict.HasKey(q.actionMap, k) || (key == k && count > 1)
  {
  }

  /** Every helper in the map is the one made for its key. */
  ghost predicate MapFits(m: OrderedDict.ODict<string, FunctionDef>) {
    forall e :: e in m ==> Fits(e.0, e.1)
  }

  lemma {:induction false} PlannedFits(p: HelperPlan, entries: seq<(string, nat)>)
    requires MapFits(p.actionMap)
    ensures MapFits(Planned(p, entries).actionMap)
  {
    if entries != [] {
      PlannedFits(p, Pop(entries));
      var q := Planned(p, Pop(entries));
      PlanStepFits(q, Top(entries).0, Top(entries).1);
    }
  }

  lemma PlanStepFits(q: HelperPlan, key: string, count: nat)
    requires MapFits(q.actionMap)
    ensures MapFits(PlanStep(q, key, count).actionMap)
  {
    if count > 1 && !OrderedDict.HasKey(q.actionMap, key) {
      var h := MakeHelper(key, q.counter + 1);
      SetFits(q.actionMap, key, h);
      assert PlanStep(q, key, count).actionMap == OrderedDict.Set(q.actionMap, key, h);
    } else {
      assert PlanStep(q, key, count) == q;
    }
  }

  lemma SetFits(m: OrderedDict.ODict<string, FunctionDef>, key: string, h: FunctionDef)
    requires MapFits(m) && Fits(key, h)
    ensures MapFits(OrderedDict.Set(m, key, h))
  {
    OrderedDict.SetEntries(m, key, h);
  }

  const NoHelpers: OrderedDict.ODict<string, FunctionDef> := []

  /** Every helper in the map is named `helper_<n>` for some `n` from 1 to the counter. */
  ghost predicate MapNamed(m: OrderedDict.ODict<string, FunctionDef>, counter: nat) {
    forall e :: e in m ==> exists n :: 1 <= n <= counter && e.1.name == HelperName(n)
  }

  lemma {:induction false} PlannedNamed(p: HelperPlan, entries: seq<(string, nat)>)
    requires MapNamed(p.actionMap, p.counter)
    ensures MapNamed(Planned(p, entries).actionMap, Planned(p, entries).counter)
  {
    if entries != [] {
      PlannedNamed(p, Pop(entries));
      PlanStepNamed(Planned(p, Pop(entries)), Top(entries).0, Top(entries).1);
    }
  }

  lemma PlanStepNamed(q: HelperPlan, key: string, count: nat)
    requires MapNamed(q.actionMap, q.counter)
    ensures MapNamed(PlanStep(q, key, count).actionMap, PlanStep(q, key, count).counter)
  {
    if count > 1 && !OrderedDict.HasKey(q.actionMap, key) {
      var h := MakeHelper(key, q.counter + 1);
      var m := OrderedDict.Set(q.actionMap, key, h);
      OrderedDict.SetEntries(q.actionMap, key, h);
      forall e | e in m ensures exists n :: 1 <= n <= q.counter + 1 && e.1.name == HelperName(n) {
        if e == (key, h) {
          assert h.name == HelperName(q.counter + 1);
        } else {
          var n :| 1 <= n <= q.counter && e.1.name == HelperName(n);
          assert 1 <= n <= q.counter + 1;
        }
      }
      PlanStepTaken(q, key, count);
    } else {
      PlanStepSkipped(q, key, count);
    }
  }


  /** For a new binder, exactly the keys that occur more than once get a helper, and each
      is the one made for its key. */
  lemma HelperIffRepeated(keys: seq<string>, helpers: seq<FunctionDef>, k: string)
    ensures var m := Planned(HelperPlan(NoHelpers, 0, helpers), Tally(keys)).actionMap;
      (OrderedDict.HasKey(m, k) <==> Count(keys, k) > 1) && MapFits(m)
  {
    PlannedKeys(HelperPlan(NoHelpers, 0, helpers), Tally(keys), k);
    RepeatedEntry(keys, k);
    PlannedFits(HelperPlan(NoHelpers, 0, helpers), Tally(keys));
  }

  // ----- argument extraction -----

  /** The text a code line offers to the argument search. */
  function LineText(l: CodeLine): string {
    if l.CheckLine? then l.check.actualCmd else l.line
  }

  /** The first line of an inline block on which `p=value` is found. */
  function FirstAssign(code: seq<CodeLine>, p: string): Option<string> {
    if code == [] then None
    else if SearchAssign(LineText(code[0]), p).Some? then SearchAssign(LineText(code[0]), p)
    else FirstAssign(code[1..], p)
  }

  /** What one field of a parsed action gives: `p=value`, else the bare name when it is
      quoted, else nothing; an empty or missing field is skipped. */
  function FieldArg(field: Option<string>, p: string): Option<string> {
    if field.None? || field.value == "" then None
    else if SearchAssign(field.value, p).Some? then SearchAssign(field.value, p)
    else if HasQuoted(field.value, p) then Some(p)
    else None
  }

  /** `_extract_from_action_fields`: the command first, then the result expression. */
  function ActionFieldsArg(a: ShtestAst.Action, p: string): string {
    var c := FieldArg(a.command, p);
    if c.Some? then c.value else FieldArg(a.resultExpr, p).GetOr("")
  }

  function ArgFor(n: Node, p: string): string {
    match n
    case Inline(code) => FirstAssign(code, p).GetOr("")
    case Check(v) => SearchAssign(v.actualCmd, p).GetOr("")
    case Plain(a) => ActionFieldsArg(a, p)
    case _ => ""
  }

  /** `_extract_args_from_action`: one argument per parameter name. */
  function ExtractArgs(n: Node, params: seq<string>): (args: seq<string>)
    ensures |args| == |params|
    ensures (n.FunctionCall? || n.Other?) ==> forall i :: 0 <= i < |args| ==> args[i] == ""
  {
    seq(|params|, i requires 0 <= i < |params| => ArgFor(n, params[i]))
  }

  /** A non-empty argument of a check is the value assigned to that name in its command. */
  lemma CheckArgs(v: ValidationCheck, params: seq<string>, i: nat)
    requires i < |params| && ExtractArgs(Check(v), params)[i] != ""
    ensures Contains(v.actualCmd, params[i] + "=" + ExtractArgs(Check(v), params)[i])
  {
  }

  lemma ExtractArgsSnoc(n: Node, params: seq<string>, j: nat)
    requires j < |params|
    ensures ExtractArgs(n, params)[..j + 1] == ExtractArgs(n, params)[..j] + [ArgFor(n, params[j])]
  {
  }

  /** `_extract_args_from_action`, with its loops. */
  method ExtractArgsFromAction(n: Node, params: seq<string>) returns (args: seq<string>)
    ensures args == ExtractArgs(n, params)
  {
    args := [];
    for j := 0 to |params|
      invariant args == ExtractArgs(n, params)[..j]
    {
      var pname := params[j];
      var arg := "";
      match n {
        case Inline(code) =>
          var found := FindAssign(code, pname);
          arg := found.GetOr("");
        case Check(v) =>
          arg := SearchAssign(v.actualCmd, pname).GetOr("");
        case Plain(a) =>
          arg := ActionFieldsArg(a, pname);
        case _ =>
      }
      assert arg == ArgFor(n, pname);
      ExtractArgsSnoc(n, params, j);
      args := args + [arg];
    }
  }

  /** The search of `_extract_args_from_action` through the lines of an inline block. */
  method FindAssign(code: seq<CodeLine>, p: string) returns (found: Option<string>)
    ensures found == FirstAssign(code, p)
  {
    found := None;
    var k := 0;
    while k < |code|
      invariant 0 <= k <= |code|
      invariant FirstAssign(code, p) == FirstAssign(code[k..], p)
    {
      assert code[k..][0] == code[k] && code[k..][1..] == code[k + 1..];
      var m := SearchAssign(LineText(code[k]), p);
      if m.Some? {
        return m;
      }
      k := k + 1;
    }
    assert code[k..] == [];
  }

  // ----- rebinding -----

  /** Step 3 of `bind` at one position: an action whose key has a helper becomes a call
      to it, with the arguments found in the action. */
  function Rebound(n: Node, m: OrderedDict.ODict<string, FunctionDef>, shown: Node -> string): Node {
    var h := OrderedDict.Get(m, ActionKey(n, shown));
    if h.Some? then FunctionCall(h.value.name, ExtractArgs(n, h.value.params)) else n
  }

  function RebindActions(actions: seq<Node>, m: OrderedDict.ODict<string, FunctionDef>, shown: Node -> string): (r: seq<Node>)
    ensures |r| == |actions|
    ensures forall i :: 0 <= i < |actions| ==> r[i] == Rebound(actions[i], m, shown)
  {
    seq(|actions|, i requires 0 <= i < |actions| => Rebound(actions[i], m, shown))
  }

  /** Every step keeps its name and validations; its actions are rebound. */
  function RebindSteps(steps: seq<ShellTestStep>, m: OrderedDict.ODict<string, FunctionDef>, shown: Node -> string): (r: seq<ShellTestStep>)
    ensures |r| == |steps|
    ensures forall s :: 0 <= s < |steps| ==> r[s] == steps[s].(actions := RebindActions(steps[s].actions, m, shown))
  {
    seq(|steps|, s requires 0 <= s < |steps| => steps[s].(actions := RebindActions(steps[s].actions, m, shown)))
  }

  /** The whole pass for a new binder, at one action: a repeated action becomes a call to
      the helper made for its key, named `helper_<n>` and given the arguments found in the
      action for that helper's parameters, which are the placeholders of the key; any
      other action is left as it was. */
  lemma {:induction false} RepeatedBecomeCalls(steps: seq<ShellTestStep>, shown: Node -> string, helpers: seq<FunctionDef>, s: nat, i: nat)
    requires s < |steps| && i < |steps[s].actions|
    ensures var keys := AllKeys(steps, shown);
      var plan := Planned(HelperPlan(NoHelpers, 0, helpers), Tally(keys));
      var a := steps[s].actions[i];
      var key := ActionKey(a, shown);
      var b := RebindSteps(steps, plan.actionMap, shown)[s].actions[i];
      (Count(keys, key) > 1 ==>
         OrderedDict.HasKey(plan.actionMap, key)
         && var h := OrderedDict.Get(plan.actionMap, key).value;
         && b == FunctionCall(h.name, ExtractArgs(a, h.params))
         && Fits(key, h) && h.params == Placeholders(SplitOn(key, '\n'))
         && exists n :: 1 <= n <= plan.counter && h.name == HelperName(n))
      && (Count(keys, key) <= 1 ==> b == a)
  {
    var keys := AllKeys(steps, shown);
    var plan := Planned(HelperPlan(NoHelpers, 0, helpers), Tally(keys));
    var m := plan.actionMap;
    var a := steps[s].actions[i];
    var key := ActionKey(a, shown);
    HelperIffRepeated(keys, helpers, key);
    PlannedNamed(HelperPlan(NoHelpers, 0, helpers), Tally(keys));
    var h := OrderedDict.Get(m, key);
    if h.Some? {
      var j :| 0 <= j < |m| && m[j] == (key, h.value);
      assert m[j] in m;
    }
    assert RebindSteps(steps, m, shown)[s].actions[i] == Rebound(a, m, shown);
  }

  // ----- the binder -----

  class ShellFrameworkBinder {
    const ast: FrameworkAst
    var actionMap: OrderedDict.ODict<string, FunctionDef>
    var helperCounter: nat

    constructor (ast: FrameworkAst)
      ensures this.ast == ast && actionMap == [] && helperCounter == 0
    {
      this.ast := ast;
      actionMap := [];
      helperCounter := 0;
    }

    /** `enforce_scope`, with its loops. */
    method EnforceScope(shown: Node -> string) returns (o: Outcome)
      ensures o == ScopeCheck(ast.steps, shown)
    {
      var steps := ast.steps;
      for s := 0 to |steps|
        invariant ScopeCheck(steps, shown) == ScopeCheck(steps[s..], shown)
      {
        assert steps[s..][0] == steps[s] && steps[s..][1..] == steps[s + 1..];
        var step := steps[s];
        var vs := step.validations;
        for v := 0 to |vs|
          invariant step.actions == [] ==> FirstLocal(vs) == FirstLocal(vs[v..])
        {
          assert vs[v..][0] == vs[v] && vs[v..][1..] == vs[v + 1..];
          if ScopeOf(vs[v]) == "last_action" && step.actions == [] {
            return Raise(ValueError(ScopeMessage(shown(vs[v]), step.name)));
          }
        }
        assert vs[|vs|..] == [];
      }
      assert steps[|steps|..] == [];
      o := Pass;
    }

    /** The rebound actions of one step, position by position. */
    method RebindList(actions: seq<Node>, shown: Node -> string) returns (r: seq<Node>)
      ensures r == RebindActions(actions, actionMap, shown)
    {
      r := actions;
      for i := 0 to |actions|
        invariant |r| == |actions|
        invariant forall k :: 0 <= k < i ==> r[k] == Rebound(actions[k], actionMap, shown)
        invariant forall k :: i <= k < |actions| ==> r[k] == actions[k]
      {
        var found := OrderedDict.Get(actionMap, ActionKey(actions[i], shown));
        if found.Some? {
          var args := ExtractArgsFromAction(actions[i], found.value.params);
          r := r[i := FunctionCall(found.value.name, args)];
        }
      }
    }

    /** Step 1 of `bind`: the occurrence counter over every action of every step. */
    static method CountOccurrences(steps: seq<ShellTestStep>, shown: Node -> string) returns (occurrences: OrderedDict.ODict<string, nat>)
      ensures occurrences == Tally(AllKeys(steps, shown))
    {
      occurrences := [];
      for s := 0 to |steps|
        invariant occurrences == Tally(AllKeys(steps[..s], shown))
      {
        occurrences := CountStep(occurrences, steps[s].actions, shown);
        assert steps[..s + 1] != [] && Pop(steps[..s + 1]) == steps[..s] && Top(steps[..s + 1]) == steps[s];
        CountedAppend([], AllKeys(steps[..s], shown), KeysOf(steps[s].actions, shown));
      }
      assert steps[..|steps|] == steps;
    }

    /** The counting loop over the actions of one step. */
    static method CountStep(occurrences: OrderedDict.ODict<string, nat>, actions: seq<Node>, shown: Node -> string)
      returns (counted: OrderedDict.ODict<string, nat>)
      ensures counted == Counted(occurrences, KeysOf(actions, shown))
    {
      counted := occurrences;
      ghost var keys := KeysOf(actions, shown);
      for i := 0 to |actions|
        invariant counted == Counted(occurrences, keys[..i])
      {
        var key := ActionKey(actions[i], shown);
        CountedPrefix(occurrences, keys, i);
        counted := OrderedDict.Set(counted, key, Bumped(counted, key));
      }
      assert keys[..|actions|] == keys;
    }

    /** `_extract_params_and_body` and the substitution of the body lines. */
    static method NewHelper(key: string, n: nat) returns (h: FunctionDef)
      ensures h == MakeHelper(key, n)
    {
      var lines := SplitOn(key, '\n');
      var params := ExtractParamPlaceholders(lines);
      var body: seq<string> := [];
      for l := 0 to |lines|
        invariant body == SubstitutedBody(lines, params)[..l]
      {
        var line := SubstituteParams(lines[l], params);
        assert SubstitutedBody(lines, params)[..l + 1] == SubstitutedBody(lines, params)[..l] + [line];
        body := body + [line];
      }
      assert body == SubstitutedBody(lines, params);
      h := FunctionDef(HelperName(n), params, body);
    }

    /** Step 2 of `bind`: a helper for every key counted more than once. */
    method CreateHelpers(occurrences: OrderedDict.ODict<string, nat>)
      modifies this, ast
      ensures HelperPlan(actionMap, helperCounter, ast.helpers)
              == Planned(HelperPlan(old(actionMap), old(helperCounter), old(ast.helpers)), occurrences)
      ensures ast.steps == old(ast.steps) && ast.globalCode == old(ast.globalCode)
    {
      ghost var p0 := HelperPlan(actionMap, helperCounter, ast.helpers);
      for j := 0 to |occurrences|
        invariant HelperPlan(actionMap, helperCounter, ast.helpers) == Planned(p0, occurrences[..j])
        invariant ast.steps == old(ast.steps) && ast.globalCode == old(ast.globalCode)
      {
        assert occurrences[..j + 1] != [] && Pop(occurrences[..j + 1]) == occurrences[..j];
        assert Top(occurrences[..j + 1]) == occurrences[j];
        var (key, count) := occurrences[j];
        CreateHelper(key, count);
      }
      assert occurrences[..|occurrences|] == occurrences;
    }

    /** One entry of the counter in step 2 of `bind`: a key counted more than once and
        still without a helper gets the next one. */
    method CreateHelper(key: string, count: nat)
      modifies this, ast
      ensures HelperPlan(actionMap, helperCounter, ast.helpers)
              == PlanStep(HelperPlan(old(actionMap), old(helperCounter), old(ast.helpers)), key, count)
      ensures ast.steps == old(ast.steps) && ast.globalCode == old(ast.globalCode)
    {
      ghost var before := HelperPlan(actionMap, helperCounter, ast.helpers);
      if count > 1 && !OrderedDict.HasKey(actionMap, key) {
        helperCounter := helperCounter + 1;
        var helper := NewHelper(key, helperCounter);
        actionMap := OrderedDict.Set(actionMap, key, helper);
        ast.helpers := ast.helpers + [helper];
        PlanStepTaken(before, key, count);
      } else {
        PlanStepSkipped(before, key, count);
      }
    }

    /** Step 3 of `bind`: every action whose key has a helper becomes a call to it. */
    method ReplaceRepeated(shown: Node -> string)
      modifies ast
      ensures ast.steps == RebindSteps(old(ast.steps), actionMap, shown)
      ensures ast.helpers == old(ast.helpers) && ast.globalCode == old(ast.globalCode)
    {
      ghost var steps := ast.steps;
      for s := 0 to |ast.steps|
        invariant |ast.steps| == |steps|
        invariant forall t :: 0 <= t < s ==> ast.steps[t] == RebindSteps(steps, actionMap, shown)[t]
        invariant forall t :: s <= t < |steps| ==> ast.steps[t] == steps[t]
        invariant ast.helpers == old(ast.helpers) && ast.globalCode == old(ast.globalCode)
      {
        var step := ast.steps[s];
        var actions := RebindList(step.actions, shown);
        ast.steps := ast.steps[s := step.(actions := actions)];
      }
    }

    /** `bind`: the scope rule first (its error leaves everything as it was); then the
        occurrence count over all actions, a helper for every key counted more than once,
        and every action whose key has a helper replaced by a call to it. */
    method Bind(shown: Node -> string) returns (o: Outcome)
      modifies this, ast
      ensures o == ScopeCheck(old(ast.steps), shown)
      ensures o.Raise? ==> ast.steps == old(ast.steps) && ast.helpers == old(ast.helpers)
                           && actionMap == old(actionMap) && helperCounter == old(helperCounter)
      ensures o.Pass? ==>
                var p := Planned(HelperPlan(old(actionMap), old(helperCounter), old(ast.helpers)), Tally(AllKeys(old(ast.steps), shown)));
                actionMap == p.actionMap && helperCounter == p.counter && ast.helpers == p.helpers
                && ast.steps == RebindSteps(old(ast.steps), actionMap, shown)
      ensures ast.globalCode == old(ast.globalCode)
    {
      o := EnforceScope(shown);
      if o.Raise? {
        return;
      }
      var occurrences := CountOccurrences(ast.steps, shown);
      CreateHelpers(occurrences);
      ReplaceRepeated(shown);
    }
  }
}
