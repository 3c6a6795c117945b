/** `ShtestToShellFrameworkVisitor`: a parsed `.shtest` file becomes a shell-framework AST.
    Actions that occur more than once (by command and result text) become numbered helper
    functions called without arguments; every other action becomes inline shell code. */
module ShtestVisitor {
  import opened Basics
  import opened Text
  import opened Seqs
  import OrderedDict
  import ShtestAst
  import opened ShellFramework
  import opened Counter

  /** `canonical_action_key`: the command and the result expression, with `""` for a
      missing one. */
  type ActionKey = (string, string)

  function KeyOf(a: ShtestAst.Action): ActionKey {
    (a.command.GetOr(""), a.resultExpr.GetOr(""))
  }

  /** The key ignores the line an action comes from, and does not tell a missing command or
      result from an empty one. */
  lemma KeyIgnoresLine(a: ShtestAst.Action, lineno: int, raw: Option<string>)
    ensures KeyOf(a.(lineno := lineno, rawLine := raw)) == KeyOf(a)
    ensures KeyOf(a.(command := None)) == KeyOf(a.(command := Some("")))
    ensures KeyOf(a.(resultExpr := None)) == KeyOf(a.(resultExpr := Some("")))
  {
  }

  function ActionKeys(actions: seq<ShtestAst.Action>): (ks: seq<ActionKey>)
    ensures |ks| == |actions|
    ensures forall i :: 0 <= i < |actions| ==> ks[i] == KeyOf(actions[i])
  {
    seq(|actions|, i requires 0 <= i < |actions| => KeyOf(actions[i]))
  }

  /** The keys of every action of every step, in order. */
  function StepKeys(steps: seq<ShtestAst.TestStep>): seq<ActionKey> {
    if steps == [] then [] else StepKeys(Pop(steps)) + ActionKeys(Top(steps).actions)
  }

  lemma {:induction false} StepKeysHas(steps: seq<ShtestAst.TestStep>, s: nat, i: nat)
    requires s < |steps| && i < |steps[s].actions|
    ensures KeyOf(steps[s].actions[i]) in StepKeys(steps)
  {
    if s == |steps| - 1 {
      assert ActionKeys(Top(steps).actions)[i] == KeyOf(steps[s].actions[i]);
    } else {
      assert Pop(steps)[s] == steps[s];
      StepKeysHas(Pop(steps), s, i);
    }
  }

  // ----- helper names -----

  function HelperName(n: nat): string {
    "helper_" + IntToString(n)
  }

  /** `helper_names` with `helper_counter`. */
  datatype Naming = Naming(names: OrderedDict.ODict<ActionKey, string>, counter: nat)

  /** One entry of the occurrence counter: a key counted more than once gets the next name
      (a key already named is named again). */
  function NameStep(n: Naming, key: ActionKey, count: nat): Naming {
    if count > 1 then Naming(OrderedDict.Set(n.names, key, HelperName(n.counter + 1)), n.counter + 1) else n
  }

  function Named(n: Naming, entries: seq<(ActionKey, nat)>): Naming {
    if entries == [] then n else NameStep(Named(n, Pop(entries)), Top(entries).0, Top(entries).1)
  }

  lemma NamedSnoc(n: Naming, es: seq<(ActionKey, nat)>, e: (ActionKey, nat))
    ensures Named(n, es + [e]) == NameStep(Named(n, es), e.0, e.1)
  {
    assert Pop(es + [e]) == es && Top(es + [e]) == e;
  }

  /** The entries, each with the name numbered after `c` by its position. */
  function Numbered(es: seq<(ActionKey, nat)>, c: nat): (r: OrderedDict.ODict<ActionKey, string>)
    ensures |r| == |es|
    ensures forall i :: 0 <= i < |es| ==> r[i] == (es[i].0, HelperName(c + i + 1))
  {
    seq(|es|, i requires 0 <= i < |es| => (es[i].0, HelperName(c + i + 1)))
  }

  /** Starting without names, the counter's repeated keys are named in counter order,
      `helper_<c+1>`, `helper_<c+2>` and so on. */
  lemma {:induction false} NamedFromEmpty(entries: seq<(ActionKey, nat)>, c: nat)
    requires OrderedDict.Valid(entries)
    ensures Named(Naming([], c), entries)
            == Naming(Numbered(Retain(entries, IsRepeated), c), c + |Retain(entries, IsRepeated)|)
  {
    if entries != [] {
      var p, t := Pop(entries), Top(entries);
      PopValid(entries);
      NamedFromEmpty(p, c);
      var rp := Retain(p, IsRepeated);
      var before := Named(Naming([], c), p);
      assert Named(Naming([], c), entries) == NameStep(before, t.0, t.1);
      if IsRepeated(t) {
        assert Retain(entries, IsRepeated) == rp + [t];
        NamedRepeatedStep(p, t, c);
      } else {
        assert Retain(entries, IsRepeated) == rp + [];
        assert rp + [] == rp;
      }
    }
  }

  /** A repeated key new to the entries before it takes the next number after theirs. */
  lemma NamedRepeatedStep(p: seq<(ActionKey, nat)>, t: (ActionKey, nat), c: nat)
    requires IsRepeated(t) && !OrderedDict.HasKey(p, t.0)
    ensures var rp := Retain(p, IsRepeated);
      NameStep(Naming(Numbered(rp, c), c + |rp|), t.0, t.1)
      == Naming(Numbered(rp + [t], c), c + |rp + [t]|)
  {
    var rp := Retain(p, IsRepeated);
    var m := Numbered(rp, c);
    var e := (t.0, HelperName(c + |rp| + 1));
    assert Numbered(rp + [t], c) == m + [e] by {
      NumberedSnoc(rp, t, c);
    }
    assert NameStep(Naming(m, c + |rp|), t.0, t.1) == Naming(m + [e], c + |rp| + 1) by {
      NumberedKeysFrom(p, c, t.0);
      NameStepNew(m, t.0, t.1, c + |rp|);
    }
  }

  /** A repeated key the names do not hold yet is appended with the next number. */
  lemma NameStepNew(m: OrderedDict.ODict<ActionKey, string>, k: ActionKey, count: nat, n: nat)
    requires count > 1 && !OrderedDict.HasKey(m, k)
    ensures NameStep(Naming(m, n), k, count) == Naming(m + [(k, HelperName(n + 1))], n + 1)
  {
    OrderedDict.SetAbsent(m, k, HelperName(n + 1));
  }

  /** Without its last entry a table is still well formed, and that entry's key is new to it. */
  lemma PopValid<K, V>(d: OrderedDict.ODict<K, V>)
    requires d != [] && OrderedDict.Valid(d)
    ensures OrderedDict.Valid(Pop(d)) && !OrderedDict.HasKey(Pop(d), Top(d).0)
  {
    var ks := OrderedDict.Keys(d);
    assert OrderedDict.Keys(Pop(d)) == ks[..|d| - 1];
  }

  /** A key not in the entries is not among the numbered repeated ones. */
  lemma NumberedKeysFrom(p: seq<(ActionKey, nat)>, c: nat, k: ActionKey)
    requires !OrderedDict.HasKey(p, k)
    ensures !OrderedDict.HasKey(Numbered(Retain(p, IsRepeated), c), k)
  {
    var rp := Retain(p, IsRepeated);
    var m := Numbered(rp, c);
    RetainMembers(p, IsRepeated);
    forall i | 0 <= i < |m| ensures OrderedDict.Keys(m)[i] != k {
      assert rp[i] in p;
      var j :| 0 <= j < |p| && p[j] == rp[i];
      assert OrderedDict.Keys(p)[j] == rp[i].0;
    }
  }

  lemma NumberedSnoc(rp: seq<(ActionKey, nat)>, t: (ActionKey, nat), c: nat)
    ensures Numbered(rp + [t], c) == Numbered(rp, c) + [(t.0, HelperName(c + |rp| + 1))]
  {
  }

  // ----- helper bodies -----

  /** `compile_atomic(result, varname="result", last_file_var=None, action_context={'command': cmd})`:
      the result's shell lines, or the exception it raises. */
  type Compiler = (string, Option<string>) -> Result<seq<string>>

  /** The lines of an action without a result: announce it, then run it. */
  function RunLines(cmd: string): seq<string> {
    ["echo 'Action: " + cmd + "'", "run_action \"" + cmd + "\""]
  }

  /** A helper's body: the compiled result when the key has one, else the command run. */
  function HelperBody(key: ActionKey, compile: Compiler): Result<seq<string>> {
    if key.1 != "" then compile(key.1, Some(key.0)) else Ok(RunLines(key.0))
  }

  /** The helpers built for the named keys in order. Building stops at the first
      exception; the helpers built before it are kept, as the list `self.helpers` is
      appended to one at a time. */
  function BuiltHelpers(items: OrderedDict.ODict<ActionKey, string>, compile: Compiler): (b: (seq<FunctionDef>, Option<Exc>))
    ensures |b.0| <= |items|
    ensures forall i :: 0 <= i < |b.0| ==> HelperBody(items[i].0, compile).Ok?
                                            && b.0[i] == FunctionDef(items[i].1, [], HelperBody(items[i].0, compile).value)
    ensures b.1.None? <==> |b.0| == |items|
    ensures b.1.Some? ==> HelperBody(items[|b.0|].0, compile) == Fail(b.1.value)
  {
    if items == [] then ([], None)
    else
      var prev := BuiltHelpers(Pop(items), compile);
      if prev.1.Some? then prev
      else
        var body := HelperBody(Top(items).0, compile);
        if body.Fail? then (prev.0, Some(body.exc))
        else (prev.0 + [FunctionDef(Top(items).1, [], body.value)], None)
  }

  // ----- steps -----

  /** `f"{action.command}"`: a missing command shows as `None`. */
  function CommandText(c: Option<string>): string {
    if c.Some? then c.value else "None"
  }

  function CodeLines(lines: seq<string>): (r: seq<CodeLine>)
    ensures |r| == |lines|
    ensures forall i :: 0 <= i < |lines| ==> r[i] == Code(lines[i])
  {
    seq(|lines|, i requires 0 <= i < |lines| => Code(lines[i]))
  }

  /** What one action becomes: a call to its helper, the compiled result as inline code, or
      the two lines that run its command. */
  function ActionNode(a: ShtestAst.Action, names: OrderedDict.ODict<ActionKey, string>, compile: Compiler): Result<Node> {
    var name := OrderedDict.Get(names, KeyOf(a));
    if name.Some? then Ok(FunctionCall(name.value, []))
    else if a.resultExpr.Some? && a.resultExpr.value != "" then
      var lines :- compile(a.resultExpr.value, a.command);
      Ok(Inline(CodeLines(lines)))
    else Ok(Inline(CodeLines(RunLines(CommandText(a.command)))))
  }

  /** The nodes of a step's actions, or the first exception. */
  function BuildActions(actions: seq<ShtestAst.Action>, names: OrderedDict.ODict<ActionKey, string>, compile: Compiler): (r: Result<seq<Node>>)
    ensures r.Ok? <==> forall i :: 0 <= i < |actions| ==> ActionNode(actions[i], names, compile).Ok?
    ensures r.Ok? ==> |r.value| == |actions| && forall i :: 0 <= i < |actions| ==> r.value[i] == ActionNode(actions[i], names, compile).value
    ensures r.Fail? ==> exists i :: 0 <= i < |actions| && ActionNode(actions[i], names, compile) == Fail(r.exc)
                                    && forall j :: 0 <= j < i ==> ActionNode(actions[j], names, compile).Ok?
  {
    if actions == [] then Ok([])
    else
      var first := ActionNode(actions[0], names, compile);
      if first.Fail? then Fail(first.exc)
      else
        var rest := BuildActions(actions[1..], names, compile);
        assert forall i :: 1 <= i < |actions| ==> actions[i] == actions[1..][i - 1];
        if rest.Fail? then
          FirstFailShift(actions, names, compile, rest.exc);
          Fail(rest.exc)
        else Ok([first.value] + rest.value)
  }

  /** The first failing action after a good first one is the first failing action overall. */
  lemma FirstFailShift(actions: seq<ShtestAst.Action>, names: OrderedDict.ODict<ActionKey, string>, compile: Compiler, e: Exc)
    requires actions != [] && ActionNode(actions[0], names, compile).Ok?
    requires exists i :: 0 <= i < |actions[1..]| && ActionNode(actions[1..][i], names, compile) == Fail(e)
                         && forall j :: 0 <= j < i ==> ActionNode(actions[1..][j], names, compile).Ok?
    ensures exists i :: 0 <= i < |actions| && ActionNode(actions[i], names, compile) == Fail(e)
                        && forall j :: 0 <= j < i ==> ActionNode(actions[j], names, compile).Ok?
  {
    var i :| 0 <= i < |actions[1..]| && ActionNode(actions[1..][i], names, compile) == Fail(e)
             && forall j :: 0 <= j < i ==> ActionNode(actions[1..][j], names, compile).Ok?;
    assert actions[i + 1] == actions[1..][i];
    forall j | 0 <= j < i + 1 ensures ActionNode(actions[j], names, compile).Ok? {
      if j > 0 {
        assert actions[j] == actions[1..][j - 1];
      }
    }
  }

  /** A step keeps its name and the number of its actions and has no validations. */
  function BuildStep(step: ShtestAst.TestStep, names: OrderedDict.ODict<ActionKey, string>, compile: Compiler): (r: Result<ShellTestStep>)
    ensures r.Ok? <==> BuildActions(step.actions, names, compile).Ok?
    ensures r.Ok? ==> r.value.name == step.name && |r.value.actions| == |step.actions| && r.value.validations == []
  {
    var actions :- BuildActions(step.actions, names, compile);
    Ok(ShellTestStep(step.name, actions, []))
  }

  /** The steps built in order; building stops at the first exception, and the step it
      occurs in is not added. */
  function BuiltSteps(steps: seq<ShtestAst.TestStep>, names: OrderedDict.ODict<ActionKey, string>, compile: Compiler): (b: (seq<ShellTestStep>, Option<Exc>))
    ensures |b.0| <= |steps|
    ensures forall i :: 0 <= i < |b.0| ==> BuildStep(steps[i], names, compile) == Ok(b.0[i])
    ensures b.1.None? <==> |b.0| == |steps|
    ensures b.1.Some? ==> BuildStep(steps[|b.0|], names, compile) == Fail(b.1.value)
  {
    if steps == [] then ([], None)
    else
      var prev := BuiltSteps(Pop(steps), names, compile);
      if prev.1.Some? then prev
      else
        var step := BuildStep(Top(steps), names, compile);
        if step.Fail? then (prev.0, Some(step.exc))
        else (prev.0 + [step.value], None)
  }

  /** The prologue the visitor puts in `global_code`. */
  const Prologue: seq<string> := [
    "#!/bin/bash",
    "",
    "# Generated shell script from .shtest file",
    "",
    "run_action() {",
    "    local cmd=\"$1\"",
    "    stdout=\"\"",
    "    stderr=\"\"",
    "    last_ret=0",
    "    stdout=$(eval \"$cmd\" 2>stderr.log)",
    "    last_ret=$?",
    "    if [ -s stderr.log ]; then",
    "        stderr=$(cat stderr.log)",
    "    else",
    "        stderr=\"\"",
    "    fi",
    "}",
    "",
    "validate_expect_actual() {",
    "    local expected=\"$1\"",
    "    local actual=\"$2\"",
    "    if [ \"$expected\" != \"$actual\" ]; then",
    "        echo \"Expected: $expected\"",
    "        echo \"Actual:   $actual\"",
    "        return 1",
    "    fi",
    "    return 0",
    "}",
    ""
  ]

  // ----- properties of a visit by a new visitor -----

  /** The names a new visitor gives: the keys that occur more than once, in the order of
      their first occurrence, named `helper_1`, `helper_2`, ... */
  lemma FreshNames(keys: seq<ActionKey>)
    ensures var n := Named(Naming([], 0), Tally(keys));
      && OrderedDict.Keys(n.names) == OrderedDict.Keys(Retain(Tally(keys), IsRepeated))
      && n.counter == |n.names|
      && forall i :: 0 <= i < |n.names| ==> n.names[i].1 == HelperName(i + 1)
  {
    TallyValid(keys);
    NamedFromEmpty(Tally(keys), 0);
  }

  /** A new visitor names exactly the keys that occur more than once. */
  lemma FreshNamed(keys: seq<ActionKey>, k: ActionKey)
    ensures OrderedDict.HasKey(Named(Naming([], 0), Tally(keys)).names, k) <==> Count(keys, k) > 1
  {
    FreshNames(keys);
    RepeatedEntry(keys, k);
    RepeatedKeys(Tally(keys), k);
  }

  /** An action whose key is named becomes a call, without arguments, to that name. */
  lemma NamedCall(a: ShtestAst.Action, names: OrderedDict.ODict<ActionKey, string>, compile: Compiler)
    requires OrderedDict.HasKey(names, KeyOf(a))
    ensures exists j :: 0 <= j < |names| && names[j].0 == KeyOf(a) && ActionNode(a, names, compile) == Ok(FunctionCall(names[j].1, []))
  {
    var name := OrderedDict.Get(names, KeyOf(a));
    var j :| 0 <= j < |names| && names[j] == (KeyOf(a), name.value);
  }

  /** An action whose key is not named becomes inline code; without a result, the
      announcement and the `run_action` of its command. */
  lemma UnnamedInline(a: ShtestAst.Action, names: OrderedDict.ODict<ActionKey, string>, compile: Compiler)
    requires !OrderedDict.HasKey(names, KeyOf(a))
    ensures ActionNode(a, names, compile).Ok? ==> ActionNode(a, names, compile).value.Inline?
    ensures a.resultExpr.None? || a.resultExpr.value == "" ==>
              ActionNode(a, names, compile) == Ok(Inline([Code("echo 'Action: " + CommandText(a.command) + "'"),
                                                          Code("run_action \"" + CommandText(a.command) + "\"")]))
  {
    var lines := RunLines(CommandText(a.command));
    assert CodeLines(lines) == [Code(lines[0]), Code(lines[1])];
  }

  /** For a new visitor, an action whose key occurs more than once among the file's keys
      becomes a call without arguments to one of the helpers `helper_1` ... `helper_<n>`;
      any other action becomes inline code. */
  lemma FreshActionNode(keys: seq<ActionKey>, a: ShtestAst.Action, compile: Compiler)
    ensures var n := Named(Naming([], 0), Tally(keys));
      var node := ActionNode(a, n.names, compile);
      && (Count(keys, KeyOf(a)) > 1 ==> exists j :: 1 <= j <= n.counter && node == Ok(FunctionCall(HelperName(j), [])))
      && (Count(keys, KeyOf(a)) <= 1 ==> node.Ok? ==> node.value.Inline?)
  {
    var n := Named(Naming([], 0), Tally(keys));
    FreshNames(keys);
    FreshNamed(keys, KeyOf(a));
    if Count(keys, KeyOf(a)) > 1 {
      NamedCall(a, n.names, compile);
      var j :| 0 <= j < |n.names| && n.names[j].0 == KeyOf(a) && ActionNode(a, n.names, compile) == Ok(FunctionCall(n.names[j].1, []));
      assert n.names[j].1 == HelperName(j + 1);
    } else {
      UnnamedInline(a, n.names, compile);
    }
  }

  class ShtestToShellFrameworkVisitor {
    var occurrenceCounter: OrderedDict.ODict<ActionKey, nat>
    var helperNames: OrderedDict.ODict<ActionKey, string>
    var helperCounter: nat
    var helpers: seq<FunctionDef>
    var steps: seq<ShellTestStep>
    var globalCode: seq<string>

    constructor ()
      ensures occurrenceCounter == [] && helperNames == [] && helperCounter == 0
      ensures helpers == [] && steps == [] && globalCode == []
    {
      occurrenceCounter := [];
      helperNames := [];
      helperCounter := 0;
      helpers := [];
      steps := [];
      globalCode := [];
    }

    /** The first pass: every action of every step counted by its key. */
    method CountActions(file: seq<ShtestAst.TestStep>)
      modifies this
      ensures occurrenceCounter == Counted(old(occurrenceCounter), StepKeys(file))
      ensures helperNames == old(helperNames) && helperCounter == old(helperCounter)
      ensures helpers == old(helpers) && steps == old(steps) && globalCode == old(globalCode)
    {
      ghost var c0 := occurrenceCounter;
      for s := 0 to |file|
        invariant occurrenceCounter == Counted(c0, StepKeys(file[..s]))
        invariant helperNames == old(helperNames) && helperCounter == old(helperCounter)
        invariant helpers == old(helpers) && steps == old(steps) && globalCode == old(globalCode)
      {
        var counted := CountStep(occurrenceCounter, file[s].actions);
        assert file[..s + 1] != [] && Pop(file[..s + 1]) == file[..s] && Top(file[..s + 1]) == file[s];
        CountedAppend(c0, StepKeys(file[..s]), ActionKeys(file[s].actions));
        occurrenceCounter := counted;
      }
      assert file[..|file|] == file;
    }

    /** The counting loop over the actions of one step. */
    static method CountStep(counter: OrderedDict.ODict<ActionKey, nat>, actions: seq<ShtestAst.Action>)
      returns (counted: OrderedDict.ODict<ActionKey, nat>)
      ensures counted == Counted(counter, ActionKeys(actions))
    {
      counted := counter;
      ghost var keys := ActionKeys(actions);
      for i := 0 to |actions|
        invariant counted == Counted(counter, keys[..i])
      {
        var key := KeyOf(actions[i]);
        CountedPrefix(counter, keys, i);
        counted := OrderedDict.Set(counted, key, Bumped(counted, key));
      }
      assert keys[..|actions|] == keys;
    }

    /** The names: every key counted more than once gets the next number. */
    method AssignNames()
      modifies this
      ensures Naming(helperNames, helperCounter) == Named(Naming(old(helperNames), old(helperCounter)), occurrenceCounter)
      ensures occurrenceCounter == old(occurrenceCounter)
      ensures helpers == old(helpers) && steps == old(steps) && globalCode == old(globalCode)
    {
      ghost var n0 := Naming(helperNames, helperCounter);
      var entries := occurrenceCounter;
      for j := 0 to |entries|
        invariant occurrenceCounter == entries == old(occurrenceCounter)
        invariant Naming(helperNames, helperCounter) == Named(n0, entries[..j])
        invariant helpers == old(helpers) && steps == old(steps) && globalCode == old(globalCode)
      {
        var (key, count) := entries[j];
        NameKey(key, count);
        PrefixSnoc(entries, j);
        NamedSnoc(n0, entries[..j], entries[j]);
      }
      assert entries[..|entries|] == entries;
    }

    /** One entry of the counter: a key counted more than once gets the next number. */
    method NameKey(key: ActionKey, count: nat)
      modifies this
      ensures Naming(helperNames, helperCounter) == NameStep(Naming(old(helperNames), old(helperCounter)), key, count)
      ensures occurrenceCounter == old(occurrenceCounter)
      ensures helpers == old(helpers) && steps == old(steps) && globalCode == old(globalCode)
    {
      if count > 1 {
        helperCounter := helperCounter + 1;
        helperNames := OrderedDict.Set(helperNames, key, HelperName(helperCounter));
      }
    }

    /** The helpers, one per named key; the exception of `compile_atomic`, if any. */
    method BuildHelpers(compile: Compiler) returns (err: Option<Exc>)
      modifies this
      ensures (helpers, err) == (old(helpers) + BuiltHelpers(helperNames, compile).0, BuiltHelpers(helperNames, compile).1)
      ensures occurrenceCounter == old(occurrenceCounter) && helperNames == old(helperNames) && helperCounter == old(helperCounter)
      ensures steps == old(steps) && globalCode == old(globalCode)
    {
      var items := helperNames;
      for j := 0 to |items|
        invariant BuiltHelpers(items[..j], compile).1.None?
        invariant helpers == old(helpers) + BuiltHelpers(items[..j], compile).0
        invariant occurrenceCounter == old(occurrenceCounter) && helperNames == items && helperCounter == old(helperCounter)
        invariant steps == old(steps) && globalCode == old(globalCode)
      {
        assert items[..j + 1] != [] && Pop(items[..j + 1]) == items[..j] && Top(items[..j + 1]) == items[j];
        var (key, name) := items[j];
        var (cmd, res) := key;
        var lines: seq<string>;
        if res != "" {
          var compiled := compile(res, Some(cmd));
          if compiled.Fail? {
            BuiltHelpersFailed(items, j + 1, compile);
            return Some(compiled.exc);
          }
          lines := compiled.value;
        } else {
          lines := ["echo 'Action: " + cmd + "'", "run_action \"" + cmd + "\""];
        }
        helpers := helpers + [FunctionDef(name, [], lines)];
      }
      assert items[..|items|] == items;
      err := None;
    }

    /** The steps: each action a call to its helper or inline code; the exception of
        `compile_atomic`, if any. */
    method BuildSteps(file: seq<ShtestAst.TestStep>, compile: Compiler) returns (err: Option<Exc>)
      modifies this
      ensures (steps, err) == (old(steps) + BuiltSteps(file, helperNames, compile).0, BuiltSteps(file, helperNames, compile).1)
      ensures occurrenceCounter == old(occurrenceCounter) && helperNames == old(helperNames) && helperCounter == old(helperCounter)
      ensures helpers == old(helpers) && globalCode == old(globalCode)
    {
      for s := 0 to |file|
        invariant BuiltSteps(file[..s], helperNames, compile).1.None?
        invariant steps == old(steps) + BuiltSteps(file[..s], helperNames, compile).0
        invariant occurrenceCounter == old(occurrenceCounter) && helperNames == old(helperNames) && helperCounter == old(helperCounter)
        invariant helpers == old(helpers) && globalCode == old(globalCode)
      {
        assert file[..s + 1] != [] && Pop(file[..s + 1]) == file[..s] && Top(file[..s + 1]) == file[s];
        var step := BuildOneStep(file[s], helperNames, compile);
        if step.Fail? {
          BuiltStepsFailed(file, s + 1, helperNames, compile);
          return Some(step.exc);
        }
        steps := steps + [step.value];
      }
      assert file[..|file|] == file;
      err := None;
    }

    /** The loop over one step's actions. */
    static method BuildOneStep(step: ShtestAst.TestStep, names: OrderedDict.ODict<ActionKey, string>, compile: Compiler)
      returns (r: Result<ShellTestStep>)
      ensures r == BuildStep(step, names, compile)
    {
      var actions: seq<Node> := [];
      for i := 0 to |step.actions|
        invariant |actions| == i
        invariant forall k :: 0 <= k < i ==> ActionNode(step.actions[k], names, compile) == Ok(actions[k])
      {
        var node := BuildAction(step.actions[i], names, compile);
        if node.Fail? {
          StepFails(step, i, names, compile);
          return Fail(node.exc);
        }
        BuiltSnoc(step.actions, i, names, compile, actions, node.value);
        actions := actions + [node.value];
      }
      StepBuilt(step, names, compile, actions);
      r := Ok(ShellTestStep(step.name, actions, []));
    }

    /** The body of the loop over one step's actions: a call to the action's helper, the
        compiled result, or the command run inline. */
    static method BuildAction(action: ShtestAst.Action, names: OrderedDict.ODict<ActionKey, string>, compile: Compiler)
      returns (r: Result<Node>)
      ensures r == ActionNode(action, names, compile)
    {
      var name := OrderedDict.Get(names, KeyOf(action));
      if name.Some? {
        return Ok(FunctionCall(name.value, []));
      } else if action.resultExpr.Some? && action.resultExpr.value != "" {
        var compiled := compile(action.resultExpr.value, action.command);
        if compiled.Fail? {
          return Fail(compiled.exc);
        }
        return Ok(Inline(CodeLines(compiled.value)));
      }
      return Ok(Inline(CodeLines(["echo 'Action: " + CommandText(action.command) + "'",
                                  "run_action \"" + CommandText(action.command) + "\""])));
    }

    /** `visit_shtestfile`: count, name, build the helpers, build the steps, set the prologue.
        An exception from `compile_atomic` ends the visit, with what was built before it kept. */
    method VisitShtestFile(file: seq<ShtestAst.TestStep>, compile: Compiler) returns (r: Result<FrameworkAst>)
      modifies this
      ensures occurrenceCounter == Counted(old(occurrenceCounter), StepKeys(file))
      ensures Naming(helperNames, helperCounter) == Named(Naming(old(helperNames), old(helperCounter)), occurrenceCounter)
      ensures var hb := BuiltHelpers(helperNames, compile);
        && helpers == old(helpers) + hb.0
        && (hb.1.Some? ==> r == Fail(hb.1.value) && steps == old(steps) && globalCode == old(globalCode))
        && (hb.1.None? ==>
              var sb := BuiltSteps(file, helperNames, compile);
              && steps == old(steps) + sb.0
              && (sb.1.Some? ==> r == Fail(sb.1.value) && globalCode == old(globalCode))
              && (sb.1.None? ==> globalCode == Prologue && r.Ok? && fresh(r.value)
                                 && r.value.helpers == helpers && r.value.steps == steps && r.value.globalCode == Prologue))
    {
      CountActions(file);
      AssignNames();
      var err := BuildHelpers(compile);
      if err.Some? {
        return Fail(err.value);
      }
      err := BuildSteps(file, compile);
      if err.Some? {
        return Fail(err.value);
      }
      globalCode := Prologue;
      var ast := new FrameworkAst(helpers, steps, globalCode);
      r := Ok(ast);
    }
  }

  /** Once building the helpers has failed on a prefix, the rest of the items change nothing. */
  lemma {:induction false} BuiltHelpersFailed(items: OrderedDict.ODict<ActionKey, string>, j: nat, compile: Compiler)
    requires j <= |items| && BuiltHelpers(items[..j], compile).1.Some?
    ensures BuiltHelpers(items, compile) == BuiltHelpers(items[..j], compile)
  {
    if j < |items| {
      assert Pop(items)[..j] == items[..j];
      BuiltHelpersFailed(Pop(items), j, compile);
    } else {
      assert items[..j] == items;
    }
  }

  /** Once building the steps has failed on a prefix, the rest of the steps change nothing. */
  lemma {:induction false} BuiltStepsFailed(steps: seq<ShtestAst.TestStep>, s: nat, names: OrderedDict.ODict<ActionKey, string>, compile: Compiler)
    requires s <= |steps| && BuiltSteps(steps[..s], names, compile).1.Some?
    ensures BuiltSteps(steps, names, compile) == BuiltSteps(steps[..s], names, compile)
  {
    if s < |steps| {
      assert Pop(steps)[..s] == steps[..s];
      BuiltStepsFailed(Pop(steps), s, names, compile);
    } else {
      assert steps[..s] == steps;
    }
  }

  /** Actions that all build make the list of their nodes. */
  lemma AllBuilt(actions: seq<ShtestAst.Action>, names: OrderedDict.ODict<ActionKey, string>, compile: Compiler, nodes: seq<Node>)
    requires |nodes| == |actions|
    requires forall k :: 0 <= k < |actions| ==> ActionNode(actions[k], names, compile) == Ok(nodes[k])
    ensures BuildActions(actions, names, compile) == Ok(nodes)
  {
    var r := BuildActions(actions, names, compile);
    assert r.Ok?;
    assert r.value == nodes;
  }

  /** One more action built extends the nodes built so far. */
  lemma BuiltSnoc(actions: seq<ShtestAst.Action>, i: nat, names: OrderedDict.ODict<ActionKey, string>, compile: Compiler,
                  nodes: seq<Node>, node: Node)
    requires i < |actions| && |nodes| == i && ActionNode(actions[i], names, compile) == Ok(node)
    requires forall k :: 0 <= k < i ==> ActionNode(actions[k], names, compile) == Ok(nodes[k])
    ensures forall k :: 0 <= k < i + 1 ==> ActionNode(actions[k], names, compile) == Ok((nodes + [node])[k])
  {
    assert forall k :: 0 <= k < i ==> (nodes + [node])[k] == nodes[k];
  }

  /** Every action built: the step is built from exactly those nodes. */
  lemma StepBuilt(step: ShtestAst.TestStep, names: OrderedDict.ODict<ActionKey, string>, compile: Compiler, nodes: seq<Node>)
    requires |nodes| == |step.actions|
    requires forall k :: 0 <= k < |step.actions| ==> ActionNode(step.actions[k], names, compile) == Ok(nodes[k])
    ensures BuildStep(step, names, compile) == Ok(ShellTestStep(step.name, nodes, []))
  {
    AllBuilt(step.actions, names, compile, nodes);
  }

  /** The first action that fails makes the step fail with its exception. */
  lemma StepFails(step: ShtestAst.TestStep, i: nat, names: OrderedDict.ODict<ActionKey, string>, compile: Compiler)
    requires i < |step.actions| && ActionNode(step.actions[i], names, compile).Fail?
    requires forall k :: 0 <= k < i ==> ActionNode(step.actions[k], names, compile).Ok?
    ensures BuildStep(step, names, compile) == Fail(ActionNode(step.actions[i], names, compile).exc)
  {
    FirstActionFails(step.actions, i, names, compile);
  }

  lemma FirstActionFails(actions: seq<ShtestAst.Action>, i: nat, names: OrderedDict.ODict<ActionKey, string>, compile: Compiler)
    requires i < |actions| && ActionNode(actions[i], names, compile).Fail?
    requires forall k :: 0 <= k < i ==> ActionNode(actions[k], names, compile).Ok?
    ensures BuildActions(actions, names, compile) == Fail(ActionNode(actions[i], names, compile).exc)
  {
    var r := BuildActions(actions, names, compile);
    var j :| 0 <= j < |actions| && ActionNode(actions[j], names, compile) == Fail(r.exc)
             && forall k :: 0 <= k < j ==> ActionNode(actions[k], names, compile).Ok?;
    if j < i {
    } else if i < j {
    }
  }
}
