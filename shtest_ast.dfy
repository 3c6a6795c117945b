/** The parsed form of a `.shtest` file: steps holding actions, plus the file's variables. */
module ShtestAst {
  import opened Basics
  import opened Text
  import OrderedDict

  /** One action line. `command` is `None` for a line that only states a result; the
      compiled result tree `result_ast` is filled in by later passes and is not modelled. */
  datatype Action = Action(command: Option<string>, resultExpr: Option<string>, lineno: int, rawLine: Option<string>)

  datatype TestStep = TestStep(name: string, lineno: int, actions: seq<Action>)

  /** The four step names `get_grouped_steps` reports, in its order. */
  const GroupKeys: seq<string> := ["preparation", "execution", "validation", "logs_check"]

  /** The actions of the steps named `name`, concatenated in step order. */
  function ActionsOf(steps: seq<TestStep>, name: string): seq<Action> {
    if steps == [] then []
    else ActionsOf(Pop(steps), name) + (if Top(steps).name == name then Top(steps).actions else [])
  }

  /** Splitting the steps splits the collected actions the same way. */
  lemma {:induction false} ActionsOfAppend(a: seq<TestStep>, b: seq<TestStep>, name: string)
    ensures ActionsOf(a + b, name) == ActionsOf(a, name) + ActionsOf(b, name)
    decreases |b|
  {
    if b == [] {
      assert a + b == a;
    } else {
      assert Pop(a + b) == a + Pop(b) && Top(a + b) == Top(b);
      ActionsOfAppend(a, Pop(b), name);
    }
  }

  /** Steps of any other name contribute nothing. */
  lemma {:induction false} ActionsOfOtherNames(steps: seq<TestStep>, name: string)
    requires forall i :: 0 <= i < |steps| ==> steps[i].name != name
    ensures ActionsOf(steps, name) == []
  {
    if steps != [] {
      var p := Pop(steps);
      assert forall i :: 0 <= i < |p| ==> p[i] == steps[i];
      ActionsOfOtherNames(p, name);
    }
  }

  /** The grouping of `steps`: each of the four names maps to the actions of the steps so
      named. */
  function Grouped(steps: seq<TestStep>): map<string, seq<Action>> {
    map k | k in GroupKeys :: ActionsOf(steps, k)
  }

  /** The table always has exactly the four keys. */
  lemma GroupedKeys(steps: seq<TestStep>)
    ensures Grouped(steps).Keys == {"preparation", "execution", "validation", "logs_check"}
  {
  }

  /** Each entry holds the actions of its steps, whatever the other steps are called. */
  lemma GroupedEntries(steps: seq<TestStep>, other: seq<TestStep>, k: string)
    requires k in GroupKeys
    requires forall i :: 0 <= i < |other| ==> other[i].name !in GroupKeys
    ensures Grouped(steps + other)[k] == Grouped(steps)[k] == ActionsOf(steps, k)
  {
    ActionsOfAppend(steps, other, k);
    ActionsOfOtherNames(other, k);
    assert ActionsOf(steps, k) + [] == ActionsOf(steps, k);
  }

  /** One turn of `get_grouped_steps`' loop. */
  lemma GroupedStep(steps: seq<TestStep>, step: TestStep)
    ensures var g := Grouped(steps);
            Grouped(steps + [step]) == if step.name in g then g[step.name := g[step.name] + step.actions] else g
  {
    var g := Grouped(steps);
    var s := steps + [step];
    assert Pop(s) == steps && Top(s) == step;
    var h := if step.name in g then g[step.name := g[step.name] + step.actions] else g;
    forall k | k in GroupKeys ensures ActionsOf(s, k) == h[k] {
      if k != step.name {
        assert ActionsOf(steps, k) + [] == ActionsOf(steps, k);
      }
    }
  }

  /** `ShtestFile`: its steps, its variables, the legacy argument table, the list whose
      one cell holds the last file variable, and the path. */
  class ShtestFile {
    var steps: seq<TestStep>
    var variables: OrderedDict.ODict<string, string>
    var arguments: OrderedDict.ODict<string, string>
    var lastFileVar: seq<Option<string>>
    var path: Option<string>

    constructor (path: Option<string>)
      ensures steps == [] && variables == [] && arguments == [] && lastFileVar == [None]
      ensures this.path == path
    {
      steps := [];
      variables := [];
      arguments := [];
      lastFileVar := [None];
      this.path := path;
    }

    /** `get_grouped_steps`; the dictionary's key order is not modelled. */
    method GetGroupedSteps() returns (grouped: map<string, seq<Action>>)
      ensures grouped == Grouped(steps)
    {
      grouped := map["preparation" := [], "execution" := [], "validation" := [], "logs_check" := []];
      assert grouped == Grouped([]);
      for i := 0 to |steps|
        invariant grouped == Grouped(steps[..i])
      {
        var step := steps[i];
        assert steps[..i + 1] == steps[..i] + [step];
        GroupedStep(steps[..i], step);
        if step.name in grouped {
          grouped := grouped[step.name := grouped[step.name] + step.actions];
        }
      }
      assert steps[..|steps|] == steps;
    }

    /** `set_variable`: name and value are both stripped. The value is then found under
        every spelling of the name that strips to the same text, and every other name
        keeps its value. */
    method SetVariable(name: string, value: string)
      modifies this
      ensures variables == OrderedDict.Set(old(variables), Strip(name), Strip(value))
      ensures steps == old(steps) && arguments == old(arguments) && lastFileVar == old(lastFileVar) && path == old(path)
      ensures forall n :: Strip(n) == Strip(name) ==> GetVariable(n) == Some(Strip(value))
      ensures forall n :: Strip(n) != Strip(name) ==> GetVariable(n) == old(GetVariable(n))
    {
      var vars := variables;
      variables := OrderedDict.Set(variables, Strip(name), Strip(value));
      forall n ensures Strip(n) == Strip(name) ==> GetVariable(n) == Some(Strip(value)) {
        if Strip(n) == Strip(name) {
          VariableRoundTrip(vars, name, value, n);
        }
      }
      forall n ensures Strip(n) != Strip(name) ==> OrderedDict.Get(variables, Strip(n)) == OrderedDict.Get(vars, Strip(n)) {
        if Strip(n) != Strip(name) {
          VariableOthers(vars, name, value, n);
        }
      }
    }

    /** `get_variable`: the name is stripped before the lookup, and a name never set gives
        `None`. */
    function GetVariable(name: string): (r: Option<string>)
      reads this
      ensures r.None? <==> !OrderedDict.HasKey(variables, Strip(name))
      ensures r.Some? ==> (Strip(name), r.value) in variables
    {
      OrderedDict.Get(variables, Strip(name))
    }

    /** `add_step`: a new step without actions goes at the end; its index is returned in
        place of the step object. */
    method AddStep(name: string, lineno: int) returns (index: nat)
      modifies this
      ensures steps == old(steps) + [TestStep(name, lineno, [])] && index == |old(steps)|
      ensures variables == old(variables) && arguments == old(arguments)
      ensures lastFileVar == old(lastFileVar) && path == old(path)
    {
      index := |steps|;
      steps := steps + [TestStep(name, lineno, [])];
    }

    /** `current_step.actions.append(action)` on the step at `index`. */
    method AddAction(index: nat, action: Action)
      requires index < |steps|
      modifies this
      ensures steps == old(steps)[index := old(steps)[index].(actions := old(steps)[index].actions + [action])]
      ensures variables == old(variables) && arguments == old(arguments)
      ensures lastFileVar == old(lastFileVar) && path == old(path)
    {
      steps := steps[index := steps[index].(actions := steps[index].actions + [action])];
    }
  }

  /** A variable set under a name is found under any spelling of that name that strips to
      the same text, and its value comes back stripped. */
  lemma VariableRoundTrip(vars: OrderedDict.ODict<string, string>, name: string, value: string, lookup: string)
    requires Strip(lookup) == Strip(name)
    ensures OrderedDict.Get(OrderedDict.Set(vars, Strip(name), Strip(value)), Strip(lookup)) == Some(Strip(value))
  {
    OrderedDict.GetSetSame(vars, Strip(name), Strip(value));
  }

  /** Setting one variable leaves every other name's value alone. */
  lemma VariableOthers(vars: OrderedDict.ODict<string, string>, name: string, value: string, lookup: string)
    requires Strip(lookup) != Strip(name)
    ensures OrderedDict.Get(OrderedDict.Set(vars, Strip(name), Strip(value)), Strip(lookup)) == OrderedDict.Get(vars, Strip(lookup))
  {
    OrderedDict.GetSetOther(vars, Strip(name), Strip(value), Strip(lookup));
  }
}
