/** `emit_shell_script`: the shell-framework AST written out as the text of the script.
    The global code comes first, then every helper as a shell function, then every step
    under a comment; the script always ends by announcing success and `exit 0`. */
module ShellFrameworkEmitter {
  import opened Basics
  import opened Text
  import opened Seqs
  import opened ShellFramework

  const AllPassed := "echo 'All steps and validations passed.'"
  const ExitZero := "exit 0"

  /** Plain lines as items of the `lines` list. */
  function Texts(ss: seq<string>): (r: seq<CodeLine>)
    ensures |r| == |ss| && forall i :: 0 <= i < |ss| ==> r[i] == Code(ss[i])
  {
    seq(|ss|, i requires 0 <= i < |ss| => Code(ss[i]))
  }

  /** `[f'"{a}"' for a in args]`. */
  function Quoted(args: seq<string>): (r: seq<string>)
    ensures |r| == |args| && forall i :: 0 <= i < |args| ==> r[i] == "\"" + args[i] + "\""
  {
    seq(|args|, i requires 0 <= i < |args| => "\"" + args[i] + "\"")
  }

  /** A helper: its header, its body indented by four spaces, the closing brace and a
      blank line. Its `params` are not used. */
  function HelperLines(h: FunctionDef): seq<CodeLine> {
    [Code(h.name + "() {")] + Texts(seq(|h.bodyLines|, i requires 0 <= i < |h.bodyLines| => "    " + h.bodyLines[i]))
    + [Code("}"), Code("")]
  }

  /** What an action or a validation adds: a call as its name, a space and its quoted
      arguments; inline code as its lines, whatever they hold; anything else nothing. */
  function NodeLines(n: Node): seq<CodeLine> {
    match n
    case FunctionCall(name, args) => [Code(name + " " + Join(" ", Quoted(args)))]
    case Inline(code) => code
    case _ => []
  }

  /** A step: a comment naming it, its actions, its validations and a blank line. */
  function StepLines(st: ShellTestStep): seq<CodeLine> {
    [Code("# Test step: " + st.name)] + FlatMap(st.actions, NodeLines) + FlatMap(st.validations, NodeLines) + [Code("")]
  }

  /** The `lines` list once every part has been appended. */
  function ScriptLines(globalCode: seq<string>, helpers: seq<FunctionDef>, steps: seq<ShellTestStep>): seq<CodeLine> {
    Texts(globalCode) + [Code("")] + FlatMap(helpers, HelperLines) + FlatMap(steps, StepLines)
    + [Code(AllPassed), Code(ExitZero)]
  }

  predicate AllText(lines: seq<CodeLine>) {
    forall i :: 0 <= i < |lines| ==> lines[i].Code?
  }

  /** The strings of a list that holds only strings. */
  function Strings(lines: seq<CodeLine>): (r: seq<string>)
    requires AllText(lines)
    ensures |r| == |lines| && forall i :: 0 <= i < |lines| ==> lines[i] == Code(r[i])
  {
    seq(|lines|, i requires 0 <= i < |lines| && lines[i].Code? => lines[i].line)
  }

  /** The index of the first item that is not a string. */
  function FirstCheck(lines: seq<CodeLine>): (r: Option<nat>)
    ensures r.None? <==> AllText(lines)
    ensures r.Some? ==> r.value < |lines| && lines[r.value].CheckLine? && AllText(lines[..r.value])
  {
    if lines == [] then None
    else if lines[0].CheckLine? then Some(0)
    else
      var r := FirstCheck(lines[1..]);
      if r.None? then
        assert forall i :: 1 <= i < |lines| ==> lines[i] == lines[1..][i - 1];
        None
      else
        assert forall i :: 1 <= i < r.value + 1 ==> lines[i] == lines[1..][i - 1];
        Some(r.value + 1)
  }

  /** `"\n".join(lines)`: a `TypeError` naming the first item that is a validation check
      rather than a string. */
  function JoinLines(lines: seq<CodeLine>): (r: Result<string>)
    ensures r.Ok? <==> AllText(lines)
  {
    match FirstCheck(lines)
    case Some(i) => Fail(TypeError("sequence item " + NatToString(i) + ": expected str instance, ValidationCheck found"))
    case None => Ok(Join("\n", Strings(lines)))
  }

  function Emitted(globalCode: seq<string>, helpers: seq<FunctionDef>, steps: seq<ShellTestStep>): Result<string> {
    JoinLines(ScriptLines(globalCode, helpers, steps))
  }

  /** `emit_shell_script`. */
  method EmitShellScript(ast: FrameworkAst) returns (r: Result<string>)
    ensures r == Emitted(ast.globalCode, ast.helpers, ast.steps)
  {
    var lines := Texts(ast.globalCode) + [Code("")];
    lines := AddHelpers(lines, ast.helpers);
    lines := AddSteps(lines, ast.steps);
    lines := lines + [Code(AllPassed), Code(ExitZero)];
    r := JoinLines(lines);
  }

  /** The loop over the helpers. */
  method AddHelpers(lines: seq<CodeLine>, helpers: seq<FunctionDef>) returns (r: seq<CodeLine>)
    ensures r == lines + FlatMap(helpers, HelperLines)
  {
    r := lines;
    for h := 0 to |helpers|
      invariant r == lines + FlatMap(helpers[..h], HelperLines)
    {
      r := AddHelper(r, helpers[h]);
      FlatMapSnoc(helpers, h, HelperLines);
    }
    assert helpers[..|helpers|] == helpers;
  }

  /** The loop over the steps. */
  method AddSteps(lines: seq<CodeLine>, steps: seq<ShellTestStep>) returns (r: seq<CodeLine>)
    ensures r == lines + FlatMap(steps, StepLines)
  {
    r := lines;
    for s := 0 to |steps|
      invariant r == lines + FlatMap(steps[..s], StepLines)
    {
      r := AddStep(r, steps[s]);
      FlatMapSnoc(steps, s, StepLines);
    }
    assert steps[..|steps|] == steps;
  }

  /** One helper, its body line by line. */
  method AddHelper(lines: seq<CodeLine>, helper: FunctionDef) returns (r: seq<CodeLine>)
    ensures r == lines + HelperLines(helper)
  {
    r := lines + [Code(helper.name + "() {")];
    ghost var body := seq(|helper.bodyLines|, i requires 0 <= i < |helper.bodyLines| => "    " + helper.bodyLines[i]);
    for b := 0 to |helper.bodyLines|
      invariant r == lines + [Code(helper.name + "() {")] + Texts(body[..b])
    {
      assert Texts(body[..b + 1]) == Texts(body[..b]) + [Code("    " + helper.bodyLines[b])];
      r := r + [Code("    " + helper.bodyLines[b])];
    }
    r := r + [Code("}"), Code("")];
    assert body[..|helper.bodyLines|] == body;
  }

  /** One step: its header, its actions, its validations, a blank line. */
  method AddStep(lines: seq<CodeLine>, step: ShellTestStep) returns (r: seq<CodeLine>)
    ensures r == lines + StepLines(step)
  {
    r := lines + [Code("# Test step: " + step.name)];
    ghost var header := r;
    for a := 0 to |step.actions|
      invariant r == header + FlatMap(step.actions[..a], NodeLines)
    {
      r := AddNode(r, step.actions[a]);
      FlatMapSnoc(step.actions, a, NodeLines);
    }
    assert step.actions[..|step.actions|] == step.actions;
    ghost var acted := r;
    for v := 0 to |step.validations|
      invariant r == acted + FlatMap(step.validations[..v], NodeLines)
    {
      r := AddNode(r, step.validations[v]);
      FlatMapSnoc(step.validations, v, NodeLines);
    }
    assert step.validations[..|step.validations|] == step.validations;
    r := r + [Code("")];
  }

  /** One action or validation of a step: a call is appended as one line, inline code
      extends the list, anything else is skipped. */
  method AddNode(lines: seq<CodeLine>, n: Node) returns (r: seq<CodeLine>)
    ensures r == lines + NodeLines(n)
  {
    if n.FunctionCall? {
      var argStr := Join(" ", Quoted(n.args));
      r := lines + [Code(n.name + " " + argStr)];
    } else if n.Inline? {
      r := lines + n.codeLines;
    } else {
      r := lines;
    }
  }

  // ----- properties of the script -----

  /** An inline block that still holds a validation check object. */
  predicate HoldsCheck(n: Node) {
    n.Inline? && exists i :: 0 <= i < |n.codeLines| && n.codeLines[i].CheckLine?
  }

  predicate StepHoldsCheck(st: ShellTestStep) {
    (exists j :: 0 <= j < |st.actions| && HoldsCheck(st.actions[j]))
    || (exists j :: 0 <= j < |st.validations| && HoldsCheck(st.validations[j]))
  }

  lemma NotAllText(lines: seq<CodeLine>)
    ensures !AllText(lines) <==> exists v :: CheckLine(v) in lines
  {
    if !AllText(lines) {
      var i :| 0 <= i < |lines| && lines[i].CheckLine?;
      assert CheckLine(lines[i].check) in lines;
    }
  }

  lemma {:induction false} NodesCheck(ns: seq<Node>, v: ValidationCheck)
    ensures CheckLine(v) in FlatMap(ns, NodeLines) <==> exists j :: 0 <= j < |ns| && ns[j].Inline? && CheckLine(v) in ns[j].codeLines
  {
    FlatMapMembers(ns, NodeLines, CheckLine(v));
  }

  lemma HoldsCheckIn(n: Node)
    ensures HoldsCheck(n) <==> n.Inline? && exists v :: CheckLine(v) in n.codeLines
  {
    if n.Inline? {
      NotAllText(n.codeLines);
    }
  }

  lemma {:induction false} StepsCheck(steps: seq<ShellTestStep>)
    ensures (exists v :: CheckLine(v) in FlatMap(steps, StepLines)) <==> exists k :: 0 <= k < |steps| && StepHoldsCheck(steps[k])
  {
    if exists v :: CheckLine(v) in FlatMap(steps, StepLines) {
      var v :| CheckLine(v) in FlatMap(steps, StepLines);
      FlatMapMembers(steps, StepLines, CheckLine(v));
      var k :| 0 <= k < |steps| && CheckLine(v) in StepLines(steps[k]);
      StepLinesCheck(steps[k]);
    }
    if exists k :: 0 <= k < |steps| && StepHoldsCheck(steps[k]) {
      var k :| 0 <= k < |steps| && StepHoldsCheck(steps[k]);
      StepLinesCheck(steps[k]);
      var v :| CheckLine(v) in StepLines(steps[k]);
      FlatMapMembers(steps, StepLines, CheckLine(v));
    }
  }

  /** A step's lines hold a check object exactly when one of its inline blocks does. */
  lemma StepLinesCheck(st: ShellTestStep)
    ensures (exists v :: CheckLine(v) in StepLines(st)) <==> StepHoldsCheck(st)
  {
    var acts, vals := FlatMap(st.actions, NodeLines), FlatMap(st.validations, NodeLines);
    NodesHoldCheck(st.actions);
    NodesHoldCheck(st.validations);
    forall v ensures CheckLine(v) in StepLines(st) <==> CheckLine(v) in acts || CheckLine(v) in vals {
      assert StepLines(st) == [Code("# Test step: " + st.name)] + acts + vals + [Code("")];
    }
  }

  /** Nodes' lines hold a check object exactly when one of the nodes does. */
  lemma NodesHoldCheck(ns: seq<Node>)
    ensures (exists v :: CheckLine(v) in FlatMap(ns, NodeLines)) <==> exists j :: 0 <= j < |ns| && HoldsCheck(ns[j])
  {
    if exists v :: CheckLine(v) in FlatMap(ns, NodeLines) {
      var v :| CheckLine(v) in FlatMap(ns, NodeLines);
      NodesCheck(ns, v);
      var j :| 0 <= j < |ns| && ns[j].Inline? && CheckLine(v) in ns[j].codeLines;
      HoldsCheckIn(ns[j]);
    }
    if exists j :: 0 <= j < |ns| && HoldsCheck(ns[j]) {
      var j :| 0 <= j < |ns| && HoldsCheck(ns[j]);
      HoldsCheckIn(ns[j]);
      var v :| CheckLine(v) in ns[j].codeLines;
      NodesCheck(ns, v);
    }
  }

  lemma {:induction false} HelpersText(helpers: seq<FunctionDef>)
    ensures AllText(FlatMap(helpers, HelperLines))
  {
    if helpers != [] {
      HelpersText(Pop(helpers));
    }
  }

  /** Joining the lines raises exactly when some step still holds a validation check
      object in an inline block of its actions or validations; helpers and global code
      hold only strings. The exception is the `TypeError` naming the first such item. */
  lemma EmitFails(globalCode: seq<string>, helpers: seq<FunctionDef>, steps: seq<ShellTestStep>)
    ensures Emitted(globalCode, helpers, steps).Fail? <==> exists k :: 0 <= k < |steps| && StepHoldsCheck(steps[k])
    ensures Emitted(globalCode, helpers, steps).Fail? ==>
              exists i :: 0 <= i < |ScriptLines(globalCode, helpers, steps)|
                          && ScriptLines(globalCode, helpers, steps)[i].CheckLine?
                          && Emitted(globalCode, helpers, steps) == Fail(TypeError("sequence item " + NatToString(i) + ": expected str instance, ValidationCheck found"))
  {
    var pre := Texts(globalCode) + [Code("")] + FlatMap(helpers, HelperLines);
    var body := FlatMap(steps, StepLines);
    var lines := ScriptLines(globalCode, helpers, steps);
    assert lines == pre + body + [Code(AllPassed), Code(ExitZero)];
    HelpersText(helpers);
    assert AllText(pre);
    NotAllText(lines);
    NotAllText(body);
    StepsCheck(steps);
    forall v ensures CheckLine(v) in lines <==> CheckLine(v) in body {
      assert CheckLine(v) !in pre;
    }
  }

  /** Every item is a string: the script is the lines joined by newlines, and it splits
      back into them when no line holds a newline itself. */
  lemma EmitLines(globalCode: seq<string>, helpers: seq<FunctionDef>, steps: seq<ShellTestStep>)
    requires AllText(ScriptLines(globalCode, helpers, steps))
    ensures Emitted(globalCode, helpers, steps) == Ok(Join("\n", Strings(ScriptLines(globalCode, helpers, steps))))
    ensures (forall i :: 0 <= i < |ScriptLines(globalCode, helpers, steps)| ==> '\n' !in Strings(ScriptLines(globalCode, helpers, steps))[i])
            ==> SplitOn(Emitted(globalCode, helpers, steps).value, '\n') == Strings(ScriptLines(globalCode, helpers, steps))
  {
    var ss := Strings(ScriptLines(globalCode, helpers, steps));
    if forall i :: 0 <= i < |ss| ==> '\n' !in ss[i] {
      SplitJoin(ss, '\n');
    }
  }

  lemma StringsAppend(a: seq<CodeLine>, b: seq<CodeLine>)
    requires AllText(a) && AllText(b)
    ensures AllText(a + b) && Strings(a + b) == Strings(a) + Strings(b)
  {
    assert AllText(a + b) by {
      forall i | 0 <= i < |a + b| ensures (a + b)[i].Code? {
        if i >= |a| {
          assert (a + b)[i] == b[i - |a|];
        }
      }
    }
  }

  /** The script opens with the global code and a blank line and closes with the
      success message and `exit 0`. */
  lemma EmitFrame(globalCode: seq<string>, helpers: seq<FunctionDef>, steps: seq<ShellTestStep>)
    requires Emitted(globalCode, helpers, steps).Ok?
    ensures exists mid :: Emitted(globalCode, helpers, steps).value
                          == Join("\n", globalCode + [""]) + "\n" + mid + AllPassed + "\n" + ExitZero
  {
    var gl, m, el := Texts(globalCode + [""]), FlatMap(helpers, HelperLines) + FlatMap(steps, StepLines), [Code(AllPassed), Code(ExitZero)];
    var lines := ScriptLines(globalCode, helpers, steps);
    assert Texts(globalCode) + [Code("")] == gl;
    assert lines == gl + m + el;
    assert AllText(m) by {
      forall i | 0 <= i < |m| ensures m[i].Code? {
        assert m[i] == lines[|gl| + i];
      }
    }
    var g, e := globalCode + [""], [AllPassed, ExitZero];
    assert Strings(gl) == g && Strings(el) == e;
    StringsAppend(gl, m);
    StringsAppend(gl + m, el);
    var ms := Strings(m);
    assert Strings(lines) == g + ms + e;
    FrameJoin(g, ms, e);
  }

  lemma FrameJoin(g: seq<string>, ms: seq<string>, e: seq<string>)
    requires g != [] && e == [AllPassed, ExitZero]
    ensures exists mid :: Join("\n", g + ms + e) == Join("\n", g) + "\n" + mid + AllPassed + "\n" + ExitZero
  {
    var jg, je := Join("\n", g), Join("\n", e);
    var p := jg + "\n";
    assert je == AllPassed + "\n" + ExitZero by {
      assert e[1..] == [ExitZero];
      assert Join("\n", e[1..]) == ExitZero;
    }
    if ms == [] {
      assert g + ms + e == g + e;
      JoinAppend("\n", g, e);
      AppendNil(p);
      Closing(p, "", AllPassed, ExitZero);
    } else {
      var jm := Join("\n", ms);
      assert g + ms + e == g + (ms + e);
      JoinAppend("\n", g, ms + e);
      JoinAppend("\n", ms, e);
      AppendAssoc(p, jm + "\n", je);
      Closing(p, jm + "\n", AllPassed, ExitZero);
    }
  }

  lemma Closing(p: string, mid: string, a: string, x: string)
    ensures p + mid + (a + "\n" + x) == p + mid + a + "\n" + x
  {
  }

  /** The parameters of the helpers play no part: the functions read their arguments as
      `$1`, `$2`, ... in their bodies. */
  lemma EmitIgnoresParams(globalCode: seq<string>, helpers: seq<FunctionDef>, others: seq<FunctionDef>, steps: seq<ShellTestStep>)
    requires |others| == |helpers|
    requires forall k :: 0 <= k < |helpers| ==> others[k].name == helpers[k].name && others[k].bodyLines == helpers[k].bodyLines
    ensures Emitted(globalCode, others, steps) == Emitted(globalCode, helpers, steps)
  {
    FlatMapAgree(helpers, others, HelperLines);
  }

  /** Helper `k` is written right behind the global code, the blank line and the helpers
      before it. */
  lemma HelperPlaced(globalCode: seq<string>, helpers: seq<FunctionDef>, steps: seq<ShellTestStep>, k: nat)
    requires k < |helpers|
    ensures exists after :: ScriptLines(globalCode, helpers, steps)
                            == Texts(globalCode) + [Code("")] + FlatMap(helpers[..k], HelperLines) + HelperLines(helpers[k]) + after
  {
    var pre := Texts(globalCode) + [Code("")];
    var a, b, c := FlatMap(helpers[..k], HelperLines), HelperLines(helpers[k]), FlatMap(helpers[k + 1..], HelperLines);
    var rest := FlatMap(steps, StepLines) + [Code(AllPassed), Code(ExitZero)];
    assert ScriptLines(globalCode, helpers, steps) == pre + FlatMap(helpers, HelperLines) + rest;
    FlatMapSplit(helpers, k, HelperLines);
    Regroup(pre, a, b, c, rest);
  }

  /** Step `k` is written after all the helpers and right behind the steps before it. */
  lemma StepPlaced(globalCode: seq<string>, helpers: seq<FunctionDef>, steps: seq<ShellTestStep>, k: nat)
    requires k < |steps|
    ensures exists after :: ScriptLines(globalCode, helpers, steps)
                            == Texts(globalCode) + [Code("")] + FlatMap(helpers, HelperLines) + FlatMap(steps[..k], StepLines) + StepLines(steps[k]) + after
  {
    var pre := Texts(globalCode) + [Code("")] + FlatMap(helpers, HelperLines);
    var a, b, c := FlatMap(steps[..k], StepLines), StepLines(steps[k]), FlatMap(steps[k + 1..], StepLines);
    var rest := [Code(AllPassed), Code(ExitZero)];
    assert ScriptLines(globalCode, helpers, steps) == pre + FlatMap(steps, StepLines) + rest;
    FlatMapSplit(steps, k, StepLines);
    Regroup(pre, a, b, c, rest);
  }

  lemma Regroup<T>(pre: seq<T>, a: seq<T>, b: seq<T>, c: seq<T>, rest: seq<T>)
    ensures pre + (a + b + c) + rest == pre + a + b + (c + rest)
  {
  }

  /** A call is one line: its name, a space, then its arguments each in double quotes,
      separated by spaces; without arguments the line ends with the space. */
  lemma CallLineWords(name: string, args: seq<string>)
    requires ' ' !in name
    requires forall k :: 0 <= k < |args| ==> ' ' !in args[k]
    ensures |NodeLines(FunctionCall(name, args))| == 1
    ensures NodeLines(FunctionCall(name, args))[0].Code?
    ensures SplitOn(NodeLines(FunctionCall(name, args))[0].line, ' ')
            == [name] + (if args == [] then [""] else Quoted(args))
  {
    var q := Quoted(args);
    SplitPrefix(name, Join(" ", q), ' ');
    assert name + " " + Join(" ", q) == name + [' '] + Join(" ", q);
    if args != [] {
      forall k | 0 <= k < |q| ensures ' ' !in q[k] {
        assert q[k] == "\"" + args[k] + "\"";
      }
      SplitJoin(q, ' ');
    }
  }

  /** The code lines of an inline action are written as they are, right behind the step's
      comment and the lines of the actions before it. */
  lemma InlineVerbatim(st: ShellTestStep, j: nat)
    requires j < |st.actions| && st.actions[j].Inline?
    ensures exists after :: StepLines(st)
                            == [Code("# Test step: " + st.name)] + FlatMap(st.actions[..j], NodeLines) + st.actions[j].codeLines + after
  {
    var a, b, c := FlatMap(st.actions[..j], NodeLines), NodeLines(st.actions[j]), FlatMap(st.actions[j + 1..], NodeLines);
    var rest := FlatMap(st.validations, NodeLines) + [Code("")];
    FlatMapSplit(st.actions, j, NodeLines);
    Regroup([Code("# Test step: " + st.name)], a, b, c, rest);
  }
}
