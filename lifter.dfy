/** `ShellFrameworkLifter` and `is_global_validation`: validation checks of global scope
    are taken out of inline code and follow it as standalone actions. */
module Lifter {
  import opened Basics
  import opened Seqs
  import opened ShellFramework

  /** A validation node as `is_global_validation` sees it: which of the attributes
      `scope`, `left`/`right` and `child` it has. */
  datatype ValidationNode = ValidationNode(scope: Option<string>, left: Option<ValidationNode>,
                                           right: Option<ValidationNode>, child: Option<ValidationNode>)

  /** `is_global_validation` (and the lifter's `_is_global_validation`, the same code): a
      scope decides first; a node with both sides is global when both are; a negation
      when its child is; anything else is local. */
  predicate IsGlobalValidation(node: ValidationNode)
    decreases node
  {
    if node.scope.Some? then node.scope.value == "global"
    else if node.left.Some? && node.right.Some? then IsGlobalValidation(node.left.value) && IsGlobalValidation(node.right.value)
    else if node.child.Some? then IsGlobalValidation(node.child.value)
    else false
  }

  /** A compound without its own scope is global exactly when both sides are, a negation
      exactly when its child is, and a node with none of the attributes is local. */
  lemma GlobalCompound(l: ValidationNode, r: ValidationNode, c: Option<ValidationNode>, x: ValidationNode)
    ensures IsGlobalValidation(ValidationNode(None, Some(l), Some(r), c)) <==> IsGlobalValidation(l) && IsGlobalValidation(r)
    ensures IsGlobalValidation(ValidationNode(None, None, None, Some(x))) <==> IsGlobalValidation(x)
    ensures !IsGlobalValidation(ValidationNode(None, None, None, None))
  {
  }

  /** The node a validation check is: it has a scope and nothing else. */
  function CheckNode(v: ValidationCheck): ValidationNode {
    ValidationNode(Some(v.scope), None, None, None)
  }

  /** A code line the lifter takes out: a validation check that is global. */
  function IsLifted(l: CodeLine): bool {
    l.CheckLine? && IsGlobalValidation(CheckNode(l.check))
  }

  function StaysLocal(l: CodeLine): bool {
    !IsLifted(l)
  }

  /** The lifted checks, as standalone actions, in order. */
  function LiftedChecks(lines: seq<CodeLine>): (r: seq<Node>)
    ensures |r| == |Retain(lines, IsLifted)|
    ensures forall i :: 0 <= i < |r| ==> Retain(lines, IsLifted)[i].CheckLine? && r[i] == Check(Retain(lines, IsLifted)[i].check)
  {
    var g := Retain(lines, IsLifted);
    forall i | 0 <= i < |g| ensures g[i].CheckLine? {
      RetainPasses(lines, IsLifted, g[i]);
    }
    seq(|g|, i requires 0 <= i < |g| => Check(g[i].check))
  }

  /** `_process_inline_shell_code` on the lines of one inline block: the block with the
      lines that stay (left out when none stays), then the lifted checks. */
  function Processed(lines: seq<CodeLine>): seq<Node> {
    var local := Retain(lines, StaysLocal);
    (if local != [] then [Inline(local)] else []) + LiftedChecks(lines)
  }

  /** `_process_inline_shell_code`, with its loop. */
  method ProcessInlineShellCode(lines: seq<CodeLine>) returns (result: seq<Node>)
    ensures result == Processed(lines)
  {
    var actionLines: seq<CodeLine> := [];
    var validationLines: seq<CodeLine> := [];
    for i := 0 to |lines|
      invariant actionLines == Retain(lines[..i], StaysLocal)
      invariant validationLines == Retain(lines[..i], IsLifted)
    {
      assert lines[..i + 1] != [] && Pop(lines[..i + 1]) == lines[..i] && Top(lines[..i + 1]) == lines[i];
      var line := lines[i];
      if line.CheckLine? {
        if IsGlobalValidation(CheckNode(line.check)) {
          validationLines := validationLines + [line];
        } else {
          actionLines := actionLines + [line];
        }
      } else {
        actionLines := actionLines + [line];
      }
    }
    assert lines[..|lines|] == lines;
    result := [];
    if actionLines != [] {
      result := result + [Inline(actionLines)];
    }
    ghost var head := result;
    for j := 0 to |validationLines|
      invariant result == head + LiftedChecks(lines)[..j]
    {
      assert validationLines[j].CheckLine? by {
        RetainPasses(lines, IsLifted, validationLines[j]);
      }
      assert LiftedChecks(lines)[..j + 1] == LiftedChecks(lines)[..j] + [Check(validationLines[j].check)];
      result := result + [Check(validationLines[j].check)];
    }
    assert LiftedChecks(lines)[..|validationLines|] == LiftedChecks(lines);
  }

  /** Lifting splits the lines: each line stays or is lifted, none is lost or added. */
  lemma {:induction false} ProcessedPartition(lines: seq<CodeLine>)
    ensures |Retain(lines, StaysLocal)| + |LiftedChecks(lines)| == |lines|
    ensures forall l :: l in Retain(lines, StaysLocal) <==> l in lines && !IsLifted(l)
  {
    RetainSplit(lines);
    RetainMembers(lines, StaysLocal);
  }

  lemma {:induction false} RetainSplit(lines: seq<CodeLine>)
    ensures |Retain(lines, StaysLocal)| + |Retain(lines, IsLifted)| == |lines|
  {
    if lines != [] {
      RetainSplit(Pop(lines));
    }
  }

  /** The new action list of one step: inline blocks processed, other actions kept. */
  function LiftActions(actions: seq<Node>): seq<Node> {
    if actions == [] then [] else LiftActions(Pop(actions)) + LiftOne(Top(actions))
  }

  /** What one action becomes. */
  function LiftOne(n: Node): seq<Node> {
    if n.Inline? then Processed(n.codeLines) else [n]
  }

  /** Steps have their actions lifted; names and validations stay. */
  function LiftSteps(steps: seq<ShellTestStep>): (r: seq<ShellTestStep>)
    ensures |r| == |steps|
    ensures forall s :: 0 <= s < |r| ==> r[s] == steps[s].(actions := LiftActions(steps[s].actions))
  {
    seq(|steps|, s requires 0 <= s < |steps| => steps[s].(actions := LiftActions(steps[s].actions)))
  }

  /** `ShellFrameworkLifter(ast).lift()`, with its index loop over each step's actions. */
  method Lift(ast: FrameworkAst)
    modifies ast
    ensures ast.steps == LiftSteps(old(ast.steps))
    ensures ast.helpers == old(ast.helpers) && ast.globalCode == old(ast.globalCode)
  {
    ghost var steps0 := ast.steps;
    for s := 0 to |ast.steps|
      invariant |ast.steps| == |steps0|
      invariant forall k :: 0 <= k < s ==> ast.steps[k] == LiftSteps(steps0)[k]
      invariant forall k :: s <= k < |steps0| ==> ast.steps[k] == steps0[k]
      invariant ast.helpers == old(ast.helpers) && ast.globalCode == old(ast.globalCode)
    {
      var step := ast.steps[s];
      var newActions: seq<Node> := [];
      ghost var before := ast.steps;
      var i := 0;
      while i < |step.actions|
        invariant 0 <= i <= |step.actions|
        invariant newActions == LiftActions(step.actions[..i])
        invariant ast.steps == before && ast.helpers == old(ast.helpers) && ast.globalCode == old(ast.globalCode)
      {
        var action := step.actions[i];
        assert step.actions[..i + 1] != [] && Pop(step.actions[..i + 1]) == step.actions[..i];
        assert Top(step.actions[..i + 1]) == action;
        if action.Inline? {
          var lifted := ProcessInlineShellCode(action.codeLines);
          assert lifted == LiftOne(action);
          newActions := newActions + lifted;
        } else {
          newActions := newActions + [action];
        }
        i := i + 1;
      }
      assert step.actions[..|step.actions|] == step.actions;
      ast.steps := ast.steps[s := step.(actions := newActions)];
    }
  }

  /** Lifting distributes over concatenation. */
  lemma {:induction false} LiftAppend(a: seq<Node>, b: seq<Node>)
    ensures LiftActions(a + b) == LiftActions(a) + LiftActions(b)
    decreases |b|
  {
    if b == [] {
      AppendNil(a);
    } else {
      var pb, t := Pop(b), Top(b);
      var la, lp, lt := LiftActions(a), LiftActions(pb), LiftOne(t);
      PopAppend(a, b);
      LiftAppend(a, pb);
      assert LiftActions(a + b) == (la + lp) + lt;
      AppendAssoc(la, lp, lt);
    }
  }

  /** Actions that are not inline code pass through unchanged. */
  lemma {:induction false} LiftKeepsOthers(actions: seq<Node>)
    requires forall i :: 0 <= i < |actions| ==> !actions[i].Inline?
    ensures LiftActions(actions) == actions
  {
    if actions != [] {
      var p := Pop(actions);
      assert forall i :: 0 <= i < |p| ==> p[i] == actions[i];
      LiftKeepsOthers(p);
      PopTop(actions);
    }
  }

  /** Lifting once is enough: the lifted list lifts to itself. */
  lemma {:induction false} LiftIdempotent(actions: seq<Node>)
    ensures LiftActions(LiftActions(actions)) == LiftActions(actions)
  {
    if actions != [] {
      var p, t := Pop(actions), Top(actions);
      LiftIdempotent(p);
      LiftAppend(LiftActions(p), LiftOne(t));
      LiftOneStable(t);
    }
  }

  /** What one action becomes is lifted to itself. */
  lemma LiftOneStable(n: Node)
    ensures LiftActions(LiftOne(n)) == LiftOne(n)
  {
    if n.Inline? {
      ProcessedStable(n.codeLines);
    } else {
      LiftSingle(n);
    }
  }

  /** A processed block is lifted to itself. */
  lemma ProcessedStable(lines: seq<CodeLine>)
    ensures LiftActions(Processed(lines)) == Processed(lines)
  {
    var local := Retain(lines, StaysLocal);
    var checks := LiftedChecks(lines);
    LiftKeepsOthers(checks);
    if local != [] {
      forall i | 0 <= i < |local| ensures StaysLocal(local[i]) {
        RetainPasses(lines, StaysLocal, local[i]);
      }
      RetainAllKept(local, StaysLocal);
      NoneLifted(local);
      LiftSingle(Inline(local));
      LiftAppend([Inline(local)], checks);
    } else {
      assert Processed(lines) == checks;
    }
  }

  /** Lines that all stay local: nothing is lifted. */
  lemma {:induction false} NoneLifted(lines: seq<CodeLine>)
    requires forall i :: 0 <= i < |lines| ==> StaysLocal(lines[i])
    ensures Retain(lines, IsLifted) == []
  {
    if lines != [] {
      var p := Pop(lines);
      assert forall i :: 0 <= i < |p| ==> p[i] == lines[i];
      NoneLifted(p);
    }
  }

  lemma LiftSingle(n: Node)
    ensures LiftActions([n]) == LiftOne(n)
  {
    assert Pop([n]) == [] && Top([n]) == n;
  }
}
