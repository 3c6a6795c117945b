/** The shell-framework AST: helpers (shell functions), test steps whose actions are
    calls, inline code or validation checks, and the global code that opens the script. */
module ShellFramework {
  import opened Basics
  import ShtestAst
  import OrderedDict

  /** `ValidationCheck`; a `None` parameter is one still to be bound. */
  datatype ValidationCheck = ValidationCheck(expected: string, actualCmd: string, handler: string, scope: string,
                                             params: OrderedDict.ODict<string, Option<string>>)

  /** An element of `InlineShellCode.code_lines`: a line of shell code or, before lifting,
      a validation check object. */
  datatype CodeLine = Code(line: string) | CheckLine(check: ValidationCheck)

  /** What a step's `actions` and `validations` lists hold. `Plain` is a parsed `.shtest`
      action; `Other` any other object, known by its `str()`. */
  datatype Node =
    | FunctionCall(name: string, args: seq<string>)
    | Inline(codeLines: seq<CodeLine>)
    | Check(check: ValidationCheck)
    | Plain(action: ShtestAst.Action)
    | Other(text: string)

  datatype FunctionDef = FunctionDef(name: string, params: seq<string>, bodyLines: seq<string>)

  datatype ShellTestStep = ShellTestStep(name: string, actions: seq<Node>, validations: seq<Node>)

  /** `ShellFrameworkAST`, whose lists the lifter and the binder rewrite in place. */
  class FrameworkAst {
    var helpers: seq<FunctionDef>
    var steps: seq<ShellTestStep>
    var globalCode: seq<string>

    constructor (helpers: seq<FunctionDef>, steps: seq<ShellTestStep>, globalCode: seq<string>)
      ensures this.helpers == helpers && this.steps == steps && this.globalCode == globalCode
    {
      this.helpers := helpers;
      this.steps := steps;
      this.globalCode := globalCode;
    }
  }

  /** `getattr(node, 'scope', 'last_action')`: only validation checks have a scope. */
  function ScopeOf(n: Node): string {
    if n.Check? then n.check.scope else "last_action"
  }

  /** `is_global`. */
  predicate IsGlobal(n: Node) {
    ScopeOf(n) == "global"
  }
}
