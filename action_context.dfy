/** `validate_action_context` of the compiler's pattern helpers: an action context (a
    dictionary) is checked for its two required fields, for a known handler, for the
    variables its requirements name, and for variable values that must match a rule's
    pattern. The errors are collected in order; a Python exception ends the check. */
module ActionContext {
  import opened Basics
  import opened Text
  import opened OrderedDict
  import opened PyValue
  import Seqs

  /** What the check consults outside the context: whether `handler_requirements.yml`
      lists a handler (`validate_handler_name`, which turns every exception into `False`),
      `re.match(pattern, value)` as a truth value or the exception it raises, and
      `str()` of a list, tuple or dict. */
  datatype Config = Config(knownHandler: Value -> bool,
                           rematch: (Value, Value) -> Result<bool>,
                           repr: Value -> string)

  type Context = ODict<string, Value>

  /** `str(v)` as an f-string shows it. */
  function Str(cfg: Config, v: Value): string {
    match v
    case VStr(s) => s
    case VNone => "None"
    case VBool(b) => if b then "True" else "False"
    case VInt(i) => IntToString(i)
    case _ => cfg.repr(v)
  }

  const RequiredFields := ["action", "handler"]

  function MissingField(field: string): string {
    "Missing required field: " + field
  }

  function InvalidHandler(shown: string): string {
    "Invalid handler name: " + shown
  }

  function RequiresVariable(handler: string, name: string): string {
    "Handler " + handler + " requires '" + name + "' variable"
  }

  function Mismatch(name: string, value: string, pattern: string): string {
    "Variable '" + name + "' value '" + value + "' doesn't match pattern '" + pattern + "'"
  }

  /** The errors of the loop over the required fields. */
  function FieldErrors(ctx: Context, fields: seq<string>): seq<string> {
    if fields == [] then []
    else FieldErrors(ctx, Pop(fields)) + (if HasKey(ctx, Top(fields)) then [] else [MissingField(Top(fields))])
  }

  /** The error for a handler that `handler_requirements.yml` does not list. */
  function HandlerErrors(cfg: Config, ctx: Context): seq<string> {
    match Get(ctx, "handler")
    case Some(h) => if cfg.knownHandler(h) then [] else [InvalidHandler(Str(cfg, h))]
    case None => []
  }

  /** `v.get(key, default)`, which only a dict has. */
  function MethodGet(v: Value, key: string, default: Value): (r: Result<Value>)
    ensures r.Ok? <==> v.VDict?
  {
    if v.VDict? then Ok(GetOr(v.entries, key, default)) else Fail(NoAttribute(v, "get"))
  }

  /** `container[key]` for a string key. */
  function Subscript(container: Value, key: string): Result<Value> {
    match container
    case VDict(e) => if HasKey(e, key) then Ok(GetOr(e, key, VNone)) else Fail(KeyError(key))
    case VList(_) => Fail(TypeError("list indices must be integers or slices, not str"))
    case VTuple(_) => Fail(TypeError("tuple indices must be integers or slices, not str"))
    case VStr(_) => Fail(TypeError("string indices must be integers, not 'str'"))
    case _ => Fail(TypeError("'" + TypeName(container) + "' object is not subscriptable"))
  }

  /** The errors of the loop over `required_variables`. */
  function RequiredErrors(cfg: Config, handler: string, variables: Value, names: seq<Value>): Result<seq<string>> {
    if names == [] then Ok([])
    else
      var done :- RequiredErrors(cfg, handler, variables, Pop(names));
      var present :- PyContains(variables, Top(names));
      Ok(done + (if present then [] else [RequiresVariable(handler, Str(cfg, Top(names)))]))
  }

  /** The errors the rule for one variable gives: none without a rule or with an empty
      pattern, one when the value does not match. */
  function RuleError(cfg: Config, rules: Value, name: string, value: Value): Result<seq<string>> {
    var known :- PyContains(rules, VStr(name));
    if !known then Ok([])
    else
      var rule :- Subscript(rules, name);
      var pattern :- MethodGet(rule, "pattern", VStr(""));
      if !Truthy(pattern) then Ok([])
      else
        var matched :- cfg.rematch(pattern, value);
        Ok(if matched then [] else [Mismatch(name, Str(cfg, value), Str(cfg, pattern))])
  }

  /** The errors of the loop over `variables.items()`. */
  function RuleErrors(cfg: Config, rules: Value, items: ODict<string, Value>): Result<seq<string>> {
    if items == [] then Ok([])
    else
      var done :- RuleErrors(cfg, rules, Pop(items));
      var more :- RuleError(cfg, rules, Top(items).0, Top(items).1);
      Ok(done + more)
  }

  /** `validate_action_context(context)`: `(len(errors) == 0, errors)`, or the exception. */
  function Validated(cfg: Config, ctx: Context): (r: Result<(bool, seq<string>)>)
    ensures r.Ok? ==> (r.value.0 <==> r.value.1 == [])
  {
    var requirements := GetOr(ctx, "requirements", VDict([]));
    var variables := GetOr(ctx, "variables", VDict([]));
    var rules :- MethodGet(requirements, "validation_rules", VDict([]));
    // `requirements` is a dict once its first `get` has succeeded
    var names := GetOr(requirements.entries, "required_variables", VList([]));
    var nameList :- Iterate(names);
    var missing :- RequiredErrors(cfg, Str(cfg, GetOr(ctx, "handler", VStr("unknown"))), variables, nameList);
    var items :- if variables.VDict? then Ok(variables.entries) else Fail(NoAttribute(variables, "items"));
    var mismatched :- RuleErrors(cfg, rules, items);
    var errors := FieldErrors(ctx, RequiredFields) + HandlerErrors(cfg, ctx) + missing + mismatched;
    Ok((errors == [], errors))
  }

  // ----- the check as the source runs it -----

  method ValidateActionContext(cfg: Config, ctx: Context) returns (r: Result<(bool, seq<string>)>)
    ensures r == Validated(cfg, ctx)
  {
    var errors: seq<string> := [];
    for i := 0 to |RequiredFields|
      invariant errors == FieldErrors(ctx, RequiredFields[..i])
    {
      assert Pop(RequiredFields[..i + 1]) == RequiredFields[..i];
      if !HasKey(ctx, RequiredFields[i]) {
        errors := errors + [MissingField(RequiredFields[i])];
      }
    }
    assert RequiredFields[..2] == RequiredFields;
    if HasKey(ctx, "handler") && !cfg.knownHandler(GetOr(ctx, "handler", VNone)) {
      errors := errors + [InvalidHandler(Str(cfg, GetOr(ctx, "handler", VNone)))];
    }
    assert errors == FieldErrors(ctx, RequiredFields) + HandlerErrors(cfg, ctx);
    var requirements := GetOr(ctx, "requirements", VDict([]));
    var variables := GetOr(ctx, "variables", VDict([]));
    var rules := MethodGet(requirements, "validation_rules", VDict([]));
    if rules.Fail? {
      return Fail(rules.exc);
    }
    var names := MethodGet(requirements, "required_variables", VList([]));
    var nameList := Iterate(names.value);
    if nameList.Fail? {
      return Fail(nameList.exc);
    }
    var missing := CheckRequired(cfg, Str(cfg, GetOr(ctx, "handler", VStr("unknown"))), variables, nameList.value);
    if missing.Fail? {
      return Fail(missing.exc);
    }
    if !variables.VDict? {
      return Fail(NoAttribute(variables, "items"));
    }
    var mismatched := CheckRules(cfg, rules.value, variables.entries);
    if mismatched.Fail? {
      return Fail(mismatched.exc);
    }
    errors := errors + missing.value + mismatched.value;
    return Ok((|errors| == 0, errors));
  }

  /** The loop over `required_variables`, with the errors it appends. */
  method CheckRequired(cfg: Config, handler: string, variables: Value, names: seq<Value>)
    returns (r: Result<seq<string>>)
    ensures r == RequiredErrors(cfg, handler, variables, names)
  {
    var errors: seq<string> := [];
    for i := 0 to |names|
      invariant RequiredErrors(cfg, handler, variables, names[..i]) == Ok(errors)
    {
      PrefixPopTop(names, i);
      var present := PyContains(variables, names[i]);
      if present.Fail? {
        RequiredFailsLater(cfg, handler, variables, names, i + 1);
        return Fail(present.exc);
      }
      if !present.value {
        errors := errors + [RequiresVariable(handler, Str(cfg, names[i]))];
      } else {
        assert errors + [] == errors;
      }
    }
    assert names[..|names|] == names;
    return Ok(errors);
  }

  /** The loop over `variables.items()`, with the errors it appends. */
  method CheckRules(cfg: Config, rules: Value, items: ODict<string, Value>) returns (r: Result<seq<string>>)
    ensures r == RuleErrors(cfg, rules, items)
  {
    var errors: seq<string> := [];
    for i := 0 to |items|
      invariant RuleErrors(cfg, rules, items[..i]) == Ok(errors)
    {
      PrefixPopTop(items, i);
      var more := RuleError(cfg, rules, items[i].0, items[i].1);
      if more.Fail? {
        RulesFailLater(cfg, rules, items, i + 1);
        return Fail(more.exc);
      }
      errors := errors + more.value;
    }
    assert items[..|items|] == items;
    return Ok(errors);
  }

  /** An exception on some variable ends the loop with that exception. */
  lemma {:induction false} RequiredFailsLater(cfg: Config, handler: string, variables: Value, names: seq<Value>, k: nat)
    requires k <= |names| && RequiredErrors(cfg, handler, variables, names[..k]).Fail?
    ensures RequiredErrors(cfg, handler, variables, names) == RequiredErrors(cfg, handler, variables, names[..k])
    decreases |names| - k
  {
    if k == |names| {
      assert names[..k] == names;
    } else {
      assert Pop(names[..k + 1]) == names[..k];
      RequiredFailsLater(cfg, handler, variables, names, k + 1);
    }
  }

  lemma {:induction false} RulesFailLater(cfg: Config, rules: Value, items: ODict<string, Value>, k: nat)
    requires k <= |items| && RuleErrors(cfg, rules, items[..k]).Fail?
    ensures RuleErrors(cfg, rules, items) == RuleErrors(cfg, rules, items[..k])
    decreases |items| - k
  {
    if k == |items| {
      assert items[..k] == items;
    } else {
      assert Pop(items[..k + 1]) == items[..k];
      RulesFailLater(cfg, rules, items, k + 1);
    }
  }

  // ----- what the errors say -----

  /** Every message of `es` opens with the character `c`. */
  predicate Headed(es: seq<string>, c: char) {
    forall i :: 0 <= i < |es| ==> es[i] != [] && es[i][0] == c
  }

  lemma {:induction false} FieldErrorsHeaded(ctx: Context, fields: seq<string>)
    ensures Headed(FieldErrors(ctx, fields), 'M')
  {
    if fields != [] {
      FieldErrorsHeaded(ctx, Pop(fields));
    }
  }

  lemma {:induction false} RequiredErrorsHeaded(cfg: Config, handler: string, variables: Value, names: seq<Value>)
    requires RequiredErrors(cfg, handler, variables, names).Ok?
    ensures Headed(RequiredErrors(cfg, handler, variables, names).value, 'H')
  {
    if names != [] {
      RequiredErrorsHeaded(cfg, handler, variables, Pop(names));
    }
  }

  lemma {:induction false} RuleErrorsHeaded(cfg: Config, rules: Value, items: ODict<string, Value>)
    requires RuleErrors(cfg, rules, items).Ok?
    ensures Headed(RuleErrors(cfg, rules, items).value, 'V')
  {
    if items != [] {
      RuleErrorsHeaded(cfg, rules, Pop(items));
      var done := RuleErrors(cfg, rules, Pop(items)).value;
      var more := RuleError(cfg, rules, Top(items).0, Top(items).1).value;
      assert RuleErrors(cfg, rules, items).value == done + more;
      RuleErrorHeaded(cfg, rules, Top(items).0, Top(items).1);
      HeadedAppend(done, more, 'V');
    }
  }

  lemma RuleErrorHeaded(cfg: Config, rules: Value, name: string, value: Value)
    requires RuleError(cfg, rules, name, value).Ok?
    ensures Headed(RuleError(cfg, rules, name, value).value, 'V')
  {
    if RuleError(cfg, rules, name, value).value != [] {
      RuleErrorFound(cfg, rules, name, value);
    }
  }

  lemma HeadedAppend(a: seq<string>, b: seq<string>, c: char)
    requires Headed(a, c) && Headed(b, c)
    ensures Headed(a + b, c)
  {
    forall i | 0 <= i < |a + b|
      ensures (a + b)[i] != [] && (a + b)[i][0] == c
    {
      if i >= |a| {
        assert (a + b)[i] == b[i - |a|];
      }
    }
  }

  lemma MissingFieldInjective(a: string, b: string)
    requires MissingField(a) == MissingField(b)
    ensures a == b
  {
    var k := |MissingField("")|;
    assert a == MissingField(a)[k..] && b == MissingField(b)[k..];
  }

  /** A field's error is among those of the field loop exactly when the field is checked
      and absent from the context. */
  lemma {:induction false} FieldErrorsReport(ctx: Context, fields: seq<string>, f: string)
    ensures MissingField(f) in FieldErrors(ctx, fields) <==> f in fields && !HasKey(ctx, f)
  {
    if fields != [] {
      FieldErrorsReport(ctx, Pop(fields), f);
      PopTop(fields);
      if MissingField(f) == MissingField(Top(fields)) {
        MissingFieldInjective(f, Top(fields));
      }
    }
  }

  /** `"Missing required field: action"` and `"Missing required field: handler"` are
      reported exactly for the fields the context lacks, and by no other check. */
  lemma ValidatedReportsField(cfg: Config, ctx: Context, f: string)
    requires Validated(cfg, ctx).Ok?
    ensures MissingField(f) in Validated(cfg, ctx).value.1 <==> (f == "action" || f == "handler") && !HasKey(ctx, f)
  {
    var requirements := GetOr(ctx, "requirements", VDict([]));
    var variables := GetOr(ctx, "variables", VDict([]));
    var rules := MethodGet(requirements, "validation_rules", VDict([])).value;
    var names := GetOr(requirements.entries, "required_variables", VList([]));
    var nameList := Iterate(names).value;
    var handler := Str(cfg, GetOr(ctx, "handler", VStr("unknown")));
    var missing := RequiredErrors(cfg, handler, variables, nameList).value;
    var mismatched := RuleErrors(cfg, rules, variables.entries).value;
    var fields := FieldErrors(ctx, RequiredFields);
    var handlers := HandlerErrors(cfg, ctx);
    assert Validated(cfg, ctx).value.1 == fields + handlers + missing + mismatched;
    var m := MissingField(f);
    assert m[0] == 'M';
    RequiredErrorsHeaded(cfg, handler, variables, nameList);
    RuleErrorsHeaded(cfg, rules, variables.entries);
    assert m !in handlers;
    assert m !in missing;
    assert m !in mismatched;
    FieldErrorsReport(ctx, RequiredFields, f);
  }

  lemma RequiresVariableInjective(handler: string, a: string, b: string)
    requires RequiresVariable(handler, a) == RequiresVariable(handler, b)
    ensures a == b
  {
    var k := |"Handler " + handler + " requires '"|;
    var ma, mb := RequiresVariable(handler, a), RequiresVariable(handler, b);
    assert a == ma[k..|ma| - 10] && b == mb[k..|mb| - 10];
  }

  /** A required variable is missing when `name in variables` is false. */
  predicate Lacks(variables: Value, name: Value) {
    PyContains(variables, name) == Ok(false)
  }

  /** The loop over `required_variables` reports a name exactly when some listed entry
      that reads as that name is not among the variables. */
  lemma {:induction false} RequiredReport(cfg: Config, handler: string, variables: Value, names: seq<Value>, n: string)
    requires RequiredErrors(cfg, handler, variables, names).Ok?
    ensures RequiresVariable(handler, n) in RequiredErrors(cfg, handler, variables, names).value
            <==> exists j :: 0 <= j < |names| && Lacks(variables, names[j]) && Str(cfg, names[j]) == n
  {
    if names != [] {
      RequiredReport(cfg, handler, variables, Pop(names), n);
      RequiredReportStep(cfg, handler, variables, names, n);
      Seqs.ExistsFromSnoc(names, 0, (v: Value) => Lacks(variables, v) && Str(cfg, v) == n);
    }
  }

  /** The last name adds its own error to those of the names before it. */
  lemma RequiredReportStep(cfg: Config, handler: string, variables: Value, names: seq<Value>, n: string)
    requires names != [] && RequiredErrors(cfg, handler, variables, names).Ok?
    ensures RequiredErrors(cfg, handler, variables, Pop(names)).Ok?
    ensures RequiresVariable(handler, n) in RequiredErrors(cfg, handler, variables, names).value
            <==> RequiresVariable(handler, n) in RequiredErrors(cfg, handler, variables, Pop(names)).value
                 || (Lacks(variables, Top(names)) && Str(cfg, Top(names)) == n)
  {
    var last := Top(names);
    if RequiresVariable(handler, n) == RequiresVariable(handler, Str(cfg, last)) {
      RequiresVariableInjective(handler, n, Str(cfg, last));
    }
  }

  /** For a list of `required_variables`, `"Handler … requires '…' variable"` is reported
      exactly for the listed names that the context's variables lack. */
  lemma ValidatedReportsVariable(cfg: Config, ctx: Context, req: ODict<string, Value>, names: seq<Value>, n: string)
    requires Validated(cfg, ctx).Ok?
    requires GetOr(ctx, "requirements", VDict([])) == VDict(req)
    requires GetOr(req, "required_variables", VList([])) == VList(names)
    ensures var handler := Str(cfg, GetOr(ctx, "handler", VStr("unknown")));
            var variables := GetOr(ctx, "variables", VDict([]));
            RequiresVariable(handler, n) in Validated(cfg, ctx).value.1
            <==> exists j :: 0 <= j < |names| && Lacks(variables, names[j]) && Str(cfg, names[j]) == n
  {
    var variables := GetOr(ctx, "variables", VDict([]));
    var rules := MethodGet(VDict(req), "validation_rules", VDict([])).value;
    var handler := Str(cfg, GetOr(ctx, "handler", VStr("unknown")));
    var missing := RequiredErrors(cfg, handler, variables, names).value;
    var mismatched := RuleErrors(cfg, rules, variables.entries).value;
    var fields := FieldErrors(ctx, RequiredFields);
    var handlers := HandlerErrors(cfg, ctx);
    assert Validated(cfg, ctx).value.1 == fields + handlers + missing + mismatched;
    var m := RequiresVariable(handler, n);
    assert m[0] == 'H';
    FieldErrorsHeaded(ctx, RequiredFields);
    RuleErrorsHeaded(cfg, rules, variables.entries);
    assert m !in fields;
    assert m !in handlers;
    assert m !in mismatched;
    RequiredReport(cfg, handler, variables, names, n);
  }

  /** The rule of `name` demands `pattern`, which is not empty and which `value` does not match. */
  predicate Violates(cfg: Config, rules: Value, name: string, value: Value, pattern: Value) {
    rules.VDict? && HasKey(rules.entries, name)
    && GetOr(rules.entries, name, VNone).VDict?
    && GetOr(GetOr(rules.entries, name, VNone).entries, "pattern", VStr("")) == pattern
    && Truthy(pattern) && cfg.rematch(pattern, value) == Ok(false)
  }

  /** One variable gives one mismatch error exactly when it violates its rule, and none otherwise. */
  lemma RuleErrorReport(cfg: Config, rules: Value, name: string, value: Value)
    requires RuleError(cfg, rules, name, value).Ok?
    ensures var es := RuleError(cfg, rules, name, value).value;
            es == [] || exists p :: Violates(cfg, rules, name, value, p) && es == [Mismatch(name, Str(cfg, value), Str(cfg, p))]
    ensures forall p :: Violates(cfg, rules, name, value, p) ==> RuleError(cfg, rules, name, value).value == [Mismatch(name, Str(cfg, value), Str(cfg, p))]
  {
    if RuleError(cfg, rules, name, value).value != [] {
      RuleErrorFound(cfg, rules, name, value);
    }
    forall p | Violates(cfg, rules, name, value, p)
      ensures RuleError(cfg, rules, name, value).value == [Mismatch(name, Str(cfg, value), Str(cfg, p))]
    {
      RuleErrorViolated(cfg, rules, name, value, p);
    }
  }

  /** A variable with an error has a rule whose pattern it violates, and that is the error. */
  lemma RuleErrorFound(cfg: Config, rules: Value, name: string, value: Value)
    requires RuleError(cfg, rules, name, value).Ok? && RuleError(cfg, rules, name, value).value != []
    ensures rules.VDict? && HasKey(rules.entries, name) && GetOr(rules.entries, name, VNone).VDict?
    ensures var p := GetOr(GetOr(rules.entries, name, VNone).entries, "pattern", VStr(""));
            Violates(cfg, rules, name, value, p)
            && RuleError(cfg, rules, name, value).value == [Mismatch(name, Str(cfg, value), Str(cfg, p))]
  {
    var known := PyContains(rules, VStr(name));
    assert known.Ok? && known.value;
    var rule := Subscript(rules, name);
    assert rule.Ok?;
    assert rules.VDict? && HasKey(rules.entries, name);
    var pattern := MethodGet(rule.value, "pattern", VStr(""));
    assert pattern.Ok? && Truthy(pattern.value);
  }

  /** A variable that violates its rule gets exactly the mismatch error. */
  lemma RuleErrorViolated(cfg: Config, rules: Value, name: string, value: Value, p: Value)
    requires Violates(cfg, rules, name, value, p)
    ensures RuleError(cfg, rules, name, value) == Ok([Mismatch(name, Str(cfg, value), Str(cfg, p))])
  {
    assert PyContains(rules, VStr(name)) == Ok(true);
    assert Subscript(rules, name) == Ok(GetOr(rules.entries, name, VNone));
  }

  /** Every error of the rule loop is the mismatch of some variable against its rule. */
  lemma {:induction false} RuleErrorsSound(cfg: Config, rules: Value, items: ODict<string, Value>, k: nat)
    requires RuleErrors(cfg, rules, items).Ok? && k < |RuleErrors(cfg, rules, items).value|
    ensures exists j, p :: 0 <= j < |items| && Violates(cfg, rules, items[j].0, items[j].1, p)
              && RuleErrors(cfg, rules, items).value[k] == Mismatch(items[j].0, Str(cfg, items[j].1), Str(cfg, p))
  {
    var front := Pop(items);
    var done := RuleErrors(cfg, rules, front).value;
    var last := |items| - 1;
    assert items[last] == Top(items);
    assert forall j :: 0 <= j < last ==> items[j] == front[j];
    if k < |done| {
      RuleErrorsSound(cfg, rules, front, k);
      var j, p :| 0 <= j < |front| && Violates(cfg, rules, front[j].0, front[j].1, p)
              && done[k] == Mismatch(front[j].0, Str(cfg, front[j].1), Str(cfg, p));
      assert items[j] == front[j];
    } else {
      RuleErrorReport(cfg, rules, Top(items).0, Top(items).1);
      var p :| Violates(cfg, rules, items[last].0, items[last].1, p)
              && RuleError(cfg, rules, items[last].0, items[last].1).value == [Mismatch(items[last].0, Str(cfg, items[last].1), Str(cfg, p))];
    }
  }

  /** A variable that violates its rule is reported. */
  lemma {:induction false} RuleErrorsComplete(cfg: Config, rules: Value, items: ODict<string, Value>, j: nat, p: Value)
    requires RuleErrors(cfg, rules, items).Ok? && j < |items| && Violates(cfg, rules, items[j].0, items[j].1, p)
    ensures Mismatch(items[j].0, Str(cfg, items[j].1), Str(cfg, p)) in RuleErrors(cfg, rules, items).value
  {
    var front := Pop(items);
    var last := |items| - 1;
    var done := RuleErrors(cfg, rules, front).value;
    var more := RuleError(cfg, rules, Top(items).0, Top(items).1).value;
    assert RuleErrors(cfg, rules, items).value == done + more;
    var m := Mismatch(items[j].0, Str(cfg, items[j].1), Str(cfg, p));
    if j < last {
      assert items[j] == front[j];
      RuleErrorsComplete(cfg, rules, front, j, p);
      assert m in done;
    } else {
      assert items[j] == Top(items);
      RuleErrorReport(cfg, rules, Top(items).0, Top(items).1);
      assert m in more;
    }
  }
}
