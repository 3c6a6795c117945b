/** The rule registry of the parser: handler specifications such as `sql_script {1}` or
    `touch {1} {{2}}` turned into handlers that pick their arguments out of a regex match,
    the rules built from the (pattern, handler) entries of the simple-rules list, and the
    two handlers that add SQL scripts without repeating one. The regex engine stays
    outside: a handler receives what the match exposes. */
module RuleRegistry {
  import opened Basics
  import opened Seqs
  import opened Text
  import opened OrderedDict
  import HybridRegistry

  /** What a `re.Match` offers a handler: `group(0)`, the capturing groups (a group that
      took no part in the match is `None`) and `lastindex`, the index of the last group
      that matched, `None` when none did. */
  datatype Match = Match(whole: string, groups: seq<Option<string>>, lastIndex: Option<nat>)

  /** `match.group(idx)`. */
  function GroupOf(m: Match, idx: int): (r: Result<Option<string>>)
    ensures r.Fail? <==> idx < 0 || idx > |m.groups|
    ensures r.Fail? ==> r.exc == IndexError("no such group")
    ensures 1 <= idx <= |m.groups| ==> r == Ok(m.groups[idx - 1])
  {
    if idx == 0 then Ok(Some(m.whole))
    else if 1 <= idx <= |m.groups| then Ok(m.groups[idx - 1])
    else Fail(IndexError("no such group"))
  }

  /** A handler: the name looked up in the handler map, and the argument specifications. */
  datatype Handler = Handler(name: string, argSpecs: seq<string>)

  /** The spec parsing of `_make_handler`: the first word names the handler, the others
      are its argument specifications. A blank spec has no first word. */
  function MakeHandler(spec: string): (r: Result<Handler>)
    ensures r.Ok? ==> r.value.name != [] && NoSpace(r.value.name)
    ensures r.Fail? ==> r.exc == IndexError("list index out of range")
  {
    var tokens := SplitWhitespace(spec);
    if tokens == [] then Fail(IndexError("list index out of range"))
    else Ok(Handler(tokens[0], tokens[1..]))
  }

  lemma DoubleBraced(token: string)
    requires StartsWith(token, "{{") && EndsWith(token, "}}")
    ensures |token| >= 4
  {
    assert token[1] == '{' && token[|token| - 2] == '}';
  }

  lemma SingleBraced(token: string)
    requires StartsWith(token, "{") && EndsWith(token, "}")
    ensures |token| >= 2
  {
    assert token[0] == '{' && token[|token| - 1] == '}';
  }

  /** `get_value(match, token)`: `{{n}}` is group `n` when `n` does not pass `lastindex`
      and `None` beyond it; `{n}` is group `n`; any other token is passed as it is. */
  function ArgValue(m: Match, token: string): Result<Option<string>> {
    if StartsWith(token, "{{") && EndsWith(token, "}}") then
      DoubleBraced(token);
      var idx :- ParseInt(token[2..|token| - 2]);
      if m.lastIndex.None? then Fail(TypeError("'<=' not supported between instances of 'int' and 'NoneType'"))
      else if idx <= m.lastIndex.value then GroupOf(m, idx)
      else Ok(None)
    else if StartsWith(token, "{") && EndsWith(token, "}") then
      SingleBraced(token);
      var idx :- ParseInt(token[1..|token| - 1]);
      GroupOf(m, idx)
    else Ok(Some(token))
  }

  /** `[get_value(match, t) for t in arg_specs]`: the first error ends the list. */
  function Args(m: Match, specs: seq<string>): Result<seq<Option<string>>> {
    if specs == [] then Ok([])
    else
      var a :- ArgValue(m, specs[0]);
      var rest :- Args(m, specs[1..]);
      Ok([a] + rest)
  }

  /** The call a handler makes: `handler_map[name](actions, *args)`. */
  datatype Call = Call(name: string, args: seq<Option<string>>)

  /** The handler run on a match, against a handler map with the keys `names`: the
      arguments are computed first, then the name is looked up. */
  function Invoke(names: seq<string>, h: Handler, m: Match): (r: Result<Call>)
    ensures r.Ok? <==> Args(m, h.argSpecs).Ok? && h.name in names
    ensures r.Ok? ==> r.value == Call(h.name, Args(m, h.argSpecs).value)
    ensures Args(m, h.argSpecs).Ok? && h.name !in names ==> r == Fail(KeyError(h.name))
  {
    var args :- Args(m, h.argSpecs);
    if h.name !in names then Fail(KeyError(h.name)) else Ok(Call(h.name, args))
  }

  // ----- spec parsing -----

  /** The spec can be read back from its words: a name and its argument specifications,
      none of them blank or holding whitespace, joined by spaces. */
  lemma MakeHandlerWords(name: string, args: seq<string>)
    requires name != [] && NoSpace(name)
    requires forall k :: 0 <= k < |args| ==> args[k] != [] && NoSpace(args[k])
    ensures MakeHandler(Join(" ", [name] + args)) == Ok(Handler(name, args))
  {
    var words := [name] + args;
    forall k | 0 <= k < |words| ensures words[k] != [] && NoSpace(words[k]) {
      if k > 0 {
        assert words[k] == args[k - 1];
      }
    }
    SplitWhitespaceJoin(words);
    assert words[1..] == args;
  }

  /** A spec makes no handler exactly when it is blank. */
  lemma MakeHandlerBlank(spec: string)
    ensures MakeHandler(spec).Fail? <==> Blank(spec)
  {
    SplitWhitespaceBlank(spec);
  }

  lemma NatText(n: nat)
    ensures ParseInt(NatToString(n)) == Ok(n)
    ensures NatToString(n)[0] != '{' && NatToString(n)[|NatToString(n)| - 1] != '}'
  {
    IntToStringRoundTrip(n);
  }

  /** `{{n}}`: group `n` when `n` is at most `lastindex`, `None` past it. */
  lemma OptionalArg(m: Match, n: nat)
    ensures ArgValue(m, "{{" + NatToString(n) + "}}")
         == if m.lastIndex.None? then Fail(TypeError("'<=' not supported between instances of 'int' and 'NoneType'"))
            else if n <= m.lastIndex.value then GroupOf(m, n)
            else Ok(None)
  {
    var d := NatToString(n);
    var t := "{{" + d + "}}";
    NatText(n);
    assert t[..2] == "{{" && t[|t| - 2..] == "}}";
    assert t[2..|t| - 2] == d;
  }

  /** `{n}`: group `n`. */
  lemma PositionalArg(m: Match, n: nat)
    ensures ArgValue(m, "{" + NatToString(n) + "}") == GroupOf(m, n)
  {
    var d := NatToString(n);
    var t := "{" + d + "}";
    NatText(n);
    assert t[1] == d[0] && t[..1] == "{" && t[|t| - 1..] == "}";
    assert t[1..|t| - 1] == d;
    SingleBraceArg(m, t);
  }

  lemma SingleBraceArg(m: Match, t: string)
    requires |t| >= 2 && t[..1] == "{" && t[|t| - 1..] == "}" && t[1] != '{'
    ensures ArgValue(m, t) == (var idx :- ParseInt(t[1..|t| - 1]); GroupOf(m, idx))
  {
    assert t[..2][1] == t[1];
    assert !StartsWith(t, "{{");
    assert StartsWith(t, "{") && EndsWith(t, "}");
  }

  /** A token that is not enclosed in braces is passed through. */
  lemma LiteralArg(m: Match, token: string)
    requires !StartsWith(token, "{") || !EndsWith(token, "}")
    ensures ArgValue(m, token) == Ok(Some(token))
  {
    BracesNest(token);
  }

  lemma BracesNest(token: string)
    ensures StartsWith(token, "{{") ==> StartsWith(token, "{")
    ensures EndsWith(token, "}}") ==> EndsWith(token, "}")
  {
    if StartsWith(token, "{{") {
      assert token[..1] == token[..2][..1];
    }
    if EndsWith(token, "}}") {
      assert token[|token| - 1..] == token[|token| - 2..][1..];
    }
  }

  /** The argument list has one value per specification, in order, unless one fails. */
  lemma {:induction false} ArgsEach(m: Match, specs: seq<string>)
    ensures Args(m, specs).Ok? <==> forall k :: 0 <= k < |specs| ==> ArgValue(m, specs[k]).Ok?
    ensures Args(m, specs).Ok? ==>
              |Args(m, specs).value| == |specs|
              && forall k :: 0 <= k < |specs| ==> Args(m, specs).value[k] == ArgValue(m, specs[k]).value
  {
    if specs != [] {
      ArgsEach(m, specs[1..]);
      assert forall k :: 1 <= k < |specs| ==> specs[k] == specs[1..][k - 1];
    }
  }

  // ----- load_default_rules -----

  /** A rule: the pattern, compiled ignoring case, and its handler. */
  datatype Rule = Rule(pattern: string, handler: Handler)

  /** The rule of one entry of the simple-rules list. */
  function RuleOf(entry: ODict<string, string>): Result<Rule> {
    var pattern := Get(entry, "pattern");
    if pattern.None? then Fail(KeyError("pattern"))
    else
      var spec := Get(entry, "handler");
      if spec.None? then Fail(KeyError("handler"))
      else
        var h :- MakeHandler(spec.value);
        Ok(Rule(pattern.value, h))
  }

  /** The rules of the entries, or the error of the first entry that has none. */
  function Loaded(entries: seq<ODict<string, string>>): Result<seq<Rule>> {
    Collected(entries, RuleOf)
  }

  /** `load_default_rules`. */
  method LoadDefaultRules(entries: seq<ODict<string, string>>) returns (r: Result<seq<Rule>>)
    ensures r == Loaded(entries)
  {
    var rules: seq<Rule> := [];
    for i := 0 to |entries|
      invariant Collected(entries[..i], RuleOf) == Ok(rules)
    {
      assert Pop(entries[..i + 1]) == entries[..i] && Top(entries[..i + 1]) == entries[i];
      var rule := RuleOf(entries[i]);
      if rule.Fail? {
        CollectedFails(entries, i + 1, RuleOf);
        return Fail(rule.exc);
      }
      rules := rules + [rule.value];
    }
    assert entries[..|entries|] == entries;
    return Ok(rules);
  }

  /** One rule per entry, in order, exactly when every entry has one; otherwise the first
      entry without a rule decides the error. */
  lemma LoadedEach(entries: seq<ODict<string, string>>)
    ensures Loaded(entries).Ok? <==> forall k :: 0 <= k < |entries| ==> RuleOf(entries[k]).Ok?
    ensures Loaded(entries).Ok? ==>
              |Loaded(entries).value| == |entries|
              && forall k :: 0 <= k < |entries| ==> Loaded(entries).value[k] == RuleOf(entries[k]).value
    ensures Loaded(entries).Fail? ==>
              exists k :: FirstFailure(entries, RuleOf, k) && Loaded(entries).exc == RuleOf(entries[k]).exc
  {
    if forall k :: 0 <= k < |entries| ==> RuleOf(entries[k]).Ok? {
      CollectedEach(entries, RuleOf);
    } else {
      var k :| 0 <= k < |entries| && RuleOf(entries[k]).Fail?;
      if Loaded(entries).Ok? {
        CollectedOnlyIfEach(entries, k, RuleOf);
      }
      CollectedFirstFailure(entries, RuleOf);
    }
  }

  /** The rule of an entry: its pattern, and the handler its spec makes. */
  lemma RuleOfEntry(entry: ODict<string, string>)
    ensures RuleOf(entry).Ok? <==> HasKey(entry, "pattern") && HasKey(entry, "handler")
                                   && MakeHandler(Get(entry, "handler").value).Ok?
    ensures RuleOf(entry).Ok? ==>
              Get(entry, "pattern") == Some(RuleOf(entry).value.pattern)
              && MakeHandler(Get(entry, "handler").value) == Ok(RuleOf(entry).value.handler)
    ensures !HasKey(entry, "pattern") ==> RuleOf(entry) == Fail(KeyError("pattern"))
  {
  }

  // ----- the SQL script handlers -----

  /** The scripts `existing` after `scripts` were added in turn, each only when it is not
      listed yet. */
  function WithScripts(existing: seq<string>, scripts: seq<string>): seq<string> {
    if scripts == [] then existing
    else
      var e := WithScripts(existing, Pop(scripts));
      if Top(scripts) in e then e else e + [Top(scripts)]
  }

  /** Adding scripts one by one, skipping listed ones, is removing the repetitions from
      the list followed by the new scripts. */
  lemma {:induction false} WithScriptsDedup(existing: seq<string>, scripts: seq<string>)
    requires Distinct(existing)
    ensures WithScripts(existing, scripts) == Dedup(existing + scripts)
  {
    if scripts == [] {
      assert existing + scripts == existing;
      DedupKeeps(existing);
    } else {
      var all := existing + scripts;
      WithScriptsDedup(existing, Pop(scripts));
      assert Pop(all) == existing + Pop(scripts) && Top(all) == Top(scripts);
      DedupMembers(Pop(all));
    }
  }

  /** No script is ever listed twice, every old script stays in place, and every new one
      ends up in the list. */
  lemma WithScriptsProps(existing: seq<string>, scripts: seq<string>)
    requires Distinct(existing)
    ensures Distinct(WithScripts(existing, scripts))
    ensures existing <= WithScripts(existing, scripts)
    ensures forall s :: s in WithScripts(existing, scripts) <==> s in existing || s in scripts
  {
    WithScriptsDedup(existing, scripts);
    DedupDistinct(existing + scripts);
    DedupMembers(existing + scripts);
    WithScriptsGrows(existing, scripts);
  }

  lemma {:induction false} WithScriptsGrows(existing: seq<string>, scripts: seq<string>)
    ensures existing <= WithScripts(existing, scripts)
  {
    if scripts != [] {
      WithScriptsGrows(existing, Pop(scripts));
    }
  }

  /** Adding the same scripts a second time changes nothing. */
  lemma WithScriptsIdempotent(existing: seq<string>, scripts: seq<string>)
    requires Distinct(existing)
    ensures WithScripts(WithScripts(existing, scripts), scripts) == WithScripts(existing, scripts)
  {
    WithScriptsProps(existing, scripts);
    WithScriptsListed(WithScripts(existing, scripts), scripts);
  }

  /** Scripts that are all listed already add nothing. */
  lemma {:induction false} WithScriptsListed(existing: seq<string>, scripts: seq<string>)
    requires forall s :: s in scripts ==> s in existing
    ensures WithScripts(existing, scripts) == existing
  {
    if scripts != [] {
      PopTop(scripts);
      WithScriptsListed(existing, Pop(scripts));
    }
  }

  /** The `actions` table the handlers fill, reduced to its `sql_scripts` list. */
  class ActionTable {
    var sqlScripts: seq<string>

    constructor (scripts: seq<string>)
      ensures sqlScripts == scripts
    {
      sqlScripts := scripts;
    }

    /** The `sql_script_single` handler: the script is appended unless it is listed. */
    method SqlScriptSingle(script: string)
      modifies this
      ensures sqlScripts == WithScripts(old(sqlScripts), [script])
    {
      assert Pop([script]) == [] && Top([script]) == script;
      if script !in sqlScripts {
        sqlScripts := sqlScripts + [script];
      }
    }

    /** `_handle_sql_script_text`: every `*.sql` word of the line not listed yet is
        appended, in order. */
    method HandleSqlScriptText(line: string)
      modifies this
      ensures sqlScripts == WithScripts(old(sqlScripts), HybridRegistry.FindSqlScripts(line))
    {
      var scripts := HybridRegistry.FindSqlScripts(line);
      for i := 0 to |scripts|
        invariant sqlScripts == WithScripts(old(sqlScripts), scripts[..i])
      {
        assert Pop(scripts[..i + 1]) == scripts[..i] && Top(scripts[..i + 1]) == scripts[i];
        if scripts[i] !in sqlScripts {
          sqlScripts := sqlScripts + [scripts[i]];
        }
      }
      assert scripts[..|scripts|] == scripts;
    }
  }
}
