/** The grammar pass between the lexer and the AST builder. A transformer holds rules, each
    a handler from token list to token list, and keeps them ordered by descending priority;
    the default grammar merges an action line with the result line after it, then makes
    sure a step exists. The registry maps grammar names to grammar classes.

    A test `t.kind == "X"` of the source is written `t.ttype == X`: the two agree by
    `LexerCore.KindInjective`. */
module Grammar {
  import opened Basics
  import opened LexerCore
  import opened Seqs
  import OrderedDict

  // ---------------------------------------------------------------- merge_action_result

  /** An `ACTION_ONLY` token at `i` with a `RESULT_ONLY` token right after it. */
  predicate PairAt(tokens: seq<Token>, i: int) {
    0 <= i && i + 1 < |tokens| && tokens[i].ttype == ACTION_ONLY && tokens[i + 1].ttype == RESULT_ONLY
  }

  /** No action token is directly followed by a result token. */
  predicate NoPair(tokens: seq<Token>) {
    forall i :: 0 <= i < |tokens| - 1 ==> !(tokens[i].ttype == ACTION_ONLY && tokens[i + 1].ttype == RESULT_ONLY)
  }

  /** `action.original + " ; " + result.original`; adding `None` raises `TypeError`. */
  function JoinOriginals(a: Option<string>, b: Option<string>): (r: Result<string>)
    ensures r.Ok? <==> a.Some? && b.Some?
    ensures r.Ok? ==> r.value == a.value + " ; " + b.value
    ensures r.Fail? ==> r.exc.TypeError?
  {
    if a.None? then Fail(TypeError("unsupported operand type(s) for +: 'NoneType' and 'str'"))
    else if b.None? then Fail(TypeError("can only concatenate str (not \"NoneType\") to str"))
    else Ok(a.value + " ; " + b.value)
  }

  /** `type(t)(ACTION_RESULT, action.value, action.lineno, action.column, result.value,
      original)`: the merged token, built through the checking constructor. */
  function MergedToken(action: Token, result: Token): (r: Result<Token>)
    ensures r.Ok? <==> action.original.Some? && result.original.Some? && ValidToken(action)
    ensures r.Ok? ==> r.value == Token(ACTION_RESULT, action.value, action.lineno, action.column,
                                       Some(result.value),
                                       Some(action.original.value + " ; " + result.original.value))
    ensures action.original.None? ==> r.Fail? && r.exc.TypeError?
  {
    var original :- JoinOriginals(action.original, result.original);
    MakeToken(Member(ACTION_RESULT), action.value, action.lineno, action.column, Some(result.value), Some(original))
  }

  /** What `_merge_action_result` returns: one pass from the left, merging each action token
      with the result token right after it; every other token is copied. */
  function Merge(tokens: seq<Token>): Result<seq<Token>>
    decreases |tokens|
  {
    if tokens == [] then Ok([])
    else if PairAt(tokens, 0) then
      var m :- MergedToken(tokens[0], tokens[1]);
      var rest :- Merge(tokens[2..]);
      Ok([m] + rest)
    else
      var rest :- Merge(tokens[1..]);
      Ok([tokens[0]] + rest)
  }

  /** `pre` put in front of a successful result; a failure is passed on. */
  function Prefixed(pre: seq<Token>, r: Result<seq<Token>>): Result<seq<Token>> {
    if r.Ok? then Ok(pre + r.value) else r
  }

  /** One step of the pass: what the first token (or the first two) contribute. */
  lemma MergeStep(tokens: seq<Token>)
    requires tokens != []
    ensures Merge(tokens) == if !PairAt(tokens, 0) then Prefixed([tokens[0]], Merge(tokens[1..]))
                             else if MergedToken(tokens[0], tokens[1]).Fail? then Fail(MergedToken(tokens[0], tokens[1]).exc)
                             else Prefixed([MergedToken(tokens[0], tokens[1]).value], Merge(tokens[2..]))
  {
  }

  lemma PrefixedEmpty(r: Result<seq<Token>>)
    ensures Prefixed([], r) == r
  {
    if r.Ok? {
      assert [] + r.value == r.value;
    }
  }

  lemma PrefixedTwice(p: seq<Token>, q: seq<Token>, r: Result<seq<Token>>)
    ensures Prefixed(p, Prefixed(q, r)) == Prefixed(p + q, r)
  {
    if r.Ok? {
      assert p + (q + r.value) == (p + q) + r.value;
    }
  }

  /** `_merge_action_result`, with its index loop and its `merged` list. */
  method MergeActionResult(tokens: seq<Token>) returns (r: Result<seq<Token>>)
    ensures r == Merge(tokens)
  {
    if |tokens| == 0 {
      return Ok(tokens);
    }
    var merged: seq<Token> := [];
    var i := 0;
    assert tokens[0..] == tokens;
    PrefixedEmpty(Merge(tokens));
    while i < |tokens|
      invariant 0 <= i <= |tokens|
      invariant Merge(tokens) == Prefixed(merged, Merge(tokens[i..]))
      decreases |tokens| - i
    {
      var t := tokens[i];
      MergeStep(tokens[i..]);
      if t.ttype == ACTION_ONLY && i + 1 < |tokens| && tokens[i + 1].ttype == RESULT_ONLY {
        assert PairAt(tokens[i..], 0) && tokens[i..][2..] == tokens[i + 2..];
        assert tokens[i..][0] == t && tokens[i..][1] == tokens[i + 1];
        var m := MergedToken(t, tokens[i + 1]);
        if m.Fail? {
          return Fail(m.exc);
        }
        PrefixedTwice(merged, [m.value], Merge(tokens[i + 2..]));
        merged := merged + [m.value];
        i := i + 2;
      } else {
        assert !PairAt(tokens[i..], 0) && tokens[i..][1..] == tokens[i + 1..];
        PrefixedTwice(merged, [t], Merge(tokens[i + 1..]));
        merged := merged + [t];
        i := i + 1;
      }
    }
    assert tokens[i..] == [] && merged + [] == merged;
    r := Ok(merged);
  }

  /** The number of tokens of type `k`. */
  function CountType(tokens: seq<Token>, k: TokenType): (n: nat)
    ensures n <= |tokens|
  {
    if tokens == [] then 0 else (if tokens[0].ttype == k then 1 else 0) + CountType(tokens[1..], k)
  }

  /** Every merge turns two tokens into one new `ACTION_RESULT`: the output is shorter than
      the input by the number of `ACTION_RESULT` tokens the pass created. */
  lemma {:induction false} MergeLength(tokens: seq<Token>)
    requires Merge(tokens).Ok?
    ensures |Merge(tokens).value| + CountType(Merge(tokens).value, ACTION_RESULT)
            == |tokens| + CountType(tokens, ACTION_RESULT)
    decreases |tokens|
  {
    if tokens != [] {
      var out := Merge(tokens).value;
      if PairAt(tokens, 0) {
        MergeLength(tokens[2..]);
        assert tokens[1..][1..] == tokens[2..];
        assert out[1..] == Merge(tokens[2..]).value;
      } else {
        MergeLength(tokens[1..]);
        assert out[1..] == Merge(tokens[1..]).value;
      }
    }
  }

  /** The first output token: the merged one, or the first input token. */
  lemma MergeHead(tokens: seq<Token>)
    requires tokens != [] && Merge(tokens).Ok?
    ensures Merge(tokens).value != []
    ensures Merge(tokens).value[0].ttype == if PairAt(tokens, 0) then ACTION_RESULT else tokens[0].ttype
  {
  }

  /** After the pass no action token is followed by a result token: every such pair was
      merged. */
  lemma {:induction false} MergeLeavesNoPair(tokens: seq<Token>)
    requires Merge(tokens).Ok?
    ensures NoPair(Merge(tokens).value)
    decreases |tokens|
  {
    if tokens != [] {
      var out := Merge(tokens).value;
      if PairAt(tokens, 0) {
        var rest := Merge(tokens[2..]).value;
        MergeLeavesNoPair(tokens[2..]);
        assert out == [out[0]] + rest && out[0].ttype == ACTION_RESULT;
        forall i | 0 <= i < |out| - 1
          ensures !(out[i].ttype == ACTION_ONLY && out[i + 1].ttype == RESULT_ONLY)
        {
          if i > 0 {
            assert out[i] == rest[i - 1] && out[i + 1] == rest[i];
          }
        }
      } else {
        var rest := Merge(tokens[1..]).value;
        MergeLeavesNoPair(tokens[1..]);
        assert out == [tokens[0]] + rest;
        if tokens[1..] != [] {
          MergeHead(tokens[1..]);
          assert !PairAt(tokens[1..], 0) || tokens[1].ttype == ACTION_ONLY;
        }
        forall i | 0 <= i < |out| - 1
          ensures !(out[i].ttype == ACTION_ONLY && out[i + 1].ttype == RESULT_ONLY)
        {
          if i > 0 {
            assert out[i] == rest[i - 1] && out[i + 1] == rest[i];
          }
        }
      }
    }
  }

  /** Without a pair to merge, the tokens come through unchanged. */
  lemma {:induction false} MergeWithoutPair(tokens: seq<Token>)
    requires NoPair(tokens)
    ensures Merge(tokens) == Ok(tokens)
    decreases |tokens|
  {
    if tokens != [] {
      assert !PairAt(tokens, 0);
      var rest := tokens[1..];
      assert NoPair(rest) by {
        forall i | 0 <= i < |rest| - 1
          ensures !(rest[i].ttype == ACTION_ONLY && rest[i + 1].ttype == RESULT_ONLY)
        {
          assert rest[i] == tokens[i + 1] && rest[i + 1] == tokens[i + 2];
        }
      }
      MergeWithoutPair(rest);
      assert tokens == [tokens[0]] + rest;
    }
  }

  /** Running the pass twice is running it once. */
  lemma MergeIdempotent(tokens: seq<Token>)
    requires Merge(tokens).Ok?
    ensures Merge(Merge(tokens).value) == Merge(tokens)
  {
    MergeLeavesNoPair(tokens);
    MergeWithoutPair(Merge(tokens).value);
  }

  /** The results of two passes, in order; the first failure wins. */
  function Joined(a: Result<seq<Token>>, b: Result<seq<Token>>): Result<seq<Token>> {
    if a.Fail? then a else if b.Fail? then b else Ok(a.value + b.value)
  }

  /** Tokens pass through in order: when no pair straddles the cut, the pass over `a + b`
      is the pass over `a` followed by the pass over `b`. */
  lemma JoinedPrefixed(p: seq<Token>, x: Result<seq<Token>>, y: Result<seq<Token>>)
    ensures Joined(Prefixed(p, x), y) == Prefixed(p, Joined(x, y))
  {
    if x.Ok? && y.Ok? {
      assert (p + x.value) + y.value == p + (x.value + y.value);
    }
  }

  lemma {:induction false} MergeAppend(a: seq<Token>, b: seq<Token>)
    requires !PairAt(a + b, |a| - 1)
    ensures Merge(a + b) == Joined(Merge(a), Merge(b))
    decreases |a|
  {
    if a == [] {
      assert a + b == b;
      PrefixedEmpty(Merge(b));
    } else if PairAt(a + b, 0) {
      PairHead(a, b);
      NoStraddleTail(a, b, 2);
      MergeAppend(a[2..], b);
      MergePairStep(a, b);
    } else {
      NoPairHead(a, b);
      NoStraddleTail(a, b, 1);
      MergeAppend(a[1..], b);
      MergeSingleStep(a, b);
    }
  }

  /** A pair at the front of `a + b` with none straddling the cut lies inside `a`. */
  lemma PairHead(a: seq<Token>, b: seq<Token>)
    requires a != [] && PairAt(a + b, 0) && !PairAt(a + b, |a| - 1)
    ensures |a| >= 2 && PairAt(a, 0) && (a + b)[2..] == a[2..] + b
  {
    assert (a + b)[0] == a[0];
    assert |a| >= 2;
    assert (a + b)[1] == a[1];
  }

  lemma NoPairHead(a: seq<Token>, b: seq<Token>)
    requires a != [] && !PairAt(a + b, 0)
    ensures !PairAt(a, 0) && (a + b)[1..] == a[1..] + b
  {
    assert (a + b)[0] == a[0];
    if |a| >= 2 {
      assert (a + b)[1] == a[1];
    }
  }

  /** No pair straddles the cut after the first `k` tokens are dropped. */
  lemma NoStraddleTail(a: seq<Token>, b: seq<Token>, k: nat)
    requires k <= |a| && !PairAt(a + b, |a| - 1)
    ensures !PairAt(a[k..] + b, |a[k..]| - 1)
  {
    var t := a[k..] + b;
    if k < |a| {
      assert t[|a| - k - 1] == (a + b)[|a| - 1];
      if b != [] {
        assert t[|a| - k] == (a + b)[|a|];
      }
    }
  }

  lemma MergePairStep(a: seq<Token>, b: seq<Token>)
    requires |a| >= 2 && PairAt(a + b, 0) && PairAt(a, 0) && (a + b)[2..] == a[2..] + b
    requires Merge(a[2..] + b) == Joined(Merge(a[2..]), Merge(b))
    ensures Merge(a + b) == Joined(Merge(a), Merge(b))
  {
    MergeStep(a + b);
    MergeStep(a);
    assert (a + b)[0] == a[0] && (a + b)[1] == a[1];
    var m := MergedToken(a[0], a[1]);
    if m.Ok? {
      JoinedPrefixed([m.value], Merge(a[2..]), Merge(b));
    }
  }

  lemma MergeSingleStep(a: seq<Token>, b: seq<Token>)
    requires a != [] && !PairAt(a + b, 0) && !PairAt(a, 0) && (a + b)[1..] == a[1..] + b
    requires Merge(a[1..] + b) == Joined(Merge(a[1..]), Merge(b))
    ensures Merge(a + b) == Joined(Merge(a), Merge(b))
  {
    MergeStep(a + b);
    MergeStep(a);
    assert (a + b)[0] == a[0];
    JoinedPrefixed([a[0]], Merge(a[1..]), Merge(b));
  }

  /** A lone pair becomes the merged token, or raises what building it raises. */
  lemma MergePair(action: Token, result: Token)
    requires action.ttype == ACTION_ONLY && result.ttype == RESULT_ONLY
    ensures Merge([action, result]) == if MergedToken(action, result).Ok?
                                       then Ok([MergedToken(action, result).value])
                                       else Fail(MergedToken(action, result).exc)
  {
    assert PairAt([action, result], 0);
    assert [action, result][2..] == [];
    MergeStep([action, result]);
    assert Merge([]) == Ok([]);
    var m := MergedToken(action, result);
    if m.Ok? {
      assert [m.value] + [] == [m.value];
    }
  }

  // ---------------------------------------------------------------- validate_basic_structure

  /** The step `_validate_basic_structure` inserts; the column takes the field's default. */
  const DefaultStep := Token(STEP, "Default Step", 1, Some(0), None, Some("Step: Default Step"))

  function IsStep(t: Token): bool { t.ttype == STEP }

  predicate HasStep(tokens: seq<Token>) {
    exists i :: 0 <= i < |tokens| && tokens[i].ttype == STEP
  }

  /** `_validate_basic_structure`: when `[t for t in tokens if t.kind == "STEP"]` is empty,
      the default step is inserted at index 0. */
  function ValidateStructure(tokens: seq<Token>): (r: seq<Token>)
    ensures HasStep(r)
    ensures HasStep(tokens) ==> r == tokens
    ensures !HasStep(tokens) ==> r == [DefaultStep] + tokens
  {
    RetainMembers(tokens, IsStep);
    if Retain(tokens, IsStep) == [] then
      assert !HasStep(tokens) by {
        forall i | 0 <= i < |tokens| ensures tokens[i].ttype != STEP {
          assert tokens[i] in tokens;
        }
      }
      assert ([DefaultStep] + tokens)[0] == DefaultStep;
      [DefaultStep] + tokens
    else
      var t := Retain(tokens, IsStep)[0];
      assert t in Retain(tokens, IsStep);
      var i :| 0 <= i < |tokens| && tokens[i] == t;
      tokens
  }

  /** Checking the structure twice is checking it once. */
  lemma ValidateIdempotent(tokens: seq<Token>)
    ensures ValidateStructure(ValidateStructure(tokens)) == ValidateStructure(tokens)
  {
  }

  /** Inserting the default step creates no pair: the merge stays complete. */
  lemma ValidateKeepsNoPair(tokens: seq<Token>)
    requires NoPair(tokens)
    ensures NoPair(ValidateStructure(tokens))
  {
    var r := ValidateStructure(tokens);
    if r != tokens {
      forall i | 0 <= i < |r| - 1
        ensures !(r[i].ttype == ACTION_ONLY && r[i + 1].ttype == RESULT_ONLY)
      {
        if i > 0 {
          assert r[i] == tokens[i - 1] && r[i + 1] == tokens[i];
        }
      }
    }
  }

  // ---------------------------------------------------------------- rules

  /** A rule's handler: one of the default grammar's two, or a caller-supplied one, known
      by a number and run through an oracle. */
  datatype Handler = MergeRule | ValidateRule | CustomHandler(id: nat)

  datatype GrammarRule = GrammarRule(name: string, pattern: string, handler: Handler, priority: int)

  /** `rule.handler(result)`. */
  function RunHandler(h: Handler, tokens: seq<Token>, custom: (nat, seq<Token>) -> Result<seq<Token>>): Result<seq<Token>> {
    match h
    case MergeRule => Merge(tokens)
    case ValidateRule => Ok(ValidateStructure(tokens))
    case CustomHandler(id) => custom(id, tokens)
  }

  /** The rules run in list order, each on what the previous one returned; the first
      exception stops the run. */
  function TransformAll(rules: seq<GrammarRule>, tokens: seq<Token>,
                        custom: (nat, seq<Token>) -> Result<seq<Token>>): Result<seq<Token>>
    decreases |rules|
  {
    if rules == [] then Ok(tokens)
    else
      var next :- RunHandler(rules[0].handler, tokens, custom);
      TransformAll(rules[1..], next, custom)
  }

  /** Running a list of rules is running its first part, then its second part on that. */
  lemma {:induction false} TransformSplit(rs: seq<GrammarRule>, qs: seq<GrammarRule>, tokens: seq<Token>,
                                          custom: (nat, seq<Token>) -> Result<seq<Token>>)
    ensures TransformAll(rs + qs, tokens, custom)
            == (var r := TransformAll(rs, tokens, custom); if r.Fail? then r else TransformAll(qs, r.value, custom))
    decreases |rs|
  {
    if rs == [] {
      assert rs + qs == qs;
    } else {
      assert (rs + qs)[0] == rs[0] && (rs + qs)[1..] == rs[1..] + qs;
      var next := RunHandler(rs[0].handler, tokens, custom);
      if next.Ok? {
        TransformSplit(rs[1..], qs, next.value, custom);
      }
    }
  }

  /** Rules in descending priority. */
  predicate SortedDesc(rules: seq<GrammarRule>) {
    forall i, j :: 0 <= i < j < |rules| ==> rules[i].priority >= rules[j].priority
  }

  /** How many leading rules have priority at least `p`: where a stable descending sort
      puts a newly appended rule of priority `p`. */
  function InsertionPoint(rules: seq<GrammarRule>, p: int): (k: nat)
    ensures k <= |rules|
    ensures forall i :: 0 <= i < k ==> rules[i].priority >= p
    ensures k < |rules| ==> rules[k].priority < p
  {
    if rules == [] || rules[0].priority < p then 0 else 1 + InsertionPoint(rules[1..], p)
  }

  /** `rules.append(rule); rules.sort(key=priority, reverse=True)` on an already sorted list:
      the new rule goes after every rule of priority at least its own. */
  function Insert(rules: seq<GrammarRule>, r: GrammarRule): seq<GrammarRule> {
    var k := InsertionPoint(rules, r.priority);
    rules[..k] + [r] + rules[k..]
  }

  /** Where the new rule lands: after every rule of priority at least its own, so after
      every old rule of equal priority, and the old rules keep their order around it. */
  lemma InsertShape(rules: seq<GrammarRule>, r: GrammarRule)
    ensures var k := InsertionPoint(rules, r.priority);
            |Insert(rules, r)| == |rules| + 1 && Insert(rules, r)[k] == r
            && Insert(rules, r)[..k] + Insert(rules, r)[k + 1..] == rules
            && (forall i :: 0 <= i < k ==> rules[i].priority >= r.priority)
  {
    var k := InsertionPoint(rules, r.priority);
    var s := Insert(rules, r);
    assert s[..k] == rules[..k] && s[k + 1..] == rules[k..];
    assert rules == rules[..k] + rules[k..];
  }

  /** Inserting into a sorted list keeps it sorted and adds exactly the new rule: together
      with `InsertShape`, this is the stable sort of the list with the rule appended. */
  lemma InsertSorted(rules: seq<GrammarRule>, r: GrammarRule)
    requires SortedDesc(rules)
    ensures SortedDesc(Insert(rules, r))
    ensures multiset(Insert(rules, r)) == multiset(rules + [r])
    ensures forall i :: InsertionPoint(rules, r.priority) <= i < |rules| ==> rules[i].priority < r.priority
  {
    var k := InsertionPoint(rules, r.priority);
    forall i | k < i < |rules| ensures rules[i].priority < r.priority {
      assert rules[k].priority >= rules[i].priority;
    }
    InsertOrder(rules, r, k);
    InsertMultiset(rules, r, k);
  }

  lemma InsertMultiset(rules: seq<GrammarRule>, r: GrammarRule, k: nat)
    requires k <= |rules|
    ensures multiset(rules[..k] + [r] + rules[k..]) == multiset(rules + [r])
  {
    assert rules == rules[..k] + rules[k..];
  }

  lemma InsertAt(rules: seq<GrammarRule>, r: GrammarRule, k: nat)
    requires k <= |rules|
    ensures var s := rules[..k] + [r] + rules[k..];
            |s| == |rules| + 1 &&
            forall i :: 0 <= i < |s| ==> s[i] == if i < k then rules[i] else if i == k then r else rules[i - 1]
  {
  }

  lemma InsertOrder(rules: seq<GrammarRule>, r: GrammarRule, k: nat)
    requires SortedDesc(rules) && k <= |rules|
    requires forall i :: 0 <= i < k ==> rules[i].priority >= r.priority
    requires forall i :: k <= i < |rules| ==> rules[i].priority < r.priority
    ensures SortedDesc(rules[..k] + [r] + rules[k..])
  {
    var s := rules[..k] + [r] + rules[k..];
    InsertAt(rules, r, k);
    forall i, j | 0 <= i < j < |s| ensures s[i].priority >= s[j].priority {
      var pi := if i < k then rules[i] else if i == k then r else rules[i - 1];
      var pj := if j < k then rules[j] else if j == k then r else rules[j - 1];
      assert s[i] == pi && s[j] == pj;
    }
  }

  /** A rule list built by `add_rule` calls, in order, from the empty list. */
  function InsertAll(rules: seq<GrammarRule>): seq<GrammarRule> {
    if rules == [] then [] else Insert(InsertAll(Pop(rules)), Top(rules))
  }

  /** Adding rules one by one gives a sorted list holding exactly those rules. */
  lemma {:induction false} InsertAllSorted(rules: seq<GrammarRule>)
    ensures SortedDesc(InsertAll(rules))
    ensures multiset(InsertAll(rules)) == multiset(rules)
  {
    if rules != [] {
      var p, t := Pop(rules), Top(rules);
      var q := InsertAll(p);
      assert InsertAll(rules) == Insert(q, t);
      InsertAllSorted(p);
      InsertSorted(q, t);
      PopTop(rules);
      assert multiset(Insert(q, t)) == multiset(q) + multiset{t};
    }
  }

  /** The test of `remove_rule`'s comprehension. */
  function NameIsNot(name: string): GrammarRule -> bool {
    (r: GrammarRule) => r.name != name
  }

  /** `[r for r in rules if r.name != name]`: no rule of that name is left, every other rule
      stays, and the list stays sorted. */
  lemma RemoveKeeps(rules: seq<GrammarRule>, name: string)
    ensures forall r :: r in Retain(rules, NameIsNot(name)) <==> r in rules && r.name != name
    ensures SortedDesc(rules) ==> SortedDesc(Retain(rules, NameIsNot(name)))
  {
    RetainMembers(rules, NameIsNot(name));
    if SortedDesc(rules) {
      RetainSorted(rules, NameIsNot(name));
    }
  }

  lemma {:induction false} RetainSorted(rules: seq<GrammarRule>, keep: GrammarRule -> bool)
    requires SortedDesc(rules)
    ensures SortedDesc(Retain(rules, keep))
  {
    if rules != [] {
      var p := Pop(rules);
      assert SortedDesc(p) by {
        forall i, j | 0 <= i < j < |p| ensures p[i].priority >= p[j].priority {
          assert p[i] == rules[i] && p[j] == rules[j];
        }
      }
      RetainSorted(p, keep);
      var s := Retain(p, keep);
      RetainMembers(p, keep);
      if keep(Top(rules)) {
        forall x | x in s ensures x.priority >= Top(rules).priority {
          var i :| 0 <= i < |p| && p[i] == x;
          assert rules[i] == x;
        }
        var s' := s + [Top(rules)];
        forall i, j | 0 <= i < j < |s'| ensures s'[i].priority >= s'[j].priority {
          if j == |s| {
            assert s'[i] in s;
          } else {
            assert s'[i] == s[i] && s'[j] == s[j];
          }
        }
      }
    }
  }

  // ---------------------------------------------------------------- the transformer

  /** `GrammarTransformer`, which `DefaultGrammar` and `CustomGrammar` wrap: their `match`,
      `add_rule`, `remove_rule` and `get_rules` pass straight through to it. */
  class GrammarTransformer {
    var rules: seq<GrammarRule>

    /** The rules are always in descending priority. */
    predicate Valid()
      reads this
    {
      SortedDesc(rules)
    }

    constructor ()
      ensures Valid() && rules == []
    {
      rules := [];
    }

    /** `DefaultGrammar()`: the merge rule (priority 200), then the structure check (100). */
    constructor Default()
      ensures Valid()
      ensures rules == [GrammarRule("merge_action_result", "ACTION_ONLY + RESULT_ONLY", MergeRule, 200),
                        GrammarRule("validate_structure", ".*", ValidateRule, 100)]
    {
      rules := [];
      new;
      AddRule(GrammarRule("merge_action_result", "ACTION_ONLY + RESULT_ONLY", MergeRule, 200));
      AddRule(GrammarRule("validate_structure", ".*", ValidateRule, 100));
    }

    /** `CustomGrammar(rules)`: each rule added in turn. */
    constructor Custom(rs: seq<GrammarRule>)
      ensures Valid() && rules == InsertAll(rs)
    {
      rules := [];
      new;
      for i := 0 to |rs|
        invariant Valid() && rules == InsertAll(rs[..i])
      {
        assert rs[..i + 1] != [] && Pop(rs[..i + 1]) == rs[..i] && Top(rs[..i + 1]) == rs[i];
        AddRule(rs[i]);
      }
      assert rs[..|rs|] == rs;
    }

    /** `add_rule`: append, then stable sort by descending priority. */
    method AddRule(r: GrammarRule)
      requires Valid()
      modifies this
      ensures Valid() && rules == Insert(old(rules), r)
    {
      var k := FindInsertionPoint(rules, r.priority);
      InsertSorted(rules, r);
      rules := rules[..k] + [r] + rules[k..];
    }

    /** Where the stable sort puts a rule of priority `p`: past every rule of priority at
        least `p`. */
    static method FindInsertionPoint(rs: seq<GrammarRule>, p: int) returns (k: nat)
      ensures k == InsertionPoint(rs, p)
    {
      k := 0;
      while k < |rs| && rs[k].priority >= p
        invariant 0 <= k <= |rs|
        invariant InsertionPoint(rs, p) == k + InsertionPoint(rs[k..], p)
      {
        assert rs[k..][1..] == rs[k + 1..];
        k := k + 1;
      }
    }

    /** `remove_rule`. */
    method RemoveRule(name: string)
      requires Valid()
      modifies this
      ensures Valid() && rules == Retain(old(rules), NameIsNot(name))
    {
      RemoveKeeps(rules, name);
      rules := Retain(rules, NameIsNot(name));
    }

    /** `transform` (and so `match`): the rules in order on a copy of the tokens. */
    method Transform(tokens: seq<Token>, custom: (nat, seq<Token>) -> Result<seq<Token>>)
      returns (r: Result<seq<Token>>)
      ensures r == TransformAll(rules, tokens, custom)
    {
      var result := tokens;
      assert rules[0..] == rules;
      for i := 0 to |rules|
        invariant TransformAll(rules[i..], result, custom) == TransformAll(rules, tokens, custom)
      {
        assert rules[i..][0] == rules[i] && rules[i..][1..] == rules[i + 1..];
        var next: Result<seq<Token>>;
        match rules[i].handler {
          case MergeRule => next := MergeActionResult(result);
          case ValidateRule => next := Ok(ValidateStructure(result));
          case CustomHandler(id) => next := custom(id, result);
        }
        if next.Fail? {
          return Fail(next.exc);
        }
        result := next.value;
      }
      r := Ok(result);
    }
  }

  /** The default grammar merges, then checks the structure. */
  lemma DefaultRules(tokens: seq<Token>, custom: (nat, seq<Token>) -> Result<seq<Token>>)
    ensures TransformAll([GrammarRule("merge_action_result", "ACTION_ONLY + RESULT_ONLY", MergeRule, 200),
                          GrammarRule("validate_structure", ".*", ValidateRule, 100)], tokens, custom)
            == (var m := Merge(tokens); if m.Fail? then m else Ok(ValidateStructure(m.value)))
  {
    var rs := [GrammarRule("merge_action_result", "ACTION_ONLY + RESULT_ONLY", MergeRule, 200),
               GrammarRule("validate_structure", ".*", ValidateRule, 100)];
    assert rs[1..][1..] == [];
  }

  /** What the default grammar hands to the AST builder has a step and no unmerged pair. */
  lemma DefaultMatchShape(tokens: seq<Token>)
    requires Merge(tokens).Ok?
    ensures HasStep(ValidateStructure(Merge(tokens).value))
    ensures NoPair(ValidateStructure(Merge(tokens).value))
  {
    MergeLeavesNoPair(tokens);
    ValidateKeepsNoPair(Merge(tokens).value);
  }

  // ---------------------------------------------------------------- the registry

  /** A class handed to `register`: its name, and whether it has what the protocol
      (`Grammar`, `ASTBuilder`) asks for, which is what `issubclass` checks. */
  datatype ClassRef = ClassRef(name: string, conforms: bool)

  /** `GrammarRegistry`, and `ASTBuilderRegistry`, which is the same code with other words
      in its messages: `noun` is "Grammar" or "AST builder", `base` the protocol. */
  class Registry {
    const noun: string
    const base: string
    var entries: OrderedDict.ODict<string, ClassRef>
    var defaultName: string

    predicate Valid()
      reads this
    {
      OrderedDict.Valid(entries)
    }

    constructor (noun: string, base: string)
      ensures this.noun == noun && this.base == base
      ensures Valid() && entries == [] && defaultName == "default"
    {
      this.noun := noun;
      this.base := base;
      entries := [];
      defaultName := "default";
    }

    /** The `KeyError` of `get` and `set_default`. */
    function NotFound(name: string): Exc
      reads this
    {
      KeyError(noun + " '" + name + "' not found")
    }

    /** `register`: a non-conforming class raises `ValueError`; otherwise the name now maps
        to the class, a known name keeping its place in the listing. */
    method Register(name: string, cls: ClassRef) returns (o: Outcome)
      requires Valid()
      modifies this
      ensures Valid() && defaultName == old(defaultName)
      ensures !cls.conforms ==> o == Raise(ValueError(noun + " class must inherit from " + base)) && entries == old(entries)
      ensures cls.conforms ==> o == Pass && entries == OrderedDict.Set(old(entries), name, cls)
      ensures cls.conforms ==> Get(name) == Ok(cls)
    {
      if !cls.conforms {
        return Raise(ValueError(noun + " class must inherit from " + base));
      }
      OrderedDict.SetValid(entries, name, cls);
      OrderedDict.GetSetSame(entries, name, cls);
      entries := OrderedDict.Set(entries, name, cls);
      o := Pass;
    }

    /** `get`: the class, or `KeyError` for a name never registered. */
    function Get(name: string): (r: Result<ClassRef>)
      reads this
      ensures r.Fail? <==> !OrderedDict.HasKey(entries, name)
      ensures r.Fail? ==> r.exc == NotFound(name)
      ensures r.Ok? ==> OrderedDict.Get(entries, name) == Some(r.value)
    {
      var c := OrderedDict.Get(entries, name);
      if c.None? then Fail(NotFound(name)) else Ok(c.value)
    }

    /** `list`: the registered names, in registration order. */
    function List(): (names: seq<string>)
      reads this
      ensures forall n :: n in names <==> OrderedDict.HasKey(entries, n)
    {
      OrderedDict.Keys(entries)
    }

    /** `set_default`: only a registered name can become the default. */
    method SetDefault(name: string) returns (o: Outcome)
      modifies this
      ensures entries == old(entries)
      ensures OrderedDict.HasKey(entries, name) ==> o == Pass && defaultName == name
      ensures !OrderedDict.HasKey(entries, name) ==> o == Raise(NotFound(name)) && defaultName == old(defaultName)
    {
      if !OrderedDict.HasKey(entries, name) {
        return Raise(NotFound(name));
      }
      defaultName := name;
      o := Pass;
    }

    function GetDefault(): string
      reads this
    {
      defaultName
    }
  }

  /** The module-level `grammar_registry`, with `default` and `custom` registered. */
  method GlobalGrammarRegistry() returns (reg: Registry)
    ensures fresh(reg) && reg.Valid()
    ensures reg.List() == ["default", "custom"]
    ensures reg.Get("default") == Ok(ClassRef("DefaultGrammar", true))
    ensures reg.Get("custom") == Ok(ClassRef("CustomGrammar", true))
    ensures reg.GetDefault() == "default"
  {
    reg := new Registry("Grammar", "Grammar");
    var o := reg.Register("default", ClassRef("DefaultGrammar", true));
    o := reg.Register("custom", ClassRef("CustomGrammar", true));
    TwoEntries("default", ClassRef("DefaultGrammar", true), "custom", ClassRef("CustomGrammar", true));
  }

  /** Two different names registered one after the other are listed in that order. */
  lemma TwoEntries(a: string, ca: ClassRef, b: string, cb: ClassRef)
    requires a != b
    ensures var d := OrderedDict.Set(OrderedDict.Set([], a, ca), b, cb);
      d == [(a, ca), (b, cb)] && OrderedDict.Keys(d) == [a, b]
      && OrderedDict.Get(d, a) == Some(ca) && OrderedDict.Get(d, b) == Some(cb)
  {
    var d := [(a, ca), (b, cb)];
    assert OrderedDict.Set([], a, ca) == [(a, ca)];
    assert OrderedDict.Keys([(a, ca)]) == [a];
    OrderedDict.SetAbsent([(a, ca)], b, cb);
    assert [(a, ca)] + [(b, cb)] == d;
    assert d[1..] == [(b, cb)] && d[1..][1..] == [];
  }
}
