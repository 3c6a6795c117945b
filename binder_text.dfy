/** The string work of `ShellFrameworkBinder`: the placeholder search
    `re.findall(r'\{(\w+)\}', line)`, the substitution of `{p}` by positional shell
    variables, and the argument searches `p=([\w\./-]+)` and `["']p["']`. */
module BinderText {
  import opened Basics
  import opened Text
  import opened Seqs

  /** A run of `\w+`. */
  predicate IsWord(w: string) {
    w != [] && forall i :: 0 <= i < |w| ==> IsWordChar(w[i])
  }

  /** The length of the leading run of word characters. */
  function WordRun(s: string): (n: nat)
    ensures n <= |s|
    ensures forall i :: 0 <= i < n ==> IsWordChar(s[i])
    ensures n < |s| ==> !IsWordChar(s[n])
  {
    if s == [] || !IsWordChar(s[0]) then 0 else 1 + WordRun(s[1..])
  }

  /** `re.findall(r'\{(\w+)\}', s)`: scanning left to right, a `{` opens a match when a
      run of word characters follows it and a `}` follows the run; after a match the scan
      goes on behind its `}`, otherwise at the next character. (`\w+` is greedy and `}` is
      not a word character, so only the whole run can be followed by `}`.) */
  function Matches(s: string): (ms: seq<string>)
    ensures forall k :: 0 <= k < |ms| ==> IsWord(ms[k])
    decreases |s|
  {
    if s == [] then []
    else
      var n := WordRun(s[1..]);
      if s[0] == '{' && n > 0 && n + 1 < |s| && s[n + 1] == '}' then [s[1..n + 1]] + Matches(s[n + 2..])
      else Matches(s[1..])
  }

  lemma {:induction false} WordRunOf(w: string, c: char, rest: string)
    requires forall i :: 0 <= i < |w| ==> IsWordChar(w[i])
    requires !IsWordChar(c)
    ensures WordRun(w + [c] + rest) == |w|
  {
    if w != [] {
      assert (w + [c] + rest)[1..] == w[1..] + [c] + rest;
      WordRunOf(w[1..], c, rest);
    } else {
      assert (w + [c] + rest)[0] == c;
    }
  }

  /** `{w}` for a word `w` is found, and the search goes on right behind it. */
  lemma PlaceholderFound(w: string, rest: string)
    requires IsWord(w)
    ensures Matches("{" + w + "}" + rest) == [w] + Matches(rest)
  {
    var s := "{" + w + "}" + rest;
    assert s[1..] == w + ['}'] + rest;
    WordRunOf(w, '}', rest);
    assert s[1..|w| + 1] == w && s[|w| + 2..] == rest;
  }

  /** A line without `{` has no placeholder. */
  lemma {:induction false} NoBraceNoMatch(s: string)
    requires '{' !in s
    ensures Matches(s) == []
  {
    if s != [] {
      assert s[0] != '{';
      assert forall c :: c in s[1..] ==> c in s;
      NoBraceNoMatch(s[1..]);
    }
  }

  /** Every placeholder of every line, in order. */
  function AllMatches(lines: seq<string>): seq<string> {
    if lines == [] then [] else AllMatches(Pop(lines)) + Matches(Top(lines))
  }

  lemma {:induction false} AllMatchesMembers(lines: seq<string>, p: string)
    ensures p in AllMatches(lines) <==> exists k :: 0 <= k < |lines| && p in Matches(lines[k])
  {
    if lines != [] {
      AllMatchesMembers(Pop(lines), p);
      PopTop(lines);
      if p in Matches(Top(lines)) {
        assert p in Matches(lines[|lines| - 1]);
      }
      if exists k :: 0 <= k < |lines| && p in Matches(lines[k]) {
        var k :| 0 <= k < |lines| && p in Matches(lines[k]);
        if k < |lines| - 1 {
          assert lines[k] == Pop(lines)[k];
        }
      }
    }
  }

  /** `_extract_param_placeholders`: the placeholders in order of first occurrence. */
  function Placeholders(lines: seq<string>): seq<string> {
    Dedup(AllMatches(lines))
  }

  /** The placeholders are exactly the `{w}` found in the lines, each a word, each once. */
  lemma PlaceholdersFacts(lines: seq<string>)
    ensures forall p :: p in Placeholders(lines) <==> exists k :: 0 <= k < |lines| && p in Matches(lines[k])
    ensures forall i, j :: 0 <= i < j < |Placeholders(lines)| ==> Placeholders(lines)[i] != Placeholders(lines)[j]
    ensures forall i :: 0 <= i < |Placeholders(lines)| ==> IsWord(Placeholders(lines)[i])
  {
    DedupMembers(AllMatches(lines));
    DedupDistinct(AllMatches(lines));
    forall p ensures p in Placeholders(lines) <==> exists k :: 0 <= k < |lines| && p in Matches(lines[k]) {
      AllMatchesMembers(lines, p);
    }
    forall i | 0 <= i < |Placeholders(lines)| ensures IsWord(Placeholders(lines)[i]) {
      var p := Placeholders(lines)[i];
      assert p in Placeholders(lines);
      var k :| 0 <= k < |lines| && p in Matches(lines[k]);
      var j :| 0 <= j < |Matches(lines[k])| && Matches(lines[k])[j] == p;
    }
  }

  /** `_extract_param_placeholders`, with its `seen` set. */
  method ExtractParamPlaceholders(lines: seq<string>) returns (params: seq<string>)
    ensures params == Placeholders(lines)
  {
    params := [];
    var seen: set<string> := {};
    for i := 0 to |lines|
      invariant params == Dedup(AllMatches(lines[..i]))
      invariant forall x :: x in seen <==> x in AllMatches(lines[..i])
    {
      var ms := Matches(lines[i]);
      ghost var prefix := AllMatches(lines[..i]);
      assert prefix + ms[..0] == prefix;
      for j := 0 to |ms|
        invariant params == Dedup(prefix + ms[..j])
        invariant forall x :: x in seen <==> x in prefix + ms[..j]
      {
        SeenStep(prefix, ms, j, seen);
        if ms[j] !in seen {
          params := params + [ms[j]];
          seen := seen + {ms[j]};
        }
      }
      PrefixSnoc(lines, i);
      assert ms[..|ms|] == ms;
    }
    assert lines[..|lines|] == lines;
  }

  /** One more match is kept exactly when the `seen` set does not hold it yet. */
  lemma SeenStep(prefix: seq<string>, ms: seq<string>, j: nat, seen: set<string>)
    requires j < |ms| && forall x :: x in seen <==> x in prefix + ms[..j]
    ensures Dedup(prefix + ms[..j + 1]) == Dedup(prefix + ms[..j]) + (if ms[j] in seen then [] else [ms[j]])
    ensures forall x :: x in seen + {ms[j]} <==> x in prefix + ms[..j + 1]
  {
    var before := prefix + ms[..j];
    assert prefix + ms[..j + 1] == before + [ms[j]];
    assert Pop(before + [ms[j]]) == before && Top(before + [ms[j]]) == ms[j];
  }

  function Placeholder(p: string): string {
    "{" + p + "}"
  }

  /** `f"${i+1}"`: the positional shell variable of the parameter at index `i`. */
  function ShellVar(i: nat): string {
    "$" + IntToString(i + 1)
  }

  /** `_substitute_params` with the map `{p: f"${i+1}"}`: each `{p}` replaced in turn,
      in parameter order. */
  function Substitute(line: string, params: seq<string>): string {
    if params == [] then line
    else Replace(Substitute(line, Pop(params)), Placeholder(Top(params)), ShellVar(|params| - 1))
  }

  /** `_substitute_params`, with its loop. */
  method SubstituteParams(line: string, params: seq<string>) returns (r: string)
    ensures r == Substitute(line, params)
  {
    r := line;
    for i := 0 to |params|
      invariant r == Substitute(line, params[..i])
    {
      assert params[..i + 1] != [] && Pop(params[..i + 1]) == params[..i] && Top(params[..i + 1]) == params[i];
      r := Replace(r, Placeholder(params[i]), ShellVar(i));
    }
    assert params[..|params|] == params;
  }

  /** A line without `{` holds no placeholder and comes out unchanged. */
  lemma {:induction false} SubstituteBraceFree(line: string, params: seq<string>)
    requires '{' !in line
    ensures Substitute(line, params) == line
  {
    if params != [] {
      SubstituteBraceFree(line, Pop(params));
      var pat := Placeholder(Top(params));
      forall i | OccursAt(line, pat, i) ensures false {
        FirstOfOccurrence(line, pat, i);
      }
      ReplaceAbsent(line, Placeholder(Top(params)), ShellVar(|params| - 1));
    }
  }

  lemma FirstOfOccurrence(s: string, pat: string, i: int)
    requires pat != [] && OccursAt(s, pat, i)
    ensures s[i] == pat[0]
  {
    assert s[i] == s[i..i + |pat|][0];
  }

  /** `[\w\./-]`. */
  predicate IsValueChar(c: char) {
    IsWordChar(c) || c == '.' || c == '/' || c == '-'
  }

  function ValueRun(s: string): (n: nat)
    ensures n <= |s|
    ensures forall i :: 0 <= i < n ==> IsValueChar(s[i])
    ensures n < |s| ==> !IsValueChar(s[n])
  {
    if s == [] || !IsValueChar(s[0]) then 0 else 1 + ValueRun(s[1..])
  }

  /** `re.search(rf'{p}=([\w\./-]+)', s).group(1)` for a word `p`: at the leftmost
      position where `p=` is followed by at least one value character, the longest run
      of them. */
  function SearchAssign(s: string, p: string): (r: Option<string>)
    ensures r.Some? ==> r.value != [] && (forall i :: 0 <= i < |r.value| ==> IsValueChar(r.value[i]))
                        && Contains(s, p + "=" + r.value)
    decreases |s|
  {
    if |s| <= |p| then None
    else
      var n := ValueRun(s[|p| + 1..]);
      if s[..|p|] == p && s[|p|] == '=' && n > 0 then
        var v := s[|p| + 1..|p| + 1 + n];
        assert s[0..|p + "=" + v|] == p + "=" + v;
        assert OccursAt(s, p + "=" + v, 0);
        Some(v)
      else
        var r := SearchAssign(s[1..], p);
        if r.Some? then
          ContainsInTail(s, p + "=" + r.value);
          r
        else r
  }

  /** A line holding `p=v` for a run `v` of value characters ending the line gives a value
      whenever the search gets to it: the search is never empty-handed when the line
      starts with the assignment. */
  lemma AssignFound(p: string, v: string)
    requires v != [] && forall i :: 0 <= i < |v| ==> IsValueChar(v[i])
    ensures SearchAssign(p + "=" + v, p) == Some(v)
  {
    var s := p + "=" + v;
    assert s[|p| + 1..] == v;
    assert s[..|p|] == p && s[|p|] == '=';
    ValueRunAll(v);
    assert s[|p| + 1..|p| + 1 + |v|] == v;
  }

  lemma {:induction false} ValueRunAll(v: string)
    requires forall i :: 0 <= i < |v| ==> IsValueChar(v[i])
    ensures ValueRun(v) == |v|
  {
    if v != [] {
      ValueRunAll(v[1..]);
    }
  }

  predicate IsQuote(c: char) {
    c == '"' || c == '\''
  }

  /** `re.search(rf'["\']{p}["\']', s)` succeeds. */
  predicate HasQuoted(s: string, p: string)
    decreases |s|
  {
    if |s| < |p| + 2 then false
    else (IsQuote(s[0]) && s[1..|p| + 1] == p && IsQuote(s[|p| + 1])) || HasQuoted(s[1..], p)
  }
}
