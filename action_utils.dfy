/** The pattern helpers of the compiler: a pattern such as `le fichier {path} existe`
    names its variables in braces; a regex is built from it that anchors the text, quotes
    the literal parts and captures one group per placeholder; and a matched text binds the
    variables to the groups. The search for the two placeholder regexes is modelled here;
    matching the built regex against a text is left to a parameter. The check of an action
    context is the module `ActionContext`. */
module ActionUtils {
  import opened Basics
  import opened Seqs
  import opened Text
  import opened OrderedDict

  // ----- the placeholder regexes -----

  /** The two placeholder regexes of the module: `\{([^}]+)\}`, whose name is anything
      without a closing brace, and `\{(\w+)\}`, whose name is made of word characters. */
  datatype Placeholder = AnyName | WordName

  predicate NameChar(kind: Placeholder, c: char) {
    match kind
    case AnyName => c != '}'
    case WordName => IsWordChar(c)
  }

  /** The length of the leading run of name characters. */
  function NameRun(kind: Placeholder, s: string): (n: nat)
    ensures n <= |s|
    ensures forall i :: 0 <= i < n ==> NameChar(kind, s[i])
    ensures n < |s| ==> !NameChar(kind, s[n])
  {
    if s == [] || !NameChar(kind, s[0]) then 0 else 1 + NameRun(kind, s[1..])
  }

  /** The length of the placeholder match at the front of `s`, if there is one. A closing
      brace is no name character, so giving back part of the greedy name run cannot make
      a shorter match. */
  function MatchLen(kind: Placeholder, s: string): (r: Option<nat>)
    ensures r.Some? ==> 3 <= r.value <= |s| && s[0] == '{' && s[r.value - 1] == '}'
  {
    if s == [] || s[0] != '{' then None
    else
      var n := NameRun(kind, s[1..]);
      if n >= 1 && n + 1 < |s| && s[n + 1] == '}' then Some(n + 2) else None
  }

  /** The span `[start, end)` of one match. */
  datatype Span = Span(start: nat, end: nat)

  function Shift(ms: seq<Span>, k: nat): (r: seq<Span>)
    ensures |r| == |ms|
    ensures forall i :: 0 <= i < |ms| ==> r[i] == Span(ms[i].start + k, ms[i].end + k)
  {
    if ms == [] then [] else [Span(ms[0].start + k, ms[0].end + k)] + Shift(ms[1..], k)
  }

  /** `re.finditer` of a placeholder regex over `s`: the spans of the matches, found
      left to right, each search starting where the previous match ended. */
  function Scan(kind: Placeholder, s: string): seq<Span>
    decreases |s|
  {
    if s == [] then []
    else
      match MatchLen(kind, s)
      case Some(n) => [Span(0, n)] + Shift(Scan(kind, s[n..]), n)
      case None => Shift(Scan(kind, s[1..]), 1)
  }

  /** Spans in order, not overlapping, from `pos` on, each a brace-enclosed match in `s`. */
  predicate Chained(s: string, ms: seq<Span>, pos: nat) {
    ms == [] || (pos <= ms[0].start && ms[0].start + 3 <= ms[0].end <= |s|
                 && s[ms[0].start] == '{' && s[ms[0].end - 1] == '}'
                 && Chained(s, ms[1..], ms[0].end))
  }

  /** Chained spans of `t` stay chained when `t` is put after `pre`. */
  lemma {:induction false} ChainedShift(pre: string, t: string, ms: seq<Span>, pos: nat)
    requires Chained(t, ms, pos)
    ensures Chained(pre + t, Shift(ms, |pre|), |pre| + pos)
  {
    if ms != [] {
      ChainedShift(pre, t, ms[1..], ms[0].end);
      assert Shift(ms, |pre|)[1..] == Shift(ms[1..], |pre|);
      assert (pre + t)[|pre| + ms[0].start] == t[ms[0].start];
      assert (pre + t)[|pre| + ms[0].end - 1] == t[ms[0].end - 1];
    }
  }

  lemma {:induction false} ChainedLater(s: string, ms: seq<Span>, pos: nat, pos': nat)
    requires Chained(s, ms, pos) && pos' <= pos
    ensures Chained(s, ms, pos')
  {
  }

  lemma {:induction false} ScanChained(kind: Placeholder, s: string)
    ensures Chained(s, Scan(kind, s), 0)
    decreases |s|
  {
    if s != [] {
      var m := MatchLen(kind, s);
      if m.Some? {
        var n := m.value;
        ScanChained(kind, s[n..]);
        ChainedAfterMatch(s, n, Scan(kind, s[n..]));
      } else {
        ScanChained(kind, s[1..]);
        ChainedAfterSkip(s, Scan(kind, s[1..]));
      }
    }
  }

  lemma ChainedAfterMatch(s: string, n: nat, ms: seq<Span>)
    requires 3 <= n <= |s| && s[0] == '{' && s[n - 1] == '}' && Chained(s[n..], ms, 0)
    ensures Chained(s, [Span(0, n)] + Shift(ms, n), 0)
  {
    var rest := Shift(ms, n);
    assert Chained(s, rest, n) by {
      ChainedShift(s[..n], s[n..], ms, 0);
      assert s[..n] + s[n..] == s;
    }
    var all := [Span(0, n)] + rest;
    assert all[0] == Span(0, n) && all[1..] == rest;
  }

  lemma ChainedAfterSkip(s: string, ms: seq<Span>)
    requires s != [] && Chained(s[1..], ms, 0)
    ensures Chained(s, Shift(ms, 1), 0)
  {
    ChainedShift(s[..1], s[1..], ms, 0);
    assert s[..1] + s[1..] == s;
    ChainedLater(s, Shift(ms, 1), 1, 0);
  }

  /** The group of each span: the text between the braces. */
  function Groups(s: string, ms: seq<Span>): (r: seq<string>)
    requires Within(s, ms)
    ensures |r| == |ms|
  {
    if ms == [] then [] else [s[ms[0].start + 1..ms[0].end - 1]] + Groups(s, ms[1..])
  }

  /** Spans that lie inside `s`, each longer than its two braces. */
  predicate Within(s: string, ms: seq<Span>) {
    forall i :: 0 <= i < |ms| ==> ms[i].start + 2 <= ms[i].end <= |s|
  }

  lemma {:induction false} ChainedWithin(s: string, ms: seq<Span>, pos: nat)
    requires Chained(s, ms, pos)
    ensures Within(s, ms)
  {
    if ms != [] {
      ChainedWithin(s, ms[1..], ms[0].end);
      assert forall i :: 1 <= i < |ms| ==> ms[i] == ms[1..][i - 1];
    }
  }

  // ----- extract_variables_from_pattern -----

  /** The names `extract_variables_from_pattern` returns: the text inside each `{...}`
      found by `\{([^}]+)\}`, in order of appearance. */
  function Variables(pattern: string): seq<string> {
    ScanChained(AnyName, pattern);
    ChainedWithin(pattern, Scan(AnyName, pattern), 0);
    Groups(pattern, Scan(AnyName, pattern))
  }

  /** The names of the `\{(\w+)\}` placeholders, the ones the built regex captures. */
  function WordNames(pattern: string): seq<string> {
    ScanChained(WordName, pattern);
    ChainedWithin(pattern, Scan(WordName, pattern), 0);
    Groups(pattern, Scan(WordName, pattern))
  }

  lemma GroupsStep(s: string, ms: seq<Span>, i: nat)
    requires Within(s, ms) && i < |ms|
    ensures Groups(s, ms[i..]) == [s[ms[i].start + 1..ms[i].end - 1]] + Groups(s, ms[i + 1..])
  {
    assert ms[i..][1..] == ms[i + 1..];
  }

  /** `extract_variables_from_pattern`. */
  method ExtractVariablesFromPattern(pattern: string) returns (variables: seq<string>)
    ensures variables == Variables(pattern)
  {
    var ms := Scan(AnyName, pattern);
    ScanChained(AnyName, pattern);
    ChainedWithin(pattern, ms, 0);
    variables := [];
    for i := 0 to |ms|
      invariant variables + Groups(pattern, ms[i..]) == Groups(pattern, ms)
    {
      GroupsStep(pattern, ms, i);
      variables := variables + [pattern[ms[i].start + 1..ms[i].end - 1]];
    }
    assert ms[|ms|..] == [];
  }

  // ----- build_regex_from_pattern -----

  /** The characters `re.escape` puts a backslash before. */
  predicate Special(c: char) {
    c == '(' || c == ')' || c == '[' || c == ']' || c == '{' || c == '}' || c == '?'
    || c == '*' || c == '+' || c == '-' || c == '|' || c == '^' || c == '$' || c == '\\'
    || c == '.' || c == '&' || c == '~' || c == '#' || c == ' ' || c == '\t' || c == '\n'
    || c == '\r' || c == '\U{b}' || c == '\U{c}'
  }

  /** `re.escape(s)`. */
  function Escape(s: string): string {
    if s == [] then [] else (if Special(s[0]) then ['\\', s[0]] else [s[0]]) + Escape(s[1..])
  }

  /** Reading a backslash as "the next character stands for itself". */
  function Unescape(t: string): string
    decreases |t|
  {
    if t == [] then []
    else if t[0] == '\\' && |t| >= 2 then [t[1]] + Unescape(t[2..])
    else [t[0]] + Unescape(t[1..])
  }

  /** Quoting loses nothing: the quoted text reads back as the text. */
  lemma {:induction false} UnescapeEscape(s: string)
    ensures Unescape(Escape(s)) == s
  {
    if s != [] {
      UnescapeEscape(s[1..]);
      var e := Escape(s);
      if Special(s[0]) {
        assert e[2..] == Escape(s[1..]);
      } else {
        assert e[1..] == Escape(s[1..]);
      }
      assert s == [s[0]] + s[1..];
    }
  }

  lemma {:induction false} EscapeAppend(a: string, b: string)
    ensures Escape(a + b) == Escape(a) + Escape(b)
  {
    if a == [] {
      assert a + b == b;
    } else {
      assert (a + b)[1..] == a[1..] + b;
      EscapeAppend(a[1..], b);
    }
  }

  /** The regex text `build_regex_from_pattern` joins for the spans `ms` from `pos` on:
      the quoted text before each placeholder, `(.+)` for it, and the quoted rest;
      `i` is the index of the next span. */
  function Body(s: string, ms: seq<Span>, i: nat, pos: nat): string
    decreases |ms| - i
  {
    if i >= |ms| then Gap(s, pos, |s|)
    else Gap(s, pos, ms[i].start) + "(.+)" + Body(s, ms, i + 1, ms[i].end)
  }

  /** `re.escape(s[i:j])` with Python's slicing, which is empty when `j <= i`. */
  function Gap(s: string, i: nat, j: nat): string {
    if i < j <= |s| then Escape(s[i..j]) else ""
  }

  /** `(?i)` when the match ignores case. */
  function Flag(caseSensitive: bool): string {
    if caseSensitive then "" else "(?i)"
  }

  /** The regex `build_regex_from_pattern` returns. */
  function RegexOf(pattern: string, caseSensitive: bool): string {
    Flag(caseSensitive) + "^" + RegexBody(pattern) + "$"
  }

  /** What lies between the anchors. */
  function RegexBody(pattern: string): string {
    ScanChained(WordName, pattern);
    Body(pattern, Scan(WordName, pattern), 0, 0)
  }

  lemma ChainedStep(s: string, ms: seq<Span>, i: nat, pos: nat)
    requires i < |ms| && Chained(s, ms[i..], pos)
    ensures Chained(s, ms[i + 1..], ms[i].end) && pos <= ms[i].start <= ms[i].end <= |s|
  {
    assert ms[i..][1..] == ms[i + 1..];
  }

  /** `build_regex_from_pattern`. */
  method BuildRegexFromPattern(pattern: string, caseSensitive: bool) returns (r: string)
    ensures r == RegexOf(pattern, caseSensitive)
  {
    var parts := RegexParts(pattern);
    var regex := "^" + Join("", parts) + "$";
    if !caseSensitive {
      regex := "(?i)" + regex;
    }
    return regex;
  }

  /** The loop of `build_regex_from_pattern` over the placeholder matches, which
      collects `regex_parts` while it moves `pos` past each match. */
  method RegexParts(pattern: string) returns (parts: seq<string>)
    ensures Join("", parts) == RegexBody(pattern)
  {
    var ms := Scan(WordName, pattern);
    ScanChained(WordName, pattern);
    parts := [];
    var pos: nat := 0;
    for i := 0 to |ms|
      invariant pos <= |pattern| && Chained(pattern, ms[i..], pos)
      invariant Join("", parts) + Body(pattern, ms, i, pos) == Body(pattern, ms, 0, 0)
    {
      ChainedStep(pattern, ms, i, pos);
      ghost var done, before := Join("", parts), Gap(pattern, pos, ms[i].start);
      ghost var after := Body(pattern, ms, i + 1, ms[i].end);
      parts, pos := AddPlaceholder(pattern, parts, pos, ms[i]);
      Regroup(done, before, "(.+)", after);
    }
    var rest := if pos < |pattern| then Escape(pattern[pos..]) else "";
    assert pattern[pos..] == pattern[pos..|pattern|];
    if pos < |pattern| {
      JoinNothingSnoc(parts, rest);
      parts := parts + [rest];
    }
  }

  lemma Regroup(a: string, b: string, c: string, d: string)
    ensures (a + b + c) + d == a + (b + c + d)
  {
  }

  /** One match: the quoted text since `pos`, when there is some, then the group. */
  method AddPlaceholder(pattern: string, parts: seq<string>, pos: nat, m: Span) returns (parts': seq<string>, pos': nat)
    requires pos <= m.start <= m.end <= |pattern|
    ensures pos' == m.end
    ensures Join("", parts') == Join("", parts) + Gap(pattern, pos, m.start) + "(.+)"
  {
    parts' := parts;
    if m.start > pos {
      JoinNothingSnoc(parts', Escape(pattern[pos..m.start]));
      parts' := parts' + [Escape(pattern[pos..m.start])];
    }
    JoinNothingSnoc(parts', "(.+)");
    parts' := parts' + ["(.+)"];
    pos' := m.end;
  }

  // ----- patterns made of literal text and placeholders -----

  /** A pattern read as literal text and `{name}` placeholders. */
  datatype Piece = Lit(text: string) | Hole(name: string)

  function Render(ps: seq<Piece>): string {
    if ps == [] then ""
    else (match ps[0] case Lit(t) => t case Hole(n) => "{" + n + "}") + Render(ps[1..])
  }

  function Names(ps: seq<Piece>): seq<string> {
    if ps == [] then [] else (if ps[0].Hole? then [ps[0].name] else []) + Names(ps[1..])
  }

  /** What the regex should say: quoted literal text, a capturing group per placeholder. */
  function Translated(ps: seq<Piece>): string {
    if ps == [] then ""
    else (match ps[0] case Lit(t) => Escape(t) case Hole(_) => "(.+)") + Translated(ps[1..])
  }

  /** A piece the placeholder regex reads as intended: literal text opens no brace, a
      placeholder name is not empty and made of name characters. */
  predicate PlainPiece(kind: Placeholder, p: Piece) {
    match p
    case Lit(t) => '{' !in t
    case Hole(n) => n != [] && forall j :: 0 <= j < |n| ==> NameChar(kind, n[j])
  }

  predicate Plain(kind: Placeholder, ps: seq<Piece>) {
    forall i :: 0 <= i < |ps| ==> PlainPiece(kind, ps[i])
  }

  lemma {:induction false} ShiftShift(ms: seq<Span>, a: nat, b: nat)
    ensures Shift(Shift(ms, a), b) == Shift(ms, a + b)
  {
    var l, r := Shift(Shift(ms, a), b), Shift(ms, a + b);
    forall i | 0 <= i < |l| ensures l[i] == r[i] {
      assert Shift(ms, a)[i] == Span(ms[i].start + a, ms[i].end + a);
    }
  }

  lemma ShiftZero(ms: seq<Span>)
    ensures Shift(ms, 0) == ms
  {
  }

  /** Text that opens no brace holds no match. */
  lemma {:induction false} ScanLit(kind: Placeholder, t: string, rest: string)
    requires '{' !in t
    ensures Scan(kind, t + rest) == Shift(Scan(kind, rest), |t|)
  {
    if t == [] {
      assert t + rest == rest;
      ShiftZero(Scan(kind, rest));
    } else {
      var s := t + rest;
      assert t[0] in t;
      ScanSkip(kind, s);
      assert s[1..] == t[1..] + rest;
      ScanLit(kind, t[1..], rest);
      ShiftShift(Scan(kind, rest), |t| - 1, 1);
    }
  }

  /** A first character that opens no brace is skipped. */
  lemma ScanSkip(kind: Placeholder, s: string)
    requires s != [] && s[0] != '{'
    ensures Scan(kind, s) == Shift(Scan(kind, s[1..]), 1)
  {
  }

  lemma {:induction false} NameRunOf(kind: Placeholder, n: string, rest: string)
    requires forall j :: 0 <= j < |n| ==> NameChar(kind, n[j])
    requires rest != [] && !NameChar(kind, rest[0])
    ensures NameRun(kind, n + rest) == |n|
  {
    if n != [] {
      assert (n + rest)[1..] == n[1..] + rest;
      NameRunOf(kind, n[1..], rest);
    } else {
      assert n + rest == rest;
    }
  }

  /** A placeholder is one match, and the search goes on after it. */
  lemma ScanHole(kind: Placeholder, n: string, rest: string)
    requires PlainPiece(kind, Hole(n))
    ensures Scan(kind, "{" + n + "}" + rest) == [Span(0, |n| + 2)] + Shift(Scan(kind, rest), |n| + 2)
  {
    var s := "{" + n + "}" + rest;
    assert s[1..] == n + ("}" + rest);
    NameRunOf(kind, n, "}" + rest);
    assert s[|n| + 1] == '}';
    assert MatchLen(kind, s) == Some(|n| + 2);
    assert s[|n| + 2..] == rest;
  }

  lemma {:induction false} GroupsShift(pre: string, t: string, ms: seq<Span>)
    requires Within(t, ms)
    ensures Within(pre + t, Shift(ms, |pre|))
    ensures Groups(pre + t, Shift(ms, |pre|)) == Groups(t, ms)
  {
    if ms != [] {
      GroupsShift(pre, t, ms[1..]);
      assert Shift(ms, |pre|)[1..] == Shift(ms[1..], |pre|);
      assert (pre + t)[|pre| + ms[0].start + 1..|pre| + ms[0].end - 1] == t[ms[0].start + 1..ms[0].end - 1];
    }
  }

  /** The names the regex finds in a plain pattern are its placeholders, in order. */
  lemma {:induction false} NamesOfPieces(kind: Placeholder, ps: seq<Piece>)
    requires Plain(kind, ps)
    ensures Within(Render(ps), Scan(kind, Render(ps)))
    ensures Groups(Render(ps), Scan(kind, Render(ps))) == Names(ps)
  {
    var s := Render(ps);
    ScanChained(kind, s);
    ChainedWithin(s, Scan(kind, s), 0);
    if ps != [] {
      var r := Render(ps[1..]);
      assert Plain(kind, ps[1..]) by {
        assert forall i :: 1 <= i < |ps| ==> ps[i] == ps[1..][i - 1];
      }
      NamesOfPieces(kind, ps[1..]);
      assert PlainPiece(kind, ps[0]);
      if ps[0].Lit? {
        NamesAfterLit(kind, ps[0].text, r);
      } else {
        NamesAfterHole(kind, ps[0].name, r);
      }
    }
  }

  lemma NamesAfterLit(kind: Placeholder, t: string, r: string)
    requires '{' !in t && Within(r, Scan(kind, r))
    ensures Within(t + r, Scan(kind, t + r))
    ensures Groups(t + r, Scan(kind, t + r)) == Groups(r, Scan(kind, r))
  {
    ScanLit(kind, t, r);
    GroupsShift(t, r, Scan(kind, r));
  }

  lemma NamesAfterHole(kind: Placeholder, n: string, r: string)
    requires PlainPiece(kind, Hole(n)) && Within(r, Scan(kind, r))
    ensures Within("{" + n + "}" + r, Scan(kind, "{" + n + "}" + r))
    ensures Groups("{" + n + "}" + r, Scan(kind, "{" + n + "}" + r)) == [n] + Groups(r, Scan(kind, r))
  {
    ScanHole(kind, n, r);
    HoleGroups(n, r, Scan(kind, r));
  }

  /** Spans after a placeholder in front keep their groups, after the placeholder's name. */
  lemma HoleGroups(n: string, r: string, rms: seq<Span>)
    requires Within(r, rms)
    ensures Within("{" + n + "}" + r, [Span(0, |n| + 2)] + Shift(rms, |n| + 2))
    ensures Groups("{" + n + "}" + r, [Span(0, |n| + 2)] + Shift(rms, |n| + 2)) == [n] + Groups(r, rms)
  {
    var h := "{" + n + "}";
    var s := h + r;
    GroupsShift(h, r, rms);
    assert s[1..|n| + 1] == n;
    GroupsCons(s, Span(0, |n| + 2), Shift(rms, |h|));
  }

  /** A span in front adds its group in front. */
  lemma GroupsCons(s: string, m: Span, ms: seq<Span>)
    requires m.start + 2 <= m.end <= |s| && Within(s, ms)
    ensures Within(s, [m] + ms)
    ensures Groups(s, [m] + ms) == [s[m.start + 1..m.end - 1]] + Groups(s, ms)
  {
    assert ([m] + ms)[1..] == ms;
  }

  /** `extract_variables_from_pattern` on a plain pattern: the names of its placeholders,
      in order of appearance. */
  lemma VariablesOfPieces(ps: seq<Piece>)
    requires Plain(AnyName, ps)
    ensures Variables(Render(ps)) == Names(ps)
  {
    NamesOfPieces(AnyName, ps);
  }

  /** A placeholder made of word characters is also one for `\{([^}]+)\}`. */
  lemma WordPiecesPlain(ps: seq<Piece>)
    requires Plain(WordName, ps)
    ensures Plain(AnyName, ps)
  {
    forall i | 0 <= i < |ps| ensures PlainPiece(AnyName, ps[i]) {
      assert PlainPiece(WordName, ps[i]);
    }
  }

  /** On a pattern whose placeholders are words, both regexes find the same names. */
  lemma WordNamesAgree(ps: seq<Piece>)
    requires Plain(WordName, ps)
    ensures Variables(Render(ps)) == WordNames(Render(ps)) == Names(ps)
  {
    WordPiecesPlain(ps);
    VariablesOfPieces(ps);
    NamesOfPieces(WordName, ps);
  }

  /** Translating a suffix in place is translating it on its own. */
  lemma {:induction false} BodyDrop(s: string, k: nat, ms: seq<Span>, i: nat, p: nat)
    requires k <= |s|
    ensures Body(s, Shift(ms, k), i, k + p) == Body(s[k..], ms, i, p)
    decreases |ms| - i
  {
    if i >= |ms| {
      GapDrop(s, k, p, |s| - k);
    } else {
      BodyDrop(s, k, ms, i + 1, ms[i].end);
      BodyDropStep(s, k, ms, i, p);
    }
  }

  /** One span of `BodyDrop`, given the rest. */
  lemma BodyDropStep(s: string, k: nat, ms: seq<Span>, i: nat, p: nat)
    requires k <= |s| && i < |ms|
    requires Body(s, Shift(ms, k), i + 1, k + ms[i].end) == Body(s[k..], ms, i + 1, ms[i].end)
    ensures Body(s, Shift(ms, k), i, k + p) == Body(s[k..], ms, i, p)
  {
    var sm, t := Shift(ms, k), s[k..];
    var m := ms[i];
    assert sm[i] == Span(m.start + k, m.end + k);
    GapDrop(s, k, p, m.start);
    BodyAt(s, sm, i, k + p);
    BodyAt(t, ms, i, p);
  }

  /** One span's step of the translation. */
  lemma BodyAt(s: string, ms: seq<Span>, i: nat, pos: nat)
    requires i < |ms|
    ensures Body(s, ms, i, pos) == Gap(s, pos, ms[i].start) + "(.+)" + Body(s, ms, i + 1, ms[i].end)
  {
  }

  lemma GapDrop(s: string, k: nat, i: nat, j: nat)
    requires k <= |s|
    ensures Gap(s, k + i, k + j) == Gap(s[k..], i, j)
  {
    if i < j <= |s| - k {
      assert s[k + i..k + j] == s[k..][i..j];
    }
  }

  /** A span put in front moves every index by one. */
  lemma {:induction false} BodyCons(s: string, m: Span, ms: seq<Span>, i: nat, p: nat)
    ensures Body(s, [m] + ms, i + 1, p) == Body(s, ms, i, p)
    decreases |ms| - i
  {
    if i < |ms| {
      assert ([m] + ms)[i + 1] == ms[i];
      BodyCons(s, m, ms, i + 1, ms[i].end);
    }
  }

  /** A gap from the start is the quoted prefix, empty or not. */
  lemma GapFromStart(s: string, j: nat)
    requires j <= |s|
    ensures Gap(s, 0, j) == Escape(s[0..j])
  {
    if j == 0 {
      assert s[0..j] == [];
    }
  }

  /** Quoted text in front of a pattern is quoted before its first gap. */
  lemma GapLit(t: string, r: string, j: nat)
    requires j <= |r|
    ensures Gap(t + r, 0, |t| + j) == Escape(t) + Gap(r, 0, j)
  {
    GapFromStart(r, j);
    GapFromStart(t + r, |t| + j);
    assert (t + r)[0..|t| + j] == t + r[0..j];
    EscapeAppend(t, r[0..j]);
  }

  /** Literal text without a brace is quoted in front of the rest's regex. */
  lemma BodyAfterLit(t: string, r: string)
    requires '{' !in t
    ensures RegexBody(t + r) == Escape(t) + RegexBody(r)
  {
    var ms := Scan(WordName, r);
    ScanChained(WordName, r);
    ScanLit(WordName, t, r);
    if ms == [] {
      LitBeforeText(t, r);
    } else {
      LitBeforeMatch(t, r, ms);
    }
  }

  lemma LitBeforeText(t: string, r: string)
    ensures Body(t + r, [], 0, 0) == Escape(t) + Body(r, [], 0, 0)
  {
    GapLit(t, r, |r|);
  }

  lemma LitBeforeMatch(t: string, r: string, ms: seq<Span>)
    requires ms != [] && Chained(r, ms, 0)
    ensures Body(t + r, Shift(ms, |t|), 0, 0) == Escape(t) + Body(r, ms, 0, 0)
  {
    var start, end := ms[0].start, ms[0].end;
    LitBeforeFirst(t, r, ms, start, end);
    BodyFirst(r, ms, 0, start, end);
    Regroup(Escape(t), Gap(r, 0, start), "(.+)", Body(r, ms, 1, end));
  }

  /** Quoted text in front moves the first span and joins the gap before it. */
  lemma LitBeforeFirst(t: string, r: string, ms: seq<Span>, start: nat, end: nat)
    requires ms != [] && ms[0] == Span(start, end) && start <= |r|
    ensures Body(t + r, Shift(ms, |t|), 0, 0) == Escape(t) + Gap(r, 0, start) + "(.+)" + Body(r, ms, 1, end)
  {
    LitGapFirst(t, r, ms, start, end);
    BodyDropLit(t, r, ms, end);
  }

  lemma LitGapFirst(t: string, r: string, ms: seq<Span>, start: nat, end: nat)
    requires ms != [] && ms[0] == Span(start, end) && start <= |r|
    ensures Body(t + r, Shift(ms, |t|), 0, 0)
            == Escape(t) + Gap(r, 0, start) + "(.+)" + Body(t + r, Shift(ms, |t|), 1, |t| + end)
  {
    GapLit(t, r, start);
    BodyShiftFirst(t + r, ms, |t|, start, end);
  }

  lemma BodyShiftFirst(s: string, ms: seq<Span>, k: nat, start: nat, end: nat)
    requires ms != [] && ms[0] == Span(start, end)
    ensures Body(s, Shift(ms, k), 0, 0) == Gap(s, 0, k + start) + "(.+)" + Body(s, Shift(ms, k), 1, k + end)
  {
    var sm := Shift(ms, k);
    assert sm[0] == Span(k + start, k + end);
    BodyFirst(s, sm, 0, k + start, k + end);
  }

  lemma BodyDropLit(t: string, r: string, ms: seq<Span>, p: nat)
    ensures Body(t + r, Shift(ms, |t|), 1, |t| + p) == Body(r, ms, 1, p)
  {
    assert (t + r)[|t|..] == r;
    BodyDrop(t + r, |t|, ms, 1, p);
  }

  lemma BodyFirst(s: string, ms: seq<Span>, pos: nat, start: nat, end: nat)
    requires ms != [] && ms[0] == Span(start, end)
    ensures Body(s, ms, 0, pos) == Gap(s, pos, start) + "(.+)" + Body(s, ms, 1, end)
  {
  }

  /** A placeholder becomes one capturing group. */
  lemma BodyAfterHole(n: string, r: string)
    requires PlainPiece(WordName, Hole(n))
    ensures RegexBody("{" + n + "}" + r) == "(.+)" + RegexBody(r)
  {
    ScanHole(WordName, n, r);
    ScanChained(WordName, r);
    HoleBody(n, r, Scan(WordName, r));
  }

  /** Spans after a placeholder in front translate as before, after one group. */
  lemma HoleBody(n: string, r: string, rms: seq<Span>)
    ensures Body("{" + n + "}" + r, [Span(0, |n| + 2)] + Shift(rms, |n| + 2), 0, 0) == "(.+)" + Body(r, rms, 0, 0)
  {
    var h := "{" + n + "}";
    assert |h| == |n| + 2;
    var s, sm, m := h + r, Shift(rms, |h|), Span(0, |h|);
    BodyOpening(s, m, sm);
    assert Body(s, [m] + sm, 0, 0) == "(.+)" + Body(s, [m] + sm, 1, |h|);
    BodyCons(s, m, sm, 0, |h|);
    assert Body(s, [m] + sm, 1, |h|) == Body(s, sm, 0, |h|);
    assert s[|h|..] == r;
    BodyDrop(s, |h|, rms, 0, 0);
    assert Body(s, sm, 0, |h|) == Body(r, rms, 0, 0);
  }

  /** A span at the very start: the translation opens with its group. */
  lemma BodyOpening(s: string, m: Span, ms: seq<Span>)
    requires m.start == 0
    ensures Body(s, [m] + ms, 0, 0) == "(.+)" + Body(s, [m] + ms, 1, m.end)
  {
    var rest := Body(s, [m] + ms, 1, m.end);
    BodyAt(s, [m] + ms, 0, 0);
    assert Gap(s, 0, 0) == [];
    assert [] + "(.+)" == "(.+)";
  }

  /** The regex of a plain pattern quotes its literal text and captures its placeholders. */
  lemma {:induction false} BodyOfPieces(ps: seq<Piece>)
    requires Plain(WordName, ps)
    ensures RegexBody(Render(ps)) == Translated(ps)
  {
    if ps != [] {
      assert Plain(WordName, ps[1..]) by {
        assert forall i :: 1 <= i < |ps| ==> ps[i] == ps[1..][i - 1];
      }
      BodyOfPieces(ps[1..]);
      assert PlainPiece(WordName, ps[0]);
      if ps[0].Lit? {
        BodyAfterLit(ps[0].text, Render(ps[1..]));
      } else {
        BodyAfterHole(ps[0].name, Render(ps[1..]));
      }
    }
  }

  /** `build_regex_from_pattern` anchors the translation and prefixes `(?i)` exactly when
      the match ignores case. */
  lemma RegexOfPieces(ps: seq<Piece>, caseSensitive: bool)
    requires Plain(WordName, ps)
    ensures RegexOf(Render(ps), caseSensitive) == Flag(caseSensitive) + "^" + Translated(ps) + "$"
  {
    BodyOfPieces(ps);
  }

  // ----- match_pattern_with_variables -----

  /** The table the loop of `match_pattern_with_variables` fills: the `i`-th variable is
      set to the `i`-th group when there is one; a later variable of the same name wins. */
  function Bound(vars: seq<string>, groups: seq<string>): ODict<string, string> {
    if vars == [] then []
    else
      var d := Bound(Pop(vars), groups);
      if |vars| - 1 < |groups| then Set(d, Top(vars), groups[|vars| - 1]) else d
  }

  /** `match_pattern_with_variables`: `rematch(regex, text)` stands for `re.match`, giving
      the groups of a match or `None`. */
  function MatchedVariables(pattern: string, text: string, caseSensitive: bool,
                            rematch: (string, string) -> Option<seq<string>>): Option<ODict<string, string>>
  {
    var groups :- rematch(RegexOf(pattern, caseSensitive), text);
    Some(Bound(Variables(pattern), groups))
  }

  method MatchPatternWithVariables(pattern: string, text: string, caseSensitive: bool,
                                   rematch: (string, string) -> Option<seq<string>>)
    returns (r: Option<ODict<string, string>>)
    ensures r == MatchedVariables(pattern, text, caseSensitive, rematch)
  {
    var regex := BuildRegexFromPattern(pattern, caseSensitive);
    var m := rematch(regex, text);
    if m.None? {
      return None;
    }
    var groups := m.value;
    var variables := ExtractVariablesFromPattern(pattern);
    var result: ODict<string, string> := [];
    for i := 0 to |variables|
      invariant result == Bound(variables[..i], groups)
    {
      BoundStep(variables, groups, i);
      if i < |groups| {
        result := Set(result, variables[i], groups[i]);
      }
    }
    assert variables[..|variables|] == variables;
    return Some(result);
  }

  /** One more variable binds its group, when it has one. */
  lemma BoundStep(vars: seq<string>, groups: seq<string>, i: nat)
    requires i < |vars|
    ensures Bound(vars[..i + 1], groups)
            == if i < |groups| then Set(Bound(vars[..i], groups), vars[i], groups[i]) else Bound(vars[..i], groups)
  {
    var front := vars[..i + 1];
    assert Pop(front) == vars[..i] && Top(front) == vars[i];
  }

  /** The table has no key twice. */
  lemma {:induction false} BoundValid(vars: seq<string>, groups: seq<string>)
    ensures Valid(Bound(vars, groups))
  {
    if vars != [] {
      BoundValid(Pop(vars), groups);
      if |vars| - 1 < |groups| {
        SetValid(Bound(Pop(vars), groups), Top(vars), groups[|vars| - 1]);
      }
    }
  }

  /** A name is bound exactly when some variable of that name has a group. */
  lemma {:induction false} BoundKeys(vars: seq<string>, groups: seq<string>, k: string)
    ensures HasKey(Bound(vars, groups), k) <==> exists i :: 0 <= i < |vars| && i < |groups| && vars[i] == k
  {
    if vars != [] {
      BoundKeys(Pop(vars), groups, k);
      BoundSnocKey(vars, groups, k);
      BoundWitnessSnoc(vars, groups, k);
    }
  }

  /** The last variable binds its name when it has a group. */
  lemma BoundSnocKey(vars: seq<string>, groups: seq<string>, k: string)
    requires vars != []
    ensures HasKey(Bound(vars, groups), k)
            <==> HasKey(Bound(Pop(vars), groups), k) || (|vars| - 1 < |groups| && Top(vars) == k)
  {
    var n, t := |vars| - 1, Top(vars);
    var d := Bound(Pop(vars), groups);
    if n < |groups| {
      if t == k {
        GetSetSame(d, t, groups[n]);
      } else {
        GetSetOther(d, t, groups[n], k);
      }
    }
  }

  lemma BoundWitnessSnoc(vars: seq<string>, groups: seq<string>, k: string)
    requires vars != []
    ensures (exists i :: 0 <= i < |vars| && i < |groups| && vars[i] == k)
            <==> (exists i :: 0 <= i < |vars| - 1 && i < |groups| && Pop(vars)[i] == k)
                 || (|vars| - 1 < |groups| && Top(vars) == k)
  {
    var pv, n := Pop(vars), |vars| - 1;
    if exists i :: 0 <= i < |vars| && i < |groups| && vars[i] == k {
      var i :| 0 <= i < |vars| && i < |groups| && vars[i] == k;
      if i < n {
        assert pv[i] == k;
      }
    }
    if exists i :: 0 <= i < n && i < |groups| && pv[i] == k {
      var i :| 0 <= i < n && i < |groups| && pv[i] == k;
      assert vars[i] == k;
    }
  }

  /** No match gives `None`; a match binds only extracted variables, each one that has a group,
      in a table with distinct keys. */
  lemma MatchedKeys(pattern: string, text: string, caseSensitive: bool,
                    rematch: (string, string) -> Option<seq<string>>, k: string)
    ensures MatchedVariables(pattern, text, caseSensitive, rematch).None?
            <==> rematch(RegexOf(pattern, caseSensitive), text).None?
    ensures MatchedVariables(pattern, text, caseSensitive, rematch).Some? ==>
              var d := MatchedVariables(pattern, text, caseSensitive, rematch).value;
              var groups := rematch(RegexOf(pattern, caseSensitive), text).value;
              Valid(d)
              && (HasKey(d, k) <==> exists i :: 0 <= i < |Variables(pattern)| && i < |groups| && Variables(pattern)[i] == k)
  {
    var m := rematch(RegexOf(pattern, caseSensitive), text);
    if m.Some? {
      BoundValid(Variables(pattern), m.value);
      BoundKeys(Variables(pattern), m.value, k);
    }
  }

  /** The value of a name is the group of its last variable that has one. */
  lemma {:induction false} BoundLast(vars: seq<string>, groups: seq<string>, i: nat)
    requires i < |vars| && i < |groups|
    requires forall j :: i < j < |vars| && j < |groups| ==> vars[j] != vars[i]
    ensures Get(Bound(vars, groups), vars[i]) == Some(groups[i])
  {
    var n := |vars| - 1;
    var d := Bound(Pop(vars), groups);
    if i == n {
      GetSetSame(d, vars[i], groups[i]);
    } else {
      assert Pop(vars)[i] == vars[i];
      BoundLast(Pop(vars), groups, i);
      if n < |groups| {
        GetSetOther(d, vars[n], groups[n], vars[i]);
      }
    }
  }

  /** `build_regex_from_pattern` captures a group for each `{word}` placeholder, while
      `extract_variables_from_pattern` lists every braced name; the binding that pairs each
      group with the placeholder it comes from uses the `{word}` names. */
  function MatchedIntended(pattern: string, text: string, caseSensitive: bool,
                           rematch: (string, string) -> Option<seq<string>>): Option<ODict<string, string>>
  {
    var groups :- rematch(RegexOf(pattern, caseSensitive), text);
    Some(Bound(WordNames(pattern), groups))
  }

  /** With one group per capture of the regex, the corrected binding gives each placeholder
      name the group its own placeholder captured (the last one, for a repeated name). */
  lemma IntendedBindsOwnGroup(pattern: string, text: string, caseSensitive: bool,
                              rematch: (string, string) -> Option<seq<string>>, i: nat)
    requires rematch(RegexOf(pattern, caseSensitive), text).Some?
    requires |rematch(RegexOf(pattern, caseSensitive), text).value| == |Scan(WordName, pattern)|
    requires i < |Scan(WordName, pattern)|
    requires forall j :: i < j < |WordNames(pattern)| ==> WordNames(pattern)[j] != WordNames(pattern)[i]
    ensures MatchedIntended(pattern, text, caseSensitive, rematch).Some?
    ensures Get(MatchedIntended(pattern, text, caseSensitive, rematch).value, WordNames(pattern)[i])
            == Some(rematch(RegexOf(pattern, caseSensitive), text).value[i])
  {
    var groups := rematch(RegexOf(pattern, caseSensitive), text).value;
    BoundLast(WordNames(pattern), groups, i);
  }

  /** When every placeholder is a `{word}`, the source's binding is the corrected one. */
  lemma AgreeOnWordPatterns(ps: seq<Piece>, text: string, caseSensitive: bool,
                            rematch: (string, string) -> Option<seq<string>>)
    requires Plain(WordName, ps)
    ensures MatchedVariables(Render(ps), text, caseSensitive, rematch)
            == MatchedIntended(Render(ps), text, caseSensitive, rematch)
  {
    WordNamesAgree(ps);
  }

  /** A braced name that starts with a character outside `\w` is only text to the
      `{word}` search. */
  lemma ScanOtherHole(n: string, rest: string)
    requires n != [] && !IsWordChar(n[0]) && '{' !in n
    ensures Scan(WordName, "{" + n + "}" + rest) == Shift(Scan(WordName, rest), |n| + 2)
  {
    var s, t := "{" + n + "}" + rest, n + "}";
    assert s[1..] == t + rest;
    assert NameRun(WordName, s[1..]) == 0;
    ScanLit(WordName, t, rest);
    ShiftShift(Scan(WordName, rest), |t|, 1);
  }

  /** A pattern with an ordinary placeholder after one whose name is not a `\w` word. */
  const MixedPieces := [Hole("-"), Hole("c")]

  const MixedPattern := Render(MixedPieces)

  /** The only `{word}` match is `{c}`. */
  lemma MixedPatternScan()
    ensures Scan(WordName, MixedPattern) == [Span(3, 6)]
  {
    var c := "{" + "c" + "}" + "";
    assert MixedPattern == "{" + "-" + "}" + c;
    ScanHole(WordName, "c", "");
    assert Scan(WordName, c) == [Span(0, 3)];
    ScanOtherHole("-", c);
  }

  /** Its regex therefore has one group, while both braced names are variables. */
  lemma MixedPatternNames()
    ensures WordNames(MixedPattern) == ["c"]
    ensures Variables(MixedPattern) == ["-", "c"]
  {
    var p := MixedPattern;
    MixedPatternScan();
    ChainedWithin(p, [Span(3, 6)], 0);
    assert p[4..5] == "c";
    assert Plain(AnyName, MixedPieces);
    VariablesOfPieces(MixedPieces);
  }

  /** The regex quotes `{-}` and has one group, for `{c}`. */
  lemma MixedPatternRegex()
    ensures RegexOf(MixedPattern, false) == "(?i)^" + Escape("{-}") + "(.+)" + "$"
  {
    var p := MixedPattern;
    MixedPatternScan();
    var ms := [Span(3, 6)];
    BodyFirst(p, ms, 0, 3, 6);
    assert p[0..3] == "{-}";
    assert Gap(p, 6, |p|) == "";
    assert Body(p, ms, 1, 6) == "";
  }

  /** Given such a match, the source binds `c`'s group to `-` and leaves `c` unbound. */
  lemma MisalignedGroups(text: string, rematch: (string, string) -> Option<seq<string>>)
    requires rematch(RegexOf(MixedPattern, false), text) == Some(["x"])
    ensures MatchedVariables(MixedPattern, text, false, rematch) == Some([("-", "x")])
    ensures MatchedIntended(MixedPattern, text, false, rematch) == Some([("c", "x")])
  {
    MixedPatternNames();
    var g := ["x"];
    assert Pop(["-", "c"]) == ["-"] && Pop(["-"]) == [] && Pop(["c"]) == [];
    assert Bound(["-"], g) == [("-", "x")];
    assert Bound(["-", "c"], g) == [("-", "x")];
    assert Bound(["c"], g) == [("c", "x")];
  }
}
