/** The token filters of the configurable lexer. The single filters are generators that
    yield the tokens they keep, in order; the composite filter runs its filters one after
    the other, each on the list the previous one produced. */
module Filters {
  import opened Basics
  import opened Text
  import opened LexerCore
  import opened Seqs

  datatype Single = EmptyFilter | WhitespaceFilter | CommentFilter | DebugFilter

  datatype Filter = One(single: Single) | CompositeFilter(filters: seq<Filter>)

  /** Whether a single filter yields `t`. */
  predicate Keeps(f: Single, t: Token) {
    match f
    case EmptyFilter => t.Kind() != "EMPTY"
    case WhitespaceFilter => !Blank(t.value)
    case CommentFilter => !StartsWith(t.value, "#")
    case DebugFilter => true
  }

  /** `Keeps(f, _)` as a value, so that every use names the same function. */
  function KeepsFn(f: Single): Token -> bool {
    t => Keeps(f, t)
  }

  /** The tokens a single filter yields. */
  function Select(f: Single, tokens: seq<Token>): seq<Token> {
    Retain(tokens, KeepsFn(f))
  }

  /** `list(f.filter(tokens))`. */
  function Apply(f: Filter, tokens: seq<Token>): seq<Token>
    decreases f, 1
  {
    match f
    case One(s) => Select(s, tokens)
    case CompositeFilter(fs) => ApplyAll(fs, tokens)
  }

  /** The composite's loop: `current_tokens = list(filter_obj.filter(current_tokens))`. */
  function ApplyAll(filters: seq<Filter>, tokens: seq<Token>): seq<Token>
    decreases filters, 0
  {
    if filters == [] then tokens
    else
      assert filters[0] < CompositeFilter(filters);
      ApplyAll(filters[1..], Apply(filters[0], tokens))
  }

  /** `CompositeFilter(filters).filter(tokens)`, with its list variable. */
  method RunComposite(filters: seq<Filter>, tokens: seq<Token>) returns (current: seq<Token>)
    ensures current == Apply(CompositeFilter(filters), tokens)
  {
    current := tokens;
    assert filters[0..] == filters;
    for i := 0 to |filters|
      invariant ApplyAll(filters[i..], current) == ApplyAll(filters, tokens)
    {
      assert filters[i..][0] == filters[i] && filters[i..][1..] == filters[i + 1..];
      current := Apply(filters[i], current);
    }
  }

  // ---------------------------------------------------------------- the filters

  /** `EmptyFilter` drops exactly the `EMPTY` tokens and keeps the rest in order. */
  lemma EmptyFilterDrops(tokens: seq<Token>, a: seq<Token>, b: seq<Token>)
    ensures forall t :: t in Apply(One(EmptyFilter), tokens) <==> t in tokens && t.ttype != EMPTY
    ensures Apply(One(EmptyFilter), a + b) == Apply(One(EmptyFilter), a) + Apply(One(EmptyFilter), b)
  {
    RetainMembers(tokens, KeepsFn(EmptyFilter));
    forall t | t in tokens ensures t.Kind() == "EMPTY" <==> t.ttype == EMPTY {
      KindInjective(t.ttype, EMPTY);
    }
    RetainAppend(a, b, KeepsFn(EmptyFilter));
  }

  /** `WhitespaceFilter` drops exactly the tokens whose value strips to nothing. */
  lemma WhitespaceFilterDrops(tokens: seq<Token>)
    ensures forall t :: t in Apply(One(WhitespaceFilter), tokens) <==> t in tokens && Strip(t.value) != ""
  {
    RetainMembers(tokens, KeepsFn(WhitespaceFilter));
    forall t | t in tokens ensures Blank(t.value) <==> Strip(t.value) == "" {
      BlankIsStripEmpty(t.value);
    }
  }

  /** `CommentFilter` drops exactly the tokens whose value starts with `#`. */
  lemma CommentFilterDrops(tokens: seq<Token>)
    ensures forall t :: t in Apply(One(CommentFilter), tokens) <==> t in tokens && !StartsWith(t.value, "#")
  {
    RetainMembers(tokens, KeepsFn(CommentFilter));
  }

  /** The debug filter yields its input unchanged. */
  lemma DebugIdentity(tokens: seq<Token>)
    ensures Apply(One(DebugFilter), tokens) == tokens
  {
    RetainAllKept(tokens, KeepsFn(DebugFilter));
  }

  /** Running a single filter twice is running it once. */
  lemma SingleIdempotent(f: Single, tokens: seq<Token>)
    ensures Apply(One(f), Apply(One(f), tokens)) == Apply(One(f), tokens)
  {
    RetainIdempotent(tokens, KeepsFn(f));
  }

  /** Two single filters give the same tokens in either order. */
  lemma SinglesCommute(f: Single, g: Single, tokens: seq<Token>)
    ensures Apply(CompositeFilter([One(f), One(g)]), tokens) == Apply(CompositeFilter([One(g), One(f)]), tokens)
  {
    RetainCommute(tokens, KeepsFn(g), KeepsFn(f));
    ApplyPair(f, g, tokens);
    ApplyPair(g, f, tokens);
  }

  lemma ApplyPair(f: Single, g: Single, tokens: seq<Token>)
    ensures Apply(CompositeFilter([One(f), One(g)]), tokens) == Select(g, Select(f, tokens))
  {
    var fs := [One(f), One(g)];
    assert fs[0] == One(f) && fs[1..] == [One(g)];
    assert [One(g)][1..] == [];
    assert ApplyAll(fs, tokens) == ApplyAll([One(g)], Select(f, tokens));
  }

  /** An empty composite is the identity. */
  lemma CompositeEmpty(tokens: seq<Token>)
    ensures Apply(CompositeFilter([]), tokens) == tokens
  {
  }

  /** A composite is the left-to-right composition of its filters: splitting its list in
      two and running the halves one after the other gives the same tokens. */
  lemma {:induction false} CompositeSplit(fs: seq<Filter>, gs: seq<Filter>, tokens: seq<Token>)
    ensures Apply(CompositeFilter(fs + gs), tokens)
            == Apply(CompositeFilter(gs), Apply(CompositeFilter(fs), tokens))
    decreases |fs|
  {
    if fs == [] {
      assert fs + gs == gs;
    } else {
      assert (fs + gs)[0] == fs[0] && (fs + gs)[1..] == fs[1..] + gs;
      CompositeSplit(fs[1..], gs, Apply(fs[0], tokens));
    }
  }

  /** Whatever any filter yields was in its input: filters only drop tokens. */
  lemma {:induction false} ApplySubset(f: Filter, tokens: seq<Token>)
    ensures forall t :: t in Apply(f, tokens) ==> t in tokens
    ensures |Apply(f, tokens)| <= |tokens|
    decreases f, 1
  {
    match f
    case One(s) => RetainMembers(tokens, KeepsFn(s));
    case CompositeFilter(fs) => ApplyAllSubset(fs, tokens);
  }

  lemma {:induction false} ApplyAllSubset(filters: seq<Filter>, tokens: seq<Token>)
    ensures forall t :: t in ApplyAll(filters, tokens) ==> t in tokens
    ensures |ApplyAll(filters, tokens)| <= |tokens|
    decreases filters, 0
  {
    if filters != [] {
      assert filters[0] < CompositeFilter(filters);
      ApplySubset(filters[0], tokens);
      ApplyAllSubset(filters[1..], Apply(filters[0], tokens));
    }
  }
}
