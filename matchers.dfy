/** The matcher registries: the module-level `matcher_registry` table that
    `register_matcher` fills, and the `MatcherRegistry` class. A matcher function is known
    by an id; what it returns on the arguments of one `run_matcher` call is an oracle
    (`None` included). */
module Matchers {
  import opened Basics
  import opened OrderedDict

  /** The first non-`None` result of the matchers, tried in order. */
  function FirstResult(ids: seq<nat>, result: nat -> Option<string>): (r: Option<string>)
    ensures r.None? <==> forall i :: 0 <= i < |ids| ==> result(ids[i]).None?
    ensures r.Some? ==> exists i :: 0 <= i < |ids| && result(ids[i]) == r
                                 && forall j :: 0 <= j < i ==> result(ids[j]).None?
  {
    if ids == [] then None
    else if result(ids[0]).Some? then result(ids[0])
    else
      var r := FirstResult(ids[1..], result);
      assert forall i :: 1 <= i < |ids| ==> ids[i] == ids[1..][i - 1];
      if r.Some? then
        var k :| 0 <= k < |ids[1..]| && result(ids[1..][k]) == r && forall j :: 0 <= j < k ==> result(ids[1..][j]).None?;
        assert result(ids[k + 1]) == r && forall j :: 0 <= j < k + 1 ==> result(ids[j]).None?;
        r
      else r
  }

  /** The module-level table of matcher functions, by name. */
  class FunctionRegistry {
    var entries: ODict<string, nat>

    constructor ()
      ensures entries == []
    {
      entries := [];
    }

    /** `register_matcher(name)(fn)`: stored under the name, replacing any earlier one. */
    method RegisterMatcher(name: string, fn: nat) returns (same: nat)
      modifies this
      ensures entries == Set(old(entries), name, fn) && same == fn
    {
      entries := Set(entries, name, fn);
      same := fn;
    }

    /** `run_matcher(expected, *args)`, with its loop over the table. */
    method RunMatcher(result: nat -> Option<string>) returns (r: Option<string>)
      ensures r == FirstResult(Values(entries), result)
    {
      var fns := Values(entries);
      for i := 0 to |fns|
        invariant FirstResult(fns, result) == FirstResult(fns[i..], result)
      {
        assert fns[i..][0] == fns[i] && fns[i..][1..] == fns[i + 1..];
        var res := result(fns[i]);
        if res.Some? {
          return res;
        }
      }
      assert fns[|fns|..] == [];
      r := None;
    }
  }

  /** A matcher object: its optional `name` attribute, its class name, whether it has a
      `match` method, and the id of that method. */
  datatype Matcher = Matcher(nameAttr: Option<string>, className: string, hasMatch: bool, id: nat)

  /** The key `MatcherRegistry.register` files a matcher under. */
  function KeyOf(m: Matcher): (k: string)
    ensures m.nameAttr.Some? ==> k == m.nameAttr.value
    ensures m.nameAttr.None? ==> k == m.className
  {
    if m.nameAttr.Some? then m.nameAttr.value else m.className
  }

  /** The ids of the matchers that have a `match` method, in order. */
  function Runnable(ms: seq<Matcher>): (ids: seq<nat>)
    ensures |ids| <= |ms|
  {
    if ms == [] then [] else (if ms[0].hasMatch then [ms[0].id] else []) + Runnable(ms[1..])
  }

  /** A matcher without `match` is never tried; every one with it is. */
  lemma {:induction false} RunnableMembers(ms: seq<Matcher>, id: nat)
    ensures id in Runnable(ms) <==> exists i :: 0 <= i < |ms| && ms[i].hasMatch && ms[i].id == id
  {
    if ms != [] {
      RunnableMembers(ms[1..], id);
      assert forall i :: 1 <= i < |ms| ==> ms[1..][i - 1] == ms[i];
      if exists i :: 0 <= i < |ms| && ms[i].hasMatch && ms[i].id == id {
        var i :| 0 <= i < |ms| && ms[i].hasMatch && ms[i].id == id;
        if i > 0 {
          assert ms[1..][i - 1].hasMatch && ms[1..][i - 1].id == id;
        }
      }
    }
  }

  class MatcherRegistry {
    var matchers: ODict<string, Matcher>

    constructor ()
      ensures matchers == []
    {
      matchers := [];
    }

    /** `register`: under the `name` attribute, else under the class name. */
    method Register(m: Matcher)
      modifies this
      ensures matchers == Set(old(matchers), KeyOf(m), m)
      ensures Get(KeyOf(m)) == Some(m)
    {
      GetSetSame(matchers, KeyOf(m), m);
      matchers := Set(matchers, KeyOf(m), m);
    }

    function Get(name: string): (r: Option<Matcher>)
      reads this
      ensures r.Some? <==> HasKey(matchers, name)
    {
      OrderedDict.Get(matchers, name)
    }

    function List(): (names: seq<string>)
      reads this
      ensures forall n :: n in names <==> HasKey(matchers, n)
    {
      Keys(matchers)
    }

    /** `run_matcher`: the first non-`None` result among the matchers that have `match`. */
    method RunMatcher(result: nat -> Option<string>) returns (r: Option<string>)
      ensures r == FirstResult(Runnable(Values(matchers)), result)
    {
      var ms := Values(matchers);
      for i := 0 to |ms|
        invariant FirstResult(Runnable(ms), result) == FirstResult(Runnable(ms[i..]), result)
      {
        assert ms[i..][0] == ms[i] && ms[i..][1..] == ms[i + 1..];
        if ms[i].hasMatch {
          assert ([ms[i].id] + Runnable(ms[i + 1..]))[1..] == Runnable(ms[i + 1..]);
          var res := result(ms[i].id);
          if res.Some? {
            return res;
          }
        } else {
          assert [] + Runnable(ms[i + 1..]) == Runnable(ms[i + 1..]);
        }
      }
      assert ms[|ms|..] == [];
      r := None;
    }
  }
}
