/** `CompileContext`: the state the compiler's visitors share. The counter and the last
    file variable live in one-element lists (`counter[0]`, `last_file_var[0]`) so that a
    caller can hand in its own cell. */
module Context {
  import opened Basics
  import opened Text
  import opened PyValue
  import OrderedDict

  class CompileContext {
    var counter: seq<int>
    var lastFileVar: seq<Option<string>>
    var verbose: bool
    var variables: OrderedDict.ODict<string, Value>
    var metadata: OrderedDict.ODict<string, Value>

    /** Both cells have their first element. */
    predicate Valid()
      reads this
    {
      |counter| >= 1 && |lastFileVar| >= 1
    }

    /** `__init__`: `counter or [0]` and `last_file_var or [None]`, so a missing or empty
        list is replaced by a fresh cell. */
    constructor (counter: Option<seq<int>>, lastFileVar: Option<seq<Option<string>>>, verbose: bool)
      ensures Valid()
      ensures this.counter == if counter.Some? && counter.value != [] then counter.value else [0]
      ensures this.lastFileVar == if lastFileVar.Some? && lastFileVar.value != [] then lastFileVar.value else [None]
      ensures this.verbose == verbose && variables == [] && metadata == []
    {
      this.counter := if counter.Some? && counter.value != [] then counter.value else [0];
      this.lastFileVar := if lastFileVar.Some? && lastFileVar.value != [] then lastFileVar.value else [None];
      this.verbose := verbose;
      variables := [];
      metadata := [];
    }

    /** `reset`. */
    method Reset()
      modifies this
      ensures Valid()
      ensures counter == [0] && lastFileVar == [None] && variables == [] && metadata == []
      ensures verbose == old(verbose)
    {
      counter := [0];
      lastFileVar := [None];
      variables := [];
      metadata := [];
    }

    function GetCounter(): int
      requires Valid()
      reads this
    {
      counter[0]
    }

    /** `increment_counter`: the new value, one more than before. */
    method IncrementCounter() returns (n: int)
      requires Valid()
      modifies this
      ensures Valid() && n == old(GetCounter()) + 1 && GetCounter() == n
      ensures counter[1..] == old(counter[1..])
      ensures lastFileVar == old(lastFileVar) && variables == old(variables) && metadata == old(metadata)
    {
      counter := counter[0 := counter[0] + 1];
      n := counter[0];
    }

    method SetLastFileVar(value: Option<string>)
      requires Valid()
      modifies this
      ensures Valid() && GetLastFileVar() == value && lastFileVar[1..] == old(lastFileVar[1..])
      ensures counter == old(counter) && variables == old(variables) && metadata == old(metadata)
    {
      lastFileVar := lastFileVar[0 := value];
    }

    function GetLastFileVar(): Option<string>
      requires Valid()
      reads this
    {
      lastFileVar[0]
    }

    /** `set_variable`. */
    method SetVariable(name: string, value: Value)
      requires Valid()
      modifies this
      ensures Valid() && variables == OrderedDict.Set(old(variables), name, value)
      ensures counter == old(counter) && lastFileVar == old(lastFileVar) && metadata == old(metadata)
    {
      variables := OrderedDict.Set(variables, name, value);
    }

    /** `get_variable(name, default)`. */
    function GetVariable(name: string, default: Value): (v: Value)
      reads this
    {
      OrderedDict.GetOr(variables, name, default)
    }

    method SetMetadata(key: string, value: Value)
      requires Valid()
      modifies this
      ensures Valid() && metadata == OrderedDict.Set(old(metadata), key, value)
      ensures counter == old(counter) && lastFileVar == old(lastFileVar) && variables == old(variables)
    {
      metadata := OrderedDict.Set(metadata, key, value);
    }

    function GetMetadata(key: string, default: Value): (v: Value)
      reads this
    {
      OrderedDict.GetOr(metadata, key, default)
    }

    /** `get_condition_var`: the name from the counter's current value, then the counter
        moves on. */
    method GetConditionVar() returns (name: string)
      requires Valid()
      modifies this
      ensures Valid() && name == CondName(old(GetCounter())) && GetCounter() == old(GetCounter()) + 1
      ensures counter[1..] == old(counter[1..])
      ensures lastFileVar == old(lastFileVar) && variables == old(variables) && metadata == old(metadata)
    {
      name := CondName(counter[0]);
      counter := counter[0 := counter[0] + 1];
    }
  }

  /** `f"cond{n}"`. */
  function CondName(n: int): (r: string)
    ensures StartsWith(r, "cond") && |r| > 4
  {
    ConcatEnds("cond", IntToString(n));
    "cond" + IntToString(n)
  }

  /** Different counter values give different names, so successive condition variables
      are distinct. */
  lemma CondNamesDistinct(m: int, n: int)
    requires m != n
    ensures CondName(m) != CondName(n)
  {
    if CondName(m) == CondName(n) {
      assert CondName(m)[4..] == IntToString(m);
      assert CondName(n)[4..] == IntToString(n);
      IntToStringInjective(m, n);
    }
  }

  /** A variable reads back as the last value set, a missing one as the default, and
      setting one name leaves the others alone. */
  lemma VariableLookup(vars: OrderedDict.ODict<string, Value>, name: string, value: Value, other: string, default: Value)
    ensures OrderedDict.GetOr(OrderedDict.Set(vars, name, value), name, default) == value
    ensures other != name ==> OrderedDict.GetOr(OrderedDict.Set(vars, name, value), other, default) == OrderedDict.GetOr(vars, other, default)
    ensures !OrderedDict.HasKey(vars, other) ==> OrderedDict.GetOr(vars, other, default) == default
  {
    OrderedDict.GetSetSame(vars, name, value);
    if other != name {
      OrderedDict.GetSetOther(vars, name, value, other);
    }
  }
}
