/** The Python values that YAML documents and the compiler's option dictionaries hold. */
module PyValue {
  import opened Basics
  import opened OrderedDict
  import opened Text

  datatype Value =
    | VNone
    | VBool(b: bool)
    | VInt(i: int)
    | VStr(s: string)
    | VList(items: seq<Value>)
    | VTuple(elems: seq<Value>)
    | VDict(entries: ODict<string, Value>)

  /** `type(v).__name__`, as it appears in Python's error messages. */
  function TypeName(v: Value): string {
    match v
    case VNone => "NoneType"
    case VBool(_) => "bool"
    case VInt(_) => "int"
    case VStr(_) => "str"
    case VList(_) => "list"
    case VTuple(_) => "tuple"
    case VDict(_) => "dict"
  }

  /** `bool(v)`: empty containers, zero, `False` and `None` are falsy. */
  predicate Truthy(v: Value) {
    match v
    case VNone => false
    case VBool(b) => b
    case VInt(i) => i != 0
    case VStr(s) => s != []
    case VList(xs) => xs != []
    case VTuple(xs) => xs != []
    case VDict(e) => e != []
  }

  /** `a or b`. */
  function Or(a: Value, b: Value): (r: Value)
    ensures Truthy(r) <==> Truthy(a) || Truthy(b)
  {
    if Truthy(a) then a else b
  }

  /** `list(v)`: what a `for` loop or `extend` sees when it iterates over `v`. */
  function Iterate(v: Value): (r: Result<seq<Value>>)
    ensures r.Fail? <==> !(v.VList? || v.VTuple? || v.VStr? || v.VDict?)
    ensures v.VList? ==> r == Ok(v.items)
  {
    match v
    case VList(xs) => Ok(xs)
    case VTuple(xs) => Ok(xs)
    case VStr(s) => Ok(seq(|s|, i requires 0 <= i < |s| => VStr([s[i]])))
    case VDict(e) => Ok(seq(|e|, i requires 0 <= i < |e| => VStr(e[i].0)))
    case _ => Fail(TypeError("'" + TypeName(v) + "' object is not iterable"))
  }

  /** The `ValueError` for element `k` of the sequence given to `dict.update` when it has
      `n` items instead of two. */
  function PairLengthError(k: nat, n: nat): Exc {
    ValueError("dictionary update sequence element #" + NatToString(k) + " has length " + NatToString(n) + "; 2 is required")
  }

  /** Element `k` of the sequence `dict.update` iterates when its argument is not a
      mapping: it is itself iterated and must give exactly two items, a hashable key and
      a value. The tables here have string keys. */
  function UpdatePair(e: Value, k: nat): (r: Result<(string, Value)>)
    ensures !(e.VList? || e.VTuple? || e.VStr? || e.VDict?) ==>
              r == Fail(TypeError("cannot convert dictionary update sequence element #" + NatToString(k) + " to a sequence"))
    ensures e.VStr? && |e.s| != 2 ==>
              r == Fail(PairLengthError(k, |e.s|))
    ensures e.VStr? && |e.s| == 2 ==> r == Ok(([e.s[0]], VStr([e.s[1]])))
    ensures (e.VList? || e.VTuple?) && r.Ok? ==> Iterate(e).value == [VStr(r.value.0), r.value.1]
  {
    var it := Iterate(e);
    if it.Fail? then
      Fail(TypeError("cannot convert dictionary update sequence element #" + NatToString(k) + " to a sequence"))
    else if |it.value| != 2 then
      Fail(PairLengthError(k, |it.value|))
    else if !Hashable(it.value[0]) then Fail(TypeError("unhashable type: '" + TypeName(it.value[0]) + "'"))
    else if it.value[0].VStr? then Ok((it.value[0].s, it.value[1]))
    else Fail(TypeError("'" + TypeName(it.value[0]) + "' key"))
  }

  /** The pairs of `items`, element `k` first, assigned into `d` one after the other. */
  function UpdatePairs(d: ODict<string, Value>, items: seq<Value>, k: nat): Result<ODict<string, Value>>
    decreases |items|
  {
    if items == [] then Ok(d)
    else
      var p :- UpdatePair(items[0], k);
      UpdatePairs(Set(d, p.0, p.1), items[1..], k + 1)
  }

  /** `d.update(v)`: a dict adds its pairs in order; any other value is iterated, a value
      that is not iterable raising `TypeError`, and each element is a key/value pair. */
  function DictUpdate(d: ODict<string, Value>, v: Value): (r: Result<ODict<string, Value>>)
    ensures v.VDict? ==> r == Ok(Update(d, v.entries))
    ensures !(v.VList? || v.VTuple? || v.VStr? || v.VDict?) ==>
              r == Fail(TypeError("'" + TypeName(v) + "' object is not iterable"))
  {
    if v.VDict? then Ok(Update(d, v.entries))
    else
      var items :- Iterate(v);
      UpdatePairs(d, items, 0)
  }

  /** A string given to `dict.update` is a sequence of one-character strings, none of
      which is a pair: only the empty string is accepted, and it changes nothing. */
  lemma DictUpdateString(d: ODict<string, Value>, s: string)
    ensures s == "" ==> DictUpdate(d, VStr(s)) == Ok(d)
    ensures s != "" ==> DictUpdate(d, VStr(s)) == Fail(PairLengthError(0, 1))
  {
    if s != "" {
      var items := Iterate(VStr(s)).value;
      assert |items| == |s| && items[0] == VStr([s[0]]);
      assert UpdatePair(items[0], 0) == Fail(PairLengthError(0, 1));
    }
  }

  /** A list of two-item lists with string keys adds its pairs in order, later keys
      replacing earlier ones. */
  lemma {:induction false} DictUpdatePairs(d: ODict<string, Value>, items: seq<Value>, k: nat)
    requires forall i :: 0 <= i < |items| ==> items[i].VList? && |items[i].items| == 2 && items[i].items[0].VStr?
    ensures UpdatePairs(d, items, k) == Ok(Update(d, seq(|items|, i requires 0 <= i < |items| => (items[i].items[0].s, items[i].items[1]))))
    decreases |items|
  {
    var e := seq(|items|, i requires 0 <= i < |items| => (items[i].items[0].s, items[i].items[1]));
    if items != [] {
      var p := UpdatePair(items[0], k);
      assert p == Ok(e[0]);
      DictUpdatePairs(Set(d, e[0].0, e[0].1), items[1..], k + 1);
      assert e[1..] == seq(|items[1..]|, i requires 0 <= i < |items[1..]| => (items[1..][i].items[0].s, items[1..][i].items[1]));
    }
  }

  /** `d.get(k)` on a mapping, `None` when the key is absent. */
  function DictGet(d: ODict<string, Value>, k: string): (r: Value)
    ensures !HasKey(d, k) ==> r == VNone
  {
    GetOr(d, k, VNone)
  }

  /** Whether `hash(v)` succeeds: lists and dicts are unhashable, and so is a tuple that
      holds one. */
  predicate Hashable(v: Value) {
    match v
    case VList(_) => false
    case VDict(_) => false
    case VTuple(xs) => forall i :: 0 <= i < |xs| ==> Hashable(xs[i])
    case _ => true
  }

  /** `x in container`, with the `TypeError`s Python raises for the unsupported cases. */
  function PyContains(container: Value, x: Value): (r: Result<bool>)
    ensures container.VList? ==> r == Ok(x in container.items)
  {
    match container
    case VList(xs) => Ok(x in xs)
    case VTuple(xs) => Ok(x in xs)
    case VStr(s) =>
      if x.VStr? then Ok(Contains(s, x.s))
      else Fail(TypeError("'in <string>' requires string as left operand, not " + TypeName(x)))
    case VDict(e) =>
      if !Hashable(x) then Fail(TypeError("unhashable type: '" + TypeName(x) + "'"))
      else Ok(x.VStr? && HasKey(e, x.s))
    case _ => Fail(TypeError("argument of type '" + TypeName(container) + "' is not iterable"))
  }

  /** The error Python raises when a method is called on a value that lacks it. */
  function NoAttribute(v: Value, name: string): Exc {
    AttributeError("'" + TypeName(v) + "' object has no attribute '" + name + "'")
  }
}
