/** Python's `dict` as the modelled code uses it: a table whose keys keep the order in
    which they were first inserted. It is a list of key/value pairs with distinct keys. */
module OrderedDict {
  import opened Basics

  type ODict<K, V> = seq<(K, V)>

  function Keys<K, V>(d: ODict<K, V>): (ks: seq<K>)
    ensures |ks| == |d|
    ensures forall i :: 0 <= i < |d| ==> ks[i] == d[i].0
  {
    if d == [] then [] else [d[0].0] + Keys(d[1..])
  }

  function Values<K, V>(d: ODict<K, V>): (vs: seq<V>)
    ensures |vs| == |d|
    ensures forall i :: 0 <= i < |d| ==> vs[i] == d[i].1
  {
    if d == [] then [] else [d[0].1] + Values(d[1..])
  }

  predicate Distinct<T(==)>(s: seq<T>) {
    forall i, j :: 0 <= i < j < |s| ==> s[i] != s[j]
  }

  /** A well-formed table: no key occurs twice. */
  predicate Valid<K(==), V>(d: ODict<K, V>) {
    Distinct(Keys(d))
  }

  predicate HasKey<K(==), V>(d: ODict<K, V>, k: K) {
    k in Keys(d)
  }

  /** `d.get(k)`: the value stored under `k`, or `None`. */
  function Get<K(==), V>(d: ODict<K, V>, k: K): (r: Option<V>)
    ensures r.Some? <==> HasKey(d, k)
    ensures r.Some? ==> exists i :: 0 <= i < |d| && d[i] == (k, r.value)
  {
    if d == [] then None
    else if d[0].0 == k then (assert d[0] == (k, d[0].1); Some(d[0].1))
    else
      var r := Get(d[1..], k);
      assert r.Some? ==> exists i :: 0 <= i < |d[1..]| && d[1..][i] == (k, r.value);
      assert r.Some? ==> exists i :: 1 <= i < |d| && d[i] == (k, r.value);
      r
  }

  /** `d.get(k, default)`. */
  function GetOr<K(==), V>(d: ODict<K, V>, k: K, default: V): V {
    Get(d, k).GetOr(default)
  }

  /** `d[k] = v`: an existing key keeps its position, a new key goes to the end. */
  function Set<K(==), V>(d: ODict<K, V>, k: K, v: V): (r: ODict<K, V>)
    ensures Keys(r) == if HasKey(d, k) then Keys(d) else Keys(d) + [k]
  {
    if d == [] then [(k, v)]
    else if d[0].0 == k then [(k, v)] + d[1..]
    else [d[0]] + Set(d[1..], k, v)
  }

  /** `d.pop(k, None)` / `del d[k]` when present: the other entries keep their order. */
  function Remove<K(==), V>(d: ODict<K, V>, k: K): (r: ODict<K, V>)
    ensures !HasKey(r, k)
    ensures |r| <= |d|
  {
    if d == [] then []
    else if d[0].0 == k then Remove(d[1..], k)
    else [d[0]] + Remove(d[1..], k)
  }

  /** `d.update(e)`: every pair of `e`, in order, is assigned into `d`. */
  function Update<K(==), V>(d: ODict<K, V>, e: ODict<K, V>): ODict<K, V>
    decreases |e|
  {
    if e == [] then d else Update(Set(d, e[0].0, e[0].1), e[1..])
  }

  lemma {:induction false} GetSetSame<K, V>(d: ODict<K, V>, k: K, v: V)
    ensures Get(Set(d, k, v), k) == Some(v)
  {
    if d != [] && d[0].0 != k {
      GetSetSame(d[1..], k, v);
    }
  }

  lemma {:induction false} GetSetOther<K, V>(d: ODict<K, V>, k: K, v: V, k': K)
    requires k' != k
    ensures Get(Set(d, k, v), k') == Get(d, k')
  {
    if d != [] && d[0].0 != k {
      GetSetOther(d[1..], k, v, k');
    }
  }

  lemma {:induction false} SetValid<K, V>(d: ODict<K, V>, k: K, v: V)
    requires Valid(d)
    ensures Valid(Set(d, k, v))
  {
    var ks := Keys(d);
    if !HasKey(d, k) {
      forall i, j | 0 <= i < j < |ks + [k]| ensures (ks + [k])[i] != (ks + [k])[j] {
        if j == |ks| {
          assert ks[i] in ks;
        }
      }
    }
  }

  lemma {:induction false} GetRemoveOther<K, V>(d: ODict<K, V>, k: K, k': K)
    requires k' != k
    ensures Get(Remove(d, k), k') == Get(d, k')
  {
    if d != [] {
      GetRemoveOther(d[1..], k, k');
    }
  }

  /** Removing a key keeps exactly the other keys. */
  lemma {:induction false} RemoveKeys<K, V>(d: ODict<K, V>, k: K, k': K)
    ensures HasKey(Remove(d, k), k') <==> HasKey(d, k') && k' != k
  {
    if d != [] {
      RemoveKeys(d[1..], k, k');
      assert Keys(d) == [d[0].0] + Keys(d[1..]);
      if d[0].0 != k {
        assert Keys(Remove(d, k)) == [d[0].0] + Keys(Remove(d[1..], k));
      }
    }
  }

  /** Removing a key keeps a table well formed. */
  lemma {:induction false} RemoveValid<K, V>(d: ODict<K, V>, k: K)
    requires Valid(d)
    ensures Valid(Remove(d, k))
  {
    if d != [] {
      TailValid(d);
      RemoveValid(d[1..], k);
      if d[0].0 != k {
        RemoveKeys(d[1..], k, d[0].0);
        var ks := Keys(Remove(d[1..], k));
        assert Keys(Remove(d, k)) == [d[0].0] + ks;
        assert d[0].0 !in ks;
        forall i, j | 0 <= i < j < |[d[0].0] + ks| ensures ([d[0].0] + ks)[i] != ([d[0].0] + ks)[j] {
          if i == 0 {
            assert ks[j - 1] in ks;
          } else {
            assert ([d[0].0] + ks)[i] == ks[i - 1] && ([d[0].0] + ks)[j] == ks[j - 1];
          }
        }
      }
    }
  }

  /** Removing an absent key changes nothing. */
  lemma {:induction false} RemoveAbsent<K, V>(d: ODict<K, V>, k: K)
    requires !HasKey(d, k)
    ensures Remove(d, k) == d
  {
    if d != [] {
      assert d[0].0 == Keys(d)[0];
      assert Keys(d[1..]) == Keys(d)[1..];
      RemoveAbsent(d[1..], k);
    }
  }

  /** `d[k] = v` for a new key appends the pair. */
  lemma {:induction false} SetAbsent<K, V>(d: ODict<K, V>, k: K, v: V)
    requires !HasKey(d, k)
    ensures Set(d, k, v) == d + [(k, v)]
  {
    if d != [] {
      assert Keys(d)[0] == d[0].0;
      assert forall x :: x in Keys(d[1..]) ==> x in Keys(d) by {
        assert Keys(d) == [d[0].0] + Keys(d[1..]);
      }
      SetAbsent(d[1..], k, v);
      assert [d[0]] + (d[1..] + [(k, v)]) == d + [(k, v)];
    }
  }

  /** After `d[k] = v` every entry is the new pair or an old one. */
  lemma {:induction false} SetEntries<K, V>(d: ODict<K, V>, k: K, v: V)
    ensures forall e :: e in Set(d, k, v) ==> e == (k, v) || e in d
  {
    if d != [] && d[0].0 != k {
      SetEntries(d[1..], k, v);
      assert forall e :: e in d[1..] ==> e in d;
    }
  }

  /** In a well-formed table every entry is what its key reads back. */
  lemma {:induction false} GetAt<K, V>(d: ODict<K, V>, i: nat)
    requires Valid(d) && i < |d|
    ensures Get(d, d[i].0) == Some(d[i].1)
  {
    if i > 0 {
      TailValid(d);
      assert Keys(d)[0] != Keys(d)[i];
      assert d[1..][i - 1] == d[i];
      GetAt(d[1..], i - 1);
    }
  }

  lemma TailValid<K, V>(e: ODict<K, V>)
    requires e != [] && Valid(e)
    ensures Valid(e[1..]) && !HasKey(e[1..], e[0].0)
  {
    assert Keys(e[1..]) == Keys(e)[1..];
  }

  /** After `d.update(e)` a key of `e` holds `e`'s value, any other key its old value. */
  lemma {:induction false} GetUpdate<K, V>(d: ODict<K, V>, e: ODict<K, V>, k: K)
    requires Valid(e)
    ensures Get(Update(d, e), k) == if HasKey(e, k) then Get(e, k) else Get(d, k)
    decreases |e|
  {
    if e != [] {
      var d' := Set(d, e[0].0, e[0].1);
      TailValid(e);
      GetUpdate(d', e[1..], k);
      assert Keys(e) == [e[0].0] + Keys(e[1..]);
      if e[0].0 == k {
        GetSetSame(d, k, e[0].1);
      } else {
        GetSetOther(d, e[0].0, e[0].1, k);
      }
    }
  }

  /** Every key of `d` is kept by `d.update(e)`, and the table stays well-formed. */
  lemma {:induction false} UpdateKeys<K, V>(d: ODict<K, V>, e: ODict<K, V>, k: K)
    ensures HasKey(Update(d, e), k) <==> HasKey(d, k) || HasKey(e, k)
    decreases |e|
  {
    if e != [] {
      var d' := Set(d, e[0].0, e[0].1);
      UpdateKeys(d', e[1..], k);
      assert Keys(e) == [e[0].0] + Keys(e[1..]);
    }
  }

  lemma {:induction false} UpdateValid<K, V>(d: ODict<K, V>, e: ODict<K, V>)
    requires Valid(d)
    ensures Valid(Update(d, e))
    decreases |e|
  {
    if e != [] {
      SetValid(d, e[0].0, e[0].1);
      UpdateValid(Set(d, e[0].0, e[0].1), e[1..]);
    }
  }
}
