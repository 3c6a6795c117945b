/** The occurrence counters of the binder and of the visitor: a `dict` (a `defaultdict(int)`
    in the visitor) updated by `counter[key] = counter.get(key, 0) + 1` for each key in turn. */
module Counter {
  import opened Basics
  import opened Seqs
  import OrderedDict

  /** `counter.get(key, 0) + 1`, by a walk of the table. */
  function Bumped<K(==)>(d: OrderedDict.ODict<K, nat>, k: K): nat {
    if d == [] then 1 else if d[0].0 == k then d[0].1 + 1 else Bumped(d[1..], k)
  }

  lemma {:induction false} BumpedGet<K>(d: OrderedDict.ODict<K, nat>, k: K)
    ensures Bumped(d, k) == OrderedDict.GetOr(d, k, 0) + 1
  {
    if d != [] && d[0].0 != k {
      BumpedGet(d[1..], k);
    }
  }

  /** The counter `d` after the keys have been counted into it in order. */
  function Counted<K(==)>(d: OrderedDict.ODict<K, nat>, keys: seq<K>): OrderedDict.ODict<K, nat> {
    if keys == [] then d
    else
      var c := Counted(d, Pop(keys));
      OrderedDict.Set(c, Top(keys), Bumped(c, Top(keys)))
  }

  /** A counter that starts empty. */
  function Tally<K(==)>(keys: seq<K>): OrderedDict.ODict<K, nat> {
    Counted([], keys)
  }

  /** Counting one more key. */
  lemma CountedSnoc<K>(d: OrderedDict.ODict<K, nat>, keys: seq<K>, k: K)
    ensures Counted(d, keys + [k]) == OrderedDict.Set(Counted(d, keys), k, Bumped(Counted(d, keys), k))
  {
    assert Pop(keys + [k]) == keys && Top(keys + [k]) == k;
  }

  lemma CountedPrefix<K>(d: OrderedDict.ODict<K, nat>, keys: seq<K>, i: nat)
    requires i < |keys|
    ensures Counted(d, keys[..i + 1]) == OrderedDict.Set(Counted(d, keys[..i]), keys[i], Bumped(Counted(d, keys[..i]), keys[i]))
  {
    PrefixSnoc(keys, i);
    CountedSnoc(d, keys[..i], keys[i]);
  }

  /** Counting two lists one after the other is counting their concatenation. */
  lemma {:induction false} CountedAppend<K>(d: OrderedDict.ODict<K, nat>, a: seq<K>, b: seq<K>)
    ensures Counted(Counted(d, a), b) == Counted(d, a + b)
    decreases |b|
  {
    if b == [] {
      assert a + b == a;
    } else {
      assert Pop(a + b) == a + Pop(b) && Top(a + b) == Top(b);
      CountedAppend(d, a, Pop(b));
    }
  }

  /** The counter lists each key once, in order of first occurrence. */
  lemma {:induction false} TallyKeys<K>(keys: seq<K>)
    ensures OrderedDict.Keys(Tally(keys)) == Dedup(keys)
  {
    if keys != [] {
      TallyKeys(Pop(keys));
      DedupMembers(Pop(keys));
    }
  }

  /** The counter holds how often each key occurs. */
  lemma {:induction false} TallyCounts<K>(keys: seq<K>, k: K)
    ensures OrderedDict.GetOr(Tally(keys), k, 0) == Count(keys, k)
  {
    if keys != [] {
      TallyCounts(Pop(keys), k);
      var d := Tally(Pop(keys));
      var v := Bumped(d, Top(keys));
      BumpedGet(d, Top(keys));
      if Top(keys) == k {
        OrderedDict.GetSetSame(d, k, v);
      } else {
        OrderedDict.GetSetOther(d, Top(keys), v, k);
      }
    }
  }

  lemma TallyValid<K>(keys: seq<K>)
    ensures OrderedDict.Valid(Tally(keys))
  {
    TallyKeys(keys);
    DedupDistinct(keys);
  }

  /** A key has an entry above one in the counter exactly when it occurs more than once. */
  lemma RepeatedEntry<K>(keys: seq<K>, k: K)
    ensures (exists i :: 0 <= i < |Tally(keys)| && Tally(keys)[i].0 == k && Tally(keys)[i].1 > 1) <==> Count(keys, k) > 1
  {
    var d := Tally(keys);
    TallyValid(keys);
    TallyCounts(keys, k);
    if exists i :: 0 <= i < |d| && d[i].0 == k && d[i].1 > 1 {
      var i :| 0 <= i < |d| && d[i].0 == k && d[i].1 > 1;
      OrderedDict.GetAt(d, i);
    }
    if Count(keys, k) > 1 {
      CountAbsent(keys, k);
      TallyKeys(keys);
      DedupMembers(keys);
      assert k in OrderedDict.Keys(d);
      var i :| 0 <= i < |d| && OrderedDict.Keys(d)[i] == k;
      OrderedDict.GetAt(d, i);
    }
  }

  /** A counter entry above one. */
  function IsRepeated<K>(e: (K, nat)): bool {
    e.1 > 1
  }

  /** A key is among the repeated entries exactly when it has an entry counted above one. */
  lemma RepeatedKeys<K>(entries: seq<(K, nat)>, k: K)
    ensures OrderedDict.HasKey(Retain(entries, IsRepeated), k)
            <==> exists i :: 0 <= i < |entries| && entries[i].0 == k && entries[i].1 > 1
  {
    var r := Retain(entries, IsRepeated);
    var ks := OrderedDict.Keys(r);
    if k in ks {
      var i :| 0 <= i < |ks| && ks[i] == k;
      var e := r[i];
      RetainMember(entries, IsRepeated, e);
      var j :| 0 <= j < |entries| && entries[j] == e;
      assert entries[j].0 == k && entries[j].1 > 1;
    }
    if exists i :: 0 <= i < |entries| && entries[i].0 == k && entries[i].1 > 1 {
      var i :| 0 <= i < |entries| && entries[i].0 == k && entries[i].1 > 1;
      var e := entries[i];
      assert IsRepeated(e);
      RetainMember(entries, IsRepeated, e);
      var j :| 0 <= j < |r| && r[j] == e;
      assert ks[j] == k;
    }
  }
}
