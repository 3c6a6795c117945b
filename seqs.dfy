/** List filtering as a Python comprehension `[x for x in xs if keep(x)]` or a generator
    that yields the elements it keeps: order is kept, nothing is added. */
module Seqs {
  import opened Basics

  /** The elements that pass `keep`, in their order. */
  function Retain<T>(xs: seq<T>, keep: T -> bool): (r: seq<T>)
    ensures |r| <= |xs|
  {
    if xs == [] then []
    else Retain(Pop(xs), keep) + (if keep(Top(xs)) then [Top(xs)] else [])
  }

  /** Exactly the elements that pass are kept. */
  lemma {:induction false} RetainMembers<T>(xs: seq<T>, keep: T -> bool)
    ensures forall t :: t in Retain(xs, keep) <==> t in xs && keep(t)
  {
    if xs != [] {
      RetainMembers(Pop(xs), keep);
      assert xs == Pop(xs) + [Top(xs)];
    }
  }

  /** Order is kept: fed a concatenation, the filter filters each part. */
  lemma {:induction false} RetainAppend<T>(a: seq<T>, b: seq<T>, keep: T -> bool)
    ensures Retain(a + b, keep) == Retain(a, keep) + Retain(b, keep)
    decreases |b|
  {
    if b == [] {
      assert a + b == a;
    } else {
      assert Pop(a + b) == a + Pop(b) && Top(a + b) == Top(b);
      RetainAppend(a, Pop(b), keep);
    }
  }

  /** A list whose every element passes comes through unchanged. */
  lemma {:induction false} RetainAllKept<T>(xs: seq<T>, keep: T -> bool)
    requires forall i :: 0 <= i < |xs| ==> keep(xs[i])
    ensures Retain(xs, keep) == xs
  {
    if xs != [] {
      var p := Pop(xs);
      assert forall i :: 0 <= i < |p| ==> p[i] == xs[i];
      RetainAllKept(p, keep);
      assert xs == p + [Top(xs)];
    }
  }

  /** One element: it is kept exactly when it occurs and passes. */
  lemma RetainMember<T>(xs: seq<T>, keep: T -> bool, x: T)
    ensures x in Retain(xs, keep) <==> x in xs && keep(x)
  {
    RetainMembers(xs, keep);
  }

  lemma RetainPasses<T>(xs: seq<T>, keep: T -> bool, x: T)
    requires x in Retain(xs, keep)
    ensures keep(x)
  {
    RetainMembers(xs, keep);
  }

  lemma RetainIdempotent<T>(xs: seq<T>, keep: T -> bool)
    ensures Retain(Retain(xs, keep), keep) == Retain(xs, keep)
  {
    var s := Retain(xs, keep);
    forall i | 0 <= i < |s| ensures keep(s[i]) {
      RetainPasses(xs, keep, s[i]);
    }
    RetainAllKept(s, keep);
  }

  lemma {:induction false} RetainCommute<T>(xs: seq<T>, p: T -> bool, q: T -> bool)
    ensures Retain(Retain(xs, q), p) == Retain(Retain(xs, p), q)
  {
    if xs != [] {
      var rest, t := Pop(xs), Top(xs);
      RetainCommute(rest, p, q);
      var tq := if q(t) then [t] else [];
      var tp := if p(t) then [t] else [];
      RetainAppend(Retain(rest, q), tq, p);
      RetainAppend(Retain(rest, p), tp, q);
      assert Pop([t]) == [] && Top([t]) == t;
    }
  }

  /** Some element from position `k` on satisfies `p`: checking one more element. */
  lemma ExistsFromSnoc<T>(xs: seq<T>, k: nat, p: T -> bool)
    requires xs != [] && k <= |xs| - 1
    ensures (exists j :: k <= j < |xs| && p(xs[j]))
            <==> (exists j :: k <= j < |Pop(xs)| && p(Pop(xs)[j])) || p(Top(xs))
  {
    var q := Pop(xs);
    assert forall j :: 0 <= j < |q| ==> q[j] == xs[j];
    if p(Top(xs)) {
      assert xs[|xs| - 1] == Top(xs);
    }
  }

  function Dedup<T(==)>(xs: seq<T>): (r: seq<T>)
    ensures |r| <= |xs|
  {
    if xs == [] then [] else Dedup(Pop(xs)) + (if Top(xs) in Pop(xs) then [] else [Top(xs)])
  }

  lemma {:induction false} DedupMembers<T>(xs: seq<T>)
    ensures forall t :: t in Dedup(xs) <==> t in xs
  {
    if xs != [] {
      DedupMembers(Pop(xs));
      PopTop(xs);
    }
  }

  lemma {:induction false} DedupDistinct<T>(xs: seq<T>)
    ensures forall i, j :: 0 <= i < j < |Dedup(xs)| ==> Dedup(xs)[i] != Dedup(xs)[j]
  {
    if xs != [] {
      DedupDistinct(Pop(xs));
      DedupMembers(Pop(xs));
      var d := Dedup(Pop(xs));
      if Top(xs) !in Pop(xs) {
        forall i, j | 0 <= i < j < |d + [Top(xs)]| ensures (d + [Top(xs)])[i] != (d + [Top(xs)])[j] {
          if j == |d| {
            assert d[i] in d;
          }
        }
      } else {
        assert Dedup(xs) == d + [];
      }
    }
  }

  /** A list without repetitions is its own `Dedup`. */
  lemma {:induction false} DedupKeeps<T>(xs: seq<T>)
    requires forall i, j :: 0 <= i < j < |xs| ==> xs[i] != xs[j]
    ensures Dedup(xs) == xs
  {
    if xs != [] {
      var p := Pop(xs);
      assert forall i, j :: 0 <= i < j < |p| ==> p[i] != p[j] by {
        forall i, j | 0 <= i < j < |p| ensures p[i] != p[j] {
          assert p[i] == xs[i] && p[j] == xs[j];
        }
      }
      DedupKeeps(p);
      assert Top(xs) !in p by {
        forall i | 0 <= i < |p| ensures p[i] != Top(xs) {
          assert p[i] == xs[i];
        }
      }
      PopTop(xs);
    }
  }

  /** How many times `x` occurs. */
  function Count<T(==)>(xs: seq<T>, x: T): nat {
    if xs == [] then 0 else Count(Pop(xs), x) + (if Top(xs) == x then 1 else 0)
  }

  lemma {:induction false} CountAbsent<T>(xs: seq<T>, x: T)
    ensures Count(xs, x) == 0 <==> x !in xs
  {
    if xs != [] {
      CountAbsent(Pop(xs), x);
      PopTop(xs);
    }
  }

  /** The lists `f(x)` of the elements, one after the other: a loop that extends one list
      with the items it makes for each element in turn. */
  function FlatMap<T, U>(xs: seq<T>, f: T -> seq<U>): seq<U> {
    if xs == [] then [] else FlatMap(Pop(xs), f) + f(Top(xs))
  }

  lemma {:induction false} FlatMapAppend<T, U>(a: seq<T>, b: seq<T>, f: T -> seq<U>)
    ensures FlatMap(a + b, f) == FlatMap(a, f) + FlatMap(b, f)
    decreases |b|
  {
    if b == [] {
      assert a + b == a;
    } else {
      PopAppend(a, b);
      FlatMapAppend(a, Pop(b), f);
      AppendAssoc(FlatMap(a, f), FlatMap(Pop(b), f), f(Top(b)));
    }
  }

  /** One more element adds its own list at the end. */
  lemma FlatMapSnoc<T, U>(xs: seq<T>, i: nat, f: T -> seq<U>)
    requires i < |xs|
    ensures FlatMap(xs[..i + 1], f) == FlatMap(xs[..i], f) + f(xs[i])
  {
    assert Pop(xs[..i + 1]) == xs[..i] && Top(xs[..i + 1]) == xs[i];
  }

  /** The list of element `k` sits right behind the lists of the elements before it. */
  lemma FlatMapSplit<T, U>(xs: seq<T>, k: nat, f: T -> seq<U>)
    requires k < |xs|
    ensures FlatMap(xs, f) == FlatMap(xs[..k], f) + f(xs[k]) + FlatMap(xs[k + 1..], f)
  {
    var front, back := xs[..k + 1], xs[k + 1..];
    var whole, before, own, after := FlatMap(xs, f), FlatMap(xs[..k], f), f(xs[k]), FlatMap(back, f);
    assert whole == FlatMap(front, f) + after by {
      assert xs == front + back;
      FlatMapAppend(front, back, f);
    }
    assert FlatMap(front, f) == before + own by {
      FlatMapSnoc(xs, k, f);
    }
  }

  /** An item is in the whole list exactly when it is in the list of some element. */
  lemma {:induction false} FlatMapMembers<T, U>(xs: seq<T>, f: T -> seq<U>, u: U)
    ensures u in FlatMap(xs, f) <==> exists k :: 0 <= k < |xs| && u in f(xs[k])
  {
    if xs != [] {
      FlatMapMembers(Pop(xs), f, u);
      PopTop(xs);
      if u in f(Top(xs)) {
        assert u in f(xs[|xs| - 1]);
      }
      if exists k :: 0 <= k < |xs| && u in f(xs[k]) {
        var k :| 0 <= k < |xs| && u in f(xs[k]);
        if k < |xs| - 1 {
          assert xs[k] == Pop(xs)[k];
        }
      }
    }
  }

  /** Elements whose lists agree give the same whole list. */
  lemma {:induction false} FlatMapAgree<T, U>(xs: seq<T>, ys: seq<T>, f: T -> seq<U>)
    requires |xs| == |ys|
    requires forall k :: 0 <= k < |xs| ==> f(xs[k]) == f(ys[k])
    ensures FlatMap(xs, f) == FlatMap(ys, f)
  {
    if xs != [] {
      FlatMapAgree(Pop(xs), Pop(ys), f);
    }
  }

  /** A list built by a loop whose every step may raise: the values of `f` on the
      elements in order, or the error of the first element that fails. */
  function Collected<T, U>(xs: seq<T>, f: T -> Result<U>): Result<seq<U>> {
    if xs == [] then Ok([])
    else
      var init :- Collected(Pop(xs), f);
      var u :- f(Top(xs));
      Ok(init + [u])
  }

  /** Once a prefix fails, the whole list fails the same way. */
  lemma {:induction false} CollectedFails<T, U>(xs: seq<T>, k: nat, f: T -> Result<U>)
    requires k <= |xs| && Collected(xs[..k], f).Fail?
    ensures Collected(xs, f) == Collected(xs[..k], f)
    decreases |xs|
  {
    if k < |xs| {
      assert Pop(xs)[..k] == xs[..k];
      CollectedFails(Pop(xs), k, f);
    } else {
      assert xs[..k] == xs;
    }
  }

  /** One value per element, in order, when no element fails. */
  lemma {:induction false} CollectedEach<T, U>(xs: seq<T>, f: T -> Result<U>)
    requires forall k :: 0 <= k < |xs| ==> f(xs[k]).Ok?
    ensures Collected(xs, f).Ok? && |Collected(xs, f).value| == |xs|
    ensures forall k :: 0 <= k < |xs| ==> Collected(xs, f).value[k] == f(xs[k]).value
  {
    if xs != [] {
      var p := Pop(xs);
      assert forall k :: 0 <= k < |p| ==> p[k] == xs[k];
      CollectedEach(p, f);
    }
  }

  /** A success means that no element failed. */
  lemma {:induction false} CollectedOnlyIfEach<T, U>(xs: seq<T>, k: nat, f: T -> Result<U>)
    requires Collected(xs, f).Ok? && k < |xs|
    ensures f(xs[k]).Ok?
  {
    var p := Pop(xs);
    if k < |p| {
      assert p[k] == xs[k];
      CollectedOnlyIfEach(p, k, f);
    }
  }

  /** The element whose error a failed list reports: every element before it succeeds. */
  predicate FirstFailure<T, U>(xs: seq<T>, f: T -> Result<U>, k: int) {
    0 <= k < |xs| && f(xs[k]).Fail? && forall j :: 0 <= j < k ==> f(xs[j]).Ok?
  }

  lemma {:induction false} CollectedFirstFailure<T, U>(xs: seq<T>, f: T -> Result<U>)
    requires Collected(xs, f).Fail?
    ensures exists k :: FirstFailure(xs, f, k) && Collected(xs, f).exc == f(xs[k]).exc
  {
    var p := Pop(xs);
    if Collected(p, f).Fail? {
      CollectedFirstFailure(p, f);
      var k :| FirstFailure(p, f, k) && Collected(p, f).exc == f(p[k]).exc;
      assert forall j :: 0 <= j <= k ==> p[j] == xs[j];
      assert FirstFailure(xs, f, k);
    } else {
      forall j | 0 <= j < |p| ensures f(xs[j]).Ok? {
        CollectedOnlyIfEach(p, j, f);
        assert p[j] == xs[j];
      }
      assert FirstFailure(xs, f, |p|);
    }
  }
}
