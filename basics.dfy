/** Failure-compatible wrappers shared by every module: Python's `None`, and the
    exceptions the modelled code raises, carried as values instead of thrown. */
module Basics {

  datatype Option<+T> = None | Some(value: T) {
    predicate IsFailure() { None? }
    function PropagateFailure<U>(): Option<U> requires None? { None }
    function Extract(): T requires Some? { value }
    function GetOr(default: T): T { if Some? then value else default }
  }

  /** The Python exception classes the modelled code can raise, with the message text. */
  datatype Exc =
    | KeyError(key: string)
    | ValueError(msg: string)
    | IndexError(msg: string)
    | TypeError(msg: string)
    | AttributeError(msg: string)
    | NotImplementedError(msg: string)
  {
    /** `str(exc)`: KeyError shows its key in quotes, the others their message. */
    function Describe(): string {
      match this
      case KeyError(k) => "'" + k + "'"
      case ValueError(m) => m
      case IndexError(m) => m
      case TypeError(m) => m
      case AttributeError(m) => m
      case NotImplementedError(m) => m
    }
  }

  datatype Result<+T> = Ok(value: T) | Fail(exc: Exc) {
    predicate IsFailure() { Fail? }
    function PropagateFailure<U>(): Result<U> requires Fail? { Fail(exc) }
    function Extract(): T requires Ok? { value }
  }

  /** Outcome of a statement that returns nothing but may raise. */
  datatype Outcome = Pass | Raise(exc: Exc) {
    predicate IsFailure() { Raise? }
    function PropagateFailure<U>(): Result<U> requires Raise? { Fail(exc) }
  }

  /** The last element of a non-empty list: the top of a stack kept in a Python list. */
  function Top<T>(st: seq<T>): T
    requires st != []
  {
    st[|st| - 1]
  }

  /** The list without its last element: what `pop()` leaves. */
  function Pop<T>(st: seq<T>): seq<T>
    requires st != []
  {
    st[..|st| - 1]
  }

  /** A non-empty list is what `pop()` leaves with the popped element put back. */
  lemma PopTop<T>(st: seq<T>)
    requires st != []
    ensures st == Pop(st) + [Top(st)]
  {
  }

  /** A non-empty list is its first element followed by the rest. */
  lemma HeadTail<T>(xs: seq<T>)
    requires xs != []
    ensures xs == [xs[0]] + xs[1..]
  {
  }

  lemma AppendAssoc<T>(a: seq<T>, b: seq<T>, c: seq<T>)
    ensures (a + b) + c == a + (b + c)
  {
  }

  /** A prefix of a prefix is a prefix. */
  lemma PrefixOfPrefix<T>(a: seq<T>, b: seq<T>, c: seq<T>)
    requires |b| <= |a| && a[..|b|] == b && |c| <= |b| && b[..|c|] == c
    ensures a[..|c|] == c
  {
    assert a[..|c|] == a[..|b|][..|c|];
  }

  /** Reading one more element of `a[j..] + b`. */
  lemma PrefixPopTop<T>(a: seq<T>, i: nat)
    requires i < |a|
    ensures a[..i + 1] != [] && Pop(a[..i + 1]) == a[..i] && Top(a[..i + 1]) == a[i]
  {
  }

  lemma PrefixSnoc<T>(a: seq<T>, j: nat)
    requires j < |a|
    ensures a[..j + 1] == a[..j] + [a[j]]
  {
  }

  lemma SliceStep<T>(a: seq<T>, j: nat, b: seq<T>)
    requires j < |a|
    ensures (a[j..] + b)[0] == a[j] && (a[j..] + b)[1..] == a[j + 1..] + b
  {
  }

  /** Once `a` is read to its end, only `b` is left. */
  lemma SliceDone<T>(a: seq<T>, b: seq<T>)
    ensures a[|a|..] + b == b
  {
  }

  /** A list of two or more is its front followed by its last two elements. */
  lemma LastTwo<T>(xs: seq<T>)
    requires |xs| >= 2
    ensures xs == xs[..|xs| - 2] + [xs[|xs| - 2], xs[|xs| - 1]]
  {
  }

  lemma AppendNil<T>(a: seq<T>)
    ensures a + [] == a
  {
  }

  /** `pop()` on a concatenation takes from its second part. */
  lemma PopAppend<T>(a: seq<T>, b: seq<T>)
    requires b != []
    ensures Pop(a + b) == a + Pop(b) && Top(a + b) == Top(b)
  {
  }
}
