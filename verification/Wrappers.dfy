/** Optional values, linked lists and small notions shared by the other modules. */
module Wrappers {
  datatype Option<+T> = None | Some(value: T) {
    predicate IsFailure() { None? }

    function PropagateFailure<U>(): Option<U>
      requires None?
    {
      None
    }

    function Extract(): T
      requires Some?
    {
      value
    }
  }

  /** Stacks: the head is the top. */
  datatype List<+T> = Nil | Cons(head: T, tail: List<T>)

  function Append<T>(xs: List<T>, ys: List<T>): List<T> {
    match xs
    case Nil => ys
    case Cons(x, rest) => Cons(x, Append(rest, ys))
  }

  function Length<T>(xs: List<T>): nat {
    match xs
    case Nil => 0
    case Cons(_, rest) => 1 + Length(rest)
  }

  /** The elements from the bottom of the stack up. */
  function BottomUp<T>(xs: List<T>): seq<T> {
    match xs
    case Nil => []
    case Cons(x, rest) => BottomUp(rest) + [x]
  }

  /** Splits off the n topmost elements. */
  function Take<T>(n: nat, xs: List<T>): Option<(List<T>, List<T>)> {
    if n == 0 then Some((Nil, xs))
    else match xs
      case Nil => None
      case Cons(x, rest) =>
        var t :- Take(n - 1, rest);
        Some((Cons(x, t.0), t.1))
  }

  // ---- shared by the collectors and the library ----

  function Max(a: int, b: int): int { if a > b then a else b }

  ghost predicate Distinct<T>(s: seq<T>) {
    forall i, j :: 0 <= i < j < |s| ==> s[i] != s[j]
  }
}
