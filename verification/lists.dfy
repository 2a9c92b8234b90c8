/**
 * The persistent cons list every other structure of the interpreter is built on.
 *
 * A list is modelled by the sequence of its values, head first: `l[0]` is what
 * `car` returns and `l[1..]` is the node `cdr` returns.  The terminal empty node
 * is the empty sequence.  Every operation below mirrors the loop of the original
 * (walking from the head while `length > 0` and consing onto a fresh empty
 * list), so operations that cons while walking come out reversed.
 */
module Lists {
  import opened Wrappers
  import opened Errors

  type List<T> = seq<T>

  /** `car`: the head value; the empty list answers `null`. */
  function Car<T>(l: List<T>): (r: Option<T>)
    ensures r.Some? <==> |l| > 0
    ensures r.Some? ==> r.value == l[0]
  {
    if |l| == 0 then None else Some(l[0])
  }

  /** `cdr`: the next node; the terminal node's `next` is `null`. */
  function Cdr<T>(l: List<T>): (r: Option<List<T>>)
    ensures r.Some? <==> |l| > 0
    ensures r.Some? ==> |r.value| == |l| - 1
  {
    if |l| == 0 then None else Some(l[1..])
  }

  /** `l.cons(x)`: a new head sharing `l` as its tail; `l` itself is untouched. */
  function Cons<T>(l: List<T>, x: T): (r: List<T>)
    ensures |r| == |l| + 1
    ensures Car(r) == Some(x) && Cdr(r) == Some(l)
  {
    [x] + l
  }

  /** The loop of `map`: walks `run` from its head, consing `f` of each value onto `acc`. */
  function MapOnto<T, U>(run: List<T>, f: T -> U, acc: List<U>): (r: List<U>)
    ensures |r| == |run| + |acc|
    ensures forall i :: 0 <= i < |run| ==> r[i] == f(run[|run| - 1 - i])
    ensures r[|run|..] == acc
    decreases |run|
  {
    if |run| == 0 then acc else MapOnto(run[1..], f, Cons(acc, f(run[0])))
  }

  /** `map`: `f` applied to every value, the results in REVERSE order. */
  function Map<T, U>(l: List<T>, f: T -> U): (r: List<U>)
    ensures |r| == |l|
    ensures forall i :: 0 <= i < |l| ==> r[i] == f(l[|l| - 1 - i])
  {
    MapOnto(l, f, [])
  }

  /** The loop of `reverse`: walks `run` from its head, consing each value onto `acc`. */
  function ReverseOnto<T>(run: List<T>, acc: List<T>): (r: List<T>)
    ensures |r| == |run| + |acc|
    ensures forall i :: 0 <= i < |run| ==> r[i] == run[|run| - 1 - i]
    ensures r[|run|..] == acc
    decreases |run|
  {
    if |run| == 0 then acc else ReverseOnto(run[1..], Cons(acc, run[0]))
  }

  /** `reverse`: the same values in the opposite order. */
  function Reverse<T>(l: List<T>): (r: List<T>)
    ensures |r| == |l|
    ensures forall i :: 0 <= i < |l| ==> r[i] == l[|l| - 1 - i]
  {
    ReverseOnto(l, [])
  }

  /** Reference left fold, defined from the last element: `f(...f(f(a, s0), s1)..., sn)`. */
  function FoldLeft<A, T>(f: (A, T) -> A, a: A, s: seq<T>): A
    decreases |s|
  {
    if |s| == 0 then a else f(FoldLeft(f, a, s[..|s| - 1]), s[|s| - 1])
  }

  /** Folding a sequence with a value in front folds the rest from the updated accumulator. */
  lemma {:induction false} FoldLeftCons<A, T>(f: (A, T) -> A, a: A, x: T, s: seq<T>)
    ensures FoldLeft(f, a, [x] + s) == FoldLeft(f, f(a, x), s)
    decreases |s|
  {
    if |s| > 0 {
      assert ([x] + s)[..|s|] == [x] + s[..|s| - 1];
      FoldLeftCons(f, a, x, s[..|s| - 1]);
    }
  }

  /** The `each` loop of `reduce`: threads the accumulator through the values from the head. */
  function ReduceOnto<A, T>(acc: A, run: List<T>, f: (A, T) -> A): (r: A)
    ensures r == FoldLeft(f, acc, run)
    decreases |run|
  {
    if |run| == 0 then acc
    else
      FoldLeftCons(f, acc, run[0], run[1..]);
      assert run == [run[0]] + run[1..];
      ReduceOnto(f(acc, run[0]), run[1..], f)
  }

  /**
   * `reduce(f, seed)`: the empty list answers the seed (absent seed: `undefined`,
   * here `None`); a present seed is folded through every value; without a seed
   * the head is the seed and the rest is folded.
   */
  function Reduce<T>(l: List<T>, f: (T, T) -> T, seed: Option<T>): (r: Option<T>)
    ensures |l| == 0 ==> r == seed
    ensures |l| > 0 && seed.Some? ==> r == Some(FoldLeft(f, seed.value, l))
    ensures |l| > 0 && seed.None? ==> r == Some(FoldLeft(f, l[0], l[1..]))
  {
    if |l| < 1 then seed
    else if seed.Some? then Some(ReduceOnto(seed.value, l, f))
    else Some(ReduceOnto(l[0], l[1..], f))
  }

  /** `reduce` with a seed the caller always supplies, of a type other than the values'. */
  function ReduceSeeded<A, T>(l: List<T>, f: (A, T) -> A, seed: A): (r: A)
    ensures r == FoldLeft(f, seed, l)
  {
    if |l| < 1 then seed else ReduceOnto(seed, l, f)
  }

  /** One value after replacement: `rep` where the value is `=== find`. */
  function Swap<T(==)>(x: T, find: T, rep: T): T {
    if x == find then rep else x
  }

  /** The loop of `replace`: conses each (possibly swapped) value onto `acc`, noting whether any matched. */
  function ReplaceOnto<T(==)>(run: List<T>, find: T, rep: T, acc: List<T>, found: bool): (r: (List<T>, bool))
    ensures |r.0| == |run| + |acc|
    ensures forall i :: 0 <= i < |run| ==> r.0[i] == Swap(run[|run| - 1 - i], find, rep)
    ensures r.0[|run|..] == acc
    ensures r.1 <==> found || find in run
    decreases |run|
  {
    if |run| == 0 then (acc, found)
    else
      var el := run[0];
      assert run == [el] + run[1..];
      if el == find then ReplaceOnto(run[1..], find, rep, Cons(acc, rep), true)
      else ReplaceOnto(run[1..], find, rep, Cons(acc, el), found)
  }

  /**
   * `replace(find, rep)`: a new list, in the original order, with EVERY value
   * `=== find` swapped for `rep`; `null` (here `None`) when nothing matched.
   */
  function Replace<T(==)>(l: List<T>, find: T, rep: T): (r: Option<List<T>>)
    ensures r.None? <==> find !in l
    ensures r.Some? ==> |r.value| == |l|
    ensures r.Some? ==> forall i :: 0 <= i < |l| ==> r.value[i] == Swap(l[i], find, rep)
  {
    var (acc, found) := ReplaceOnto(l, find, rep, [], false);
    if found then Some(Reverse(acc)) else None
  }

  /** The loop of `nth`: step `i` of `n`, throwing when the current node is the last one or the terminal. */
  function NthFrom<T>(run: List<T>, i: int, n: int): (r: Result<Option<T>, Error>)
    requires i <= n || i == 0
    ensures r.Err? <==> i < n && n - i >= |run|
    ensures r.Err? ==> r.error == IndexOutOfBounds
    ensures i < n && n - i < |run| ==> r == Ok(Some(run[n - i]))
    ensures n <= i ==> r == Ok(Car(run))
    decreases n - i
  {
    if i >= n then Ok(Car(run))
    else if |run| < 2 then Err(IndexOutOfBounds)
    else NthFrom(run[1..], i + 1, n)
  }

  /**
   * `nth(n)`: the value at zero-based index `n`.  It throws exactly when
   * `n >= 1` and `n >= length`; `nth` of a non-positive index answers `car`,
   * so `nth(0)` of the empty list is `null`.
   */
  function Nth<T>(l: List<T>, n: int): (r: Result<Option<T>, Error>)
    ensures r.Err? <==> n >= 1 && n >= |l|
    ensures r.Err? ==> r.error == IndexOutOfBounds
    ensures 1 <= n < |l| ==> r == Ok(Some(l[n]))
    ensures n <= 0 ==> r == Ok(Car(l))
  {
    NthFrom(l, 0, n)
  }

  /** Consing onto a list and reversing puts the new value last. */
  lemma ReverseCons<T>(l: List<T>, x: T)
    ensures Reverse(Cons(l, x)) == Reverse(l) + [x]
  {
    var r := Reverse(Cons(l, x));
    assert forall k :: 0 <= k < |r| ==> r[k] == (Reverse(l) + [x])[k];
  }

  /** A prefix in front of a consed list: the new head sits right after the prefix. */
  lemma ConsUnderPrefix<T>(pre: seq<T>, x: T, l: List<T>)
    ensures pre + Cons(l, x) == (pre + [x]) + l
  {
  }

  /** Reversing twice gives back the original list. */
  lemma ReverseInvolutive<T>(l: List<T>)
    ensures Reverse(Reverse(l)) == l
  {
  }

  /** `map` is the in-order image reversed: mapping then reversing restores source order. */
  lemma MapThenReverse<T, U>(l: List<T>, f: T -> U)
    ensures Reverse(Map(l, f)) == seq(|l|, i requires 0 <= i < |l| => f(l[i]))
  {
  }
}
