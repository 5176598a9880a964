/** `Array.prototype.reduce` and `Array.prototype.reduceRight`, with and without
    an initial value, in the order JavaScript visits the elements.
    `arrayToList`, `sum`, `reverseArray`, `flattenArray` and `compose` are
    built on these four. */
module Reductions {
  import opened Results

  /** `s.reduce(f, acc)`: calls `f(acc, elem)` on the elements left to right. */
  function Reduce<A, T>(s: seq<T>, acc: A, f: (A, T) -> A): A
    decreases |s|
  {
    if |s| == 0 then acc else Reduce(s[1..], f(acc, s[0]), f)
  }

  /** `s.reduce(f)`: the first element is the initial accumulator; an empty
      array throws. */
  function ReduceNoSeed<T>(s: seq<T>, f: (T, T) -> T): (r: Result<T>)
    ensures r.Throw? <==> |s| == 0
    ensures |s| == 1 ==> r == Ok(s[0])
  {
    if |s| == 0 then Throw(ReduceOfEmptyArrayWithNoInitialValue)
    else Ok(Reduce(s[1..], s[0], f))
  }

  /** `s.reduceRight(f, acc)`: calls `f(acc, elem)` on the elements right to left. */
  function ReduceRight<A, T>(s: seq<T>, acc: A, f: (A, T) -> A): A
    decreases |s|
  {
    if |s| == 0 then acc else ReduceRight(s[..|s| - 1], f(acc, s[|s| - 1]), f)
  }

  /** `s.reduceRight(f)`: the last element is the initial accumulator; an empty
      array throws. */
  function ReduceRightNoSeed<T>(s: seq<T>, f: (T, T) -> T): (r: Result<T>)
    ensures r.Throw? <==> |s| == 0
    ensures |s| == 1 ==> r == Ok(s[0])
  {
    if |s| == 0 then Throw(ReduceOfEmptyArrayWithNoInitialValue)
    else Ok(ReduceRight(s[..|s| - 1], s[|s| - 1], f))
  }
}
