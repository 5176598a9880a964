/** `compose`: chaining unary functions with `reduceRight`. */
module Composition {
  import opened Results
  import opened Reductions

  /** Apply `fns` to `x` one after another, first function first. */
  function ApplyInOrder<T>(fns: seq<T -> T>, x: T): T
    decreases |fns|
  {
    if |fns| == 0 then x else ApplyInOrder(fns[1..], fns[0](x))
  }

  /** The `reduceRight` callback of `compose`: from the accumulated function
      `f` and the current one `g`, the function `x => f(g(x))`. */
  function ComposeStep<T>(f: T -> T, g: T -> T): T -> T
  {
    x => f(g(x))
  }

  /** `compose(...fns)`: `reduceRight` over the functions with no initial value,
      so the last function is the first accumulator and an empty list throws.
      The composed function applies `fns` left to right:
      `compose(f1, ..., fn)(x) == fn(...f2(f1(x))...)`. */
  function Compose<T(!new)>(fns: seq<T -> T>): (r: Result<T -> T>)
    ensures r.Throw? <==> fns == []
    ensures r.Ok? ==> forall x :: r.value(x) == ApplyInOrder(fns, x)
  {
    ReduceRightNoSeedComposes(fns);
    ReduceRightNoSeed(fns, ComposeStep)
  }

  /** Applying the functions in order and then one more is applying the
      extended list in order. */
  lemma {:induction false} ApplyInOrderSnoc<T>(fns: seq<T -> T>, g: T -> T, x: T)
    ensures ApplyInOrder(fns + [g], x) == g(ApplyInOrder(fns, x))
    decreases |fns|
  {
    if |fns| == 0 {
      assert fns + [g] == [g];
    } else {
      assert (fns + [g])[1..] == fns[1..] + [g];
      ApplyInOrderSnoc(fns[1..], g, fns[0](x));
    }
  }

  /** A non-empty sequence is its prefix followed by its last element. */
  lemma SplitLast<T>(s: seq<T>)
    requires |s| > 0
    ensures s[..|s| - 1] + [s[|s| - 1]] == s
  {
  }

  /** Folding `ComposeStep` right to left onto `acc` applies the functions of
      `fns` in order and then `acc`. */
  lemma {:induction false} ReduceRightComposes<T>(fns: seq<T -> T>, acc: T -> T, x: T)
    ensures ReduceRight(fns, acc, ComposeStep)(x) == acc(ApplyInOrder(fns, x))
    decreases |fns|
  {
    if |fns| > 0 {
      var n := |fns|;
      var prefix, last := fns[..n - 1], fns[n - 1];
      var acc' := ComposeStep(acc, last);
      var y := ApplyInOrder(prefix, x);
      assert ReduceRight(fns, acc, ComposeStep) == ReduceRight(prefix, acc', ComposeStep);
      ReduceRightComposes(prefix, acc', x);
      assert acc'(y) == acc(last(y));
      SplitLast(fns);
      ApplyInOrderSnoc(prefix, last, x);
    }
  }

  /** The right-to-left fold of `ComposeStep` with no initial value throws on
      an empty list, and otherwise applies the functions in order. */
  lemma ReduceRightNoSeedComposes<T>(fns: seq<T -> T>)
    ensures fns == [] <==> ReduceRightNoSeed(fns, ComposeStep).Throw?
    ensures fns != [] ==> forall x :: ReduceRightNoSeed(fns, ComposeStep).value(x) == ApplyInOrder(fns, x)
  {
    if fns != [] {
      var n := |fns|;
      forall x
        ensures ReduceRightNoSeed(fns, ComposeStep).value(x) == ApplyInOrder(fns, x)
      {
        ReduceRightComposes(fns[..n - 1], fns[n - 1], x);
        SplitLast(fns);
        ApplyInOrderSnoc(fns[..n - 1], fns[n - 1], x);
      }
    }
  }

  /** A single function is returned as it is, and with two functions the
      first one is applied first: `compose(f, g)(x) == g(f(x))`. */
  lemma ComposeSmall<T(!new)>(f: T -> T, g: T -> T, x: T)
    ensures Compose([f]) == Ok(f)
    ensures Compose([f, g]).Ok? && Compose([f, g]).value(x) == g(f(x))
  {
    assert [f, g][1..] == [g];
    assert ApplyInOrder([f, g], x) == ApplyInOrder([g], f(x));
    assert [g][1..] == [];
    assert ApplyInOrder([g], f(x)) == ApplyInOrder([], g(f(x)));
  }
}
