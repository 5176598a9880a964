/** The array folds: `sum`, `reverseArray` and `flattenArray`. */
module ArrayUtils {
  import opened Results
  import opened Reductions

  // ---------------------------------------------------------------- sum

  /** The sum of a sequence, defined element by element from the front. */
  function SumOf(s: seq<int>): int
  {
    if |s| == 0 then 0 else s[0] + SumOf(s[1..])
  }

  /** The `reduce` callback of `sum`. */
  function Add(acc: int, elem: int): int
  {
    acc + elem
  }

  /** Folding `Add` over `s` from `acc` adds the sum of `s` to `acc`. */
  lemma {:induction false} ReduceAdd(s: seq<int>, acc: int)
    ensures Reduce(s, acc, Add) == acc + SumOf(s)
    decreases |s|
  {
    if |s| > 0 {
      ReduceAdd(s[1..], acc + s[0]);
    }
  }

  /** `sum`: `reduce` with `+` and initial value 0; it is the sum of the array. */
  function Sum(arr: seq<int>): (r: int)
    ensures r == SumOf(arr)
  {
    ReduceAdd(arr, 0);
    Reduce(arr, 0, Add)
  }

  /** The sum of a concatenation is the sum of the parts. */
  lemma {:induction false} SumOfAppend(a: seq<int>, b: seq<int>)
    ensures SumOf(a + b) == SumOf(a) + SumOf(b)
    decreases |a|
  {
    if |a| == 0 {
      assert a + b == b;
    } else {
      assert (a + b)[1..] == a[1..] + b;
      SumOfAppend(a[1..], b);
    }
  }

  /** `sum([]) == 0` and `sum` distributes over concatenation. */
  lemma SumAppend(a: seq<int>, b: seq<int>)
    ensures Sum([]) == 0
    ensures Sum(a + b) == Sum(a) + Sum(b)
  {
    SumOfAppend(a, b);
  }

  // ---------------------------------------------------------- reverseArray

  /** The `reduceRight` callback of `reverseArray`: `acc.concat(elem)` for an
      element that is not itself an array. */
  function Append<T>(acc: seq<T>, elem: T): seq<T>
  {
    acc + [elem]
  }

  /** Folding `Append` right to left keeps `acc` in front and then lists the
      elements of `s` last to first. */
  lemma {:induction false} ReduceRightAppend<T>(s: seq<T>, acc: seq<T>)
    ensures var r := ReduceRight(s, acc, Append);
      && |r| == |acc| + |s|
      && r[..|acc|] == acc
      && forall j :: |acc| <= j < |r| ==> r[j] == s[|s| - 1 - (j - |acc|)]
    decreases |s|
  {
    if |s| > 0 {
      var n := |s|;
      var acc' := acc + [s[n - 1]];
      var prefix := s[..n - 1];
      ReduceRightAppend(prefix, acc');
      var r := ReduceRight(s, acc, Append);
      assert r == ReduceRight(prefix, acc', Append);
      assert r[..|acc'|] == acc';
      assert r[..|acc|] == acc'[..|acc|];
      forall j | |acc| <= j < |r|
        ensures r[j] == s[n - 1 - (j - |acc|)]
      {
        if j == |acc| {
          assert r[j] == r[..|acc'|][j];
        } else {
          assert r[j] == prefix[|prefix| - 1 - (j - |acc'|)];
        }
      }
    }
  }

  /** `reverseArray`: `reduceRight` with `concat` from `[]`; the result has the
      same length and holds the elements in the opposite order. */
  function ReverseArray<T>(arr: seq<T>): (r: seq<T>)
    ensures |r| == |arr|
    ensures forall i :: 0 <= i < |arr| ==> r[i] == arr[|arr| - 1 - i]
  {
    ReduceRightAppend(arr, []);
    ReduceRight(arr, [], Append)
  }

  /** Reversing twice gives the original array back. */
  lemma ReverseTwice<T>(arr: seq<T>)
    ensures ReverseArray(ReverseArray(arr)) == arr
  {
  }

  // ---------------------------------------------------------- flattenArray

  /** The in-order concatenation of the inner sequences. */
  function Concatenation<T>(s: seq<seq<T>>): seq<T>
  {
    if |s| == 0 then [] else s[0] + Concatenation(s[1..])
  }

  /** The lengths of the inner sequences. */
  function Lengths<T>(s: seq<seq<T>>): (ls: seq<int>)
    ensures |ls| == |s|
    ensures forall i :: 0 <= i < |s| ==> ls[i] == |s[i]|
  {
    seq(|s|, i requires 0 <= i < |s| => |s[i]|)
  }

  /** The `reduce` callback of `flattenArray`: `acc.concat(elem)` for an array
      `elem`, which splices its elements. */
  function Concat<T>(acc: seq<T>, elem: seq<T>): seq<T>
  {
    acc + elem
  }

  /** Folding `Concat` over `s` appends the concatenation of `s` to `acc`. */
  lemma {:induction false} ReduceConcat<T>(s: seq<seq<T>>, acc: seq<T>)
    ensures Reduce(s, acc, Concat) == acc + Concatenation(s)
    decreases |s|
  {
    if |s| > 0 {
      ReduceConcat(s[1..], acc + s[0]);
      assert acc + s[0] + Concatenation(s[1..]) == acc + (s[0] + Concatenation(s[1..]));
    }
  }

  /** `flattenArray`: `reduce` with `concat` and no initial value. A non-empty
      array of arrays flattens to the in-order concatenation of its members; an
      empty one throws. */
  function FlattenArray<T>(arr: seq<seq<T>>): (r: Result<seq<T>>)
    ensures arr == [] <==> r.Throw?
    ensures arr != [] ==> r == Ok(Concatenation(arr))
  {
    if arr != [] then ReduceConcat(arr[1..], arr[0]); ReduceNoSeed(arr, Concat)
    else ReduceNoSeed(arr, Concat)
  }

  /** The concatenation is as long as the inner lengths add up to. */
  lemma {:induction false} ConcatenationLength<T>(s: seq<seq<T>>)
    ensures |Concatenation(s)| == SumOf(Lengths(s))
    decreases |s|
  {
    if |s| > 0 {
      ConcatenationLength(s[1..]);
      assert Lengths(s)[1..] == Lengths(s[1..]);
    }
  }

  /** An element is in the concatenation exactly when it is in one of the
      inner sequences. */
  lemma {:induction false} ConcatenationMember<T>(s: seq<seq<T>>, x: T)
    ensures x in Concatenation(s) <==> exists i :: 0 <= i < |s| && x in s[i]
    decreases |s|
  {
    if |s| > 0 {
      var tail := s[1..];
      ConcatenationMember(tail, x);
      if x in Concatenation(s) && x !in s[0] {
        var j :| 0 <= j < |tail| && x in tail[j];
        assert tail[j] == s[j + 1];
      }
      if exists i :: 0 <= i < |s| && x in s[i] {
        var i :| 0 <= i < |s| && x in s[i];
        if i > 0 {
          assert tail[i - 1] == s[i];
        }
      }
    }
  }

  /** The result of `flattenArray` on a non-empty array has the summed length
      of the inner arrays and holds exactly their elements. */
  lemma FlattenArrayContents<T>(arr: seq<seq<T>>)
    requires arr != []
    ensures FlattenArray(arr).Ok?
    ensures |FlattenArray(arr).value| == Sum(Lengths(arr))
    ensures forall x :: x in FlattenArray(arr).value <==> exists i :: 0 <= i < |arr| && x in arr[i]
  {
    ConcatenationLength(arr);
    forall x
      ensures x in FlattenArray(arr).value <==> exists i :: 0 <= i < |arr| && x in arr[i]
    {
      ConcatenationMember(arr, x);
    }
  }
}
