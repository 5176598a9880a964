/** Membership tests: `findValue` over an object's values and `equality` of a
    value against a list of candidates (with its helper `isNonEmpty`). */
module Lookup {

  /** `findValue(item, obj)`: take the object's own keys, map each to its
      value, and ask whether `item` is among those values. The object is a map
      from its own keys to their values. */
  method FindValue<K, V(==)>(item: V, obj: map<K, V>) returns (found: bool)
    ensures found <==> item in obj.Values
  {
    var keys := obj.Keys;
    found := false;
    while keys != {}
      invariant keys <= obj.Keys
      invariant found <==> exists k :: k in obj.Keys - keys && obj[k] == item
      decreases keys
    {
      var k :| k in keys;
      if obj[k] == item {
        found := true;
      }
      keys := keys - {k};
    }
    assert obj.Keys - keys == obj.Keys;
    if item in obj.Values {
      var k :| k in obj.Keys && obj[k] == item;
    }
  }

  /** `isNonEmpty`: whether an array has at least one element. */
  function IsNonEmpty<T>(arr: seq<T>): (r: bool)
    ensures r <==> arr != []
  {
    |arr| != 0
  }

  /** `Array.prototype.filter`: the elements satisfying `p`, in their order. */
  function Filter<T>(s: seq<T>, p: T -> bool): (r: seq<T>)
    ensures |r| <= |s|
    ensures forall i :: 0 <= i < |r| ==> r[i] in s && p(r[i])
    ensures forall i :: 0 <= i < |s| ==> (s[i] in r <==> p(s[i]))
    decreases |s|
  {
    if |s| == 0 then []
    else if p(s[0]) then [s[0]] + Filter(s[1..], p)
    else Filter(s[1..], p)
  }

  /** Filtering a concatenation filters each part and concatenates. */
  lemma {:induction false} FilterAppend<T>(a: seq<T>, b: seq<T>, p: T -> bool)
    ensures Filter(a + b, p) == Filter(a, p) + Filter(b, p)
    decreases |a|
  {
    var c := a + b;
    if |a| == 0 {
      assert c == b;
    } else {
      assert c[0] == a[0];
      assert c[1..] == a[1..] + b;
      FilterAppend(a[1..], b, p);
      var kept: seq<T> := if p(a[0]) then [a[0]] else [];
      assert Filter(c, p) == kept + Filter(c[1..], p);
      assert Filter(a, p) == kept + Filter(a[1..], p);
    }
  }

  /** `filter` is determined by its action on single elements and on
      concatenations: it keeps exactly the satisfying elements, in their
      order, with their repetitions. */
  lemma FilterSplits<T>(a: seq<T>, b: seq<T>, p: T -> bool)
    ensures Filter([], p) == []
    ensures |a| == 1 ==> Filter(a, p) == if p(a[0]) then a else []
    ensures Filter(a + b, p) == Filter(a, p) + Filter(b, p)
  {
    FilterAppend(a, b, p);
    if |a| == 1 {
      assert a[1..] == [];
      assert a == [a[0]];
    }
  }

  /** `equality(lhs, ...rhs)`: keep the `rhs` elements strictly equal to `lhs`
      and test that some remain. It holds exactly when `lhs` is one of the
      `rhs` arguments, so it is false when there are none. */
  function Equality<T(==)>(lhs: T, rhs: seq<T>): (r: bool)
    ensures r <==> lhs in rhs
    ensures rhs == [] ==> !r
  {
    var matches := Filter(rhs, el => lhs == el);
    assert lhs in rhs ==> lhs in matches;
    assert matches != [] ==> matches[0] in matches;
    IsNonEmpty(matches)
  }
}
