/** Building a singly linked list `{ value, rest }` from an array
    (`createListItems` and `arrayToList`). */
module Lists {
  import opened Results
  import opened Reductions

  /** One list object `{ value, rest }`. */
  datatype Node<T> = Node(value: T, rest: List<T>)

  /** The `rest` field: `null` at the end of the chain, otherwise the next node. */
  datatype List<T> = Null | Ref(node: Node<T>)

  /** The values met when following `rest` from `l` until `null`. */
  function ToSeq<T>(l: List<T>): seq<T>
    decreases l
  {
    match l
    case Null => []
    case Ref(n) => [n.value] + ToSeq(n.rest)
  }

  /** The list reached after following `rest` `k` times (`null` stays `null`). */
  function Drop<T>(l: List<T>, k: nat): List<T>
    decreases k
  {
    if k == 0 then l
    else match l
      case Null => Null
      case Ref(n) => Drop(n.rest, k - 1)
  }

  /** The values held by a sequence of nodes, in order. */
  function Values<T>(nodes: seq<Node<T>>): (vs: seq<T>)
    ensures |vs| == |nodes|
    ensures forall i :: 0 <= i < |nodes| ==> vs[i] == nodes[i].value
  {
    seq(|nodes|, i requires 0 <= i < |nodes| => nodes[i].value)
  }

  /** `createListItems`: one unlinked node per element. */
  function CreateListItems<T>(arr: seq<T>): (items: seq<Node<T>>)
    ensures Values(items) == arr
    ensures forall i :: 0 <= i < |items| ==> items[i].rest == Null
  {
    seq(|arr|, i requires 0 <= i < |arr| => Node(arr[i], Null))
  }

  /** The `reduceRight` callback of `arrayToList`: point `current.rest` at the
      accumulated chain and make `current` the new head. */
  function LinkRest<T>(acc: Node<T>, current: Node<T>): Node<T>
  {
    current.(rest := Ref(acc))
  }

  /** Linking the unlinked items of `arr` right to left with no initial value
      throws exactly on an empty array, and otherwise yields a head from which
      following `rest` reads `arr` back, in order. */
  lemma LinkedItemsReadBack<T>(arr: seq<T>)
    ensures arr == [] <==> ReduceRightNoSeed(CreateListItems(arr), LinkRest).Throw?
    ensures arr != [] ==> ToSeq(Ref(ReduceRightNoSeed(CreateListItems(arr), LinkRest).value)) == arr
  {
    if arr != [] {
      var items := CreateListItems(arr);
      var n := |items|;
      LinkRestChain(items[..n - 1], items[n - 1]);
      assert Values(items) == Values(items[..n - 1]) + [items[n - 1].value];
    }
  }

  /** `arrayToList`: link the items right to left. With no initial value, an
      empty array throws; otherwise reading the list from its head gives the
      array back, in order. */
  function ArrayToList<T>(arr: seq<T>): (r: Result<Node<T>>)
    ensures r.Throw? <==> arr == []
    ensures r.Ok? ==> ToSeq(Ref(r.value)) == arr
  {
    LinkedItemsReadBack(arr);
    ReduceRightNoSeed(CreateListItems(arr), LinkRest)
  }

  /** Linking `nodes` right to left in front of `acc` yields their values
      followed by the chain that starts at `acc`. */
  lemma {:induction false} LinkRestChain<T>(nodes: seq<Node<T>>, acc: Node<T>)
    ensures ToSeq(Ref(ReduceRight(nodes, acc, LinkRest))) == Values(nodes) + ToSeq(Ref(acc))
    decreases |nodes|
  {
    if |nodes| > 0 {
      var n := |nodes|;
      var prefix := nodes[..n - 1];
      LinkRestChain(prefix, LinkRest(acc, nodes[n - 1]));
      assert Values(nodes) == Values(prefix) + [nodes[n - 1].value];
    }
  }

  /** Following `rest` from a list whose values are `s`: the `i`-th node holds
      `s[i]`, and after `|s|` steps the chain ends in `null`. */
  lemma {:induction false} WalkMatchesValues<T>(l: List<T>, s: seq<T>)
    requires ToSeq(l) == s
    ensures forall i :: 0 <= i < |s| ==> Drop(l, i).Ref? && Drop(l, i).node.value == s[i]
    ensures Drop(l, |s|) == Null
    decreases l
  {
    match l
    case Null =>
    case Ref(n) =>
      WalkMatchesValues(n.rest, s[1..]);
      forall i | 0 <= i < |s|
        ensures Drop(l, i).Ref? && Drop(l, i).node.value == s[i]
      {
        if i > 0 {
          assert Drop(l, i) == Drop(n.rest, i - 1);
        }
      }
  }

  /** The shape of `arrayToList(arr)` for a non-empty array: exactly `|arr|`
      nodes, the `i`-th holding `arr[i]`, and the last node's `rest` is `null`. */
  lemma ArrayToListShape<T>(arr: seq<T>)
    requires arr != []
    ensures ArrayToList(arr).Ok?
    ensures forall i :: 0 <= i < |arr| ==>
      var l := Drop(Ref(ArrayToList(arr).value), i);
      l.Ref? && l.node.value == arr[i]
    ensures Drop(Ref(ArrayToList(arr).value), |arr| - 1).node.rest == Null
  {
    var l := Ref(ArrayToList(arr).value);
    WalkMatchesValues(l, arr);
    DropStep(l, |arr| - 1);
  }

  /** One more step along `rest` from a node is that node's `rest`. */
  lemma {:induction false} DropStep<T>(l: List<T>, k: nat)
    requires Drop(l, k).Ref?
    ensures Drop(l, k + 1) == Drop(l, k).node.rest
    decreases k
  {
    if k > 0 {
      DropStep(l.node.rest, k - 1);
    }
  }

  /** The two-element example: the head holds 10, its `rest` holds 20, and
      that node's `rest` is `null`. */
  lemma ArrayToListExample()
    ensures ArrayToList([10, 20]) == Ok(Node(10, Ref(Node(20, Null))))
  {
    var items := CreateListItems([10, 20]);
    assert items == [Node(10, Null), Node(20, Null)];
    assert items[..1] == [Node(10, Null)];
    assert ReduceRight(items[..1], items[1], LinkRest) == LinkRest(items[1], items[0]);
  }
}
