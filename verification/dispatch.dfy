/** The functional switch block: `executeOperation` and `checkOperation`. */
module Dispatch {
  import opened Results

  /** An entry of a case table: a plain value, or a zero-argument function
      whose call result is the entry's outcome. */
  datatype Case<V> = Val(v: V) | Thunk(call: () -> V)

  /** `executeOperation`: call a function entry, return any other entry as is. */
  function ExecuteOperation<V>(operation: Case<V>): (r: V)
    ensures operation.Val? ==> r == operation.v
    ensures operation.Thunk? ==> r == operation.call()
  {
    match operation
    case Val(v) => v
    case Thunk(call) => call()
  }

  /** `checkOperation(cases)(defaultCase)(key)`: resolve the entry stored under
      `key` when `key` is an own key of `cases`, otherwise resolve `defaultCase`. */
  function CheckOperation<K, V>(cases: map<K, Case<V>>, defaultCase: Case<V>, key: K): (r: V)
    ensures key in cases && cases[key].Val? ==> r == cases[key].v
    ensures key in cases && cases[key].Thunk? ==> r == cases[key].call()
    ensures key !in cases && defaultCase.Val? ==> r == defaultCase.v
    ensures key !in cases && defaultCase.Thunk? ==> r == defaultCase.call()
  {
    ExecuteOperation(if key in cases then cases[key] else defaultCase)
  }

  /** What `checkOperation` returns once its default parameters may apply: a
      value of the table's value type, or the empty string `''` that an omitted
      `defaultCase` stands for. */
  datatype Defaulted<V> = Value(value: V) | EmptyString

  /** A table entry seen as an entry of the widened value type. */
  function LiftCase<V>(c: Case<V>): Case<Defaulted<V>>
  {
    match c
    case Val(v) => Val(Value(v))
    case Thunk(call) => Thunk(() => Value(call()))
  }

  /** `checkOperation` with its default parameters: an omitted `cases` is the
      empty table `{}`, an omitted `defaultCase` is the empty string. */
  function CheckOperationDefaulted<K, V>(
    cases: Option<map<K, Case<V>>>, defaultCase: Option<Case<V>>, key: K): (r: Defaulted<V>)
    ensures cases.Given? && key in cases.value ==>
      (cases.value[key].Val? ==> r == Value(cases.value[key].v)) &&
      (cases.value[key].Thunk? ==> r == Value(cases.value[key].call()))
    ensures (cases.Omitted? || key !in cases.value) && defaultCase.Omitted? ==> r == EmptyString
    ensures (cases.Omitted? || key !in cases.value) && defaultCase.Given? ==>
      (defaultCase.value.Val? ==> r == Value(defaultCase.value.v)) &&
      (defaultCase.value.Thunk? ==> r == Value(defaultCase.value.call()))
  {
    var table := cases.GetOr(map[]);
    var lifted := map k | k in table :: LiftCase(table[k]);
    var fallback := match defaultCase
      case Given(d) => LiftCase(d)
      case Omitted => Val(EmptyString);
    CheckOperation(lifted, fallback, key)
  }

  // ------------------------------------------------------------------
  // The switch statement the table replaces, as an independent reference.

  /** A `switch (key)` whose clauses are tried in order; the first clause whose
      label equals `key` decides, and `default` decides when none does. */
  function Switch<K(==), V>(clauses: seq<(K, Case<V>)>, default: Case<V>, key: K): V
    decreases |clauses|
  {
    if |clauses| == 0 then ExecuteOperation(default)
    else if clauses[0].0 == key then ExecuteOperation(clauses[0].1)
    else Switch(clauses[1..], default, key)
  }

  /** The object literal written from the same clauses: each label becomes an
      own key (a later duplicate label would overwrite an earlier one). */
  function TableOf<K, V>(clauses: seq<(K, Case<V>)>): (m: map<K, Case<V>>)
    ensures forall i :: 0 <= i < |clauses| ==> clauses[i].0 in m
    ensures forall k :: k in m ==> exists i :: 0 <= i < |clauses| && clauses[i].0 == k
    decreases |clauses|
  {
    if |clauses| == 0 then map[]
    else
      var n := |clauses|;
      var m := TableOf(clauses[..n - 1]);
      assert forall i :: 0 <= i < n - 1 ==> clauses[..n - 1][i] == clauses[i];
      m[clauses[n - 1].0 := clauses[n - 1].1]
  }

  /** No label appears in two clauses. */
  ghost predicate DistinctLabels<K, V>(clauses: seq<(K, Case<V>)>)
  {
    forall i, j :: 0 <= i < j < |clauses| ==> clauses[i].0 != clauses[j].0
  }

  /** With distinct labels, each label maps to its own clause's entry. */
  lemma {:induction false} TableOfEntries<K, V>(clauses: seq<(K, Case<V>)>, i: int)
    requires DistinctLabels(clauses)
    requires 0 <= i < |clauses|
    ensures TableOf(clauses)[clauses[i].0] == clauses[i].1
    decreases |clauses|
  {
    var n := |clauses|;
    if i < n - 1 {
      var prefix := clauses[..n - 1];
      assert prefix[i] == clauses[i];
      TableOfEntries(prefix, i);
    }
  }

  /** For clauses with distinct labels, looking the key up in the case table
      (falling back to the default) gives the same outcome as the switch. */
  lemma {:induction false} CheckOperationIsSwitch<K, V>(clauses: seq<(K, Case<V>)>, default: Case<V>, key: K)
    requires DistinctLabels(clauses)
    ensures CheckOperation(TableOf(clauses), default, key) == Switch(clauses, default, key)
    decreases |clauses|
  {
    if |clauses| > 0 {
      if clauses[0].0 == key {
        TableOfEntries(clauses, 0);
      } else {
        var tail := clauses[1..];
        assert DistinctLabels(tail) by {
          forall i, j | 0 <= i < j < |tail|
            ensures tail[i].0 != tail[j].0
          {
            assert tail[i] == clauses[i + 1] && tail[j] == clauses[j + 1];
          }
        }
        CheckOperationIsSwitch(tail, default, key);
        if key in TableOf(clauses) {
          var i :| 0 <= i < |clauses| && clauses[i].0 == key;
          assert tail[i - 1] == clauses[i];
          TableOfEntries(clauses, i);
          TableOfEntries(tail, i - 1);
        }
      }
    }
  }
}
