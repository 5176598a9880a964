# Eloquent JavaScript utility functions, modelled in Dafny

A model of `EloquentJavaScript.js`, a file of small functional-programming
snippets:

- `createListItems` and `arrayToList` build a singly linked `{ value, rest }` list;
- `sum`, `reverseArray` and `flattenArray` are folds over arrays;
- `findValue`, `isNonEmpty` and `equality` are membership tests;
- `executeOperation` and `checkOperation` replace a `switch` statement with a case table;
- `compose` chains unary functions;
- `operation` is a closure that runs its guarded block only on its first call.

`arrayToList`, `sum`, `reverseArray`, `flattenArray` and `compose` are each a
call of `reduce` or `reduceRight`, with or without an initial value. Module
`Reductions` models those four built-ins once, visiting the elements in
JavaScript's order, and those five operations are defined through them exactly
as the source writes them. `createListItems` (`map`), `findValue` (`map` and
`includes`), `isNonEmpty` (`length`) and `equality` (`filter`) are modelled
directly. Lemmas connect each operation to an independent reference definition:

- `SumOf` for `sum`;
- the index mapping `i ↦ |arr|-1-i` for `reverseArray`;
- `Concatenation` for `flattenArray`;
- `ToSeq` for `arrayToList`;
- `ApplyInOrder` for `compose`;
- a first-match `Switch` for `checkOperation`.

A call of `reduce`/`reduceRight` with no initial value on an empty array throws
a TypeError. The model represents this as `Throw(ReduceOfEmptyArrayWithNoInitialValue)`
in the `Result` datatype. It affects `arrayToList`, `flattenArray` and `compose`.

The run-once guard has two parts:

- a pure model: `Callback`, `RunCalls` and `CallRepeatedly`;
- `CallGuardRepeatedly`, which creates an `Operation` and calls it `n` times;
- the class `RunOnce.Operation`. It holds the `condition` flag and a ghost `runs`
  counter. The class invariant `Valid` says the block has run exactly once when
  the flag is set, and never otherwise.

Files: `results.dfy` (Results), `reductions.dfy` (Reductions), `lists.dfy`
(Lists), `array_utils.dfy` (ArrayUtils), `lookup.dfy` (Lookup), `dispatch.dfy`
(Dispatch), `composition.dfy` (Composition), `run_once.dfy` (RunOnce).

`arrayToList([])` throws, because `reduceRight` is called without an initial
value; the model throws too (`ArrayToList`).

## Model

| member | source | states |
|---|---|---|
| Reductions.ReduceNoSeed | EloquentJavaScript.js:20 | `reduce` with no initial value throws exactly on an empty array, and returns a one-element array's element unchanged |
| Reductions.ReduceRightNoSeed | EloquentJavaScript.js:8-11 | `reduceRight` with no initial value throws exactly on an empty array, and returns a one-element array's element unchanged |
| Lists.CreateListItems | EloquentJavaScript.js:6 | there is one node per element, holding that element in the same position, and every node's `rest` is `null` |
| Lists.LinkRestChain | EloquentJavaScript.js:8-11 | linking nodes right to left in front of a chain gives their values, in order, followed by the chain's values |
| Lists.LinkedItemsReadBack | EloquentJavaScript.js:6-11 | linking the unlinked items right to left with no initial value throws if and only if the array is empty; otherwise following `rest` from the head reads exactly the array, in order |
| Lists.ArrayToList | EloquentJavaScript.js:8-11 | `arrayToList` throws if and only if the array is empty; otherwise following `rest` from the head reads exactly the array, in order |
| Lists.WalkMatchesValues | EloquentJavaScript.js:2-4 | in a chain whose values are `s`, the node reached after `i` steps holds `s[i]`, and the chain ends in `null` after `\|s\|` steps |
| Lists.ArrayToListShape | EloquentJavaScript.js:2-11 | for a non-empty array the list has exactly `\|arr\|` nodes, the `i`-th holds `arr[i]`, and the last node's `rest` is `null` |
| Lists.ArrayToListExample | EloquentJavaScript.js:4 | `ArrayToList([10, 20]) == Ok(Node(10, Ref(Node(20, Null))))`: the head holds 10, its `rest` holds 20, and that node's `rest` is `null` |
| ArrayUtils.ReduceAdd | EloquentJavaScript.js:14 | folding `+` over an array from an accumulator adds the array's sum to the accumulator |
| ArrayUtils.Sum | EloquentJavaScript.js:14 | `sum` is the arithmetic sum of the elements |
| ArrayUtils.SumAppend | EloquentJavaScript.js:14 | `sum([]) == 0`, and the sum of a concatenation is the sum of the sums |
| ArrayUtils.ReduceRightAppend | EloquentJavaScript.js:17 | the right-to-left `concat` fold keeps the accumulator in front and then lists the elements last to first |
| ArrayUtils.ReverseArray | EloquentJavaScript.js:17 | `reverseArray` keeps the length, and position `i` of the result holds `arr[\|arr\|-1-i]` |
| ArrayUtils.ReverseTwice | EloquentJavaScript.js:17 | reversing twice gives the original array |
| ArrayUtils.ReduceConcat | EloquentJavaScript.js:20 | folding `concat` over arrays appends their in-order concatenation to the accumulator |
| ArrayUtils.FlattenArray | EloquentJavaScript.js:19-20 | `flattenArray` throws if and only if the outer array is empty; otherwise it is the in-order concatenation of the inner arrays |
| ArrayUtils.ConcatenationLength | EloquentJavaScript.js:19-20 | the concatenation's length is the sum of the inner lengths |
| ArrayUtils.ConcatenationMember | EloquentJavaScript.js:19-20 | an element is in the concatenation if and only if it is in one of the inner arrays |
| ArrayUtils.FlattenArrayContents | EloquentJavaScript.js:19-20 | a flattened non-empty array has the summed inner length, computed with `sum`, and holds exactly the inner arrays' elements |
| Lookup.FindValue | EloquentJavaScript.js:22-23 | `findValue(item, obj)` is true if and only if `item` is the value of one of `obj`'s own keys |
| Lookup.IsNonEmpty | EloquentJavaScript.js:39 | `isNonEmpty` holds exactly for arrays with at least one element |
| Lookup.Filter | EloquentJavaScript.js:40 | every element the filter keeps comes from the input and satisfies the predicate, and each input element is kept if and only if it satisfies the predicate |
| Lookup.FilterAppend | EloquentJavaScript.js:40 | filtering a concatenation is the concatenation of the filtered parts |
| Lookup.FilterSplits | EloquentJavaScript.js:40 | filtering `[]` gives `[]`, a one-element array is kept exactly when its element satisfies the predicate, and filtering distributes over concatenation, so the result is the in-order subsequence of satisfying elements with their repetitions |
| Lookup.Equality | EloquentJavaScript.js:38-40 | `equality(lhs, ...rhs)` holds if and only if `lhs` is one of the `rhs` arguments, so it is false with no `rhs` |
| Dispatch.ExecuteOperation | EloquentJavaScript.js:34 | a plain entry `Val(v)` resolves to `v`; a function entry `Thunk(c)` resolves to the result of calling `c()` |
| Dispatch.CheckOperation | EloquentJavaScript.js:36 | for an own key, the stored entry is returned (plain) or called (function); for any other key, the default entry is returned or called the same way |
| Dispatch.CheckOperationDefaulted | EloquentJavaScript.js:34-36 | for an own key, the stored entry is resolved: a function entry is called and a plain entry is returned unchanged. Otherwise the default is resolved, and an omitted default gives `''` (`EmptyString`), for a table of any value type |
| Dispatch.TableOf | EloquentJavaScript.js:25-36 | the case table built from switch clauses has exactly the clause labels as its keys |
| Dispatch.TableOfEntries | EloquentJavaScript.js:25-36 | with distinct labels, each label's key holds that clause's entry |
| Dispatch.CheckOperationIsSwitch | EloquentJavaScript.js:25-36 | with distinct labels, `checkOperation` on the case table gives the same outcome as the `switch` statement it replaces, default included |
| Composition.ApplyInOrderSnoc | EloquentJavaScript.js:43 | applying a list of functions and then one more equals applying the extended list |
| Composition.ReduceRightComposes | EloquentJavaScript.js:43 | the right-to-left fold of `f(g(...))` onto an accumulator applies the list's functions in order and then the accumulator |
| Composition.ReduceRightNoSeedComposes | EloquentJavaScript.js:43 | the unseeded right-to-left fold of `f(g(...))` throws on an empty list and otherwise applies the functions in order |
| Composition.Compose | EloquentJavaScript.js:42-43 | `compose()` throws; `compose(f1,…,fn)(x) == fn(…f2(f1(x))…)` for every `x` |
| Composition.ComposeSmall | EloquentJavaScript.js:43 | `compose(f)` is `f` itself, and `compose(f, g)(x) == g(f(x))` |
| RunOnce.Callback | EloquentJavaScript.js:49-54 | after a call the flag is set, and the guarded block ran during the call if and only if the flag was unset before it |
| RunOnce.RunCalls | EloquentJavaScript.js:47-55 | after a sequence of calls the flag is set if it was set before or there was a call; the block ran once if the flag started unset and there was a call, and never otherwise, whatever the arguments |
| RunOnce.Operation.Call | EloquentJavaScript.js:49-54 | the stateful guard: after a call the flag is set; the ghost `runs` counter goes up by one on a call from an unset flag and stays put otherwise, keeping `Valid` (block ran exactly once iff the flag is set) |
| RunOnce.CallRepeatedly | EloquentJavaScript.js:47-55 | `n` calls of the callback from an unset flag run the block 0 times if `n == 0` and exactly once if `n >= 1`, and agree with `RunCalls` |
| RunOnce.CallGuardRepeatedly | EloquentJavaScript.js:47-55 | a newly created `Operation` called `n` times keeps `Valid`, has its flag set exactly when `n >= 1`, and its ghost counter shows the block ran 0 times if `n == 0` and exactly once otherwise |

## Left out

- The call at EloquentJavaScript.js:57 is left out. Its line comment swallows the closing `);`, so it is not part of the logic.
- `typeof operation === 'function'` becomes the tag of the `Case` datatype. JavaScript's runtime type inspection is not modelled.
- `Object.prototype.hasOwnProperty`, prototypes and the conversion of keys to strings are not modelled. An object is a Dafny `map` from its own keys to their values, and a key is present exactly when it is in the map.
- `checkOperation` is curried in the source. The model takes its three arguments at once. Default parameters are modelled with `Option`.
- Dispatch.CheckOperationDefaulted: JavaScript values are untyped, so a table of numbers may fall back to the string `''`. The model widens the result to `Defaulted<V>`, where `EmptyString` stands for `''`; when `V` is `string` itself, `Value("")` and `EmptyString` both denote `''`.
- `sum` uses floating-point `+` in JavaScript. The model works over mathematical integers.
- `Array.prototype.concat` spreads array arguments. `reverseArray` is modelled only for arrays whose elements are not themselves arrays. `flattenArray` is modelled only for arrays all of whose elements are arrays. Mixed inputs are not modelled.
- `compose` is variadic in the arguments of the composed functions. The model fixes them to unary functions `T -> T`.
- `arrayToList` mutates `current.rest` inside the `reduceRight` callback. The model builds a new node value instead. `flattenArray([a])` returns the inner array `a` itself, because `reduce` with no initial value returns a one-element array's element without calling the callback, so the result aliases the input. Values in the model have no identity, so neither the mutation nor this aliasing is modelled.
- `===` and `includes` differ on `NaN`, and JavaScript has no user-defined equality. Both are modelled as Dafny equality on an equality-supporting type.
- If the guarded block throws, what happens is left unspecified, because the block is empty in the source. The model's block always completes.
- The performance remarks in the comment at EloquentJavaScript.js:26-32 are not modelled. They are not behavioural properties.
