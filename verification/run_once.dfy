/** The run-once guard: a closure over a `condition` flag that lets its guarded
    block run on the first call only. */
module RunOnce {

  /** The outcome of one call of the guard's callback: the flag afterwards and
      whether the guarded block ran during the call. */
  datatype Step = Step(condition: bool, ran: bool)

  /** One call `callback(args)`: if the flag is unset, the guarded block runs
      and the flag is set; otherwise nothing happens. The argument is unused. */
  function Callback<A>(condition: bool, args: A): (s: Step)
    ensures s.condition
    ensures s.ran <==> !condition
  {
    if !condition then Step(true, true) else Step(condition, false)
  }

  /** The calls `callback(args[0])`, `callback(args[1])`, ... made in order from
      flag `condition`: the final flag and how many times the block ran. After
      the first call the flag is set for good, and the block runs at most once,
      on the first call from an unset flag, whatever the arguments. */
  function RunCalls<A>(condition: bool, args: seq<A>): (r: (bool, nat))
    ensures r.0 <==> condition || |args| > 0
    ensures r.1 == if condition || |args| == 0 then 0 else 1
    decreases |args|
  {
    if |args| == 0 then (condition, 0)
    else
      var step := Callback(condition, args[0]);
      var rest := RunCalls(step.condition, args[1..]);
      (rest.0, rest.1 + if step.ran then 1 else 0)
  }

  /** Calling the callback from an unset flag once per element of `args`: the flag
      ends set exactly when there was a call, and the block ran once if there
      was any call and never otherwise. */
  method CallRepeatedly<A>(args: seq<A>) returns (condition: bool, runs: nat)
    ensures condition <==> |args| > 0
    ensures runs == if |args| == 0 then 0 else 1
    ensures (condition, runs) == RunCalls(false, args)
  {
    condition, runs := false, 0;
    for i := 0 to |args|
      invariant condition <==> i > 0
      invariant runs == if i == 0 then 0 else 1
    {
      var step := Callback(condition, args[i]);
      if step.ran {
        runs := runs + 1;
      }
      condition := step.condition;
    }
  }

  /** Creating the guard and calling it once per element of `args`: the flag
      ends set exactly when there was a call, and the guarded block has run
      once if there was any call and never otherwise. */
  method CallGuardRepeatedly<A>(args: seq<A>) returns (op: Operation)
    ensures op.Valid()
    ensures op.condition <==> |args| > 0
    ensures op.runs == if |args| == 0 then 0 else 1
  {
    op := new Operation();
    for i := 0 to |args|
      invariant op.Valid()
      invariant op.condition <==> i > 0
    {
      op.Call(args[i]);
    }
  }

  /** The IIFE `operation`: the returned callback together with the flag it
      closes over. `runs` counts the executions of the guarded block. */
  class Operation {
    var condition: bool
    ghost var runs: nat

    /** The block has run exactly when the flag is set, and at most once. */
    ghost predicate Valid()
      reads this
    {
      runs == if condition then 1 else 0
    }

    /** Evaluating the IIFE: `let condition = false`. */
    constructor()
      ensures Valid() && !condition && runs == 0
    {
      condition := false;
      runs := 0;
    }

    /** `operation(args)`: run the guarded block if the flag is unset, then set
      the flag. */
    method Call<A>(args: A)
      requires Valid()
      modifies this
      ensures Valid()
      ensures condition
      ensures old(condition) ==> runs == old(runs)
      ensures !old(condition) ==> runs == old(runs) + 1
    {
      var step := Callback(condition, args);
      if step.ran {
        runs := runs + 1;
      }
      condition := step.condition;
    }
  }
}
