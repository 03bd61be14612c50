/** The decision rules of the task handler (mistral/engine/task_handler.py): the re-run
    guards and resets of an existing task, the with-items input transposition and
    selection, the sub-workflow parameter split, and task completion. Persistence,
    expression evaluation, policies, scheduling and RPC are not modelled. */
module TaskHandler {
  import opened Wrappers
  import opened Exceptions
  import opened Values
  import opened States
  import opened Seqs
  import opened Models
  import WithItems

  // ---------------------------------------------------------------------------
  // Re-running an existing task

  /** Whether the reset of `run_existing_task` clears the acceptance of `x`: every
      execution with `reset`, only the accepted ERROR ones without. */
  predicate IsReset(x: ActionExecution, reset: bool) {
    reset || WithItems.IsAcceptedError(x)
  }

  /** The executions after the reset: the ones it selects are no longer accepted, every
      other field and every other execution is unchanged. */
  function ResetExecutions(executions: seq<ActionExecution>, reset: bool): (r: seq<ActionExecution>)
    ensures |r| == |executions|
    ensures forall i :: 0 <= i < |r| && IsReset(executions[i], reset) ==>
              r[i] == executions[i].(accepted := false)
    ensures forall i :: 0 <= i < |r| && !IsReset(executions[i], reset) ==> r[i] == executions[i]
  {
    seq(|executions|, i requires 0 <= i < |executions| =>
      if IsReset(executions[i], reset) then executions[i].(accepted := false) else executions[i])
  }

  /** `run_existing_task` up to the point where it computes the inputs to run. */
  method RunExistingTask(task: TaskExecution, reset: bool, hasWithItems: bool) returns (o: Outcome<Exception>)
    modifies task
    ensures old(task.state) == State.Success ==> o == Fail(EngineException)
    ensures old(task.state) == Error && !reset && !hasWithItems ==> o == Pass
    ensures old(task.state) == State.Success || (old(task.state) == Error && !reset && !hasWithItems) ==>
              task.state == old(task.state) && task.processed == old(task.processed) &&
              task.executions == old(task.executions)
    ensures old(task.state) != State.Success && !(old(task.state) == Error && !reset && !hasWithItems) ==>
              o == Pass && task.state == Running && !task.processed &&
              task.executions == (if old(task.state) == Running then old(task.executions)
                                  else ResetExecutions(old(task.executions), reset))
    ensures task.runtimeContext == old(task.runtimeContext)
  {
    if task.state == State.Success {
      return Fail(EngineException);
    }
    if task.state == Error && !reset && !hasWithItems {
      return Pass;
    }
    if task.state != Running {
      var original := task.executions;
      var i := 0;
      while i < |task.executions|
        invariant 0 <= i <= |task.executions| == |original|
        invariant forall k :: 0 <= k < i ==> task.executions[k] == ResetExecutions(original, reset)[k]
        invariant forall k :: i <= k < |original| ==> task.executions[k] == original[k]
        invariant task.state == old(task.state) && task.runtimeContext == old(task.runtimeContext)
      {
        if IsReset(task.executions[i], reset) {
          task.executions := task.executions[i := task.executions[i].(accepted := false)];
        }
        i := i + 1;
      }
      assert task.executions == ResetExecutions(original, reset);
    }
    task.state := Running;
    task.processed := false;
    o := Pass;
  }

  /** After a re-run without reset no accepted execution is in ERROR, so the with-items
      final state is SUCCESS until a new error arrives. */
  lemma {:induction false} ResetLeavesNoAcceptedError(executions: seq<ActionExecution>)
    ensures WithItems.GetFinalState(ResetExecutions(executions, false)) == State.Success
  {
    var r := ResetExecutions(executions, false);
    forall x | x in r
      ensures !(x.accepted && x.state == Error)
    {
      var i :| 0 <= i < |r| && r[i] == x;
    }
  }

  /** An item whose accepted execution failed becomes a re-run index after a re-run
      without reset. */
  lemma {:induction false} FailedItemIsRerun(executions: seq<ActionExecution>, i: nat)
    requires i < |executions| && WithItems.IsAcceptedError(executions[i])
    ensures WithItems.IsRerunIndex(WithItems.UnacceptedActExs(ResetExecutions(executions, false)), executions[i].withItemsIndex)
  {
    var r := ResetExecutions(executions, false);
    assert r[i] in r;
    assert r[i] in WithItems.UnacceptedActExs(r);
  }

  /** After a re-run with reset no execution is accepted. */
  lemma {:induction false} FullResetAcceptsNothing(executions: seq<ActionExecution>)
    ensures |Filter(ResetExecutions(executions, true), WithItems.IsAccepted)| == 0
  {
    var r := ResetExecutions(executions, true);
    CountWhereNone(r, WithItems.IsAccepted);
  }

  // ---------------------------------------------------------------------------
  // With-items input

  /** The number of items: the length of the first list. */
  function ItemCount(items: seq<(string, Value)>): nat
    requires WithItems.AllLists(items)
  {
    if items == [] then 0 else |items[0].1.items|
  }

  predicate DistinctKeys(items: seq<(string, Value)>) {
    forall j, k :: 0 <= j < k < |items| ==> items[j].0 != items[k].0
  }

  function KeyPrefix(items: seq<(string, Value)>, j: nat): set<string>
    requires j <= |items|
  {
    set l | 0 <= l < j :: items[l].0
  }

  /** The input of item `i` built from the first `j` with-items keys: each key bound to the
      `i`-th element of its list, a later key overriding an earlier equal one. */
  function ItemInput(items: seq<(string, Value)>, j: nat, i: nat): (m: map<string, Value>)
    requires WithItems.AllLists(items) && WithItems.SameLength(items)
    requires j <= |items| && i < ItemCount(items)
    ensures m.Keys == KeyPrefix(items, j)
    ensures DistinctKeys(items) ==> forall l :: 0 <= l < j ==> m[items[l].0] == items[l].1.items[i]
  {
    if j == 0 then map[]
    else
      assert |items[j - 1].1.items| == |items[0].1.items|;
      assert KeyPrefix(items, j) == KeyPrefix(items, j - 1) + {items[j - 1].0};
      ItemInput(items, j - 1, i)[items[j - 1].0 := items[j - 1].1.items[i]]
  }

  /** The transposition of the with-items lists into one input per item. */
  function Transposed(items: seq<(string, Value)>): (r: seq<map<string, Value>>)
    requires WithItems.AllLists(items) && WithItems.SameLength(items)
    ensures |r| == ItemCount(items)
    ensures forall i :: 0 <= i < |r| ==> r[i].Keys == KeyPrefix(items, |items|)
    ensures DistinctKeys(items) ==> forall i, l :: 0 <= i < |r| && 0 <= l < |items| ==>
              items[l].0 in r[i] && r[i][items[l].0] == items[l].1.items[i]
  {
    seq(ItemCount(items), i requires 0 <= i < ItemCount(items) => ItemInput(items, |items|, i))
  }

  /** The loop of `_get_with_items_input` that builds `inputs_per_item`, key by key and
      item by item. */
  method InputsPerItem(items: seq<(string, Value)>) returns (inputs: seq<map<string, Value>>)
    requires WithItems.AllLists(items) && WithItems.SameLength(items)
    ensures inputs == Transposed(items)
  {
    var n := ItemCount(items);
    inputs := [];
    var j := 0;
    while j < |items|
      invariant 0 <= j <= |items|
      invariant |inputs| == if j == 0 then 0 else n
      invariant forall i :: 0 <= i < |inputs| ==> inputs[i] == ItemInput(items, j, i)
    {
      var key := items[j].0;
      var values := items[j].1.items;
      assert |values| == n;
      var index := 0;
      while index < |values|
        invariant 0 <= index <= |values|
        invariant |inputs| == if j == 0 then index else n
        invariant forall i :: 0 <= i < index ==> inputs[i] == ItemInput(items, j + 1, i)
        invariant forall i :: index <= i < |inputs| ==> inputs[i] == ItemInput(items, j, i)
      {
        var iterContext := map[key := values[index]];
        if index >= |inputs| {
          assert ItemInput(items, j + 1, index) == ItemInput(items, 0, index)[key := values[index]];
          inputs := inputs + [iterContext];
        } else {
          inputs := inputs[index := inputs[index][key := values[index]]];
        }
        index := index + 1;
      }
      j := j + 1;
    }
  }

  /** `operator.itemgetter(*indices)(action_inputs)` paired with the indices: IndexError
      as soon as one index is past the end. */
  function SelectInputs<T>(indices: seq<nat>, actionInputs: seq<T>): (r: Result<seq<(nat, T)>, Exception>)
    ensures r.Failure? <==> exists k :: 0 <= k < |indices| && indices[k] >= |actionInputs|
    ensures r.Failure? ==> r.error == IndexError
    ensures r.Success? ==> |r.value| == |indices|
    ensures r.Success? ==> forall k :: 0 <= k < |indices| ==>
              indices[k] < |actionInputs| && r.value[k] == (indices[k], actionInputs[indices[k]])
  {
    if indices == [] then Result.Success([])
    else if indices[0] >= |actionInputs| then Failure(IndexError)
    else
      match SelectInputs(indices[1..], actionInputs)
      case Failure(e) => Failure(e)
      case Success(rest) => Result.Success([(indices[0], actionInputs[indices[0]])] + rest)
  }

  /** The loop of `_get_with_items_input` that evaluates the input of every item. */
  method ActionInputs(inputsPerItem: seq<map<string, Value>>, actionInput: map<string, Value> -> Value)
    returns (actionInputs: seq<Value>)
    ensures |actionInputs| == |inputsPerItem|
    ensures forall k :: 0 <= k < |inputsPerItem| ==> actionInputs[k] == actionInput(inputsPerItem[k])
  {
    actionInputs := [];
    var i := 0;
    while i < |inputsPerItem|
      invariant 0 <= i <= |inputsPerItem|
      invariant |actionInputs| == i
      invariant forall k :: 0 <= k < i ==> actionInputs[k] == actionInput(inputsPerItem[k])
    {
      actionInputs := actionInputs + [actionInput(inputsPerItem[i])];
      i := i + 1;
    }
  }

  /** `_get_with_items_input`, given the evaluated with-items map as its (key, value) pairs
      and the evaluation of an action or sub-workflow input for one item's input. The
      context is prepared and decreased by the number of chosen indices before the inputs
      of those indices are looked up. */
  method GetWithItemsInput(task: TaskExecution, items: seq<(string, Value)>, actionInput: map<string, Value> -> Value)
    returns (r: Result<seq<(nat, Value)>, Exception>)
    requires |items| > 0 && DistinctKeys(items)
    modifies task
    ensures WithItems.ValidateInput(items).Fail? ==>
              r == Failure(InputException) && task.runtimeContext == old(task.runtimeContext)
    ensures WithItems.ValidateInput(items).Pass? ==>
              var ctx := WithItems.PreparedContext(old(task.runtimeContext), ItemCount(items));
              var indices := WithItems.GetIndicesForLoop(old(task.executions), ctx);
              WithItems.DecreasedContext(ctx, |indices|).Success? &&
              task.runtimeContext == old(task.runtimeContext).(withItems := Some(WithItems.DecreasedContext(ctx, |indices|).value)) &&
              (r.Failure? <==> exists k :: 0 <= k < |indices| && indices[k] >= ItemCount(items)) &&
              (r.Failure? ==> r.error == IndexError) &&
              (r.Success? ==>
                 |r.value| == |indices| &&
                 (forall k :: 0 <= k < |indices| ==> r.value[k] == (indices[k], actionInput(Transposed(items)[indices[k]]))))
    ensures r.Success? ==> WithItems.ValidateInput(items).Pass?
    ensures r.Success? ==> forall k :: 0 <= k < |r.value| ==>
              r.value[k].0 < ItemCount(items) &&
              r.value[k].1 == actionInput(Transposed(items)[r.value[k].0])
    ensures r.Success? ==> forall k, l :: 0 <= k < l < |r.value| ==> r.value[k].0 < r.value[l].0
    ensures (WithItems.ValidateInput(items).Pass? && old(task.runtimeContext.withItems).None? &&
             (forall x :: x in old(task.executions) ==> x.withItemsIndex < ItemCount(items))) ==> r.Success?
    ensures task.state == old(task.state) && task.processed == old(task.processed)
    ensures task.executions == old(task.executions)
  {
    var v := WithItems.ValidateInput(items);
    if v.Fail? {
      return Failure(v.error);
    }
    ghost var unprepared := task.runtimeContext.withItems.None?;
    var inputsPerItem := InputsPerItem(items);
    var actionInputs := ActionInputs(inputsPerItem, actionInput);
    WithItems.PrepareRuntimeContext(task, true, |actionInputs|);
    var ctx := task.runtimeContext.withItems.value;
    var indices := WithItems.GetIndicesForLoop(task.executions, ctx);
    if unprepared && forall x :: x in task.executions ==> x.withItemsIndex < ItemCount(items) {
      WithItems.LoopIndicesNameItems(task.executions, ctx);
      forall k | 0 <= k < |indices|
        ensures indices[k] < |actionInputs|
      {
        assert indices[k] in indices;
      }
    }
    WithItems.DecreaseAfterLoopSucceeds(task.executions, ctx);
    var d := WithItems.DecreaseCapacity(task, |indices|);
    assert d.Pass?;
    r := SelectInputs(indices, actionInputs);
  }

  /** With two items, a capacity of three and nothing run yet, the indices chosen as written
      make the lookup of the chosen inputs raise IndexError; the bounded indices select
      both items. */
  lemma OverrunRaisesIndexError<T>(a: T, b: T)
    ensures SelectInputs(WithItems.GetIndicesForLoopAsWritten([], WithItemsContext(Some(3), 2)), [a, b]) == Failure(IndexError)
    ensures SelectInputs(WithItems.GetIndicesForLoop([], WithItemsContext(Some(3), 2)), [a, b]) == Result.Success([(0, a), (1, b)])
  {
    WithItems.IndicesOverrunItemCount();
    assert [0, 1, 2][2] >= |[a, b]|;
    var inputs := [a, b];
    var bounded: seq<nat> := [0, 1];
    var r := SelectInputs(bounded, inputs);
    assert r.Success? && |r.value| == 2;
    assert r.value[0] == (0, a) && r.value[1] == (1, b);
    var pairs: seq<(nat, T)> := [(0, a), (1, b)];
    assert r.value == pairs;
    assert bounded == WithItems.GetIndicesForLoop([], WithItemsContext(Some(3), 2));
  }

  // ---------------------------------------------------------------------------
  // Sub-workflow parameters

  /** The parameter split of `_schedule_run_workflow`: `wfParams` starts with the task
      execution id, the item index and the parent's `env`; every input key the
      sub-workflow does not declare then moves, with its value, from the input to the
      parameters. */
  method SplitWorkflowParams(taskExecutionId: string, index: nat, parentParams: map<string, Value>,
                             wfInput: map<string, Value>, declared: set<string>)
    returns (wfParams: map<string, Value>, remaining: map<string, Value>)
    ensures wfParams.Keys == {"task_execution_id", "with_items_index"} + (wfInput.Keys - declared) +
                             (if "env" in parentParams then {"env"} else {})
    ensures forall k :: k in wfInput && k !in declared ==> wfParams[k] == wfInput[k]
    ensures "task_execution_id" !in wfInput.Keys - declared ==> wfParams["task_execution_id"] == Str(taskExecutionId)
    ensures "with_items_index" !in wfInput.Keys - declared ==> wfParams["with_items_index"] == Int(index)
    ensures "env" in parentParams && "env" !in wfInput.Keys - declared ==> wfParams["env"] == parentParams["env"]
    ensures remaining.Keys == wfInput.Keys * declared
    ensures forall k :: k in remaining ==> remaining[k] == wfInput[k]
  {
    var base := map["task_execution_id" := Str(taskExecutionId), "with_items_index" := Int(index)];
    if "env" in parentParams {
      base := base["env" := parentParams["env"]];
    }
    wfParams := base;
    remaining := wfInput;
    var todo := wfInput.Keys;
    while todo != {}
      invariant todo <= wfInput.Keys
      invariant wfParams.Keys == base.Keys + (wfInput.Keys - todo - declared)
      invariant forall k :: k in wfInput.Keys - todo - declared ==> wfParams[k] == wfInput[k]
      invariant forall k :: k in base && k !in wfInput.Keys - todo - declared ==> wfParams[k] == base[k]
      invariant remaining.Keys == todo + (wfInput.Keys * declared)
      invariant forall k :: k in remaining ==> remaining[k] == wfInput[k]
      decreases todo
    {
      var k :| k in todo;
      if k !in declared {
        wfParams := wfParams[k := wfInput[k]];
        remaining := remaining - {k};
      }
      todo := todo - {k};
    }
  }

  // ---------------------------------------------------------------------------
  // Completion

  /** `_complete_task`: sets the state of a task not yet completed. Publishing the task's
      variables and dropping its result are not modelled. */
  method CompleteTask(task: TaskExecution, state: State)
    modifies task
    ensures States.IsCompleted(old(task.state)) ==> task.state == old(task.state)
    ensures !States.IsCompleted(old(task.state)) ==> task.state == state
    ensures task.processed == old(task.processed) && task.executions == old(task.executions)
    ensures task.runtimeContext == old(task.runtimeContext)
  {
    if States.IsCompleted(task.state) {
      return;
    }
    task.state := state;
  }

  /** `is_task_completed`. */
  function IsTaskCompleted(task: TaskExecution, hasWithItems: bool): (b: bool)
    requires hasWithItems ==> task.runtimeContext.withItems.Some?
    reads task
    ensures !hasWithItems ==> (b <==> task.state == State.Success || task.state == Error)
    ensures hasWithItems && b ==> |task.executions| >= 1
  {
    if hasWithItems then WithItems.IsCompleted(task.executions, task.runtimeContext.withItems.value)
    else States.IsCompleted(task.state)
  }

  /** `need_to_continue`: only a with-items task with iterations left and a truthy
      concurrency continues. */
  function NeedToContinue(task: TaskExecution, hasWithItems: bool): (b: bool)
    requires hasWithItems ==> task.runtimeContext.withItems.Some?
    reads task
    ensures b ==> hasWithItems && task.runtimeContext.withItems.value.count >= 1
    ensures (hasWithItems && Truthy(task.runtimeContext.concurrency) &&
             |task.executions| < task.runtimeContext.withItems.value.count) ==> b
  {
    hasWithItems && WithItems.HasMoreIterations(task.executions, task.runtimeContext.withItems.value) &&
    Truthy(task.runtimeContext.concurrency)
  }

  /** A task that needs to continue is not completed, and a task without with-items never
      continues. */
  lemma {:induction false} ContinuingTaskIsNotCompleted(task: TaskExecution, hasWithItems: bool)
    requires hasWithItems ==> task.runtimeContext.withItems.Some?
    ensures NeedToContinue(task, hasWithItems) ==> !IsTaskCompleted(task, hasWithItems)
    ensures !hasWithItems ==> !NeedToContinue(task, hasWithItems)
  {
    if hasWithItems && IsTaskCompleted(task, hasWithItems) {
      WithItems.CompletedHasNoMoreIterations(task.executions, task.runtimeContext.withItems.value);
    }
  }
}
