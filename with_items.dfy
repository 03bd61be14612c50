/** With-items iteration bookkeeping (mistral/workflow/with_items.py): the counters kept in a
    task execution's `with_items_context`, the choice of the item indices to run next, and
    the completion rules over the task's action executions. */
module WithItems {
  import opened Wrappers
  import opened Exceptions
  import opened Values
  import opened States
  import opened Seqs
  import opened Models

  // The filters the module applies to a task's action executions.

  predicate IsAccepted(x: ActionExecution) {
    x.accepted
  }

  predicate IsAcceptedOrRunning(x: ActionExecution) {
    x.accepted || x.state == Running
  }

  predicate IsAcceptedError(x: ActionExecution) {
    x.accepted && x.state == Error
  }

  /** Not accepted but completed: the executions a re-run must repeat. */
  predicate IsUnacceptedCompleted(x: ActionExecution) {
    !x.accepted && States.IsCompleted(x.state)
  }

  /** The filter of `get_index` as written: its second operand is the (non-empty, hence
      truthy) name of the RUNNING state, not a comparison with the execution's state. */
  predicate CountedByGetIndex(x: ActionExecution) {
    x.accepted || Name(Running) != ""
  }

  /** `is_completed`: the accepted executions number as many as the items, an item count
      of 0 counting as 1. The database query for accepted executions is a filter over the
      task's executions. */
  function IsCompleted(executions: seq<ActionExecution>, ctx: WithItemsContext): (b: bool)
    ensures b ==> |executions| >= ctx.count && |executions| >= 1
  {
    CountWhereAtMostLength(executions, IsAccepted);
    (if ctx.count != 0 then ctx.count else 1) == |Filter(executions, IsAccepted)|
  }

  /** `get_index`: because its filter always holds, it is the number of executions. */
  function GetIndex(executions: seq<ActionExecution>): (n: nat)
    ensures n == |executions|
  {
    CountWhereAll(executions, CountedByGetIndex);
    |Filter(executions, CountedByGetIndex)|
  }

  /** `get_final_state`. */
  function GetFinalState(executions: seq<ActionExecution>): (s: State)
    ensures s == Error <==> exists x :: x in executions && x.accepted && x.state == Error
    ensures s != Error ==> s == State.Success
  {
    var errors := Filter(executions, IsAcceptedError);
    if errors != [] then
      assert errors[0] in errors;
      Error
    else
      State.Success
  }

  /** `has_more_iterations`: fewer executions accepted or running than items. */
  function HasMoreIterations(executions: seq<ActionExecution>, ctx: WithItemsContext): (b: bool)
    ensures |executions| < ctx.count ==> b
    ensures b ==> ctx.count >= 1
  {
    CountWhereAtMostLength(executions, IsAcceptedOrRunning);
    ctx.count > |Filter(executions, IsAcceptedOrRunning)|
  }

  /** A completed with-items task has no iterations left to start. */
  lemma {:induction false} CompletedHasNoMoreIterations(executions: seq<ActionExecution>, ctx: WithItemsContext)
    requires IsCompleted(executions, ctx)
    ensures !HasMoreIterations(executions, ctx)
  {
    CountWhereMonotone(executions, IsAccepted, IsAcceptedOrRunning);
  }

  /** `_get_unaccepted_act_exs`. */
  function UnacceptedActExs(executions: seq<ActionExecution>): (r: seq<ActionExecution>)
    ensures forall x :: x in r <==> x in executions && !x.accepted && States.IsCompleted(x.state)
    ensures IsSubsequence(r, executions)
    ensures |r| == CountWhere(executions, IsUnacceptedCompleted)
  {
    Filter(executions, IsUnacceptedCompleted)
  }

  /** Some execution in `unaccepted` ran item `i`. */
  predicate IsRerunIndex(unaccepted: seq<ActionExecution>, i: nat) {
    exists x :: x in unaccepted && x.withItemsIndex == i
  }

  function WithItemsIndices(executions: seq<ActionExecution>): (r: seq<nat>)
    ensures |r| == |executions|
    ensures forall k :: 0 <= k < |r| ==> r[k] == executions[k].withItemsIndex
  {
    seq(|executions|, k requires 0 <= k < |executions| => executions[k].withItemsIndex)
  }

  /** `_get_indices_if_rerun`: the distinct item indices of the executions, ascending. */
  function IndicesIfRerun(unaccepted: seq<ActionExecution>): (r: seq<nat>)
    ensures StrictlyIncreasing(r)
    ensures forall i :: i in r <==> IsRerunIndex(unaccepted, i)
  {
    var indices := WithItemsIndices(unaccepted);
    assert forall i :: i in indices <==> IsRerunIndex(unaccepted, i) by {
      forall i
        ensures i in indices <==> IsRerunIndex(unaccepted, i)
      {
        if i in indices {
          var k :| 0 <= k < |indices| && indices[k] == i;
          assert unaccepted[k] in unaccepted;
        }
        if IsRerunIndex(unaccepted, i) {
          var x :| x in unaccepted && x.withItemsIndex == i;
          var k :| 0 <= k < |unaccepted| && unaccepted[k] == x;
          assert indices[k] == i;
        }
      }
    }
    SortedDistinct(indices)
  }

  /** `max(indices)` of the re-run indices. */
  function MaxRerunIndex(unaccepted: seq<ActionExecution>): (m: nat)
    requires unaccepted != []
    ensures IsRerunIndex(unaccepted, m)
    ensures forall x :: x in unaccepted ==> x.withItemsIndex <= m
  {
    var indices := IndicesIfRerun(unaccepted);
    assert IsRerunIndex(unaccepted, unaccepted[0].withItemsIndex);
    assert forall x :: x in unaccepted ==> IsRerunIndex(unaccepted, x.withItemsIndex);
    Max(indices)
  }

  /** The re-run indices followed by every later index up to the item count. */
  function RerunSchedule(unaccepted: seq<ActionExecution>, count: nat): (r: seq<nat>)
    requires unaccepted != []
    ensures StrictlyIncreasing(r)
    ensures forall i: nat :: i in r <==> IsRerunIndex(unaccepted, i) || MaxRerunIndex(unaccepted) < i < count
  {
    var indices := IndicesIfRerun(unaccepted);
    var top := MaxRerunIndex(unaccepted);
    if top < count - 1 then
      var tail := Range(top + 1, count);
      assert forall i :: 0 <= i < |indices| ==> indices[i] in indices;
      ConcatIncreasing(indices, tail);
      indices + tail
    else
      indices
  }

  /** The re-run branch of `get_indices_for_loop`: the schedule, cut to the capacity when
      the capacity is truthy. */
  function RerunIndicesForLoop(unaccepted: seq<ActionExecution>, ctx: WithItemsContext): (r: seq<nat>)
    requires unaccepted != []
    ensures StrictlyIncreasing(r)
    ensures r <= RerunSchedule(unaccepted, ctx.count)
    ensures Truthy(ctx.capacity) ==> |r| == Min(ctx.capacity.value, |RerunSchedule(unaccepted, ctx.count)|)
    ensures !Truthy(ctx.capacity) ==> r == RerunSchedule(unaccepted, ctx.count)
  {
    var indices := RerunSchedule(unaccepted, ctx.count);
    if Truthy(ctx.capacity) then Take(indices, ctx.capacity.value) else indices
  }

  function Min(a: nat, b: nat): nat {
    if a < b then a else b
  }

  /** `get_indices_for_loop` as written: without re-runs it runs `capacity` items from
      `get_index` on, even when fewer items than that remain. */
  function GetIndicesForLoopAsWritten(executions: seq<ActionExecution>, ctx: WithItemsContext): (r: seq<nat>)
    ensures StrictlyIncreasing(r)
    ensures Truthy(ctx.capacity) ==> |r| <= ctx.capacity.value
    ensures UnacceptedActExs(executions) != [] ==> r == RerunIndicesForLoop(UnacceptedActExs(executions), ctx)
    ensures UnacceptedActExs(executions) == [] ==>
              |r| == (if Truthy(ctx.capacity) then ctx.capacity.value
                      else if |executions| < ctx.count then ctx.count - |executions| else 0)
    ensures UnacceptedActExs(executions) == [] ==> forall k :: 0 <= k < |r| ==> r[k] == |executions| + k
  {
    var unaccepted := UnacceptedActExs(executions);
    if unaccepted != [] then
      RerunIndicesForLoop(unaccepted, ctx)
    else
      var index := GetIndex(executions);
      var numberToExecute := if Truthy(ctx.capacity) then ctx.capacity.value as int else ctx.count - index;
      Range(index, index + numberToExecute)
  }

  /** `get_indices_for_loop` with the number of new items bounded by the items left, so that
      every chosen index names an item. */
  function GetIndicesForLoop(executions: seq<ActionExecution>, ctx: WithItemsContext): (r: seq<nat>)
    ensures StrictlyIncreasing(r)
    ensures Truthy(ctx.capacity) ==> |r| <= ctx.capacity.value
    ensures UnacceptedActExs(executions) != [] ==> r == GetIndicesForLoopAsWritten(executions, ctx)
    ensures UnacceptedActExs(executions) == [] ==>
              |r| == (if |executions| >= ctx.count then 0
                      else if Truthy(ctx.capacity) then Min(ctx.capacity.value, ctx.count - |executions|)
                      else ctx.count - |executions|)
    ensures UnacceptedActExs(executions) == [] ==> forall k :: 0 <= k < |r| ==> r[k] == |executions| + k
  {
    var unaccepted := UnacceptedActExs(executions);
    if unaccepted != [] then
      RerunIndicesForLoop(unaccepted, ctx)
    else
      var index := GetIndex(executions);
      var left := ctx.count - index;
      var numberToExecute := if Truthy(ctx.capacity) && ctx.capacity.value < left then ctx.capacity.value as int else left;
      Range(index, index + numberToExecute)
  }

  /** When every execution ran an existing item, every index chosen names an existing item. */
  lemma {:induction false} LoopIndicesNameItems(executions: seq<ActionExecution>, ctx: WithItemsContext)
    requires forall x :: x in executions ==> x.withItemsIndex < ctx.count
    ensures forall i :: i in GetIndicesForLoop(executions, ctx) ==> i < ctx.count
  {
    var r := GetIndicesForLoop(executions, ctx);
    var unaccepted := UnacceptedActExs(executions);
    if unaccepted != [] {
      var schedule := RerunSchedule(unaccepted, ctx.count);
      forall i | i in r
        ensures i < ctx.count
      {
        var k :| 0 <= k < |r| && r[k] == i;
        assert schedule[k] == i;
        assert schedule[k] in schedule;
        if IsRerunIndex(unaccepted, i) {
          var x :| x in unaccepted && x.withItemsIndex == i;
        }
      }
    }
  }

  /** With two items, a capacity of three and nothing run yet, the code as written asks for
      item 2, which does not exist (the lookup of the chosen inputs then fails); the
      bounded version asks for items 0 and 1. */
  lemma IndicesOverrunItemCount()
    ensures GetIndicesForLoopAsWritten([], WithItemsContext(Some(3), 2)) == [0, 1, 2]
    ensures GetIndicesForLoop([], WithItemsContext(Some(3), 2)) == [0, 1]
  {
    var ctx := WithItemsContext(Some(3), 2);
    assert UnacceptedActExs([]) == [];
    var a := GetIndicesForLoopAsWritten([], ctx);
    assert a[0] == 0 && a[1] == 1 && a[2] == 2;
    var b := GetIndicesForLoop([], ctx);
    assert b[0] == 0 && b[1] == 1;
  }

  /** `decrease_capacity` on the context. Python 2 orders None below every number, so a
      None capacity is neither reduced nor rejected. */
  function DecreasedContext(ctx: WithItemsContext, n: nat): (r: Result<WithItemsContext, Exception>)
    ensures r.Failure? <==> Truthy(ctx.capacity) && ctx.capacity.value < n
    ensures r.Failure? ==> r.error == WorkflowException
    ensures r.Success? ==> r.value.count == ctx.count
    ensures ctx.capacity.Some? && ctx.capacity.value >= n ==> r == Result.Success(ctx.(capacity := Some(ctx.capacity.value - n)))
    ensures r.Success? && !(ctx.capacity.Some? && ctx.capacity.value >= n) ==> r.value == ctx
  {
    if ctx.capacity.Some? && ctx.capacity.value >= n then
      Result.Success(ctx.(capacity := Some(ctx.capacity.value - n)))
    else if Truthy(ctx.capacity) then
      Failure(WorkflowException)
    else
      Result.Success(ctx)
  }

  /** Taking the indices chosen for the next loop never exhausts the capacity. */
  lemma DecreaseAfterLoopSucceeds(executions: seq<ActionExecution>, ctx: WithItemsContext)
    ensures DecreasedContext(ctx, |GetIndicesForLoop(executions, ctx)|).Success?
  {
  }

  /** `increase_capacity` on the context, given the task's concurrency. Python 2 orders None
      below every number, so a None capacity passes the comparison and `+= 1` on it raises
      TypeError. */
  function IncreasedContext(ctx: WithItemsContext, concurrency: Option<nat>): (r: Result<WithItemsContext, Exception>)
    ensures r.Failure? <==> Truthy(concurrency) && ctx.capacity.None?
    ensures r.Failure? ==> r.error == TypeError
    ensures r.Success? ==> r.value.count == ctx.count
    ensures r.Success? && r.value != ctx ==>
              Truthy(concurrency) && ctx.capacity.Some? && ctx.capacity.value < concurrency.value &&
              r.value.capacity == Some(ctx.capacity.value + 1)
    ensures r.Success? && Truthy(concurrency) && ctx.capacity.Some? && ctx.capacity.value < concurrency.value ==>
              r.value.capacity == Some(ctx.capacity.value + 1)
    ensures r.Success? && !(Truthy(concurrency) && ctx.capacity.Some? && ctx.capacity.value < concurrency.value) ==>
              r.value == ctx
  {
    if Truthy(concurrency) && (ctx.capacity.None? || ctx.capacity.value < concurrency.value) then
      if ctx.capacity.None? then Failure(TypeError)
      else Result.Success(ctx.(capacity := Some(ctx.capacity.value + 1)))
    else
      Result.Success(ctx)
  }

  /** Increasing never lifts the capacity above a truthy concurrency it started under. */
  lemma IncreaseKeepsCapacityBounded(ctx: WithItemsContext, concurrency: Option<nat>)
    requires Truthy(concurrency) && ctx.capacity.Some? && ctx.capacity.value <= concurrency.value
    ensures IncreasedContext(ctx, concurrency).Success?
    ensures IncreasedContext(ctx, concurrency).value.capacity.value <= concurrency.value
  {
  }

  /** `decrease_capacity`: updates the task's with-items context in place. */
  method DecreaseCapacity(task: TaskExecution, n: nat) returns (o: Outcome<Exception>)
    requires task.runtimeContext.withItems.Some?
    modifies task
    ensures var d := DecreasedContext(old(task.runtimeContext.withItems.value), n);
            if d.Success? then o == Pass && task.runtimeContext == old(task.runtimeContext).(withItems := Some(d.value))
            else o == Fail(d.error) && task.runtimeContext == old(task.runtimeContext)
    ensures task.state == old(task.state) && task.processed == old(task.processed)
    ensures task.executions == old(task.executions)
  {
    var d := DecreasedContext(task.runtimeContext.withItems.value, n);
    if d.Failure? {
      return Fail(d.error);
    }
    task.runtimeContext := task.runtimeContext.(withItems := Some(d.value));
    o := Pass;
  }

  /** `increase_capacity`: updates the task's with-items context in place. */
  method IncreaseCapacity(task: TaskExecution) returns (o: Outcome<Exception>)
    requires task.runtimeContext.withItems.Some?
    modifies task
    ensures var d := IncreasedContext(old(task.runtimeContext.withItems.value), old(task.runtimeContext.concurrency));
            if d.Success? then o == Pass && task.runtimeContext == old(task.runtimeContext).(withItems := Some(d.value))
            else o == Fail(d.error) && task.runtimeContext == old(task.runtimeContext)
    ensures task.state == old(task.state) && task.processed == old(task.processed)
    ensures task.executions == old(task.executions)
  {
    var d := IncreasedContext(task.runtimeContext.withItems.value, task.runtimeContext.concurrency);
    if d.Failure? {
      return Fail(d.error);
    }
    task.runtimeContext := task.runtimeContext.(withItems := Some(d.value));
    o := Pass;
  }

  /** The with-items context of a with-items task once it is prepared: the existing one, or
      a new one with the concurrency as capacity and the number of inputs as count. */
  function PreparedContext(rc: RuntimeContext, inputCount: nat): WithItemsContext {
    if rc.withItems.Some? then rc.withItems.value else WithItemsContext(rc.concurrency, inputCount)
  }

  /** `prepare_runtime_context`: creates the with-items context, with the concurrency as
      capacity and the number of inputs as count, for a with-items task that has none yet. */
  method PrepareRuntimeContext(task: TaskExecution, hasWithItems: bool, inputCount: nat)
    modifies task
    ensures hasWithItems && old(task.runtimeContext.withItems).None? ==>
              task.runtimeContext == old(task.runtimeContext).(withItems := Some(WithItemsContext(old(task.runtimeContext.concurrency), inputCount)))
    ensures hasWithItems ==>
              task.runtimeContext == old(task.runtimeContext).(withItems := Some(PreparedContext(old(task.runtimeContext), inputCount)))
    ensures !(hasWithItems && old(task.runtimeContext.withItems).None?) ==> task.runtimeContext == old(task.runtimeContext)
    ensures task.runtimeContext.concurrency == old(task.runtimeContext.concurrency)
    ensures task.state == old(task.state) && task.processed == old(task.processed)
    ensures task.executions == old(task.executions)
  {
    if hasWithItems && task.runtimeContext.withItems.None? {
      var concurrency := task.runtimeContext.concurrency;
      task.runtimeContext := task.runtimeContext.(withItems := Some(WithItemsContext(concurrency, inputCount)));
    }
  }

  /** Every with-items value is a list. */
  predicate AllLists(items: seq<(string, Value)>) {
    forall j :: 0 <= j < |items| ==> items[j].1.List?
  }

  /** All the lists have the same length. */
  predicate SameLength(items: seq<(string, Value)>)
    requires AllLists(items)
  {
    forall j, k :: 0 <= j < |items| && 0 <= k < |items| ==> |items[j].1.items| == |items[k].1.items|
  }

  /** `validate_input` on the evaluated with-items map, given as its (key, value) pairs in
      iteration order; the map must not be empty, since its first value is read. */
  function ValidateInput(items: seq<(string, Value)>): (o: Outcome<Exception>)
    requires |items| > 0
    ensures o.Fail? ==> o.error == InputException
    ensures o.Pass? <==> AllLists(items) && SameLength(items)
  {
    if !(forall j :: 0 <= j < |items| ==> items[j].1.List?) then
      Fail(InputException)
    else
      var requiredLen := |items[0].1.items|;
      if !(forall j :: 0 <= j < |items| ==> |items[j].1.items| == requiredLen) then
        Fail(InputException)
      else
        Pass
  }
}
