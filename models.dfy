/** The execution records the engine keeps (mistral/db/v2/sqlalchemy/models.py), reduced to
    the fields the task handler and the with-items bookkeeping read and write. */
module Models {
  import opened Wrappers
  import opened States

  /** An action or sub-workflow execution; `withItemsIndex` is its
      `runtime_context['with_items_index']`. */
  datatype ActionExecution = ActionExecution(accepted: bool, state: State, withItemsIndex: nat)

  /** `runtime_context['with_items_context']`: remaining parallel capacity and item count.
      A capacity of `None` is Python's None. */
  datatype WithItemsContext = WithItemsContext(capacity: Option<nat>, count: nat)

  /** The parts of a task execution's `runtime_context` the core uses. */
  datatype RuntimeContext = RuntimeContext(withItems: Option<WithItemsContext>, concurrency: Option<nat>)

  /** Python truthiness of an optional number: neither None nor 0. */
  predicate Truthy(o: Option<nat>) {
    o.Some? && o.value != 0
  }

  /** A task execution, updated in place by the engine. */
  class TaskExecution {
    var state: State
    var processed: bool
    var executions: seq<ActionExecution>
    var runtimeContext: RuntimeContext
  }
}
