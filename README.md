# Mistral workflow engine core, modelled in Dafny

This project models five parts of the Mistral workflow service (Python 2) and proves
properties of them:

- **The direct-workflow transition graph** (`workflows.dfy`). A workflow spec is built from
  its definition with the documented defaults. Each of a task's three transition clauses
  (`on-error`, `on-success`, `on-complete`) is the task's own clause when it is non-empty.
  Otherwise it is inherited from `task-defaults`, with the transitions back to the task
  removed. On top of these clauses the model answers `transition_exists`, the inbound and
  outbound task lookups and the search for start tasks, and it rejects a workflow without
  tasks or a direct workflow without a start task.
- **With-items bookkeeping** (`with_items.dfy`, over the records in `models.dfy`). A
  with-items task runs one action per item. Its context holds a remaining `capacity` and the
  item `count`. The model covers the choice of the item indices to run next, including
  re-runs of failed items, the shrinking and growing of the capacity, the check of the input
  shape, and the rules for completion and final state.
- **Task-handler decision rules** (`task_handler.dfy`):
  - the guards and the acceptance reset when an existing task is re-run;
  - turning the with-items lists into one input per item, and selecting the inputs of the
    chosen indices;
  - splitting a sub-workflow's input into input and parameters;
  - completing a task, and the rules for whether a task is completed or needs to continue.
- **The workflow REST resource** (`workflow_controller.dfy`): copying known attributes from a
  dict, and rendering the declared input parameters as a signature string such as
  `a, b, c=1`.
- **The environment REST checks** (`environment_controller.dfy`): the legal keys of create
  and update bodies.

`common.dfy` holds the shared vocabulary:

- `Option`, `Outcome` (an operation that returns nothing or raises) and `Result`;
- the exceptions raised;
- JSON-like values;
- execution states;
- the Python list built-ins the code uses (`filter`, `sorted(set(...))`, `range`, `max`,
  slicing).

Conventions of the model:

- A Python exception is a `Fail`/`Failure` carrying the exception's name.
- A Python dict that is iterated is a sequence of (key, value) pairs in iteration order.
- Python 2's ordering of `None` below every number is written out where the code depends on
  it. Examples: a `None` capacity is never decreased, and increasing a `None` capacity
  under a truthy concurrency raises TypeError (under a falsy one it stays `None`).
- The state module of the engine (`mistral/workflow/states.py`) is not part of this model.
  A state counts as completed when it is SUCCESS or ERROR.

## Model

| member | source | states |
|---|---|---|
| Workflows.NewWorkflowSpec | mistral/workbook/v2/workflows.py:45-66 | Missing `tags`, `type`, `input`, `output` and `vars` default to `[]`, direct, `[]`, `{}` and `{}`; every task gets the workflow's type, and keeps its name and clauses, in order; task names stay distinct |
| Workflows.ValidateSchema | mistral/workbook/v2/workflows.py:68-74 | Fails with InvalidModelException exactly when `tasks` is absent or empty |
| Workflows.SpecOf | mistral/workbook/v2/workflows.py:45-66 | The spec a definition with tasks stands for: one task per raw task, each of the workflow's type, with distinct names when the raw names are distinct |
| Workflows.Parse | mistral/workbook/v2/workflows.py:68-82 | InvalidModelException exactly for a workflow without tasks; otherwise the result is exactly `SpecOf(definition)` when that spec passes its semantic check, and DSLParsingException (only for a direct workflow) when it does not |
| Workflows.TaskNamed | mistral/workbook/v2/workflows.py:176 | The task looked up is in the workflow and has the given name |
| Workflows.TaskNamedIsUnique | mistral/workbook/v2/workflows.py:176 | With distinct names, looking up a task's name gives back that task |
| Workflows.RemoveTaskFromClause | mistral/workbook/v2/workflows.py:217-219 | Keeps exactly the transitions whose target differs from the name, in order, and drops one per transition to it |
| Workflows.EffectiveClause | mistral/workbook/v2/workflows.py:175-215 | A non-empty own clause is the result; no own clause and no defaults gives `[]`; otherwise the defaults' clause minus the transitions to the task itself, order kept |
| Workflows.TransitionExists | mistral/workbook/v2/workflows.py:161-173 | Holds iff the target is the first component of a transition in one of the three effective clauses, whatever the guard |
| Workflows.FindInboundTaskSpecs | mistral/workbook/v2/workflows.py:143-147 | Exactly the tasks that have a transition to the task, as a subsequence of the tasks |
| Workflows.FindOutboundTaskSpecs | mistral/workbook/v2/workflows.py:149-153 | Exactly the tasks the task has a transition to, as a subsequence of the tasks |
| Workflows.HasInboundTransitions | mistral/workbook/v2/workflows.py:155-156 | Holds iff some task has a transition to the task |
| Workflows.HasOutboundTransitions | mistral/workbook/v2/workflows.py:158-159 | Holds iff the task has a transition to some task |
| Workflows.FindStartTasks | mistral/workbook/v2/workflows.py:137-141 | Exactly the tasks no task has a transition to, in declaration order |
| Workflows.ValidateSemantics | mistral/workbook/v2/workflows.py:128-135 | Fails with DSLParsingException iff the workflow is direct and has no start task; the base and reverse variants never fail |
| Workflows.OwnClauseIsEffective | mistral/workbook/v2/workflows.py:175-187 | A task's non-empty own clause is its effective clause unchanged, self-transitions included |
| Workflows.InheritedDefaultsDropSelf | mistral/workbook/v2/workflows.py:176-187 | An inherited clause never targets the task itself and keeps every other default transition, in order |
| Workflows.NoClauseNoDefaultsIsEmpty | mistral/workbook/v2/workflows.py:175-187 | With no own clause and no defaults the effective clause is empty, not an error |
| Workflows.OwnSelfTransitionIsInbound | mistral/workbook/v2/workflows.py:143-147 | A self-transition in a task's own clause makes the task its own inbound source, so it is no start task |
| Workflows.SemanticsFailIffNoEntry | mistral/workbook/v2/workflows.py:128-141 | A direct workflow fails its semantic check iff every task has an inbound transition; a reverse one never fails |
| Workflows.StartTasksHaveNoInbound | mistral/workbook/v2/workflows.py:137-147 | Start tasks have no inbound task specs; a direct workflow that passes has at least one start task |
| Workflows.SingleTaskIsValid | mistral/workbook/v2/workflows.py:128-141 | A workflow whose single task has no transition to itself has that task as its start task and passes semantic validation, whatever its defaults |
| Workflows.SentinelIsNotOutboundTask | mistral/workbook/v2/workflows.py:149-153 | A target naming no task is never among the outbound task specs |
| WithItems.IsCompleted | mistral/workflow/with_items.py:36-43 | Completion needs at least `count or 1` executions, since the accepted ones are among them |
| WithItems.GetIndex | mistral/workflow/with_items.py:46-51 | Equals the number of executions, because its filter always holds |
| WithItems.GetFinalState | mistral/workflow/with_items.py:58-64 | ERROR iff some accepted execution is in ERROR, else SUCCESS |
| WithItems.HasMoreIterations | mistral/workflow/with_items.py:164-172 | Fewer executions than items always leaves iterations, and iterations remain only for a non-zero item count |
| WithItems.CompletedHasNoMoreIterations | mistral/workflow/with_items.py:164-172 | A task that `is_completed` (accepted executions equal `count or 1`) has no more iterations (accepted or running executions reach `count`) |
| WithItems.UnacceptedActExs | mistral/workflow/with_items.py:82-87 | Exactly the executions that are not accepted but completed, in order and with their multiplicity |
| WithItems.IndicesIfRerun | mistral/workflow/with_items.py:67-79 | Strictly increasing, and holds exactly the item indices of the given executions |
| WithItems.MaxRerunIndex | mistral/workflow/with_items.py:99 | The largest item index of the re-run executions |
| WithItems.RerunSchedule | mistral/workflow/with_items.py:96-100 | Strictly increasing; holds exactly the re-run indices and every index above their maximum and below `count` |
| WithItems.RerunIndicesForLoop | mistral/workflow/with_items.py:96-102 | A strictly increasing prefix of the schedule, of length `min(capacity, schedule length)` when the capacity is truthy, the whole schedule otherwise |
| WithItems.GetIndicesForLoopAsWritten | mistral/workflow/with_items.py:90-108 | Strictly increasing and at most `capacity` long; re-run branch as above; otherwise consecutive from `len(executions)`, `capacity` long when truthy, else `count - index` |
| WithItems.GetIndicesForLoop | mistral/workflow/with_items.py:90-108 | As written, except that the new indices are at most `count - len(executions)` |
| WithItems.LoopIndicesNameItems | mistral/workflow/with_items.py:90-108 | When every execution ran an existing item, every index chosen is below `count` |
| WithItems.IndicesOverrunItemCount | mistral/workflow/with_items.py:104-108 | Two items, capacity 3, no executions: as written `[0, 1, 2]`; bounded `[0, 1]` |
| WithItems.DecreasedContext | mistral/workflow/with_items.py:111-121 | Capacity at least n drops by exactly n; a non-zero capacity below n raises WorkflowException; 0 or None stays; `count` never changes |
| WithItems.DecreaseAfterLoopSucceeds | mistral/workflow/with_items.py:111-119 | Decreasing by the number of indices just chosen never raises |
| WithItems.IncreasedContext | mistral/workflow/with_items.py:124-130 | Adds 1 only when the concurrency is truthy and the capacity below it; None capacity then raises TypeError; `count` never changes |
| WithItems.IncreaseKeepsCapacityBounded | mistral/workflow/with_items.py:124-130 | A capacity at most a truthy concurrency stays at most it |
| WithItems.DecreaseCapacity | mistral/workflow/with_items.py:111-121 | Updates the task's context in place as `DecreasedContext` says, leaves it on failure, and touches nothing else |
| WithItems.IncreaseCapacity | mistral/workflow/with_items.py:124-130 | Updates the task's context in place as `IncreasedContext` says, leaves it on failure, and touches nothing else |
| WithItems.PrepareRuntimeContext | mistral/workflow/with_items.py:133-142 | A with-items task without a context gets `{capacity: concurrency, count: number of inputs}`; an existing context (a second call) is unchanged |
| WithItems.ValidateInput | mistral/workflow/with_items.py:145-161 | Passes iff every value is a list and all lists have the same length; otherwise InputException |
| TaskHandler.ResetExecutions | mistral/engine/task_handler.py:67-79 | With reset every execution, without it only the accepted ERROR ones, become unaccepted; nothing else changes |
| TaskHandler.RunExistingTask | mistral/engine/task_handler.py:44-83 | SUCCESS raises EngineException and ERROR without reset or with-items returns, both unchanged; else executions reset unless RUNNING, state RUNNING, not processed |
| TaskHandler.ResetLeavesNoAcceptedError | mistral/engine/task_handler.py:69-79 | After a re-run without reset the with-items final state is SUCCESS |
| TaskHandler.FailedItemIsRerun | mistral/engine/task_handler.py:72-79 | After a re-run without reset, an item whose accepted execution failed is a re-run index |
| TaskHandler.FullResetAcceptsNothing | mistral/engine/task_handler.py:69-79 | After a re-run with reset no execution is accepted |
| TaskHandler.ItemInput | mistral/engine/task_handler.py:304-311 | Item i's input maps every key (distinct keys) to the i-th element of its list, and has no other key |
| TaskHandler.Transposed | mistral/engine/task_handler.py:302-311 | n equal-length lists become n inputs; input i maps each key to the i-th element of its list |
| TaskHandler.InputsPerItem | mistral/engine/task_handler.py:302-311 | The nested loops build exactly the transposed inputs |
| TaskHandler.ActionInputs | mistral/engine/task_handler.py:313-320 | One evaluated input per item, in item order |
| TaskHandler.SelectInputs | mistral/engine/task_handler.py:327-336 | IndexError iff some index is past the end; otherwise the pairs `(i, inputs[i])` in index order, empty for no indices |
| TaskHandler.GetWithItemsInput | mistral/engine/task_handler.py:296-336 | Invalid input gives InputException and leaves the context; otherwise the context is prepared and then decreased by the number of indices `GetIndicesForLoop` picks, and the result is IndexError iff one of them is past the items, else the pairs of each picked index with its item's evaluated input, in order; never fails for a valid task without a context whose executions all ran existing items |
| TaskHandler.OverrunRaisesIndexError | mistral/engine/task_handler.py:324-334 | Two items, capacity 3, no executions: the indices as written make the lookup raise IndexError; the bounded indices select both items |
| TaskHandler.SplitWorkflowParams | mistral/engine/task_handler.py:461-472 | Params hold the task execution id, item index, parent `env` iff present, and every undeclared input key, moved with its value; declared keys stay |
| TaskHandler.CompleteTask | mistral/engine/task_handler.py:493-498 | An already completed task is unchanged; otherwise it takes the given state |
| TaskHandler.IsTaskCompleted | mistral/engine/task_handler.py:520-524 | Without with-items, completed iff the state is SUCCESS or ERROR; a completed with-items task has executions |
| TaskHandler.NeedToContinue | mistral/engine/task_handler.py:527-533 | Only a with-items task with a non-zero item count continues, and one with a truthy concurrency and fewer executions than items does |
| TaskHandler.ContinuingTaskIsNotCompleted | mistral/engine/task_handler.py:520-533 | A task that needs to continue is not completed; a task without with-items never continues |
| WorkflowController.PartsAppend | mistral/api/controllers/v2/workflow.py:76-82 | Parameter texts of two parameter lists concatenate, in declared order |
| WorkflowController.JoinAppend | mistral/api/controllers/v2/workflow.py:84 | Joining two non-empty lists is joining each, with the separator between |
| WorkflowController.NoInputRendersEmpty | mistral/api/controllers/v2/workflow.py:76-84 | No parameters render as the empty string |
| WorkflowController.SingleParamRenders | mistral/api/controllers/v2/workflow.py:77-82 | A bare parameter renders as itself, a parameter with a default as `k=v` |
| WorkflowController.SignatureAppend | mistral/api/controllers/v2/workflow.py:77-84 | A parameter added at the end appears after `", "` |
| WorkflowController.AppendParam | mistral/api/controllers/v2/workflow.py:77-82 | The inner loop appends exactly the texts of one parameter |
| WorkflowController.RenderInput | mistral/api/controllers/v2/workflow.py:74-84 | The loops produce the input signature |
| WorkflowController.Workflow.FromDict | mistral/api/controllers/v2/workflow.py:67-86 | Only resource attributes are copied, with their values; with a spec, `input` is its input signature (empty when the spec has no input) |
| EnvironmentController.ValidateEnvironment | mistral/api/controllers/v2/environment.py:144-153 | No body passes; a body passes iff all its keys are legal; otherwise InputException |
| EnvironmentController.ValidatePost | mistral/api/controllers/v2/environment.py:100-107 | A create body passes iff its keys are among `name`, `description`, `variables` |
| EnvironmentController.ValidatePut | mistral/api/controllers/v2/environment.py:113-130 | An update passes iff the name is non-empty and the other keys are among `description`, `variables`, `scope` |
| EnvironmentController.PutAcceptsNameKey | mistral/api/controllers/v2/environment.py:124-130 | A named update body is not rejected for its `name` key, which the update keys alone reject |
| EnvironmentController.PostRejectsScope | mistral/api/controllers/v2/environment.py:104-107 | A create body with `scope` raises InputException |

## Left out

- The persistence, RPC, policies and delayed-call scheduler the task handler calls are not
  part of this model. Neither is the expression evaluator; the evaluated with-items map and
  the evaluation of one item's input are parameters. Left out for that reason:
  - `run_new_task`, `defer_task` and `_create_task_execution`;
  - `on_action_complete`;
  - `_run_existing_task` and `_get_input_dictionaries` for tasks without with-items;
  - the action and sub-workflow scheduling, and `run_workflow`.
- The task-spec resolution of `run_existing_task` is left out: whether the task has
  with-items is a parameter.
- `_get_context` and `get_count` are plain reads of the with-items context and its count,
  and `get_concurrency` a plain read of the runtime context's `concurrency`; all appear as
  field accesses.
- Two database queries are modelled as filters over the task's executions: the query of
  accepted executions in `is_completed`, and the query of accepted ERROR executions that
  `run_existing_task` resets (`ResetExecutions` and `RunExistingTask`).
- The base spec class, the task and task-default spec lists and `utils.get_input_dict` are
  not part of this model. The workflow's input is kept as its declared list, and the task
  list is a sequence with distinct names.
- The JSON-schema check of the base `validate_schema` and the YAQL expression checks are left
  out. So are variable publishing and the `destroy_task_result` call for a task that does
  not keep its result, both on task completion.
- Python 2 dict iteration order is unspecified; dicts that are iterated are given as
  sequences in some order.
- Workflows.NewWorkflowSpec: builds the typed task list as a new value instead of setting
  `type` in the caller's dict in place.
- WithItems.DecreaseCapacity: requires the with-items context to exist (the code raises
  KeyError otherwise, which is not modelled); the same holds for
  WithItems.IncreaseCapacity, TaskHandler.IsTaskCompleted and TaskHandler.NeedToContinue.
- TaskHandler.GetWithItemsInput: it picks its indices with the bounded `GetIndicesForLoop`
  described under Findings, not the choice as written. `decrease_capacity` can raise
  WorkflowException in general; here it is proved never to, because the capacity always
  covers the indices just picked. The promise that no IndexError is raised only covers a
  task whose with-items context does not exist yet.
- TaskHandler.RunExistingTask: ends where the inputs are computed and the actions
  scheduled.
- WorkflowController.Workflow.FromDict: copies only the attributes the resource declares.
  Names inherited from the resource base class, which is not part of this model, are not
  copied. Parameter defaults are taken as the strings `%s` formats them to.
- The REST plumbing of the controllers (exposure, pagination, the database calls of `post`
  and `put`) is left out. The name `put` checks is the body's `name` entry, which is what the
  parsed resource carries.

## Findings

| source | as written | input that shows it | evidently intended | confidence | as-written member | corrected member |
|---|---|---|---|---|---|---|
| mistral/workflow/with_items.py:104-108 | Without re-runs, the number of new indices is the whole capacity whenever the capacity is truthy, however few items remain. | Two items, concurrency 3, no executions yet: the indices are `[0, 1, 2]`. The input lookup at mistral/engine/task_handler.py:328 then raises IndexError on index 2. | The number of new indices is at most the items left, `count - index`, so that every index names an item. | medium, not executed | TaskHandler.OverrunRaisesIndexError | WithItems.GetIndicesForLoop |
