/** The workflow specification model and the direct-workflow transition graph
    (mistral/workbook/v2/workflows.py). */
module Workflows {
  import opened Wrappers
  import opened Exceptions
  import opened Values
  import opened Seqs

  /** The closed set of workflow variants; the tag also selects the task-spec variant. */
  datatype WorkflowType = Direct | Reverse

  /** A transition: the target task name (or a sentinel such as `succeed` or `fail`) and an
      optional guard expression. */
  type Transition = (string, Option<string>)

  datatype ClauseKind = OnError | OnSuccess | OnComplete

  /** The three transition clauses of a task or of the workflow's `task-defaults`. */
  datatype Clauses = Clauses(onError: seq<Transition>, onSuccess: seq<Transition>, onComplete: seq<Transition>)
  {
    function Get(kind: ClauseKind): seq<Transition> {
      match kind
      case OnError => onError
      case OnSuccess => onSuccess
      case OnComplete => onComplete
    }
  }

  /** A declared workflow input parameter: a bare name, or a mapping from names to defaults
      (each default as the text Python's `%s` formatting renders for it). */
  datatype InputParam = Bare(name: string) | Mapping(entries: seq<(string, string)>)

  /** A task of a parsed workflow; `kind` is the variant its spec was instantiated as. */
  datatype TaskSpec = TaskSpec(name: string, kind: WorkflowType, transitions: Clauses)

  /** The workflow-level `task-defaults` section. */
  datatype TaskDefaults = TaskDefaults(transitions: Clauses)

  /** A parsed workflow. `tasks` keeps the order of the task list. */
  datatype WorkflowSpec = WorkflowSpec(
    name: string,
    description: Option<string>,
    tags: seq<string>,
    kind: WorkflowType,
    input: seq<InputParam>,
    output: map<string, Value>,
    vars: map<string, Value>,
    taskDefaults: Option<TaskDefaults>,
    tasks: seq<TaskSpec>)

  /** A task as it appears in the raw definition; `kind` is its `type` key. */
  datatype RawTask = RawTask(name: string, kind: Option<WorkflowType>, transitions: Clauses)

  /** The raw definition map; `None` marks an absent key. */
  datatype RawWorkflow = RawWorkflow(
    name: string,
    description: Option<string>,
    tags: Option<seq<string>>,
    kind: Option<WorkflowType>,
    input: Option<seq<InputParam>>,
    output: Option<map<string, Value>>,
    vars: Option<map<string, Value>>,
    taskDefaults: Option<TaskDefaults>,
    tasks: Option<seq<RawTask>>)

  // ---------------------------------------------------------------------------
  // Construction and schema validation

  /** The raw task list comes from a map, so task names are distinct. */
  predicate DistinctRawNames(tasks: seq<RawTask>) {
    forall i, j :: 0 <= i < j < |tasks| ==> tasks[i].name != tasks[j].name
  }

  predicate DistinctNames(tasks: seq<TaskSpec>) {
    forall i, j :: 0 <= i < j < |tasks| ==> tasks[i].name != tasks[j].name
  }

  /** `validate_schema`'s own check: a workflow without tasks is an invalid model. */
  function ValidateSchema(data: RawWorkflow): (o: Outcome<Exception>)
    ensures o.Fail? <==> data.tasks.None? || data.tasks.value == []
    ensures o.Fail? ==> o.error == InvalidModelException
  {
    if data.tasks.None? || data.tasks.value == [] then Fail(InvalidModelException) else Pass
  }

  /** Instantiates the task spec of a raw task whose `type` has been set. */
  function TaskSpecOf(raw: RawTask): TaskSpec
    requires raw.kind.Some?
  {
    TaskSpec(raw.name, raw.kind.value, raw.transitions)
  }

  /** The spec a definition with tasks parses to: every absent field at its default, and
      every task instantiated with the workflow's type. */
  function SpecOf(data: RawWorkflow): (spec: WorkflowSpec)
    requires data.tasks.Some?
    ensures |spec.tasks| == |data.tasks.value|
    ensures forall i :: 0 <= i < |spec.tasks| ==> spec.tasks[i].kind == spec.kind
    ensures DistinctRawNames(data.tasks.value) ==> DistinctNames(spec.tasks)
  {
    var kind := if data.kind.Some? then data.kind.value else Direct;
    var raw := data.tasks.value;
    WorkflowSpec(
      data.name,
      data.description,
      if data.tags.Some? then data.tags.value else [],
      kind,
      if data.input.Some? then data.input.value else [],
      if data.output.Some? then data.output.value else map[],
      if data.vars.Some? then data.vars.value else map[],
      data.taskDefaults,
      seq(|raw|, i requires 0 <= i < |raw| => TaskSpec(raw[i].name, kind, raw[i].transitions)))
  }

  /** `WorkflowSpec.__init__`: reads the fields with their defaults, sets every task's `type`
      to the workflow's type, then builds the task specs. */
  method NewWorkflowSpec(data: RawWorkflow) returns (spec: WorkflowSpec)
    requires data.tasks.Some?
    requires DistinctRawNames(data.tasks.value)
    ensures spec == SpecOf(data)
    ensures spec.name == data.name && spec.description == data.description
    ensures spec.tags == (if data.tags.Some? then data.tags.value else [])
    ensures spec.kind == (if data.kind.Some? then data.kind.value else Direct)
    ensures spec.input == (if data.input.Some? then data.input.value else [])
    ensures spec.output == (if data.output.Some? then data.output.value else map[])
    ensures spec.vars == (if data.vars.Some? then data.vars.value else map[])
    ensures spec.taskDefaults == data.taskDefaults
    ensures |spec.tasks| == |data.tasks.value|
    ensures forall i :: 0 <= i < |spec.tasks| ==>
      spec.tasks[i].name == data.tasks.value[i].name &&
      spec.tasks[i].kind == spec.kind &&
      spec.tasks[i].transitions == data.tasks.value[i].transitions
    ensures DistinctNames(spec.tasks)
  {
    var kind := if data.kind.Some? then data.kind.value else Direct;
    var raw := data.tasks.value;
    var injected: seq<RawTask> := [];
    for i := 0 to |raw|
      invariant |injected| == i
      invariant forall j :: 0 <= j < i ==> injected[j] == raw[j].(kind := Some(kind))
    {
      injected := injected + [raw[i].(kind := Some(kind))];
    }
    var tasks := seq(|injected|, i requires 0 <= i < |injected| => TaskSpecOf(injected[i]));
    assert tasks == SpecOf(data).tasks;
    spec := WorkflowSpec(
      data.name,
      data.description,
      if data.tags.Some? then data.tags.value else [],
      kind,
      if data.input.Some? then data.input.value else [],
      if data.output.Some? then data.output.value else map[],
      if data.vars.Some? then data.vars.value else map[],
      data.taskDefaults,
      tasks);
  }

  // ---------------------------------------------------------------------------
  // Task lookup and effective clauses

  predicate HasTask(wf: WorkflowSpec, name: string) {
    exists i :: 0 <= i < |wf.tasks| && wf.tasks[i].name == name
  }

  /** `get_tasks()[name]`: the task of that name. */
  function TaskNamed(tasks: seq<TaskSpec>, name: string): (t: TaskSpec)
    requires exists i :: 0 <= i < |tasks| && tasks[i].name == name
    ensures t in tasks && t.name == name
  {
    if tasks[0].name == name then tasks[0] else TaskNamed(tasks[1..], name)
  }

  lemma {:induction false} TaskNamedIsUnique(tasks: seq<TaskSpec>, i: nat)
    requires DistinctNames(tasks) && i < |tasks|
    ensures TaskNamed(tasks, tasks[i].name) == tasks[i]
  {
    if i > 0 {
      assert tasks[0].name != tasks[i].name;
      TaskNamedIsUnique(tasks[1..], i - 1);
    }
  }

  /** The number of transitions of `clause` that target `name`. */
  function TargetCount(clause: seq<Transition>, name: string): nat
  {
    if clause == [] then 0 else (if clause[0].0 == name then 1 else 0) + TargetCount(clause[1..], name)
  }

  /** `_remove_task_from_clause`: the clause without the transitions that target `name`. */
  function RemoveTaskFromClause(clause: seq<Transition>, name: string): (r: seq<Transition>)
    ensures forall tr :: tr in r <==> tr in clause && tr.0 != name
    ensures IsSubsequence(r, clause)
    ensures |r| + TargetCount(clause, name) == |clause|
  {
    if clause == [] then []
    else if clause[0].0 != name then [clause[0]] + RemoveTaskFromClause(clause[1..], name)
    else RemoveTaskFromClause(clause[1..], name)
  }

  /** `get_on_error_clause`, `get_on_success_clause` and `get_on_complete_clause`: the task's own
      clause when non-empty, else the defaults' clause without self-targeting transitions. */
  function EffectiveClause(wf: WorkflowSpec, name: string, kind: ClauseKind): (r: seq<Transition>)
    requires HasTask(wf, name)
    ensures var own := TaskNamed(wf.tasks, name).transitions.Get(kind);
      (own != [] ==> r == own) &&
      (own == [] && wf.taskDefaults.None? ==> r == []) &&
      (own == [] && wf.taskDefaults.Some? ==>
        var dflt := wf.taskDefaults.value.transitions.Get(kind);
        (forall tr :: tr in r <==> tr in dflt && tr.0 != name) &&
        IsSubsequence(r, dflt) &&
        |r| + TargetCount(dflt, name) == |dflt|)
  {
    var own := TaskNamed(wf.tasks, name).transitions.Get(kind);
    if own == [] && wf.taskDefaults.Some? then
      RemoveTaskFromClause(wf.taskDefaults.value.transitions.Get(kind), name)
    else
      own
  }

  /** The targets named in a clause. */
  function Targets(clause: seq<Transition>): set<string> {
    set tr | tr in clause :: tr.0
  }

  /** `transition_exists`: `to` is the target of some transition of `from`'s three effective
      clauses, whatever its guard. */
  function TransitionExists(wf: WorkflowSpec, from: string, to: string): (b: bool)
    requires HasTask(wf, from)
    ensures b <==> exists kind: ClauseKind, tr :: tr in EffectiveClause(wf, from, kind) && tr.0 == to
  {
    var names := Targets(EffectiveClause(wf, from, OnError))
      + Targets(EffectiveClause(wf, from, OnSuccess))
      + Targets(EffectiveClause(wf, from, OnComplete));
    to in names
  }

  // ---------------------------------------------------------------------------
  // Graph queries of direct workflows

  /** `find_inbound_task_specs`: the tasks, in declaration order, with a transition to `t`. */
  function FindInboundTaskSpecs(wf: WorkflowSpec, t: TaskSpec): (r: seq<TaskSpec>)
    ensures forall s :: s in r <==> s in wf.tasks && TransitionExists(wf, s.name, t.name)
    ensures IsSubsequence(r, wf.tasks)
    ensures |r| == CountWhere(wf.tasks, (s: TaskSpec) => HasTask(wf, s.name) && TransitionExists(wf, s.name, t.name))
  {
    Filter(wf.tasks, (s: TaskSpec) => HasTask(wf, s.name) && TransitionExists(wf, s.name, t.name))
  }

  /** `find_outbound_task_specs`: the tasks, in declaration order, that `t` has a transition to. */
  function FindOutboundTaskSpecs(wf: WorkflowSpec, t: TaskSpec): (r: seq<TaskSpec>)
    requires HasTask(wf, t.name)
    ensures forall s :: s in r <==> s in wf.tasks && TransitionExists(wf, t.name, s.name)
    ensures IsSubsequence(r, wf.tasks)
    ensures |r| == CountWhere(wf.tasks, (s: TaskSpec) => TransitionExists(wf, t.name, s.name))
  {
    Filter(wf.tasks, (s: TaskSpec) => TransitionExists(wf, t.name, s.name))
  }

  function HasInboundTransitions(wf: WorkflowSpec, t: TaskSpec): (b: bool)
    ensures b <==> exists s :: s in wf.tasks && TransitionExists(wf, s.name, t.name)
  {
    var r := FindInboundTaskSpecs(wf, t);
    assert r != [] ==> r[0] in r;
    |r| > 0
  }

  function HasOutboundTransitions(wf: WorkflowSpec, t: TaskSpec): (b: bool)
    requires HasTask(wf, t.name)
    ensures b <==> exists s :: s in wf.tasks && TransitionExists(wf, t.name, s.name)
  {
    var r := FindOutboundTaskSpecs(wf, t);
    assert r != [] ==> r[0] in r;
    |r| > 0
  }

  /** `find_start_tasks`: the tasks, in declaration order, that have no inbound transition. */
  function FindStartTasks(wf: WorkflowSpec): (r: seq<TaskSpec>)
    ensures forall t :: t in r <==>
      t in wf.tasks && forall s :: s in wf.tasks ==> !TransitionExists(wf, s.name, t.name)
    ensures IsSubsequence(r, wf.tasks)
    ensures |r| == CountWhere(wf.tasks, (t: TaskSpec) => !HasInboundTransitions(wf, t))
  {
    Filter(wf.tasks, (t: TaskSpec) => !HasInboundTransitions(wf, t))
  }

  /** `validate_semantics`: a direct workflow needs a start task; the base (and reverse)
      variant checks nothing. */
  function ValidateSemantics(wf: WorkflowSpec): (o: Outcome<Exception>)
    ensures o.Fail? <==> wf.kind == Direct && FindStartTasks(wf) == []
    ensures o.Fail? ==> o.error == DSLParsingException
  {
    if wf.kind == Direct && FindStartTasks(wf) == [] then Fail(DSLParsingException) else Pass
  }

  /** Parsing a definition: schema check, construction, then the variant's semantic check. */
  method Parse(data: RawWorkflow) returns (r: Result<WorkflowSpec, Exception>)
    requires data.tasks.Some? ==> DistinctRawNames(data.tasks.value)
    ensures r == Failure(InvalidModelException) <==> data.tasks.None? || data.tasks.value == []
    ensures data.tasks.Some? && data.tasks.value != [] ==>
      r == (if ValidateSemantics(SpecOf(data)) == Pass then Success(SpecOf(data)) else Failure(DSLParsingException))
    ensures r.Failure? ==> r.error == InvalidModelException || r.error == DSLParsingException
    ensures r.Failure? && r.error == DSLParsingException ==>
      data.tasks.Some? && data.tasks.value != [] && (data.kind.None? || data.kind.value == Direct)
    ensures r.Success? ==>
      r.value.name == data.name && |r.value.tasks| == |data.tasks.value| > 0 &&
      DistinctNames(r.value.tasks) && ValidateSemantics(r.value) == Pass
  {
    var schema := ValidateSchema(data);
    if schema.Fail? {
      return Failure(schema.error);
    }
    var spec := NewWorkflowSpec(data);
    var semantics := ValidateSemantics(spec);
    if semantics.Fail? {
      return Failure(semantics.error);
    }
    r := Success(spec);
  }

  // ---------------------------------------------------------------------------
  // Properties of the graph

  /** A task's own clause is used as it is, self-transitions included. */
  lemma OwnClauseIsEffective(wf: WorkflowSpec, i: nat, kind: ClauseKind)
    requires DistinctNames(wf.tasks) && i < |wf.tasks|
    requires wf.tasks[i].transitions.Get(kind) != []
    ensures EffectiveClause(wf, wf.tasks[i].name, kind) == wf.tasks[i].transitions.Get(kind)
  {
    TaskNamedIsUnique(wf.tasks, i);
  }

  /** An inherited default never makes a task its own target, and keeps every other default
      transition, in order. */
  lemma InheritedDefaultsDropSelf(wf: WorkflowSpec, i: nat, kind: ClauseKind)
    requires DistinctNames(wf.tasks) && i < |wf.tasks|
    requires wf.tasks[i].transitions.Get(kind) == [] && wf.taskDefaults.Some?
    ensures var r := EffectiveClause(wf, wf.tasks[i].name, kind);
      var dflt := wf.taskDefaults.value.transitions.Get(kind);
      (forall tr :: tr in r ==> tr.0 != wf.tasks[i].name) &&
      (forall tr :: tr in dflt && tr.0 != wf.tasks[i].name ==> tr in r) &&
      IsSubsequence(r, dflt) &&
      |r| == |dflt| - TargetCount(dflt, wf.tasks[i].name)
  {
    TaskNamedIsUnique(wf.tasks, i);
  }

  /** A self-transition in a task's own clause makes the task its own inbound source, so it
      is not a start task. */
  lemma {:induction false} OwnSelfTransitionIsInbound(wf: WorkflowSpec, i: nat, kind: ClauseKind, guard: Option<string>)
    requires DistinctNames(wf.tasks) && i < |wf.tasks|
    requires (wf.tasks[i].name, guard) in wf.tasks[i].transitions.Get(kind)
    ensures TransitionExists(wf, wf.tasks[i].name, wf.tasks[i].name)
    ensures wf.tasks[i] in FindInboundTaskSpecs(wf, wf.tasks[i])
    ensures wf.tasks[i] !in FindStartTasks(wf)
  {
    var t := wf.tasks[i];
    OwnClauseIsEffective(wf, i, kind);
    assert (t.name, guard) in EffectiveClause(wf, t.name, kind);
  }

  /** With no own clause of a kind and no defaults, the effective clause is empty (not an error). */
  lemma NoClauseNoDefaultsIsEmpty(wf: WorkflowSpec, i: nat, kind: ClauseKind)
    requires DistinctNames(wf.tasks) && i < |wf.tasks|
    requires wf.tasks[i].transitions.Get(kind) == [] && wf.taskDefaults.None?
    ensures EffectiveClause(wf, wf.tasks[i].name, kind) == []
  {
    TaskNamedIsUnique(wf.tasks, i);
  }

  /** A direct workflow fails semantic validation exactly when every task has an inbound
      transition from some task (for instance a cycle with no entry point); a reverse
      workflow always passes. */
  lemma {:induction false} SemanticsFailIffNoEntry(wf: WorkflowSpec)
    ensures ValidateSemantics(wf).Fail? <==>
      wf.kind == Direct &&
      forall t :: t in wf.tasks ==> exists s :: s in wf.tasks && TransitionExists(wf, s.name, t.name)
  {
    var starts := FindStartTasks(wf);
    if starts != [] {
      assert starts[0] in starts;
    }
  }

  /** Every start task has no inbound task specs, and a direct workflow that passes semantic
      validation has at least one start task. */
  lemma {:induction false} StartTasksHaveNoInbound(wf: WorkflowSpec)
    ensures forall t :: t in FindStartTasks(wf) ==> FindInboundTaskSpecs(wf, t) == []
    ensures wf.kind == Direct && ValidateSemantics(wf) == Pass ==> |FindStartTasks(wf)| >= 1
  {
    forall t | t in FindStartTasks(wf)
      ensures FindInboundTaskSpecs(wf, t) == []
    {
      assert !HasInboundTransitions(wf, t);
    }
  }

  /** A workflow whose single task has no transition to itself is its own start task, so it
      passes semantic validation whatever its type and task defaults. */
  lemma {:induction false} SingleTaskIsValid(data: RawWorkflow, t: RawTask)
    requires data.tasks == Some([t])
    requires forall kind: ClauseKind :: t.name !in Targets(t.transitions.Get(kind))
    ensures FindStartTasks(SpecOf(data)) == SpecOf(data).tasks
    ensures ValidateSemantics(SpecOf(data)) == Pass
  {
    var wf := SpecOf(data);
    var s := wf.tasks[0];
    TaskNamedIsUnique(wf.tasks, 0);
    forall kind: ClauseKind, tr | tr in EffectiveClause(wf, s.name, kind)
      ensures tr.0 != s.name
    {
      var own := t.transitions.Get(kind);
      if own != [] {
        assert tr.0 in Targets(own);
      }
    }
    assert !TransitionExists(wf, s.name, s.name);
    assert s in FindStartTasks(wf);
    var starts := FindStartTasks(wf);
    assert starts == [s] by {
      assert starts[0] in starts;
    }
  }

  /** A target that names no task (a sentinel such as `fail`) has a transition, but never
      appears among the outbound task specs. */
  lemma SentinelIsNotOutboundTask(wf: WorkflowSpec, from: TaskSpec, target: string)
    requires HasTask(wf, from.name)
    requires forall s :: s in wf.tasks ==> s.name != target
    ensures forall s :: s in FindOutboundTaskSpecs(wf, from) ==> s.name != target
  {
  }
}
