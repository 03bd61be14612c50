/** The workflow resource of the REST API (mistral/api/controllers/v2/workflow.py): building
    it from a stored workflow dict, and rendering the declared input parameters as one
    signature string. */
module WorkflowController {
  import opened Wrappers
  import opened Values
  import Workflows

  /** The attributes declared on the workflow resource. */
  const Attributes: set<string> := {"id", "name", "input", "definition", "tags", "scope", "created_at", "updated_at"}

  /** The parsed `spec` entry of a workflow dict; only its input list is read. */
  datatype SpecDict = SpecDict(input: Option<seq<Workflows.InputParam>>)

  /** A workflow dict: its entries, and its `spec` entry when there is one. */
  datatype WorkflowDict = WorkflowDict(entries: map<string, Value>, spec: Option<SpecDict>)

  /** The parameters a spec declares; an absent input declares none. */
  function DeclaredInput(spec: SpecDict): seq<Workflows.InputParam> {
    if spec.input.Some? then spec.input.value else []
  }

  /** The text of one parameter: a bare name as itself, a parameter with a default as
      `name=default`. */
  function ParamParts(p: Workflows.InputParam): seq<string> {
    match p
    case Bare(name) => [name]
    case Mapping(entries) => seq(|entries|, i requires 0 <= i < |entries| => entries[i].0 + "=" + entries[i].1)
  }

  /** The texts of all parameters in declared order. */
  function Parts(params: seq<Workflows.InputParam>): seq<string> {
    if params == [] then [] else ParamParts(params[0]) + Parts(params[1..])
  }

  /** Python's `sep.join(parts)`. */
  function Join(parts: seq<string>, sep: string): string {
    if parts == [] then ""
    else if |parts| == 1 then parts[0]
    else parts[0] + sep + Join(parts[1..], sep)
  }

  /** The input signature of a workflow, such as `a, b, c=1`. */
  function InputSignature(params: seq<Workflows.InputParam>): string {
    Join(Parts(params), ", ")
  }

  lemma {:induction false} PartsAppend(ps: seq<Workflows.InputParam>, qs: seq<Workflows.InputParam>)
    ensures Parts(ps + qs) == Parts(ps) + Parts(qs)
  {
    if ps == [] {
      assert ps + qs == qs;
    } else {
      assert (ps + qs)[1..] == ps[1..] + qs;
      PartsAppend(ps[1..], qs);
    }
  }

  lemma {:induction false} JoinAppend(a: seq<string>, b: seq<string>, sep: string)
    requires a != [] && b != []
    ensures Join(a + b, sep) == Join(a, sep) + sep + Join(b, sep)
  {
    if |a| == 1 {
      assert (a + b)[1..] == b;
    } else {
      assert (a + b)[1..] == a[1..] + b;
      JoinAppend(a[1..], b, sep);
    }
  }

  /** A spec without parameters has the empty signature. */
  lemma NoInputRendersEmpty()
    ensures InputSignature([]) == ""
  {
  }

  /** A bare parameter renders as its name, a parameter with one default as `name=value`. */
  lemma SingleParamRenders(name: string, value: string)
    ensures InputSignature([Workflows.Bare(name)]) == name
    ensures InputSignature([Workflows.Mapping([(name, value)])]) == name + "=" + value
  {
    assert Parts([Workflows.Bare(name)]) == [name];
    assert Parts([Workflows.Mapping([(name, value)])]) == [name + "=" + value];
  }

  /** Adding a parameter at the end appends its text after a `", "`. */
  lemma {:induction false} SignatureAppend(ps: seq<Workflows.InputParam>, name: string)
    requires Parts(ps) != []
    ensures InputSignature(ps + [Workflows.Bare(name)]) == InputSignature(ps) + ", " + name
  {
    PartsAppend(ps, [Workflows.Bare(name)]);
    assert Parts([Workflows.Bare(name)]) == [name];
    JoinAppend(Parts(ps), [name], ", ");
  }

  /** The inner loop of `from_dict`: appends the texts of one parameter. */
  method AppendParam(inputList: seq<string>, param: Workflows.InputParam) returns (r: seq<string>)
    ensures r == inputList + ParamParts(param)
  {
    r := inputList;
    match param {
      case Mapping(entries) =>
        var parts := ParamParts(param);
        var j := 0;
        while j < |entries|
          invariant 0 <= j <= |entries|
          invariant r == inputList + parts[..j]
        {
          assert parts[..j + 1] == parts[..j] + [entries[j].0 + "=" + entries[j].1];
          r := r + [entries[j].0 + "=" + entries[j].1];
          j := j + 1;
        }
        assert parts[..j] == parts;
      case Bare(name) =>
        r := r + [name];
    }
  }

  /** The loops of `from_dict` that collect the parameter texts, and their join. */
  method RenderInput(params: seq<Workflows.InputParam>) returns (s: string)
    ensures s == InputSignature(params)
  {
    var inputList: seq<string> := [];
    var i := 0;
    while i < |params|
      invariant 0 <= i <= |params|
      invariant inputList == Parts(params[..i])
    {
      assert params[..i + 1] == params[..i] + [params[i]];
      PartsAppend(params[..i], [params[i]]);
      assert Parts([params[i]]) == ParamParts(params[i]);
      inputList := AppendParam(inputList, params[i]);
      i := i + 1;
    }
    assert params[..i] == params;
    s := if inputList != [] then Join(inputList, ", ") else "";
  }

  /** The workflow resource; `fields` holds the attributes that have been set. */
  class Workflow {
    var fields: map<string, Value>

    constructor ()
      ensures fields == map[]
    {
      fields := map[];
    }

    /** `from_dict`: copies the entries named like a resource attribute, drops the rest,
        and when the dict has a spec sets `input` to the spec's input signature. */
    static method FromDict(d: WorkflowDict) returns (e: Workflow)
      ensures fresh(e)
      ensures e.fields.Keys == (d.entries.Keys * Attributes) + (if d.spec.Some? then {"input"} else {})
      ensures forall k :: k in d.entries && k in Attributes && !(k == "input" && d.spec.Some?) ==>
                e.fields[k] == d.entries[k]
      ensures d.spec.Some? ==> e.fields["input"] == Str(InputSignature(DeclaredInput(d.spec.value)))
    {
      e := new Workflow();
      var todo := d.entries.Keys;
      while todo != {}
        invariant todo <= d.entries.Keys
        invariant e.fields.Keys == (d.entries.Keys - todo) * Attributes
        invariant forall k :: k in e.fields ==> e.fields[k] == d.entries[k]
        decreases todo
      {
        var key :| key in todo;
        if key in Attributes {
          e.fields := e.fields[key := d.entries[key]];
        }
        todo := todo - {key};
      }
      if d.spec.Some? {
        var signature := RenderInput(DeclaredInput(d.spec.value));
        e.fields := e.fields["input" := Str(signature)];
      }
    }
  }
}
