/** The key checks of the environment REST API (mistral/api/controllers/v2/environment.py)
    on the JSON body of a create (POST) or update (PUT) request. */
module EnvironmentController {
  import opened Wrappers
  import opened Exceptions
  import opened Values

  /** The keys a create request may carry. */
  const PostKeys: seq<string> := ["name", "description", "variables"]

  /** The keys an update request may carry once its name is removed. */
  const PutKeys: seq<string> := ["description", "variables", "scope"]

  /** `_validate_environment`: no body passes, and a body passes exactly when each of its
      keys is legal. */
  function ValidateEnvironment(envDict: Option<map<string, Value>>, legalKeys: seq<string>): (o: Outcome<Exception>)
    ensures envDict.None? ==> o == Pass
    ensures envDict.Some? ==> (o.Pass? <==> forall k :: k in envDict.value ==> k in legalKeys)
    ensures o.Fail? ==> o.error == InputException
  {
    if envDict.None? then Pass
    else
      var illegal := envDict.value.Keys - (set k | k in legalKeys);
      if illegal != {} then Fail(InputException)
      else
        assert forall k :: k in envDict.value ==> k !in illegal;
        Pass
  }

  /** The check `post` makes on its body. */
  function ValidatePost(body: Option<map<string, Value>>): (o: Outcome<Exception>)
    ensures o.Pass? <==> body.None? || body.value.Keys <= {"name", "description", "variables"}
    ensures o.Fail? ==> o.error == InputException
  {
    ValidateEnvironment(body, PostKeys)
  }

  /** The body names the environment with a non-empty string. */
  predicate HasName(definition: map<string, Value>) {
    "name" in definition && definition["name"].Str? && definition["name"].s != ""
  }

  /** The checks `put` makes on its body: the environment must be named, and the body
      without its name may only carry the update keys. */
  function ValidatePut(definition: map<string, Value>): (o: Outcome<Exception>)
    ensures o.Pass? <==> HasName(definition) && definition.Keys - {"name"} <= {"description", "variables", "scope"}
    ensures o.Fail? ==> o.error == InputException
  {
    if !HasName(definition) then Fail(InputException)
    else ValidateEnvironment(Some(definition - {"name"}), PutKeys)
  }

  /** An update body that names its environment is not rejected for its `name` key, which
      the update keys alone would reject. */
  lemma PutAcceptsNameKey(definition: map<string, Value>)
    requires HasName(definition)
    requires definition.Keys <= {"name", "description", "variables", "scope"}
    ensures ValidatePut(definition).Pass?
    ensures ValidateEnvironment(Some(definition), PutKeys).Fail?
  {
    assert "name" !in PutKeys;
  }

  /** A create body may name its environment but not scope it. */
  lemma PostRejectsScope(body: map<string, Value>)
    requires "scope" in body
    ensures ValidatePost(Some(body)) == Fail(InputException)
  {
  }
}
