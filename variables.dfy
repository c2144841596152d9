/**
 * `VariableService`: the registry of custom variables, keyed by lower-cased
 * id, and `processText`, which replaces `#id` references by the variables'
 * values.
 */
module Variables {
  import opened Wrappers
  import opened JsString
  import opened Registry
  import opened Substitution

  /** A registered variable; `outcome` is how its `getValue()` settles. */
  datatype VariableHandler = VariableHandler(id: string, name: string, description: string, outcome: Outcome)

  class VariableService {
    /** The keys of the `variables` map, in the order the map iterates them. */
    var ids: seq<string>
    var variables: map<string, VariableHandler>

    /** One key per distinct lower-cased id, each holding a handler whose id lower-cases to it. */
    ghost predicate Valid()
      reads this
    {
      && Ordered(ids, variables)
      && (forall key :: key in variables ==> LowerCase(variables[key].id) == key)
    }

    constructor()
      ensures Valid()
      ensures ids == [] && variables == map[]
    {
      ids := [];
      variables := map[];
    }

    /**
     * `registerVariable`: the handler is stored under its lower-cased id,
     * replacing any handler registered under an id that differs only in
     * case; every other entry and the key order stay as they were.
     */
    method RegisterVariable(variable: VariableHandler)
      requires Valid()
      modifies this
      ensures Valid()
      ensures variables == old(variables)[LowerCase(variable.id) := variable]
      ensures ids == KeysAfterSet(old(ids), old(variables), LowerCase(variable.id))
      ensures HasVariable(variable.id) && GetVariable(variable.id) == Some(variable)
      ensures forall id :: LowerCase(id) != LowerCase(variable.id) ==> GetVariable(id) == old(GetVariable(id))
    {
      var key := LowerCase(variable.id);
      LowerCaseIdempotent(variable.id);
      SetKeepsOrdered(ids, variables, key, variable);
      ids := KeysAfterSet(ids, variables, key);
      variables := variables[key := variable];
    }

    /** `hasVariable`: whether an id, in any case, is registered. */
    function HasVariable(id: string): (r: bool)
      reads this
      ensures r <==> GetVariable(id).Some?
    {
      LowerCase(id) in variables
    }

    /** `getVariable`: the handler registered under the id, in any case. */
    function GetVariable(id: string): (r: Option<VariableHandler>)
      reads this
      ensures r.Some? <==> LowerCase(id) in variables
      ensures r.Some? ==> r.value == variables[LowerCase(id)]
    {
      if LowerCase(id) in variables then Some(variables[LowerCase(id)]) else None
    }

    /** `getVariableIds`: every registered key once, in the order of first registration. */
    function GetVariableIds(): (r: seq<string>)
      requires Valid()
      reads this
      ensures forall key :: key in r <==> key in variables
      ensures forall k, l :: 0 <= k < l < |r| ==> r[k] != r[l]
    {
      ids
    }

    /** `getVariables`: the handlers in the same order as their ids. */
    function GetVariables(): (r: seq<VariableHandler>)
      requires Valid()
      reads this
      ensures |r| == |GetVariableIds()|
      ensures forall k :: 0 <= k < |r| ==> r[k] == variables[ids[k]] && LowerCase(r[k].id) == ids[k]
    {
      var keys, entries := ids, variables;
      seq(|keys|, k requires 0 <= k < |keys| && keys[k] in entries => entries[keys[k]])
    }

    /** How each registered variable's `getValue()` settles, by key. */
    function Outcomes(): map<string, Outcome>
      reads this
    {
      map key | key in variables :: variables[key].outcome
    }

    /**
     * `getVariableValue`: `undefined` for an unknown id, the handler's value,
     * or "Error retrieving #<id>: <message>" with the id as given.
     */
    function GetVariableValue(id: string): (r: Option<string>)
      reads this
      ensures GetVariable(id).None? ==> r.None?
      ensures GetVariable(id).Some? && GetVariable(id).value.outcome.Returns? ==>
                r == Some(GetVariable(id).value.outcome.value)
      ensures GetVariable(id).Some? && GetVariable(id).value.outcome.Throws? ==>
                r == Some("Error retrieving #" + id + ": " + ThrownText(GetVariable(id).value.outcome.thrown))
      ensures r == ValueOf(Outcomes(), id)
    {
      match GetVariable(id)
      case None => None
      case Some(variable) =>
        match variable.outcome
        case Returns(v) => Some(v)
        case Throws(t) => Some(RetrievalError(id, t))
    }

    /**
     * `processText(initialText)`. An empty or missing text is asked for
     * with an input box, whose answer is `entered` (`""` when cancelled).
     * Each match of `#[A-Za-z0-9_-]+`, left to right, whose variable has a
     * value replaces the first occurrence of the match in the current result.
     */
    method ProcessText(initialText: string, entered: string) returns (result: string)
      requires DollarFree(Outcomes())
      ensures initialText != "" ==> result == Processed(initialText, Outcomes())
      ensures initialText == "" && entered != "" ==> result == Processed(entered, Outcomes())
      ensures initialText == "" && entered == "" ==> result == ""
    {
      var text := initialText;
      if text == "" {
        text := entered;
        if text == "" {
          return "";
        }
      }
      result := text;
      var matches := Matches(text);
      if |matches| == 0 {
        return;
      }
      var i := 0;
      while i < |matches|
        invariant 0 <= i <= |matches|
        invariant Rewrite(result, matches[i..], Outcomes()) == Processed(text, Outcomes())
      {
        var reference := matches[i];
        var value := GetVariableValue(Name(reference));
        RewriteStep(result, matches, i, Outcomes());
        if value.Some? {
          result := ReplaceFirst(result, reference, value.value);
        }
        i := i + 1;
      }
    }
  }

  /**
   * The registration test: after registering `test-variable` it is known,
   * its value is returned, and it is among the listed variables.
   */
  method RegisterAndRetrieve() returns (known: bool, value: Option<string>, listed: bool)
    ensures known && value == Some("test-value") && listed
  {
    var service := new VariableService();
    var variable := VariableHandler("test-variable", "Test Variable", "A test variable", Returns("test-value"));
    TestIdIsLowerCase();
    service.RegisterVariable(variable);
    known := service.HasVariable("test-variable");
    value := service.GetVariableValue("test-variable");
    var variables := service.GetVariables();
    assert service.ids == ["test-variable"];
    assert variables[0] == variable;
    listed := exists k | 0 <= k < |variables| :: variables[k].id == "test-variable";
  }

  /**
   * Two ids that differ only in case name one variable: the second
   * registration replaces the first, and one id is listed.
   */
  method RegisterTwiceInOtherCase(first: VariableHandler, second: VariableHandler)
    returns (ids: seq<string>, found: Option<VariableHandler>)
    requires LowerCase(first.id) == LowerCase(second.id)
    ensures ids == [LowerCase(first.id)]
    ensures found == Some(second)
  {
    var service := new VariableService();
    service.RegisterVariable(first);
    service.RegisterVariable(second);
    ids := service.GetVariableIds();
    found := service.GetVariable(first.id);
  }

  lemma TestIdIsLowerCase()
    ensures LowerCase("test-variable") == "test-variable"
  {
  }
}
