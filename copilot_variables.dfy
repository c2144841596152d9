/**
 * `CopilotVariableService`: the earlier registry, whose handlers are bare
 * functions registered under a name, with the same lookup, error text and
 * substitution loop as `VariableService` (without the input box).
 */
module CopilotVariables {
  import opened Wrappers
  import opened JsString
  import opened Registry
  import opened Substitution

  class CopilotVariableService {
    /** The keys of `variableHandlers`, in the order the map iterates them. */
    var names: seq<string>
    /** How each handler's call settles, by lower-cased name. */
    var variableHandlers: map<string, Outcome>

    ghost predicate Valid()
      reads this
    {
      Ordered(names, variableHandlers)
    }

    constructor()
      ensures Valid()
      ensures names == [] && variableHandlers == map[]
    {
      names := [];
      variableHandlers := map[];
    }

    /**
     * `registerVariable(name, handler)`: stored under the lower-cased name,
     * replacing a handler registered under the same name in another case;
     * the other entries and the key order are kept.
     */
    method RegisterVariable(name: string, handler: Outcome)
      requires Valid()
      modifies this
      ensures Valid()
      ensures variableHandlers == old(variableHandlers)[LowerCase(name) := handler]
      ensures names == KeysAfterSet(old(names), old(variableHandlers), LowerCase(name))
      ensures HasVariable(name)
      ensures forall other :: LowerCase(other) != LowerCase(name) ==>
                HasVariable(other) == old(HasVariable(other)) && GetVariableValue(other) == old(GetVariableValue(other))
    {
      var key := LowerCase(name);
      LowerCaseIdempotent(name);
      SetKeepsOrdered(names, variableHandlers, key, handler);
      names := KeysAfterSet(names, variableHandlers, key);
      variableHandlers := variableHandlers[key := handler];
    }

    /** `hasVariable`: whether the name, in any case, is registered. */
    function HasVariable(name: string): (r: bool)
      reads this
      ensures r <==> GetVariableValue(name).Some?
    {
      LowerCase(name) in variableHandlers
    }

    /** `getVariableNames`: every lower-cased name once, in the order of first registration. */
    function GetVariableNames(): (r: seq<string>)
      requires Valid()
      reads this
      ensures forall key :: key in r <==> key in variableHandlers
      ensures forall k, l :: 0 <= k < l < |r| ==> r[k] != r[l]
      ensures forall k :: 0 <= k < |r| ==> LowerCase(r[k]) == r[k]
    {
      names
    }

    /**
     * `getVariableValue`: `undefined` for an unknown name, the handler's
     * value, or "Error retrieving #<name>: <message>" with the name as given.
     */
    function GetVariableValue(name: string): (r: Option<string>)
      reads this
      ensures LowerCase(name) !in variableHandlers ==> r.None?
      ensures LowerCase(name) in variableHandlers && variableHandlers[LowerCase(name)].Returns? ==>
                r == Some(variableHandlers[LowerCase(name)].value)
      ensures LowerCase(name) in variableHandlers && variableHandlers[LowerCase(name)].Throws? ==>
                r == Some("Error retrieving #" + name + ": " + ThrownText(variableHandlers[LowerCase(name)].thrown))
    {
      ValueOf(variableHandlers, name)
    }

    /**
     * `processText(text)`: each match of `#[A-Za-z0-9_-]+`, left to right,
     * whose name has a value replaces the first occurrence of the match in
     * the current result. `replaced` counts the `replace` calls: one per
     * match with a value, so never more than the matches.
     */
    method ProcessText(text: string) returns (result: string, ghost replaced: nat)
      requires DollarFree(variableHandlers)
      ensures result == Processed(text, variableHandlers)
      ensures replaced == Resolved(Matches(text), variableHandlers) && replaced <= |Matches(text)|
      ensures replaced == 0 ==> result == text
    {
      result := text;
      replaced := 0;
      var matches := Matches(text);
      if |matches| == 0 {
        return;
      }
      ghost var handlers := variableHandlers;
      for i := 0 to |matches|
        invariant Rewrite(result, matches[i..], handlers) == Processed(text, handlers)
        invariant replaced + Resolved(matches[i..], handlers) == Resolved(matches, handlers)
      {
        var reference := matches[i];
        var value := GetVariableValue(Name(reference));
        RewriteStep(result, matches, i, handlers);
        if value.Some? {
          result := ReplaceFirst(result, reference, value.value);
          replaced := replaced + 1;
        }
      }
    }
  }
}
