/** DefaultRunContext of gocop.go: the values the invokers store for the
    handler, and the handler to run. */
module RunContext {
  import opened Wrappers
  import opened Grammar

  class DefaultRunContext {
    var values: map<string, string>
    var handler: Option<HandlerId>
    /** The handlers run so far, in order (the handlers' own effects are not
        modelled). */
    var invoked: seq<HandlerId>

    /** DefaultRunContextProvider: an empty context. */
    constructor ()
      ensures values == map[] && handler == None && invoked == []
    {
      values := map[];
      handler := None;
      invoked := [];
    }

    /** Put: stores value under name, replacing any earlier one. */
    method Put(name: string, value: string)
      modifies this`values
      ensures values == old(values)[name := value]
      ensures Get(name) == value
      ensures forall other :: other != name ==> Get(other) == old(Get(other))
    {
      values := values[name := value];
    }

    /** Get: the value stored under name, or the empty string when there is
        none (the zero value of the map lookup). */
    function Get(name: string): (v: string)
      reads this
      ensures name in values ==> v == values[name]
      ensures name !in values ==> v == ""
    {
      if name in values then values[name] else ""
    }

    /** Handler: selects the handler to run, replacing any earlier one. */
    method Handler(h: HandlerId)
      modifies this`handler
      ensures handler == Some(h)
    {
      handler := Some(h);
    }

    /** Invoke: runs the selected handler, if there is one. */
    method Invoke()
      modifies this`invoked
      ensures invoked == old(invoked) + if handler.Some? then [handler.value] else []
    {
      if handler.Some? {
        invoked := invoked + [handler.value];
      }
    }
  }
}
