/** `InputText` (renderer/template/components/input-text.js): a text input
    whose `text` setter stores the value and fires a `change` event, and whose
    `onChange` registers a listener for that event. */
module InputTextComponent {
  import opened Wrappers
  import Seqs

  /** A `change` listener, by identity: registering the same listener twice
      adds it once, as `addEventListener` does. */
  datatype Handler = Handler(id: nat)

  class InputText {
    /** `inputElem.value`; None when it is null or undefined. */
    var value: Option<string>
    /** The listeners registered for `change`, in registration order. */
    var handlers: seq<Handler>
    /** The number of `change` events dispatched so far. */
    var changeEvents: nat
    /** Every listener invocation so far, oldest first. */
    var calls: seq<Handler>

    ghost predicate Valid()
      reads this
    {
      Seqs.Distinct(handlers)
    }

    constructor (initial: Option<string>)
      ensures Valid()
      ensures value == initial && handlers == [] && changeEvents == 0 && calls == []
    {
      value := initial;
      handlers := [];
      changeEvents := 0;
      calls := [];
    }

    /** The `text` getter: the stored value, or "" for null/undefined. */
    function Text(): (r: string)
      reads this
      ensures value.None? ==> r == ""
      ensures value.Some? ==> r == value.value
    {
      match value
      case None => ""
      case Some(v) => v
    }

    /** The `text` setter: store the value, then dispatch one change event. */
    method SetText(newText: string)
      requires Valid()
      modifies this
      ensures Valid()
      ensures value == Some(newText) && Text() == newText
      ensures handlers == old(handlers)
      ensures changeEvents == old(changeEvents) + 1
      ensures calls == old(calls) + handlers
      ensures forall h :: Seqs.Count(calls, h) == old(Seqs.Count(calls, h)) + (if h in handlers then 1 else 0)
    {
      value := Some(newText);
      DispatchChangeEvent();
    }

    /** `onChange(handler)`: listen for `change`; a listener already present is not added again. */
    method OnChange(handler: Handler)
      requires Valid()
      modifies this
      ensures Valid()
      ensures handler in handlers
      ensures handlers == if handler in old(handlers) then old(handlers) else old(handlers) + [handler]
      ensures value == old(value) && changeEvents == old(changeEvents) && calls == old(calls)
    {
      if handler !in handlers {
        handlers := handlers + [handler];
      }
    }

    /** `dispatchChangeEvent()`: one event, delivered to every listener once,
        in registration order. */
    method DispatchChangeEvent()
      requires Valid()
      modifies this
      ensures Valid()
      ensures value == old(value) && handlers == old(handlers)
      ensures changeEvents == old(changeEvents) + 1
      ensures calls == old(calls) + handlers
      ensures forall h :: Seqs.Count(calls, h) == old(Seqs.Count(calls, h)) + (if h in handlers then 1 else 0)
    {
      changeEvents := changeEvents + 1;
      for i := 0 to |handlers|
        invariant value == old(value) && handlers == old(handlers)
        invariant changeEvents == old(changeEvents) + 1
        invariant calls == old(calls) + handlers[..i]
      {
        calls := calls + [handlers[i]];
      }
      assert handlers[..|handlers|] == handlers;
      forall h ensures Seqs.Count(calls, h) == old(Seqs.Count(calls, h)) + (if h in handlers then 1 else 0) {
        Seqs.CountAppend(old(calls), handlers, h);
        Seqs.CountDistinct(handlers, h);
      }
    }
  }

  /** Setting the text and then reading it gives back what was set. */
  method SetThenGet(input: InputText, s: string) returns (read: string)
    requires input.Valid()
    modifies input
    ensures read == s
  {
    input.SetText(s);
    read := input.Text();
  }
}
