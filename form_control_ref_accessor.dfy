/**
 `CustomValueAccessorAndFormControlRefDirective` (selector
 `[customValueAccessorAndFormControlRef]`): a value accessor without any
 composition handling. It keeps the last value pushed to the form (`_value`)
 and the focus and disabled state it last rendered; it declares a `composing`
 flag that no handler touches. The host element's events are bound as
   input -> handleInput(value), focus -> handleFocus(true), blur -> handleFocus(false);
 the form calls writeValue and setDisabledState.
 */
module FormControlRefAccessor {
  import opened Accessor

  /** One event the directive reacts to: a host event or a call from the form. */
  datatype Event =
    | Input(text: string)
    | Focus
    | Blur
    | WriteValue(model: Option<string>)
    | SetDisabledState(isDisabled: bool)

  /**
   The directive's fields, with what its callbacks and renderer have seen:
   `changes` lists the arguments of every `onChange` call, oldest first,
   `touched` counts the `onTouched` calls and `element` holds the properties
   written to the host element. `focus` and `disabled` are `None` while they
   still hold their initial `''`.
   */
  datatype State = State(
    value: string,
    focus: Option<bool>,
    disabled: Option<bool>,
    composing: bool,
    changes: seq<string>,
    touched: nat,
    element: Element)
  {
    /** `writeValue`: the form's value is shown in the element; `_value` and the log stay as they are. */
    function WriteValue(model: Option<string>): (t: State)
      ensures t.element == element[ValueProp := Text(Normalize(model))]
      ensures t.value == value && t.changes == changes
      ensures t == this.(element := t.element)
    {
      RenderViewValue(model)
    }

    /** `setDisabledState`: the flag is both stored and rendered. */
    function SetDisabledState(isDisabled: bool): (t: State)
      ensures t.disabled == Some(isDisabled)
      ensures t.element == element[DisabledProp := Flag(isDisabled)]
      ensures t == this.(disabled := t.disabled, element := t.element)
    {
      this.(disabled := Some(isDisabled)).RenderViewDisabled(isDisabled)
    }

    /** `handleInput`: always `writeValueFromViewToModel`, with no composition gating. */
    function HandleInput(text: string): (t: State)
      ensures t.value == text
      ensures t == WriteValueFromViewToModel(text)
    {
      WriteValueFromViewToModel(text)
    }

    /**
     `handleFocus`: the focus state is stored and rendered, and `onTouched`
     is called once on a blur and never on a focus.
     */
    function HandleFocus(isFocus: bool): (t: State)
      ensures t.focus == Some(isFocus)
      ensures t.element == element[FocusProp := Flag(isFocus)]
      ensures t.touched == if isFocus then touched else touched + 1
      ensures t == this.(focus := t.focus, touched := t.touched, element := t.element)
    {
      var stored := this.(focus := Some(isFocus));
      var notified := if !isFocus then stored.OnTouched() else stored;
      notified.RenderViewFocus(isFocus)
    }

    /**
     `writeValueFromViewToModel`: afterwards `_value` is the given value, and
     the value was reported to the form exactly when it differed from `_value`.
     */
    function WriteValueFromViewToModel(text: string): (t: State)
      ensures t.value == text
      ensures t.changes != changes <==> text != value
      ensures text != value ==> t == this.(value := text, changes := changes + [text])
      ensures text == value ==> t == this
    {
      if text != value then this.(value := text).OnChange(text) else this
    }

    /** `renderViewValue`: null and undefined are shown as the empty string, any other value as it is. */
    function RenderViewValue(model: Option<string>): (t: State)
      ensures model.None? ==> t.element == element[ValueProp := Text("")]
      ensures model.Some? ==> t.element == element[ValueProp := Text(model.value)]
      ensures t == this.(element := t.element)
    {
      this.(element := element[ValueProp := Text(Normalize(model))])
    }

    /** `renderViewDisabled`: the flag is written to the element's `disabled`. */
    function RenderViewDisabled(isDisabled: bool): (t: State)
      ensures t.element == element[DisabledProp := Flag(isDisabled)]
      ensures t == this.(element := t.element)
    {
      this.(element := element[DisabledProp := Flag(isDisabled)])
    }

    /** `renderViewFocus`: the flag is written to the element's `focus`. */
    function RenderViewFocus(isFocus: bool): (t: State)
      ensures t.element == element[FocusProp := Flag(isFocus)]
      ensures t == this.(element := t.element)
    {
      this.(element := element[FocusProp := Flag(isFocus)])
    }

    /** The registered `onChange` callback, observed as an entry of the log. */
    function OnChange(text: string): (t: State)
      ensures t.changes == changes + [text]
      ensures t == this.(changes := t.changes)
    {
      this.(changes := changes + [text])
    }

    /** The registered `onTouched` callback, observed as a count. */
    function OnTouched(): (t: State)
      ensures t.touched == touched + 1
      ensures t == this.(touched := t.touched)
    {
      this.(touched := touched + 1)
    }

    /**
     The handler the host binding or the form runs for one event: there are no
     composition bindings, and a blur goes through `handleFocus(false)`. No
     event changes `composing`; only a blur calls `onTouched`, and only an
     input can change `_value` or report a value to the form.
     */
    function Step(e: Event): (t: State)
      ensures t.composing == composing
      ensures t.touched == if e.Blur? then touched + 1 else touched
      ensures !e.Input? ==> t.value == value && t.changes == changes
    {
      match e
      case Input(text) => HandleInput(text)
      case Focus => HandleFocus(true)
      case Blur => HandleFocus(false)
      case WriteValue(model) => this.WriteValue(model)
      case SetDisabledState(isDisabled) => this.SetDisabledState(isDisabled)
    }

    /** The events handled one after another, first event first. */
    function Run(events: seq<Event>): State
      decreases |events|
    {
      if events == [] then this else Step(events[0]).Run(events[1..])
    }

    /** The log has no adjacent repeats and its last entry is `_value`. */
    predicate InSync()
    {
      NoAdjacentRepeats(changes) && (changes != [] ==> changes[|changes| - 1] == value)
    }
  }

  /**
   The state right after construction: `_value`, `focus` and `_disabled`
   hold their initial values, `composing` is false, and nothing has been
   reported or rendered.
   */
  function Init(): (s: State)
    ensures s.value == "" && s.focus == None && s.disabled == None && !s.composing
    ensures s.changes == [] && s.touched == 0 && s.element == map[]
  {
    State("", None, None, false, [], 0, map[])
  }

  /** Every handler keeps the log free of adjacent repeats, with `_value` as its last entry. */
  lemma StepKeepsInSync(s: State, e: Event)
    requires s.InSync()
    ensures s.Step(e).InSync()
  {
    match e
    case Input(text) =>
      if text != s.value {
        AppendKeepsNoAdjacentRepeats(s.changes, text);
      }
    case _ =>
  }

  /**
   Whatever sequence of events the directive handles, the values it reports
   to the form never repeat back to back.
   */
  lemma {:induction false} NoRepeatsInAnyRun(s: State, events: seq<Event>)
    requires s.InSync()
    ensures s.Run(events).InSync()
    ensures NoAdjacentRepeats(s.Run(events).changes)
    decreases |events|
  {
    if events != [] {
      StepKeepsInSync(s, events[0]);
      NoRepeatsInAnyRun(s.Step(events[0]), events[1..]);
    }
  }

  /** From a freshly constructed directive, no run reports the same value twice in a row. */
  lemma FreshDirectiveNoRepeats(events: seq<Event>)
    ensures NoAdjacentRepeats(Init().Run(events).changes)
  {
    NoRepeatsInAnyRun(Init(), events);
  }

  /** No handler ever changes `composing`. */
  lemma {:induction false} ComposingNeverChanges(s: State, events: seq<Event>)
    ensures s.Run(events).composing == s.composing
    decreases |events|
  {
    if events != [] {
      ComposingNeverChanges(s.Step(events[0]), events[1..]);
    }
  }

  /** A blur calls `onTouched` once; a focus does not. */
  lemma TouchedCountsBlurs(s: State)
    ensures s.Step(Blur).touched == s.touched + 1
    ensures s.Step(Focus).touched == s.touched
  {
  }

  /**
   `_value` does not follow `writeValue`: after the form writes a value, an
   input equal to the previous `_value` is not reported even though it differs
   from the value the form wrote.
   */
  lemma InputAfterWriteValueComparesStaleValue(s: State, model: string)
    requires model != s.value
    ensures s.WriteValue(Some(model)).HandleInput(s.value).changes == s.changes
  {
  }

  /**
   The directive as a stateful object. The host element is represented by the
   ghost property map `element`, and the registered callbacks by the ghost log
   `changes` and the ghost counter `touched`.
   */
  class CustomValueAccessorAndFormControlRefDirective {
    var value: string
    var focus: Option<bool>
    var disabled: Option<bool>
    var composing: bool
    ghost var changes: seq<string>
    ghost var touched: nat
    ghost var element: Element

    /** The fields as a `State`. */
    ghost function Snapshot(): State
      reads this
    {
      State(value, focus, disabled, composing, changes, touched, element)
    }

    constructor()
      ensures Snapshot() == Init()
    {
      value := "";
      focus := None;
      disabled := None;
      composing := false;
      changes := [];
      touched := 0;
      element := map[];
    }

    method WriteValue(model: Option<string>)
      modifies this
      ensures Snapshot() == old(Snapshot()).WriteValue(model)
    {
      RenderViewValue(model);
    }

    method SetDisabledState(isDisabled: bool)
      modifies this
      ensures Snapshot() == old(Snapshot()).SetDisabledState(isDisabled)
    {
      disabled := Some(isDisabled);
      RenderViewDisabled(isDisabled);
    }

    method HandleInput(text: string)
      modifies this
      ensures Snapshot() == old(Snapshot()).HandleInput(text)
    {
      WriteValueFromViewToModel(text);
    }

    method HandleFocus(isFocus: bool)
      modifies this
      ensures Snapshot() == old(Snapshot()).HandleFocus(isFocus)
    {
      focus := Some(isFocus);
      if !isFocus {
        OnTouched();
      }
      RenderViewFocus(isFocus);
    }

    method WriteValueFromViewToModel(text: string)
      modifies this
      ensures Snapshot() == old(Snapshot()).WriteValueFromViewToModel(text)
    {
      if text != value {
        value := text;
        OnChange(text);
      }
    }

    method RenderViewValue(model: Option<string>)
      modifies this
      ensures Snapshot() == old(Snapshot()).RenderViewValue(model)
    {
      element := element[ValueProp := Text(Normalize(model))];
    }

    method RenderViewDisabled(isDisabled: bool)
      modifies this
      ensures Snapshot() == old(Snapshot()).RenderViewDisabled(isDisabled)
    {
      element := element[DisabledProp := Flag(isDisabled)];
    }

    method RenderViewFocus(isFocus: bool)
      modifies this
      ensures Snapshot() == old(Snapshot()).RenderViewFocus(isFocus)
    {
      element := element[FocusProp := Flag(isFocus)];
    }

    ghost method OnChange(text: string)
      modifies this
      ensures Snapshot() == old(Snapshot()).OnChange(text)
    {
      changes := changes + [text];
    }

    ghost method OnTouched()
      modifies this
      ensures Snapshot() == old(Snapshot()).OnTouched()
    {
      touched := touched + 1;
    }
  }
}
