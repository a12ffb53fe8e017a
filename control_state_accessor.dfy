/**
 `AbstractCustomValueAccessorDirective` (selector `[customControl]`): a value
 accessor that keeps the last value pushed to the form (`_value`), the focus
 and disabled state it last rendered, and whether an IME composition is in
 progress. The host element's events are bound as
   input -> handleInput(value), focus -> handleFocus(true),
   blur -> handleFocus(false), compositionstart -> compositionStart(),
   compositionend -> compositionEnd(value);
 the form calls writeValue and setDisabledState.
 */
module ControlStateAccessor {
  import opened Accessor

  /** One event the directive reacts to: a host event or a call from the form. */
  datatype Event =
    | Input(text: string)
    | Focus
    | Blur
    | CompositionStart
    | CompositionEnd(text: string)
    | WriteValue(model: Option<string>)
    | SetDisabledState(isDisabled: bool)

  /**
   The directive's fields, with what its callbacks and renderer have seen:
   `changes` lists the arguments of every `onChange` call, oldest first,
   `touched` counts the `onTouched` calls and `element` holds the properties
   written to the host element. `focus` and `disabled` are `None` while they
   still hold their initial `''`.
   */
  datatype State = State(
    value: string,
    focus: Option<bool>,
    disabled: Option<bool>,
    composing: bool,
    compositionMode: bool,
    changes: seq<string>,
    touched: nat,
    element: Element)
  {
    /** `writeValue`: the form's value is shown in the element; `_value` and the log stay as they are. */
    function WriteValue(model: Option<string>): (t: State)
      ensures t.element == element[ValueProp := Text(Normalize(model))]
      ensures t.value == value && t.composing == composing && t.changes == changes
      ensures t == this.(element := t.element)
    {
      RenderViewValue(model)
    }

    /** `setDisabledState`: the flag is both stored and rendered. */
    function SetDisabledState(isDisabled: bool): (t: State)
      ensures t.disabled == Some(isDisabled)
      ensures t.element == element[DisabledProp := Flag(isDisabled)]
      ensures t == this.(disabled := t.disabled, element := t.element)
    {
      this.(disabled := Some(isDisabled)).RenderViewDisabled(isDisabled)
    }

    /**
     `handleInput`: ignored while a composition is in progress in composition
     mode; otherwise exactly `writeValueFromViewToModel`.
     */
    function HandleInput(text: string): (t: State)
      ensures compositionMode && composing ==> t == this
      ensures !(compositionMode && composing) ==> t == WriteValueFromViewToModel(text)
    {
      if !compositionMode || (compositionMode && !composing) then WriteValueFromViewToModel(text) else this
    }

    /**
     `handleFocus`: the focus state is stored and rendered, and `onTouched`
     is called once on a blur and never on a focus.
     */
    function HandleFocus(isFocus: bool): (t: State)
      ensures t.focus == Some(isFocus)
      ensures t.element == element[FocusProp := Flag(isFocus)]
      ensures t.touched == if isFocus then touched else touched + 1
      ensures t == this.(focus := t.focus, touched := t.touched, element := t.element)
    {
      var stored := this.(focus := Some(isFocus));
      var notified := if !isFocus then stored.OnTouched() else stored;
      notified.RenderViewFocus(isFocus)
    }

    /** `compositionStart`: a composition is now in progress; nothing else changes. */
    function CompositionStart(): (t: State)
      ensures t.composing
      ensures t == this.(composing := true)
    {
      this.(composing := true)
    }

    /**
     `compositionEnd`: the composition is over; in composition mode the value
     is reported to the form, with no comparison against `_value` and without
     updating `_value`.
     */
    function CompositionEnd(text: string): (t: State)
      ensures !t.composing
      ensures t.value == value
      ensures t.changes == if compositionMode then changes + [text] else changes
      ensures t == this.(composing := false, changes := t.changes)
    {
      var ended := this.(composing := false);
      if compositionMode then ended.OnChange(text) else ended
    }

    /**
     `writeValueFromViewToModel`: afterwards `_value` is the given value, and
     the value was reported to the form exactly when it differed from `_value`.
     */
    function WriteValueFromViewToModel(text: string): (t: State)
      ensures t.value == text
      ensures text == value ==> t == this
      ensures text != value ==> t == this.(value := text, changes := changes + [text])
    {
      if text != value then this.(value := text).OnChange(text) else this
    }

    /** `renderViewValue`: the normalised value is written to the element's `value`. */
    function RenderViewValue(model: Option<string>): (t: State)
      ensures model.None? ==> t.element == element[ValueProp := Text("")]
      ensures model.Some? ==> t.element == element[ValueProp := Text(model.value)]
      ensures t == this.(element := t.element)
    {
      this.(element := element[ValueProp := Text(Normalize(model))])
    }

    /** `renderViewDisabled`: the flag is written to the element's `disabled`. */
    function RenderViewDisabled(isDisabled: bool): (t: State)
      ensures t.element == element[DisabledProp := Flag(isDisabled)]
      ensures t == this.(element := t.element)
    {
      this.(element := element[DisabledProp := Flag(isDisabled)])
    }

    /** `renderViewFocus`: the flag is written to the element's `focus`. */
    function RenderViewFocus(isFocus: bool): (t: State)
      ensures t.element == element[FocusProp := Flag(isFocus)]
      ensures t == this.(element := t.element)
    {
      this.(element := element[FocusProp := Flag(isFocus)])
    }

    /** The registered `onChange` callback, observed as an entry of the log. */
    function OnChange(text: string): (t: State)
      ensures t.changes == changes + [text]
      ensures t == this.(changes := t.changes)
    {
      this.(changes := changes + [text])
    }

    /** The registered `onTouched` callback, observed as a count. */
    function OnTouched(): (t: State)
      ensures t.touched == touched + 1
      ensures t == this.(touched := t.touched)
    {
      this.(touched := touched + 1)
    }

    /**
     The handler the host binding or the form runs for one event. No event
     changes the composition mode; only a blur calls `onTouched`, only an
     input can change `_value`, and only an input or a composition end can
     report a value to the form.
     */
    function Step(e: Event): (t: State)
      ensures t.compositionMode == compositionMode
      ensures t.touched == if e.Blur? then touched + 1 else touched
      ensures !e.Input? ==> t.value == value
      ensures !(e.Input? || e.CompositionEnd?) ==> t.changes == changes
    {
      match e
      case Input(text) => HandleInput(text)
      case Focus => HandleFocus(true)
      case Blur => HandleFocus(false)
      case CompositionStart => this.CompositionStart()
      case CompositionEnd(text) => this.CompositionEnd(text)
      case WriteValue(model) => this.WriteValue(model)
      case SetDisabledState(isDisabled) => this.SetDisabledState(isDisabled)
    }

    /** The events handled one after another, first event first. */
    function Run(events: seq<Event>): State
      decreases |events|
    {
      if events == [] then this else Step(events[0]).Run(events[1..])
    }

    /** The log has no adjacent repeats and its last entry is `_value`. */
    predicate InSync()
    {
      NoAdjacentRepeats(changes) && (changes != [] ==> changes[|changes| - 1] == value)
    }
  }

  /**
   The state right after construction: `_value`, `focus` and `_disabled`
   hold their initial values, no composition is in progress, nothing has been
   reported or rendered, and the composition mode is the injected one unless
   that is null, in which case it is "not Android".
   */
  function Init(injectedMode: Option<bool>, isAndroid: bool): (s: State)
    ensures s.compositionMode == (if injectedMode.Some? then injectedMode.value else !isAndroid)
    ensures s.value == "" && !s.composing && s.focus == None && s.disabled == None
    ensures s.changes == [] && s.touched == 0 && s.element == map[]
  {
    State("", None, None, false, CompositionModeDefault(injectedMode, isAndroid), [], 0, map[])
  }

  /**
   Every handler except a composition end in composition mode keeps the
   change log free of adjacent repeats with `_value` as its last entry.
   */
  lemma StepKeepsInSync(s: State, e: Event)
    requires !(e.CompositionEnd? && s.compositionMode) && s.InSync()
    ensures s.Step(e).InSync()
  {
    match e
    case Input(text) =>
      if !(s.compositionMode && s.composing) && text != s.value {
        AppendKeepsNoAdjacentRepeats(s.changes, text);
      }
    case _ =>
  }

  /**
   Outside composition mode, or in a run where no composition ends, the
   values the directive reports to the form never repeat back to back: a
   composition end in composition mode is the only handler that can report
   a repeat.
   */
  lemma {:induction false} NoRepeatsUnlessCompositionEndReports(s: State, events: seq<Event>)
    requires s.InSync()
    requires !s.compositionMode || forall i :: 0 <= i < |events| ==> !events[i].CompositionEnd?
    ensures s.Run(events).InSync()
    ensures NoAdjacentRepeats(s.Run(events).changes)
    decreases |events|
  {
    if events != [] {
      StepKeepsInSync(s, events[0]);
      NoRepeatsUnlessCompositionEndReports(s.Step(events[0]), events[1..]);
    }
  }

  /**
   The same, starting from a freshly constructed directive: whether its mode
   came out false, or the run has no composition end.
   */
  lemma FreshDirectiveNoRepeats(injectedMode: Option<bool>, isAndroid: bool, events: seq<Event>)
    requires !CompositionModeDefault(injectedMode, isAndroid) || forall i :: 0 <= i < |events| ==> !events[i].CompositionEnd?
    ensures NoAdjacentRepeats(Init(injectedMode, isAndroid).Run(events).changes)
  {
    NoRepeatsUnlessCompositionEndReports(Init(injectedMode, isAndroid), events);
  }

  /**
   In composition mode the directive can report the same value twice in a
   row: a composition that ends with a value other than `_value`, followed by
   an input event carrying that same value.
   */
  lemma CompositionEndThenInputRepeats(s: State, text: string)
    requires s.compositionMode && text != s.value
    ensures s.CompositionEnd(text).HandleInput(text).changes == s.changes + [text, text]
  {
  }

  /**
   `_value` does not follow `writeValue`: after the form writes a value, an
   input equal to the previous `_value` is not reported even though it differs
   from the value the form wrote.
   */
  lemma InputAfterWriteValueComparesStaleValue(s: State, model: string)
    requires model != s.value
    ensures s.WriteValue(Some(model)).HandleInput(s.value).changes == s.changes
  {
  }

  /**
   The directive as a stateful object. The host element is represented by the
   ghost property map `element`, and the registered callbacks by the ghost log
   `changes` and the ghost counter `touched`.
   */
  class AbstractCustomValueAccessorDirective {
    var value: string
    var focus: Option<bool>
    var disabled: Option<bool>
    var composing: bool
    const compositionMode: bool
    ghost var changes: seq<string>
    ghost var touched: nat
    ghost var element: Element

    /** The fields as a `State`. */
    ghost function Snapshot(): State
      reads this
    {
      State(value, focus, disabled, composing, compositionMode, changes, touched, element)
    }

    constructor(injectedMode: Option<bool>, isAndroid: bool)
      ensures Snapshot() == Init(injectedMode, isAndroid)
    {
      value := "";
      focus := None;
      disabled := None;
      composing := false;
      changes := [];
      touched := 0;
      element := map[];
      compositionMode := if injectedMode == None then !isAndroid else injectedMode.value;
    }

    method WriteValue(model: Option<string>)
      modifies this
      ensures Snapshot() == old(Snapshot()).WriteValue(model)
    {
      RenderViewValue(model);
    }

    method SetDisabledState(isDisabled: bool)
      modifies this
      ensures Snapshot() == old(Snapshot()).SetDisabledState(isDisabled)
    {
      disabled := Some(isDisabled);
      RenderViewDisabled(isDisabled);
    }

    method HandleInput(text: string)
      modifies this
      ensures Snapshot() == old(Snapshot()).HandleInput(text)
    {
      if !compositionMode || (compositionMode && !composing) {
        WriteValueFromViewToModel(text);
      }
    }

    method HandleFocus(isFocus: bool)
      modifies this
      ensures Snapshot() == old(Snapshot()).HandleFocus(isFocus)
    {
      focus := Some(isFocus);
      if !isFocus {
        OnTouched();
      }
      RenderViewFocus(isFocus);
    }

    method CompositionStart()
      modifies this
      ensures Snapshot() == old(Snapshot()).CompositionStart()
    {
      composing := true;
    }

    method CompositionEnd(text: string)
      modifies this
      ensures Snapshot() == old(Snapshot()).CompositionEnd(text)
    {
      composing := false;
      if compositionMode {
        OnChange(text);
      }
    }

    method WriteValueFromViewToModel(text: string)
      modifies this
      ensures Snapshot() == old(Snapshot()).WriteValueFromViewToModel(text)
    {
      if text != value {
        value := text;
        OnChange(text);
      }
    }

    method RenderViewValue(model: Option<string>)
      modifies this
      ensures Snapshot() == old(Snapshot()).RenderViewValue(model)
    {
      element := element[ValueProp := Text(Normalize(model))];
    }

    method RenderViewDisabled(isDisabled: bool)
      modifies this
      ensures Snapshot() == old(Snapshot()).RenderViewDisabled(isDisabled)
    {
      element := element[DisabledProp := Flag(isDisabled)];
    }

    method RenderViewFocus(isFocus: bool)
      modifies this
      ensures Snapshot() == old(Snapshot()).RenderViewFocus(isFocus)
    {
      element := element[FocusProp := Flag(isFocus)];
    }

    ghost method OnChange(text: string)
      modifies this
      ensures Snapshot() == old(Snapshot()).OnChange(text)
    {
      changes := changes + [text];
    }

    ghost method OnTouched()
      modifies this
      ensures Snapshot() == old(Snapshot()).OnTouched()
    {
      touched := touched + 1;
    }
  }
}
