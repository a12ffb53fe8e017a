/**
 `CvaBaseImplDirective`, the variant that implements `ControlValueAccessor`
 without a base class (selector `[cvaBaseImpl]`). It keeps the last value
 pushed to the form (`_value`), whether an IME composition is in progress
 (`_composing`) and the composition mode; it stores no focus or disabled state.
 The host element's events are bound as
   input -> _handleInput(value), blur -> onTouched(),
   compositionstart -> _compositionStart(), compositionend -> _compositionEnd(value);
 the form calls writeValue and setDisabledState.

 The transitions defined here are also those of the subclass variant
 (module CvaSubclass), whose handlers are the same code.
 */
module CvaStandalone {
  import opened Accessor

  /** One event the directive reacts to: a host event or a call from the form. */
  datatype Event =
    | Input(text: string)
    | Blur
    | CompositionStart
    | CompositionEnd(text: string)
    | WriteValue(model: Option<string>)
    | SetDisabledState(isDisabled: bool)

  /**
   The directive's fields, with what its callbacks and renderer have seen:
   `changes` lists the arguments of every `onChange` call, oldest first,
   `touched` counts the `onTouched` calls and `element` holds the properties
   written to the host element.
   */
  datatype State = State(
    value: string,
    composing: bool,
    compositionMode: bool,
    changes: seq<string>,
    touched: nat,
    element: Element)
  {
    /** `writeValue`: the form's value is shown in the element; `_value`, `_composing` and the log stay as they are. */
    function WriteValue(model: Option<string>): (t: State)
      ensures t.element == element[ValueProp := Text(Normalize(model))]
      ensures t.value == value && t.composing == composing && t.changes == changes
      ensures t == this.(element := t.element)
    {
      SetViewValue(model)
    }

    /** `setDisabledState`: the flag is only rendered; no field of the directive changes. */
    function SetDisabledState(isDisabled: bool): (t: State)
      ensures t.element == element[DisabledProp := Flag(isDisabled)]
      ensures t == this.(element := t.element)
    {
      SetViewDisabled(isDisabled)
    }

    /**
     `_handleInput`: ignored while a composition is in progress in composition
     mode; otherwise exactly `writeValueFromViewToModel`.
     */
    function HandleInput(text: string): (t: State)
      ensures compositionMode && composing ==> t == this
      ensures !(compositionMode && composing) ==> t == WriteValueFromViewToModel(text)
    {
      if !compositionMode || (compositionMode && !composing) then WriteValueFromViewToModel(text) else this
    }

    /** `_compositionStart`: a composition is now in progress; nothing else changes. */
    function CompositionStart(): (t: State)
      ensures t.composing
      ensures t == this.(composing := true)
    {
      this.(composing := true)
    }

    /**
     `_compositionEnd`: the composition is over; in composition mode the value
     is reported to the form, with no comparison against `_value` and without
     updating `_value`.
     */
    function CompositionEnd(text: string): (t: State)
      ensures !t.composing
      ensures t.value == value
      ensures t.changes == if compositionMode then changes + [text] else changes
      ensures t == this.(composing := false, changes := t.changes)
    {
      var ended := this.(composing := false);
      if compositionMode then ended.OnChange(text) else ended
    }

    /**
     `writeValueFromViewToModel`: afterwards `_value` is the given value, and
     the value was reported to the form exactly when it differed from `_value`.
     */
    function WriteValueFromViewToModel(text: string): (t: State)
      ensures t.value == text
      ensures text == value ==> t == this
      ensures text != value ==> t == this.(value := text, changes := changes + [text])
    {
      if text != value then this.(value := text).OnChange(text) else this
    }

    /** `setViewValue`: null and undefined are shown as the empty string, any other value as it is. */
    function SetViewValue(model: Option<string>): (t: State)
      ensures model.None? ==> t.element == element[ValueProp := Text("")]
      ensures model.Some? ==> t.element == element[ValueProp := Text(model.value)]
      ensures t == this.(element := t.element)
    {
      this.(element := element[ValueProp := Text(Normalize(model))])
    }

    /** `setViewDisabled`: the flag is written to the element's `disabled`. */
    function SetViewDisabled(isDisabled: bool): (t: State)
      ensures t.element == element[DisabledProp := Flag(isDisabled)]
      ensures t == this.(element := t.element)
    {
      this.(element := element[DisabledProp := Flag(isDisabled)])
    }

    /** The registered `onChange` callback, observed as an entry of the log. */
    function OnChange(text: string): (t: State)
      ensures t.changes == changes + [text]
      ensures t == this.(changes := t.changes)
    {
      this.(changes := changes + [text])
    }

    /** The registered `onTouched` callback, which the blur event calls directly. */
    function OnTouched(): (t: State)
      ensures t.touched == touched + 1
      ensures t == this.(touched := t.touched)
    {
      this.(touched := touched + 1)
    }

    /**
     The handler the host binding or the form runs for one event; a blur calls
     `onTouched` directly. No event changes the composition mode; only a blur
     calls `onTouched`, only an input can change `_value`, and only an input
     or a composition end can report a value to the form.
     */
    function Step(e: Event): (t: State)
      ensures t.compositionMode == compositionMode
      ensures t.touched == if e.Blur? then touched + 1 else touched
      ensures !e.Input? ==> t.value == value
      ensures !(e.Input? || e.CompositionEnd?) ==> t.changes == changes
    {
      match e
      case Input(text) => HandleInput(text)
      case Blur => OnTouched()
      case CompositionStart => this.CompositionStart()
      case CompositionEnd(text) => this.CompositionEnd(text)
      case WriteValue(model) => this.WriteValue(model)
      case SetDisabledState(isDisabled) => this.SetDisabledState(isDisabled)
    }

    /** The events handled one after another, first event first. */
    function Run(events: seq<Event>): State
      decreases |events|
    {
      if events == [] then this else Step(events[0]).Run(events[1..])
    }

    /** The log has no adjacent repeats and its last entry is `_value`. */
    predicate InSync()
    {
      NoAdjacentRepeats(changes) && (changes != [] ==> changes[|changes| - 1] == value)
    }
  }

  /**
   The state right after construction: `_value` is empty, no composition is
   in progress, nothing has been reported or rendered, and the composition mode
   is the injected one unless that is null, in which case it is "not Android".
   */
  function Init(injectedMode: Option<bool>, isAndroid: bool): (s: State)
    ensures s.compositionMode == (if injectedMode.Some? then injectedMode.value else !isAndroid)
    ensures s.value == "" && !s.composing
    ensures s.changes == [] && s.touched == 0 && s.element == map[]
  {
    State("", false, CompositionModeDefault(injectedMode, isAndroid), [], 0, map[])
  }

  /**
   A composition that starts and then ends leaves no composition in progress,
   keeps `_value`, and in composition mode reports exactly the final value.
   */
  lemma CompositionRoundTrip(s: State, text: string)
    ensures !s.CompositionStart().CompositionEnd(text).composing
    ensures s.CompositionStart().CompositionEnd(text).value == s.value
    ensures s.CompositionStart().CompositionEnd(text).changes ==
      if s.compositionMode then s.changes + [text] else s.changes
  {
  }

  /**
   Because `_compositionEnd` does not update `_value`, a composition that ends
   with a value other than `_value`, followed by an input event carrying that
   same value outside composition, reports the value twice in a row.
   */
  lemma CompositionEndThenInputRepeats(s: State, text: string)
    requires s.compositionMode && text != s.value
    ensures s.CompositionEnd(text).HandleInput(text).changes == s.changes + [text, text]
  {
  }

  /** A blur calls `onTouched` once and changes nothing else. */
  lemma BlurOnlyTouches(s: State)
    ensures s.Step(Blur) == s.(touched := s.touched + 1)
  {
  }

  /**
   Every handler except `_compositionEnd` in composition mode keeps the log
   free of adjacent repeats with `_value` as its last entry.
   */
  lemma StepKeepsInSync(s: State, e: Event)
    requires !(e.CompositionEnd? && s.compositionMode) && s.InSync()
    ensures s.Step(e).InSync()
  {
    match e
    case Input(text) =>
      if !(s.compositionMode && s.composing) && text != s.value {
        AppendKeepsNoAdjacentRepeats(s.changes, text);
      }
    case _ =>
  }

  /**
   Outside composition mode, or in a run where no composition ends, the
   values reported to the form never repeat back to back: `_compositionEnd`
   in composition mode is the only handler that can report a repeat.
   */
  lemma {:induction false} NoRepeatsUnlessCompositionEndReports(s: State, events: seq<Event>)
    requires s.InSync()
    requires !s.compositionMode || forall i :: 0 <= i < |events| ==> !events[i].CompositionEnd?
    ensures s.Run(events).InSync()
    ensures NoAdjacentRepeats(s.Run(events).changes)
    decreases |events|
  {
    if events != [] {
      StepKeepsInSync(s, events[0]);
      NoRepeatsUnlessCompositionEndReports(s.Step(events[0]), events[1..]);
    }
  }

  /**
   While a composition is in progress in composition mode, input events are
   ignored entirely, however many arrive.
   */
  lemma {:induction false} InputsIgnoredWhileComposing(s: State, events: seq<Event>)
    requires s.compositionMode && s.composing
    requires forall i :: 0 <= i < |events| ==> events[i].Input?
    ensures s.Run(events) == s
    decreases |events|
  {
    if events != [] {
      assert s.Step(events[0]) == s;
      InputsIgnoredWhileComposing(s, events[1..]);
    }
  }

  /**
   The standalone directive as a stateful object. The host element is
   represented by the ghost property map `element`, and the registered
   callbacks by the ghost log `changes` and the ghost counter `touched`.
   */
  class CvaBaseImplDirective {
    var value: string
    var composing: bool
    const compositionMode: bool
    ghost var changes: seq<string>
    ghost var touched: nat
    ghost var element: Element

    /** The fields as a `State`. */
    ghost function Snapshot(): State
      reads this
    {
      State(value, composing, compositionMode, changes, touched, element)
    }

    constructor(injectedMode: Option<bool>, isAndroid: bool)
      ensures Snapshot() == Init(injectedMode, isAndroid)
    {
      value := "";
      composing := false;
      changes := [];
      touched := 0;
      element := map[];
      compositionMode := if injectedMode == None then !isAndroid else injectedMode.value;
    }

    method WriteValue(model: Option<string>)
      modifies this
      ensures Snapshot() == old(Snapshot()).WriteValue(model)
    {
      SetViewValue(model);
    }

    method SetDisabledState(isDisabled: bool)
      modifies this
      ensures Snapshot() == old(Snapshot()).SetDisabledState(isDisabled)
    {
      SetViewDisabled(isDisabled);
    }

    method HandleInput(text: string)
      modifies this
      ensures Snapshot() == old(Snapshot()).HandleInput(text)
    {
      if !compositionMode || (compositionMode && !composing) {
        WriteValueFromViewToModel(text);
      }
    }

    method CompositionStart()
      modifies this
      ensures Snapshot() == old(Snapshot()).CompositionStart()
    {
      composing := true;
    }

    method CompositionEnd(text: string)
      modifies this
      ensures Snapshot() == old(Snapshot()).CompositionEnd(text)
    {
      composing := false;
      if compositionMode {
        OnChange(text);
      }
    }

    method WriteValueFromViewToModel(text: string)
      modifies this
      ensures Snapshot() == old(Snapshot()).WriteValueFromViewToModel(text)
    {
      if text != value {
        value := text;
        OnChange(text);
      }
    }

    method SetViewValue(model: Option<string>)
      modifies this
      ensures Snapshot() == old(Snapshot()).SetViewValue(model)
    {
      element := element[ValueProp := Text(Normalize(model))];
    }

    method SetViewDisabled(isDisabled: bool)
      modifies this
      ensures Snapshot() == old(Snapshot()).SetViewDisabled(isDisabled)
    {
      element := element[DisabledProp := Flag(isDisabled)];
    }

    ghost method OnChange(text: string)
      modifies this
      ensures Snapshot() == old(Snapshot()).OnChange(text)
    {
      changes := changes + [text];
    }

    /** Also the handler of the host's blur event. */
    ghost method OnTouched()
      modifies this
      ensures Snapshot() == old(Snapshot()).OnTouched()
    {
      touched := touched + 1;
    }
  }
}
