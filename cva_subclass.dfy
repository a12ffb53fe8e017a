/**
 `CvaBaseImplDirective`, the variant that extends `AbstractControlDirective`
 (selector `[cvaBaseImpl]`). Its fields, host bindings and handlers are the
 same as those of the standalone variant, so its class is proved against the
 transitions of module CvaStandalone; the lemmas here state what this variant's
 handlers promise about those transitions.
 */
module CvaSubclass {
  import opened Accessor
  import opened CvaStandalone

  /**
   This variant's host bindings are those of the standalone one: an input
   runs `_handleInput`, a blur calls `onTouched` directly, and the composition
   events run `_compositionStart` and `_compositionEnd`.
   */
  lemma HostBindings(s: State, text: string)
    ensures s.Step(Input(text)) == s.HandleInput(text)
    ensures s.Step(Blur) == s.OnTouched()
    ensures s.Step(CompositionStart) == s.CompositionStart()
    ensures s.Step(CompositionEnd(text)) == s.CompositionEnd(text)
  {
  }

  /** Calling `writeValueFromViewToModel` a second time with the same value does nothing. */
  lemma WriteValueFromViewToModelIdempotent(s: State, text: string)
    ensures s.WriteValueFromViewToModel(text).WriteValueFromViewToModel(text) == s.WriteValueFromViewToModel(text)
    ensures |s.WriteValueFromViewToModel(text).WriteValueFromViewToModel(text).changes| <= |s.changes| + 1
  {
  }

  /** The same value written any number of times in a row is reported at most once. */
  lemma {:induction false} RepeatedWritesReportOnce(s: State, text: string, n: nat)
    ensures RepeatWrites(s, text, n).changes == s.changes + (if n == 0 || text == s.value then [] else [text])
    ensures n > 0 ==> RepeatWrites(s, text, n).value == text
  {
    if n > 1 {
      RepeatedWritesReportOnce(s, text, n - 1);
    }
  }

  /** `writeValueFromViewToModel(text)` called `n` times. */
  function RepeatWrites(s: State, text: string, n: nat): State
  {
    if n == 0 then s else RepeatWrites(s, text, n - 1).WriteValueFromViewToModel(text)
  }

  /** In composition mode, an input that arrives during a composition reports nothing and changes nothing. */
  lemma InputDuringCompositionReportsNothing(s: State, text: string)
    requires s.compositionMode && s.composing
    ensures s.HandleInput(text).changes == s.changes
    ensures s.HandleInput(text) == s
  {
  }

  /**
   Outside composition mode, `_handleInput` is `writeValueFromViewToModel`
   whether or not a composition is in progress.
   */
  lemma InputWithoutCompositionModeIsPlainWrite(s: State, text: string, composing: bool)
    requires !s.compositionMode
    ensures s.(composing := composing).HandleInput(text) == s.(composing := composing).WriteValueFromViewToModel(text)
  {
  }

  /**
   `_compositionEnd` reports exactly one value, the given one, in composition
   mode and nothing otherwise; `_composing` is false afterwards.
   */
  lemma CompositionEndReportsIffCompositionMode(s: State, text: string)
    ensures !s.CompositionEnd(text).composing
    ensures s.CompositionEnd(text).changes != s.changes <==> s.compositionMode
    ensures s.compositionMode ==> s.CompositionEnd(text).changes == s.changes + [text]
  {
  }

  /**
   The subclass directive as a stateful object. The host element is
   represented by the ghost property map `element`, and the registered
   callbacks by the ghost log `changes` and the ghost counter `touched`.
   */
  class CvaBaseImplDirective {
    var value: string
    var composing: bool
    const compositionMode: bool
    ghost var changes: seq<string>
    ghost var touched: nat
    ghost var element: Element

    /** The fields as a `State`. */
    ghost function Snapshot(): State
      reads this
    {
      State(value, composing, compositionMode, changes, touched, element)
    }

    constructor(injectedMode: Option<bool>, isAndroid: bool)
      ensures Snapshot() == Init(injectedMode, isAndroid)
    {
      value := "";
      composing := false;
      changes := [];
      touched := 0;
      element := map[];
      compositionMode := if injectedMode == None then !isAndroid else injectedMode.value;
    }

    method WriteValue(model: Option<string>)
      modifies this
      ensures Snapshot() == old(Snapshot()).WriteValue(model)
    {
      SetViewValue(model);
    }

    method SetDisabledState(isDisabled: bool)
      modifies this
      ensures Snapshot() == old(Snapshot()).SetDisabledState(isDisabled)
    {
      SetViewDisabled(isDisabled);
    }

    method HandleInput(text: string)
      modifies this
      ensures Snapshot() == old(Snapshot()).HandleInput(text)
    {
      if !compositionMode || (compositionMode && !composing) {
        WriteValueFromViewToModel(text);
      }
    }

    method CompositionStart()
      modifies this
      ensures Snapshot() == old(Snapshot()).CompositionStart()
    {
      composing := true;
    }

    method CompositionEnd(text: string)
      modifies this
      ensures Snapshot() == old(Snapshot()).CompositionEnd(text)
    {
      composing := false;
      if compositionMode {
        OnChange(text);
      }
    }

    method WriteValueFromViewToModel(text: string)
      modifies this
      ensures Snapshot() == old(Snapshot()).WriteValueFromViewToModel(text)
    {
      if text != value {
        value := text;
        OnChange(text);
      }
    }

    method SetViewValue(model: Option<string>)
      modifies this
      ensures Snapshot() == old(Snapshot()).SetViewValue(model)
    {
      element := element[ValueProp := Text(Normalize(model))];
    }

    method SetViewDisabled(isDisabled: bool)
      modifies this
      ensures Snapshot() == old(Snapshot()).SetViewDisabled(isDisabled)
    {
      element := element[DisabledProp := Flag(isDisabled)];
    }

    ghost method OnChange(text: string)
      modifies this
      ensures Snapshot() == old(Snapshot()).OnChange(text)
    {
      changes := changes + [text];
    }

    /** Also the handler of the host's blur event. */
    ghost method OnTouched()
      modifies this
      ensures Snapshot() == old(Snapshot()).OnTouched()
    {
      touched := touched + 1;
    }
  }
}
