# Custom form value accessors, modelled in Dafny

The application demonstrates custom Angular `ControlValueAccessor` directives:
objects that sit between a native text input and a reactive form control. Each
directive turns the host element's DOM events (`input`, `focus`, `blur`,
`compositionstart`, `compositionend`) into calls of the form's registered
`onChange` and `onTouched` callbacks, and renders what the form writes
(`writeValue`, `setDisabledState`) to the element through the renderer. The
same small state machine appears in four directives with small differences,
and two of them also carry a reset-detection filter over the control's flags.

## How the model is organised

- `accessor.dfy` (module `Accessor`): what all directives share. `Option`
  stands for a value that may be `null`/`undefined`, `Prop` for a property
  written to the host element, `Normalize` for `value == null ? '' : value`,
  `CompositionModeDefault` for the constructor's choice of composition mode,
  and `NoAdjacentRepeats` for a change log with no value reported twice in a row.
- `reset_filter.dfy` (module `ResetFilter`): the filter of
  `setupResetObservable`, written as the same left fold over the keys
  `dirty, pristine, touched, untouched` that the source runs, and proved equal
  to the conjunction of the four flag tests.
- One module per directive: `ControlStateAccessor`
  (`AbstractCustomValueAccessorDirective`), `CvaStandalone` and `CvaSubclass`
  (the two `CvaBaseImplDirective` files) and `FormControlRefAccessor`
  (`CustomValueAccessorAndFormControlRefDirective`). Each has:
  - a `State` datatype holding the directive's fields together with what it
    has produced: `changes`, the arguments of every `onChange` call, oldest
    first; `touched`, the number of `onTouched` calls; `element`, the
    properties written to the host element;
  - one `State` function per handler, whose contract says what the handler
    does, plus `Step` (the host bindings and form calls as an event alphabet)
    and `Run` (a sequence of events);
  - a class with the source's fields, the callbacks and renderer as ghost
    state. Each method has the source's body and is proved to take the
    object from `Snapshot()` to the matching `State` function of it;
  - lemmas about sequences of events.
- The two `CvaBaseImplDirective` files have identical handlers. One differs
  from the other only in framework wiring: its base class, logging and the
  reset stream. So `CvaSubclass` reuses the `State` of `CvaStandalone` and
  adds its own class and lemmas.

The variants differ as follows:
- `FormControlRefAccessor` has no composition gating and never changes its
  `composing` flag.
- `ControlStateAccessor` and `FormControlRefAccessor` store `_disabled` and
  `focus` and route blur through `handleFocus(false)`.
- The two `CvaBaseImplDirective` variants store neither. Their blur calls
  `onTouched` directly and their `setDisabledState` only renders.

Two behaviours of the code as written are stated as lemmas:
- `compositionEnd` reports its value without comparing it with `_value` and
  without updating `_value`. So in composition mode a composition ending with
  a value `v` different from `_value`, followed by an input carrying `v`,
  reports `v` twice
  (`CompositionEndThenInputRepeats`). In a run without composition-end
  events, or outside composition mode, the reported values never repeat
  back to back (`NoRepeatsUnlessCompositionEndReports`, in both variants
  that handle composition).
- `writeValue` renders the form's value but leaves `_value` alone. An input
  equal to the old `_value` is therefore not reported, even when it differs
  from what the form last wrote (`InputAfterWriteValueComparesStaleValue`).

Values are strings: the DOM input's `value` and the initial `_value` of `''`.
A value written by the form is an `Option<string>`, with `None` for `null`
and `undefined`. `focus` and `_disabled` start as `''` in the source; in the
model they are `Option<bool>`, with `None` for that initial value. The
composition mode is fixed once the constructor has run, so it is a `const`.

## Model

| member | source | states |
|---|---|---|
| `Accessor.Normalize` | src/app/page/basic-usage/control-state/__custom-value-accessor.directive.ts:192 | null or undefined is shown as the empty string; any other value is shown unchanged |
| `Accessor.CompositionModeDefault` | src/app/page/basic-usage/control-state/__custom-value-accessor.directive.ts:106-108 | the mode is the injected value when that is not null, and otherwise true exactly when not running on Android |
| `ResetFilter.Expected` | src/app/page/basic-usage/control-state/__custom-value-accessor.directive.ts:237-242 | the reset state expects true exactly for pristine and untouched, false for dirty and touched |
| `ResetFilter.Get` | src/app/page/basic-usage/control-state/__custom-value-accessor.directive.ts:247 | looking a key up in the control state reads that key's own flag; valid and invalid are never read |
| `ResetFilter.Merge` | src/app/page/basic-usage/control-state/__custom-value-accessor.directive.ts:233-235 | spreading the status record and the value record into one loses nothing: each can be read back unchanged from the merged record |
| `ResetFilter.Reduce` | src/app/page/basic-usage/control-state/__custom-value-accessor.directive.ts:244-248 | the fold can only turn a true running state false, never a false one true, and with no keys it returns its seed |
| `ResetFilter.ReduceIsConjunction` | src/app/page/basic-usage/control-state/__custom-value-accessor.directive.ts:244-248 | the reduce over the keys yields its seed conjoined with agreement on every key; a false running state stays false |
| `ResetFilter.IsReset` | src/app/page/basic-usage/control-state/__custom-value-accessor.directive.ts:236-249 | the filter passes iff dirty is false, pristine is true, touched is false and untouched is true |
| `ResetFilter.IsResetIgnoresValidity` | src/app/page/basic-usage/control-state/__custom-value-accessor.directive.ts:223-249 | changing valid or invalid never changes whether the filter passes |
| `ResetFilter.ExactResetRecordOnly` | src/app/page/custom-value-accessor/2_cva-base-impl.directive.ts:196-209 | the filter passes on the exact reset record and fails when any one of the four flags differs from it |
| `ResetFilter.MergedIsReset` | src/app/page/custom-value-accessor/2_cva-base-impl.directive.ts:193-209 | on the merge of a status record and a value record the filter passes iff the status half is not dirty and pristine and the value half is not touched and untouched |
| `ControlStateAccessor.State.RenderViewDisabled` | src/app/page/basic-usage/control-state/__custom-value-accessor.directive.ts:196-198 | the flag is written to the element's disabled property and nothing else changes |
| `ControlStateAccessor.State.RenderViewFocus` | src/app/page/basic-usage/control-state/__custom-value-accessor.directive.ts:200-202 | the flag is written to the element's focus property and nothing else changes |
| `ControlStateAccessor.State.OnChange` | src/app/page/basic-usage/control-state/__custom-value-accessor.directive.ts:95-96 | each onChange call appends its argument to the log of reported values and changes nothing else |
| `ControlStateAccessor.State.OnTouched` | src/app/page/basic-usage/control-state/__custom-value-accessor.directive.ts:97-98 | each onTouched call adds one to the touched count and changes nothing else |
| `ControlStateAccessor.State.Step` | src/app/page/basic-usage/control-state/__custom-value-accessor.directive.ts:42-72 | the host bindings (input, focus, blur, compositionstart, compositionend) and the form calls: no event changes the composition mode, exactly the blur calls onTouched, only an input changes _value, and only an input or a composition end reports a value |
| `ControlStateAccessor.Init` | src/app/page/basic-usage/control-state/__custom-value-accessor.directive.ts:84-109 | after construction _value is '', nothing is composing, focus and _disabled keep their initial '', nothing is reported or rendered, and the composition mode is the injected one unless null, else not-Android |
| `ControlStateAccessor.State.WriteValue` | src/app/page/basic-usage/control-state/__custom-value-accessor.directive.ts:114-116 | writeValue renders the normalised value to the element's value property and leaves _value, composing and the change log unchanged |
| `ControlStateAccessor.State.SetDisabledState` | src/app/page/basic-usage/control-state/__custom-value-accessor.directive.ts:135-138 | setDisabledState stores the flag in _disabled and renders it to the element's disabled property; nothing else changes |
| `ControlStateAccessor.State.HandleInput` | src/app/page/basic-usage/control-state/__custom-value-accessor.directive.ts:144-148 | handleInput changes nothing while composing in composition mode and otherwise is exactly writeValueFromViewToModel |
| `ControlStateAccessor.State.HandleFocus` | src/app/page/basic-usage/control-state/__custom-value-accessor.directive.ts:154-160 | handleFocus stores and renders the focus flag and calls onTouched once iff the flag is false; nothing else changes |
| `ControlStateAccessor.State.CompositionStart` | src/app/page/basic-usage/control-state/__custom-value-accessor.directive.ts:166-168 | compositionStart sets composing and changes nothing else |
| `ControlStateAccessor.State.CompositionEnd` | src/app/page/basic-usage/control-state/__custom-value-accessor.directive.ts:175-180 | compositionEnd clears composing, reports the value iff in composition mode without comparing with _value, and leaves _value unchanged |
| `ControlStateAccessor.State.WriteValueFromViewToModel` | src/app/page/basic-usage/control-state/__custom-value-accessor.directive.ts:184-189 | afterwards _value is the given value; the value is appended to the change log exactly once when it differed from _value, and otherwise nothing changes |
| `ControlStateAccessor.State.RenderViewValue` | src/app/page/basic-usage/control-state/__custom-value-accessor.directive.ts:191-194 | null or undefined writes '' to the element's value property, any other value is written as it is; nothing else changes |
| `ControlStateAccessor.StepKeepsInSync` | src/app/page/basic-usage/control-state/__custom-value-accessor.directive.ts:144-189 | every handler except a composition end in composition mode keeps the change log free of adjacent repeats with _value as its last entry |
| `ControlStateAccessor.NoRepeatsUnlessCompositionEndReports` | src/app/page/basic-usage/control-state/__custom-value-accessor.directive.ts:144-189 | outside composition mode, or in a run without compositionend events, no sequence of events makes the directive report the same value twice in a row |
| `ControlStateAccessor.FreshDirectiveNoRepeats` | src/app/page/basic-usage/control-state/__custom-value-accessor.directive.ts:100-189 | a freshly constructed directive never reports the same value twice in a row when its composition mode came out false, or when no composition ends in the run |
| `ControlStateAccessor.CompositionEndThenInputRepeats` | src/app/page/basic-usage/control-state/__custom-value-accessor.directive.ts:175-189 | in composition mode compositionEnd(v) with v different from _value, followed by input(v), reports v twice |
| `ControlStateAccessor.InputAfterWriteValueComparesStaleValue` | src/app/page/basic-usage/control-state/__custom-value-accessor.directive.ts:184-194 | after writeValue(x), an input equal to the old _value is not reported although it differs from x |
| `ControlStateAccessor.AbstractCustomValueAccessorDirective.constructor` | src/app/page/basic-usage/control-state/__custom-value-accessor.directive.ts:84-109 | the new directive's fields are those of Init |
| `ControlStateAccessor.AbstractCustomValueAccessorDirective.WriteValue` | src/app/page/basic-usage/control-state/__custom-value-accessor.directive.ts:114-116 | the new state is State.WriteValue of the old one |
| `ControlStateAccessor.AbstractCustomValueAccessorDirective.SetDisabledState` | src/app/page/basic-usage/control-state/__custom-value-accessor.directive.ts:135-138 | the new state is State.SetDisabledState of the old one |
| `ControlStateAccessor.AbstractCustomValueAccessorDirective.HandleInput` | src/app/page/basic-usage/control-state/__custom-value-accessor.directive.ts:144-148 | the new state is State.HandleInput of the old one |
| `ControlStateAccessor.AbstractCustomValueAccessorDirective.HandleFocus` | src/app/page/basic-usage/control-state/__custom-value-accessor.directive.ts:154-160 | the new state is State.HandleFocus of the old one |
| `ControlStateAccessor.AbstractCustomValueAccessorDirective.CompositionStart` | src/app/page/basic-usage/control-state/__custom-value-accessor.directive.ts:166-168 | the new state is State.CompositionStart of the old one |
| `ControlStateAccessor.AbstractCustomValueAccessorDirective.CompositionEnd` | src/app/page/basic-usage/control-state/__custom-value-accessor.directive.ts:175-180 | the new state is State.CompositionEnd of the old one |
| `ControlStateAccessor.AbstractCustomValueAccessorDirective.WriteValueFromViewToModel` | src/app/page/basic-usage/control-state/__custom-value-accessor.directive.ts:184-189 | the new state is State.WriteValueFromViewToModel of the old one |
| `ControlStateAccessor.AbstractCustomValueAccessorDirective.RenderViewValue` | src/app/page/basic-usage/control-state/__custom-value-accessor.directive.ts:191-194 | only the element's value property changes, to the normalised value |
| `ControlStateAccessor.AbstractCustomValueAccessorDirective.RenderViewDisabled` | src/app/page/basic-usage/control-state/__custom-value-accessor.directive.ts:196-198 | only the element's disabled property changes, to the flag |
| `ControlStateAccessor.AbstractCustomValueAccessorDirective.RenderViewFocus` | src/app/page/basic-usage/control-state/__custom-value-accessor.directive.ts:200-202 | only the element's focus property changes, to the flag |
| `ControlStateAccessor.AbstractCustomValueAccessorDirective.OnChange` | src/app/page/basic-usage/control-state/__custom-value-accessor.directive.ts:95-96 | the registered onChange call appends its argument to the change log; nothing else changes |
| `ControlStateAccessor.AbstractCustomValueAccessorDirective.OnTouched` | src/app/page/basic-usage/control-state/__custom-value-accessor.directive.ts:97-98 | the registered onTouched call adds one to the touched count; nothing else changes |
| `CvaStandalone.State.SetViewDisabled` | src/app/page/custom-value-accessor/2_cva-base-impl.directive.ts:163-165 | the flag is written to the element's disabled property and nothing else changes |
| `CvaStandalone.State.OnChange` | src/app/page/custom-value-accessor/2_cva-base-impl.directive.ts:84-85 | each onChange call appends its argument to the log of reported values and changes nothing else |
| `CvaStandalone.State.Step` | src/app/page/custom-value-accessor/2_cva-base-impl.directive.ts:44-60 | the host bindings (input, blur -> onTouched, compositionstart, compositionend) and the form calls: no event changes the composition mode, exactly the blur calls onTouched, only an input changes _value, and only an input or a composition end reports a value |
| `CvaStandalone.Init` | src/app/page/custom-value-accessor/2_cva-base-impl.directive.ts:70-103 | after construction _value is '', nothing is composing or reported or rendered, and the composition mode is the injected one unless null, else not-Android |
| `CvaStandalone.State.WriteValue` | src/app/page/custom-value-accessor/2_cva-base-impl.directive.ts:106-108 | writeValue renders the normalised value and leaves _value, _composing and the change log unchanged |
| `CvaStandalone.State.SetDisabledState` | src/app/page/custom-value-accessor/2_cva-base-impl.directive.ts:118-120 | setDisabledState only writes the element's disabled property; no field of the directive changes |
| `CvaStandalone.State.HandleInput` | src/app/page/custom-value-accessor/2_cva-base-impl.directive.ts:122-127 | _handleInput changes nothing while composing in composition mode and otherwise is exactly writeValueFromViewToModel |
| `CvaStandalone.State.CompositionStart` | src/app/page/custom-value-accessor/2_cva-base-impl.directive.ts:129-132 | _compositionStart sets _composing and changes nothing else |
| `CvaStandalone.State.CompositionEnd` | src/app/page/custom-value-accessor/2_cva-base-impl.directive.ts:134-141 | _compositionEnd clears _composing, reports the value iff in composition mode without comparing with _value, and leaves _value unchanged |
| `CvaStandalone.State.WriteValueFromViewToModel` | src/app/page/custom-value-accessor/2_cva-base-impl.directive.ts:151-156 | afterwards _value is the given value; the value is reported once when it differed from _value, and otherwise nothing changes |
| `CvaStandalone.State.SetViewValue` | src/app/page/custom-value-accessor/2_cva-base-impl.directive.ts:158-161 | null or undefined writes '' to the element's value property, any other value is written as it is; nothing else changes |
| `CvaStandalone.State.OnTouched` | src/app/page/custom-value-accessor/2_cva-base-impl.directive.ts:86-87 | onTouched adds one to the touched count and changes nothing else |
| `CvaStandalone.CompositionRoundTrip` | src/app/page/custom-value-accessor/2_cva-base-impl.directive.ts:129-141 | compositionstart then compositionend(v) leaves _composing false, keeps _value, and reports exactly v iff in composition mode |
| `CvaStandalone.CompositionEndThenInputRepeats` | src/app/page/custom-value-accessor/2_cva-base-impl.directive.ts:134-156 | in composition mode _compositionEnd(v) with v different from _value, followed by _handleInput(v), reports v twice |
| `CvaStandalone.BlurOnlyTouches` | src/app/page/custom-value-accessor/2_cva-base-impl.directive.ts:46 | a blur event adds one to the touched count and changes no other state |
| `CvaStandalone.StepKeepsInSync` | src/app/page/custom-value-accessor/2_cva-base-impl.directive.ts:122-156 | every handler except _compositionEnd in composition mode keeps the change log free of adjacent repeats with _value as its last entry |
| `CvaStandalone.NoRepeatsUnlessCompositionEndReports` | src/app/page/custom-value-accessor/2_cva-base-impl.directive.ts:122-156 | outside composition mode, or in a run without compositionend events, no sequence of events makes the directive report the same value twice in a row |
| `CvaStandalone.InputsIgnoredWhileComposing` | src/app/page/custom-value-accessor/2_cva-base-impl.directive.ts:122-127 | while composing in composition mode any number of input events leaves the state unchanged |
| `CvaStandalone.CvaBaseImplDirective.constructor` | src/app/page/custom-value-accessor/2_cva-base-impl.directive.ts:70-103 | the new directive's fields are those of Init |
| `CvaStandalone.CvaBaseImplDirective.WriteValue` | src/app/page/custom-value-accessor/2_cva-base-impl.directive.ts:106-108 | the new state is State.WriteValue of the old one |
| `CvaStandalone.CvaBaseImplDirective.SetDisabledState` | src/app/page/custom-value-accessor/2_cva-base-impl.directive.ts:118-120 | the new state is State.SetDisabledState of the old one |
| `CvaStandalone.CvaBaseImplDirective.HandleInput` | src/app/page/custom-value-accessor/2_cva-base-impl.directive.ts:122-127 | the new state is State.HandleInput of the old one |
| `CvaStandalone.CvaBaseImplDirective.CompositionStart` | src/app/page/custom-value-accessor/2_cva-base-impl.directive.ts:129-132 | the new state is State.CompositionStart of the old one |
| `CvaStandalone.CvaBaseImplDirective.CompositionEnd` | src/app/page/custom-value-accessor/2_cva-base-impl.directive.ts:134-141 | the new state is State.CompositionEnd of the old one |
| `CvaStandalone.CvaBaseImplDirective.WriteValueFromViewToModel` | src/app/page/custom-value-accessor/2_cva-base-impl.directive.ts:151-156 | the new state is State.WriteValueFromViewToModel of the old one |
| `CvaStandalone.CvaBaseImplDirective.SetViewValue` | src/app/page/custom-value-accessor/2_cva-base-impl.directive.ts:158-161 | the new state is State.SetViewValue of the old one |
| `CvaStandalone.CvaBaseImplDirective.SetViewDisabled` | src/app/page/custom-value-accessor/2_cva-base-impl.directive.ts:163-165 | only the element's disabled property changes, to the flag |
| `CvaStandalone.CvaBaseImplDirective.OnChange` | src/app/page/custom-value-accessor/2_cva-base-impl.directive.ts:84-85 | the registered onChange call appends its argument to the change log; nothing else changes |
| `CvaStandalone.CvaBaseImplDirective.OnTouched` | src/app/page/custom-value-accessor/2_cva-base-impl.directive.ts:46 | the blur binding's onTouched call adds one to the touched count; nothing else changes |
| `CvaSubclass.HostBindings` | src/app/page/custom-value-accessor/1_cva-base-impl.directive.ts:44-49 | input runs _handleInput, blur calls onTouched directly, compositionstart and compositionend run _compositionStart and _compositionEnd |
| `CvaSubclass.WriteValueFromViewToModelIdempotent` | src/app/page/custom-value-accessor/1_cva-base-impl.directive.ts:136-141 | writeValueFromViewToModel twice with the same value equals calling it once, so it reports at most once |
| `CvaSubclass.RepeatedWritesReportOnce` | src/app/page/custom-value-accessor/1_cva-base-impl.directive.ts:136-141 | n calls with the same value report it at most once, exactly when n > 0 and it differed from _value |
| `CvaSubclass.InputDuringCompositionReportsNothing` | src/app/page/custom-value-accessor/1_cva-base-impl.directive.ts:111-115 | _handleInput reports nothing and changes nothing while composing in composition mode |
| `CvaSubclass.InputWithoutCompositionModeIsPlainWrite` | src/app/page/custom-value-accessor/1_cva-base-impl.directive.ts:111-115 | outside composition mode _handleInput is exactly writeValueFromViewToModel whatever _composing is |
| `CvaSubclass.CompositionEndReportsIffCompositionMode` | src/app/page/custom-value-accessor/1_cva-base-impl.directive.ts:121-126 | _compositionEnd leaves _composing false and changes the log iff in composition mode, appending exactly the given value |
| `CvaSubclass.CvaBaseImplDirective.constructor` | src/app/page/custom-value-accessor/1_cva-base-impl.directive.ts:59-92 | the new directive's fields are those of Init: the mode defaults to not-Android only when the injected value is null |
| `CvaSubclass.CvaBaseImplDirective.WriteValue` | src/app/page/custom-value-accessor/1_cva-base-impl.directive.ts:95-97 | the new state is State.WriteValue of the old one |
| `CvaSubclass.CvaBaseImplDirective.SetDisabledState` | src/app/page/custom-value-accessor/1_cva-base-impl.directive.ts:107-109 | the new state is State.SetDisabledState of the old one |
| `CvaSubclass.CvaBaseImplDirective.HandleInput` | src/app/page/custom-value-accessor/1_cva-base-impl.directive.ts:111-115 | the new state is State.HandleInput of the old one |
| `CvaSubclass.CvaBaseImplDirective.CompositionStart` | src/app/page/custom-value-accessor/1_cva-base-impl.directive.ts:117-119 | the new state is State.CompositionStart of the old one: only _composing changes |
| `CvaSubclass.CvaBaseImplDirective.CompositionEnd` | src/app/page/custom-value-accessor/1_cva-base-impl.directive.ts:121-126 | the new state is State.CompositionEnd of the old one |
| `CvaSubclass.CvaBaseImplDirective.WriteValueFromViewToModel` | src/app/page/custom-value-accessor/1_cva-base-impl.directive.ts:136-141 | the new state is State.WriteValueFromViewToModel of the old one |
| `CvaSubclass.CvaBaseImplDirective.SetViewValue` | src/app/page/custom-value-accessor/1_cva-base-impl.directive.ts:143-146 | the new state is State.SetViewValue of the old one: null or undefined shown as '', other values unchanged |
| `CvaSubclass.CvaBaseImplDirective.SetViewDisabled` | src/app/page/custom-value-accessor/1_cva-base-impl.directive.ts:148-150 | only the element's disabled property changes, to the flag |
| `CvaSubclass.CvaBaseImplDirective.OnChange` | src/app/page/custom-value-accessor/1_cva-base-impl.directive.ts:73-74 | the registered onChange call appends its argument to the change log; nothing else changes |
| `CvaSubclass.CvaBaseImplDirective.OnTouched` | src/app/page/custom-value-accessor/1_cva-base-impl.directive.ts:75-76 | the blur binding's onTouched call adds one to the touched count; nothing else changes |
| `FormControlRefAccessor.State.RenderViewDisabled` | src/app/page/basic-usage/directives/custom-value-accessor-and-form-control-ref/custom-value-accessor-and-form-control-ref.directive.ts:161-163 | the flag is written to the element's disabled property and nothing else changes |
| `FormControlRefAccessor.State.RenderViewFocus` | src/app/page/basic-usage/directives/custom-value-accessor-and-form-control-ref/custom-value-accessor-and-form-control-ref.directive.ts:165-167 | the flag is written to the element's focus property and nothing else changes |
| `FormControlRefAccessor.State.OnChange` | src/app/page/basic-usage/directives/custom-value-accessor-and-form-control-ref/custom-value-accessor-and-form-control-ref.directive.ts:81-82 | each onChange call appends its argument to the log of reported values and changes nothing else |
| `FormControlRefAccessor.State.OnTouched` | src/app/page/basic-usage/directives/custom-value-accessor-and-form-control-ref/custom-value-accessor-and-form-control-ref.directive.ts:83-84 | each onTouched call adds one to the touched count and changes nothing else |
| `FormControlRefAccessor.State.Step` | src/app/page/basic-usage/directives/custom-value-accessor-and-form-control-ref/custom-value-accessor-and-form-control-ref.directive.ts:41-58 | the host bindings (input, focus, blur; no composition bindings) and the form calls: no event changes composing, exactly the blur calls onTouched, and only an input changes _value or reports a value |
| `FormControlRefAccessor.Init` | src/app/page/basic-usage/directives/custom-value-accessor-and-form-control-ref/custom-value-accessor-and-form-control-ref.directive.ts:69-91 | after construction _value is '', composing is false, focus and _disabled keep their initial '', and nothing is reported or rendered |
| `FormControlRefAccessor.State.WriteValue` | src/app/page/basic-usage/directives/custom-value-accessor-and-form-control-ref/custom-value-accessor-and-form-control-ref.directive.ts:96-98 | writeValue renders the normalised value and leaves _value and the change log unchanged |
| `FormControlRefAccessor.State.SetDisabledState` | src/app/page/basic-usage/directives/custom-value-accessor-and-form-control-ref/custom-value-accessor-and-form-control-ref.directive.ts:117-120 | setDisabledState stores the flag in _disabled and renders it to the element's disabled property; nothing else changes |
| `FormControlRefAccessor.State.HandleInput` | src/app/page/basic-usage/directives/custom-value-accessor-and-form-control-ref/custom-value-accessor-and-form-control-ref.directive.ts:126-128 | handleInput is always writeValueFromViewToModel: there is no composition gating |
| `FormControlRefAccessor.State.HandleFocus` | src/app/page/basic-usage/directives/custom-value-accessor-and-form-control-ref/custom-value-accessor-and-form-control-ref.directive.ts:134-140 | handleFocus stores and renders the focus flag and calls onTouched once iff the flag is false; nothing else changes |
| `FormControlRefAccessor.State.WriteValueFromViewToModel` | src/app/page/basic-usage/directives/custom-value-accessor-and-form-control-ref/custom-value-accessor-and-form-control-ref.directive.ts:149-154 | afterwards _value is the given value, and the change log changes iff the value differed from _value, by exactly that value |
| `FormControlRefAccessor.State.RenderViewValue` | src/app/page/basic-usage/directives/custom-value-accessor-and-form-control-ref/custom-value-accessor-and-form-control-ref.directive.ts:156-159 | null or undefined writes '' to the element's value property, any other value is written as it is; nothing else changes |
| `FormControlRefAccessor.StepKeepsInSync` | src/app/page/basic-usage/directives/custom-value-accessor-and-form-control-ref/custom-value-accessor-and-form-control-ref.directive.ts:126-163 | every handler keeps the change log free of adjacent repeats with _value as its last entry |
| `FormControlRefAccessor.NoRepeatsInAnyRun` | src/app/page/basic-usage/directives/custom-value-accessor-and-form-control-ref/custom-value-accessor-and-form-control-ref.directive.ts:126-163 | for any sequence of events the change log contains no two adjacent equal values |
| `FormControlRefAccessor.FreshDirectiveNoRepeats` | src/app/page/basic-usage/directives/custom-value-accessor-and-form-control-ref/custom-value-accessor-and-form-control-ref.directive.ts:69-163 | from a freshly constructed directive no run reports the same value twice in a row |
| `FormControlRefAccessor.ComposingNeverChanges` | src/app/page/basic-usage/directives/custom-value-accessor-and-form-control-ref/custom-value-accessor-and-form-control-ref.directive.ts:79 | no sequence of events changes composing, so it stays at its initial false |
| `FormControlRefAccessor.TouchedCountsBlurs` | src/app/page/basic-usage/directives/custom-value-accessor-and-form-control-ref/custom-value-accessor-and-form-control-ref.directive.ts:52-57 | a blur adds one to the touched count and a focus does not |
| `FormControlRefAccessor.InputAfterWriteValueComparesStaleValue` | src/app/page/basic-usage/directives/custom-value-accessor-and-form-control-ref/custom-value-accessor-and-form-control-ref.directive.ts:149-159 | after writeValue(x), an input equal to the old _value is not reported although it differs from x |
| `FormControlRefAccessor.CustomValueAccessorAndFormControlRefDirective.constructor` | src/app/page/basic-usage/directives/custom-value-accessor-and-form-control-ref/custom-value-accessor-and-form-control-ref.directive.ts:69-91 | the new directive's fields are those of Init |
| `FormControlRefAccessor.CustomValueAccessorAndFormControlRefDirective.WriteValue` | src/app/page/basic-usage/directives/custom-value-accessor-and-form-control-ref/custom-value-accessor-and-form-control-ref.directive.ts:96-98 | the new state is State.WriteValue of the old one |
| `FormControlRefAccessor.CustomValueAccessorAndFormControlRefDirective.SetDisabledState` | src/app/page/basic-usage/directives/custom-value-accessor-and-form-control-ref/custom-value-accessor-and-form-control-ref.directive.ts:117-120 | the new state is State.SetDisabledState of the old one |
| `FormControlRefAccessor.CustomValueAccessorAndFormControlRefDirective.HandleInput` | src/app/page/basic-usage/directives/custom-value-accessor-and-form-control-ref/custom-value-accessor-and-form-control-ref.directive.ts:126-128 | the new state is State.HandleInput of the old one |
| `FormControlRefAccessor.CustomValueAccessorAndFormControlRefDirective.HandleFocus` | src/app/page/basic-usage/directives/custom-value-accessor-and-form-control-ref/custom-value-accessor-and-form-control-ref.directive.ts:134-140 | the new state is State.HandleFocus of the old one |
| `FormControlRefAccessor.CustomValueAccessorAndFormControlRefDirective.WriteValueFromViewToModel` | src/app/page/basic-usage/directives/custom-value-accessor-and-form-control-ref/custom-value-accessor-and-form-control-ref.directive.ts:149-154 | the new state is State.WriteValueFromViewToModel of the old one |
| `FormControlRefAccessor.CustomValueAccessorAndFormControlRefDirective.RenderViewValue` | src/app/page/basic-usage/directives/custom-value-accessor-and-form-control-ref/custom-value-accessor-and-form-control-ref.directive.ts:156-159 | only the element's value property changes, to the normalised value |
| `FormControlRefAccessor.CustomValueAccessorAndFormControlRefDirective.RenderViewDisabled` | src/app/page/basic-usage/directives/custom-value-accessor-and-form-control-ref/custom-value-accessor-and-form-control-ref.directive.ts:161-163 | only the element's disabled property changes, to the flag |
| `FormControlRefAccessor.CustomValueAccessorAndFormControlRefDirective.RenderViewFocus` | src/app/page/basic-usage/directives/custom-value-accessor-and-form-control-ref/custom-value-accessor-and-form-control-ref.directive.ts:165-167 | only the element's focus property changes, to the flag |
| `FormControlRefAccessor.CustomValueAccessorAndFormControlRefDirective.OnChange` | src/app/page/basic-usage/directives/custom-value-accessor-and-form-control-ref/custom-value-accessor-and-form-control-ref.directive.ts:81-82 | the registered onChange call appends its argument to the change log; nothing else changes |
| `FormControlRefAccessor.CustomValueAccessorAndFormControlRefDirective.OnTouched` | src/app/page/basic-usage/directives/custom-value-accessor-and-form-control-ref/custom-value-accessor-and-form-control-ref.directive.ts:83-84 | the registered onTouched call adds one to the touched count; nothing else changes |

## Left out

- Dependency injection, the `@Directive` metadata and the `NG_VALUE_ACCESSOR` provider are framework wiring. The host event bindings are kept as each module's `Event` type and `Step` function.
- `registerOnChange` and `registerOnTouched` are not modelled. The registered callbacks are observed only through the ghost log `changes` and the ghost counter `touched`, so replacing a callback is not modelled.
- `Renderer2.setProperty` and `ElementRef` are foreign calls. They become writes to the ghost property map `element`; what the browser does with a written `focus` or `disabled` property is outside the model.
- The Android test (`isAndroid`/`_isAndroid`, the user-agent query and its regular expression) is a platform query. It is taken as the boolean parameter `isAndroid`.
- The stream plumbing of `setupResetObservable` (`map`, `combineLatest`, `filter`, `subscribe`) is asynchronous stream composition and is not modelled. Only the record merge and the filter predicate are modelled; the control's flags are taken as inputs.
- `onResetEvent`, `resetEvent$` and the `console.log` calls only log or are unused.
- `updateFormControlRef`, `_updateFormControlRef` and `ngOnInit` are not modelled: they do an untyped lookup of the control in the parent form container. The `control` and `formControlName` fields go with them.
- Members inherited from `AbstractControlDirective` are framework code and not modelled.
- Model values other than strings are not modelled, and neither is JavaScript's strict inequality on them: objects compare by identity, and `NaN !== NaN`.
- `private`/`protected` visibility is not modelled.
- `src/app/app.module.ts`, `src/app/page/basic-usage/basic-usage.component.ts` and `src/app/page/basic-usage/control-state/control-state.component.ts` declare modules and components and have no logic of their own. The validators they import are not part of this model.
