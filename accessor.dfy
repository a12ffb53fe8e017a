/**
 Vocabulary shared by every custom value accessor directive: the optional
 values the form model may hold, the properties the renderer writes to the host
 element, and the two rules each directive applies to its inputs (showing an
 absent model value as the empty string, and choosing the composition mode).
 */
module Accessor {

  /** A value that may be absent; `None` stands for JavaScript's `null` and `undefined`. */
  datatype Option<T> = None | Some(value: T)

  /** A value written to the host element through `Renderer2.setProperty`. */
  datatype Prop = Text(text: string) | Flag(on: bool)

  /** The host element's properties, keyed by property name. */
  type Element = map<string, Prop>

  const ValueProp := "value"
  const DisabledProp := "disabled"
  const FocusProp := "focus"

  /** What the directive renders for a model value: `value == null ? '' : value`. */
  function Normalize(value: Option<string>): (shown: string)
    ensures value.None? ==> shown == ""
    ensures value.Some? ==> shown == value.value
  {
    match value
    case None => ""
    case Some(v) => v
  }

  /**
   The composition mode a directive ends up with after construction: the
   injected `COMPOSITION_BUFFER_MODE` unless it is null, and otherwise "not
   running on Android" (the user-agent test is taken as the parameter `isAndroid`).
   */
  function CompositionModeDefault(injected: Option<bool>, isAndroid: bool): (mode: bool)
    ensures injected.Some? ==> mode == injected.value
    ensures injected.None? ==> mode == !isAndroid
  {
    if injected == None then !isAndroid else injected.value
  }

  /** No two neighbouring entries of a change log are equal. */
  predicate NoAdjacentRepeats(log: seq<string>)
  {
    forall i :: 0 < i < |log| ==> log[i - 1] != log[i]
  }

  /**
   Appending a value that differs from the current last entry keeps a log
   free of adjacent repeats.
   */
  lemma AppendKeepsNoAdjacentRepeats(log: seq<string>, v: string)
    requires NoAdjacentRepeats(log)
    requires log != [] ==> log[|log| - 1] != v
    ensures NoAdjacentRepeats(log + [v])
  {
    var ext := log + [v];
    forall i | 0 < i < |ext|
      ensures ext[i - 1] != ext[i]
    {
      if i < |log| {
        assert ext[i - 1] == log[i - 1] && ext[i] == log[i];
      }
    }
  }
}
