/**
 The reset detection of `setupResetObservable`: the latest status record
 (dirty, pristine) and the latest value record (valid, invalid, touched,
 untouched) of a form control are merged into one control state, and the
 merged state passes the filter when it agrees with the reset state
 `{dirty: false, pristine: true, touched: false, untouched: true}` on every
 key of that reset state. The stream plumbing around the filter is not modelled.
 */
module ResetFilter {

  /** What the status-changes stream is mapped to. */
  datatype StatusState = StatusState(dirty: bool, pristine: bool)

  /** What the value-changes stream is mapped to. */
  datatype ValueState = ValueState(valid: bool, invalid: bool, touched: bool, untouched: bool)

  /** The merged record `{...statusState, ...valueState}`. */
  datatype ControlState = ControlState(
    dirty: bool, pristine: bool,
    valid: bool, invalid: bool, touched: bool, untouched: bool)

  /** The keys of the reset state. */
  datatype Key = Dirty | Pristine | Touched | Untouched

  /** `Object.keys(resetState)`, in the order the object literal declares them. */
  const ResetKeys: seq<Key> := [Dirty, Pristine, Touched, Untouched]

  /** `resetState[key]`: the reset state expects true exactly for pristine and untouched. */
  function Expected(key: Key): (expected: bool)
    ensures expected <==> key == Pristine || key == Untouched
  {
    match key
    case Dirty => false
    case Pristine => true
    case Touched => false
    case Untouched => true
  }

  /** `controlState[key]`: each key reads its own flag, and the validity flags are never read. */
  function Get(cs: ControlState, key: Key): (flag: bool)
    ensures flag <==>
      (key == Dirty && cs.dirty) || (key == Pristine && cs.pristine) ||
      (key == Touched && cs.touched) || (key == Untouched && cs.untouched)
  {
    match key
    case Dirty => cs.dirty
    case Pristine => cs.pristine
    case Touched => cs.touched
    case Untouched => cs.untouched
  }

  /**
   The combining function of `combineLatest`: both records spread into one.
   The keys of the two records are disjoint, so each record can be read back
   unchanged from the merged one.
   */
  function Merge(status: StatusState, values: ValueState): (cs: ControlState)
    ensures StatusState(cs.dirty, cs.pristine) == status
    ensures ValueState(cs.valid, cs.invalid, cs.touched, cs.untouched) == values
  {
    ControlState(status.dirty, status.pristine, values.valid, values.invalid, values.touched, values.untouched)
  }

  /**
   The `reduce` over the keys: the running state becomes `false` once it is
   `false`, and otherwise becomes whether the control state agrees with the
   reset state on the current key.
   */
  function Reduce(cs: ControlState, keys: seq<Key>, state: bool): (result: bool)
    ensures result ==> state
    ensures keys == [] ==> result == state
    decreases |keys|
  {
    if keys == [] then state
    else Reduce(cs, keys[1..], if !state then false else Get(cs, keys[0]) == Expected(keys[0]))
  }

  /** The control state agrees with the reset state on every one of `keys`. */
  predicate AgreesOn(cs: ControlState, keys: seq<Key>)
  {
    forall i :: 0 <= i < |keys| ==> Get(cs, keys[i]) == Expected(keys[i])
  }

  /** The fold computes the conjunction of its seed with agreement on every key. */
  lemma {:induction false} ReduceIsConjunction(cs: ControlState, keys: seq<Key>, state: bool)
    ensures Reduce(cs, keys, state) <==> state && AgreesOn(cs, keys)
    decreases |keys|
  {
    if keys != [] {
      var next := if !state then false else Get(cs, keys[0]) == Expected(keys[0]);
      ReduceIsConjunction(cs, keys[1..], next);
      assert AgreesOn(cs, keys) <==> Get(cs, keys[0]) == Expected(keys[0]) && AgreesOn(cs, keys[1..]) by {
        if AgreesOn(cs, keys) {
          forall i | 0 <= i < |keys[1..]|
            ensures Get(cs, keys[1..][i]) == Expected(keys[1..][i])
          {
            assert keys[1..][i] == keys[i + 1];
          }
        }
        if Get(cs, keys[0]) == Expected(keys[0]) && AgreesOn(cs, keys[1..]) {
          forall i | 0 <= i < |keys|
            ensures Get(cs, keys[i]) == Expected(keys[i])
          {
            if i > 0 {
              assert keys[i] == keys[1..][i - 1];
            }
          }
        }
      }
    }
  }

  /**
   The filter predicate. It passes exactly on the control states that are not
   dirty, pristine, not touched and untouched; `valid` and `invalid` play no part.
   */
  function IsReset(cs: ControlState): (passes: bool)
    ensures passes <==> !cs.dirty && cs.pristine && !cs.touched && cs.untouched
  {
    ReduceIsConjunction(cs, ResetKeys, true);
    assert AgreesOn(cs, ResetKeys) <==> !cs.dirty && cs.pristine && !cs.touched && cs.untouched by {
      assert ResetKeys[0] == Dirty && ResetKeys[1] == Pristine;
      assert ResetKeys[2] == Touched && ResetKeys[3] == Untouched;
    }
    Reduce(cs, ResetKeys, true)
  }

  /** The validity flags never change whether the filter passes. */
  lemma IsResetIgnoresValidity(cs: ControlState, valid: bool, invalid: bool)
    ensures IsReset(cs.(valid := valid, invalid := invalid)) == IsReset(cs)
  {
  }

  /**
   The filter passes on the exact reset record, and fails as soon as any one
   of the four keys differs from it.
   */
  lemma ExactResetRecordOnly(cs: ControlState, key: Key)
    ensures IsReset(ControlState(false, true, cs.valid, cs.invalid, false, true))
    ensures Get(cs, key) != Expected(key) ==> !IsReset(cs)
  {
  }

  /**
   On a merged record the filter passes exactly when the status half is clean
   (not dirty, pristine) and the value half is untouched, whatever the validity.
   */
  lemma MergedIsReset(status: StatusState, values: ValueState)
    ensures IsReset(Merge(status, values)) <==>
      !status.dirty && status.pristine && !values.touched && values.untouched
  {
  }
}
