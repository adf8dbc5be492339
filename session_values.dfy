/** The comparison reconciliation uses to decide whether a property of a component changed:
    components compare by identity (up to reconciliation), lists element-wise, everything
    else by equality. */
module SessionValues {

  type Id = nat

  /** A property value: a plain value, a reference to a component, or a list. */
  datatype Value = Plain(v: int) | ComponentRef(id: Id) | Items(items: seq<Value>)

  /** `values_equal`. `reconciledNewToOld` maps each reconciled new component to the old
      component it was merged into. */
  function ValuesEqual(oldValue: Value, newValue: Value, reconciledNewToOld: map<Id, Id>): (r: bool)
    ensures newValue.Items? && (!oldValue.Items? || |oldValue.items| != |newValue.items|) ==> !r
    ensures newValue.Items? && oldValue.Items? && |oldValue.items| == |newValue.items| ==>
              (r <==> forall i :: 0 <= i < |newValue.items| ==> ValuesEqual(oldValue.items[i], newValue.items[i], reconciledNewToOld))
    ensures newValue.ComponentRef? ==>
              (r <==> oldValue.ComponentRef? && (oldValue.id == newValue.id ||
                       (newValue.id in reconciledNewToOld && reconciledNewToOld[newValue.id] == oldValue.id)))
    decreases newValue
  {
    match newValue
    case ComponentRef(n) =>
      if oldValue == ComponentRef(n) then true
      else if n !in reconciledNewToOld then false
      else oldValue == ComponentRef(reconciledNewToOld[n])
    case Items(newItems) =>
      oldValue.Items? && |oldValue.items| == |newItems| &&
      forall i :: 0 <= i < |newItems| ==> ValuesEqual(oldValue.items[i], newItems[i], reconciledNewToOld)
    case Plain(_) =>
      oldValue == newValue
  }

  /** Every value equals itself, whatever has been reconciled. */
  lemma {:induction false} ValuesEqualReflexive(v: Value, reconciledNewToOld: map<Id, Id>)
    ensures ValuesEqual(v, v, reconciledNewToOld)
    decreases v
  {
    match v
    case Items(items) =>
      forall i | 0 <= i < |items|
        ensures ValuesEqual(items[i], items[i], reconciledNewToOld)
      {
        ValuesEqualReflexive(items[i], reconciledNewToOld);
      }
    case _ =>
  }

  /** With nothing reconciled, `values_equal` is plain structural equality. */
  lemma {:induction false} ValuesEqualWithoutReconciliation(oldValue: Value, newValue: Value)
    ensures ValuesEqual(oldValue, newValue, map[]) <==> oldValue == newValue
    decreases newValue
  {
    match newValue
    case Items(newItems) =>
      if oldValue.Items? && |oldValue.items| == |newItems| {
        forall i | 0 <= i < |newItems|
          ensures ValuesEqual(oldValue.items[i], newItems[i], map[]) <==> oldValue.items[i] == newItems[i]
        {
          ValuesEqualWithoutReconciliation(oldValue.items[i], newItems[i]);
        }
        if forall i :: 0 <= i < |newItems| ==> oldValue.items[i] == newItems[i] {
          assert oldValue.items == newItems;
        }
      }
    case _ =>
  }
}
