/** One cell of the heap's slot array (BinaryArrayElement.java): whether it
    holds a live element, the element (or `null`), and the count of free
    slots the queue keeps for the subtree below it. */
module HeapSlot {
  import opened Java

  /** The value of a slot's three fields, which is what `equals` compares. */
  datatype SlotState<E> = SlotState(active: bool, value: Option<E>, capacity: int32)

  class BinaryArrayElement<E(==)> {
    var isActive: bool
    var value: Option<E>
    var capacity: int32

    /** The class declares no constructor, so Java gives it the no-argument
        one, which leaves every field at its default. */
    constructor ()
      ensures !IsActive() && GetValue() == None && GetCapacity() == 0
    {
      isActive := false;
      value := None;
      capacity := 0;
    }

    function IsActive(): bool
      reads this
    {
      isActive
    }

    method SetActive(active: bool)
      modifies this
      ensures IsActive() == active
      ensures GetValue() == old(GetValue()) && GetCapacity() == old(GetCapacity())
    {
      isActive := active;
    }

    function GetValue(): Option<E>
      reads this
    {
      value
    }

    method SetValue(value: Option<E>)
      modifies this
      ensures GetValue() == value
      ensures IsActive() == old(IsActive()) && GetCapacity() == old(GetCapacity())
    {
      this.value := value;
    }

    function GetCapacity(): int32
      reads this
    {
      capacity
    }

    method SetCapacity(capacity: int32)
      modifies this
      ensures GetCapacity() == capacity
      ensures IsActive() == old(IsActive()) && GetValue() == old(GetValue())
    {
      this.capacity := capacity;
    }

    function State(): SlotState<E>
      reads this
    {
      SlotState(isActive, value, capacity)
    }

    /** `equals`: the same object, or another slot whose three fields are
        equal field by field. */
    predicate Equals(o: BinaryArrayElement?<E>)
      reads this, o
      ensures Equals(o) <==> o != null && State() == o.State()
    {
      this == o ||
      (o != null && isActive == o.isActive && capacity == o.capacity && value == o.value)
    }
  }

  lemma EqualsReflexive<E>(x: BinaryArrayElement<E>)
    ensures x.Equals(x)
  {
  }

  lemma EqualsSymmetric<E>(x: BinaryArrayElement<E>, y: BinaryArrayElement<E>)
    ensures x.Equals(y) <==> y.Equals(x)
  {
  }
}
