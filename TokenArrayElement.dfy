/** The per-level token of the slot array (TokenArrayElement.java): which
    operation is passing through the level, the value it carries, and the
    array position it is working on. */
module LevelToken {
  import opened Java

  /** The four operations a token can record; the Java enum has no others. */
  datatype Operation = Enqueue | Dequeue | EnqueueDequeue | NoOperation

  lemma OperationHasFourCases(op: Operation)
    ensures op in {Enqueue, Dequeue, EnqueueDequeue, NoOperation}
    ensures |{Enqueue, Dequeue, EnqueueDequeue, NoOperation}| == 4
  {
  }

  class TokenArrayElement<E(==)> {
    var operation: Operation
    var value: Option<E>
    var position: int32

    constructor (operation: Operation, value: Option<E>, position: int32)
      ensures GetOperation() == operation && GetValue() == value && GetPosition() == position
    {
      this.operation := operation;
      this.value := value;
      this.position := position;
    }

    function GetOperation(): Operation
      reads this
    {
      operation
    }

    method SetOperation(operation: Operation)
      modifies this
      ensures GetOperation() == operation
      ensures GetValue() == old(GetValue()) && GetPosition() == old(GetPosition())
    {
      this.operation := operation;
    }

    function GetValue(): Option<E>
      reads this
    {
      value
    }

    method SetValue(value: Option<E>)
      modifies this
      ensures GetValue() == value
      ensures GetOperation() == old(GetOperation()) && GetPosition() == old(GetPosition())
    {
      this.value := value;
    }

    function GetPosition(): int32
      reads this
    {
      position
    }

    method SetPosition(position: int32)
      modifies this
      ensures GetPosition() == position
      ensures GetOperation() == old(GetOperation()) && GetValue() == old(GetValue())
    {
      this.position := position;
    }

    /** `equals`: the same object, or another token with the same position,
        operation and value. */
    predicate Equals(o: TokenArrayElement?<E>)
      reads this, o
      ensures Equals(o) <==>
        o != null && (position, operation, value) == (o.position, o.operation, o.value)
    {
      this == o ||
      (o != null && position == o.position && operation == o.operation && value == o.value)
    }
  }

  lemma EqualsReflexive<E>(x: TokenArrayElement<E>)
    ensures x.Equals(x)
  {
  }

  lemma EqualsSymmetric<E>(x: TokenArrayElement<E>, y: TokenArrayElement<E>)
    ensures x.Equals(y) <==> y.Equals(x)
  {
  }
}
