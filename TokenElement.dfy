/** A value in transit together with its array position and the ordering
    used to compare it (TokenElement.java). */
module Token {
  import opened Java

  /** `Comparator.compare` and `Comparable.compareTo`: negative, zero or
      positive as the first argument orders below, with or above the second.
      The queue never sees their code, so they are parameters. */
  type Comparator<!E> = (E, E) -> int32

  /** The ordering a token uses: its comparator if it has one, otherwise the
      elements' natural ordering `compareTo`. */
  function Ordering<E>(comparator: Option<Comparator<E>>, compareTo: Comparator<E>): Comparator<E>
  {
    match comparator
    case Some(compare) => compare
    case None => compareTo
  }

  /** Every element compares equal to itself. */
  ghost predicate ConsistentOnSelf<E(!new)>(compare: Comparator<E>)
  {
    forall x :: compare(x, x) == 0
  }

  /** The sign rule of the Comparator contract:
      sgn(compare(x, y)) == -sgn(compare(y, x)). */
  ghost predicate SignAntisymmetric<E(!new)>(compare: Comparator<E>)
  {
    forall x, y :: compare(x, y) > 0 <==> compare(y, x) < 0
  }

  class TokenElement<E(==)> {
    var value: E
    var position: int32
    var comparator: Option<Comparator<E>>
    var isCompleted: bool

    constructor (value: E, position: int32, comparator: Option<Comparator<E>>)
      ensures GetValue() == value && GetPosition() == position
      ensures this.comparator == comparator && !isCompleted
    {
      this.value := value;
      this.position := position;
      this.comparator := comparator;
      this.isCompleted := false;
    }

    function GetValue(): E
      reads this
    {
      value
    }

    method SetValue(value: E)
      modifies this
      ensures GetValue() == value
      ensures position == old(position) && comparator == old(comparator)
      ensures isCompleted == old(isCompleted)
    {
      this.value := value;
    }

    function GetPosition(): int32
      reads this
    {
      position
    }

    method SetPosition(position: int32)
      modifies this
      ensures GetPosition() == position
      ensures value == old(value) && comparator == old(comparator)
      ensures isCompleted == old(isCompleted)
    {
      this.position := position;
    }

    /** `isGreaterThan(o)`: whether `o` orders strictly above this token's
        value, by the comparator when there is one and by `o.compareTo`
        otherwise. */
    function IsGreaterThan(o: E, compareTo: Comparator<E>): (r: bool)
      reads this
      ensures comparator.Some? ==> (r <==> comparator.value(o, value) > 0)
      ensures comparator.None? ==> (r <==> compareTo(o, value) > 0)
    {
      var result :=
        if comparator.Some? then comparator.value(o, value) else compareTo(o, value);
      result > 0
    }

    /** `equals`: the same object, or another token with the same position,
        value and completion flag; the comparators are not compared. */
    predicate Equals(o: TokenElement?<E>)
      reads this, o
      ensures Equals(o) <==>
        o != null && (position, value, isCompleted) == (o.position, o.value, o.isCompleted)
    {
      this == o ||
      (o != null && position == o.position && value == o.value && isCompleted == o.isCompleted)
    }
  }

  /** The test is strict: under an ordering where every value compares equal
      to itself, a token's own value is never greater than it. */
  lemma IsGreaterThanIrreflexive<E(!new)>(t: TokenElement<E>, compareTo: Comparator<E>)
    requires ConsistentOnSelf(Ordering(t.comparator, compareTo))
    ensures !t.IsGreaterThan(t.GetValue(), compareTo)
  {
    assert Ordering(t.comparator, compareTo)(t.value, t.value) == 0;
  }

  /** Under a sign-antisymmetric ordering, of two tokens that share it at
      most one finds the other's value greater. */
  lemma IsGreaterThanAsymmetric<E(!new)>(a: TokenElement<E>, b: TokenElement<E>, compareTo: Comparator<E>)
    requires a.comparator == b.comparator
    requires SignAntisymmetric(Ordering(a.comparator, compareTo))
    ensures a.IsGreaterThan(b.GetValue(), compareTo) ==> !b.IsGreaterThan(a.GetValue(), compareTo)
  {
    var compare := Ordering(a.comparator, compareTo);
    assert compare(b.value, a.value) > 0 ==> compare(a.value, b.value) < 0;
  }

  /** Two tokens that differ at most in their comparators are equal. */
  lemma EqualsIgnoresComparator<E>(a: TokenElement<E>, b: TokenElement<E>)
    requires a.position == b.position && a.value == b.value
    requires a.isCompleted == b.isCompleted
    ensures a.Equals(b)
  {
  }
}
