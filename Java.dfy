/** The parts of the Java platform the queue relies on: the 32-bit `int`
    with its two's-complement wrap-around, `null` as an absent value, and the
    run-time exceptions the queue's code can raise. */
module Java {

  /** Java's 32-bit signed `int`. */
  newtype int32 = x: int | -0x8000_0000 <= x < 0x8000_0000

  const INT_MIN: int := -0x8000_0000
  const INT_MAX: int := 0x7fff_ffff

  /** The `int` that Java's `+` and `*` produce for a mathematical result
      `x`: the value in range reached by adding or subtracting 2^32. */
  function Wrap(x: int): (r: int32)
    ensures INT_MIN <= x <= INT_MAX ==> r as int == x
    ensures INT_MAX < x <= INT_MAX + 0x1_0000_0000 ==> r as int == x - 0x1_0000_0000
    ensures INT_MIN - 0x1_0000_0000 <= x < INT_MIN ==> r as int == x + 0x1_0000_0000
    decreases if x > INT_MAX then x - INT_MAX else if x < INT_MIN then INT_MIN - x else 0
  {
    if x > INT_MAX then Wrap(x - 0x1_0000_0000)
    else if x < INT_MIN then Wrap(x + 0x1_0000_0000)
    else x as int32
  }

  /** `Wrap(x)` agrees with `x` modulo 2^32, so it is the two's-complement
      truncation of `x` to 32 bits. */
  lemma {:induction false} WrapAgreesModulo(x: int)
    ensures (x - Wrap(x) as int) % 0x1_0000_0000 == 0
    decreases if x > INT_MAX then x - INT_MAX else if x < INT_MIN then INT_MIN - x else 0
  {
    if x > INT_MAX {
      WrapAgreesModulo(x - 0x1_0000_0000);
    } else if x < INT_MIN {
      WrapAgreesModulo(x + 0x1_0000_0000);
    }
  }

  /** `Collection.size()`: the number of elements, or `Integer.MAX_VALUE`
      for a collection with more. */
  function SizeOf<T>(c: seq<T>): (n: int32)
    ensures 0 <= n
    ensures |c| <= INT_MAX ==> n as int == |c|
    ensures |c| > INT_MAX ==> n as int == INT_MAX
  {
    if |c| <= INT_MAX then |c| as int32 else INT_MAX as int32
  }

  /** A possibly-`null` value. */
  datatype Option<T> = None | Some(value: T)

  /** A Java call that either returns a value or throws. */
  datatype Result<T> = Ok(value: T) | Err(error: Exception)

  /** A Java call that returns nothing, or throws. */
  datatype Outcome = Completed | Threw(error: Exception)

  datatype Exception =
    | NullPointerException
    | ArrayIndexOutOfBoundsException
    | IllegalArgumentException(message: string)
}
