/** Conversions between the number of slots of a binary tree stored in an
    array and its number of levels (BinaryTreeUtils.java). The source computes
    them with `Math.log`, `Math.ceil` and `Math.pow` on doubles; this module
    states their exact integer meaning, including what Java's `int` casts and
    `int` overflow make of the edge cases. */
module BinaryTreeUtils {
  import opened Java

  function Pow2(h: nat): (r: nat)
    ensures r >= 1
  {
    if h == 0 then 1 else 2 * Pow2(h - 1)
  }

  lemma {:induction false} Pow2Monotone(a: nat, b: nat)
    requires a <= b
    ensures Pow2(a) <= Pow2(b)
    decreases b
  {
    if a < b {
      Pow2Monotone(a, b - 1);
    }
  }

  lemma Pow2Of30And31()
    ensures Pow2(30) == 0x4000_0000
    ensures Pow2(31) == 0x8000_0000
  {
    assert Pow2(1) == 2;
    assert Pow2(2) == 4;
    assert Pow2(3) == 8;
    assert Pow2(4) == 16;
    assert Pow2(5) == 32;
    assert Pow2(6) == 64;
    assert Pow2(7) == 128;
    assert Pow2(8) == 256;
    assert Pow2(9) == 512;
    assert Pow2(10) == 1024;
    assert Pow2(11) == 2048;
    assert Pow2(12) == 4096;
    assert Pow2(13) == 8192;
    assert Pow2(14) == 16384;
    assert Pow2(15) == 32768;
    assert Pow2(16) == 65536;
    assert Pow2(17) == 131072;
    assert Pow2(18) == 262144;
    assert Pow2(19) == 524288;
    assert Pow2(20) == 1048576;
    assert Pow2(21) == 2097152;
    assert Pow2(22) == 4194304;
    assert Pow2(23) == 8388608;
    assert Pow2(24) == 16777216;
    assert Pow2(25) == 33554432;
    assert Pow2(26) == 67108864;
    assert Pow2(27) == 134217728;
    assert Pow2(28) == 268435456;
    assert Pow2(29) == 536870912;
    assert Pow2(30) == 1073741824;
    assert Pow2(31) == 2147483648;
  }

  /** The number of binary digits of `n`: the least `h` with `n < 2^h`. */
  function BitLength(n: nat): (h: nat)
    ensures n < Pow2(h)
    ensures h == 0 || Pow2(h - 1) <= n
  {
    if n == 0 then 0 else 1 + BitLength(n / 2)
  }

  /** The two bounds of BitLength determine it. */
  lemma BitLengthUnique(n: nat, h: nat)
    requires n < Pow2(h)
    requires h == 0 || Pow2(h - 1) <= n
    ensures BitLength(n) == h
  {
    var b := BitLength(n);
    if b < h {
      Pow2Monotone(b, h - 1);
    } else if h < b {
      Pow2Monotone(h, b - 1);
    }
  }

  lemma {:induction false} BitLengthMonotone(a: nat, b: nat)
    requires a <= b
    ensures BitLength(a) <= BitLength(b)
    decreases b
  {
    if a > 0 {
      BitLengthMonotone(a / 2, b / 2);
    }
  }

  /** Numbers below 2^31 have at most 31 binary digits. */
  lemma BitLengthOfInt(n: nat)
    requires n <= INT_MAX
    ensures BitLength(n) <= 31
  {
    Pow2Of30And31();
    BitLengthUnique(INT_MAX, 31);
    BitLengthMonotone(n, INT_MAX);
  }

  /** `convertSizeToNumLevels`: the number of levels of the smallest perfect
      binary tree that has room for `size` slots, ceil(log2(size + 1)). The
      sum `size + 1` is an `int` sum: at `Integer.MAX_VALUE` it wraps to a
      negative number, whose logarithm is NaN, which the cast turns into 0;
      at `size == -1` the logarithm of 0 is -Infinity, which the cast turns
      into `Integer.MIN_VALUE`. */
  function ConvertSizeToNumLevels(size: int32): (levels: int32)
    ensures 0 <= size as int < INT_MAX ==>
      && 0 <= levels
      && size as int <= Pow2(levels as nat) - 1
      && (levels == 0 || Pow2(levels as nat - 1) - 1 < size as int)
    ensures size as int == INT_MAX ==> levels == 0
    ensures size == -1 ==> levels as int == INT_MIN
    ensures size < -1 ==> levels == 0
  {
    var sizePlusOne := Wrap(size as int + 1);
    if sizePlusOne < 0 then 0
    else if sizePlusOne == 0 then INT_MIN as int32
    else
      BitLengthOfInt(size as nat);
      BitLength(size as nat) as int32
  }

  /** `convertNumLevelsToSize`: the number of slots of a perfect binary tree
      with `levels` levels, 2^levels - 1; from 31 levels on the double is at
      least `Integer.MAX_VALUE` and the cast saturates there. For negative
      levels the double lies in (-1, 0): from -1 down to -53 it is exact and
      the cast truncates it to 0; from -54 on, 1 - 2^levels rounds to 1.0
      and the cast gives -1. */
  function ConvertNumLevelsToSize(levels: int32): (size: int32)
    ensures 0 <= levels <= 30 ==> size as int == Pow2(levels as nat) - 1
    ensures levels >= 31 ==> size as int == INT_MAX
    ensures -53 <= levels < 0 ==> size == 0
    ensures levels < -53 ==> size == -1
  {
    if levels < -53 then -1
    else if levels < 0 then 0
    else if levels >= 31 then INT_MAX as int32
    else
      Pow2Monotone(levels as nat, 30);
      Pow2Of30And31();
      (Pow2(levels as nat) - 1) as int32
  }

  /** `findLevel`: 1 for every index up to 0, otherwise the 1-based level of
      `index` when the root is numbered 1, floor(log2 index) + 1. */
  function FindLevel(index: int32): (level: int32)
    ensures index <= 0 ==> level == 1
    ensures index >= 1 ==>
      && 1 <= level <= 31
      && Pow2(level as nat - 1) <= index as int < Pow2(level as nat)
  {
    if index <= 0 then 1
    else
      BitLengthOfInt(index as nat);
      BitLength(index as nat) as int32
  }

  /** A perfect tree of 2^h - 1 slots reports h levels, not h + 1. */
  lemma SizeToNumLevelsRoundTrip(h: int32)
    requires 0 <= h <= 30
    ensures ConvertSizeToNumLevels(ConvertNumLevelsToSize(h)) == h
  {
    var size := ConvertNumLevelsToSize(h);
    assert size as int == Pow2(h as nat) - 1;
    Pow2Monotone(h as nat, 30);
    Pow2Of30And31();
    assert 0 <= size as int < INT_MAX;
    BitLengthUnique(size as nat, h as nat);
    assert ConvertSizeToNumLevels(size) as int == BitLength(size as nat);
  }

  /** At 31 levels the round trip breaks: the size is `Integer.MAX_VALUE`,
      and `size + 1` overflows. */
  lemma SizeToNumLevelsRoundTripOverflows()
    ensures ConvertNumLevelsToSize(31) as int == INT_MAX
    ensures ConvertSizeToNumLevels(ConvertNumLevelsToSize(31)) == 0
  {
  }

  /** The tree with ConvertSizeToNumLevels(size) levels holds `size` slots. */
  lemma NumLevelsHoldSize(size: int32)
    requires 0 <= size as int < INT_MAX
    ensures ConvertSizeToNumLevels(size) >= 0
    ensures ConvertNumLevelsToSize(ConvertSizeToNumLevels(size)) >= size
  {
  }

  lemma SizeToNumLevelsMonotone(a: int32, b: int32)
    requires 0 <= a <= b
    requires b as int < INT_MAX
    ensures ConvertSizeToNumLevels(a) <= ConvertSizeToNumLevels(b)
  {
    BitLengthMonotone(a as nat, b as nat);
  }

  /** Monotonicity ends at the top of the `int` range: one slot short of
      `Integer.MAX_VALUE` needs 31 levels, `Integer.MAX_VALUE` itself gets 0. */
  lemma SizeToNumLevelsDropsAtMax()
    ensures ConvertSizeToNumLevels((INT_MAX - 1) as int32) == 31
    ensures ConvertSizeToNumLevels(INT_MAX as int32) == 0
  {
    Pow2Of30And31();
    BitLengthUnique(INT_MAX - 1, 31);
  }

  /** The indices 2^k .. 2^(k+1) - 1 share level k + 1. */
  lemma FindLevelOfBlock(k: nat, index: int32)
    requires Pow2(k) <= index as int < Pow2(k + 1)
    ensures FindLevel(index) as int == k + 1
  {
    BitLengthUnique(index as nat, k + 1);
  }

  /** Given a slot's 1-based position `p`, FindLevel numbers its level: the
      slots at 0-based array indices 2(p-1)+1 and 2(p-1)+2, the children of
      the slot at index p - 1, have 1-based positions 2p and 2p + 1, one level
      further down. */
  lemma FindLevelOfChildren(p: int32)
    requires 1 <= p
    requires 2 * p as int + 1 <= INT_MAX
    ensures FindLevel(2 * p) == FindLevel(p) + 1
    ensures FindLevel(2 * p + 1) == FindLevel(p) + 1
  {
    var q: nat := p as nat;
    assert (2 * q) / 2 == q && (2 * q + 1) / 2 == q;
    assert BitLength(2 * q) == 1 + BitLength(q);
    assert BitLength(2 * q + 1) == 1 + BitLength(q);
  }
}
