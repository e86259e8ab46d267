# Pipelined priority queue: the slot tree underneath

This project models the array-backed binary-tree machinery of the Java
`PipelinedPriorityQueue` (package `threadsafepq`) and proves properties of it.
The queue keeps its slots in `binaryArray`, a binary tree laid out in an
array, where the children of index i sit at 2i + 1 and 2i + 2. It keeps one
token per tree level in `tokenArray`, and it holds an optional comparator.
The modelled parts are the following.

- The four constructors. They check their arguments and size the two arrays.
- `init`. It allocates the arrays and runs the post-order initialisation
  `traverse` and `initTokenArray`.
- The child-index arithmetic and the bounds-checked child lookups.
- `checkCapacity`. It moves every slot into an array twice as long and
  doubles each slot's capacity.
- `BinaryTreeUtils`. It converts between tree sizes and level counts and
  computes the level of an index. It is stated as exact integer functions.
- The records `BinaryArrayElement` (a slot), `TokenArrayElement` (a level
  token, with its `Operation` enum) and `TokenElement` (a value with its
  ordering and its `isGreaterThan` test).

Modules:

| module | file | models |
|---|---|---|
| `Java` | `Java.dfy` | `int` as `int32`, wrap-around, `null` as `Option`, exceptions as outcomes |
| `BinaryTreeUtils` | `BinaryTreeUtils.dfy` | `BinaryTreeUtils.java` |
| `HeapSlot` | `BinaryArrayElement.dfy` | `BinaryArrayElement.java` |
| `LevelToken` | `TokenArrayElement.dfy` | `TokenArrayElement.java` |
| `Token` | `TokenElement.dfy` | `TokenElement.java` |
| `HeapLayout` | `HeapLayout.dfy` | the indices `traverse` visits and how it ends, as functions |
| `CapacityCheck` | `CapacityCheck.dfy` | what `checkCapacity` does to the slots, as functions on values |
| `PipelinedHeap` | `PipelinedPriorityQueue.dfy` | the queue class itself |

Java exceptions are modelled as results, not as preconditions.

- A constructor returns `Result`: `Err(IllegalArgumentException(message))`
  with the source's exact message, or `Err(NullPointerException)`.
- `checkCapacity` returns `Outcome`: it completes or it throws.
- `traverse` returns `InitOutcome`: it completes, or it throws
  NullPointerException at a node with a missing child.

The model keeps two defects of the code as written.

- **`traverse` never completes.** Its guards let the recursion go down the
  left children as long as the index is at most the array length. The node
  where that walk stops has no left child, because its left index is past
  the end. So `getLeft(i).getCapacity()` throws NullPointerException there
  (`TraverseNeverCompletes`). Every constructor that gets past its argument
  checks therefore throws NullPointerException. No token is created.
- **`checkCapacity` dereferences every slot.** A `null` slot throws
  NullPointerException. The slots before it have already had their
  capacities doubled, and the field keeps the old array. After a successful
  resize, index 0 of the new array is `null`, so the next `checkCapacity`
  throws (`CheckAfterResizeThrows`).

`BinaryTreeUtils.findLevel` counts levels over 1-based positions. With the
queue's 0-based indices it gives index 1, the root's left child, level 1,
the same as the root, and index 2 level 2. The model states the level over
positions as the code computes it (`FindLevel`, `FindLevelOfBlock`).

Line 79 of `PipelinedPriorityQueue.java` calls a three-argument
`BinaryArrayElement` constructor that the class does not declare. The model
builds what the call evidently means: the default slot, then `SetCapacity`
with the computed capacity (`BuildNode`).

## Model

| member | source | states |
|---|---|---|
| Java.WrapAgreesModulo | src/main/java/threadsafepq/PipelinedPriorityQueue.java:151 | The `int` that an overflowing sum or product yields differs from the exact result by a multiple of 2^32. |
| BinaryTreeUtils.ConvertSizeToNumLevels | src/main/java/threadsafepq/BinaryTreeUtils.java:8-10 | For 0 <= size < Integer.MAX_VALUE, the result is the least h >= 0 with size <= 2^h - 1. At Integer.MAX_VALUE, `size + 1` wraps and the result is 0. At -1 the result is Integer.MIN_VALUE. Below -1 the result is 0. |
| BinaryTreeUtils.ConvertNumLevelsToSize | src/main/java/threadsafepq/BinaryTreeUtils.java:12-14 | For levels 0 to 30 the result is 2^levels - 1. From 31 levels on it saturates at Integer.MAX_VALUE. Levels -1 to -53 give 0, because the double lies in (-1, 0) and the cast truncates toward zero. From -54 on, the double rounds to -1.0 and the result is -1. |
| BinaryTreeUtils.FindLevel | src/main/java/threadsafepq/BinaryTreeUtils.java:16-19 | The result is 1 for every index <= 0. Otherwise it is the level with 2^(level-1) <= index < 2^level, between 1 and 31. |
| BinaryTreeUtils.SizeToNumLevelsRoundTrip | src/main/java/threadsafepq/BinaryTreeUtils.java:8-14 | A perfect tree of 2^h - 1 slots reports h levels, for h up to 30. |
| BinaryTreeUtils.SizeToNumLevelsRoundTripOverflows | src/main/java/threadsafepq/BinaryTreeUtils.java:8-14 | At 31 levels the round trip fails: the size is Integer.MAX_VALUE and it converts back to 0 levels. |
| BinaryTreeUtils.NumLevelsHoldSize | src/main/java/threadsafepq/BinaryTreeUtils.java:8-14 | For 0 <= size < Integer.MAX_VALUE, a tree with `convertSizeToNumLevels(size)` levels has room for `size` slots. |
| BinaryTreeUtils.SizeToNumLevelsMonotone | src/main/java/threadsafepq/BinaryTreeUtils.java:8-10 | For 0 <= size < Integer.MAX_VALUE, the level count never decreases as the size grows. |
| BinaryTreeUtils.SizeToNumLevelsDropsAtMax | src/main/java/threadsafepq/BinaryTreeUtils.java:8-10 | The level count is not monotone up to Integer.MAX_VALUE: Integer.MAX_VALUE - 1 gives 31 levels and Integer.MAX_VALUE gives 0. |
| BinaryTreeUtils.FindLevelOfBlock | src/main/java/threadsafepq/BinaryTreeUtils.java:16-19 | The indices 2^k to 2^(k+1) - 1 all have level k + 1. |
| BinaryTreeUtils.FindLevelOfChildren | src/main/java/threadsafepq/BinaryTreeUtils.java:16-19 | The positions 2p and 2p + 1 of a slot's children are one level below position p. |
| HeapSlot.BinaryArrayElement.constructor | src/main/java/threadsafepq/BinaryArrayElement.java:9-13 | A slot made by the implicit constructor is inactive, has a `null` value and has capacity 0. |
| HeapSlot.BinaryArrayElement.SetActive | src/main/java/threadsafepq/BinaryArrayElement.java:19-21 | `isActive()` returns the value set. The value and the capacity are unchanged. |
| HeapSlot.BinaryArrayElement.SetValue | src/main/java/threadsafepq/BinaryArrayElement.java:27-29 | `getValue()` returns the value set. The flag and the capacity are unchanged. |
| HeapSlot.BinaryArrayElement.SetCapacity | src/main/java/threadsafepq/BinaryArrayElement.java:35-37 | `getCapacity()` returns the value set. The flag and the value are unchanged. |
| HeapSlot.BinaryArrayElement.Equals | src/main/java/threadsafepq/BinaryArrayElement.java:39-51 | Two slots are equal iff the other is not `null` and the flag, capacity and value are all equal. |
| HeapSlot.EqualsReflexive | src/main/java/threadsafepq/BinaryArrayElement.java:39-51 | Every slot equals itself. |
| HeapSlot.EqualsSymmetric | src/main/java/threadsafepq/BinaryArrayElement.java:39-51 | Slot equality is symmetric. |
| LevelToken.OperationHasFourCases | src/main/java/threadsafepq/TokenArrayElement.java:21-26 | `Operation` has exactly the four cases ENQUEUE, DEQUEUE, ENQUEUE_DEQUEUE and NO_OPERATION. |
| LevelToken.TokenArrayElement.constructor | src/main/java/threadsafepq/TokenArrayElement.java:15-19 | The token stores the operation, value and position exactly as given. |
| LevelToken.TokenArrayElement.SetOperation | src/main/java/threadsafepq/TokenArrayElement.java:32-34 | `getOperation()` returns the operation set. The value and position are unchanged. |
| LevelToken.TokenArrayElement.SetValue | src/main/java/threadsafepq/TokenArrayElement.java:40-42 | `getValue()` returns the value set. The operation and position are unchanged. |
| LevelToken.TokenArrayElement.SetPosition | src/main/java/threadsafepq/TokenArrayElement.java:48-50 | `getPosition()` returns the position set. The operation and value are unchanged. |
| LevelToken.TokenArrayElement.Equals | src/main/java/threadsafepq/TokenArrayElement.java:52-64 | Two tokens are equal iff the other is not `null` and the position, operation and value are all equal. |
| LevelToken.EqualsReflexive | src/main/java/threadsafepq/TokenArrayElement.java:52-64 | Every token equals itself. |
| LevelToken.EqualsSymmetric | src/main/java/threadsafepq/TokenArrayElement.java:52-64 | Token equality is symmetric. |
| Token.TokenElement.constructor | src/main/java/threadsafepq/TokenElement.java:19-25 | The token stores value, position and comparator, and `isCompleted` starts false. |
| Token.TokenElement.SetValue | src/main/java/threadsafepq/TokenElement.java:31-33 | `getValue()` returns the value set. Position, comparator and `isCompleted` are unchanged. |
| Token.TokenElement.SetPosition | src/main/java/threadsafepq/TokenElement.java:39-41 | `getPosition()` returns the position set. Value, comparator and `isCompleted` are unchanged. |
| Token.TokenElement.IsGreaterThan | src/main/java/threadsafepq/TokenElement.java:43-52 | With a comparator, `o` is greater iff compare(o, value) > 0. Without one, it is greater iff o.compareTo(value) > 0. |
| Token.TokenElement.Equals | src/main/java/threadsafepq/TokenElement.java:54-66 | Two tokens are equal iff the other is not `null` and position, value and `isCompleted` are equal. The comparators are not compared. |
| Token.IsGreaterThanIrreflexive | src/main/java/threadsafepq/TokenElement.java:51 | Under an ordering where every value compares equal to itself, a token's own value is not greater than it. |
| Token.IsGreaterThanAsymmetric | src/main/java/threadsafepq/TokenElement.java:43-52 | Under a sign-antisymmetric ordering, if a says b's value is greater, then b does not say a's value is greater. |
| Token.EqualsIgnoresComparator | src/main/java/threadsafepq/TokenElement.java:54-66 | Tokens that differ only in their comparators are equal. |
| HeapLayout.SiblingSubtreesApart | src/main/java/threadsafepq/PipelinedPriorityQueue.java:67-76 | The traversals of a node's two children visit disjoint sets of indices. |
| HeapLayout.RootSubtreeIsEverything | src/main/java/threadsafepq/PipelinedPriorityQueue.java:58-76 | `traverse(0)` visits every index up to the array length. |
| HeapLayout.VisitedFromOneChild | src/main/java/threadsafepq/PipelinedPriorityQueue.java:67-76 | Every index a node's traversal visits, other than the node itself, is visited from exactly one child. |
| HeapLayout.TraverseNeverCompletes | src/main/java/threadsafepq/PipelinedPriorityQueue.java:67-81 | `traverse(i)` throws NullPointerException at the node where the walk down the left children stops. |
| HeapLayout.FirstLeafIsVisited | src/main/java/threadsafepq/PipelinedPriorityQueue.java:68-71 | The node where the walk down the left children stops is visited, and its left child index is past the end of the array. |
| HeapLayout.RightSubtreeMissesFirstLeaf | src/main/java/threadsafepq/PipelinedPriorityQueue.java:67-76 | No node visited by the right child's traversal is the node where the walk down the left children stops. |
| CapacityCheck.Doubled | src/main/java/threadsafepq/PipelinedPriorityQueue.java:151 | Doubling keeps the flag and the value. The capacity is twice the old one whenever that fits in an `int`. |
| CapacityCheck.ResizedLayout | src/main/java/threadsafepq/PipelinedPriorityQueue.java:146-156 | The resized array is twice as long. Index 0 and every index after the last moved slot are empty. Index k + 1 holds old slot k, doubled. |
| CapacityCheck.NoResizeWhileRootHasRoom | src/main/java/threadsafepq/PipelinedPriorityQueue.java:145 | When the root's capacity is at least 1, `checkCapacity` completes and changes nothing. |
| CapacityCheck.ResizeShiftsAndDoubles | src/main/java/threadsafepq/PipelinedPriorityQueue.java:144-158 | When the root is full and no slot is `null`, the array doubles in length. The slot at k moves to k + 1, keeps its flag and value, and has its capacity doubled as an `int`. Index 0 and the new tail are empty. |
| CapacityCheck.NullSlotStopsTheCopy | src/main/java/threadsafepq/PipelinedPriorityQueue.java:150-152 | A `null` slot met in the copy throws NullPointerException. The slots before it are doubled, and the slots from it on are untouched. |
| CapacityCheck.CheckAfterResizeThrows | src/main/java/threadsafepq/PipelinedPriorityQueue.java:145-156 | After a resize the root is `null`, so the next `checkCapacity` throws NullPointerException. |
| PipelinedHeap.DefaultLevelsFitDefaultCapacity | src/main/java/threadsafepq/PipelinedPriorityQueue.java:15-16 | Eleven slots need four levels: `convertSizeToNumLevels(11) == 4`, the default level count. |
| PipelinedHeap.ShiftedStaysDistinct | src/main/java/threadsafepq/PipelinedPriorityQueue.java:149-154 | Moving every slot one place on into a longer, otherwise empty array keeps the slot objects at distinct indices. |
| PipelinedHeap.PipelinedPriorityQueue.Allocate | src/main/java/threadsafepq/PipelinedPriorityQueue.java:46-49 | The slot and token arrays are new, have the requested lengths and hold only `null`. The comparator is stored. |
| PipelinedHeap.PipelinedPriorityQueue.Init | src/main/java/threadsafepq/PipelinedPriorityQueue.java:46-51 | The arrays have the requested lengths and the comparator is stored. Initialisation throws NullPointerException at `FirstLeaf(0, capacity)`. Every slot and every token is still `null`. |
| PipelinedHeap.PipelinedPriorityQueue.InitInternalArrays | src/main/java/threadsafepq/PipelinedPriorityQueue.java:53-60 | The outcome is that of `traverse(0)`. If it completed, every slot is a new object and every token is new and idle. Otherwise both arrays are unchanged. |
| PipelinedHeap.PipelinedPriorityQueue.Traverse | src/main/java/threadsafepq/PipelinedPriorityQueue.java:67-81 | The outcome is the one `TraverseOutcome` predicts, and a node where it throws is a visited one. No index the traversal does not visit changes. A throw at the node where the walk down the left children stops leaves the whole array unchanged. If it completes, every visited index holds a new slot. |
| PipelinedHeap.PipelinedPriorityQueue.BuildNode | src/main/java/threadsafepq/PipelinedPriorityQueue.java:78-80 | Index i holds a new slot that is inactive and `null`-valued. Its capacity is the `int` sum of the children's capacities plus 2. No other index changes. |
| PipelinedHeap.PipelinedPriorityQueue.InitTokenArray | src/main/java/threadsafepq/PipelinedPriorityQueue.java:83-88 | Every token is a distinct new object with NO_OPERATION, a `null` value and position -1. |
| PipelinedHeap.PipelinedPriorityQueue.GetRoot | src/main/java/threadsafepq/PipelinedPriorityQueue.java:90-92 | The root is the slot at index 0. An empty slot array throws ArrayIndexOutOfBoundsException. |
| PipelinedHeap.PipelinedPriorityQueue.GetLeftIndex | src/main/java/threadsafepq/PipelinedPriorityQueue.java:110-112 | The left child index is odd, and its parent `(c - 1) / 2` is the given index. |
| PipelinedHeap.PipelinedPriorityQueue.GetRightIndex | src/main/java/threadsafepq/PipelinedPriorityQueue.java:114-116 | The right child index is even and positive, and its parent is the given index. |
| PipelinedHeap.PipelinedPriorityQueue.GetLeft | src/main/java/threadsafepq/PipelinedPriorityQueue.java:94-100 | The left child is absent iff its index is at or past the array length or the slot there is `null`. Otherwise it is that slot. |
| PipelinedHeap.PipelinedPriorityQueue.GetRight | src/main/java/threadsafepq/PipelinedPriorityQueue.java:102-108 | The right child is absent iff its index is at or past the array length or the slot there is `null`. Otherwise it is that slot. |
| PipelinedHeap.PipelinedPriorityQueue.CheckCapacity | src/main/java/threadsafepq/PipelinedPriorityQueue.java:144-158 | The outcome, and each slot afterwards, are `CheckCapacityEffect` of the slots before. An empty array throws ArrayIndexOutOfBoundsException. A `null` root throws NullPointerException. The slot objects stay at distinct indices. The token array and the comparator are unchanged. After a resize the array is new, twice as long, and holds old slot k at k + 1. |
| PipelinedHeap.PipelinedPriorityQueue.Grow | src/main/java/threadsafepq/PipelinedPriorityQueue.java:146-156 | The outcome and each slot afterwards are `Grown` of the slots before. The token array and the comparator are unchanged. |
| PipelinedHeap.PipelinedPriorityQueue.MoveDoubled | src/main/java/threadsafepq/PipelinedPriorityQueue.java:149-154 | The copy throws NullPointerException iff some slot is `null`. The slots before the first `null` have their capacities doubled, and the rest are untouched. On completion, index k + 1 of the new array holds old slot k, and index 0 and the tail are `null`. |
| PipelinedHeap.PipelinedPriorityQueue.Create | src/main/java/threadsafepq/PipelinedPriorityQueue.java:22-24 | The default constructor throws NullPointerException. |
| PipelinedHeap.PipelinedPriorityQueue.CreateFromCollection | src/main/java/threadsafepq/PipelinedPriorityQueue.java:26-31 | A `null` collection throws IllegalArgumentException("Input collection cannot be null"). Any other collection ends in NullPointerException. |
| PipelinedHeap.PipelinedPriorityQueue.CreateWithCapacity | src/main/java/threadsafepq/PipelinedPriorityQueue.java:33-37 | A capacity <= 0 throws IllegalArgumentException("Initial capacity must be greater than 0"). Any other capacity ends in NullPointerException. |
| PipelinedHeap.PipelinedPriorityQueue.CreateWithCapacityAndComparator | src/main/java/threadsafepq/PipelinedPriorityQueue.java:39-44 | The capacity is checked first, with the same message. Then a `null` comparator throws IllegalArgumentException("Input comparator cannot be null"). Otherwise the constructor ends in NullPointerException. |

## Left out

- The queue operations (`offer`, `poll`, `take`, `peek`, `size`, `iterator` and the rest) are stubs that return constants. `put` and the timed `offer` only call `checkCapacity`. No heap behaviour exists to model.
- Concurrency: the code takes no locks. The parallel tests and the benchmarks are about threads and timing.
- Floating point: `Math.log`, `Math.ceil` and `Math.pow` are modelled by their exact integer meaning. Rounding at powers of two is not modelled.
- `hashCode`, `toString` and `Serializable`: these are foreign library code with no logic of their own.
- HeapSlot.BinaryArrayElement.Equals: compares the values with equality on the element type. Java calls the element's `equals` (arrays element by element), so the model assumes that `equals` is an equivalence relation.
- LevelToken.TokenArrayElement.Equals: compares the values with equality on the element type, under the same assumption about the element's `equals`.
- Token.TokenElement.Equals: compares the values with equality on the element type, under the same assumption about the element's `equals`.
- HeapSlot.EqualsSymmetric: holds in Java only when the element's `equals` is symmetric, which the model assumes.
- LevelToken.EqualsSymmetric: holds in Java only when the element's `equals` is symmetric, which the model assumes.
- Concrete comparators and `Comparable` implementations are parameters. The contract assumptions the lemmas need (self-consistency, sign antisymmetry) are stated as predicates.
- Array indices and lengths are unbounded integers. The `int` overflow of `index * 2 + 1`, `binaryArray.length * 2` and `elementPos` is not modelled. Slot capacities do wrap as `int`.
- A `NegativeArraySizeException` in `init` cannot arise from the constructors: sizes and level counts passed to it are never negative, so `Init` takes them as naturals.
- PipelinedHeap.PipelinedPriorityQueue.CheckCapacity: requires that no slot object sits at two indices. With aliasing, the Java loop would double the same object twice; the model does not capture that.
- PipelinedHeap.PipelinedPriorityQueue.Traverse: when the traversal completes, it states only that each visited slot is a new object, not that each is built from its two children; what a written slot holds is `BuildNode`'s contract, and the traversal never completes anyway (`TraverseNeverCompletes`). A throw anywhere but at `FirstLeaf` is not said to leave the visited slots untouched; that throw is the only one that happens.
- `TokenElement`'s value is never `null` in the model. The `Comparable` cast on a `null` argument is not modelled.
- `initBinaryArray` is folded into `InitInternalArrays`. `traverse`, `getLeft` and `getRight` are static members over the slot array, and `getLeftIndex` and `getRightIndex` are static functions. The three statements at lines 78-80 are the helper `BuildNode`, and the copy loop is the helper `MoveDoubled`.
- `PipelinedPriorityQueue(Collection)` sizes the queue by the collection but never inserts its elements, so the model ignores them too.
