/** The queue object of PipelinedPriorityQueue.java: a slot array laid out as
    a binary tree, one token per tree level, and an optional comparator; the
    constructors that build it, the post-order initialisation of the slots,
    the child lookups and the capacity check that doubles the slot array. */
module PipelinedHeap {
  import opened Java
  import opened BinaryTreeUtils
  import opened HeapSlot
  import opened LevelToken
  import opened Token
  import opened HeapLayout
  import opened CapacityCheck

  const DEFAULT_CAPACITY_NUM_ELEMENTS: int32 := 11
  const DEFAULT_CAPACITY_NUM_LEVELS: int32 := 4

  /** The two defaults agree: eleven slots make a tree of four levels. */
  lemma DefaultLevelsFitDefaultCapacity()
    ensures ConvertSizeToNumLevels(DEFAULT_CAPACITY_NUM_ELEMENTS) == DEFAULT_CAPACITY_NUM_LEVELS
  {
  }

  /** A slot reference seen as a value: `None` for `null`. */
  function StateOf<E>(x: BinaryArrayElement?<E>): (r: Option<SlotState<E>>)
    reads x
    ensures r.None? <==> x == null
    ensures x != null ==> r.value == x.State()
  {
    if x == null then None else Some(x.State())
  }

  /** The objects a sequence of slot references points to. */
  ghost function Referenced<E>(s: seq<BinaryArrayElement?<E>>): set<BinaryArrayElement<E>>
  {
    set k | 0 <= k < |s| && s[k] != null :: s[k]
  }

  /** A sequence of slot references seen as values, slot by slot. */
  ghost function ViewOf<E>(s: seq<BinaryArrayElement?<E>>): (v: seq<Option<SlotState<E>>>)
    reads Referenced(s)
    ensures |v| == |s|
    ensures forall k :: 0 <= k < |s| ==> v[k] == StateOf(s[k])
  {
    if s == [] then []
    else
      assert Referenced(s[..|s| - 1]) <= Referenced(s) by {
        forall x | x in Referenced(s[..|s| - 1]) ensures x in Referenced(s) {
          var k :| 0 <= k < |s| - 1 && s[..|s| - 1][k] == x;
          assert s[k] == x;
        }
      }
      ViewOf(s[..|s| - 1]) + [StateOf(s[|s| - 1])]
  }

  /** No slot object sits at two indices. */
  predicate DistinctRefs<E>(s: seq<BinaryArrayElement?<E>>)
  {
    forall j, k :: 0 <= j < k < |s| && s[j] != null ==> s[j] != s[k]
  }

  /** Moving every reference one place on into a longer sequence that is
      `null` elsewhere keeps the references apart. */
  lemma ShiftedStaysDistinct<E>(source: seq<BinaryArrayElement?<E>>, t: seq<BinaryArrayElement?<E>>)
    requires DistinctRefs(source)
    requires |t| == 2 * |source| && |source| >= 1 && t[0] == null
    requires forall j :: 0 <= j < |source| ==> t[j + 1] == source[j]
    requires forall j :: |source| < j < |t| ==> t[j] == null
    ensures DistinctRefs(t)
  {
    forall j, k | 0 <= j < k < |t| && t[j] != null
      ensures t[j] != t[k]
    {
      assert t[j] == source[j - 1];
      if k <= |source| {
        assert t[k] == source[k - 1];
      }
    }
  }

  /** Slot `node` as `traverse` builds it from the slots of its two
      children: inactive, empty, and counting the children's capacities
      plus the two child slots themselves. */
  predicate BuiltFrom<E>(node: BinaryArrayElement<E>, left: BinaryArrayElement<E>, right: BinaryArrayElement<E>)
    reads node, left, right
  {
    && !node.isActive && node.value == None
    && node.capacity == Wrap(left.capacity as int + right.capacity as int + 2)
  }

  /** A token as `initTokenArray` leaves it: no operation, no value, and
      position -1. */
  predicate Idle<E>(t: TokenArrayElement<E>)
    reads t
  {
    t.GetOperation() == NoOperation && t.GetValue() == None && t.GetPosition() == -1
  }

  class PipelinedPriorityQueue<E(==)> {
    var binaryArray: array<BinaryArrayElement?<E>>
    var tokenArray: array<TokenArrayElement?<E>>
    var comparator: Option<Comparator<E>>

    /** The slot objects the array refers to. */
    ghost function Slots(): set<BinaryArrayElement<E>>
      reads this, binaryArray
    {
      Referenced(binaryArray[..])
    }

    /** The slot array as values. */
    ghost function View(): seq<Option<SlotState<E>>>
      reads this, binaryArray, Slots()
    {
      ViewOf(binaryArray[..])
    }

    /** No slot object sits at two indices. */
    predicate SlotsDistinct()
      reads this, binaryArray
    {
      DistinctRefs(binaryArray[..])
    }

    /** The first half of `init`: fresh arrays of `null` references with the
        requested lengths, and the comparator stored. */
    constructor Allocate(capacity: nat, levels: nat, comparator: Option<Comparator<E>>)
      ensures fresh(binaryArray) && fresh(tokenArray)
      ensures binaryArray.Length == capacity && tokenArray.Length == levels
      ensures forall k :: 0 <= k < capacity ==> binaryArray[k] == null
      ensures forall k :: 0 <= k < levels ==> tokenArray[k] == null
      ensures this.comparator == comparator
    {
      binaryArray := new BinaryArrayElement?<E>[capacity](_ => null);
      tokenArray := new TokenArrayElement?<E>[levels](_ => null);
      this.comparator := comparator;
    }

    /** `init`: allocate the arrays, then initialise them. The initialisation
        always stops with NullPointerException at the node where the walk
        down the left children ends, before any token is created. */
    static method Init(capacity: nat, levels: nat, comparator: Option<Comparator<E>>)
      returns (q: PipelinedPriorityQueue<E>, r: InitOutcome)
      ensures fresh(q) && fresh(q.binaryArray) && fresh(q.tokenArray)
      ensures q.binaryArray.Length == capacity && q.tokenArray.Length == levels
      ensures q.comparator == comparator
      ensures r == MissingChild(FirstLeaf(0, capacity))
      ensures forall k :: 0 <= k < capacity ==> q.binaryArray[k] == null
      ensures forall k :: 0 <= k < levels ==> q.tokenArray[k] == null
    {
      q := new PipelinedPriorityQueue.Allocate(capacity, levels, comparator);
      r := q.InitInternalArrays();
      TraverseNeverCompletes(0, capacity);
    }

    /** `initInternalArrays` with `initBinaryArray` folded in: `traverse(0)`,
        then `initTokenArray` if the traversal completed. */
    method InitInternalArrays() returns (r: InitOutcome)
      modifies binaryArray, tokenArray
      ensures r == TraverseOutcome(0, binaryArray.Length)
      ensures r.Initialised? ==> forall j :: 0 <= j < binaryArray.Length ==>
        binaryArray[j] != null && fresh(binaryArray[j])
      ensures r.Initialised? ==> forall k :: 0 <= k < tokenArray.Length ==>
        tokenArray[k] != null && fresh(tokenArray[k]) && Idle(tokenArray[k])
      ensures !r.Initialised? ==> binaryArray[..] == old(binaryArray[..])
      ensures !r.Initialised? ==> tokenArray[..] == old(tokenArray[..])
    {
      r := Traverse(binaryArray, 0);
      if r.Initialised? {
        InitTokenArray();
        forall j | 0 <= j < binaryArray.Length
          ensures binaryArray[j] != null && fresh(binaryArray[j])
        {
          RootSubtreeIsEverything(binaryArray.Length, j);
          assert Visits(0, binaryArray.Length, j);
        }
      } else {
        TraverseNeverCompletes(0, binaryArray.Length);
      }
    }

    /** `traverse(i)`: initialise the subtree rooted at `i` in post-order,
        both children first, then `i` itself by `BuildNode`. It works on the
        slot array alone, which is passed in as `a`, and reads the children
        with `GetLeft` and `GetRight`. The result is the one
        `TraverseOutcome` predicts, and a node where it throws is one it
        visits; no index the call does not visit changes; a throw at the node
        where the walk down the left children stops leaves the whole array as
        it was; and when the traversal completes, every visited index holds a
        new slot. */
    static method Traverse(a: array<BinaryArrayElement?<E>>, i: nat) returns (r: InitOutcome)
      requires i <= a.Length
      modifies a
      ensures r == TraverseOutcome(i, a.Length)
      ensures r.MissingChild? ==> Visits(i, a.Length, r.node)
      ensures r == MissingChild(FirstLeaf(i, a.Length)) ==> unchanged(a)
      ensures forall j {:trigger Visits(i, a.Length, j)} ::
        0 <= j < a.Length && !Visits(i, a.Length, j) ==> a[j] == old(a[j])
      ensures r.Initialised? ==> forall j {:trigger Visits(i, a.Length, j)} ::
        0 <= j < a.Length && Visits(i, a.Length, j) ==> a[j] != null && fresh(a[j])
      decreases a.Length - i
    {
      ghost var n := a.Length;
      ChildVisitsInside(i, n);
      var leftChildIndex := GetLeftIndex(i);
      if leftChildIndex <= a.Length {
        r := Traverse(a, leftChildIndex);
        if !r.Initialised? {
          assert FirstLeaf(i, n) == FirstLeaf(leftChildIndex, n);
          return;
        }
      }
      var rightChildIndex := GetRightIndex(i);
      if rightChildIndex <= a.Length {
        r := Traverse(a, rightChildIndex);
        if !r.Initialised? {
          RightSubtreeMissesFirstLeaf(i, n, r.node);
          return;
        }
      }
      if leftChildIndex < n {
        assert Visits(leftChildIndex, n, leftChildIndex);
        if rightChildIndex <= n {
          SiblingSubtreesApart(i, n);
          assert !Visits(rightChildIndex, n, leftChildIndex);
        }
      }
      if rightChildIndex < n {
        assert Visits(rightChildIndex, n, rightChildIndex);
      }
      var left, right := GetLeft(a, i), GetRight(a, i);
      if left.None? || right.None? {
        return MissingChild(i);
      }
      BuildNode(a, i, left.value, right.value);
      r := Initialised;
      forall j | 0 <= j < n && Visits(i, n, j)
        ensures a[j] != null && fresh(a[j])
      {
        if j != i {
          VisitedFromOneChild(i, n, j);
        }
      }
    }

    /** The last three statements of `traverse(i)`: a new inactive, empty
        slot whose capacity counts the children's capacities and the two
        child slots, stored at `i`. */
    static method BuildNode(a: array<BinaryArrayElement?<E>>, i: nat,
                            left: BinaryArrayElement<E>, right: BinaryArrayElement<E>)
      requires i < a.Length
      modifies a
      ensures a[i] != null && fresh(a[i])
      ensures BuiltFrom(a[i], left, right)
      ensures forall j :: 0 <= j < a.Length && j != i ==> a[j] == old(a[j])
    {
      var capacity := Wrap(left.GetCapacity() as int + right.GetCapacity() as int + 2);
      var element := new BinaryArrayElement<E>();
      element.SetCapacity(capacity);
      a[i] := element;
    }

    /** `initTokenArray`: one new idle token per level. */
    method InitTokenArray()
      modifies tokenArray
      ensures forall k :: 0 <= k < tokenArray.Length ==>
        tokenArray[k] != null && fresh(tokenArray[k]) && Idle(tokenArray[k])
      ensures forall j, k :: 0 <= j < k < tokenArray.Length ==> tokenArray[j] != tokenArray[k]
    {
      for i := 0 to tokenArray.Length
        invariant forall k :: 0 <= k < i ==>
          tokenArray[k] != null && fresh(tokenArray[k]) && Idle(tokenArray[k])
        invariant forall j, k :: 0 <= j < k < i ==> tokenArray[j] != tokenArray[k]
      {
        var element := new TokenArrayElement<E>(NoOperation, None, -1);
        tokenArray[i] := element;
      }
    }

    /** `getRoot`: the slot at index 0, or ArrayIndexOutOfBoundsException
        when the slot array is empty. */
    function GetRoot(): (r: Result<BinaryArrayElement?<E>>)
      reads this, binaryArray
      ensures r.Err? <==> binaryArray.Length == 0
      ensures r.Err? ==> r.error == ArrayIndexOutOfBoundsException
      ensures r.Ok? ==> r.value == binaryArray[0]
    {
      if binaryArray.Length == 0 then Err(ArrayIndexOutOfBoundsException)
      else Ok(binaryArray[0])
    }

    /** `getLeftIndex`: the index whose parent `(c - 1) / 2` is `index` and
        which is odd, so it is the first of the two children. */
    static function GetLeftIndex(index: nat): (c: nat)
      ensures c % 2 == 1 && (c - 1) / 2 == index
    {
      index * 2 + 1
    }

    /** `getRightIndex`: the other child, even and positive. */
    static function GetRightIndex(index: nat): (c: nat)
      ensures c % 2 == 0 && c > 0 && (c - 1) / 2 == index
    {
      index * 2 + 2
    }

    /** `getLeft` on the slot array `a`: the left child's slot, or `null`
        when its index is past the end of the array or the slot there is
        `null`. */
    static function GetLeft(a: array<BinaryArrayElement?<E>>, index: nat): (r: Option<BinaryArrayElement<E>>)
      reads a
      ensures r.None? <==> GetLeftIndex(index) >= a.Length || a[GetLeftIndex(index)] == null
      ensures r.Some? ==> r.value == a[GetLeftIndex(index)]
    {
      var leftIndex := index * 2 + 1;
      if leftIndex >= a.Length then None
      else if a[leftIndex] == null then None
      else Some(a[leftIndex] as BinaryArrayElement<E>)
    }

    /** `getRight` on the slot array `a`: the right child's slot, or `null`
        likewise. */
    static function GetRight(a: array<BinaryArrayElement?<E>>, index: nat): (r: Option<BinaryArrayElement<E>>)
      reads a
      ensures r.None? <==> GetRightIndex(index) >= a.Length || a[GetRightIndex(index)] == null
      ensures r.Some? ==> r.value == a[GetRightIndex(index)]
    {
      var rightIndex := index * 2 + 2;
      if rightIndex >= a.Length then None
      else if a[rightIndex] == null then None
      else Some(a[rightIndex] as BinaryArrayElement<E>)
    }

    /** `checkCapacity`: when the root has no room left, move every slot one
        place on into an array twice as long, doubling each slot's capacity.
        Its effect on the slots, and what it throws, is `CheckCapacityEffect`
        of the slots before; the slot objects themselves move. */
    method CheckCapacity() returns (r: Outcome)
      requires SlotsDistinct()
      modifies this, Slots()
      ensures r == CheckCapacityEffect(old(View())).0
      ensures |CheckCapacityEffect(old(View())).1| == binaryArray.Length
      ensures forall j :: 0 <= j < binaryArray.Length ==>
        StateOf(binaryArray[j]) == CheckCapacityEffect(old(View())).1[j]
      ensures SlotsDistinct()
      ensures tokenArray == old(tokenArray) && comparator == old(comparator)
      ensures binaryArray == old(binaryArray) ==> binaryArray[..] == old(binaryArray[..])
      ensures binaryArray != old(binaryArray) ==>
        && fresh(binaryArray)
        && binaryArray.Length == 2 * old(binaryArray.Length)
        && forall k :: 0 <= k < old(binaryArray.Length) ==> binaryArray[k + 1] == old(binaryArray[k])
    {
      var root := GetRoot();
      if root.Err? {
        return Threw(root.error);
      }
      if root.value == null {
        return Threw(NullPointerException);
      }
      if root.value.GetCapacity() < 1 {
        ghost var s := View();
        r := Grow(s);
      } else {
        r := Completed;
      }
    }

    /** The body of `checkCapacity` once the root is found full: copy the
        slots, doubled, into an array twice as long, and install it. `s` is
        the slot array as values on entry. */
    method Grow(ghost s: seq<Option<SlotState<E>>>) returns (r: Outcome)
      requires |s| == binaryArray.Length >= 1 && SlotsDistinct()
      requires forall j :: 0 <= j < |s| ==> StateOf(binaryArray[j]) == s[j]
      modifies this, Slots()
      ensures r == Grown(s).0 && |Grown(s).1| == binaryArray.Length
      ensures forall j :: 0 <= j < binaryArray.Length ==> StateOf(binaryArray[j]) == Grown(s).1[j]
      ensures SlotsDistinct()
      ensures tokenArray == old(tokenArray) && comparator == old(comparator)
      ensures binaryArray == old(binaryArray) ==> binaryArray[..] == old(binaryArray[..])
      ensures binaryArray != old(binaryArray) ==>
        && fresh(binaryArray)
        && binaryArray.Length == 2 * old(binaryArray.Length)
        && forall k :: 0 <= k < old(binaryArray.Length) ==> binaryArray[k + 1] == old(binaryArray[k])
    {
      var newSize := binaryArray.Length * 2;
      var temp := new BinaryArrayElement?<E>[newSize](_ => null);
      r := MoveDoubled(binaryArray, temp, s);
      if r.Threw? {
        return;
      }
      ghost var source := binaryArray[..];
      binaryArray := temp;
      ShiftedStaysDistinct(source, temp[..]);
      ResizedLayout(s);
      forall j | 1 <= j <= |s|
        ensures StateOf(temp[j]) == Resized(s)[j]
      {
        assert StateOf(temp[(j - 1) + 1]) == Some(Doubled(s[j - 1].value));
      }
    }

    /** The copy loop of `checkCapacity`: each element of `source` in turn has
        its capacity doubled and is stored one index further on in `temp`.
        A `null` element throws NullPointerException when dereferenced, with
        the elements before it already doubled and moved. `s` is the value
        view of `source` on entry. */
    static method MoveDoubled(source: array<BinaryArrayElement?<E>>, temp: array<BinaryArrayElement?<E>>,
                              ghost s: seq<Option<SlotState<E>>>)
      returns (r: Outcome)
      requires source != temp && source.Length > 0 && temp.Length == 2 * source.Length
      requires forall j :: 0 <= j < temp.Length ==> temp[j] == null
      requires DistinctRefs(source[..])
      requires |s| == source.Length
      requires forall j :: 0 <= j < |s| ==> StateOf(source[j]) == s[j]
      modifies temp, Referenced(source[..])
      ensures r == (if FirstNull(s) < |s| then Threw(NullPointerException) else Completed)
      ensures forall j :: 0 <= j < FirstNull(s) ==>
        source[j] != null && source[j].State() == Doubled(s[j].value)
      ensures forall j :: FirstNull(s) <= j < |s| ==> StateOf(source[j]) == s[j]
      ensures r.Completed? ==> temp[0] == null
      ensures r.Completed? ==> forall j :: 0 <= j < |s| ==> temp[j + 1] == source[j]
      ensures r.Completed? ==> forall j :: 0 <= j < |s| ==> StateOf(temp[j + 1]) == Some(Doubled(s[j].value))
      ensures r.Completed? ==> forall j :: |s| < j < temp.Length ==> temp[j] == null
    {
      var elementPos := 1;
      for k := 0 to source.Length
        invariant elementPos == k + 1
        invariant forall j :: 0 <= j < k ==>
          source[j] != null && s[j].Some? && source[j].State() == Doubled(s[j].value)
        invariant forall j :: k <= j < |s| ==> StateOf(source[j]) == s[j]
        invariant temp[0] == null
        invariant forall j :: 0 <= j < k ==> temp[j + 1] == source[j]
        invariant forall j :: k < j < temp.Length ==> temp[j] == null
      {
        var e := source[k];
        if e == null {
          assert FirstNull(s) == k;
          return Threw(NullPointerException);
        }
        e.SetCapacity(Wrap(e.GetCapacity() as int * 2));
        temp[elementPos] := e;
        elementPos := elementPos + 1;
      }
      assert FirstNull(s) == |s|;
      r := Completed;
    }

    /** `PipelinedPriorityQueue()`: eleven slots in four levels and the
        natural ordering; the initialisation throws NullPointerException. */
    static method Create() returns (r: Result<PipelinedPriorityQueue<E>>)
      ensures r == Err(NullPointerException)
    {
      var q, outcome := Init(DEFAULT_CAPACITY_NUM_ELEMENTS as nat, DEFAULT_CAPACITY_NUM_LEVELS as nat, None);
      r := if outcome.Initialised? then Ok(q) else Err(NullPointerException);
    }

    /** `PipelinedPriorityQueue(Collection)`: a `null` collection is refused;
        otherwise the queue is sized by the collection (whose elements are
        not inserted) and the initialisation throws NullPointerException. */
    static method CreateFromCollection(c: Option<seq<E>>) returns (r: Result<PipelinedPriorityQueue<E>>)
      ensures c.None? ==> r == Err(IllegalArgumentException("Input collection cannot be null"))
      ensures c.Some? ==> r == Err(NullPointerException)
    {
      if c.None? {
        return Err(IllegalArgumentException("Input collection cannot be null"));
      }
      var capacity := SizeOf(c.value);
      var levels := ConvertSizeToNumLevels(capacity);
      var q, outcome := Init(capacity as nat, levels as nat, None);
      r := if outcome.Initialised? then Ok(q) else Err(NullPointerException);
    }

    /** `PipelinedPriorityQueue(int)`: a capacity that is not positive is
        refused; otherwise the initialisation throws NullPointerException. */
    static method CreateWithCapacity(initialCapacity: int32) returns (r: Result<PipelinedPriorityQueue<E>>)
      ensures initialCapacity <= 0 ==>
        r == Err(IllegalArgumentException("Initial capacity must be greater than 0"))
      ensures initialCapacity > 0 ==> r == Err(NullPointerException)
    {
      if initialCapacity <= 0 {
        return Err(IllegalArgumentException("Initial capacity must be greater than 0"));
      }
      var levels := ConvertSizeToNumLevels(initialCapacity);
      var q, outcome := Init(initialCapacity as nat, levels as nat, None);
      r := if outcome.Initialised? then Ok(q) else Err(NullPointerException);
    }

    /** `PipelinedPriorityQueue(int, Comparator)`: the capacity is checked
        first, then the comparator; past both checks the initialisation
        throws NullPointerException. */
    static method CreateWithCapacityAndComparator(initialCapacity: int32, comparator: Option<Comparator<E>>)
      returns (r: Result<PipelinedPriorityQueue<E>>)
      ensures initialCapacity <= 0 ==>
        r == Err(IllegalArgumentException("Initial capacity must be greater than 0"))
      ensures initialCapacity > 0 && comparator.None? ==>
        r == Err(IllegalArgumentException("Input comparator cannot be null"))
      ensures initialCapacity > 0 && comparator.Some? ==> r == Err(NullPointerException)
    {
      if initialCapacity <= 0 {
        return Err(IllegalArgumentException("Initial capacity must be greater than 0"));
      }
      if comparator.None? {
        return Err(IllegalArgumentException("Input comparator cannot be null"));
      }
      var levels := ConvertSizeToNumLevels(initialCapacity);
      var q, outcome := Init(initialCapacity as nat, levels as nat, comparator);
      r := if outcome.Initialised? then Ok(q) else Err(NullPointerException);
    }
  }
}
