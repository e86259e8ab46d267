/** What `checkCapacity` (PipelinedPriorityQueue.java) does to the slot
    array, stated on values: each slot as the SlotState of its element, or
    `None` where the array holds `null`. */
module CapacityCheck {
  import opened Java
  import opened HeapSlot

  /** A slot after `e.setCapacity(e.getCapacity() * 2)`, an `int` product. */
  function Doubled<E>(slot: SlotState<E>): (r: SlotState<E>)
    ensures r.active == slot.active && r.value == slot.value
    ensures -0x4000_0000 <= slot.capacity < 0x4000_0000 ==> r.capacity == 2 * slot.capacity
  {
    slot.(capacity := Wrap(2 * slot.capacity as int))
  }

  /** The first `k` slots, all present, with their capacities doubled. */
  function DoublePrefix<E>(s: seq<Option<SlotState<E>>>, k: nat): (r: seq<Option<SlotState<E>>>)
    requires k <= |s|
    requires forall j :: 0 <= j < k ==> s[j].Some?
    ensures |r| == |s|
    ensures forall j :: 0 <= j < k ==> r[j] == Some(Doubled(s[j].value))
    ensures forall j :: k <= j < |s| ==> r[j] == s[j]
  {
    seq(|s|, j requires 0 <= j < |s| => if j < k then Some(Doubled(s[j].value)) else s[j])
  }

  /** The index of the first `null` slot, or the length if there is none. */
  function FirstNull<E>(s: seq<Option<SlotState<E>>>): (k: nat)
    ensures k <= |s|
    ensures forall j :: 0 <= j < k ==> s[j].Some?
    ensures k < |s| ==> s[k].None?
  {
    if s == [] || s[0].None? then 0 else 1 + FirstNull(s[1..])
  }

  /** The array that replaces `s` when it is full: twice as long, each
      element one place further on with its capacity doubled, and `null`
      at index 0 and after the last moved element. */
  function Resized<E>(s: seq<Option<SlotState<E>>>): seq<Option<SlotState<E>>>
    requires forall j :: 0 <= j < |s| ==> s[j].Some?
    requires |s| >= 1
  {
    [None] + DoublePrefix(s, |s|) + seq(|s| - 1, _ => None)
  }

  /** The copy into the array twice as long: a `null` element met while
      copying throws after the elements before it have had their capacities
      doubled, and the field keeps the old array. */
  function Grown<E>(s: seq<Option<SlotState<E>>>): (Outcome, seq<Option<SlotState<E>>>)
    requires |s| >= 1
  {
    var firstNull := FirstNull(s);
    if firstNull < |s| then (Threw(NullPointerException), DoublePrefix(s, firstNull))
    else (Completed, Resized(s))
  }

  /** The resized array index by index. */
  lemma ResizedLayout<E>(s: seq<Option<SlotState<E>>>)
    requires |s| >= 1 && forall j :: 0 <= j < |s| ==> s[j].Some?
    ensures |Resized(s)| == 2 * |s| && Resized(s)[0] == None
    ensures forall k :: 0 <= k < |s| ==> Resized(s)[k + 1] == Some(Doubled(s[k].value))
    ensures forall j :: |s| < j < 2 * |s| ==> Resized(s)[j] == None
  {
    var t := Resized(s);
    forall k | 0 <= k < |s|
      ensures t[k + 1] == Some(Doubled(s[k].value))
    {
      assert t[k + 1] == DoublePrefix(s, |s|)[k];
    }
  }

  /** What `checkCapacity` returns or throws, and the slots the queue's
      array field holds afterwards. `getRoot()` fails on an empty array and
      `getRoot().getCapacity()` on a `null` root; a root with no room left
      makes the slots grow as `Grown` says. */
  function CheckCapacityEffect<E>(s: seq<Option<SlotState<E>>>): (Outcome, seq<Option<SlotState<E>>>)
  {
    if |s| == 0 then (Threw(ArrayIndexOutOfBoundsException), s)
    else if s[0].None? then (Threw(NullPointerException), s)
    else if s[0].value.capacity >= 1 then (Completed, s)
    else Grown(s)
  }

  /** While the root has room, `checkCapacity` changes nothing. */
  lemma NoResizeWhileRootHasRoom<E>(s: seq<Option<SlotState<E>>>)
    requires |s| > 0 && s[0].Some? && s[0].value.capacity >= 1
    ensures CheckCapacityEffect(s) == (Completed, s)
  {
  }

  /** When the root is full and no slot is `null`, the array doubles in
      length, the element at index k moves to k + 1 with its capacity doubled
      and its other fields kept, and index 0 and the new tail are empty. */
  lemma ResizeShiftsAndDoubles<E>(s: seq<Option<SlotState<E>>>)
    requires |s| > 0 && s[0].Some? && s[0].value.capacity < 1
    requires forall j :: 0 <= j < |s| ==> s[j].Some?
    ensures CheckCapacityEffect(s).0 == Completed
    ensures |CheckCapacityEffect(s).1| == 2 * |s|
    ensures CheckCapacityEffect(s).1[0] == None
    ensures forall k :: 0 <= k < |s| ==>
      && CheckCapacityEffect(s).1[k + 1].Some?
      && CheckCapacityEffect(s).1[k + 1].value.active == s[k].value.active
      && CheckCapacityEffect(s).1[k + 1].value.value == s[k].value.value
      && CheckCapacityEffect(s).1[k + 1].value.capacity == Wrap(2 * s[k].value.capacity as int)
    ensures forall j :: |s| < j < 2 * |s| ==> CheckCapacityEffect(s).1[j] == None
  {
    assert FirstNull(s) == |s|;
    ResizedLayout(s);
  }

  /** A `null` element met while copying: NullPointerException, with the
      capacities before it doubled and the rest untouched. */
  lemma NullSlotStopsTheCopy<E>(s: seq<Option<SlotState<E>>>, f: nat)
    requires |s| > 0 && s[0].Some? && s[0].value.capacity < 1
    requires f < |s| && s[f].None?
    requires forall j :: 0 <= j < f ==> s[j].Some?
    ensures CheckCapacityEffect(s).0 == Threw(NullPointerException)
    ensures |CheckCapacityEffect(s).1| == |s|
    ensures forall j :: 0 <= j < f ==> CheckCapacityEffect(s).1[j] == Some(Doubled(s[j].value))
    ensures forall j :: f <= j < |s| ==> CheckCapacityEffect(s).1[j] == s[j]
  {
    assert FirstNull(s) == f;
  }

  /** After a resize the root slot is `null`, so the next `checkCapacity`
      throws NullPointerException at `getRoot().getCapacity()`. */
  lemma CheckAfterResizeThrows<E>(s: seq<Option<SlotState<E>>>)
    requires |s| > 0 && s[0].Some? && s[0].value.capacity < 1
    requires forall j :: 0 <= j < |s| ==> s[j].Some?
    ensures CheckCapacityEffect(CheckCapacityEffect(s).1).0 == Threw(NullPointerException)
  {
    ResizeShiftsAndDoubles(s);
  }
}
