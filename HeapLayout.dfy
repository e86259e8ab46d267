/** The binary tree laid out in the slot array (the children of index i sit
    at 2i + 1 and 2i + 2), and what the post-order initialisation `traverse`
    of PipelinedPriorityQueue.java does on an array of a given length. */
module HeapLayout {

  /** Whether index `j` lies in the subtree rooted at index `i`. */
  predicate InSubtree(j: nat, i: nat)
    decreases j
  {
    j == i || (j > i && InSubtree((j - 1) / 2, i))
  }

  lemma {:induction false} SubtreeOfChild(j: nat, i: nat, c: nat)
    requires c == 2 * i + 1 || c == 2 * i + 2
    requires InSubtree(j, c)
    ensures InSubtree(j, i)
    decreases j
  {
    if j != c {
      SubtreeOfChild((j - 1) / 2, i, c);
    }
  }

  /** The subtrees of two sibling children share no index. */
  lemma {:induction false} SiblingSubtreesDisjoint(j: nat, i: nat)
    requires InSubtree(j, 2 * i + 1)
    ensures !InSubtree(j, 2 * i + 2)
    decreases j
  {
    if j != 2 * i + 1 && InSubtree(j, 2 * i + 2) {
      SiblingSubtreesDisjoint((j - 1) / 2, i);
    }
  }

  /** The indices `traverse(i)` visits on a slot array of length `n`: `i`,
      then the subtrees of those children whose indices are at most `n`. */
  function Subtree(i: nat, n: nat): (s: set<nat>)
    requires i <= n
    ensures i in s
    ensures forall j :: j in s ==> i <= j <= n
    decreases n - i
  {
    {i}
    + (if 2 * i + 1 <= n then Subtree(2 * i + 1, n) else {})
    + (if 2 * i + 2 <= n then Subtree(2 * i + 2, n) else {})
  }

  /** Whether `traverse(i)` visits index `j`. */
  predicate Visits(i: nat, n: nat, j: nat)
  {
    i <= n && j in Subtree(i, n)
  }

  /** The visited indices are exactly the tree's subtree, cut off at `n`. */
  lemma {:induction false} SubtreeIsInSubtree(i: nat, n: nat, j: nat)
    requires i <= n
    ensures j in Subtree(i, n) ==> InSubtree(j, i)
    decreases n - i
  {
    if j in Subtree(i, n) && j != i {
      if 2 * i + 1 <= n && j in Subtree(2 * i + 1, n) {
        SubtreeIsInSubtree(2 * i + 1, n, j);
        SubtreeOfChild(j, i, 2 * i + 1);
      } else {
        SubtreeIsInSubtree(2 * i + 2, n, j);
        SubtreeOfChild(j, i, 2 * i + 2);
      }
    }
  }

  /** `traverse` visits no index from both children of a node. */
  lemma SiblingSubtreesApart(i: nat, n: nat)
    requires 2 * i + 2 <= n
    ensures Subtree(2 * i + 1, n) !! Subtree(2 * i + 2, n)
  {
    var left, right := Subtree(2 * i + 1, n), Subtree(2 * i + 2, n);
    forall j | j in left
      ensures j !in right
    {
      SubtreeIsInSubtree(2 * i + 1, n, j);
      SiblingSubtreesDisjoint(j, i);
      SubtreeIsInSubtree(2 * i + 2, n, j);
    }
  }

  /** A visited index's children, when they are at most `n`, are visited too. */
  lemma {:induction false} SubtreeHasChildren(c: nat, n: nat, j: nat)
    requires c <= n && j in Subtree(c, n)
    ensures 2 * j + 1 <= n ==> 2 * j + 1 in Subtree(c, n)
    ensures 2 * j + 2 <= n ==> 2 * j + 2 in Subtree(c, n)
    decreases n - c
  {
    if j != c {
      if 2 * c + 1 <= n && j in Subtree(2 * c + 1, n) {
        SubtreeHasChildren(2 * c + 1, n, j);
      } else {
        SubtreeHasChildren(2 * c + 2, n, j);
      }
    }
  }

  /** The subtree of a visited index is visited. */
  lemma {:induction false} SubtreeNested(i: nat, n: nat, c: nat)
    requires i <= n && c in Subtree(i, n)
    ensures Subtree(c, n) <= Subtree(i, n)
    decreases n - i
  {
    if c != i {
      if 2 * i + 1 <= n && c in Subtree(2 * i + 1, n) {
        SubtreeNested(2 * i + 1, n, c);
      } else {
        SubtreeNested(2 * i + 2, n, c);
      }
    }
  }

  /** `traverse(0)` visits every index up to `n`. */
  lemma {:induction false} RootSubtreeIsEverything(n: nat, j: nat)
    requires j <= n
    ensures j in Subtree(0, n)
    decreases j
  {
    if j > 0 {
      var parent := (j - 1) / 2;
      assert j == 2 * parent + 1 || j == 2 * parent + 2;
      RootSubtreeIsEverything(n, parent);
      SubtreeNested(0, n, parent);
      assert j in Subtree(parent, n);
    }
  }

  /** Whatever a child's traversal visits, the parent's visits too. */
  lemma ChildVisitsInside(i: nat, n: nat)
    ensures forall j :: Visits(2 * i + 1, n, j) ==> Visits(i, n, j)
    ensures forall j :: Visits(2 * i + 2, n, j) ==> Visits(i, n, j)
  {
  }

  /** An index the parent visits, other than the parent itself, is visited
      from exactly one child, and so are its own children. */
  lemma VisitedFromOneChild(i: nat, n: nat, j: nat)
    requires 2 * i + 2 <= n && Visits(i, n, j) && j != i
    ensures Visits(2 * i + 1, n, j) != Visits(2 * i + 2, n, j)
    ensures Visits(2 * i + 1, n, j) && 2 * j + 2 <= n ==>
      Visits(2 * i + 1, n, 2 * j + 1) && Visits(2 * i + 1, n, 2 * j + 2) &&
      !Visits(2 * i + 2, n, j) && !Visits(2 * i + 2, n, 2 * j + 1) && !Visits(2 * i + 2, n, 2 * j + 2)
    ensures Visits(2 * i + 2, n, j) && 2 * j + 2 <= n ==>
      Visits(2 * i + 2, n, 2 * j + 1) && Visits(2 * i + 2, n, 2 * j + 2)
  {
    SiblingSubtreesApart(i, n);
    if Visits(2 * i + 1, n, j) {
      SubtreeHasChildren(2 * i + 1, n, j);
    } else {
      SubtreeHasChildren(2 * i + 2, n, j);
    }
  }

  /** How a run of `traverse` ends: it completes, or it reaches the
      `getLeft(i).getCapacity() + getRight(i).getCapacity()` of node `node`
      with a child missing and throws NullPointerException. */
  datatype InitOutcome = Initialised | MissingChild(node: nat)

  /** The outcome of `traverse(i)` on a slot array of length `n`, step by
      step as the code runs: recurse into the left child while its index is
      at most `n`, then into the right one, then read both children. */
  function TraverseOutcome(i: nat, n: nat): InitOutcome
    requires i <= n
    decreases n - i
  {
    var left := if 2 * i + 1 <= n then TraverseOutcome(2 * i + 1, n) else Initialised;
    if !left.Initialised? then left
    else
      var right := if 2 * i + 2 <= n then TraverseOutcome(2 * i + 2, n) else Initialised;
      if !right.Initialised? then right
      else if 2 * i + 1 >= n || 2 * i + 2 >= n then MissingChild(i)
      else Initialised
  }

  /** The node where the recursion along left children stops. */
  function FirstLeaf(i: nat, n: nat): nat
    requires i <= n
    decreases n - i
  {
    if 2 * i + 1 <= n then FirstLeaf(2 * i + 1, n) else i
  }

  /** `traverse` never completes: the first node whose left child index
      exceeds the array length is the first one to read its children, and
      `getLeft` returns `null` there. */
  lemma {:induction false} TraverseNeverCompletes(i: nat, n: nat)
    requires i <= n
    ensures TraverseOutcome(i, n) == MissingChild(FirstLeaf(i, n))
    decreases n - i
  {
    if 2 * i + 1 <= n {
      TraverseNeverCompletes(2 * i + 1, n);
    }
  }

  /** The node where the walk down the left children stops is visited, and
      its left child index is past the end of the array. */
  lemma {:induction false} FirstLeafIsVisited(i: nat, n: nat)
    requires i <= n
    ensures FirstLeaf(i, n) in Subtree(i, n)
    ensures 2 * FirstLeaf(i, n) + 1 > n
    decreases n - i
  {
    if 2 * i + 1 <= n {
      FirstLeafIsVisited(2 * i + 1, n);
    }
  }

  /** The walk down the left children stays in the left subtree, so no node
      the right child's traversal visits is where that walk stops. */
  lemma RightSubtreeMissesFirstLeaf(i: nat, n: nat, j: nat)
    requires 2 * i + 2 <= n && Visits(2 * i + 2, n, j)
    ensures j != FirstLeaf(i, n)
  {
    FirstLeafIsVisited(2 * i + 1, n);
    SiblingSubtreesApart(i, n);
  }
}
