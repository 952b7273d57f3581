/** One subtree buffer of src/lms_subtree.c: a heap-ordered node array filled leaf by leaf
    with a stack of left nodes that wait for their right siblings. */
module Subtree {
  import opened Words
  import opened MerkleTree

  /** Whole-tree number of local node x below a subtree root numbered r: walk down x's binary digits. */
  function Descend(r: nat, x: nat): (d: nat)
    ensures r >= 1 ==> d >= 1
  {
    if x <= 1 then r else 2 * Descend(r, x / 2) + x % 2
  }

  /** The closed form the code computes: depth d, order x - 2^d inside the level. */
  lemma {:induction false} DescendClosedForm(r: nat, x: nat, d: nat)
    requires Pow2(d) <= x < Pow2(d + 1)
    ensures Descend(r, x) == r * Pow2(d) + (x - Pow2(d))
  {
    if d == 0 {
    } else {
      DescendClosedForm(r, x / 2, d - 1);
      assert r * Pow2(d) == 2 * (r * Pow2(d - 1));
    }
  }

  lemma {:induction false} DescendBelow(r: nat, x: nat, a: nat, b: nat)
    requires r < Pow2(a) && 1 <= x < Pow2(b) && b >= 1
    ensures Descend(r, x) < Pow2(a + b - 1)
  {
    if x == 1 {
      Pow2Monotone(a, a + b - 1);
    } else {
      DescendBelow(r, x / 2, a, b - 1);
    }
  }

  lemma {:induction false} DescendShr(r: nat, x: nat, i: nat)
    requires Shr(x, i) >= 1
    ensures x >= 1
    ensures Descend(r, Shr(x, i)) == Shr(Descend(r, x), i)
  {
    if i == 0 {
    } else {
      DescendShr(r, x, i - 1);
      var y := Shr(x, i - 1);
      assert Descend(r, y) == 2 * Descend(r, y / 2) + y % 2;
    }
  }

  lemma DescendSibling(r: nat, x: nat)
    requires x >= 2
    ensures Sibling(x) >= 2 && Descend(r, Sibling(x)) == Sibling(Descend(r, x))
  {
    assert Sibling(x) / 2 == x / 2;
  }

  // ---- the binary counter behind the stack ----

  /** Bits 0 .. i-1 of n are all ones. */
  ghost predicate LowOnes(n: nat, i: nat) {
    i == 0 || (LowOnes(n, i - 1) && Shr(n, i - 1) % 2 == 1)
  }

  lemma {:induction false} LowOnesPrefix(n: nat, i: nat, j: nat)
    requires LowOnes(n, i) && j <= i
    ensures LowOnes(n, j)
    ensures j < i ==> Shr(n, j) % 2 == 1
  {
    if j < i - 1 {
      LowOnesPrefix(n, i - 1, j);
    }
  }

  /** A run of low one bits carries into the next bit. */
  lemma {:induction false} CarryThrough(n: nat, i: nat)
    requires LowOnes(n, i)
    ensures Shr(n + 1, i) == Shr(n, i) + 1
  {
    if i > 0 {
      CarryThrough(n, i - 1);
    }
  }

  /** Past the first zero bit nothing changes. */
  lemma {:induction false} CarryStops(n: nat, i: nat, j: nat)
    requires LowOnes(n, i) && Shr(n, i) % 2 == 0 && i < j
    ensures Shr(n + 1, j) == Shr(n, j)
    decreases j
  {
    if j == i + 1 {
      CarryThrough(n, i);
    } else {
      CarryStops(n, i, j - 1);
    }
  }

  /** How one increment changes n >> e, when i is the lowest zero bit of n. */
  lemma CarryAt(n: nat, n': nat, i: nat, e: nat)
    requires LowOnes(n, i) && n' == n + 1
    requires e > i ==> Shr(n, i) % 2 == 0
    ensures Shr(n', e) == if e <= i then Shr(n, e) + 1 else Shr(n, e)
    ensures e < i ==> Shr(n, e) % 2 == 1
  {
    if e <= i {
      LowOnesPrefix(n, i, e);
      CarryThrough(n, e);
    } else {
      CarryStops(n, i, e);
    }
  }

  /** The number formed by the code, (1 << (h - r)) + ((k0 << d) + k) with r = level - d, is Descend. */
  lemma GlobalNumber(up: nat, k0: nat, x: nat, d: nat)
    requires Pow2(d) <= x < Pow2(d + 1)
    ensures Pow2(up + d) + (k0 * Pow2(d) + (x - Pow2(d))) == Descend(Pow2(up) + k0, x)
  {
    hide Pow2, Descend;
    DescendClosedForm(Pow2(up) + k0, x, d);
    Pow2Add(up, d);
    Distribute(Pow2(up), k0, Pow2(d));
  }

  // ---- what a partly filled subtree holds ----

  /** The true value of local node x of the subtree whose root is node r of t. */
  function Value(t: Tree, r: nat, x: nat): Digest
    requires r >= 1
  {
    TreeNode(t, Descend(r, x))
  }

  lemma ValueMerge(t: Tree, r: nat, x: nat)
    requires r >= 1 && x >= 1 && Descend(r, x) < Pow2(t.height)
    ensures t.node(Descend(r, x), Value(t, r, 2 * x), Value(t, r, 2 * x + 1)) == Value(t, r, x)
  {
    DescendChildren(r, x);
    TreeNodeInternal(t, Descend(r, x));
  }

  lemma DescendChildren(r: nat, x: nat)
    requires x >= 1
    ensures Descend(r, 2 * x) == 2 * Descend(r, x)
    ensures Descend(r, 2 * x + 1) == 2 * Descend(r, x) + 1
  {
  }

  ghost predicate Row(t: Tree, r: nat, nodes: seq<Digest>, lo: nat, hi: nat)
    requires r >= 1
  {
    hi <= |nodes| && forall x :: lo <= x < hi ==> nodes[x] == Value(t, r, x)
  }

  /** Row e (height e above the leaves) is true from its left end up to local node n >> e. */
  ghost predicate Rows(t: Tree, r: nat, sh: nat, n: nat, nodes: seq<Digest>)
    requires r >= 1
  {
    forall e :: 0 <= e <= sh ==> Row(t, r, nodes, Pow2(sh - e), Shr(n, e))
  }

  /** stack[i] holds the left node that waits at height i, exactly when bit i of the counter is set. */
  ghost predicate StackHolds(t: Tree, r: nat, sh: nat, n: nat, stack: seq<Digest>)
    requires r >= 1
  {
    && |stack| == sh
    && forall i :: 0 <= i < sh && Shr(n, i) % 2 == 1 ==> stack[i] == Value(t, r, Shr(n, i) - 1)
  }

  lemma RowsAdvance(t: Tree, r: nat, sh: nat, n: nat, n': nat, i: nat, nodes: seq<Digest>)
    requires r >= 1
    requires i <= sh && n' == n + 1
    requires LowOnes(n, i)
    requires i < sh ==> Shr(n, i) % 2 == 0
    requires Rows(t, r, sh, n, nodes)
    requires forall e :: 0 <= e <= i ==> Shr(n, e) < |nodes| && nodes[Shr(n, e)] == Value(t, r, Shr(n, e))
    ensures Rows(t, r, sh, n', nodes)
  {
    forall e | 0 <= e <= sh
      ensures Row(t, r, nodes, Pow2(sh - e), Shr(n', e))
    {
      assert Row(t, r, nodes, Pow2(sh - e), Shr(n, e));
      CarryAt(n, n', i, e);
    }
  }

  lemma StackAdvance(t: Tree, r: nat, sh: nat, n: nat, n': nat, i: nat,
                     stack: seq<Digest>, stack': seq<Digest>)
    requires r >= 1
    requires i <= sh && n' == n + 1
    requires LowOnes(n, i)
    requires i < sh ==> Shr(n, i) % 2 == 0
    requires StackHolds(t, r, sh, n, stack)
    requires stack' == if i < sh then stack[i := Value(t, r, Shr(n, i))] else stack
    ensures StackHolds(t, r, sh, n', stack')
  {
    hide Value, Shr, LowOnes;
    forall j | 0 <= j < sh && Shr(n', j) % 2 == 1
      ensures stack'[j] == Value(t, r, Shr(n', j) - 1)
    {
      CarryAt(n, n', i, j);
    }
  }

  /** Writing true values never spoils a row. */
  lemma RowsWrite(t: Tree, r: nat, sh: nat, n: nat, nodes: seq<Digest>, x: nat)
    requires r >= 1
    requires Rows(t, r, sh, n, nodes) && x < |nodes|
    ensures Rows(t, r, sh, n, nodes[x := Value(t, r, x)])
  {
    forall e | 0 <= e <= sh
      ensures Row(t, r, nodes[x := Value(t, r, x)], Pow2(sh - e), Shr(n, e))
    {
      assert Row(t, r, nodes, Pow2(sh - e), Shr(n, e));
    }
  }

  lemma {:induction false} ShrPow2(sh: nat, i: nat)
    requires i <= sh
    ensures Shr(Pow2(sh), i) == Pow2(sh - i)
  {
    if i > 0 {
      ShrPow2(sh, i - 1);
    }
  }

  lemma EmptyHolds(t: Tree, r: nat, sh: nat, nodes: seq<Digest>, stack: seq<Digest>)
    requires r >= 1
    requires |nodes| == Pow2(sh + 1) && |stack| == sh
    ensures Rows(t, r, sh, Pow2(sh), nodes)
    ensures StackHolds(t, r, sh, Pow2(sh), stack)
  {
    forall i | 0 <= i <= sh
      ensures Shr(Pow2(sh), i) == Pow2(sh - i) <= |nodes|
    {
      ShrPow2(sh, i);
      Pow2Monotone(sh - i, sh + 1);
    }
  }

  /** While leaf number n - 2^sh is being merged and the climb stands at height i:
      the nodes numbered n, n >> 1, .., n >> i are new and true. */
  ghost predicate Climbing(t: Tree, r: nat, sh: nat, n: nat, i: nat, nodes: seq<Digest>)
    requires r >= 1
  {
    && i <= sh && LowOnes(n, i)
    && Rows(t, r, sh, n, nodes)
    && forall e :: 0 <= e <= i ==> Shr(n, e) < |nodes| && nodes[Shr(n, e)] == Value(t, r, Shr(n, e))
  }

  lemma ClimbingStep(t: Tree, r: nat, sh: nat, n: nat, i: nat, nodes: seq<Digest>, parent: nat)
    requires r >= 1 && Climbing(t, r, sh, n, i, nodes)
    requires i < sh && Shr(n, i) % 2 == 1 && parent == Shr(n, i) / 2 < |nodes|
    ensures Climbing(t, r, sh, n, i + 1, nodes[parent := Value(t, r, parent)])
  {
    RowsWrite(t, r, sh, n, nodes, parent);
    var nodes' := nodes[parent := Value(t, r, parent)];
    forall e | 0 <= e <= i + 1
      ensures Shr(n, e) < |nodes'| && nodes'[Shr(n, e)] == Value(t, r, Shr(n, e))
    {
      if e == i + 1 {
        assert Shr(n, e) == parent;
      }
    }
  }

  /** Where the climb stands: x = (1 << (sh - i)) + leafSeq is local node n >> i. */
  ghost predicate AtHeight(sh: nat, i: nat, leafSeq: nat, x: nat) {
    i <= sh && x == Pow2(sh - i) + leafSeq && leafSeq < Pow2(sh - i)
  }

  lemma AtHeightUp(sh: nat, i: nat, leafSeq: nat, x: nat)
    requires AtHeight(sh, i, leafSeq, x)
    ensures x == 1 <==> i == sh
    ensures i < sh ==> x % 2 == leafSeq % 2 && x >= 2 && x / 2 < Pow2(sh) && x < Pow2(sh + 1)
    ensures i < sh ==> AtHeight(sh, i + 1, leafSeq / 2, x / 2)
  {
    if i < sh {
      assert Pow2(sh - i) == 2 * Pow2(sh - i - 1);
      Pow2Monotone(sh - i, sh);
    }
  }

  /** The merge of a waiting left node with its right sibling is the true parent. */
  lemma MergeValue(t: Tree, r: nat, level: nat, sh: nat, x: nat)
    requires sh <= level <= t.height && 1 <= r < Pow2(t.height - level + 1)
    requires x % 2 == 1 && 2 <= x < Pow2(sh + 1)
    ensures t.node(Descend(r, x / 2), Value(t, r, x - 1), Value(t, r, x)) == Value(t, r, x / 2)
  {
    DescendBelow(r, x / 2, t.height - level + 1, sh);
    Pow2Monotone(t.height - level + sh, t.height);
    ValueMerge(t, r, x / 2);
  }

  /** After the last leaf every node is in place. */
  lemma RowsComplete(t: Tree, r: nat, sh: nat, nodes: seq<Digest>, x: nat)
    requires r >= 1 && Rows(t, r, sh, Pow2(sh + 1), nodes)
    requires 1 <= x < Pow2(sh + 1)
    ensures x < |nodes| && nodes[x] == Value(t, r, x)
  {
    var d := HeapDepth(x);
    Pow2Inverse(d, sh + 1);
    var e := sh - d;
    ShrPow2(sh + 1, e);
    assert Row(t, r, nodes, Pow2(sh - e), Shr(Pow2(sh + 1), e));
  }

  /** What a slot below the count holds. */
  lemma RowsMerged(t: Tree, r: nat, sh: nat, i: nat, nodes: seq<Digest>, x: nat)
    requires r >= 1 && Rows(t, r, sh, Pow2(sh) + i, nodes) && Merged(sh, i, x)
    ensures x < |nodes| && nodes[x] == Value(t, r, x)
  {
    var e := sh - HeapDepth(x);
    assert Row(t, r, nodes, Pow2(sh - e), Shr(Pow2(sh) + i, e));
  }

  lemma RowsFromAll(t: Tree, r: nat, sh: nat, nodes: seq<Digest>)
    requires r >= 1 && |nodes| == Pow2(sh + 1)
    requires forall x :: 1 <= x < |nodes| ==> nodes[x] == Value(t, r, x)
    ensures Rows(t, r, sh, Pow2(sh + 1), nodes)
  {
    hide Value;
    var n := Pow2(sh + 1);
    forall e | 0 <= e <= sh
      ensures Shr(n, e) <= |nodes|
    {
      ShrPow2(sh + 1, e);
      Pow2Monotone(sh + 1 - e, sh + 1);
    }
  }

  // ---- which slots a partly filled subtree has written ----

  ghost function HeapDepth(x: nat): (d: nat)
    requires x >= 1
    ensures Pow2(d) <= x < Pow2(d + 1)
  {
    if x == 1 then 0 else HeapDepth(x / 2) + 1
  }

  /** Slot x is written once i leaves have been merged: all leaves below it are among them. */
  ghost predicate Merged(sh: nat, i: nat, x: nat) {
    x >= 1 && HeapDepth(x) <= sh && x < Shr(Pow2(sh) + i, sh - HeapDepth(x))
  }

  lemma HeapDepthUnique(x: nat, d: nat)
    requires Pow2(d) <= x < Pow2(d + 1)
    ensures HeapDepth(x) == d
  {
    Pow2Inverse(HeapDepth(x), d + 1);
    Pow2Inverse(d, HeapDepth(x) + 1);
  }

  /** Height e of the heap, slot by slot. */
  lemma MergedAtHeight(sh: nat, i: nat, e: nat, x: nat)
    requires e <= sh && Pow2(sh - e) <= x < Pow2(sh - e + 1)
    ensures Merged(sh, i, x) <==> x < Shr(Pow2(sh) + i, e)
  {
    HeapDepthUnique(x, sh - e);
  }

  lemma MergedGrows(sh: nat, i: nat, j: nat, x: nat)
    requires i <= j && Merged(sh, i, x)
    ensures Merged(sh, j, x)
  {
    ShrMonotone(Pow2(sh) + i, Pow2(sh) + j, sh - HeapDepth(x));
  }

  lemma MergedAll(sh: nat, x: nat)
    requires 1 <= x < Pow2(sh + 1)
    ensures Merged(sh, Pow2(sh), x)
  {
    Pow2Inverse(HeapDepth(x), sh + 1);
    ShrPow2(sh + 1, sh - HeapDepth(x));
  }

  /** A node met while the climb of leaf i goes through low one bits is written with that leaf. */
  lemma MergedByClimb(sh: nat, i: nat, e: nat)
    requires e <= sh && i < Pow2(sh) && LowOnes(Pow2(sh) + i, e)
    ensures Merged(sh, i + 1, Shr(Pow2(sh) + i, e))
  {
    CarryThrough(Pow2(sh) + i, e);
    ShrRange(Pow2(sh) + i, sh, e);
    MergedAtHeight(sh, i + 1, e, Shr(Pow2(sh) + i, e));
  }

  /** Slot read at height d by the lookup for leaf a of a subtree of height sh. */
  ghost function PathSlot(sh: nat, a: nat, d: nat): nat {
    Sibling(Shr(Pow2(sh) + a, d))
  }

  lemma PathSlotInRow(sh: nat, a: nat, d: nat)
    requires a < Pow2(sh) && d < sh
    ensures Pow2(sh - d) <= Shr(Pow2(sh) + a, d) < Pow2(sh - d + 1)
    ensures Pow2(sh - d) <= PathSlot(sh, a, d) < Pow2(sh - d + 1) <= Pow2(sh + 1)
  {
    ShrRange(Pow2(sh) + a, sh, d);
    SiblingInRow(Shr(Pow2(sh) + a, d), sh - d);
    Pow2Monotone(sh - d + 1, sh + 1);
  }

  /** When all siblings from height d on are written, the path and the next leaf to merge go to the right all the way. */
  lemma {:induction false} SiblingsMerged(sh: nat, i: nat, a: nat, d: nat)
    requires i < Pow2(sh) && a < Pow2(sh) && d <= sh
    requires forall e :: d <= e < sh ==> Merged(sh, i, PathSlot(sh, a, e))
    ensures Shr(Pow2(sh) + a, d) == Shr(Pow2(sh) + i, d) == Pow2(sh - d + 1) - 1
    decreases sh - d
  {
    hide Merged;
    ShrRange(Pow2(sh) + a, sh, d);
    ShrRange(Pow2(sh) + i, sh, d);
    if d < sh {
      SiblingsMerged(sh, i, a, d + 1);
      ShrStep(Pow2(sh) + a, d);
      ShrStep(Pow2(sh) + i, d);
      PathSlotInRow(sh, a, d);
      MergedAtHeight(sh, i, d, PathSlot(sh, a, d));
    }
  }

  lemma SiblingInRow(x: nat, d: nat)
    requires d >= 1 && Pow2(d) <= x < Pow2(d + 1)
    ensures Pow2(d) <= Sibling(x) < Pow2(d + 1)
  {
    hide Pow2, Sibling;
    Pow2Step(d - 1);
    Pow2Step(d);
    SiblingBetween(x, Pow2(d - 1), Pow2(d));
  }

  lemma {:induction false} LastPath(sh: nat, d: nat)
    requires d <= sh
    ensures Shr(2 * Pow2(sh) - 1, d) == Pow2(sh - d + 1) - 1
  {
    if d > 0 {
      LastPath(sh, d - 1);
      assert Pow2(sh - d + 2) == 2 * Pow2(sh - d + 1);
    }
  }

  /** With i leaves merged, all siblings on the path of leaf a are written if and only if nothing is missing but
      the last leaf, and a is that leaf. */
  lemma AllSiblingsMerged(sh: nat, i: nat, a: nat)
    requires i < Pow2(sh) && a < Pow2(sh)
    ensures (forall d :: 0 <= d < sh ==> Merged(sh, i, PathSlot(sh, a, d)))
       <==> i == Pow2(sh) - 1 && a == Pow2(sh) - 1
  {
    hide Merged, PathSlot;
    if forall d :: 0 <= d < sh ==> Merged(sh, i, PathSlot(sh, a, d)) {
      SiblingsMerged(sh, i, a, 0);
      ShrNone(Pow2(sh) + a);
      ShrNone(Pow2(sh) + i);
    }
    if i == Pow2(sh) - 1 && a == Pow2(sh) - 1 {
      forall d | 0 <= d < sh
        ensures Merged(sh, i, PathSlot(sh, a, d))
      {
        LastSlotMerged(sh, d);
      }
    }
  }

  lemma LastSlotMerged(sh: nat, d: nat)
    requires d < sh
    ensures Merged(sh, Pow2(sh) - 1, PathSlot(sh, Pow2(sh) - 1, d))
  {
    hide Merged;
    LastPath(sh, d);
    assert Pow2(sh - d + 1) == 2 * Pow2(sh - d);
    PathSlotInRow(sh, Pow2(sh) - 1, d);
    MergedAtHeight(sh, Pow2(sh) - 1, d, PathSlot(sh, Pow2(sh) - 1, d));
  }

  // ---- the buffer itself ----

  class SubtreeBuffer {
    const height: nat
    const nodes: array<Digest>
    const stack: array<Digest>
    var level: nat
    var levelsBelow: nat
    var treeHeight: nat
    var leftLeaf: nat
    var currentIndex: nat

    /** subtree_init_buffers: zeroed buffers of 2^(height+1) node slots and height stack slots. */
    constructor (subH: nat, level: nat, levelsBelow: nat, treeHeight: nat, leftLeaf: nat)
      ensures height == subH && nodes.Length == Pow2(subH + 1) && stack.Length == subH
      ensures this.level == level && this.levelsBelow == levelsBelow && this.treeHeight == treeHeight
      ensures this.leftLeaf == leftLeaf && currentIndex == 0
      ensures fresh(nodes) && fresh(stack) && nodes != stack
    {
      height := subH;
      nodes := new Digest[Pow2(subH + 1)](_ => ZeroDigest());
      stack := new Digest[subH](_ => ZeroDigest());
      this.level, this.levelsBelow, this.treeHeight, this.leftLeaf := level, levelsBelow, treeHeight, leftLeaf;
      currentIndex := 0;
    }

    /** Buffer sizes, fixed for the life of the object. */
    ghost predicate Allocated() {
      && height >= 1
      && nodes.Length == Pow2(height + 1) && stack.Length == height
      && nodes != stack
    }

    /** The subtree lies inside the tree. */
    ghost predicate InTree()
      reads this
    {
      && height <= level <= treeHeight
      && Shr(leftLeaf, height) < Pow2(treeHeight - level)
    }

    /** Whole-tree number of the subtree's root. */
    ghost function Root(): (r: nat)
      requires level <= treeHeight
      reads this
      ensures r >= 1
    {
      Pow2(treeHeight - level) + Shr(leftLeaf, height)
    }

    /** The subtree holds the true values of its first currentIndex leaves and of every node above them. */
    ghost predicate Holds(t: Tree)
      reads this, nodes, stack
    {
      && Allocated()
      && level <= treeHeight == t.height
      && currentIndex <= Pow2(height)
      && Rows(t, Root(), height, Pow2(height) + currentIndex, nodes[..])
      && StackHolds(t, Root(), height, Pow2(height) + currentIndex, stack[..])
    }

    /** Every node of the buffer is true. */
    ghost predicate Filled(t: Tree)
      reads this, nodes
    {
      && Allocated()
      && level <= treeHeight == t.height
      && Rows(t, Root(), height, Pow2(height + 1), nodes[..])
    }

    lemma CompleteIsFilled(t: Tree)
      requires Complete(t)
      ensures Filled(t)
    {
      hide Rows;
    }

    /** All leaves have been merged. */
    ghost predicate Complete(t: Tree)
      reads this, nodes, stack
    {
      Holds(t) && currentIndex == Pow2(height)
    }

    /** subtree_reset_to */
    method ResetTo(t: Tree, newLeft: nat)
      requires Allocated() && level <= treeHeight == t.height
      modifies this
      ensures leftLeaf == newLeft && currentIndex == 0
      ensures level == old(level) && levelsBelow == old(levelsBelow) && treeHeight == old(treeHeight)
      ensures Holds(t)
    {
      leftLeaf := newLeft;
      currentIndex := 0;
      EmptyHolds(t, Root(), height, nodes[..], stack[..]);
    }

    /** The depth of a local node: the loop of subtree_local_to_global. */
    static method TopBit(local: nat) returns (d: nat)
      requires 1 <= local
      ensures Pow2(d) <= local < Pow2(d + 1)
    {
      d := 0;
      while Pow2(d + 1) <= local
        invariant Pow2(d) <= local
        decreases local - Pow2(d)
      {
        d := d + 1;
      }
    }

    /** subtree_local_to_global: heap index inside the subtree to whole-tree node number. */
    method LocalToGlobal(local: nat) returns (num: nat)
      requires height <= level <= treeHeight && 1 <= local < Pow2(height + 1)
      ensures num == Descend(Root(), local)
    {
      hide Descend, Shr, Pow2;
      var k0 := Shr(leftLeaf, height);
      var d := TopBit(local);
      Pow2Inverse(d, height + 1);
      var k := local - Pow2(d);
      var r := level - d;
      num := Pow2(treeHeight - r) + (k0 * Pow2(d) + k);
      GlobalNumber(treeHeight - level, k0, local, d);
    }

    /** One merge of lms_tree_add_next_node: the waiting left node with its right sibling into their parent. */
    method MergeAt(t: Tree, ghost n: nat, i: nat, curLocal: nat, cur: Digest) returns (up: Digest)
      requires Allocated() && InTree() && t.height == treeHeight
      requires Climbing(t, Root(), height, n, i, nodes[..])
      requires i < height && curLocal == Shr(n, i) && curLocal % 2 == 1 && 2 <= curLocal < Pow2(height + 1)
      requires cur == Value(t, Root(), curLocal) && stack[i] == Value(t, Root(), curLocal - 1)
      modifies nodes
      ensures Climbing(t, Root(), height, n, i + 1, nodes[..])
      ensures nodes[..] == old(nodes[..])[curLocal / 2 := up] && curLocal / 2 == Shr(n, i + 1)
      ensures up == Value(t, Root(), curLocal / 2)
    {
      ghost var r := Root();
      ghost var before := nodes[..];
      var parent := curLocal / 2;
      var num := LocalToGlobal(parent);
      RootInTree();
      MergeValue(t, r, level, height, curLocal);
      nodes[parent] := t.node(num, stack[i], cur);
      up := nodes[parent];
      assert nodes[..] == before[parent := Value(t, r, parent)];
      ClimbingStep(t, r, height, n, i, before, parent);
    }

    lemma RootInTree()
      requires InTree()
      ensures 1 <= Root() < Pow2(treeHeight - level + 1)
    {
    }

    /** lms_tree_add_next_node: merge one leaf value; 1 = subtree completed, 0 = more to come, -1 = refused. */
    method AddNextNode(t: Tree, leafValue: Digest) returns (rc: int)
      requires Holds(t) && InTree()
      requires currentIndex < Pow2(height) ==> leafValue == Value(t, Root(), Pow2(height) + currentIndex)
      modifies this`currentIndex, nodes, stack
      ensures Holds(t)
      ensures rc == if old(currentIndex) >= Pow2(height) then -1
                    else if currentIndex == Pow2(height) then 1 else 0
      ensures currentIndex == old(currentIndex) + (if rc == -1 then 0 else 1)
      ensures rc == -1 ==> nodes[..] == old(nodes[..]) && stack[..] == old(stack[..])
      ensures KeptBeyond(height, currentIndex, old(nodes[..]), nodes[..])
    {
      hide Value, LowOnes, Rows, StackHolds, Climbing, Merged, KeptBeyond, Shr, Pow2;
      var ci := currentIndex;
      if height == 0 || ci >= Pow2(height) {
        KeptSelf(height, ci, nodes[..]);
        return -1;
      }
      ghost var r := Root();
      ghost var stack0 := stack[..];
      var local := Pow2(height) + ci;
      ghost var before := nodes[..];
      StoreLeaf(t, leafValue);
      ghost var now := nodes[..];
      var cur := leafValue;
      ShrNone(local);
      var leafSeq: nat, i: nat := ci, 0;
      while true
        invariant nodes[..] == now && Climbing(t, r, height, local, i, now)
        invariant AtHeight(height, i, leafSeq, Shr(local, i))
        invariant cur == Value(t, r, Shr(local, i))
        invariant stack[..] == stack0
        invariant KeptBeyond(height, ci + 1, before, now)
        decreases height - i
      {
        var curLocal := Pow2(height - i) + leafSeq;
        AtHeightUp(height, i, leafSeq, curLocal);
        if curLocal == 1 {
          break;
        }
        if leafSeq % 2 == 0 {
          stack[i] := cur;
          break;
        }
        leafSeq := leafSeq / 2;
        WaitingLeft(t, r, height, local, i, stack0);
        cur := MergeAt(t, local, i, curLocal, cur);
        WrittenByClimb(t, r, height, ci, i + 1, nodes[..]);
        KeptWrite(height, ci + 1, before, now, curLocal / 2, cur);
        i, now := i + 1, nodes[..];
      }
      assert stack[..] == if i < height then stack0[i := cur] else stack0;
      Counted(t, r, height, local, i, now, stack0, stack[..]);
      currentIndex := ci + 1;
      rc := if currentIndex >= Pow2(height) then 1 else 0;
    }

    method StoreLeaf(t: Tree, leafValue: Digest)
      requires Holds(t) && currentIndex < Pow2(height)
      requires leafValue == Value(t, Root(), Pow2(height) + currentIndex)
      modifies nodes
      ensures Climbing(t, Root(), height, Pow2(height) + currentIndex, 0, nodes[..])
      ensures KeptBeyond(height, currentIndex + 1, old(nodes[..]), nodes[..])
    {
      ghost var before := nodes[..];
      var local := Pow2(height) + currentIndex;
      nodes[local] := leafValue;
      assert nodes[..] == before[local := Value(t, Root(), local)];
      RowsWrite(t, Root(), height, local, before, local);
      WrittenByClimb(t, Root(), height, currentIndex, 0, nodes[..]);
      ShrNone(local);
    }
  }

  /** Slots not written by the first i leaves are as before. */
  ghost predicate KeptBeyond(sh: nat, i: nat, before: seq<Digest>, after: seq<Digest>) {
    |after| == |before| && forall x :: 0 <= x < |after| && !Merged(sh, i, x) ==> after[x] == before[x]
  }

  lemma KeptSelf(sh: nat, i: nat, nodes: seq<Digest>)
    ensures KeptBeyond(sh, i, nodes, nodes)
  {
  }

  lemma KeptWrite(sh: nat, i: nat, before: seq<Digest>, after: seq<Digest>, x: nat, v: Digest)
    requires KeptBeyond(sh, i, before, after) && x < |after| && Merged(sh, i, x)
    ensures KeptBeyond(sh, i, before, after[x := v])
  {
    hide Merged;
  }

  lemma KeptFarther(sh: nat, i: nat, start: seq<Digest>, before: seq<Digest>, after: seq<Digest>)
    requires i > 0 && KeptBeyond(sh, i - 1, start, before) && KeptBeyond(sh, i, before, after)
    ensures KeptBeyond(sh, i, start, after)
  {
    hide Merged;
    forall x | 0 <= x < |after| && !Merged(sh, i, x)
      ensures after[x] == start[x]
    {
      if Merged(sh, i - 1, x) {
        MergedGrows(sh, i - 1, i, x);
      }
    }
  }

  lemma WrittenByClimb(t: Tree, r: nat, sh: nat, ci: nat, i: nat, nodes: seq<Digest>)
    requires r >= 1 && ci < Pow2(sh) && Climbing(t, r, sh, Pow2(sh) + ci, i, nodes)
    ensures Merged(sh, ci + 1, Shr(Pow2(sh) + ci, i))
  {
    MergedByClimb(sh, ci, i);
  }

  lemma WaitingLeft(t: Tree, r: nat, sh: nat, n: nat, i: nat, stack: seq<Digest>)
    requires r >= 1 && i < sh && StackHolds(t, r, sh, n, stack) && Shr(n, i) % 2 == 1
    ensures |stack| == sh && stack[i] == Value(t, r, Shr(n, i) - 1)
  {
  }

  /** When the climb stops at the lowest zero bit of the counter, the leaf is counted. */
  lemma Counted(t: Tree, r: nat, sh: nat, n: nat, i: nat, nodes: seq<Digest>, stack: seq<Digest>, stack': seq<Digest>)
    requires r >= 1 && Climbing(t, r, sh, n, i, nodes)
    requires i < sh ==> Shr(n, i) % 2 == 0
    requires StackHolds(t, r, sh, n, stack)
    requires stack' == if i < sh then stack[i := Value(t, r, Shr(n, i))] else stack
    ensures Rows(t, r, sh, n + 1, nodes) && StackHolds(t, r, sh, n + 1, stack')
  {
    RowsAdvance(t, r, sh, n, n + 1, i, nodes);
    StackAdvance(t, r, sh, n, n + 1, i, stack, stack');
  }
}
