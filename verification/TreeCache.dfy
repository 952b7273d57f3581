/** The tree cache of src/lms_subtree.c: the tree cut into layers of subtrees, one cached
    subtree a layer, rebuilt only when the signing index leaves its segment. */
module TreeCache {
  import opened Words
  import opened MerkleTree
  import opened Subtree

  // ---- geometry of a layer ----

  /** Leaf number i of the subtree whose root is the m-th node of level `level`. */
  lemma LeafNumber(h: nat, level: nat, sh: nat, m: nat, i: nat)
    requires sh <= level <= h && i < Pow2(sh)
    ensures Descend(Pow2(h - level) + m, Pow2(sh) + i) == Pow2(h - level + sh) + (m * Pow2(sh) + i)
  {
    hide Pow2, Descend;
    Pow2Step(sh);
    GlobalNumber(h - level, m, Pow2(sh) + i, sh);
  }

  lemma SegmentIndexBelow(h: nat, level: nat, sh: nat, m: nat, i: nat)
    requires sh <= level <= h && i < Pow2(sh) && m < Pow2(h - level)
    ensures m * Pow2(sh) + i < Pow2(h - level + sh)
  {
    Pow2Add(h - level, sh);
    MulLe(m + 1, Pow2(h - level), Pow2(sh));
    Distribute(m, 1, Pow2(sh));
  }

  lemma ChildSegment(base: nat, sh: nat, m: nat, k: nat)
    ensures m * Pow2(base + sh) + k * Pow2(base) == (m * Pow2(sh) + k) * Pow2(base)
    ensures Shr(m * Pow2(base + sh), base) == m * Pow2(sh)
    ensures Shr(m * Pow2(sh), sh) == m
  {
    Pow2Add(base, sh);
    assert m * Pow2(base + sh) == m * Pow2(sh) * Pow2(base);
    Distribute(m * Pow2(sh), k, Pow2(base));
    ShrOfSum(m * Pow2(sh), 0, base);
    ShrOfSum(m, 0, sh);
  }

  /** The local leaf index of q in its own subtree, seen from the whole tree. */
  lemma LocalLeaf(t: Tree, q: nat, base: nat, sh: nat)
    requires q < Pow2(t.height) && base + sh <= t.height
    ensures Descend(Pow2(t.height - base - sh) + Shr(q, base + sh), Pow2(sh) + Shr(q, base) % Pow2(sh))
         == Ancestor(t, q, base)
  {
    hide Pow2, Shr, Descend;
    var pos := Shr(q, base);
    ShrShr(q, base, sh);
    ShrEqDiv(pos, sh);
    DivMod(pos, Pow2(sh));
    LeafNumber(t.height, base + sh, sh, Shr(q, base + sh), pos % Pow2(sh));
    ShrPow2Plus(t.height, q, base);
  }

  /** Walking up from leaf q inside its own subtree meets the siblings of q's ancestors in the whole tree. */
  lemma LocalWalk(t: Tree, q: nat, base: nat, sh: nat, d: nat, local: nat, r: nat)
    requires q < Pow2(t.height) && base + sh <= t.height && d < sh
    requires Pow2(sh) <= local < Pow2(sh + 1) && r >= 1
    requires Descend(r, local) == Ancestor(t, q, base)
    ensures 2 <= Shr(local, d) && Sibling(Shr(local, d)) < Pow2(sh + 1)
    ensures Sibling(Ancestor(t, q, base + d)) >= 1
    ensures Value(t, r, Sibling(Shr(local, d))) == TreeNode(t, Sibling(Ancestor(t, q, base + d)))
  {
    hide TreeNode, Descend;
    ShrRange(local, sh, d);
    assert Pow2(sh - d) == 2 * Pow2(sh - d - 1);
    var x := Shr(local, d);
    Pow2Monotone(sh - d + 1, sh + 1);
    DescendShr(r, local, d);
    ShrShr(Pow2(t.height) + q, base, d);
    DescendSibling(r, x);
    SiblingInRow(x, sh - d);
    AncestorPositive(t, q, base + d);
  }

  lemma DivMod(x: nat, d: nat)
    requires d > 0
    ensures x == x / d * d + x % d
  {
  }

  /** The unsigned test q - lo < span of lms_tree_sign_advance, with its 64-bit wrap-around. */
  predicate InSegment(q: nat, lo: nat, span: nat) {
    (q - lo) % Pow2(64) < span
  }

  lemma SegmentTest(q: nat, level: nat, h: nat, k0: nat)
    requires level <= h <= 25 && q < Pow2(h) && k0 < Pow2(h - level)
    ensures InSegment(q, k0 * Pow2(level), Pow2(level)) <==> Shr(q, level) == k0
  {
    hide Shr, Pow2;
    var lo, span := k0 * Pow2(level), Pow2(level);
    ShrIsDiv(q, level);
    SegmentIndexBelow(h, level, level, k0, 0);
    Pow2Monotone(h, 25);
    Pow2Monotone(level, 25);
    LargePowers();
    Distribute(k0, 1, span);
    if q < lo {
      WrappedBelow(q - lo);
    } else if q < lo + span {
      DivUnique(q, k0, span);
      ShrEqDiv(q, level);
    } else {
      assert (q - lo) % Pow2(64) == q - lo;
    }
  }

  lemma WrappedBelow(d: int)
    requires -0x200_0000 <= d < 0
    ensures d % Pow2(64) == d + Pow2(64)
  {
    LargePowers();
  }

  // ---- the whole shape under other numbers ----

  /** What a full build computes at local node x when its root has number r: r = 1 is the tree itself. */
  ghost function Numbered(t: Tree, r: nat, x: nat): Digest
    requires r >= 1 && x >= 1
    decreases if x >= Pow2(t.height) then 0 else Pow2(t.height) - x
  {
    DescendAtLeast(r, x);
    if x >= Pow2(t.height) then t.leaf(Descend(r, x) - Pow2(t.height))
    else t.node(Descend(r, x), Numbered(t, r, 2 * x), Numbered(t, r, 2 * x + 1))
  }

  lemma {:induction false} DescendAtLeast(r: nat, x: nat)
    requires r >= 1
    ensures Descend(r, x) >= x
  {
    if x > 1 {
      DescendAtLeast(r, x / 2);
    }
  }

  lemma {:induction false} DescendFromOne(x: nat)
    requires x >= 1
    ensures Descend(1, x) == x
  {
    if x > 1 {
      DescendFromOne(x / 2);
    }
  }

  lemma NumberedInternal(t: Tree, r: nat, x: nat)
    requires r >= 1 && 1 <= x < Pow2(t.height)
    ensures Numbered(t, r, x) == t.node(Descend(r, x), Numbered(t, r, 2 * x), Numbered(t, r, 2 * x + 1))
  {
  }

  lemma {:induction false} NumberedIsTree(t: Tree, x: nat)
    requires x >= 1
    ensures Numbered(t, 1, x) == TreeNode(t, x)
    decreases if x >= Pow2(t.height) then 0 else Pow2(t.height) - x
  {
    hide Descend;
    DescendFromOne(x);
    if x < Pow2(t.height) {
      NumberedIsTree(t, 2 * x);
      NumberedIsTree(t, 2 * x + 1);
    }
  }

  // ---- what failed rebuilds leave in a buffer ----

  /** One build of a buffer: the segment it was for, and how many leaves were merged before it ended. */
  datatype Build = Build(segment: nat, merged: nat)

  /** The segment whose value slot x holds after these builds: the last one that got as far as x. */
  ghost function Owner(sh: nat, history: seq<Build>, x: nat): nat
    decreases |history|
  {
    if history == [] then 0
    else
      var last := history[|history| - 1];
      if Merged(sh, last.merged, x) then last.segment else Owner(sh, history[..|history| - 1], x)
  }

  /** After these builds, every slot that the lookup for local leaf a reads belongs to the segment built last. */
  ghost predicate PathOwned(sh: nat, history: seq<Build>, a: nat)
    requires history != []
  {
    forall d :: 0 <= d < sh ==> Owner(sh, history, PathSlot(sh, a, d)) == history[|history| - 1].segment
  }

  /** The last build broke off, on top of a complete subtree of another segment. */
  ghost predicate Interrupted(sh: nat, history: seq<Build>) {
    && |history| >= 2
    && history[|history| - 2].merged == Pow2(sh) && history[|history| - 2].segment != history[|history| - 1].segment
    && history[|history| - 1].merged < Pow2(sh)
  }

  lemma OwnerComplete(sh: nat, history: seq<Build>, x: nat)
    requires history != [] && history[|history| - 1].merged == Pow2(sh) && 1 <= x < Pow2(sh + 1)
    ensures Owner(sh, history, x) == history[|history| - 1].segment
  {
    MergedAll(sh, x);
  }

  lemma CompleteIsOwned(sh: nat, history: seq<Build>, a: nat)
    requires history != [] && history[|history| - 1].merged == Pow2(sh) && a < Pow2(sh)
    ensures PathOwned(sh, history, a)
  {
    hide Owner, PathSlot, Pow2;
    forall d | 0 <= d < sh
      ensures Owner(sh, history, PathSlot(sh, a, d)) == history[|history| - 1].segment
    {
      PathSlotInRow(sh, a, d);
      OwnerComplete(sh, history, PathSlot(sh, a, d));
    }
  }

  /** After an interrupted build, the path of leaf a is free of old values if and only if only the last leaf is
      missing and a is that leaf. */
  lemma InterruptedPath(sh: nat, history: seq<Build>, a: nat)
    requires Interrupted(sh, history) && a < Pow2(sh)
    ensures PathOwned(sh, history, a) <==> history[|history| - 1].merged == Pow2(sh) - 1 && a == Pow2(sh) - 1
  {
    hide Owner, PathSlot, Merged, Pow2;
    var last := history[|history| - 1];
    forall d | 0 <= d < sh
      ensures Owner(sh, history, PathSlot(sh, a, d)) == last.segment <==> Merged(sh, last.merged, PathSlot(sh, a, d))
    {
      PathSlotInRow(sh, a, d);
      InterruptedOwner(sh, history, PathSlot(sh, a, d));
    }
    AllSiblingsMerged(sh, last.merged, a);
  }

  lemma InterruptedOwner(sh: nat, history: seq<Build>, x: nat)
    requires Interrupted(sh, history) && 1 <= x < Pow2(sh + 1)
    ensures Owner(sh, history, x) == history[|history| - 1].segment <==> Merged(sh, history[|history| - 1].merged, x)
  {
    hide Pow2, Merged;
    var before := history[..|history| - 1];
    assert before[|before| - 1] == history[|history| - 2];
    OwnerComplete(sh, before, x);
  }

  // ---- the context ----

  /** s * j, counted up. */
  function BaseLevel(j: nat, s: nat): nat {
    if s == 0 then 0 else BaseLevel(j, s - 1) + j
  }

  ghost function Footprint(b: SubtreeBuffer): set<object> {
    {b, b.nodes, b.stack}
  }

  ghost predicate Apart(a: SubtreeBuffer, b: SubtreeBuffer) {
    Footprint(a) !! Footprint(b)
  }

  /** No two of the buffers share memory. */
  ghost predicate AllApart(bs: seq<SubtreeBuffer>) {
    forall i, k :: 0 <= i < k < |bs| ==> Apart(bs[i], bs[k])
  }

  ghost predicate Within(bs: seq<SubtreeBuffer>, used: set<object>) {
    forall k :: 0 <= k < |bs| ==> Footprint(bs[k]) <= used
  }

  lemma NoBuffers()
    ensures AllApart([] + []) && Within([], {})
  {
  }

  /** A buffer outside all memory used so far can go to the end of either row. */
  lemma OneMore(act: seq<SubtreeBuffer>, upc: seq<SubtreeBuffer>, used: set<object>, b: SubtreeBuffer)
    requires Within(act, used) && Within(upc, used) && AllApart(act + upc) && Footprint(b) !! used
    ensures AllApart((act + [b]) + upc) && AllApart(act + (upc + [b]))
    ensures Within(act + [b], used + Footprint(b)) && Within(upc + [b], used + Footprint(b))
    ensures Within(act, used + Footprint(b)) && Within(upc, used + Footprint(b))
  {
    hide Footprint;
    RowsApart(act, upc);
    RowsApart(act + [b], upc);
    RowsApart(act, upc + [b]);
  }

  lemma RowsApart(act: seq<SubtreeBuffer>, upc: seq<SubtreeBuffer>)
    ensures AllApart(act + upc) <==>
              && AllApart(act) && AllApart(upc)
              && forall i, k :: 0 <= i < |act| && 0 <= k < |upc| ==> Apart(act[i], upc[k])
  {
    hide Apart;
    var all := act + upc;
    assert forall i :: 0 <= i < |act| ==> all[i] == act[i];
    assert forall k :: 0 <= k < |upc| ==> all[|act| + k] == upc[k];
  }

  /** A buffer as lms_tree_ctx_init sets it up for a layer. */
  ghost predicate LayerBuffer(b: SubtreeBuffer, t: Tree, j: nat, s: nat, subH: nat)
    reads b
  {
    b.Allocated() && b.height == subH && b.level == BaseLevel(j, s) + subH && b.treeHeight == t.height
  }

  class TreeContext {
    const tree: Tree
    const subtreeSize: nat
    const sublevels: nat
    const active: seq<SubtreeBuffer>
    const upcoming: seq<SubtreeBuffer>
    const reliable: bool  // whether the K_q source and the allocator never fail

    /** lms_tree_ctx_init: one active buffer a layer, and an upcoming one for every layer but the top. */
    constructor (t: Tree, j: nat, sublevels: nat, reliable: bool)
      requires 1 <= t.height <= 25 && j >= 1 && sublevels >= 1
      requires BaseLevel(j, sublevels - 1) < t.height
      ensures tree == t && subtreeSize == j && this.sublevels == sublevels && this.reliable == reliable
      ensures Geometry() && Wellformed()
      ensures forall s :: 0 <= s < sublevels ==> Positioned(s) && active[s].leftLeaf == 0
      ensures fresh(AllBuffers())
    {
      var act, upc;
      ghost var used;
      act, upc, used := AllocateLayers(t, j, sublevels);
      tree, subtreeSize, this.sublevels, this.reliable := t, j, sublevels, reliable;
      active, upcoming := act, upc;
      new;
      BuffersApart();
      ScratchWithin(|upcoming|, used);
    }

    lemma BuffersApart()
      requires Geometry() && AllApart(active + upcoming)
      ensures forall i, k {:trigger Apart(Buffer(i), Buffer(k))} ::
                0 <= i < k < 2 * sublevels - 1 ==> Apart(Buffer(i), Buffer(k))
    {
      hide Apart;
      assert forall i :: 0 <= i < 2 * sublevels - 1 ==> (active + upcoming)[i] == Buffer(i);
    }

    lemma ScratchWithin(s: nat, used: set<object>)
      requires s <= |upcoming|
      requires forall k :: 0 <= k < |upcoming| ==> Footprint(upcoming[k]) <= used
      ensures ScratchArea(s) <= used
    {
    }

    static method AllocateLayers(t: Tree, j: nat, sublevels: nat) returns (act: seq<SubtreeBuffer>, upc: seq<SubtreeBuffer>, ghost used: set<object>)
      requires sublevels >= 1 && j >= 1 && BaseLevel(j, sublevels - 1) < t.height
      ensures |act| == sublevels && |upc| == sublevels - 1
      ensures forall s :: 0 <= s < |act| ==>
                LayerBuffer(act[s], t, j, s, if s + 1 < sublevels then j else t.height - BaseLevel(j, sublevels - 1))
                && act[s].leftLeaf == 0
      ensures forall s :: 0 <= s < |upc| ==> LayerBuffer(upc[s], t, j, s, j)
      ensures fresh(used) && Within(act, used) && Within(upc, used)
      ensures AllApart(act + upc)
    {
      hide Pow2, BaseLevel, AllApart, Within;
      act, upc, used := [], [], {};
      NoBuffers();
      var s := 0;
      while s < sublevels
        invariant 0 <= s <= sublevels && |act| == s && |upc| == if s < sublevels then s else s - 1
        invariant fresh(used) && Within(act, used) && Within(upc, used) && AllApart(act + upc)
        invariant forall k :: 0 <= k < |act| ==>
                    LayerBuffer(act[k], t, j, k, if k + 1 < sublevels then j else t.height - BaseLevel(j, sublevels - 1))
                    && act[k].leftLeaf == 0
        invariant forall k :: 0 <= k < |upc| ==> LayerBuffer(upc[k], t, j, k, j)
      {
        var subH := if s + 1 < sublevels then j else t.height - BaseLevel(j, sublevels - 1);
        var a := new SubtreeBuffer(subH, BaseLevel(j, s) + subH, BaseLevel(j, s), t.height, 0);
        OneMore(act, upc, used, a);
        act, used := act + [a], used + Footprint(a);
        if s + 1 < sublevels {
          var u := new SubtreeBuffer(subH, BaseLevel(j, s) + subH, BaseLevel(j, s), t.height, Pow2(subH));
          OneMore(act, upc, used, u);
          upc, used := upc + [u], used + Footprint(u);
        }
        s := s + 1;
      }
    }

    /** First whole-tree level of layer s. */
    function Base(s: nat): nat {
      BaseLevel(subtreeSize, s)
    }

    /** Height of the subtrees of layer s: the top layer takes what is left. */
    function SubHeight(s: nat): nat
      requires Geometry()
    {
      if s + 1 < sublevels then subtreeSize else tree.height - Base(sublevels - 1)
    }

    /** Whole-tree level of the roots of layer s. */
    function RootLevel(s: nat): (r: nat)
      requires Geometry() && s < sublevels
      ensures r <= tree.height
    {
      BaseMonotone(if s + 1 < sublevels then s + 1 else s, sublevels - 1);
      Base(s) + SubHeight(s)
    }

    /** Node number of the root of the k-th subtree under the m-th subtree of layer s. */
    ghost function RootBelow(s: nat, m: nat, k: nat): (r: nat)
      requires Geometry() && s < sublevels
      ensures r >= 1
    {
      BaseMonotone(s, sublevels - 1);
      Pow2(tree.height - Base(s)) + (m * Pow2(SubHeight(s)) + k)
    }

    predicate Geometry() {
      && 1 <= tree.height <= 25
      && 1 <= subtreeSize && 1 <= sublevels
      && Base(sublevels - 1) < tree.height
      && |active| == sublevels && |upcoming| == sublevels - 1
    }

    /** Heights add up and no two buffers share memory. Depends on constants only. */
    ghost predicate Wellformed() {
      && Geometry()
      && (forall s :: 0 <= s < sublevels ==> active[s].Allocated() && active[s].height == SubHeight(s))
      && (forall s :: 0 <= s < sublevels - 1 ==> upcoming[s].Allocated() && upcoming[s].height == subtreeSize)
      && (forall i, k {:trigger Apart(Buffer(i), Buffer(k))} ::
            0 <= i < k < 2 * sublevels - 1 ==> Apart(Buffer(i), Buffer(k)))
    }

    /** All buffers in one row: the active ones, then the upcoming ones. */
    function Buffer(i: nat): SubtreeBuffer
      requires Geometry() && i < 2 * sublevels - 1
    {
      if i < sublevels then active[i] else upcoming[i - sublevels]
    }

    /** The scratch buffers used while a subtree of layer s is built: the upcoming buffers below it. */
    ghost function ScratchArea(s: nat): set<object>
      requires s <= |upcoming|
    {
      if s == 0 then {} else ScratchArea(s - 1) + Footprint(upcoming[s - 1])
    }

    lemma {:induction false} ScratchContains(s: nat, k: nat)
      requires k < s <= |upcoming|
      ensures Footprint(upcoming[k]) <= ScratchArea(s)
    {
      if k < s - 1 {
        ScratchContains(s - 1, k);
      }
    }

    lemma {:induction false} ActiveApartFromScratch(i: nat, s: nat)
      requires Wellformed() && i < sublevels && s < sublevels
      ensures Footprint(active[i]) !! ScratchArea(s)
    {
      if s > 0 {
        ActiveApartFromScratch(i, s - 1);
        assert Apart(Buffer(i), Buffer(sublevels + (s - 1)));
      }
    }

    lemma {:induction false} UpcomingApartFromScratch(i: nat, s: nat)
      requires Wellformed() && i < sublevels - 1 && s <= i
      ensures Footprint(upcoming[i]) !! ScratchArea(s)
    {
      if s > 0 {
        UpcomingApartFromScratch(i, s - 1);
        assert Apart(Buffer(sublevels + (s - 1)), Buffer(sublevels + i));
      }
    }

    lemma ActivesApart(i: nat, k: nat)
      requires Wellformed() && i < sublevels && k < sublevels && i != k
      ensures Footprint(active[i]) !! Footprint(active[k])
    {
      assert if i < k then Apart(Buffer(i), Buffer(k)) else Apart(Buffer(k), Buffer(i));
    }

    lemma {:induction false} BaseMonotone(s: nat, k: nat)
      requires s <= k
      ensures Base(s) <= Base(k)
    {
      if s < k {
        BaseMonotone(s, k - 1);
      }
    }

    /** Base(s) is the s * j of the code. */
    lemma {:induction false} BaseIsProduct(s: nat)
      ensures Base(s) == s * subtreeSize
    {
      if s > 0 {
        BaseIsProduct(s - 1);
        Distribute(s - 1, 1, subtreeSize);
      }
    }

    lemma LayerFits(s: nat)
      requires Geometry() && s < sublevels
      ensures 1 <= SubHeight(s) <= RootLevel(s) <= tree.height
      ensures s + 1 == sublevels ==> RootLevel(s) == tree.height
      ensures s + 1 < sublevels ==> RootLevel(s) == Base(s + 1) && SubHeight(s) == subtreeSize
      ensures s > 0 ==> RootLevel(s - 1) == Base(s) && SubHeight(s - 1) == subtreeSize
    {
      if s + 1 < sublevels {
        BaseMonotone(s + 1, sublevels - 1);
      }
    }

    /** Whole-tree coordinates of layer s are in place, as the constructor and every build leave them. */
    ghost predicate Positioned(s: nat)
      requires Geometry() && s < sublevels
      reads active[s]
    {
      active[s].level == RootLevel(s) && active[s].treeHeight == tree.height
    }

    /** Where the operations leave the buffer of a one-layer context: at leaf 0, or at 2^h after key generation. */
    ghost predicate AtEdge()
      requires Geometry()
      reads active[0]
    {
      Positioned(0) && (active[0].leftLeaf == 0 || active[0].leftLeaf == Pow2(tree.height))
    }

    // ---- building one subtree ----

    /** subtree_compute_leaf: the D_LEAF value of leaf q, or a failure of the K_q source. */
    method ComputeLeaf(q: nat) returns (ok: bool, leaf: Digest)
      ensures (ok ==> leaf == tree.leaf(q)) && (reliable ==> ok)
    {
      var fails: bool := *;
      if fails && !reliable {
        return false, ZeroDigest();
      }
      return true, tree.leaf(q);
    }

    /** sub is the buffer of the m-th subtree at its level. */
    ghost predicate Placed(sub: SubtreeBuffer, m: nat)
      reads sub
    {
      && sub.Allocated()
      && sub.InTree() && sub.treeHeight == tree.height
      && Shr(sub.leftLeaf, sub.height) == m
    }

    lemma NextLeaf(sub: SubtreeBuffer, m: nat, i: nat)
      requires Placed(sub, m) && i < Pow2(sub.height)
      ensures Value(tree, sub.Root(), Pow2(sub.height) + i)
           == TreeNode(tree, Pow2(tree.height - sub.level + sub.height) + (m * Pow2(sub.height) + i))
    {
      hide TreeNode, Descend, Pow2, Shr;
      LeafNumber(tree.height, sub.level, sub.height, m, i);
    }

    lemma RootValue(sub: SubtreeBuffer, m: nat)
      requires Placed(sub, m) && sub.Complete(tree)
      ensures sub.nodes.Length > 1
      ensures sub.nodes[1] == TreeNode(tree, Pow2(tree.height - sub.level) + m)
    {
      RowsComplete(tree, sub.Root(), sub.height, sub.nodes[..], 1);
    }

    /** subtree_build_bottom: leaves are real leaves left, left + 1, .. */
    method BuildBottom(sub: SubtreeBuffer, left: nat, ghost m: nat) returns (ok: bool)
      requires sub.Allocated() && sub.height == sub.level <= sub.treeHeight == tree.height
      requires left == m * Pow2(sub.height) && m < Pow2(tree.height - sub.level)
      modifies sub, sub.nodes, sub.stack
      ensures sub.leftLeaf == left && sub.level == old(sub.level) && Placed(sub, m)
      ensures sub.Holds(tree)
      ensures (ok <==> sub.currentIndex == Pow2(sub.height)) && (reliable ==> ok)
      ensures KeptBeyond(sub.height, sub.currentIndex, old(sub.nodes[..]), sub.nodes[..])
    {
      hide Pow2, Shr, Value, TreeNode, Rows, StackHolds, Descend, Wellformed, KeptBeyond;
      var count := Pow2(sub.height);
      var done := 0;
      sub.ResetTo(tree, left);
      ShrOfSum(m, 0, sub.height);
      KeptSelf(sub.height, 0, sub.nodes[..]);
      var i := 0;
      while i < count
        invariant 0 <= i <= count
        invariant sub.Holds(tree) && sub.currentIndex == i && Placed(sub, m)
        invariant sub.leftLeaf == left && sub.level == old(sub.level)
        invariant done == if i == count then 1 else 0
        invariant KeptBeyond(sub.height, i, old(sub.nodes[..]), sub.nodes[..])
      {
        var leafOk, leaf := ComputeLeaf(left + i);
        if !leafOk {
          return false;
        }
        NextLeaf(sub, m, i);
        TreeNodeLeaf(tree, left + i);
        ghost var before := sub.nodes[..];
        done := sub.AddNextNode(tree, leaf);
        i := i + 1;
        KeptFarther(sub.height, i, old(sub.nodes[..]), before, sub.nodes[..]);
      }
      ok := done == 1;
    }

    /** subtree_build_upper: leaves are the given roots of the subtrees one layer down. */
    method BuildUpper(sub: SubtreeBuffer, left: nat, lowerRoots: seq<Digest>, ghost m: nat) returns (ok: bool)
      requires sub.Allocated() && sub.height <= sub.level <= sub.treeHeight == tree.height
      requires left == m * Pow2(sub.height) && m < Pow2(tree.height - sub.level)
      requires |lowerRoots| == Pow2(sub.height)
      requires forall i :: 0 <= i < |lowerRoots| ==>
                 lowerRoots[i] == TreeNode(tree, Pow2(tree.height - sub.level + sub.height) + (left + i))
      modifies sub, sub.nodes, sub.stack
      ensures sub.leftLeaf == left && sub.level == old(sub.level) && Placed(sub, m)
      ensures sub.Complete(tree) && ok
    {
      hide Pow2, Shr, Value, TreeNode, Rows, StackHolds, Descend, Wellformed;
      var count := Pow2(sub.height);
      var done := 0;
      sub.ResetTo(tree, left);
      ShrOfSum(m, 0, sub.height);
      var i := 0;
      while i < count
        invariant 0 <= i <= count
        invariant sub.Holds(tree) && sub.currentIndex == i && Placed(sub, m)
        invariant sub.leftLeaf == left && sub.level == old(sub.level)
        invariant done == if i == count then 1 else 0
      {
        NextLeaf(sub, m, i);
        done := sub.AddNextNode(tree, lowerRoots[i]);
        i := i + 1;
      }
      ok := done == 1;
    }

    /** subtree_build_at: build the m-th subtree of layer s in `scratch`, layer by layer from the real leaves,
        each layer below using its own upcoming buffer. Only an allocation or a leaf can fail; then a bottom buffer
        already stands at the new segment, with the leaves merged so far on top of what it held before, and a buffer
        above it is as it was. */
    method BuildAt(s: nat, leafLo: nat, scratch: SubtreeBuffer, ghost m: nat) returns (ok: bool)
      requires Geometry() && Wellformed() && s < sublevels
      requires scratch.Allocated() && scratch.height == SubHeight(s) && Footprint(scratch) !! ScratchArea(s)
      requires leafLo == m * Pow2(RootLevel(s)) && m < Pow2(tree.height - RootLevel(s))
      modifies Footprint(scratch) + ScratchArea(s)
      ensures ok ==> scratch.Complete(tree) && Placed(scratch, m) && scratch.level == RootLevel(s)
      ensures reliable ==> ok
      ensures scratch.level == RootLevel(s) && scratch.treeHeight == tree.height
      ensures s == 0 ==> Placed(scratch, m) && scratch.leftLeaf == leafLo && scratch.Holds(tree) && (ok <==> scratch.currentIndex == Pow2(scratch.height))
                         && KeptBeyond(scratch.height, scratch.currentIndex, old(scratch.nodes[..]), scratch.nodes[..])
      ensures !ok && s > 0 ==> scratch.leftLeaf == old(scratch.leftLeaf) && scratch.nodes[..] == old(scratch.nodes[..])
      decreases s, 1
    {
      hide Pow2, Shr, Value, TreeNode, Rows, StackHolds, Descend, KeptBeyond;
      LayerFits(s);
      scratch.level := Base(s) + scratch.height;
      scratch.levelsBelow := Base(s);
      scratch.treeHeight := tree.height;
      if s == 0 {
        ok := BuildBottom(scratch, leafLo, m);
        return;
      }
      var count := Pow2(scratch.height);
      var fails: bool := *;
      if fails && !reliable {
        return false;
      }
      var roots: seq<Digest> := [];
      var k := 0;
      while k < count
        invariant 0 <= k <= count && |roots| == k
        invariant forall i :: 0 <= i < k ==>
                    roots[i] == TreeNode(tree, RootBelow(s, m, i))
        invariant scratch.level == RootLevel(s) && scratch.treeHeight == tree.height
        invariant scratch.leftLeaf == old(scratch.leftLeaf) && scratch.nodes[..] == old(scratch.nodes[..])
        modifies ScratchArea(s)
      {
        var lowerOk, root := LowerRoot(s, leafLo, k, m);
        if !lowerOk {
          return false;
        }
        roots := roots + [root];
        k := k + 1;
      }
      ChildSegment(Base(s), scratch.height, m, 0);
      ok := BuildUpper(scratch, Shr(leafLo, Base(s)), roots, m);
    }

    /** The root of the k-th subtree one layer below the m-th subtree of layer s, built in the upcoming buffer. */
    method LowerRoot(s: nat, leafLo: nat, k: nat, ghost m: nat) returns (ok: bool, root: Digest)
      requires Geometry() && Wellformed() && 1 <= s < sublevels
      requires k < Pow2(SubHeight(s))
      requires leafLo == m * Pow2(RootLevel(s)) && m < Pow2(tree.height - RootLevel(s))
      modifies ScratchArea(s)
      ensures ok ==> root == TreeNode(tree, RootBelow(s, m, k))
      ensures reliable ==> ok
      decreases s, 0
    {
      hide Pow2, Shr, Value, TreeNode, Rows, StackHolds, Descend;
      LayerFits(s);
      var lower := upcoming[s - 1];
      var span := Pow2(Base(s - 1) + lower.height);
      ghost var m1 := m * Pow2(SubHeight(s)) + k;
      ChildSegment(Base(s), SubHeight(s), m, k);
      SegmentIndexBelow(tree.height, RootLevel(s), SubHeight(s), m, k);
      UpcomingApartFromScratch(s - 1, s - 1);
      ok := BuildAt(s - 1, leafLo + k * span, lower, m1);
      if !ok {
        return false, ZeroDigest();
      }
      RootValue(lower, m1);
      root := lower.nodes[1];
    }

    // ---- the signature cache ----

    /** Layer s caches a subtree of its level, every node of it true. */
    ghost predicate Cached(s: nat)
      requires Geometry() && s < sublevels
      reads Footprint(active[s])
    {
      active[s].Filled(tree) && active[s].InTree() && active[s].level == RootLevel(s)
    }

    /** Layer s has its coordinates inside the tree; its nodes may be anything. */
    ghost predicate Steady(s: nat)
      requires Geometry() && s < sublevels
      reads active[s]
    {
      && active[s].Allocated() && active[s].InTree()
      && active[s].level == RootLevel(s) && active[s].treeHeight == tree.height
    }

    /** Number, at its level, of the subtree that layer s claims to hold. */
    ghost function Claimed(s: nat): nat
      requires s < |active|
      reads active[s]
    {
      Shr(active[s].leftLeaf, active[s].height)
    }

    /** Layer s holds the subtree above leaf q. */
    ghost predicate Covers(s: nat, q: nat)
      requires Geometry() && s < sublevels
      reads Footprint(active[s])
    {
      Cached(s) && Claimed(s) == Shr(q, RootLevel(s))
    }

    /** Layer s says that it holds the subtree above leaf q. */
    ghost predicate Claims(s: nat, q: nat)
      requires Geometry() && s < sublevels
      reads active[s]
    {
      Claimed(s) == Shr(q, RootLevel(s))
    }

    ghost function AllBuffers(): set<object> {
      (set s, o | 0 <= s < |active| && o in Footprint(active[s]) :: o) + ScratchArea(|upcoming|)
    }

    ghost predicate CacheValid()
      requires Geometry()
      reads AllBuffers()
    {
      forall s :: 0 <= s < sublevels ==> Cached(s)
    }

    /** Number of leaves of a bottom subtree. */
    function BottomSpan(): nat
      requires Geometry()
    {
      Pow2(SubHeight(0))
    }

    /** Number of the bottom segment of leaf q. */
    function BottomSegment(q: nat): nat
      requires Geometry()
    {
      Shr(q, RootLevel(0))
    }

    /** Whole-tree number of the root of bottom segment m. */
    ghost function BottomRoot(m: nat): (r: nat)
      requires Geometry()
      ensures r >= 1
    {
      Pow2(tree.height - RootLevel(0)) + m
    }

    /** The bottom buffer is what these builds leave: it stands at the last one, and every slot holds the true value
        of the segment that owns it. */
    ghost predicate BottomHolds(history: seq<Build>)
      requires Geometry()
      reads active[0], active[0].nodes
    {
      && history != [] && active[0].height == SubHeight(0)
      && Claimed(0) == history[|history| - 1].segment && history[|history| - 1].merged <= BottomSpan()
      && (history[|history| - 1].merged == BottomSpan() || history[|history| - 1].merged == active[0].currentIndex)
      && forall x :: 1 <= x < active[0].nodes.Length ==>
           && Owner(SubHeight(0), history, x) < Pow2(tree.height - RootLevel(0))
           && active[0].nodes[x] == Value(tree, BottomRoot(Owner(SubHeight(0), history, x)), x)
    }

    /** What every request keeps, failed ones included: only the bottom layer can hold less than it claims. */
    ghost predicate Usable(history: seq<Build>)
      requires Geometry()
      reads AllBuffers(), active[0], active[0].nodes
    {
      Steady(0) && BottomHolds(history) && forall s :: 1 <= s < sublevels ==> Cached(s)
    }

    /** No slot has the same true value in two bottom segments. */
    ghost predicate SegmentsDiffer()
      requires Geometry()
    {
      forall a: nat, b: nat, x: nat :: a < b < Pow2(tree.height - RootLevel(0)) && 1 <= x < 2 * BottomSpan() ==>
        Value(tree, BottomRoot(a), x) != Value(tree, BottomRoot(b), x)
    }

    /** How a request for q lengthens the history of the bottom buffer: by one build at the segment of q, unless the
        buffer already stands there. */
    ghost predicate Continues(q: nat, before: seq<Build>, after: seq<Build>)
      requires Geometry()
    {
      && before != []
      && if q >= Pow2(tree.height) || before[|before| - 1].segment == BottomSegment(q) then after == before
         else
           && |after| == |before| + 1 && after[..|before|] == before
           && after[|before|].segment == BottomSegment(q) && after[|before|].merged <= BottomSpan()
    }

    ghost predicate CacheCovers(q: nat)
      requires Geometry()
      reads AllBuffers()
    {
      forall s :: 0 <= s < sublevels ==> Covers(s, q)
    }

    lemma {:induction false} ScratchGrows(s: nat, k: nat)
      requires s <= k <= |upcoming|
      ensures ScratchArea(s) <= ScratchArea(k)
    {
      if s < k {
        ScratchGrows(s, k - 1);
      }
    }

    /** Building layer s leaves the cached subtrees of the other layers alone. */
    lemma BuildStaysInside(s: nat)
      requires Wellformed() && s < sublevels
      ensures Footprint(active[s]) + ScratchArea(s) <= AllBuffers()
      ensures Footprint(active[s]) !! ScratchArea(s)
      ensures forall k :: 0 <= k < sublevels && k != s ==>
                Footprint(active[k]) !! Footprint(active[s]) + ScratchArea(s)
    {
      ScratchGrows(s, |upcoming|);
      ActiveApartFromScratch(s, s);
      forall k | 0 <= k < sublevels && k != s
        ensures Footprint(active[k]) !! Footprint(active[s]) + ScratchArea(s)
      {
        ActivesApart(k, s);
        ActiveApartFromScratch(k, s);
      }
    }

    /** Build layer s's own cached subtree at segment m; the other layers keep theirs. A failed build leaves an upper
        layer as it was, but the bottom layer claims the new segment and keeps every slot that it did not get to. */
    method Rebuild(s: nat, leafLo: nat, ghost m: nat) returns (ok: bool)
      requires Geometry() && Wellformed() && s < sublevels
      requires leafLo == m * Pow2(RootLevel(s)) && m < Pow2(tree.height - RootLevel(s))
      modifies Footprint(active[s]) + ScratchArea(s)
      ensures ok ==> Cached(s) && Claimed(s) == m
      ensures reliable ==> ok
      ensures forall k :: 0 <= k < sublevels && k != s ==> unchanged(Footprint(active[k]))
      ensures s == 0 ==> Steady(0) && Claimed(0) == m && active[0].leftLeaf == leafLo && active[0].Holds(tree)
                         && (ok <==> active[0].currentIndex == Pow2(active[0].height))
      ensures s == 0 ==> KeptBeyond(active[0].height, active[0].currentIndex, old(active[0].nodes[..]), active[0].nodes[..])
      ensures !ok && s > 0 && old(Cached(s)) ==> Cached(s) && Claimed(s) == old(Claimed(s))
    {
      hide Pow2, Shr, Value, TreeNode, Rows, StackHolds, Descend, KeptBeyond;
      BuildStaysInside(s);
      ok := BuildAt(s, leafLo, active[s], m);
      if ok {
        active[s].CompleteIsFilled(tree);
      }
    }

    /** lms_tree_sign_init: build every layer's subtree above leaf 0. */
    method SignInit() returns (ok: bool)
      requires Geometry() && Wellformed()
      modifies AllBuffers()
      ensures ok ==> CacheValid() && CacheCovers(0) && Claimed(0) == 0
      ensures ok ==> active[sublevels - 1].nodes.Length > 1 && active[sublevels - 1].nodes[1] == TreeNode(tree, 1)
      ensures reliable ==> ok
      ensures sublevels == 1 ==> AtEdge() && active[0].leftLeaf == 0
    {
      hide Pow2, Value, TreeNode, Rows, StackHolds, Descend, Wellformed, SubtreeBuffer.Filled;
      var s := 0;
      while s < sublevels
        invariant 0 <= s <= sublevels
        invariant forall k :: 0 <= k < s ==> Cached(k) && Claimed(k) == 0
        invariant s > 0 ==> Steady(0) && active[0].leftLeaf == 0
      {
        BuildStaysInside(s);
        ok := Rebuild(s, 0, 0);
        if !ok {
          return;
        }
        s := s + 1;
      }
      forall k | 0 <= k < sublevels
        ensures Shr(0, RootLevel(k)) == 0
      {
        ShrZero(RootLevel(k));
      }
      assert Claimed(0) == 0;
      TopRoot();
      ok := true;
    }

    /** The top layer's node 1 is the root of the whole tree. */
    lemma TopRoot()
      requires Geometry() && Wellformed() && Covers(sublevels - 1, 0)
      ensures active[sublevels - 1].nodes.Length > 1 && active[sublevels - 1].nodes[1] == TreeNode(tree, 1)
    {
      hide TreeNode, Value, Wellformed;
      LayerFits(sublevels - 1);
      BufferHeight(sublevels - 1);
      LookUp(sublevels - 1, 0, 1);
      ShrZero(tree.height);
      ValueOfRoot(1);
    }

    lemma ValueOfRoot(r: nat)
      requires r >= 1
      ensures Value(tree, r, 1) == TreeNode(tree, r)
    {
    }

    /** One turn of lms_tree_sign_advance: a layer whose claimed segment contains q is left alone, any other one is
        rebuilt at the segment of q. */
    method AdvanceLayer(s: nat, q: nat, ghost history: seq<Build>) returns (ok: bool, ghost now: seq<Build>)
      requires Geometry() && Wellformed() && s + 1 < sublevels && q < Pow2(tree.height)
      requires Steady(s) && (s > 0 ==> Cached(s)) && (s == 0 ==> BottomHolds(history))
      modifies Footprint(active[s]) + ScratchArea(s)
      ensures forall k :: 0 <= k < sublevels && k != s ==> unchanged(Footprint(active[k]))
      ensures old(Claims(s, q)) ==> ok && unchanged(Footprint(active[s]))
      ensures !old(Claims(s, q)) && ok ==> Cached(s)
      ensures Steady(s) && (ok || s == 0 ==> Claims(s, q)) && (s > 0 ==> Cached(s))
      ensures s > 0 ==> now == history
      ensures s == 0 ==> BottomHolds(now) && Continues(q, history, now)
                         && (ok <==> |now| == |history| || now[|history|].merged == BottomSpan())
      ensures reliable ==> ok
    {
      hide Pow2, Value, TreeNode, Rows, StackHolds, Descend, Wellformed, SubtreeBuffer.Filled, Shr, Owner, KeptBeyond,
           InSegment, BaseLevel;
      var lo := Shr(active[s].leftLeaf, active[s].height) * Pow2(active[s].level);
      var span := Pow2(active[s].level);
      LayerFits(s);
      SegmentTest(q, RootLevel(s), tree.height, Claimed(s));
      ok, now := true, history;
      if !InSegment(q, lo, span) {
        var newLo := q / span * span;
        ShrEqDiv(q, RootLevel(s));
        ShrBelow(q, tree.height, RootLevel(s));
        ghost var before := active[0].nodes[..];
        ok := Rebuild(s, newLo, Shr(q, RootLevel(s)));
        CachedFacts(s);
        if s == 0 {
          now := history + [Build(BottomSegment(q), active[0].currentIndex)];
          BuildOnTop(before, history, now);
        }
      }
    }

    /** A build, complete or not, on top of what the bottom buffer held before. */
    lemma BuildOnTop(before: seq<Digest>, history: seq<Build>, now: seq<Build>)
      requires Geometry() && Wellformed() && Steady(0) && active[0].Holds(tree)
      requires now == history + [Build(Claimed(0), active[0].currentIndex)]
      requires KeptBeyond(active[0].height, active[0].currentIndex, before, active[0].nodes[..])
      requires forall x :: 1 <= x < |before| ==>
                 && Owner(SubHeight(0), history, x) < Pow2(tree.height - RootLevel(0))
                 && before[x] == Value(tree, BottomRoot(Owner(SubHeight(0), history, x)), x)
      ensures BottomHolds(now)
    {
      hide Pow2, Value, Rows, StackHolds, Shr, Merged;
      BufferHeight(0);
      assert now[..|history|] == history;
      var sub := active[0];
      forall x | 1 <= x < sub.nodes.Length
        ensures Owner(SubHeight(0), now, x) < Pow2(tree.height - RootLevel(0))
        ensures sub.nodes[x] == Value(tree, BottomRoot(Owner(SubHeight(0), now, x)), x)
      {
        if Merged(sub.height, sub.currentIndex, x) {
          RowsMerged(tree, sub.Root(), sub.height, sub.currentIndex, sub.nodes[..], x);
        }
      }
    }

    /** lms_tree_sign_advance: rebuild the layers whose claimed segment does not contain q. */
    method SignAdvance(q: nat, ghost history: seq<Build>) returns (ok: bool, ghost now: seq<Build>)
      requires Geometry() && Wellformed() && Usable(history)
      modifies AllBuffers()
      ensures Usable(now) && Continues(q, history, now)
      ensures ok ==> |now| == |history| || now[|history|].merged == BottomSpan()
      ensures q >= Pow2(tree.height) ==> !ok
      ensures forall s :: 0 <= s < sublevels && (q >= Pow2(tree.height) || old(Claims(s, q))) ==> unchanged(Footprint(active[s]))
      ensures ok ==> forall s :: 0 <= s < sublevels ==> Claims(s, q)
      ensures ok && (old(Cached(0)) || !old(Claims(0, q))) ==> CacheValid() && CacheCovers(q)
      ensures q < Pow2(tree.height) && reliable ==> ok
      ensures q < Pow2(tree.height) && (forall s :: 1 <= s < sublevels ==> old(Claims(s, q))) ==>
                (ok <==> |now| == |history| || now[|history|].merged == BottomSpan())
    {
      hide Pow2, Wellformed, Shr, BottomHolds, Cached, Claimed, Steady, Covers, Claims, BottomSegment, BottomSpan, RootLevel;
      now := history;
      if q >= Pow2(tree.height) {
        NothingBuilt(q, history);
        return false, now;
      }
      if sublevels == 1 {
        TopClaims(0, q);
        NothingBuilt(q, history);
      }
      var s := 0;
      while s + 1 < sublevels
        invariant 0 <= s < sublevels && Usable(now)
        invariant if s == 0 && sublevels > 1 then now == history else Continues(q, history, now)
        invariant |now| == |history| || (|now| > |history| && now[|history|].merged == BottomSpan())
        invariant forall k :: 0 <= k < sublevels && (s <= k || old(Claims(k, q))) ==> unchanged(Footprint(active[k]))
        invariant forall k :: 0 <= k < s ==> Claims(k, q)
        invariant s > 0 && (old(Cached(0)) || !old(Claims(0, q))) ==> Cached(0)
      {
        BuildStaysInside(s);
        CachedFacts(s);
        assert Claims(s, q) == old(Claims(s, q));
        ok, now := AdvanceLayer(s, q, now);
        if !ok {
          return;
        }
        s := s + 1;
      }
      CachedFacts(s);
      TopClaims(s, q);
      assert s == 0 ==> Cached(0) == old(Cached(0)) && old(Claims(0, q));
      forall k | 0 <= k < sublevels && (old(Cached(0)) || !old(Claims(0, q)))
        ensures Covers(k, q)
      {
        assert Claims(k, q);
        CoversWhen(k, q);
      }
      ok := true;
    }

    /** A request that the bottom layer need not move for. */
    lemma NothingBuilt(q: nat, history: seq<Build>)
      requires Geometry() && BottomHolds(history) && (q >= Pow2(tree.height) || Claims(0, q))
      ensures Continues(q, history, history)
    {
      hide Owner, Value, Shr;
    }

    lemma CoversWhen(s: nat, q: nat)
      requires Geometry() && s < sublevels && Cached(s) && Claims(s, q)
      ensures Covers(s, q)
    {
    }

    lemma CachedFacts(s: nat)
      requires Geometry() && s < sublevels
      ensures Cached(s) ==> Steady(s)
    {
    }

    /** A valid cache, seen as one complete build of the bottom buffer. */
    lemma ValidIsUsable()
      requires Geometry() && Wellformed() && CacheValid()
      ensures Usable([Build(Claimed(0), BottomSpan())]) && Cached(0)
    {
      hide Pow2, Value, Shr;
      CachedFacts(0);
      BufferHeight(0);
      var sub, history := active[0], [Build(Claimed(0), BottomSpan())];
      assert Cached(0);
      forall x | 1 <= x < sub.nodes.Length
        ensures Owner(SubHeight(0), history, x) < Pow2(tree.height - RootLevel(0))
        ensures sub.nodes[x] == Value(tree, BottomRoot(Owner(SubHeight(0), history, x)), x)
      {
        RowsComplete(tree, sub.Root(), sub.height, sub.nodes[..], x);
        OwnerComplete(SubHeight(0), history, x);
      }
    }

    lemma UpperFromClaims(q: nat, history: seq<Build>)
      requires Geometry() && Usable(history) && forall s :: 0 <= s < sublevels ==> Claims(s, q)
      ensures UpperCovers(q)
    {
      hide Cached, Claimed, Shr;
      forall s | 1 <= s < sublevels
        ensures Covers(s, q)
      {
        assert Claims(s, q);
      }
    }

    lemma TopClaims(s: nat, q: nat)
      requires Geometry() && s + 1 == sublevels && q < Pow2(tree.height) && Steady(s)
      ensures Claims(s, q)
    {
      ShrBelow(q, tree.height, tree.height);
    }

    // ---- table lookup ----

    /** Slot of the bottom buffer in which the lookup for q reads at height i. */
    ghost function BottomSlot(q: nat, i: nat): nat
      requires Geometry()
    {
      PathSlot(SubHeight(0), q % BottomSpan(), i)
    }

    /** lms_tree_auth_path: copy the siblings out of the cached subtrees, leaf to root. Below the first layer boundary
        the answer is whatever the bottom buffer holds; above it, it is right whenever the upper layers cover q. */
    method AuthPath(q: nat) returns (ok: bool, path: seq<Digest>)
      requires Geometry() && Wellformed()
      ensures ok <==> q < Pow2(tree.height)
      ensures ok ==> |path| == tree.height && BottomRead(q, path)
      ensures ok && UpperCovers(q) ==> PathTail(q, path)
    {
      hide Shr, Wellformed, Pow2, PathRead;
      path := [];
      NothingRead(q);
      if q >= Pow2(tree.height) {
        return false, path;
      }
      var pos: nat := q;
      var s := 0;
      ShrNone(q);
      while s < sublevels
        invariant 0 <= s <= sublevels
        invariant |path| == if s < sublevels then Base(s) else tree.height
        invariant s < sublevels ==> pos == Shr(q, Base(s))
        invariant s > 0 ==> |path| >= SubHeight(0)
        invariant PathRead(q, path)
      {
        LayerFits(s);
        ShrShr(q, Base(s), SubHeight(s));
        BufferHeight(s);
        var subH := active[s].height;
        var local := Pow2(subH) + pos % Pow2(subH);
        ghost var leafLocal := local;
        ShrNone(local);
        var d := 0;
        while d < subH
          invariant 0 <= d <= subH && local == Shr(leafLocal, d)
          invariant |path| == Base(s) + d && (s > 0 ==> |path| >= SubHeight(0))
          invariant PathRead(q, path)
        {
          ReadSibling(s, q, leafLocal, d, path);
          path := path + [active[s].nodes[Sibling(local)]];
          ShrStep(leafLocal, d);
          local := local / 2;
          d := d + 1;
        }
        pos := Shr(pos, subH);
        s := s + 1;
      }
      PathIsRead(q, path);
      ok := true;
    }

    /** What a path read so far consists of. */
    ghost predicate PathRead(q: nat, path: seq<Digest>)
      requires Geometry()
      reads AllBuffers(), active[0].nodes
    {
      BottomRead(q, path) && (UpperCovers(q) ==> PathTail(q, path))
    }

    lemma NothingRead(q: nat)
      requires Geometry()
      ensures PathRead(q, [])
    {
    }

    lemma PathIsRead(q: nat, path: seq<Digest>)
      requires Geometry() && PathRead(q, path)
      ensures BottomRead(q, path) && (UpperCovers(q) ==> PathTail(q, path))
    {
      hide BottomRead, UpperCovers, PathTail;
    }

    /** One more sibling, read at height d of layer s. */
    lemma ReadSibling(s: nat, q: nat, leafLocal: nat, d: nat, path: seq<Digest>)
      requires Geometry() && Wellformed() && s < sublevels && q < Pow2(tree.height) && d < SubHeight(s)
      requires leafLocal == Pow2(SubHeight(s)) + Shr(q, Base(s)) % Pow2(SubHeight(s))
      requires |path| == Base(s) + d < tree.height && (s > 0 ==> |path| >= SubHeight(0)) && PathRead(q, path)
      ensures Sibling(Shr(leafLocal, d)) < active[s].nodes.Length
      ensures PathRead(q, path + [active[s].nodes[Sibling(Shr(leafLocal, d))]])
    {
      hide Shr, Value, TreeNode, Wellformed, Pow2, Cached, Claimed;
      SiblingSlot(s, q, leafLocal, d);
      if s == 0 {
        BaseZero();
        ShrNone(q);
      } else if UpperCovers(q) {
        LookUp(s, q, Sibling(Shr(leafLocal, d)));
      }
    }

    /** The part of a path that comes out of the bottom buffer. */
    ghost predicate BottomRead(q: nat, path: seq<Digest>)
      requires Geometry()
      reads active[0].nodes
    {
      forall i :: 0 <= i < |path| && i < SubHeight(0) ==>
        BottomSlot(q, i) < active[0].nodes.Length && path[i] == active[0].nodes[BottomSlot(q, i)]
    }

    ghost predicate UpperCovers(q: nat)
      requires Geometry()
      reads AllBuffers()
    {
      forall s :: 1 <= s < sublevels ==> Covers(s, q)
    }

    /** path holds true siblings from the first layer boundary on, as far as it goes. */
    ghost predicate PathTail(q: nat, path: seq<Digest>)
      requires Geometry()
    {
      && |path| <= tree.height
      && forall i :: SubHeight(0) <= i < |path| ==>
           Sibling(Ancestor(tree, q, i)) >= 1 && path[i] == TreeNode(tree, Sibling(Ancestor(tree, q, i)))
    }

    /** The bottom buffer holds the true siblings of the lowest ancestors of q. */
    ghost predicate BottomTrue(q: nat)
      requires Geometry()
      reads active[0].nodes
    {
      forall i :: 0 <= i < SubHeight(0) ==>
        && Sibling(Ancestor(tree, q, i)) >= 1 && BottomSlot(q, i) < active[0].nodes.Length
        && active[0].nodes[BottomSlot(q, i)] == TreeNode(tree, Sibling(Ancestor(tree, q, i)))
    }

    /** A looked-up path is the authentication path exactly when the bottom buffer has its siblings. */
    lemma PathParts(q: nat, path: seq<Digest>)
      requires Geometry() && q < Pow2(tree.height) && |path| == tree.height
      requires BottomRead(q, path) && PathTail(q, path)
      ensures IsAuthPath(tree, q, path) <==> BottomTrue(q)
    {
      hide TreeNode, Pow2, Shr, BottomSlot;
      LayerFits(0);
    }

    /** The sibling that the lookup for q wants from a bottom slot is the slot's value in the segment of q. */
    lemma BottomSibling(q: nat, i: nat)
      requires Geometry() && Wellformed() && q < Pow2(tree.height) && i < SubHeight(0)
      ensures 1 <= BottomSlot(q, i) < active[0].nodes.Length == 2 * BottomSpan()
      ensures Sibling(Ancestor(tree, q, i)) >= 1
      ensures Value(tree, BottomRoot(BottomSegment(q)), BottomSlot(q, i)) == TreeNode(tree, Sibling(Ancestor(tree, q, i)))
    {
      hide TreeNode, Shr, Value, Descend, Pow2, Wellformed, BaseLevel;
      ShrNone(q);
      BufferHeight(0);
      Pow2Step(SubHeight(0));
      BaseZero();
      SiblingSlot(0, q, Pow2(SubHeight(0)) + q % Pow2(SubHeight(0)), i);
    }

    lemma BaseZero()
      ensures Base(0) == 0
    {
    }

    /** The builds so far have left nothing but the segment built last in the slots that the lookup for q reads. */
    ghost predicate Intact(q: nat, history: seq<Build>)
      requires Geometry() && history != []
    {
      PathOwned(SubHeight(0), history, q % BottomSpan())
    }

    /** A slot owned by the segment of q holds the true sibling; one of another segment does not, when segments differ. */
    lemma SlotTrueWhen(q: nat, history: seq<Build>, i: nat)
      requires Geometry() && Wellformed() && q < Pow2(tree.height) && BottomHolds(history) && i < SubHeight(0)
      ensures 1 <= BottomSlot(q, i) < active[0].nodes.Length && Sibling(Ancestor(tree, q, i)) >= 1
      ensures Owner(SubHeight(0), history, BottomSlot(q, i)) == BottomSegment(q) ==>
                active[0].nodes[BottomSlot(q, i)] == TreeNode(tree, Sibling(Ancestor(tree, q, i)))
      ensures SegmentsDiffer() && Owner(SubHeight(0), history, BottomSlot(q, i)) != BottomSegment(q) ==>
                active[0].nodes[BottomSlot(q, i)] != TreeNode(tree, Sibling(Ancestor(tree, q, i)))
    {
      hide TreeNode, Pow2, Shr, Value, Wellformed, Owner, PathSlot, BottomRoot;
      BottomSibling(q, i);
      LayerFits(0);
      ShrBelow(q, tree.height, RootLevel(0));
      if SegmentsDiffer() {
        DifferentValues(Owner(SubHeight(0), history, BottomSlot(q, i)), BottomSegment(q), BottomSlot(q, i));
      }
    }

    lemma DifferentValues(a: nat, b: nat, x: nat)
      requires Geometry() && SegmentsDiffer() && 1 <= x < 2 * BottomSpan()
      requires a < Pow2(tree.height - RootLevel(0)) && b < Pow2(tree.height - RootLevel(0))
      ensures a != b ==> Value(tree, BottomRoot(a), x) != Value(tree, BottomRoot(b), x)
    {
      hide Value, Pow2;
    }

    lemma BottomTrueWhen(q: nat, history: seq<Build>)
      requires Geometry() && Wellformed() && q < Pow2(tree.height)
      requires BottomHolds(history) && history[|history| - 1].segment == BottomSegment(q)
      ensures Intact(q, history) ==> BottomTrue(q)
      ensures SegmentsDiffer() && BottomTrue(q) ==> Intact(q, history)
    {
      hide TreeNode, Pow2, Shr, Value, Wellformed, Owner, PathSlot, SegmentsDiffer;
      if Intact(q, history) {
        forall i | 0 <= i < SubHeight(0)
          ensures Sibling(Ancestor(tree, q, i)) >= 1 && BottomSlot(q, i) < active[0].nodes.Length
          ensures active[0].nodes[BottomSlot(q, i)] == TreeNode(tree, Sibling(Ancestor(tree, q, i)))
        {
          SlotTrueWhen(q, history, i);
        }
      }
      if SegmentsDiffer() && BottomTrue(q) {
        forall d | 0 <= d < SubHeight(0)
          ensures Owner(SubHeight(0), history, PathSlot(SubHeight(0), q % BottomSpan(), d)) == BottomSegment(q)
        {
          SlotTrueWhen(q, history, d);
        }
      }
    }

    /** A bottom layer that covers q has the true siblings. */
    lemma CoveredBottom(q: nat)
      requires Geometry() && Wellformed() && q < Pow2(tree.height) && CacheValid() && CacheCovers(q)
      ensures BottomTrue(q)
    {
      hide Pow2, Wellformed, Cached, BottomTrue, Owner, Intact;
      assert Covers(0, q);
      ValidIsUsable();
      CompleteIsOwned(SubHeight(0), [Build(Claimed(0), BottomSpan())], q % BottomSpan());
      IntactWhen(q, [Build(Claimed(0), BottomSpan())]);
      BottomTrueWhen(q, [Build(Claimed(0), BottomSpan())]);
    }

    lemma IntactWhen(q: nat, history: seq<Build>)
      requires Geometry() && history != []
      ensures Intact(q, history) <==> PathOwned(SubHeight(0), history, q % BottomSpan())
    {
    }

    /** A request in the segment of an interrupted rebuild. */
    lemma StaleRequest(q: nat, history: seq<Build>)
      requires Geometry() && BottomHolds(history) && Claims(0, q) && Interrupted(SubHeight(0), history)
      ensures history[|history| - 1].segment == BottomSegment(q)
      ensures Intact(q, history) <==> active[0].currentIndex == BottomSpan() - 1 && q % BottomSpan() == BottomSpan() - 1
    {
      hide Owner, PathSlot, Value, Pow2, Shr, PathOwned;
      InterruptedPath(SubHeight(0), history, q % BottomSpan());
    }

    lemma BufferHeight(s: nat)
      requires Geometry() && Wellformed() && s < sublevels
      ensures active[s].height == SubHeight(s) && active[s].nodes.Length == Pow2(SubHeight(s) + 1)
    {
    }

    /** Whole-tree number of the subtree of layer s above leaf q. */
    ghost function SegmentRoot(s: nat, q: nat): (r: nat)
      requires Geometry() && s < sublevels
      ensures r >= 1
    {
      Pow2(tree.height - RootLevel(s)) + Shr(q, RootLevel(s))
    }

    /** The slot read at height d of layer s is the place of the true sibling. */
    lemma SiblingSlot(s: nat, q: nat, leafLocal: nat, d: nat)
      requires Geometry() && Wellformed() && s < sublevels && q < Pow2(tree.height) && d < SubHeight(s)
      requires leafLocal == Pow2(SubHeight(s)) + Shr(q, Base(s)) % Pow2(SubHeight(s))
      ensures 1 <= Sibling(Shr(leafLocal, d)) < active[s].nodes.Length
      ensures Sibling(Ancestor(tree, q, Base(s) + d)) >= 1
      ensures Value(tree, SegmentRoot(s, q), Sibling(Shr(leafLocal, d)))
           == TreeNode(tree, Sibling(Ancestor(tree, q, Base(s) + d)))
    {
      hide TreeNode, Descend, Shr, Pow2, Value, Wellformed, BaseLevel, Ancestor;
      LayerFits(s);
      BufferHeight(s);
      LocalLeaf(tree, q, Base(s), SubHeight(s));
      BelowPower(SubHeight(s), Shr(q, Base(s)));
      LocalWalk(tree, q, Base(s), SubHeight(s), d, leafLocal, SegmentRoot(s, q));
    }

    lemma BelowPower(a: nat, x: nat)
      ensures Pow2(a) <= Pow2(a) + x % Pow2(a) < Pow2(a + 1)
    {
    }

    /** A layer that covers q holds the true values below its segment root. */
    lemma LookUp(s: nat, q: nat, x: nat)
      requires Geometry() && Wellformed() && s < sublevels && Covers(s, q)
      requires 1 <= x < active[s].nodes.Length
      ensures active[s].nodes[x] == Value(tree, SegmentRoot(s, q), x)
    {
      hide Value, StackHolds;
      RowsComplete(tree, SegmentRoot(s, q), active[s].height, active[s].nodes[..], x);
    }

    /** What one request does: the answer to q comes from a bottom buffer built as `after` says. */
    ghost predicate Answered(q: nat, answer: Option<seq<Digest>>, before: seq<Build>, after: seq<Build>)
      requires Geometry()
    {
      && Continues(q, before, after)
      && (answer.Some? ==> |after| == |before| || after[|before|].merged == BottomSpan())
      && (answer.Some? ==>
            && q < Pow2(tree.height) && |answer.value| == tree.height
            && (Intact(q, after) ==> IsAuthPath(tree, q, answer.value))
            && (SegmentsDiffer() ==> (IsAuthPath(tree, q, answer.value) <==> Intact(q, after))))
    }

    /** lms_subtree_auth_path_backend: advance, then look up. An answer is right when every bottom slot it reads was
        last written by a build of the segment of q, and only then if segments differ. After a rebuild that broke off on
        top of a complete subtree, an answer without a rebuild is right if and only if just the last leaf is missing
        and q is that leaf. */
    method AuthPathBackend(q: nat, ghost history: seq<Build>) returns (ok: bool, path: seq<Digest>, ghost now: seq<Build>)
      requires Geometry() && Wellformed() && Usable(history)
      modifies AllBuffers()
      ensures Usable(now) && Answered(q, if ok then Some(path) else None, history, now)
      ensures ok && (old(Cached(0)) || !old(Claims(0, q))) ==> IsAuthPath(tree, q, path) && CacheValid() && CacheCovers(q)
      ensures ok && old(Claims(0, q)) && Interrupted(SubHeight(0), history) && SegmentsDiffer() ==>
                (IsAuthPath(tree, q, path) <==>
                   old(active[0].currentIndex) == BottomSpan() - 1 && q % BottomSpan() == BottomSpan() - 1)
      ensures forall s :: 0 <= s < sublevels && (q >= Pow2(tree.height) || old(Claims(s, q))) ==> unchanged(Footprint(active[s]))
      ensures q < Pow2(tree.height) && reliable ==> ok
      ensures q < Pow2(tree.height) && (forall s :: 1 <= s < sublevels ==> old(Claims(s, q))) ==>
                (ok <==> |now| == |history| || now[|history|].merged == BottomSpan())
    {
      hide IsAuthPath, TreeNode, BottomTrue, Pow2, Shr, Cached, Wellformed, BottomHolds, Intact, Interrupted, SegmentsDiffer,
           BottomRead, PathTail, UpperCovers, BaseLevel, Claimed;
      path := [];
      if Claims(0, q) && Interrupted(SubHeight(0), history) {
        StaleRequest(q, history);
      }
      ok, now := SignAdvance(q, history);
      if !ok {
        return;
      }
      ok, path := AuthPath(q);
      UpperFromClaims(q, now);
      PathParts(q, path);
      BottomTrueWhen(q, now);
      if CacheValid() && CacheCovers(q) {
        CoveredBottom(q);
      }
    }

    // ---- streaming key generation ----

    /** After q real leaves, layer s has taken q >> Base(s) leaves; the last, unfinished subtree is in its buffer. */
    ghost predicate Streaming(s: nat, q: nat)
      requires Geometry() && s < sublevels
      reads Footprint(active[s])
    {
      var sub := active[s];
      var taken := Shr(q, Base(s));
      && Positioned(s) && sub.Holds(tree)
      && sub.leftLeaf == Shr(taken, sub.height) * Pow2(sub.height)
      && sub.leftLeaf + sub.currentIndex == taken
    }

    /** Value of the next leaf of layer s when real leaf q completes it. */
    ghost function LayerLeaf(s: nat, q: nat): Digest
      requires Geometry() && s < sublevels && Base(s) <= tree.height
    {
      TreeNode(tree, Pow2(tree.height - Base(s)) + Shr(q, Base(s)))
    }

    lemma StreamPlace(s: nat, q: nat)
      requires Geometry() && Wellformed() && s < sublevels && q < Pow2(tree.height)
      requires Streaming(s, q) && Base(s) <= tree.height
      ensures Placed(active[s], Shr(q, RootLevel(s)))
      ensures active[s].leftLeaf == Shr(q, RootLevel(s)) * Pow2(active[s].height)
      ensures active[s].currentIndex < Pow2(active[s].height)
      ensures Value(tree, active[s].Root(), Pow2(active[s].height) + active[s].currentIndex) == LayerLeaf(s, q)
    {
      hide Value, TreeNode, Rows, StackHolds, Descend, Pow2, Shr, BaseLevel;
      var sub := active[s];
      LayerFits(s);
      ShrShr(q, Base(s), sub.height);
      ShrBelow(q, tree.height, RootLevel(s));
      LeafInSegment(Shr(q, Base(s)), sub.height, sub.leftLeaf, sub.currentIndex);
      NextLeaf(sub, Shr(q, RootLevel(s)), sub.currentIndex);
    }

    /** The leaf that is due lies in the segment that starts at `left`. */
    lemma LeafInSegment(taken: nat, sh: nat, left: nat, index: nat)
      requires left == Shr(taken, sh) * Pow2(sh) && left + index == taken
      ensures index < Pow2(sh) && Shr(left, sh) == Shr(taken, sh)
    {
      hide Pow2, Shr;
      ShrOfSum(Shr(taken, sh), 0, sh);
      ShrIsDiv(taken, sh);
      Distribute(Shr(taken, sh), 1, Pow2(sh));
    }

    /** Counting one leaf of layer s: unless the subtree is full, nothing above is due. */
    lemma StreamCount(taken: nat, left: nat, sh: nat, index: nat)
      requires left == Shr(taken, sh) * Pow2(sh) && left + index == taken + 1 && index <= Pow2(sh)
      ensures Shr(taken + 1, sh) == if index == Pow2(sh) then Shr(taken, sh) + 1 else Shr(taken, sh)
    {
      Distribute(Shr(taken, sh), 1, Pow2(sh));
      if index == Pow2(sh) {
        ShrOfSum(Shr(taken, sh) + 1, 0, sh);
      } else {
        ShrOfSum(Shr(taken, sh), index, sh);
      }
    }

    /** Merge one leaf into layer s; when that completes a subtree, hand its root up and start the next one. */
    method StreamOne(s: nat, q: nat, leaf: Digest) returns (done: int, up: Digest)
      requires Geometry() && Wellformed() && s < sublevels && q < Pow2(tree.height)
      requires Base(s) <= tree.height && Streaming(s, q) && leaf == LayerLeaf(s, q)
      requires Shr(q + 1, Base(s)) == Shr(q, Base(s)) + 1
      modifies Footprint(active[s])
      ensures Streaming(s, q + 1)
      ensures done == 0 || done == 1
      ensures done == 0 ==> Shr(q + 1, RootLevel(s)) == Shr(q, RootLevel(s))
      ensures done != 0 ==> Shr(q + 1, RootLevel(s)) == Shr(q, RootLevel(s)) + 1
      ensures done != 0 ==> active[s].nodes.Length > 1 && up == active[s].nodes[1]
      ensures done != 0 ==> up == TreeNode(tree, Pow2(tree.height - RootLevel(s)) + Shr(q, RootLevel(s)))
    {
      hide Value, TreeNode, Rows, StackHolds, Descend, Pow2, Shr;
      var sub := active[s];
      ghost var m := Shr(q, RootLevel(s));
      LayerFits(s);
      ShrShr(q, Base(s), sub.height);
      ShrShr(q + 1, Base(s), sub.height);
      StreamPlace(s, q);
      done := sub.AddNextNode(tree, leaf);
      StreamCount(Shr(q, Base(s)), sub.leftLeaf, sub.height, sub.currentIndex);
      up := leaf;
      if done == 1 {
        RootValue(sub, m);
        up := sub.nodes[1];
        Distribute(m, 1, Pow2(sub.height));
        sub.ResetTo(tree, sub.leftLeaf + Pow2(sub.height));
      }
    }

    /** Layers below s have counted leaf q, the others not yet; `leaf` is the next leaf of layer s. */
    ghost predicate Pending(s: nat, q: nat, next: nat, leaf: Digest)
      requires Geometry() && s < sublevels
    {
      && q < Pow2(tree.height) && next == q + 1
      && Base(s) <= tree.height && leaf == LayerLeaf(s, q)
      && Shr(next, Base(s)) == Shr(q, Base(s)) + 1
    }

    lemma PendingFirst(q: nat, next: nat)
      requires Geometry() && q < Pow2(tree.height) && next == q + 1
      ensures Pending(0, q, next, tree.leaf(q))
    {
      hide TreeNode;
      TreeNodeLeaf(tree, q);
    }

    /** One layer's turn. done = 0: nothing above is due; done = 1: the root `up` goes one layer higher. */
    method StreamLayer(s: nat, q: nat, next: nat, leaf: Digest) returns (done: int, up: Digest)
      requires Geometry() && Wellformed() && s < sublevels
      requires Pending(s, q, next, leaf)
      requires forall k :: 0 <= k < s ==> Streaming(k, next)
      requires forall k :: s <= k < sublevels ==> Streaming(k, q)
      modifies Footprint(active[s])
      ensures done == 0 || done == 1
      ensures forall k :: 0 <= k <= s ==> Streaming(k, next)
      ensures done == 0 ==> forall k :: s < k < sublevels ==> Streaming(k, next)
      ensures done == 1 ==> forall k :: s < k < sublevels ==> Streaming(k, q)
      ensures done == 0 ==> next != Pow2(tree.height)
      ensures done == 1 && s + 1 < sublevels ==> Pending(s + 1, q, next, up)
      ensures done == 1 && s + 1 == sublevels ==>
                active[s].nodes.Length > 1 && up == active[s].nodes[1] == TreeNode(tree, 1)
    {
      hide Value, TreeNode, Rows, StackHolds, Descend, Pow2, Shr, BaseLevel, Wellformed, Streaming;
      BuildStaysInside(s);
      LayerFits(s);
      done, up := StreamOne(s, q, leaf);
      if done == 0 {
        QuietLayers(s, q);
        QuietStreams(s, q, next);
        LastLeafCompletes(q, RootLevel(s));
      } else if s + 1 == sublevels {
        ShrBelow(q, tree.height, tree.height);
        PowZero();
      } else {
        LayerFits(s + 1);
      }
    }

    lemma {:induction false} HigherUnchanged(q: nat, a: nat, b: nat)
      requires a <= b && Shr(q + 1, a) == Shr(q, a)
      ensures Shr(q + 1, b) == Shr(q, b)
    {
      if a < b {
        HigherUnchanged(q, a, b - 1);
      }
    }

    lemma QuietLayers(s: nat, q: nat)
      requires Geometry() && s < sublevels && Shr(q + 1, RootLevel(s)) == Shr(q, RootLevel(s))
      ensures forall k :: s < k < sublevels ==> Shr(q + 1, Base(k)) == Shr(q, Base(k))
    {
      forall k | s < k < sublevels
        ensures Shr(q + 1, Base(k)) == Shr(q, Base(k))
      {
        LayerFits(s);
        BaseMonotone(s + 1, k);
        HigherUnchanged(q, RootLevel(s), Base(k));
      }
    }

    /** One leaf of lms_tree_keygen_root, merged upwards through the layers it completes. */
    method StreamLeaf(q: nat, next: nat, leafValue: Digest)
      requires Geometry() && Wellformed() && q < Pow2(tree.height) && next == q + 1
      requires leafValue == tree.leaf(q)
      requires forall k :: 0 <= k < sublevels ==> Streaming(k, q)
      modifies AllBuffers()
      ensures forall k :: 0 <= k < sublevels ==> Streaming(k, next)
      ensures next == Pow2(tree.height) ==>
                active[sublevels - 1].nodes.Length > 1 && active[sublevels - 1].nodes[1] == TreeNode(tree, 1)
    {
      hide Value, TreeNode, Rows, StackHolds, Descend, Pow2, Shr, BaseLevel, Wellformed, Streaming, Pending;
      var leaf := leafValue;
      PendingFirst(q, next);
      var s := 0;
      while s < sublevels
        invariant 0 <= s <= sublevels
        invariant forall k :: 0 <= k < s ==> Streaming(k, next)
        invariant forall k :: s <= k < sublevels ==> Streaming(k, q)
        invariant s < sublevels ==> Pending(s, q, next, leaf)
        invariant s == sublevels ==> active[s - 1].nodes.Length > 1 && active[s - 1].nodes[1] == TreeNode(tree, 1)
      {
        BuildStaysInside(s);
        var done;
        done, leaf := StreamLayer(s, q, next, leaf);
        if done != 1 {
          return;
        }
        s := s + 1;
      }
    }

    lemma LastLeafCompletes(q: nat, level: nat)
      requires level <= tree.height && q < Pow2(tree.height)
      requires Shr(q + 1, level) == Shr(q, level)
      ensures q + 1 != Pow2(tree.height)
    {
      ShrPow2(tree.height, level);
      ShrBelow(q, tree.height, level);
    }

    lemma QuietStreams(s: nat, q: nat, next: nat)
      requires Geometry() && s < sublevels
      requires forall k :: s < k < sublevels ==> Shr(next, Base(k)) == Shr(q, Base(k)) && Streaming(k, q)
      ensures forall k :: s < k < sublevels ==> Streaming(k, next)
    {
    }

    lemma PowZero()
      ensures Pow2(0) == 1
    {
    }

    /** lms_tree_keygen_root: one pass over all leaves, one unfinished subtree a layer. */
    method KeygenRoot() returns (ok: bool, root: Digest)
      requires Geometry() && Wellformed()
      requires forall s :: 0 <= s < sublevels ==> Positioned(s)
      modifies AllBuffers()
      ensures (ok ==> root == TreeNode(tree, 1)) && (reliable ==> ok)
      ensures sublevels == 1 ==> AtEdge() && active[0].leftLeaf == if ok then Pow2(tree.height) else 0
    {
      hide TreeNode, Pow2, Wellformed, Streaming, AtEdge;
      ResetLayers();
      var total := Pow2(tree.height);
      var q := 0;
      while q < total
        invariant 0 <= q <= total == Pow2(tree.height)
        invariant forall k :: 0 <= k < sublevels ==> Streaming(k, q)
        invariant q == total ==> active[sublevels - 1].nodes.Length > 1 && active[sublevels - 1].nodes[1] == TreeNode(tree, 1)
      {
        var leafOk, leaf := ComputeLeaf(q);
        if !leafOk {
          StreamEdge(q);
          return false, leaf;
        }
        StreamLeaf(q, q + 1, leaf);
        q := q + 1;
      }
      StreamEdge(q);
      ok, root := true, active[sublevels - 1].nodes[1];
    }

    /** The first loop of lms_tree_keygen_root: empty every active buffer. */
    method ResetLayers()
      requires Geometry() && Wellformed()
      requires forall s :: 0 <= s < sublevels ==> Positioned(s)
      modifies AllBuffers()
      ensures forall s :: 0 <= s < sublevels ==> Streaming(s, 0)
    {
      hide Value, TreeNode, Rows, StackHolds, Descend, Pow2, Wellformed, Streaming, Shr, BaseLevel;
      var s := 0;
      while s < sublevels
        invariant 0 <= s <= sublevels
        invariant forall k :: 0 <= k < s ==> Streaming(k, 0)
        invariant forall k :: s <= k < sublevels ==> Positioned(k)
      {
        BuildStaysInside(s);
        StreamStart(s);
        assert Positioned(s);
        active[s].ResetTo(tree, 0);
        StreamStarted(s);
        s := s + 1;
      }
    }

    /** Where streaming stands in a one-layer context. */
    lemma StreamEdge(q: nat)
      requires Geometry() && Wellformed() && Streaming(0, q) && q <= Pow2(tree.height)
      ensures sublevels == 1 ==> AtEdge() && active[0].leftLeaf == if q == Pow2(tree.height) then q else 0
    {
      hide Pow2, Shr, Rows, StackHolds;
      if sublevels == 1 {
        BufferHeight(0);
        BaseZero();
        ShrNone(q);
        if q == Pow2(tree.height) {
          ShrOfSum(1, 0, tree.height);
        } else {
          ShrOfSum(0, q, tree.height);
        }
      }
    }

    lemma StreamStart(s: nat)
      requires Geometry() && Wellformed() && s < sublevels
      ensures active[s].Allocated() && active[s].height == SubHeight(s)
      ensures RootLevel(s) <= tree.height
    {
      LayerFits(s);
    }

    lemma StreamStarted(s: nat)
      requires Geometry() && s < sublevels && Positioned(s)
      requires active[s].Holds(tree) && active[s].leftLeaf == 0 && active[s].currentIndex == 0
      ensures Streaming(s, 0)
    {
      ShrZero(Base(s));
      ShrZero(active[s].height);
    }

    // ---- the whole tree in one buffer ----

    /** lms_tree_build_active: with a single layer, fill the buffer leaves first, then bottom up; refused otherwise.
        The numbers come from leftLeaf: at 0 the result is the tree; at 2^h, where key generation leaves it, the same
        shape is hashed under the numbers below node 2, and the root is wrong unless hashes of nodes 1 and 2 collide. */
    method BuildActive() returns (ok: bool)
      requires Geometry() && Wellformed() && (sublevels == 1 ==> AtEdge())
      modifies AllBuffers()
      ensures (sublevels != 1 ==> !ok) && (sublevels == 1 && reliable ==> ok)
      ensures sublevels == 1 ==> AtEdge() && active[0].leftLeaf == old(active[0].leftLeaf)
      ensures ok ==> active[0].nodes.Length == 2 * Pow2(tree.height)
                     && forall x :: 1 <= x < active[0].nodes.Length ==> active[0].nodes[x] == Numbered(tree, active[0].Root(), x)
      ensures ok && active[0].leftLeaf == 0 ==>
                CacheValid() && forall q :: 0 <= q < Pow2(tree.height) ==> CacheCovers(q)
      ensures ok && RootsApart() ==> (active[0].nodes[1] == TreeNode(tree, 1) <==> active[0].leftLeaf == 0)
      ensures ok && active[0].leftLeaf == 0 ==> active[0].nodes[1] == TreeNode(tree, 1)
    {
      hide Numbered, TreeNode, Descend, Pow2, Shr, Rows, Value;
      if sublevels != 1 {
        return false;
      }
      var sub := active[0];
      ghost var r := sub.Root();
      SingleLayer();
      var leafBase := Pow2(sub.height);
      var i := 0;
      while i < leafBase
        invariant 0 <= i <= leafBase
        invariant forall x :: leafBase <= x < leafBase + i ==> sub.nodes[x] == Numbered(tree, r, x)
        modifies sub.nodes
      {
        var leafOk, leaf := ComputeLeaf(sub.leftLeaf + i);
        if !leafOk {
          return false;
        }
        NumberedLeaf(sub.leftLeaf, i);
        sub.nodes[leafBase + i] := leaf;
        i := i + 1;
      }
      BuildInternal(sub);
      NumberedRoot(sub.leftLeaf);
      ok := true;
      if sub.leftLeaf == 0 {
        BuiltAtZero();
      }
    }

    lemma SingleLayer()
      requires Geometry() && Wellformed() && sublevels == 1 && AtEdge()
      ensures active[0].height == active[0].level == tree.height
      ensures active[0].nodes.Length == Pow2(tree.height + 1) == 2 * Pow2(tree.height)
      ensures active[0].Root() == if active[0].leftLeaf == 0 then 1 else 2
      ensures active[0] in AllBuffers() && active[0].nodes in AllBuffers()
    {
      ShrZero(tree.height);
      ShrOfSum(1, 0, tree.height);
      assert active[0] in Footprint(active[0]) && active[0].nodes in Footprint(active[0]);
    }

    /** Node hashes with the numbers 1 and 2 never meet. */
    ghost predicate RootsApart() {
      forall a: Digest, b: Digest, c: Digest, d: Digest :: tree.node(1, a, b) != tree.node(2, c, d)
    }

    lemma NumberedLeaf(left: nat, i: nat)
      requires (left == 0 || left == Pow2(tree.height)) && i < Pow2(tree.height)
      ensures Numbered(tree, if left == 0 then 1 else 2, Pow2(tree.height) + i) == tree.leaf(left + i)
    {
      hide Descend;
      Pow2Step(tree.height);
      DescendClosedForm(if left == 0 then 1 else 2, Pow2(tree.height) + i, tree.height);
    }

    lemma NumberedRoot(left: nat)
      requires tree.height >= 1
      ensures Numbered(tree, 1, 1) == TreeNode(tree, 1)
      ensures RootsApart() ==> Numbered(tree, 2, 1) != TreeNode(tree, 1)
    {
      hide TreeNode;
      NumberedIsTree(tree, 1);
      TreeNodeInternal(tree, 1);
    }

    lemma BuiltAtZero()
      requires Geometry() && Wellformed() && sublevels == 1 && AtEdge() && active[0].leftLeaf == 0
      requires forall x :: 1 <= x < active[0].nodes.Length ==> active[0].nodes[x] == Numbered(tree, 1, x)
      ensures CacheValid() && forall q :: 0 <= q < Pow2(tree.height) ==> CacheCovers(q)
    {
      hide Numbered, TreeNode, Descend, Pow2, Shr, Rows;
      SingleLayer();
      forall x | 1 <= x < active[0].nodes.Length
        ensures active[0].nodes[x] == Value(tree, 1, x)
      {
        NumberedIsTree(tree, x);
        DescendFromOne(x);
      }
      RowsFromAll(tree, 1, active[0].height, active[0].nodes[..]);
      ShrZero(tree.height);
      Pow2Step(0);
      assert Cached(0);
      forall q | 0 <= q < Pow2(tree.height)
        ensures CacheCovers(q)
      {
        CachedFacts(0);
        TopClaims(0, q);
      }
    }

    /** subtree_build_internal: internal nodes bottom up, numbered in the whole tree. */
    method BuildInternal(sub: SubtreeBuffer)
      requires sub.Allocated() && sub.height == sub.level == sub.treeHeight == tree.height
      requires forall x :: Pow2(sub.height) <= x < Pow2(sub.height + 1) ==> sub.nodes[x] == Numbered(tree, sub.Root(), x)
      modifies sub.nodes
      ensures forall x :: 1 <= x < Pow2(sub.height + 1) ==> sub.nodes[x] == Numbered(tree, sub.Root(), x)
    {
      hide Numbered, Descend, Shr;
      ghost var r := sub.Root();
      var local := Pow2(sub.height) - 1;
      while local >= 1
        invariant 0 <= local < Pow2(sub.height)
        invariant forall x :: local < x < Pow2(sub.height + 1) ==> sub.nodes[x] == Numbered(tree, r, x)
      {
        var num := sub.LocalToGlobal(local);
        NumberedInternal(tree, r, local);
        sub.nodes[local] := tree.node(num, sub.nodes[local * 2], sub.nodes[local * 2 + 1]);
        local := local - 1;
      }
    }
  }

  // ---- runs of requests ----

  /** What a run of requests after lms_tree_sign_init does: histories[i] are the builds of the bottom buffer up to the
      answer to request i. */
  ghost predicate Served(ctx: TreeContext, requests: seq<nat>, answers: seq<Option<seq<Digest>>>, histories: seq<seq<Build>>)
    requires ctx.Geometry()
  {
    && |answers| <= |requests| && |histories| == |answers| + 1
    && histories[0] == [Build(0, ctx.BottomSpan())]
    && forall i, next :: 0 <= i < |answers| && next == i + 1 ==>
         ctx.Answered(requests[i], answers[i], histories[i], histories[next])
  }

  /** Any number of requests in any order after lms_tree_sign_init, going on after failures. With a reliable source
      every request in range is answered. */
  method Serve(ctx: TreeContext, requests: seq<nat>)
    returns (started: bool, answers: seq<Option<seq<Digest>>>, ghost histories: seq<seq<Build>>)
    requires ctx.Geometry() && ctx.Wellformed()
    modifies ctx.AllBuffers()
    ensures (ctx.reliable ==> started) && |answers| == if started then |requests| else 0
    ensures Served(ctx, requests, answers, histories)
    ensures ctx.reliable ==> forall i :: 0 <= i < |answers| ==> (answers[i].Some? <==> requests[i] < Pow2(ctx.tree.height))
  {
    hide IsAuthPath, Pow2, Shr, TreeContext.Usable, TreeContext.Wellformed, TreeContext.CacheValid, TreeContext.Continues,
         TreeContext.Intact, TreeContext.SegmentsDiffer, TreeContext.CacheCovers, TreeContext.AllBuffers;
    answers, histories := [], [[Build(0, ctx.BottomSpan())]];
    started := ctx.SignInit();
    if !started {
      return;
    }
    ctx.ValidIsUsable();
    var i := 0;
    while i < |requests|
      invariant 0 <= i <= |requests| && |answers| == i
      invariant Served(ctx, requests, answers, histories) && ctx.Usable(histories[i])
      invariant ctx.reliable ==> forall k :: 0 <= k < i ==> (answers[k].Some? <==> requests[k] < Pow2(ctx.tree.height))
    {
      var ok, path;
      ghost var now;
      ok, path, now := ctx.AuthPathBackend(requests[i], histories[i]);
      answers, histories := answers + [if ok then Some(path) else None], histories + [now];
      i := i + 1;
    }
  }

  /** Request j failed, and from there to request i every request in range lay in the bottom segment of j. */
  ghost predicate StaleFrom(ctx: TreeContext, requests: seq<nat>, answers: seq<Option<seq<Digest>>>, j: nat, i: nat)
    requires ctx.Geometry()
  {
    && j < i <= |requests| && j < |answers| && answers[j].None? && requests[j] < Pow2(ctx.tree.height)
    && forall k :: j <= k < i && requests[k] < Pow2(ctx.tree.height) ==>
         ctx.BottomSegment(requests[k]) == ctx.BottomSegment(requests[j])
  }

  /** A bottom buffer that is not complete is so since a failed request, with nothing but requests of its segment since. */
  lemma {:induction false} IncompleteSince(ctx: TreeContext, requests: seq<nat>, answers: seq<Option<seq<Digest>>>,
                                           histories: seq<seq<Build>>, i: nat) returns (j: nat)
    requires ctx.Geometry() && Served(ctx, requests, answers, histories) && i < |histories|
    requires histories[i] != [] && histories[i][|histories[i]| - 1].merged != ctx.BottomSpan()
    ensures StaleFrom(ctx, requests, answers, j, i)
    ensures ctx.BottomSegment(requests[j]) == histories[i][|histories[i]| - 1].segment
  {
    hide Pow2, TreeContext.BottomSegment, TreeContext.BottomSpan, TreeContext.Intact, IsAuthPath, TreeContext.SegmentsDiffer;
    assert i > 0;
    assert ctx.Answered(requests[i - 1], answers[i - 1], histories[i - 1], histories[i]);
    if |histories[i]| > |histories[i - 1]| {
      j := i - 1;
    } else {
      j := IncompleteSince(ctx, requests, answers, histories, i - 1);
    }
  }

  /** An answer can be wrong only after a failed request with nothing but requests of the same bottom segment since. */
  lemma WrongOnlyWhenStale(ctx: TreeContext, requests: seq<nat>, answers: seq<Option<seq<Digest>>>,
                           histories: seq<seq<Build>>, i: nat)
    requires ctx.Geometry() && Served(ctx, requests, answers, histories) && i < |answers|
    requires answers[i].Some? && !IsAuthPath(ctx.tree, requests[i], answers[i].value)
    ensures exists j: nat :: StaleFrom(ctx, requests, answers, j, i)
                             && ctx.BottomSegment(requests[j]) == ctx.BottomSegment(requests[i])
  {
    hide Pow2, TreeContext.BottomSegment, IsAuthPath, TreeContext.SegmentsDiffer, StaleFrom, PathOwned;
    var before, after := histories[i], histories[i + 1];
    assert ctx.Answered(requests[i], answers[i], before, after);
    if after[|after| - 1].merged == ctx.BottomSpan() {
      CompleteIsOwned(ctx.SubHeight(0), after, requests[i] % ctx.BottomSpan());
    } else {
      var j := IncompleteSince(ctx, requests, answers, histories, i);
    }
  }

  /** A failed request and one more request in its bottom segment, from a cache that is valid and covers both above the
      bottom. The second one is always answered. If segments differ, the answer is right if and only if the rebuild
      stopped before its last leaf, and the second request is for that leaf. */
  method FailThenAsk(ctx: TreeContext, q1: nat, q2: nat)
    returns (first: Option<seq<Digest>>, merged: nat, second: Option<seq<Digest>>)
    requires ctx.Geometry() && ctx.Wellformed() && ctx.CacheValid()
    requires q1 < Pow2(ctx.tree.height) && q2 < Pow2(ctx.tree.height)
    requires ctx.BottomSegment(q1) == ctx.BottomSegment(q2) && ctx.UpperCovers(q1) && ctx.UpperCovers(q2)
    modifies ctx.AllBuffers()
    ensures first.None? ==> merged < ctx.BottomSpan() && second.Some?
    ensures first.None? && ctx.SegmentsDiffer() ==>
              (IsAuthPath(ctx.tree, q2, second.value) <==>
                 merged == ctx.BottomSpan() - 1 && q2 % ctx.BottomSpan() == ctx.BottomSpan() - 1)
  {
    hide IsAuthPath, Pow2, Shr, Interrupted, TreeContext.Usable, TreeContext.Wellformed, TreeContext.SegmentsDiffer,
         TreeContext.Intact, TreeContext.Claimed, TreeContext.Cached, TreeContext.AllBuffers, Owner;
    ctx.ValidIsUsable();
    ghost var start := [Build(ctx.Claimed(0), ctx.BottomSpan())];
    ClaimedAbove(ctx, q1);
    var ok, path;
    ghost var built, now;
    ok, path, built := ctx.AuthPathBackend(q1, start);
    first, merged := if ok then Some(path) else None, ctx.active[0].currentIndex;
    ghost var stands := ctx.UpperCovers(q2);
    if !ok {
      FailedBuild(ctx, q1, q2, start, built);
      ClaimedAbove(ctx, q2);
    }
    ok, path, now := ctx.AuthPathBackend(q2, built);
    second := if ok then Some(path) else None;
  }

  lemma ClaimedAbove(ctx: TreeContext, q: nat)
    requires ctx.Geometry() && ctx.UpperCovers(q)
    ensures forall s :: 1 <= s < ctx.sublevels ==> ctx.Claims(s, q)
  {
    forall s | 1 <= s < ctx.sublevels
      ensures ctx.Claims(s, q)
    {
      assert ctx.Covers(s, q);
    }
  }

  lemma FailedBuild(ctx: TreeContext, q1: nat, q2: nat, start: seq<Build>, built: seq<Build>)
    requires ctx.Geometry() && |start| == 1 && start[0].merged == ctx.BottomSpan() && ctx.Usable(built)
    requires ctx.Continues(q1, start, built) && |built| != 1 && built[1].merged != ctx.BottomSpan()
    requires ctx.BottomSegment(q1) == ctx.BottomSegment(q2)
    ensures Interrupted(ctx.SubHeight(0), built) && ctx.Claims(0, q2)
    ensures ctx.active[0].currentIndex == built[1].merged < ctx.BottomSpan()
  {
    hide Owner, Value, Shr;
  }

  /** Key generation and then a full build in the same one-layer context: both succeed with a reliable source, and the
      second root differs from the first unless hashes of nodes 1 and 2 collide. */
  method KeygenThenBuild(ctx: TreeContext) returns (generated: bool, root: Digest, built: bool)
    requires ctx.Geometry() && ctx.Wellformed() && ctx.sublevels == 1 && ctx.Positioned(0)
    modifies ctx.AllBuffers()
    ensures ctx.reliable ==> generated && built
    ensures generated && built && ctx.RootsApart() ==> ctx.active[0].nodes.Length > 1 && ctx.active[0].nodes[1] != root
  {
    hide TreeNode, Pow2, TreeContext.Wellformed, TreeContext.AtEdge, TreeContext.RootsApart, TreeContext.CacheCovers;
    built := false;
    generated, root := ctx.KeygenRoot();
    if generated {
      built := ctx.BuildActive();
    }
  }

  lemma {:induction false} ShrZero(i: nat)
    ensures Shr(0, i) == 0
  {
    if i > 0 {
      ShrZero(i - 1);
    }
  }
}
