/** The whole Merkle tree in 1-based heap order: the recursive reference of src/lms_tree.c,
    the authentication path of section 5.4.1 and the climb of section 5.4.2 of RFC 8554. */
module MerkleTree {
  import opened Words

  /** One LMS tree: its height and the two hashes with the key identifier fixed,
      leaf(q) = H(I || 2^h+q || D_LEAF || K_q) and node(r, l, r') = H(I || r || D_INTR || l || r'). */
  datatype Tree = Tree(height: nat, leaf: nat -> Digest, node: (nat, Digest, Digest) -> Digest)

  /** lms_tree_node: the value of node r. */
  function TreeNode(t: Tree, r: nat): Digest
    requires r >= 1
    decreases if r >= Pow2(t.height) then 0 else Pow2(t.height) - r
  {
    if r >= Pow2(t.height) then t.leaf(r - Pow2(t.height))
    else t.node(r, TreeNode(t, 2 * r), TreeNode(t, 2 * r + 1))
  }

  lemma TreeNodeInternal(t: Tree, r: nat)
    requires 1 <= r < Pow2(t.height)
    ensures TreeNode(t, r) == t.node(r, TreeNode(t, 2 * r), TreeNode(t, 2 * r + 1))
  {
  }

  lemma TreeNodeLeaf(t: Tree, q: nat)
    ensures TreeNode(t, Pow2(t.height) + q) == t.leaf(q)
  {
  }

  /** Node number of the ancestor of leaf q that lies i levels above it. */
  function Ancestor(t: Tree, q: nat, i: nat): nat {
    Shr(Pow2(t.height) + q, i)
  }

  lemma AncestorPositive(t: Tree, q: nat, i: nat)
    requires i <= t.height && q < Pow2(t.height)
    ensures Ancestor(t, q, i) >= 1
    ensures i < t.height ==> Ancestor(t, q, i) >= 2
    ensures i == t.height ==> Ancestor(t, q, i) == 1
  {
    ShrRange(Pow2(t.height) + q, t.height, i);
  }

  /** The siblings met on the way from leaf q to the root. */
  ghost predicate IsAuthPath(t: Tree, q: nat, path: seq<Digest>) {
    && |path| == t.height
    && forall i :: 0 <= i < t.height ==>
         Sibling(Ancestor(t, q, i)) >= 1 && path[i] == TreeNode(t, Sibling(Ancestor(t, q, i)))
  }

  /** One level of the climb: parity of the node number decides the order of the two children. */
  function ClimbStep(node: (nat, Digest, Digest) -> Digest, num: nat, cur: Digest, sibling: Digest): Digest {
    if num % 2 == 0 then node(num / 2, cur, sibling) else node(num / 2, sibling, cur)
  }

  function Climb(node: (nat, Digest, Digest) -> Digest, num: nat, cur: Digest, path: seq<Digest>): Digest
    decreases |path|
  {
    if |path| == 0 then cur
    else Climb(node, num / 2, ClimbStep(node, num, cur, path[0]), path[1..])
  }

  lemma {:induction false} ClimbAppend(node: (nat, Digest, Digest) -> Digest, num: nat, cur: Digest,
                                       path: seq<Digest>, d: Digest)
    ensures Climb(node, num, cur, path + [d])
         == ClimbStep(node, Shr(num, |path|), Climb(node, num, cur, path), d)
    decreases |path|
  {
    if |path| == 0 {
    } else {
      ShrShr(num, 1, |path| - 1);
      assert Shr(num, 1) == num / 2;
      assert (path + [d])[1..] == path[1..] + [d];
      ClimbAppend(node, num / 2, ClimbStep(node, num, cur, path[0]), path[1..], d);
    }
  }

  /** One climb step on true values gives the parent's true value, whichever child the climb is on. */
  lemma StepUp(t: Tree, x: nat)
    requires 2 <= x < 2 * Pow2(t.height)
    ensures ClimbStep(t.node, x, TreeNode(t, x), TreeNode(t, Sibling(x))) == TreeNode(t, x / 2)
  {
    assert x == 2 * (x / 2) || x == 2 * (x / 2) + 1;
  }

  lemma {:induction false} ClimbReaches(t: Tree, q: nat, path: seq<Digest>, i: nat)
    requires q < Pow2(t.height) && i <= t.height
    requires IsAuthPath(t, q, path)
    ensures Ancestor(t, q, i) >= 1
    ensures Climb(t.node, Pow2(t.height) + q, t.leaf(q), path[..i]) == TreeNode(t, Ancestor(t, q, i))
    decreases i
  {
    hide TreeNode, ClimbStep, Pow2, Shr;
    AncestorPositive(t, q, i);
    if i == 0 {
      TreeNodeLeaf(t, q);
      ShrNone(Pow2(t.height) + q);
    } else {
      ShrStep(Pow2(t.height) + q, i - 1);
      var num := Pow2(t.height) + q;
      ClimbReaches(t, q, path, i - 1);
      assert path[..i] == path[..i - 1] + [path[i - 1]];
      ClimbAppend(t.node, num, t.leaf(q), path[..i - 1], path[i - 1]);
      AncestorPositive(t, q, i - 1);
      AncestorBelow(t, q, i - 1);
      StepUp(t, Ancestor(t, q, i - 1));
    }
  }

  lemma AncestorBelow(t: Tree, q: nat, i: nat)
    requires q < Pow2(t.height) && i <= t.height
    ensures Ancestor(t, q, i) < 2 * Pow2(t.height)
  {
    ShrRange(Pow2(t.height) + q, t.height, i);
    Pow2Monotone(t.height - i + 1, t.height + 1);
  }

  /** Climbing from the real leaf along the real path gives the root, node 1. */
  lemma ClimbGivesRoot(t: Tree, q: nat, path: seq<Digest>)
    requires q < Pow2(t.height)
    requires IsAuthPath(t, q, path)
    ensures Climb(t.node, Pow2(t.height) + q, t.leaf(q), path) == TreeNode(t, 1)
  {
    ClimbReaches(t, q, path, t.height);
    AncestorPositive(t, q, t.height);
    assert path[..t.height] == path;
  }
}
