/** The full-array tree of src/lms_coprocess.c: all nodes kept, leaves first, then bottom-up. */
module Coprocess {
  import opened Words
  import opened Params
  import opened MerkleTree
  import opened Lmots
  import opened Lms

  const MAX_HEIGHT: nat := 10

  /** The tree that a build for key k under identifier I fills in. */
  function ArrayTree(H: HashFn, k: PrivateKey, I: Bytes): Tree
    requires KeyShape(k)
  {
    Tree(HeightOfKey(k), (q: nat) => LeafHash(H, AlgOf(k), I, Pow2(HeightOfKey(k)) + q, OtsPublicKey(H, k.(q := 0), q)),
         NodeFn(H, AlgOf(k), I))
  }

  /** Trees that agree on the leaves of their range and on internal hashing agree on every node. */
  lemma {:induction false} SameNodes(a: Tree, b: Tree, r: nat)
    requires a.height == b.height && a.node == b.node && 1 <= r < 2 * Pow2(a.height)
    requires forall q: nat :: q < Pow2(a.height) ==> a.leaf(q) == b.leaf(q)
    ensures TreeNode(a, r) == TreeNode(b, r)
    decreases 2 * Pow2(a.height) - r
  {
    if r < Pow2(a.height) {
      SameNodes(a, b, 2 * r);
      SameNodes(a, b, 2 * r + 1);
    }
  }

  /** Under the key's own identifier the array tree is the recursive tree of lms_tree_node. */
  lemma ArrayTreeIsTree(H: HashFn, k: PrivateKey, r: nat)
    requires KeyShape(k) && 1 <= r < 2 * Pow2(HeightOfKey(k))
    ensures TreeNode(ArrayTree(H, k, k.I), r) == TreeNode(TreeOf(H, k), r)
  {
    hide OtsPublicKey, TreeNode, Pow2, NodeFn;
    SameNodes(ArrayTree(H, k, k.I), TreeOf(H, k), r);
  }

  /** One-time public keys do not depend on the signing index. */
  lemma OtsKeyKeepsIndex(H: HashFn, k: PrivateKey, q: nat)
    requires KeyShape(k)
    ensures OtsPublicKey(H, k, q) == OtsPublicKey(H, k.(q := 0), q)
  {
    hide Chain, ChainEnds;
    SameChainEnds(H, k, k.(q := 0), q, OtsOf(k).p);
  }

  class CoprocessTree {
    const lmsType: nat
    const height: nat
    const leafCount: nat
    const I: Bytes
    const nodes: array<Digest>

    /** lms_coprocess_tree_init once the type is known and small enough. */
    constructor (lmsType: nat, I: Bytes)
      requires LmsParamOf(lmsType).Some? && LmsParamOf(lmsType).value.height <= MAX_HEIGHT
      ensures Sound() && this.lmsType == lmsType && this.I == I && fresh(nodes)
    {
      this.lmsType := lmsType;
      this.height := LmsParamOf(lmsType).value.height;
      this.leafCount := Pow2(LmsParamOf(lmsType).value.height);
      this.I := I;
      this.nodes := new Digest[2048](_ => ZeroDigest());
      new;
      Pow2Monotone(height, 10);
      assert Pow2(10) == 1024;
    }

    /** lms_coprocess_tree_init */
    static method Init(lmsType: nat, I: Bytes) returns (rc: Rc, tree: CoprocessTree?)
      ensures rc == if LmsParamOf(lmsType).Some? && LmsParamOf(lmsType).value.height <= MAX_HEIGHT then Ok else ErrInvalid
      ensures rc == Ok ==> tree != null && fresh(tree) && fresh(tree.nodes) && tree.Sound() && tree.lmsType == lmsType && tree.I == I
    {
      tree := null;
      if LmsParamOf(lmsType).None? || LmsParamOf(lmsType).value.height > MAX_HEIGHT {
        return ErrInvalid, tree;
      }
      tree := new CoprocessTree(lmsType, I);
      rc := Ok;
    }

    ghost predicate Sound() {
      && LmsParamOf(lmsType).Some? && height == LmsParamOf(lmsType).value.height
      && leafCount == Pow2(height) && 2 * leafCount <= nodes.Length
    }

    /** Every node from lo on has its true value. */
    ghost predicate FilledFrom(t: Tree, lo: nat)
      requires Sound() && lo >= 1
      reads nodes
    {
      forall r :: lo <= r < 2 * leafCount ==> nodes[r] == TreeNode(t, r)
    }

    /** lms_coprocess_build; an unreliable K_q source may fail at any leaf. */
    method Build(H: HashFn, k: PrivateKey, reliable: bool) returns (rc: Rc)
      requires Sound() && |k.I| == 16 && |k.seed| == 32
      modifies nodes
      ensures rc == Ok || rc == ErrInvalid
      ensures reliable ==> (rc == Ok <==> k.lmsType == lmsType && Compatible(k.lmsType, k.otsType))
      ensures rc == Ok ==> KeyShape(k) && k.lmsType == lmsType && FilledFrom(ArrayTree(H, k, I), 1)
    {
      hide OtsPublicKey, LeafHash, NodeHash, TreeNode, Pow2;
      if k.lmsType != lmsType || !Compatible(k.lmsType, k.otsType) {
        return ErrInvalid;
      }
      ghost var t := ArrayTree(H, k, I);
      var q := 0;
      while q < leafCount
        invariant 0 <= q <= leafCount
        invariant forall r :: leafCount <= r < leafCount + q ==> nodes[r] == TreeNode(t, r)
      {
        var fails: bool := *;
        if fails && !reliable {
          return ErrInvalid;
        }
        OtsKeyKeepsIndex(H, k, q);
        TreeNodeLeaf(t, q);
        nodes[leafCount + q] := LeafHash(H, AlgOf(k), I, leafCount + q, OtsPublicKey(H, k, q));
        q := q + 1;
      }
      var r := leafCount;
      while r > 1
        invariant 1 <= r <= leafCount && FilledFrom(t, r)
      {
        r := r - 1;
        TreeNodeInternal(t, r);
        nodes[r] := NodeHash(H, AlgOf(k), I, r, nodes[2 * r], nodes[2 * r + 1]);
      }
      rc := Ok;
    }

    /** lms_coprocess_auth_path on a built tree */
    method AuthPath(q: nat, ghost t: Tree) returns (rc: Rc, path: seq<Digest>)
      requires Sound() && t.height == height && FilledFrom(t, 1)
      ensures rc == if q < leafCount then Ok else ErrInvalid
      ensures rc == Ok ==> |path| == height && IsAuthPath(t, q, path)
    {
      hide TreeNode, Pow2, Shr;
      path := [];
      if q >= leafCount {
        return ErrInvalid, path;
      }
      var num := leafCount + q;
      ShrNone(num);
      var i := 0;
      while i < height
        invariant 0 <= i <= height && |path| == i && num == Ancestor(t, q, i)
        invariant forall k :: 0 <= k < i ==>
                    Sibling(Ancestor(t, q, k)) >= 1 && path[k] == TreeNode(t, Sibling(Ancestor(t, q, k)))
      {
        AncestorPositive(t, q, i);
        AncestorBelow(t, q, i);
        SiblingInArray(num, leafCount);
        path := path + [nodes[Sibling(num)]];
        ShrStep(Pow2(height) + q, i);
        num := num / 2;
        i := i + 1;
      }
      rc := Ok;
    }

    /** lms_coprocess_root_from_kv */
    method RootFromKv(H: HashFn, q: nat, kv: Digest, path: seq<Digest>) returns (rc: Rc, root: Digest)
      requires Sound() && |path| == height
      ensures rc == if q < leafCount then Ok else ErrInvalid
      ensures rc == Ok ==> root == Climb(NodeFn(H, LmsParamOf(lmsType).value.alg, I), leafCount + q,
                                         LeafHash(H, LmsParamOf(lmsType).value.alg, I, leafCount + q, kv), path)
    {
      hide LmsParamOf, Climb, LeafHash, NodeFn, NodeHash, Pow2, TreeNode;
      root := ZeroDigest();
      if q >= leafCount {
        return ErrInvalid, root;
      }
      var alg := LmsParamOf(lmsType).value.alg;
      root := ClimbPath(H, alg, I, leafCount + q, LeafHash(H, alg, I, leafCount + q, kv), path);
      rc := Ok;
    }

    /** lms_coprocess_verify: accepts exactly the pairs that climb to the stored root. */
    method VerifyLeafPath(H: HashFn, q: nat, kv: Digest, path: seq<Digest>) returns (rc: Rc)
      requires Sound() && |path| == height
      ensures q >= leafCount ==> rc == ErrInvalid
      ensures q < leafCount ==>
                rc == if Climb(NodeFn(H, LmsParamOf(lmsType).value.alg, I), leafCount + q,
                               LeafHash(H, LmsParamOf(lmsType).value.alg, I, leafCount + q, kv), path) == nodes[1]
                      then Ok else ErrVerify
    {
      var root;
      rc, root := RootFromKv(H, q, kv, path);
      if rc == Ok {
        Pow2Monotone(0, height);
        rc := if root == nodes[1] then Ok else ErrVerify;
      }
    }
  }

  lemma SiblingInArray(num: nat, count: nat)
    requires 2 <= num < 2 * count
    ensures 1 <= Sibling(num) < 2 * count
  {
  }

  /** On a tree built for k, every leaf's own key and path pass lms_coprocess_verify; under the key's own
      identifier the stored root is the root of its public key. */
  lemma OwnPathVerifies(H: HashFn, k: PrivateKey, I: Bytes, q: nat, path: seq<Digest>)
    requires KeyShape(k) && q < Pow2(HeightOfKey(k)) && IsAuthPath(ArrayTree(H, k, I), q, path)
    ensures Climb(NodeFn(H, AlgOf(k), I), Pow2(HeightOfKey(k)) + q,
                  LeafHash(H, AlgOf(k), I, Pow2(HeightOfKey(k)) + q, OtsPublicKey(H, k, q)), path)
         == TreeNode(ArrayTree(H, k, I), 1)
    ensures I == k.I ==> TreeNode(ArrayTree(H, k, I), 1) == PublicOf(H, k).root
  {
    hide OtsPublicKey, TreeNode, Pow2, Climb, IsAuthPath, LeafHash;
    OtsKeyKeepsIndex(H, k, q);
    ClimbGivesRoot(ArrayTree(H, k, I), q, path);
    if I == k.I {
      OneInTree(HeightOfKey(k));
      ArrayTreeIsTree(H, k, 1);
    }
  }

  lemma OneInTree(h: nat)
    ensures 1 < 2 * Pow2(h)
  {
  }
}
