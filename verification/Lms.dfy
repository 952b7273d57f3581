/** LMS over bytes: src/lms_tree.c, src/lms_sign.c, src/lms_verify.c and src/lms.c,
    sections 5.3 to 5.4 of RFC 8554. */
module Lms {
  import opened Words
  import opened Params
  import opened MerkleTree
  import opened Lmots
  import opened TreeCache

  const D_LEAF: nat := 0x8282
  const D_INTR: nat := 0x8383

  /** lms_public_key_t */
  datatype PublicKey = PublicKey(lmsType: nat, otsType: nat, I: Bytes, root: Digest)

  function LeafHash(H: HashFn, alg: HashAlg, I: Bytes, num: nat, ots: Digest): Digest {
    H(alg, Prefix(I, num, D_LEAF) + ots)
  }

  /** lms_internal_node, software path */
  function NodeHash(H: HashFn, alg: HashAlg, I: Bytes, num: nat, left: Digest, right: Digest): Digest {
    H(alg, Prefix(I, num, D_INTR) + left + right)
  }

  function NodeFn(H: HashFn, alg: HashAlg, I: Bytes): (nat, Digest, Digest) -> Digest {
    (num: nat, left: Digest, right: Digest) => NodeHash(H, alg, I, num, left, right)
  }

  function HeightOfKey(k: PrivateKey): nat
    requires KeyShape(k)
  {
    LmsParamOf(k.lmsType).value.height
  }

  /** lms_leaf: leaf q of the key's tree. */
  function LeafValue(H: HashFn, k: PrivateKey, q: nat): Digest
    requires KeyShape(k)
  {
    LeafHash(H, AlgOf(k), k.I, Pow2(HeightOfKey(k)) + q, OtsPublicKey(H, k, q))
  }

  function LeafFn(H: HashFn, k: PrivateKey): nat -> Digest
    requires KeyShape(k)
  {
    (q: nat) => LeafValue(H, k, q)
  }

  /** The Merkle tree of a private key; the signing index is no part of it. */
  function TreeOf(H: HashFn, k: PrivateKey): Tree
    requires KeyShape(k)
  {
    Tree(HeightOfKey(k), LeafFn(H, k.(q := 0)), NodeFn(H, AlgOf(k), k.I))
  }

  lemma {:induction false} SameChainEnds(H: HashFn, k: PrivateKey, k': PrivateKey, q: nat, n: nat)
    requires KeyShape(k) && k' == k.(q := k'.q)
    ensures KeyShape(k') && ChainEnds(H, k', q, n) == ChainEnds(H, k, q, n)
  {
    if n > 0 {
      SameChainEnds(H, k, k', q, n - 1);
    }
  }

  lemma TreeLeaf(H: HashFn, k: PrivateKey, q: nat)
    requires KeyShape(k)
    ensures TreeOf(H, k).leaf(q) == LeafValue(H, k, q)
  {
    hide Chain, ChainEnds, Pow2;
    SameChainEnds(H, k, k.(q := 0), q, OtsOf(k).p);
  }

  /** The signature path as bytes is determined by the tree. */
  ghost function PathOf(t: Tree, q: nat, n: nat): (path: seq<Digest>)
    requires q < Pow2(t.height) && n <= t.height
    ensures |path| == n
    ensures forall i :: 0 <= i < n ==>
              Sibling(Ancestor(t, q, i)) >= 1 && path[i] == TreeNode(t, Sibling(Ancestor(t, q, i)))
  {
    if n == 0 then []
    else
      AncestorPositive(t, q, n - 1);
      PathOf(t, q, n - 1) + [TreeNode(t, Sibling(Ancestor(t, q, n - 1)))]
  }

  lemma PathUnique(t: Tree, q: nat, path: seq<Digest>)
    requires q < Pow2(t.height) && IsAuthPath(t, q, path)
    ensures path == PathOf(t, q, t.height)
  {
    hide TreeNode, Pow2, Shr;
  }

  // ---- signing ----

  /** u32(q) || LM-OTS signature || u32(lmsType): all that lms_do_sign writes before it asks for the path. */
  ghost function OneTimePart(H: HashFn, k: PrivateKey, message: Bytes): Bytes
    requires KeyShape(k)
  {
    StoreU32(k.q) + OtsSignature(H, k, k.q, message) + StoreU32(k.lmsType)
  }

  /** The one-time part and the path. */
  ghost function Signature(H: HashFn, k: PrivateKey, message: Bytes): (sig: Bytes)
    requires KeyShape(k) && k.q < Pow2(HeightOfKey(k))
    ensures |sig| == SignatureLen(k.lmsType, k.otsType)
  {
    OneTimePart(H, k, message) + Flatten(PathOf(TreeOf(H, k), k.q, HeightOfKey(k)))
  }

  /** The default path of lms_do_sign: rebuild every sibling from the recursive tree. */
  method DefaultPath(t: Tree, q: nat) returns (path: seq<Digest>)
    requires q < Pow2(t.height)
    ensures path == PathOf(t, q, t.height)
  {
    hide TreeNode, Pow2, Shr;
    path := [];
    var num := Pow2(t.height) + q;
    ShrNone(num);
    var i := 0;
    while i < t.height
      invariant 0 <= i <= t.height
      invariant num == Ancestor(t, q, i)
      invariant path == PathOf(t, q, i)
    {
      AncestorPositive(t, q, i);
      path := path + [TreeNode(t, Sibling(num))];
      ShrStep(Pow2(t.height) + q, i);
      num := num / 2;
      i := i + 1;
    }
  }

  /** The result of signing when no backend fails. For two known types of different hash the length is 0, so that the
      index is looked at before the pair is refused. */
  function SignOutcome(k: PrivateKey, capacity: nat): Rc {
    if LmsParamOf(k.lmsType).None? || OtsParamOf(k.otsType).None? then ErrInvalid
    else if capacity < SignatureLen(k.lmsType, k.otsType) then ErrBufferTooSmall
    else if k.q >= Pow2(LmsParamOf(k.lmsType).value.height) then ErrExhausted
    else if !Compatible(k.lmsType, k.otsType) then ErrInvalid
    else Ok
  }

  lemma SignOutcomeOfKey(k: PrivateKey, capacity: nat)
    requires KeyShape(k)
    ensures SignOutcome(k, capacity) == if capacity < SignatureLen(k.lmsType, k.otsType) then ErrBufferTooSmall
                                        else if k.q >= Pow2(HeightOfKey(k)) then ErrExhausted else Ok
  {
  }

  /** A signature with a given path is the signature of the key exactly when the path is the authentication path. */
  lemma SignatureWithPath(H: HashFn, k: PrivateKey, message: Bytes, path: seq<Digest>)
    requires KeyShape(k) && k.q < Pow2(HeightOfKey(k)) && |path| == HeightOfKey(k)
    ensures OneTimePart(H, k, message) + Flatten(path) == Signature(H, k, message)
       <==> IsAuthPath(TreeOf(H, k), k.q, path)
  {
    hide OneTimePart, Flatten, PathOf, TreeOf, Pow2, IsAuthPath, Blocks;
    var t, head := TreeOf(H, k), OneTimePart(H, k, message);
    TreeHeight(H, k);
    var right := PathOf(t, k.q, t.height);
    PathIsAuthPath(t, k.q);
    BlocksOfFlatten(path);
    BlocksOfFlatten(right);
    if head + Flatten(path) == head + Flatten(right) {
      assert (head + Flatten(path))[|head|..] == Flatten(path);
      assert (head + Flatten(right))[|head|..] == Flatten(right);
    }
    if IsAuthPath(t, k.q, path) {
      PathUnique(t, k.q, path);
    }
  }

  lemma TreeHeight(H: HashFn, k: PrivateKey)
    requires KeyShape(k)
    ensures TreeOf(H, k).height == HeightOfKey(k)
  {
  }

  /** What the call has written from the start of the buffer when it does not succeed. */
  ghost function LeftBehind(H: HashFn, k: PrivateKey, message: Bytes, capacity: nat): Bytes
    requires SignOutcome(k, capacity) == Ok ==> KeyShape(k)
  {
    if LmsParamOf(k.lmsType).None? || OtsParamOf(k.otsType).None? then []
    else if SignOutcome(k, capacity) in {ErrBufferTooSmall, ErrExhausted} then []
    else if SignOutcome(k, capacity) == ErrInvalid then StoreU32(k.q)
    else OneTimePart(H, k, message)
  }

  /** lms_do_sign, with the tree cache as authentication-path backend when one is registered. k' is the caller's key
      afterwards, and sig what has been written to the buffer, whatever the result. A stale cache can make the path
      wrong: the bytes are the signature when every bottom slot read belongs to the segment of the index, and only then
      if segments differ. */
  method DoSign(H: HashFn, k: PrivateKey, message: Bytes, capacity: nat, cache: TreeContext?, ghost history: seq<Build>)
    returns (rc: Rc, sig: Bytes, k': PrivateKey, ghost now: seq<Build>)
    requires |k.I| == 16 && |k.seed| == 32
    requires cache != null ==> cache.Geometry() && cache.Wellformed() && cache.Usable(history)
    requires cache != null && KeyShape(k) ==> cache.tree == TreeOf(H, k)
    modifies if cache == null then {} else cache.AllBuffers()
    ensures rc == SignOutcome(k, capacity) || (SignOutcome(k, capacity) == Ok && cache != null && !cache.reliable && rc == ErrInvalid)
    ensures rc == Ok ==> KeyShape(k) && k.q < Pow2(HeightOfKey(k)) && k' == k.(q := k.q + 1)
    ensures rc != Ok ==> k' == k && (SignOutcome(k, capacity) == Ok ==> KeyShape(k)) && sig == LeftBehind(H, k, message, capacity)
    ensures rc == Ok && cache == null ==> sig == Signature(H, k, message)
    ensures cache != null ==> cache.Usable(now)
    ensures cache != null ==> if SignOutcome(k, capacity) == Ok then cache.Continues(k.q, history, now) else now == history
    ensures cache != null && rc == Ok ==>
              && (cache.Intact(k.q, now) ==> sig == Signature(H, k, message))
              && (cache.SegmentsDiffer() ==> (sig == Signature(H, k, message) <==> cache.Intact(k.q, now)))
    ensures cache != null && rc == Ok && (old(cache.Cached(0)) || !old(cache.Claims(0, k.q))) ==>
              sig == Signature(H, k, message) && cache.CacheValid()
    ensures cache != null && rc == Ok && old(cache.Claims(0, k.q)) && Interrupted(cache.SubHeight(0), history)
            && cache.SegmentsDiffer() ==>
              (sig == Signature(H, k, message) <==>
                 old(cache.active[0].currentIndex) == cache.BottomSpan() - 1
                 && k.q % cache.BottomSpan() == cache.BottomSpan() - 1)
    ensures rc == Ok ==> |sig| == SignatureLen(k.lmsType, k.otsType) && OneTimePart(H, k, message) <= sig
  {
    hide OtsSignature, IsAuthPath, Flatten, Pow2, Interrupted, TreeContext.BottomHolds, TreeContext.Intact, PathOf,
         TreeContext.SegmentsDiffer, TreeContext.Cached, TreeContext.Claims, TreeContext.CacheValid, TreeContext.Continues;
    sig, k', now := [], k, history;
    if LmsParamOf(k.lmsType).None? || OtsParamOf(k.otsType).None? {
      return ErrInvalid, sig, k', now;
    }
    var needed := SignatureLen(k.lmsType, k.otsType);
    if capacity < needed {
      return ErrBufferTooSmall, sig, k', now;
    }
    if k.q >= Pow2(LmsParamOf(k.lmsType).value.height) {
      return ErrExhausted, sig, k', now;
    }
    sig := StoreU32(k.q);
    var otsRc, ots := OtsSign(H, k, k.q, message, OtsSignatureLen(k.otsType));
    if otsRc != Ok {
      return ErrInvalid, sig, k', now;
    }
    sig := sig + ots + StoreU32(k.lmsType);
    var path;
    if cache != null {
      var found;
      found, path, now := cache.AuthPathBackend(k.q, history);
      if !found {
        return ErrInvalid, sig, k', now;
      }
    } else {
      path := DefaultPath(TreeOf(H, k), k.q);
      PathIsAuthPath(TreeOf(H, k), k.q);
    }
    SignatureWithPath(H, k, message, path);
    sig := sig + Flatten(path);
    k' := k.(q := k.q + 1);
    rc := Ok;
  }

  /** lms_do_sign while no backend is registered. */
  method SignWithoutCache(H: HashFn, k: PrivateKey, message: Bytes, capacity: nat) returns (rc: Rc, sig: Bytes, k': PrivateKey)
    requires |k.I| == 16 && |k.seed| == 32
    ensures rc == SignOutcome(k, capacity)
    ensures rc == Ok ==> KeyShape(k) && k.q < Pow2(HeightOfKey(k)) && sig == Signature(H, k, message) && k' == k.(q := k.q + 1)
    ensures rc != Ok ==> k' == k
  {
    hide SignOutcome, OneTimePart, LeftBehind, Signature, Pow2;
    ghost var now;
    rc, sig, k', now := DoSign(H, k, message, capacity, null, []);
  }

  // ---- verifying ----

  /** lms_root_from_signature as a function of the bytes. */
  ghost function CandidateRoot(H: HashFn, pub: PublicKey, message: Bytes, sig: Bytes): Option<Digest> {
    if !Compatible(pub.lmsType, pub.otsType) || |sig| != SignatureLen(pub.lmsType, pub.otsType) then None
    else
      var alg, height := LmsParamOf(pub.lmsType).value.alg, LmsParamOf(pub.lmsType).value.height;
      var otsLen := OtsSignatureLen(pub.otsType);
      var q := LoadU32(sig);
      var ots := sig[4..4 + otsLen];
      if q >= Pow2(height) || LoadU32(sig[4 + otsLen..]) != pub.lmsType || LoadU32(ots) != pub.otsType then None
      else
        var num := Pow2(height) + q;
        var leaf := LeafHash(H, alg, pub.I, num, OtsCandidate(H, alg, pub.I, q, pub.otsType, message, ots));
        Some(Climb(NodeFn(H, alg, pub.I), num, leaf, Blocks(sig[8 + otsLen..], height)))
  }

  /** The first n 32-byte blocks. */
  function Blocks(b: Bytes, n: nat): (bs: seq<Digest>)
    requires |b| >= 32 * n
    ensures |bs| == n
    ensures forall i :: 0 <= i < n ==> bs[i] == Block(b, i)
  {
    if n == 0 then [] else Blocks(b, n - 1) + [Block(b, n - 1)]
  }

  lemma BlocksOfFlatten(ds: seq<Digest>)
    ensures Blocks(Flatten(ds), |ds|) == ds
  {
    forall i | 0 <= i < |ds|
      ensures Block(Flatten(ds), i) == ds[i]
    {
      BlockOfFlatten(ds, i);
    }
  }

  /** lmots_verify_leaf, software path */
  method VerifyLeaf(H: HashFn, alg: HashAlg, I: Bytes, q: nat, otsType: nat, num: nat, message: Bytes, ots: Bytes)
    returns (rc: Rc, leaf: Digest)
    requires OtsParamOf(otsType).Some? && OtsParamOf(otsType).value.alg == alg && |ots| == OtsSignatureLen(otsType)
    ensures rc == if LoadU32(ots) == otsType then Ok else ErrVerify
    ensures rc == Ok ==> leaf == LeafHash(H, alg, I, num, OtsCandidate(H, alg, I, q, otsType, message, ots))
  {
    hide OtsCandidate, LoadU32;
    var pub;
    rc, pub := PublicFromSignature(H, alg, I, q, otsType, message, ots);
    leaf := LeafHash(H, alg, I, num, pub);
  }

  /** lms_root_from_signature */
  method RootFromSignature(H: HashFn, pub: PublicKey, message: Bytes, sig: Bytes) returns (rc: Rc, root: Digest)
    ensures rc == Ok <==> CandidateRoot(H, pub, message, sig).Some?
    ensures rc == Ok ==> CandidateRoot(H, pub, message, sig) == Some(root)
  {
    hide OtsCandidate, LoadU32, Pow2, Climb;
    root := ZeroDigest();
    if !Compatible(pub.lmsType, pub.otsType) {
      return ErrInvalid, root;
    }
    var alg, height := LmsParamOf(pub.lmsType).value.alg, LmsParamOf(pub.lmsType).value.height;
    var otsLen := OtsSignatureLen(pub.otsType);
    if |sig| != 4 + otsLen + 4 + height * 32 {
      return ErrInvalid, root;
    }
    var q := LoadU32(sig);
    if q >= Pow2(height) {
      return ErrVerify, root;
    }
    var ots := sig[4..4 + otsLen];
    if LoadU32(sig[4 + otsLen..]) != pub.lmsType {
      return ErrVerify, root;
    }
    var num := Pow2(height) + q;
    var leafRc, node := VerifyLeaf(H, alg, pub.I, q, pub.otsType, num, message, ots);
    if leafRc != Ok {
      return ErrVerify, root;
    }
    root := ClimbPath(H, alg, pub.I, num, node, Blocks(sig[8 + otsLen..], height));
    rc := Ok;
  }

  /** The level loop: the parity of the node number decides the order of the children. */
  method ClimbPath(H: HashFn, alg: HashAlg, I: Bytes, leafNum: nat, leaf: Digest, path: seq<Digest>) returns (node: Digest)
    ensures node == Climb(NodeFn(H, alg, I), leafNum, leaf, path)
  {
    hide NodeHash;
    var num := leafNum;
    node := leaf;
    var i := 0;
    while i < |path|
      invariant 0 <= i <= |path|
      invariant Climb(NodeFn(H, alg, I), num, node, path[i..]) == Climb(NodeFn(H, alg, I), leafNum, leaf, path)
    {
      var sibling := path[i];
      if num % 2 == 0 {
        node := NodeHash(H, alg, I, num / 2, node, sibling);
      } else {
        node := NodeHash(H, alg, I, num / 2, sibling, node);
      }
      assert path[i..][1..] == path[i + 1..];
      num := num / 2;
      i := i + 1;
    }
  }

  /** lms_verify */
  method Verify(H: HashFn, pub: PublicKey, message: Bytes, sig: Bytes) returns (rc: Rc)
    ensures rc == if Accepts(H, pub, message, sig) then Ok else ErrVerify
  {
    hide CandidateRoot;
    var rootRc, root := RootFromSignature(H, pub, message, sig);
    if rootRc != Ok {
      return ErrVerify;
    }
    var same := true;
    var i := 0;
    while i < 32
      invariant 0 <= i <= 32
      invariant same <==> root[..i] == pub.root[..i]
    {
      assert root[..i + 1] == root[..i] + [root[i]] && pub.root[..i + 1] == pub.root[..i] + [pub.root[i]];
      same := same && root[i] == pub.root[i];
      i := i + 1;
    }
    assert root[..32] == root && pub.root[..32] == pub.root;
    rc := if same then Ok else ErrVerify;
  }

  ghost predicate Accepts(H: HashFn, pub: PublicKey, message: Bytes, sig: Bytes) {
    CandidateRoot(H, pub, message, sig) == Some(pub.root)
  }

  // ---- keys ----

  /** lms_public_key_generate */
  function PublicOf(H: HashFn, k: PrivateKey): PublicKey
    requires KeyShape(k)
  {
    PublicKey(k.lmsType, k.otsType, k.I, TreeNode(TreeOf(H, k), 1))
  }

  /** lms_public_key_serialize */
  function SerializePublic(pub: PublicKey): Bytes {
    StoreU32(pub.lmsType) + StoreU32(pub.otsType) + pub.I + pub.root
  }

  /** lms_public_key_parse */
  function ParsePublic(b: Bytes): (r: Option<PublicKey>) {
    if |b| != 56 then None
    else
      var lmsType, otsType := LoadU32(b), LoadU32(b[4..]);
      if !Compatible(lmsType, otsType) then None
      else Some(PublicKey(lmsType, otsType, b[8..24], b[24..56]))
  }

  lemma TypeBounds(lmsType: nat, otsType: nat)
    requires Compatible(lmsType, otsType)
    ensures lmsType < 0x1_0000_0000 && otsType < 0x1_0000_0000
    ensures Pow2(LmsParamOf(lmsType).value.height) < 0x1_0000_0000
  {
    LargePowers();
    Pow2Monotone(LmsParamOf(lmsType).value.height, 25);
  }

  /** Parsing undoes serializing for every usable key, and refuses the others. */
  lemma PublicRoundTrip(pub: PublicKey)
    requires |pub.I| == 16 && pub.lmsType < 0x1_0000_0000 && pub.otsType < 0x1_0000_0000
    ensures ParsePublic(SerializePublic(pub)) == if Compatible(pub.lmsType, pub.otsType) then Some(pub) else None
  {
    hide Compatible, LoadU32, StoreU32;
    var b := SerializePublic(pub);
    U32RoundTrip(pub.lmsType);
    U32RoundTrip(pub.otsType);
    LoadFront(b, StoreU32(pub.lmsType));
    LoadFront(b[4..], StoreU32(pub.otsType));
    assert b[8..24] == pub.I && b[24..56] == pub.root;
  }

  /** Section 5.3 of RFC 8554: LMS type, LM-OTS type, identifier and root, at their places. */
  lemma PublicLayout(pub: PublicKey)
    requires |pub.I| == 16 && pub.lmsType < 0x1_0000_0000 && pub.otsType < 0x1_0000_0000
    ensures var b := SerializePublic(pub);
            && |b| == 56 && LoadU32(b[..4]) == pub.lmsType && LoadU32(b[4..8]) == pub.otsType
            && b[8..24] == pub.I && b[24..] == pub.root
  {
    hide LoadU32, StoreU32;
    var b := SerializePublic(pub);
    U32RoundTrip(pub.lmsType);
    U32RoundTrip(pub.otsType);
    assert b[..4] == StoreU32(pub.lmsType) && b[4..8] == StoreU32(pub.otsType);
    assert b[8..24] == pub.I && b[24..] == pub.root;
  }

  /** How the pieces of a signature are found again. */
  lemma SignatureParts(H: HashFn, k: PrivateKey, message: Bytes)
    requires KeyShape(k) && k.q < Pow2(HeightOfKey(k))
    ensures var sig := Signature(H, k, message);
            var otsLen := OtsSignatureLen(k.otsType);
            && LoadU32(sig) == k.q
            && sig[4..4 + otsLen] == OtsSignature(H, k, k.q, message)
            && LoadU32(sig[4..4 + otsLen]) == k.otsType
            && LoadU32(sig[4 + otsLen..]) == k.lmsType
            && Blocks(sig[8 + otsLen..], HeightOfKey(k)) == PathOf(TreeOf(H, k), k.q, HeightOfKey(k))
  {
    hide LoadU32, StoreU32, Flatten, PathOf, OtsSignature, Pow2, Blocks;
    var sig := Signature(H, k, message);
    var ots := OtsSignature(H, k, k.q, message);
    var path := PathOf(TreeOf(H, k), k.q, HeightOfKey(k));
    var otsLen := OtsSignatureLen(k.otsType);
    TypeBounds(k.lmsType, k.otsType);
    U32RoundTrip(k.q);
    U32RoundTrip(k.otsType);
    U32RoundTrip(k.lmsType);
    assert sig[..4] == StoreU32(k.q);
    assert sig[4..4 + otsLen] == ots;
    assert sig[4 + otsLen..][..4] == StoreU32(k.lmsType);
    assert sig[8 + otsLen..] == Flatten(path);
    OtsTypeFirst(H, k, message);
    LoadFront(sig, StoreU32(k.q));
    LoadFront(ots, StoreU32(k.otsType));
    LoadFront(sig[4 + otsLen..], StoreU32(k.lmsType));
    BlocksOfFlatten(path);
  }

  lemma OtsTypeFirst(H: HashFn, k: PrivateKey, message: Bytes)
    requires KeyShape(k)
    ensures OtsSignature(H, k, k.q, message)[..4] == StoreU32(k.otsType)
  {
    hide Flatten, Randomizer, SignedValues;
  }

  lemma PathIsAuthPath(t: Tree, q: nat)
    requires q < Pow2(t.height)
    ensures IsAuthPath(t, q, PathOf(t, q, t.height))
  {
    hide TreeNode, Pow2, Shr, PathOf;
  }

  /** Sign then verify: every signature of lms_do_sign leads lms_root_from_signature to node 1 of the tree. */
  lemma SignThenVerify(H: HashFn, k: PrivateKey, message: Bytes)
    requires KeyShape(k) && k.q < Pow2(HeightOfKey(k))
    ensures Accepts(H, PublicOf(H, k), message, Signature(H, k, message))
  {
    hide LoadU32, OtsSignature, OtsCandidate, OtsPublicKey, PathOf, Pow2, TreeNode, Climb, Blocks, Flatten, StoreU32;
    var t := TreeOf(H, k);
    SignatureParts(H, k, message);
    OtsSignThenVerify(H, k, k.q, message);
    TreeLeaf(H, k, k.q);
    PathIsAuthPath(t, k.q);
    ClimbGivesRoot(t, k.q, PathOf(t, k.q, t.height));
  }
}
