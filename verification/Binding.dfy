/** What a signature says about its message: one signature accepted for two messages breaks the hash, on strings that
    the two verifications themselves hash. */
module Binding {
  import opened Words
  import opened Params
  import opened MerkleTree
  import opened Winternitz
  import opened Lmots
  import opened Lms
  import opened HashCalls
  import Hss

  // ---- what a verification hashes ----

  /** The parts of a signature that lms_verify works on. */
  datatype Parts = Parts(alg: HashAlg, I: Bytes, height: nat, w: nat, q: nat, C: Digest, ys: Bytes, path: seq<Digest>)

  ghost predicate Wellformed(pub: PublicKey, sig: Bytes) {
    && |pub.I| == 16 && Compatible(pub.lmsType, pub.otsType) && |sig| == SignatureLen(pub.lmsType, pub.otsType)
    && LoadU32(sig) < Pow2(LmsParamOf(pub.lmsType).value.height)
  }

  ghost function PartsOf(pub: PublicKey, sig: Bytes): (t: Parts)
    requires Wellformed(pub, sig)
    ensures PartsOk(t)
  {
    var height, w := LmsParamOf(pub.lmsType).value.height, OtsParamOf(pub.otsType).value.w;
    var end := 4 + OtsSignatureLen(pub.otsType);
    NumberFits(height, LoadU32(sig));
    Parts(LmsParamOf(pub.lmsType).value.alg, pub.I, height, w, LoadU32(sig), sig[8..40], sig[40..end],
          Blocks(sig[end + 4..], height))
  }

  ghost predicate PartsOk(t: Parts) {
    && |t.I| == 16 && IsWidth(t.w) && |t.ys| == 32 * DigitCount(t.w) && |t.path| == t.height
    && t.q < 0x1_0000_0000 && Pow2(t.height) + t.q < 0x1_0000_0000
  }

  lemma NumberFits(height: nat, q: nat)
    requires height <= 25 && q < Pow2(height)
    ensures q < 0x1_0000_0000 && Pow2(height) + q < 0x1_0000_0000
  {
    LargePowers();
    Pow2Monotone(height, 25);
  }

  /** Q of the message. */
  ghost function HashOf(H: HashFn, t: Parts, m: Bytes): Digest {
    MessageHash(H, t.alg, t.I, t.q, t.C, m)
  }

  ghost function Ends(H: HashFn, t: Parts, m: Bytes): seq<Digest>
    requires PartsOk(t)
  {
    FinishedValues(H, t.alg, t.I, t.q, t.w, HashOf(H, t, m), t.ys, DigitCount(t.w))
  }

  ghost function Candidate(H: HashFn, t: Parts, m: Bytes): Digest
    requires PartsOk(t)
  {
    PublicHash(H, t.alg, t.I, t.q, Ends(H, t, m))
  }

  /** The value the climb has reached after k levels. */
  ghost function Reached(H: HashFn, t: Parts, m: Bytes, k: nat): Digest
    requires PartsOk(t) && k <= t.height
  {
    var num := Pow2(t.height) + t.q;
    Climb(NodeFn(H, t.alg, t.I), num, LeafHash(H, t.alg, t.I, num, Candidate(H, t, m)), t.path[..k])
  }

  ghost function ClimbCall(t: Parts, cur: Digest, k: nat): Call
    requires PartsOk(t) && k < t.height
  {
    var num := Shr(Pow2(t.height) + t.q, k);
    if num % 2 == 0 then NodeCall(t.I, num / 2, cur, t.path[k]) else NodeCall(t.I, num / 2, t.path[k], cur)
  }

  /** Step k of finishing chain i from digit a. */
  ghost function StepCall(H: HashFn, t: Parts, i: nat, a: nat, k: nat): Call
    requires PartsOk(t) && i < DigitCount(t.w) && a + k <= 256
  {
    ChainCall(t.I, t.q, i, a + k, Chain(H, t.alg, t.I, t.q, i, a, k, Block(t.ys, i)))
  }

  ghost predicate IsStep(H: HashFn, t: Parts, m: Bytes, c: Call, i: nat, k: nat)
    requires PartsOk(t)
  {
    && i < DigitCount(t.w) && Digit(HashOf(H, t, m), i, t.w) + k < Pow2(t.w) - 1 <= 255
    && c == StepCall(H, t, i, Digit(HashOf(H, t, m), i, t.w), k)
  }

  ghost predicate IsClimb(H: HashFn, t: Parts, m: Bytes, c: Call, k: nat)
    requires PartsOk(t)
  {
    k < t.height && c == ClimbCall(t, Reached(H, t, m, k), k)
  }

  /** The uses of the hash in the verification of a signature with these parts for message m. */
  ghost predicate Makes(H: HashFn, t: Parts, m: Bytes, c: Call)
    requires PartsOk(t)
  {
    || c == MessageCall(t.I, t.q, t.C, m)
    || (exists i: nat, k: nat :: IsStep(H, t, m, c, i, k))
    || c == PublicCall(t.I, t.q, Ends(H, t, m))
    || c == LeafCall(t.I, Pow2(t.height) + t.q, Candidate(H, t, m))
    || (exists k: nat :: IsClimb(H, t, m, c, k))
  }

  /** String x is hashed when the signature is verified for m. */
  ghost predicate Hashes(H: HashFn, t: Parts, m: Bytes, x: Bytes)
    requires PartsOk(t)
  {
    exists c :: Fits(c) && Makes(H, t, m, c) && x == Input(c)
  }

  // ---- how the hash breaks ----

  /** Two strings with one hash; or a value of the signature that comes back to itself when chain i is run from a
      step on. */
  datatype Break = Strings(x: Bytes, y: Bytes) | Loop(i: nat, start: nat, values: seq<Digest>)

  ghost predicate Breaks(H: HashFn, t: Parts, m: Bytes, m': Bytes, b: Break)
    requires PartsOk(t)
  {
    match b
    case Strings(x, y) => x != y && H(t.alg, x) == H(t.alg, y) && Hashes(H, t, m, x) && Hashes(H, t, m', y)
    case Loop(i, start, values) =>
      && i < DigitCount(t.w) && |values| >= 2 && start + |values| <= 256
      && values[0] == Block(t.ys, i) == values[|values| - 1]
      && forall k: nat :: k + 1 < |values| ==>
           values[k + 1] == H(t.alg, t.I + StoreU32(t.q) + StoreU16(i) + [(start + k) as byte] + values[k])
  }

  lemma Collide(H: HashFn, t: Parts, m: Bytes, m': Bytes, c: Call, c': Call) returns (b: Break)
    requires PartsOk(t) && Fits(c) && Fits(c') && c != c' && Result(H, t.alg, c) == Result(H, t.alg, c')
    requires Makes(H, t, m, c) && Makes(H, t, m', c')
    ensures Breaks(H, t, m, m', b)
  {
    hide Result, Fits, Makes, Input, PartsOk;
    CallsApart(H, t.alg, c, c');
    b := Strings(Input(c), Input(c'));
  }

  // ---- the climb ----

  lemma ReachedStep(H: HashFn, t: Parts, m: Bytes, k: nat)
    requires PartsOk(t) && k < t.height
    ensures Reached(H, t, m, k + 1) == ClimbStep(NodeFn(H, t.alg, t.I), Shr(Pow2(t.height) + t.q, k), Reached(H, t, m, k), t.path[k])
  {
    hide Candidate, LeafHash, NodeHash, Climb, ClimbStep, Shr;
    var num := Pow2(t.height) + t.q;
    assert t.path[..k + 1] == t.path[..k] + [t.path[k]];
    ClimbAppend(NodeFn(H, t.alg, t.I), num, LeafHash(H, t.alg, t.I, num, Candidate(H, t, m)), t.path[..k], t.path[k]);
  }

  lemma ClimbCallFits(t: Parts, cur: Digest, k: nat)
    requires PartsOk(t) && k < t.height
    ensures Fits(ClimbCall(t, cur, k))
  {
    hide Pow2;
    ShrIsDiv(Pow2(t.height) + t.q, k);
    MulLe(1, Pow2(k), Shr(Pow2(t.height) + t.q, k));
  }

  /** Two climbs along one path that end alike began alike or met on the way. */
  lemma {:induction false} ClimbsMeet(H: HashFn, t: Parts, m: Bytes, m': Bytes, k: nat) returns (b: Break)
    requires PartsOk(t) && k <= t.height && Reached(H, t, m, k) != Reached(H, t, m', k)
    requires Reached(H, t, m, t.height) == Reached(H, t, m', t.height)
    ensures Breaks(H, t, m, m', b)
    decreases t.height - k
  {
    hide Reached, Breaks, Shr, Pow2, NodeHash;
    ReachedStep(H, t, m, k);
    ReachedStep(H, t, m', k);
    if Reached(H, t, m, k + 1) != Reached(H, t, m', k + 1) {
      b := ClimbsMeet(H, t, m, m', k + 1);
    } else {
      var c, c' := ClimbCall(t, Reached(H, t, m, k), k), ClimbCall(t, Reached(H, t, m', k), k);
      ClimbCallFits(t, Reached(H, t, m, k), k);
      ClimbCallFits(t, Reached(H, t, m', k), k);
      assert IsClimb(H, t, m, c, k) && IsClimb(H, t, m', c', k);
      b := Collide(H, t, m, m', c, c');
    }
  }

  // ---- the chains ----

  lemma {:induction false} ChainSplit(H: HashFn, alg: HashAlg, I: Bytes, q: nat, i: nat, start: nat, m: nat, n: nat, v: Digest)
    requires start + m + n <= 256
    ensures Chain(H, alg, I, q, i, start + m, n, Chain(H, alg, I, q, i, start, m, v)) == Chain(H, alg, I, q, i, start, m + n, v)
    decreases n
  {
    hide ChainStep;
    if n > 0 {
      ChainSplit(H, alg, I, q, i, start, m, n - 1, v);
    }
  }

  /** A signature value that a chain brings back to itself. */
  lemma ChainLoop(H: HashFn, t: Parts, m: Bytes, m': Bytes, i: nat, start: nat, steps: nat) returns (b: Break)
    requires PartsOk(t) && i < DigitCount(t.w) && steps >= 1 && start + steps <= 255
    requires Chain(H, t.alg, t.I, t.q, i, start, steps, Block(t.ys, i)) == Block(t.ys, i)
    ensures Breaks(H, t, m, m', b)
  {
    hide StoreU32, StoreU16, Makes, Pow2;
    var v := Block(t.ys, i);
    var values := seq(steps + 1, k requires 0 <= k <= steps => Chain(H, t.alg, t.I, t.q, i, start, k, v));
    b := Loop(i, start, values);
    forall k: nat | k + 1 < |values|
      ensures values[k + 1] == H(t.alg, t.I + StoreU32(t.q) + StoreU16(i) + [(start + k) as byte] + values[k])
    {
      assert values[k + 1] == ChainStep(H, t.alg, t.I, t.q, i, start + k, values[k]);
    }
  }

  /** Chain i is finished from digit a for m and from the smaller digit a' for m'. */
  ghost predicate Apart(H: HashFn, t: Parts, m: Bytes, m': Bytes, i: nat, a: nat, a': nat)
    requires PartsOk(t)
  {
    && i < DigitCount(t.w) && a == Digit(HashOf(H, t, m), i, t.w) && a' == Digit(HashOf(H, t, m'), i, t.w) && a' < a
    && 2 <= Pow2(t.w) <= 256
  }

  /** After k steps from a the two verifications still differ, and they end alike. */
  lemma {:induction false} ChainsMeet(H: HashFn, t: Parts, m: Bytes, m': Bytes, i: nat, a: nat, a': nat, k: nat) returns (b: Break)
    requires PartsOk(t) && Apart(H, t, m, m', i, a, a') && a + k <= Pow2(t.w) - 1
    requires Chain(H, t.alg, t.I, t.q, i, a, k, Block(t.ys, i)) != Chain(H, t.alg, t.I, t.q, i, a', a - a' + k, Block(t.ys, i))
    requires Chain(H, t.alg, t.I, t.q, i, a, Pow2(t.w) - 1 - a, Block(t.ys, i))
          == Chain(H, t.alg, t.I, t.q, i, a', Pow2(t.w) - 1 - a', Block(t.ys, i))
    ensures Breaks(H, t, m, m', b)
    decreases Pow2(t.w) - 1 - a - k
  {
    hide ChainStep, Breaks, Digit, HashOf, Pow2, Block;
    var v := Block(t.ys, i);
    var u, u' := Chain(H, t.alg, t.I, t.q, i, a, k + 1, v), Chain(H, t.alg, t.I, t.q, i, a', a - a' + k + 1, v);
    if u != u' {
      b := ChainsMeet(H, t, m, m', i, a, a', k + 1);
    } else {
      var c, c' := StepCall(H, t, i, a, k), StepCall(H, t, i, a', a - a' + k);
      assert IsStep(H, t, m, c, i, k) && IsStep(H, t, m', c', i, a - a' + k);
      b := Collide(H, t, m, m', c, c');
    }
  }

  lemma {:induction false} FinishedAt(H: HashFn, alg: HashAlg, I: Bytes, q: nat, w: nat, Q: Digest, ys: Bytes, n: nat, i: nat)
    requires IsWidth(w) && i < n <= DigitCount(w) && 32 * n <= |ys|
    ensures FinishedValues(H, alg, I, q, w, Q, ys, n)[i] == FinishedValue(H, alg, I, q, w, Q, ys, i)
    decreases n
  {
    hide FinishedValue;
    if i < n - 1 {
      FinishedAt(H, alg, I, q, w, Q, ys, n - 1, i);
    }
  }

  /** Some digit of the one hash is larger than that of the other: there the two verifications start in one chain at
      two places, with the same value. */
  lemma EndsMeet(H: HashFn, t: Parts, m: Bytes, m': Bytes) returns (b: Break)
    requires PartsOk(t) && HashOf(H, t, m) != HashOf(H, t, m') && Ends(H, t, m) == Ends(H, t, m')
    ensures Breaks(H, t, m, m', b)
  {
    hide Digit, FinishedValues, Breaks, Chain, Pow2, HashOf;
    var Q, Q' := HashOf(H, t, m), HashOf(H, t, m');
    if forall i :: 0 <= i < DigitCount(t.w) ==> Digit(Q, i, t.w) <= Digit(Q', i, t.w) {
      NonDomination(Q, Q', t.w);
    }
    var i: nat :| i < DigitCount(t.w) && Digit(Q, i, t.w) > Digit(Q', i, t.w);
    var a, a' := Digit(Q, i, t.w), Digit(Q', i, t.w);
    FinishedAt(H, t.alg, t.I, t.q, t.w, Q, t.ys, DigitCount(t.w), i);
    FinishedAt(H, t.alg, t.I, t.q, t.w, Q', t.ys, DigitCount(t.w), i);
    WidthBound(t.w);
    NoSteps(H, t, i, a);
    if Chain(H, t.alg, t.I, t.q, i, a', a - a', Block(t.ys, i)) == Block(t.ys, i) {
      b := ChainLoop(H, t, m, m', i, a', a - a');
    } else {
      b := ChainsMeet(H, t, m, m', i, a, a', 0);
    }
  }

  lemma NoSteps(H: HashFn, t: Parts, i: nat, a: nat)
    requires PartsOk(t) && i < DigitCount(t.w) && a <= 256
    ensures Chain(H, t.alg, t.I, t.q, i, a, 0, Block(t.ys, i)) == Block(t.ys, i)
  {
  }

  /** Two messages for which the signature leads to one root. */
  lemma RootsMeet(H: HashFn, t: Parts, m: Bytes, m': Bytes) returns (b: Break)
    requires PartsOk(t) && m != m' && Reached(H, t, m, t.height) == Reached(H, t, m', t.height)
    ensures Breaks(H, t, m, m', b)
  {
    hide FinishedValues, MessageHash, PublicHash, LeafHash, Breaks, NodeHash, Pow2;
    var num := Pow2(t.height) + t.q;
    if Reached(H, t, m, 0) != Reached(H, t, m', 0) {
      b := ClimbsMeet(H, t, m, m', 0);
    } else if Candidate(H, t, m) != Candidate(H, t, m') {
      b := Collide(H, t, m, m', LeafCall(t.I, num, Candidate(H, t, m)), LeafCall(t.I, num, Candidate(H, t, m')));
    } else if Ends(H, t, m) != Ends(H, t, m') {
      b := Collide(H, t, m, m', PublicCall(t.I, t.q, Ends(H, t, m)), PublicCall(t.I, t.q, Ends(H, t, m')));
    } else if HashOf(H, t, m) == HashOf(H, t, m') {
      b := Collide(H, t, m, m', MessageCall(t.I, t.q, t.C, m), MessageCall(t.I, t.q, t.C, m'));
    } else {
      b := EndsMeet(H, t, m, m');
    }
  }

  lemma Inner(b: Bytes, lo: nat, hi: nat, i: nat, j: nat)
    requires lo <= hi <= |b| && i <= j <= hi - lo
    ensures b[lo..hi][i..j] == b[lo + i..lo + j]
  {
    forall k | 0 <= k < j - i
      ensures b[lo..hi][i..j][k] == b[lo + i..lo + j][k]
    {
      assert b[lo..hi][i..j][k] == b[lo..hi][i + k];
    }
  }

  /** lms_verify works on the parts. */
  lemma AcceptsReaches(H: HashFn, pub: PublicKey, m: Bytes, sig: Bytes)
    requires |pub.I| == 16 && Accepts(H, pub, m, sig)
    ensures Wellformed(pub, sig)
    ensures var t := PartsOf(pub, sig); t.alg == LmsParamOf(pub.lmsType).value.alg && Reached(H, t, m, t.height) == pub.root
  {
    hide FinishedValues, MessageHash, PublicHash, LeafHash, LoadU32, Climb, Pow2, Blocks, NodeHash;
    var t := PartsOf(pub, sig);
    var otsLen := OtsSignatureLen(pub.otsType);
    var ots := sig[4..4 + otsLen];
    Inner(sig, 4, 4 + otsLen, 4, 36);
    Inner(sig, 4, 4 + otsLen, 36, otsLen);
    assert t.path[..t.height] == t.path;
  }

  /** lms_verify: a signature accepted under one public key for two messages breaks the hash, on strings that the two
      verifications hash. */
  lemma OneMessage(H: HashFn, pub: PublicKey, m: Bytes, m': Bytes, sig: Bytes) returns (b: Break)
    requires |pub.I| == 16 && m != m' && Accepts(H, pub, m, sig) && Accepts(H, pub, m', sig)
    ensures Wellformed(pub, sig) && Breaks(H, PartsOf(pub, sig), m, m', b)
  {
    hide Accepts, Breaks, Reached, Wellformed, PartsOk;
    AcceptsReaches(H, pub, m, sig);
    AcceptsReaches(H, pub, m', sig);
    b := RootsMeet(H, PartsOf(pub, sig), m, m');
  }

  // ---- through the hierarchy ----

  /** The last public key of a chain of n certificates, and the signature under it. */
  ghost function LastOf(root: PublicKey, n: nat, sig: Bytes): (PublicKey, Bytes)
    decreases n
  {
    var certLen := SignatureLen(root.lmsType, root.otsType);
    if n == 0 || certLen + 56 > |sig| || ParsePublic(sig[certLen..certLen + 56]).None? then (root, sig)
    else LastOf(ParsePublic(sig[certLen..certLen + 56]).value, n - 1, sig[certLen + 56..])
  }

  lemma {:induction false} LastAccepts(H: HashFn, root: PublicKey, n: nat, m: Bytes, sig: Bytes)
    requires |root.I| == 16 && Hss.VerifyFrom(H, root, n, m, sig)
    ensures var (pub, last) := LastOf(root, n, sig); |pub.I| == 16 && Accepts(H, pub, m, last)
    decreases n
  {
    hide Accepts, LoadU32;
    if n > 0 {
      var certLen := SignatureLen(root.lmsType, root.otsType);
      LastAccepts(H, ParsePublic(sig[certLen..certLen + 56]).value, n - 1, m, sig[certLen + 56..]);
    }
  }

  /** hss_verify: the same, at the last key of the chain. */
  lemma OneHssMessage(H: HashFn, levels: nat, root: PublicKey, m: Bytes, m': Bytes, sig: Bytes) returns (b: Break)
    requires |root.I| == 16 && m != m' && Hss.HssAccepts(H, levels, root, m, sig) && Hss.HssAccepts(H, levels, root, m', sig)
    ensures var (pub, last) := LastOf(root, levels - 1, sig[4..]);
            Wellformed(pub, last) && Breaks(H, PartsOf(pub, last), m, m', b)
  {
    hide Accepts, Breaks, Wellformed, Hss.VerifyFrom, LastOf;
    LastAccepts(H, root, levels - 1, m, sig[4..]);
    LastAccepts(H, root, levels - 1, m', sig[4..]);
    var (pub, last) := LastOf(root, levels - 1, sig[4..]);
    b := OneMessage(H, pub, m, m', last);
  }
}
