/** LM-OTS, the software paths of src/lm_ots.c: sections 4.3 to 4.6 of RFC 8554 over an arbitrary hash. */
module Lmots {
  import opened Words
  import opened Params
  import opened Winternitz

  /** lms_hash: any total function from bytes to 32 bytes, one per algorithm. */
  type HashFn = (HashAlg, Bytes) -> Digest

  const D_PBLC: nat := 0x8080
  const D_MESG: nat := 0x8181
  const D_RANDOM: nat := 0x8585

  /** lms_private_key_t */
  datatype PrivateKey = PrivateKey(lmsType: nat, otsType: nat, I: Bytes, seed: Bytes, q: nat)

  /** What lms_private_key_init establishes. */
  predicate KeyShape(k: PrivateKey) {
    Compatible(k.lmsType, k.otsType) && |k.I| == 16 && |k.seed| == 32
  }

  function AlgOf(k: PrivateKey): HashAlg
    requires KeyShape(k)
  {
    LmsParamOf(k.lmsType).value.alg
  }

  function OtsOf(k: PrivateKey): OtsParam
    requires KeyShape(k)
  {
    OtsParamOf(k.otsType).value
  }

  // ---- lists of 32-byte blocks ----

  function Flatten(blocks: seq<Digest>): (b: Bytes)
    ensures |b| == 32 * |blocks|
  {
    if |blocks| == 0 then [] else Flatten(blocks[..|blocks| - 1]) + blocks[|blocks| - 1]
  }

  function Block(b: Bytes, i: nat): Digest
    requires 32 * i + 32 <= |b|
  {
    b[32 * i..32 * i + 32]
  }

  lemma {:induction false} BlockOfFlatten(blocks: seq<Digest>, i: nat)
    requires i < |blocks|
    ensures Block(Flatten(blocks), i) == blocks[i]
  {
    var n := |blocks| - 1;
    var front := Flatten(blocks[..n]);
    if i < n {
      BlockOfFlatten(blocks[..n], i);
      assert Flatten(blocks)[32 * i..32 * i + 32] == front[32 * i..32 * i + 32];
    }
  }

  lemma FlattenAppend(blocks: seq<Digest>, d: Digest)
    ensures Flatten(blocks + [d]) == Flatten(blocks) + d
  {
    assert (blocks + [d])[..|blocks|] == blocks;
  }

  // ---- the hashed strings ----

  /** I || u32(q) || u16(tag) */
  function Prefix(I: Bytes, q: nat, tag: nat): Bytes {
    I + StoreU32(q) + StoreU16(tag)
  }

  /** lmots_private_value: x_i */
  function PrivateValue(H: HashFn, k: PrivateKey, q: nat, i: nat): Digest
    requires KeyShape(k)
  {
    H(AlgOf(k), Prefix(k.I, q, i) + [0xff] + k.seed)
  }

  /** lmots_randomizer, software path */
  function Randomizer(H: HashFn, k: PrivateKey, q: nat): Digest
    requires KeyShape(k)
  {
    H(AlgOf(k), Prefix(k.I, q, D_RANDOM) + k.seed)
  }

  function ChainStep(H: HashFn, alg: HashAlg, I: Bytes, q: nat, i: nat, j: nat, value: Digest): Digest
    requires j < 256
  {
    H(alg, Prefix(I, q, i) + [j] + value)
  }

  /** Steps start, start + 1, .., start + steps - 1 of chain i. */
  function Chain(H: HashFn, alg: HashAlg, I: Bytes, q: nat, i: nat, start: nat, steps: nat, value: Digest): Digest
    requires start + steps <= 256
    decreases steps
  {
    if steps == 0 then value
    else ChainStep(H, alg, I, q, i, start + steps - 1, Chain(H, alg, I, q, i, start, steps - 1, value))
  }

  /** Two runs of a chain join: the verifier finishes what the signer began. */
  lemma {:induction false} ChainJoin(H: HashFn, alg: HashAlg, I: Bytes, q: nat, i: nat, a: nat, b: nat, value: Digest)
    requires a + b <= 256
    ensures Chain(H, alg, I, q, i, a, b, Chain(H, alg, I, q, i, 0, a, value)) == Chain(H, alg, I, q, i, 0, a + b, value)
    decreases b
  {
    if b == 0 {
    } else {
      ChainJoin(H, alg, I, q, i, a, b - 1, value);
    }
  }

  function MessageHash(H: HashFn, alg: HashAlg, I: Bytes, q: nat, C: Digest, message: Bytes): Digest {
    H(alg, Prefix(I, q, D_MESG) + C + message)
  }

  function PublicHash(H: HashFn, alg: HashAlg, I: Bytes, q: nat, ends: seq<Digest>): Digest {
    H(alg, Prefix(I, q, D_PBLC) + Flatten(ends))
  }

  /** The end of chain i: 2^w - 1 steps from x_i. */
  function ChainEnd(H: HashFn, k: PrivateKey, q: nat, i: nat): Digest
    requires KeyShape(k)
  {
    WidthBound(OtsOf(k).w);
    Chain(H, AlgOf(k), k.I, q, i, 0, Pow2(OtsOf(k).w) - 1, PrivateValue(H, k, q, i))
  }

  lemma WidthBound(w: nat)
    requires IsWidth(w)
    ensures 2 <= Pow2(w) <= 256
  {
    Powers();
  }

  function ChainEnds(H: HashFn, k: PrivateKey, q: nat, n: nat): (ends: seq<Digest>)
    requires KeyShape(k)
    ensures |ends| == n
  {
    if n == 0 then [] else ChainEnds(H, k, q, n - 1) + [ChainEnd(H, k, q, n - 1)]
  }

  /** K_q */
  function OtsPublicKey(H: HashFn, k: PrivateKey, q: nat): Digest
    requires KeyShape(k)
  {
    PublicHash(H, AlgOf(k), k.I, q, ChainEnds(H, k, q, OtsOf(k).p))
  }

  // ---- signing, as a specification ----

  ghost function OtsQ(H: HashFn, k: PrivateKey, q: nat, message: Bytes): Digest
    requires KeyShape(k)
  {
    MessageHash(H, AlgOf(k), k.I, q, Randomizer(H, k, q), message)
  }

  /** y_i: chain i stopped at its digit. */
  ghost function SignedValue(H: HashFn, k: PrivateKey, q: nat, Q: Digest, i: nat): Digest
    requires KeyShape(k) && i < OtsOf(k).p
  {
    WidthBound(OtsOf(k).w);
    Chain(H, AlgOf(k), k.I, q, i, 0, Digit(Q, i, OtsOf(k).w), PrivateValue(H, k, q, i))
  }

  ghost function SignedValues(H: HashFn, k: PrivateKey, q: nat, Q: Digest, n: nat): (ys: seq<Digest>)
    requires KeyShape(k) && n <= OtsOf(k).p
    ensures |ys| == n
    ensures forall i :: 0 <= i < n ==> ys[i] == SignedValue(H, k, q, Q, i)
  {
    if n == 0 then [] else SignedValues(H, k, q, Q, n - 1) + [SignedValue(H, k, q, Q, n - 1)]
  }

  ghost function OtsSignature(H: HashFn, k: PrivateKey, q: nat, message: Bytes): (sig: Bytes)
    requires KeyShape(k)
    ensures |sig| == OtsSignatureLen(k.otsType)
  {
    StoreU32(k.otsType) + Randomizer(H, k, q) + Flatten(SignedValues(H, k, q, OtsQ(H, k, q, message), OtsOf(k).p))
  }

  // ---- verifying, as a specification ----

  ghost function FinishedValue(H: HashFn, alg: HashAlg, I: Bytes, q: nat, w: nat, Q: Digest, ys: Bytes, i: nat): Digest
    requires IsWidth(w) && i < DigitCount(w) && 32 * i + 32 <= |ys|
  {
    WidthBound(w);
    var a := Digit(Q, i, w);
    Chain(H, alg, I, q, i, a, Pow2(w) - 1 - a, Block(ys, i))
  }

  ghost function FinishedValues(H: HashFn, alg: HashAlg, I: Bytes, q: nat, w: nat, Q: Digest, ys: Bytes, n: nat): (zs: seq<Digest>)
    requires IsWidth(w) && n <= DigitCount(w) && 32 * n <= |ys|
    ensures |zs| == n
  {
    if n == 0 then []
    else FinishedValues(H, alg, I, q, w, Q, ys, n - 1) + [FinishedValue(H, alg, I, q, w, Q, ys, n - 1)]
  }

  /** Candidate public key of a signature of the expected type and length. */
  ghost function OtsCandidate(H: HashFn, alg: HashAlg, I: Bytes, q: nat, otsType: nat, message: Bytes, sig: Bytes): Digest
    requires OtsParamOf(otsType).Some? && |sig| == OtsSignatureLen(otsType)
  {
    var C: Digest := sig[4..36];
    var Q := MessageHash(H, alg, I, q, C, message);
    var param := OtsParamOf(otsType).value;
    PublicHash(H, alg, I, q, FinishedValues(H, alg, I, q, param.w, Q, sig[36..], param.p))
  }

  lemma FinishSigned(H: HashFn, k: PrivateKey, q: nat, Q: Digest, ys: Bytes, i: nat)
    requires KeyShape(k) && i < OtsOf(k).p && 32 * i + 32 <= |ys|
    requires Block(ys, i) == SignedValue(H, k, q, Q, i)
    ensures FinishedValue(H, AlgOf(k), k.I, q, OtsOf(k).w, Q, ys, i) == ChainEnd(H, k, q, i)
  {
    hide Digit, Chain, Block, PrivateValue, Pow2;
    var w := OtsOf(k).w;
    var a := Digit(Q, i, w);
    WidthBound(w);
    ChainJoin(H, AlgOf(k), k.I, q, i, a, Pow2(w) - 1 - a, PrivateValue(H, k, q, i));
  }

  lemma {:induction false} FinishAll(H: HashFn, k: PrivateKey, q: nat, Q: Digest, ys: seq<Digest>, n: nat)
    requires KeyShape(k) && n <= OtsOf(k).p == |ys|
    requires ys == SignedValues(H, k, q, Q, OtsOf(k).p)
    ensures FinishedValues(H, AlgOf(k), k.I, q, OtsOf(k).w, Q, Flatten(ys), n) == ChainEnds(H, k, q, n)
    decreases n
  {
    hide SignedValue, FinishedValue, ChainEnd, SignedValues;
    if n > 0 {
      FinishAll(H, k, q, Q, ys, n - 1);
      BlockOfFlatten(ys, n - 1);
      SignedAt(H, k, q, Q, n - 1);
      FinishSigned(H, k, q, Q, Flatten(ys), n - 1);
    }
  }

  lemma SignedAt(H: HashFn, k: PrivateKey, q: nat, Q: Digest, i: nat)
    requires KeyShape(k) && i < OtsOf(k).p
    ensures SignedValues(H, k, q, Q, OtsOf(k).p)[i] == SignedValue(H, k, q, Q, i)
  {
  }

  /** Sections 4.5 and 4.6 of RFC 8554: the candidate of a genuine signature is the public key. */
  lemma OtsSignThenVerify(H: HashFn, k: PrivateKey, q: nat, message: Bytes)
    requires KeyShape(k)
    ensures OtsCandidate(H, AlgOf(k), k.I, q, k.otsType, message, OtsSignature(H, k, q, message)) == OtsPublicKey(H, k, q)
  {
    hide SignedValues, FinishedValues, ChainEnds, Flatten, MessageHash, Randomizer;
    var sig := OtsSignature(H, k, q, message);
    var C := Randomizer(H, k, q);
    var Q := OtsQ(H, k, q, message);
    var ys := SignedValues(H, k, q, Q, OtsOf(k).p);
    assert sig[4..36] == C;
    assert sig[36..] == Flatten(ys);
    FinishAll(H, k, q, Q, ys, OtsOf(k).p);
  }

  // ---- the loops ----

  datatype Rc = Ok | ErrInvalid | ErrBufferTooSmall | ErrExhausted | ErrVerify

  /** lmots_chain_compute */
  method ChainCompute(H: HashFn, alg: HashAlg, I: Bytes, q: nat, i: nat, start: nat, steps: nat, value: Digest)
    returns (rc: Rc, out: Digest)
    ensures rc == if i <= 0xffff && start + steps <= 0xff then Ok else ErrInvalid
    ensures rc == Ok ==> out == Chain(H, alg, I, q, i, start, steps, value)
  {
    out := value;
    if i > 0xffff || start > 0xff || steps > 0xff || start + steps > 0xff {
      return ErrInvalid, out;
    }
    var j := start;
    while j < start + steps
      invariant start <= j <= start + steps
      invariant out == Chain(H, alg, I, q, i, start, j - start, value)
    {
      out := ChainStep(H, alg, I, q, i, j, out);
      j := j + 1;
    }
    rc := Ok;
  }

  /** Q followed by its 16-bit checksum, the string the digits are cut from. */
  method WithChecksum(Q: Digest, w: nat) returns (data: Bytes)
    requires IsWidth(w)
    ensures data == Q + ChecksumBytes(Q, w)
  {
    hide DigitGap;
    var c := Checksum(Q, w, ChecksumShift(w));
    data := Q + StoreU16(c % 0x1_0000);
  }

  /** lmots_public_from_private */
  method PublicFromPrivate(H: HashFn, k: PrivateKey, q: nat) returns (rc: Rc, pub: Digest)
    requires |k.I| == 16 && |k.seed| == 32
    ensures rc == if Compatible(k.lmsType, k.otsType) then Ok else ErrInvalid
    ensures rc == Ok ==> KeyShape(k) && pub == OtsPublicKey(H, k, q)
  {
    hide Chain, PrivateValue, Flatten, Pow2;
    if !Compatible(k.lmsType, k.otsType) {
      return ErrInvalid, ZeroDigest();
    }
    var param := OtsOf(k);
    WidthBound(param.w);
    var ends: seq<Digest> := [];
    var i := 0;
    while i < param.p
      invariant 0 <= i <= param.p
      invariant ends == ChainEnds(H, k, q, i)
    {
      var steps := Pow2(param.w) - 1;
      var chainRc, value := ChainCompute(H, AlgOf(k), k.I, q, i, 0, steps, PrivateValue(H, k, q, i));
      ends := ends + [value];
      i := i + 1;
    }
    return Ok, PublicHash(H, AlgOf(k), k.I, q, ends);
  }

  /** lmots_sign */
  method OtsSign(H: HashFn, k: PrivateKey, q: nat, message: Bytes, capacity: nat) returns (rc: Rc, sig: Bytes)
    requires |k.I| == 16 && |k.seed| == 32
    ensures rc == if !Compatible(k.lmsType, k.otsType) then ErrInvalid
                  else if capacity < OtsSignatureLen(k.otsType) then ErrBufferTooSmall else Ok
    ensures rc == Ok ==> KeyShape(k) && sig == OtsSignature(H, k, q, message)
  {
    hide Chain, PrivateValue, Pow2, Coef, ChecksumBytes, SignedValue, SignedValues, Flatten;
    if !Compatible(k.lmsType, k.otsType) {
      return ErrInvalid, [];
    }
    var param := OtsOf(k);
    if capacity < 4 + 32 + param.p * 32 {
      return ErrBufferTooSmall, [];
    }
    var C := Randomizer(H, k, q);
    var Q := MessageHash(H, AlgOf(k), k.I, q, C, message);
    var values := SignValues(H, k, q, Q);
    sig := StoreU32(k.otsType) + C + values;
    rc := Ok;
  }

  /** The digit loop of lmots_sign: digit i of Q and its checksum says how far chain i is run. */
  method SignValues(H: HashFn, k: PrivateKey, q: nat, Q: Digest) returns (values: Bytes)
    requires KeyShape(k)
    ensures values == Flatten(SignedValues(H, k, q, Q, OtsOf(k).p))
  {
    hide Chain, PrivateValue, Pow2, Coef, ChecksumBytes, SignedValue, Flatten;
    var param := OtsOf(k);
    WidthBound(param.w);
    var data := WithChecksum(Q, param.w);
    ghost var ys: seq<Digest> := [];
    values := [];
    FlattenNone();
    var i := 0;
    while i < param.p
      invariant 0 <= i <= param.p
      invariant ys == SignedValues(H, k, q, Q, i) && values == Flatten(ys)
    {
      DigitInRange(i, param.w);
      var a := Coef(data, i, param.w);
      var chainRc, value := ChainCompute(H, AlgOf(k), k.I, q, i, 0, a, PrivateValue(H, k, q, i));
      SignedValueIs(H, k, q, Q, i, a, value);
      FlattenAppend(ys, value);
      ys := ys + [value];
      values := values + value;
      i := i + 1;
    }
  }

  lemma FlattenNone()
    ensures Flatten([]) == []
  {
  }

  lemma SignedValueIs(H: HashFn, k: PrivateKey, q: nat, Q: Digest, i: nat, a: nat, value: Digest)
    requires KeyShape(k) && i < OtsOf(k).p && a == Digit(Q, i, OtsOf(k).w) && a <= 256
    requires value == Chain(H, AlgOf(k), k.I, q, i, 0, a, PrivateValue(H, k, q, i))
    ensures value == SignedValue(H, k, q, Q, i)
  {
  }

  /** lmots_public_from_signature */
  method PublicFromSignature(H: HashFn, alg: HashAlg, I: Bytes, q: nat, expectedType: nat, message: Bytes, sig: Bytes)
    returns (rc: Rc, pub: Digest)
    ensures rc == if OtsParamOf(expectedType).None? || |sig| != OtsSignatureLen(expectedType) then ErrInvalid
                  else if LoadU32(sig) != expectedType then ErrVerify
                  else if OtsParamOf(expectedType).value.alg != alg then ErrInvalid else Ok
    ensures rc == Ok ==> pub == OtsCandidate(H, alg, I, q, expectedType, message, sig)
  {
    hide Chain, Pow2, Coef, ChecksumBytes, FinishedValue, LoadU32;
    pub := ZeroDigest();
    if OtsParamOf(expectedType).None? || |sig| != OtsSignatureLen(expectedType) {
      return ErrInvalid, pub;
    }
    var param := OtsParamOf(expectedType).value;
    if LoadU32(sig) != expectedType {
      return ErrVerify, pub;
    }
    if param.alg != alg {
      return ErrInvalid, pub;
    }
    WidthBound(param.w);
    var C: Digest := sig[4..36];
    var ys := sig[36..];
    var Q := MessageHash(H, alg, I, q, C, message);
    var data := WithChecksum(Q, param.w);
    var zs: seq<Digest> := [];
    var i := 0;
    while i < param.p
      invariant 0 <= i <= param.p
      invariant zs == FinishedValues(H, alg, I, q, param.w, Q, ys, i)
    {
      DigitInRange(i, param.w);
      var a := Coef(data, i, param.w);
      var chainRc, value := ChainCompute(H, alg, I, q, i, a, Pow2(param.w) - 1 - a, Block(ys, i));
      FinishedValueIs(H, alg, I, q, param.w, Q, ys, i, a, value);
      zs := zs + [value];
      i := i + 1;
    }
    return Ok, PublicHash(H, alg, I, q, zs);
  }

  lemma FinishedValueIs(H: HashFn, alg: HashAlg, I: Bytes, q: nat, w: nat, Q: Digest, ys: Bytes, i: nat, a: nat, value: Digest)
    requires IsWidth(w) && i < DigitCount(w) && 32 * i + 32 <= |ys| && a == Digit(Q, i, w)
    requires Pow2(w) - 1 <= 255
    requires value == Chain(H, alg, I, q, i, a, Pow2(w) - 1 - a, Block(ys, i))
    ensures value == FinishedValue(H, alg, I, q, w, Q, ys, i)
  {
  }
}
