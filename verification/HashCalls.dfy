/** Every use of the hash in LM-OTS and LMS. No two of them hash the same bytes, so two that give one value are a
    collision of the hash. */
module HashCalls {
  import opened Words
  import opened Params
  import opened Lmots
  import opened Lms

  datatype Call =
    | PrivateCall(I: Bytes, q: nat, i: nat, seed: Bytes)
    | RandomCall(I: Bytes, q: nat, seed: Bytes)
    | ChainCall(I: Bytes, q: nat, i: nat, j: nat, value: Digest)
    | MessageCall(I: Bytes, q: nat, C: Digest, message: Bytes)
    | PublicCall(I: Bytes, q: nat, ends: seq<Digest>)
    | LeafCall(I: Bytes, q: nat, ots: Digest)
    | NodeCall(I: Bytes, q: nat, left: Digest, right: Digest)

  /** Field widths: 16-byte identifier, 32-bit number, chain numbers below the tags, steps below 0xff. */
  ghost predicate Fits(c: Call) {
    && |c.I| == 16 && c.q < 0x1_0000_0000
    && (c.PrivateCall? || c.ChainCall? ==> c.i < 0x8000)
    && (c.PrivateCall? || c.RandomCall? ==> |c.seed| == 32)
    && (c.ChainCall? ==> c.j < 0xff)
  }

  /** A key with the given secrets whose types are those of one hash. */
  function KeyOf(alg: HashAlg, I: Bytes, seed: Bytes): (k: PrivateKey)
    requires |I| == 16 && |seed| == 32
    ensures KeyShape(k) && AlgOf(k) == alg
  {
    match alg
    case Sha256 => PrivateKey(0x05, 0x01, I, seed, 0)
    case Shake256 => PrivateKey(0x15, 0x11, I, seed, 0)
    case Haraka => PrivateKey(0x25, 0x21, I, seed, 0)
  }

  /** What the scheme computes. */
  ghost function Result(H: HashFn, alg: HashAlg, c: Call): Digest
    requires Fits(c)
  {
    match c
    case PrivateCall(I, q, i, seed) => PrivateValue(H, KeyOf(alg, I, seed), q, i)
    case RandomCall(I, q, seed) => Randomizer(H, KeyOf(alg, I, seed), q)
    case ChainCall(I, q, i, j, value) => ChainStep(H, alg, I, q, i, j, value)
    case MessageCall(I, q, C, message) => MessageHash(H, alg, I, q, C, message)
    case PublicCall(I, q, ends) => PublicHash(H, alg, I, q, ends)
    case LeafCall(I, q, ots) => LeafHash(H, alg, I, q, ots)
    case NodeCall(I, q, left, right) => NodeHash(H, alg, I, q, left, right)
  }

  /** Bytes 20 and 21: the tag of RFC 8554, the number of the chain, or 0x8585 for the randomizer. */
  ghost function TagOf(c: Call): nat {
    match c
    case PrivateCall(_, _, i, _) => i
    case RandomCall(_, _, _) => 0x8585
    case ChainCall(_, _, i, _, _) => i
    case MessageCall(_, _, _, _) => 0x8181
    case PublicCall(_, _, _) => 0x8080
    case LeafCall(_, _, _) => 0x8282
    case NodeCall(_, _, _, _) => 0x8383
  }

  /** What stands from byte 22 on. */
  ghost function Rest(c: Call): Bytes
    requires Fits(c)
  {
    match c
    case PrivateCall(_, _, _, seed) => [0xff] + seed
    case RandomCall(_, _, seed) => seed
    case ChainCall(_, _, _, j, value) => [j] + value
    case MessageCall(_, _, C, message) => C + message
    case PublicCall(_, _, ends) => Flatten(ends)
    case LeafCall(_, _, ots) => ots
    case NodeCall(_, _, left, right) => left + right
  }

  /** The string that the standard hashes: identifier, number, tag, and the rest. */
  ghost function Input(c: Call): (s: Bytes)
    requires Fits(c)
  {
    c.I + StoreU32(c.q) + StoreU16(TagOf(c)) + Rest(c)
  }

  /** The scheme hashes these strings. */
  lemma ResultIsHash(H: HashFn, alg: HashAlg, c: Call)
    requires Fits(c)
    ensures Result(H, alg, c) == H(alg, Input(c))
  {
    hide StoreU32, StoreU16, Flatten;
    var p := c.I + StoreU32(c.q) + StoreU16(TagOf(c));
    match c
    case PrivateCall(I, q, i, seed) => assert p + ([0xff] + seed) == p + [0xff] + seed;
    case ChainCall(I, q, i, j, value) => assert p + ([j] + value) == p + [j] + value;
    case MessageCall(I, q, C, message) => assert p + (C + message) == p + C + message;
    case NodeCall(I, q, left, right) => assert p + (left + right) == p + left + right;
    case _ =>
  }

  lemma InputFields(c: Call)
    requires Fits(c)
    ensures var s := Input(c);
            && |s| >= 22 && s[..16] == c.I && LoadU32(s[16..]) == c.q && LoadU16(s[20..]) == TagOf(c) && s[22..] == Rest(c)
  {
    hide StoreU32, StoreU16, LoadU32, LoadU16, Rest;
    var s := Input(c);
    U32RoundTrip(c.q);
    U16RoundTrip(TagOf(c));
    assert s[16..][..4] == StoreU32(c.q);
    assert s[20..][..2] == StoreU16(TagOf(c));
    LoadFront(s[16..], StoreU32(c.q));
    LoadFront16(s[20..], StoreU16(TagOf(c)));
  }

  /** The fields of the string determine the call: the tags tell the uses apart, and byte 22 tells a private value
      from a chain step. */
  lemma SameFields(c: Call, c': Call)
    requires Fits(c) && Fits(c')
    requires c.I == c'.I && c.q == c'.q && TagOf(c) == TagOf(c') && Rest(c) == Rest(c')
    ensures c == c'
  {
    hide Flatten;
    match c
    case PrivateCall(_, _, _, seed) => assert Rest(c)[0] == 0xff && Rest(c)[1..] == seed; FirstByteApart(c');
    case ChainCall(_, _, _, j, value) => assert Rest(c)[0] == j as byte && Rest(c)[1..] == value; FirstByteApart(c');
    case MessageCall(_, _, C, message) =>
      assert Rest(c)[..32] == C && Rest(c)[32..] == message;
      assert Rest(c')[..32] == c'.C && Rest(c')[32..] == c'.message;
    case PublicCall(_, _, ends) => FlattenInjective(ends, c'.ends);
    case NodeCall(_, _, left, right) =>
      assert Rest(c)[..32] == left && Rest(c)[32..] == right;
      assert Rest(c')[..32] == c'.left && Rest(c')[32..] == c'.right;
    case _ =>
  }

  lemma FirstByteApart(c: Call)
    requires Fits(c)
    ensures c.PrivateCall? ==> Rest(c)[0] == 0xff && Rest(c)[1..] == c.seed
    ensures c.ChainCall? ==> Rest(c)[0] == c.j as byte && Rest(c)[1..] == c.value
  {
  }

  lemma FlattenInjective(a: seq<Digest>, b: seq<Digest>)
    requires Flatten(a) == Flatten(b)
    ensures a == b
  {
    BlocksOfFlatten(a);
    BlocksOfFlatten(b);
  }

  /** No two uses of the hash are fed the same string. */
  lemma InputInjective(c: Call, c': Call)
    requires Fits(c) && Fits(c') && Input(c) == Input(c')
    ensures c == c'
  {
    hide Input, Rest, TagOf, LoadU32, LoadU16;
    InputFields(c);
    InputFields(c');
    SameFields(c, c');
  }

  /** Two different uses of the hash with the same value are a collision, on the strings of these uses. */
  lemma CallsApart(H: HashFn, alg: HashAlg, c: Call, c': Call)
    requires Fits(c) && Fits(c') && c != c' && Result(H, alg, c) == Result(H, alg, c')
    ensures Input(c) != Input(c') && H(alg, Input(c)) == H(alg, Input(c'))
  {
    hide Result, Input;
    ResultIsHash(H, alg, c);
    ResultIsHash(H, alg, c');
    if Input(c) == Input(c') {
      InputInjective(c, c');
    }
  }
}
