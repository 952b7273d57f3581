/** The two SHAKE256 sponges over one permutation: the buffer style of hashs/fips202.c on 64-bit lanes, and the
    XOR style of hashs/xkcp/xkcp_shake.c on bit-interleaved half-lanes through hashs/xkcp/SnP-Relaned.h. */
module Sponge {
  import opened Interleave

  const RATE: nat := 136

  type State = s: seq<Lane> | |s| == 25 witness seq(25, _ => seq(64, _ => false))

  type Message = seq<Byte>

  function ZeroByte(): Byte {
    Zeros(8)
  }

  /** 0x1F: the suffix 1111 and the first bit of the padding, lowest bit first. */
  function Suffix(): Byte {
    [true, true, true, true, true, false, false, false]
  }

  /** 0x80: the last bit of the padding. */
  function Final(): Byte {
    [false, false, false, false, false, false, false, true]
  }

  // ---- bytes and lanes ----

  function Flat(b: Message): (r: Bits)
    ensures |r| == 8 * |b|
  {
    if |b| == 0 then [] else Flat(b[..|b| - 1]) + b[|b| - 1]
  }

  /** Eight bytes as a lane, little-endian. */
  function Load(b: Message): (r: Lane)
    requires |b| == 8
    ensures forall j :: 0 <= j < 8 ==> r[8 * j..8 * j + 8] == b[j]
  {
    var none: Bits := [];
    none + b[0] + b[1] + b[2] + b[3] + b[4] + b[5] + b[6] + b[7]
  }

  function ByteOf(lane: Lane, j: nat): Byte
    requires j < 8
  {
    lane[8 * j..8 * j + 8]
  }

  function ByteAt(data: Message, offset: nat, k: nat): Byte {
    if offset <= k < offset + |data| then data[k - offset] else ZeroByte()
  }

  /** A 200-byte block that is `data` from `offset` on and zero elsewhere. */
  function At(data: Message, offset: nat): (b: Message)
    requires offset + |data| <= 200
    ensures |b| == 200 && forall k :: 0 <= k < 200 ==> b[k] == ByteAt(data, offset, k)
  {
    seq<Byte>(200, k requires 0 <= k < 200 => ByteAt(data, offset, k))
  }

  function XorBlock(a: Message, b: Message): (r: Message)
    requires |a| == |b|
    ensures |r| == |a| && forall k :: 0 <= k < |r| ==> r[k] == Xor(a[k], b[k])
  {
    seq<Byte>(|a|, k requires 0 <= k < |a| => Xor(a[k], b[k]))
  }

  function LaneAt(b: Message, i: nat): Lane
    requires |b| == 200 && i < 25
  {
    Load(b[8 * i..8 * i + 8])
  }

  /** Adding a block into the state, lane by lane. */
  function Add(s: State, b: Message): (r: State)
    requires |b| == 200
    ensures forall i :: 0 <= i < 25 ==> r[i] == Xor(s[i], LaneAt(b, i))
  {
    seq(25, i requires 0 <= i < 25 => Xor(s[i], LaneAt(b, i)))
  }

  lemma SameLane(x: Lane, y: Lane)
    requires forall j :: 0 <= j < 8 ==> ByteOf(x, j) == ByteOf(y, j)
    ensures x == y
  {
    forall i | 0 <= i < 64
      ensures x[i] == y[i]
    {
      var j, k := i / 8, i % 8;
      assert i == 8 * j + k;
      assert ByteOf(x, j)[k] == x[i] && ByteOf(y, j)[k] == y[i];
    }
  }

  lemma LoadXor(a: Message, b: Message)
    requires |a| == |b| == 8
    ensures Load(XorBlock(a, b)) == Xor(Load(a), Load(b))
  {
    forall j | 0 <= j < 8
      ensures ByteOf(Load(XorBlock(a, b)), j) == ByteOf(Xor(Load(a), Load(b)), j)
    {
      assert Load(a)[8 * j..8 * j + 8] == a[j] && Load(b)[8 * j..8 * j + 8] == b[j];
      forall i | 0 <= i < 8
        ensures ByteOf(Xor(Load(a), Load(b)), j)[i] == Xor(a[j], b[j])[i]
      {
        assert a[j][i] == Load(a)[8 * j + i] && b[j][i] == Load(b)[8 * j + i];
      }
    }
    SameLane(Load(XorBlock(a, b)), Xor(Load(a), Load(b)));
  }

  lemma XorTwice(x: Bits, y: Bits, z: Bits)
    requires |x| == |y| == |z|
    ensures Xor(Xor(x, y), z) == Xor(x, Xor(y, z))
  {
  }

  lemma AddAdd(s: State, a: Message, b: Message)
    requires |a| == |b| == 200
    ensures Add(Add(s, a), b) == Add(s, XorBlock(a, b))
  {
    hide Load;
    forall i | 0 <= i < 25
      ensures Add(Add(s, a), b)[i] == Add(s, XorBlock(a, b))[i]
    {
      assert XorBlock(a, b)[8 * i..8 * i + 8] == XorBlock(a[8 * i..8 * i + 8], b[8 * i..8 * i + 8]);
      LoadXor(a[8 * i..8 * i + 8], b[8 * i..8 * i + 8]);
      XorTwice(s[i], LaneAt(a, i), LaneAt(b, i));
    }
  }

  /** Two neighbouring pieces make one. */
  lemma AtJoin(a: Message, b: Message, offset: nat)
    requires offset + |a| + |b| <= 200
    ensures XorBlock(At(a, offset), At(b, offset + |a|)) == At(a + b, offset)
  {
    var x := XorBlock(At(a, offset), At(b, offset + |a|));
    forall k | 0 <= k < 200
      ensures x[k] == At(a + b, offset)[k]
    {
      XorZero(At(a, offset)[k]);
      XorZero(At(b, offset + |a|)[k]);
    }
  }

  lemma XorZero(x: Byte)
    ensures Xor(x, ZeroByte()) == x && Xor(ZeroByte(), x) == x
  {
  }

  lemma AtNothing(s: State, offset: nat)
    requires offset <= 200
    ensures Add(s, At([], offset)) == s
  {
    hide Load;
    forall i | 0 <= i < 25
      ensures Xor(s[i], LaneAt(At([], offset), i)) == s[i]
    {
      ZeroLane(At([], offset), i);
    }
  }

  lemma ZeroLane(b: Message, i: nat)
    requires |b| == 200 && i < 25 && forall k :: 8 * i <= k < 8 * i + 8 ==> b[k] == ZeroByte()
    ensures LaneAt(b, i) == Zeros(64)
  {
    forall j | 0 <= j < 8
      ensures ByteOf(LaneAt(b, i), j) == ByteOf(Zeros(64), j)
    {
      assert b[8 * i..8 * i + 8][j] == b[8 * i + j];
    }
    SameLane(LaneAt(b, i), Zeros(64));
  }

  // ---- the scheme ----

  /** The last block: what is left of the message, the suffix, and the final padding bit. */
  function LastBlock(m: Message): (b: Message)
    requires |m| < RATE
    ensures |b| == 200
  {
    var open := At(m + [Suffix()], 0);
    open[RATE - 1 := Or(open[RATE - 1], Final())]
  }

  /** Absorbing a message up to and including its padded last block, without the permutation after it. */
  function Absorb(P: State -> State, s: State, m: Message): State
    decreases |m|
  {
    if |m| < RATE then Add(s, LastBlock(m)) else Absorb(P, P(Add(s, At(m[..RATE], 0))), m[RATE..])
  }

  /** The bytes of a state. */
  function StateBytes(s: State): (b: Message)
    ensures |b| == 200
    ensures forall k :: 0 <= k < 200 ==> b[k] == ByteOf(s[k / 8], k % 8)
  {
    seq<Byte>(200, k requires 0 <= k < 200 => ByteOf(s[k / 8], k % 8))
  }

  /** n output bytes, each block preceded by a permutation. */
  function Squeeze(P: State -> State, s: State, n: nat): (r: Message)
    ensures |r| == n
    decreases n
  {
    if n <= RATE then StateBytes(P(s))[..n] else StateBytes(P(s))[..RATE] + Squeeze(P, P(s), n - RATE)
  }

  function ZeroState(): State {
    seq<Lane>(25, _ => Zeros(64))
  }

  function Shake256(P: State -> State, m: Message, n: nat): Message {
    Squeeze(P, Absorb(P, ZeroState(), m), n)
  }

  /** Sections 5.1 and 6.2 of FIPS 202: the suffix 1111, then 1, zeros and 1 up to the end of the rate. */
  function PaddedBits(m: Message): Bits
    requires |m| < RATE
  {
    Flat(m) + [true, true, true, true] + [true] + Zeros(8 * RATE - 8 * |m| - 6) + [true]
  }

  lemma {:induction false} FlatBit(b: Message, k: nat, j: nat)
    requires k < |b| && j < 8
    ensures Flat(b)[8 * k + j] == b[k][j]
  {
    if k < |b| - 1 {
      FlatBit(b[..|b| - 1], k, j);
    }
  }

  /** The last block is the padded message of the standard, also when both padding bytes fall together. */
  lemma LastBlockIsPadded(m: Message)
    requires |m| < RATE
    ensures Flat(LastBlock(m)[..RATE]) == PaddedBits(m)
  {
    hide Flat;
    var b := LastBlock(m)[..RATE];
    forall i | 0 <= i < 8 * RATE
      ensures Flat(b)[i] == PaddedBits(m)[i]
    {
      var k, j := i / 8, i % 8;
      FlatBit(b, k, j);
      if k < |m| {
        FlatBit(m, k, j);
      }
    }
  }

  // ---- the numbers of FIPS 202 ----

  /** Sections 5.2 and 6.2 of FIPS 202: SHAKE256 is the sponge with a capacity of 512 of the 1600 bits. */
  lemma Capacity()
    ensures 8 * RATE == 1600 - 2 * 256 && |ZeroState()| * 64 == 1600
  {
  }

  /** Absorbing takes 136 bytes at a time and never touches the eight lanes of the capacity. */
  lemma AbsorbsRate(P: State -> State, s: State, m: Message)
    ensures |m| >= 136 ==> Absorb(P, s, m) == Absorb(P, P(Add(s, At(m[..136], 0))), m[136..])
    ensures |m| < 136 ==> Absorb(P, s, m) == Add(s, LastBlock(m))
    ensures |m| >= 136 ==> forall i :: 17 <= i < 25 ==> Add(s, At(m[..136], 0))[i] == s[i]
    ensures |m| < 136 ==> forall i :: 17 <= i < 25 ==> Add(s, LastBlock(m))[i] == s[i]
  {
    hide Add, LastBlock, At;
    var block := if |m| >= 136 then At(m[..136], 0) else LastBlock(m);
    BeyondRate(m);
    CapacityKept(s, block);
  }

  lemma BeyondRate(m: Message)
    ensures |m| >= 136 ==> forall k :: 136 <= k < 200 ==> At(m[..136], 0)[k] == ZeroByte()
    ensures |m| < 136 ==> forall k :: 136 <= k < 200 ==> LastBlock(m)[k] == ZeroByte()
  {
  }

  lemma CapacityKept(s: State, b: Message)
    requires |b| == 200 && forall k :: 136 <= k < 200 ==> b[k] == ZeroByte()
    ensures forall i :: 17 <= i < 25 ==> Add(s, b)[i] == s[i]
  {
    hide Load;
    forall i | 17 <= i < 25
      ensures Add(s, b)[i] == s[i]
    {
      ZeroLane(b, i);
      XorZeroLane(s[i]);
    }
  }

  lemma XorZeroLane(x: Lane)
    ensures Xor(x, Zeros(64)) == x
  {
  }

  /** The last block ends its rate with the bit 1 in byte 135. */
  lemma LastBit(m: Message)
    requires |m| < 136
    ensures LastBlock(m)[135][7] && (|m| < 135 ==> LastBlock(m)[|m|] == Suffix())
  {
  }

  // ---- hashs/fips202.c ----

  /** KeccakF1600_StatePermute in place */
  method Permute(P: State -> State, s: array<Lane>)
    requires s.Length == 25
    modifies s
    ensures s[..] == P(old(s[..]))
  {
    var next := P(s[..]);
    forall i | 0 <= i < 25 {
      s[i] := next[i];
    }
  }

  /** s[i] ^= load64(t + 8 * i) for the lanes of the rate. */
  method XorLanes(s: array<Lane>, t: Message)
    requires s.Length == 25 && |t| >= RATE
    modifies s
    ensures s[..] == Add(old(s[..]), At(t[..RATE], 0))
  {
    hide Load;
    var i := 0;
    while i < RATE / 8
      invariant i <= 17
      invariant forall k :: 0 <= k < i ==> s[k] == Xor(old(s[k]), Load(t[8 * k..8 * k + 8]))
      invariant forall k :: i <= k < 25 ==> s[k] == old(s[k])
    {
      s[i] := Xor(s[i], Load(t[8 * i..8 * i + 8]));
      i := i + 1;
    }
    forall k | 0 <= k < 25
      ensures s[k] == Add(old(s[..]), At(t[..RATE], 0))[k]
    {
      if k < 17 {
        assert At(t[..RATE], 0)[8 * k..8 * k + 8] == t[8 * k..8 * k + 8];
      } else {
        ZeroLane(At(t[..RATE], 0), k);
      }
    }
  }

  lemma Cut(b: Message)
    requires |b| == 200 && forall k :: RATE <= k < 200 ==> b[k] == ZeroByte()
    ensures At(b[..RATE], 0) == b
  {
  }

  /** The buffer t of keccak_absorb: the rest of the message, the suffix, and the padding bit OR-ed in. */
  method PadBuffer(m: Message) returns (t: array<Byte>)
    requires |m| < RATE
    ensures fresh(t) && t[..] == LastBlock(m)
  {
    t := new Byte[200](_ => ZeroByte());
    var i := 0;
    while i < |m|
      invariant i <= |m|
      invariant forall k :: 0 <= k < i ==> t[k] == m[k]
      invariant forall k :: i <= k < 200 ==> t[k] == ZeroByte()
    {
      t[i] := m[i];
      i := i + 1;
    }
    t[|m|] := Suffix();
    t[RATE - 1] := Or(t[RATE - 1], Final());
  }

  /** keccak_absorb with the rate and suffix of SHAKE256 */
  method KeccakAbsorb(P: State -> State, m: Message) returns (s: array<Lane>)
    ensures fresh(s) && s.Length == 25 && s[..] == Absorb(P, ZeroState(), m)
  {
    hide Load, Add, LastBlock;
    s := new Lane[25](_ => Zeros(64));
    assert s[..] == ZeroState();
    var off := 0;
    assert m[0..] == m;
    while |m| - off >= RATE
      invariant off <= |m| && fresh(s) && Absorb(P, s[..], m[off..]) == Absorb(P, ZeroState(), m)
    {
      assert m[off..][..RATE] == m[off..off + RATE] && m[off..][RATE..] == m[off + RATE..];
      XorLanes(s, m[off..off + RATE]);
      assert m[off..off + RATE][..RATE] == m[off..off + RATE];
      Permute(P, s);
      off := off + RATE;
    }
    var t := PadBuffer(m[off..]);
    LastBlockCut(m[off..]);
    XorLanes(s, t[..]);
  }

  lemma LastBlockCut(m: Message)
    requires |m| < RATE
    ensures At(LastBlock(m)[..RATE], 0) == LastBlock(m)
  {
    Cut(LastBlock(m));
  }

  /** The state after n squeezed blocks, and those blocks. */
  function Squeezed(P: State -> State, s: State, n: nat): State {
    if n == 0 then s else P(Squeezed(P, s, n - 1))
  }

  function SqueezedBlocks(P: State -> State, s: State, n: nat): (r: Message)
    ensures |r| == n * RATE
  {
    if n == 0 then [] else SqueezedBlocks(P, s, n - 1) + StateBytes(Squeezed(P, s, n))[..RATE]
  }

  lemma {:induction false} SqueezedShift(P: State -> State, s: State, n: nat)
    ensures Squeezed(P, s, n + 1) == Squeezed(P, P(s), n)
    ensures SqueezedBlocks(P, s, n + 1) == StateBytes(P(s))[..RATE] + SqueezedBlocks(P, P(s), n)
  {
    if n > 0 {
      SqueezedShift(P, s, n - 1);
    } else {
      assert Squeezed(P, s, 1) == P(Squeezed(P, s, 0));
    }
  }

  /** Whole blocks first, then a cut one: the same bytes as squeezing on demand. */
  lemma {:induction false} SqueezeInBlocks(P: State -> State, s: State, n: nat, rest: nat)
    requires rest < RATE
    ensures Squeeze(P, s, n * RATE + rest)
         == SqueezedBlocks(P, s, n) + if rest == 0 then [] else StateBytes(Squeezed(P, s, n + 1))[..rest]
    decreases n
  {
    hide StateBytes, Squeeze, SqueezedBlocks, Squeezed;
    SqueezedStart(P, s);
    SqueezeStep(P, s, n * RATE + rest);
    if n == 1 && rest == 0 {
      SqueezedShift(P, s, 0);
      SqueezedStart(P, P(s));
    } else if n > 0 {
      SqueezeInBlocks(P, P(s), n - 1, rest);
      SqueezedShift(P, s, n - 1);
      SqueezedShift(P, s, n);
    }
  }

  lemma SqueezedStart(P: State -> State, s: State)
    ensures Squeezed(P, s, 0) == s && Squeezed(P, s, 1) == P(s) && SqueezedBlocks(P, s, 0) == []
  {
    assert Squeezed(P, s, 1) == P(Squeezed(P, s, 0));
  }

  lemma SqueezeStep(P: State -> State, s: State, n: nat)
    ensures Squeeze(P, s, n) == if n <= RATE then StateBytes(P(s))[..n]
                                else StateBytes(P(s))[..RATE] + Squeeze(P, P(s), n - RATE)
  {
  }

  /** Bytes 136 k to 136 k + 135 of the output are the first 136 bytes of the state after k + 1 permutations. */
  lemma {:induction false} OutputBlock(P: State -> State, s: State, n: nat, k: nat, j: nat)
    requires j < 136 && 136 * k + j < n
    ensures Squeeze(P, s, n)[136 * k + j] == StateBytes(Squeezed(P, s, k + 1))[j]
    decreases k
  {
    hide StateBytes, Squeeze, Squeezed;
    SqueezeStep(P, s, n);
    SqueezedStart(P, s);
    if k > 0 {
      OutputBlock(P, P(s), n - 136, k - 1, j);
      SqueezedOnce(P, s, k);
    }
  }

  lemma SqueezedOnce(P: State -> State, s: State, k: nat)
    ensures Squeezed(P, s, k + 1) == Squeezed(P, P(s), k)
  {
    hide StateBytes, SqueezedBlocks;
    SqueezedShift(P, s, k);
  }

  /** SHAKE256, byte by byte. */
  lemma ShakeByte(P: State -> State, m: Message, n: nat, k: nat, j: nat)
    requires j < 136 && 136 * k + j < n
    ensures Shake256(P, m, n)[136 * k + j] == StateBytes(Squeezed(P, Absorb(P, ZeroState(), m), k + 1))[j]
  {
    hide StateBytes, Squeeze, Squeezed, Absorb;
    OutputBlock(P, Absorb(P, ZeroState(), m), n, k, j);
  }

  /** store64 of the lanes of the rate */
  method StoreLanes(s: array<Lane>) returns (out: Message)
    requires s.Length == 25
    ensures out == StateBytes(s[..])[..RATE]
  {
    out := [];
    var i := 0;
    while i < RATE / 8
      invariant i <= 17 && out == StateBytes(s[..])[..8 * i]
    {
      var x := s[i];
      out := out + [ByteOf(x, 0), ByteOf(x, 1), ByteOf(x, 2), ByteOf(x, 3), ByteOf(x, 4), ByteOf(x, 5), ByteOf(x, 6), ByteOf(x, 7)];
      i := i + 1;
    }
  }

  /** keccak_squeezeblocks */
  method KeccakSqueezeBlocks(P: State -> State, s: array<Lane>, n: nat) returns (out: Message)
    requires s.Length == 25
    modifies s
    ensures s[..] == Squeezed(P, old(s[..]), n) && out == SqueezedBlocks(P, old(s[..]), n)
  {
    hide StateBytes;
    out := [];
    var i := 0;
    while i < n
      invariant i <= n && s[..] == Squeezed(P, old(s[..]), i) && out == SqueezedBlocks(P, old(s[..]), i)
    {
      Permute(P, s);
      var block := StoreLanes(s);
      out := out + block;
      i := i + 1;
    }
  }

  /** shake256 of hashs/fips202.c */
  method Fips202Shake256(P: State -> State, m: Message, outlen: nat) returns (out: Message)
    ensures out == Shake256(P, m, outlen)
  {
    hide StateBytes, Absorb, Squeeze;
    var s := KeccakAbsorb(P, m);
    ghost var st := s[..];
    var n, rest := outlen / RATE, outlen % RATE;
    out := KeccakSqueezeBlocks(P, s, n);
    if rest != 0 {
      var t := KeccakSqueezeBlocks(P, s, 1);
      OneMore(P, st, n);
      out := out + t[..rest];
    }
    SqueezeInBlocks(P, st, n, rest);
  }

  lemma OneMore(P: State -> State, s: State, n: nat)
    ensures SqueezedBlocks(P, Squeezed(P, s, n), 1) == StateBytes(Squeezed(P, s, n + 1))[..RATE]
  {
    var t := Squeezed(P, s, n);
    assert Squeezed(P, t, 1) == P(Squeezed(P, t, 0));
    assert SqueezedBlocks(P, t, 1) == SqueezedBlocks(P, t, 0) + StateBytes(Squeezed(P, t, 1))[..RATE];
  }

  // ---- hashs/xkcp: the interleaved state ----

  type Halves = s: seq<Half> | |s| == 50 witness seq(50, _ => seq(32, _ => false))

  function HalfAt(s: State, i: nat): Half
    requires i < 50
  {
    if i % 2 == 0 then Even(s[i / 2]) else Odd(s[i / 2])
  }

  /** The 50 half-lanes of a state: even bits, odd bits, lane by lane. */
  function Spread(s: State): (r: Halves)
    ensures forall i :: 0 <= i < 50 ==> r[i] == HalfAt(s, i)
  {
    seq<Half>(50, i requires 0 <= i < 50 => HalfAt(s, i))
  }

  /** The two permutations are the same function up to interleaving. */
  ghost predicate SamePermutation(P: State -> State, Q: Halves -> Halves) {
    forall s: State :: Q(Spread(s)) == Spread(P(s))
  }

  function LaneFrom(a: Halves, i: nat): Lane
    requires i < 25
  {
    LaneOf(a[2 * i], a[2 * i + 1])
  }

  /** The lanes of a state in interleaved form. */
  function Gather(a: Halves): (s: State)
    ensures forall i :: 0 <= i < 25 ==> s[i] == LaneFrom(a, i)
  {
    seq<Lane>(25, i requires 0 <= i < 25 => LaneFrom(a, i))
  }

  /** Interleaving a whole state loses nothing. */
  lemma GatherSpread(s: State)
    ensures Gather(Spread(s)) == s
  {
    hide Even, Odd, LaneOf;
    forall i | 0 <= i < 25
      ensures Gather(Spread(s))[i] == s[i]
    {
      assert Spread(s)[2 * i] == HalfAt(s, 2 * i) && Spread(s)[2 * i + 1] == HalfAt(s, 2 * i + 1);
      InterleaveInverse(s[i]);
    }
  }

  function Conjugate(P: State -> State): Halves -> Halves {
    (a: Halves) => Spread(P(Gather(a)))
  }

  /** Every permutation on lanes has an interleaved form, so the condition below can always be met. */
  lemma ConjugateIsSame(P: State -> State)
    ensures SamePermutation(P, Conjugate(P))
  {
    forall s: State
      ensures Conjugate(P)(Spread(s)) == Spread(P(s))
    {
      GatherSpread(s);
    }
  }

  /** The array holds the interleaved form of state s. */
  ghost predicate Shows(A: array<Half>, s: State)
    reads A
  {
    A.Length == 50 && A[..] == Spread(s)
  }

  /** toBitInterleavingAndXOR of one lane into the half-lanes at `pos`. */
  method AddLane(A: array<Half>, pos: nat, lane: Lane, ghost s: State)
    requires pos < 25 && Shows(A, s)
    modifies A
    ensures Shows(A, s[pos := Xor(s[pos], lane)])
  {
    hide Even, Odd, Xor;
    InterleaveXor(s[pos], lane);
    assert A[2 * pos] == HalfAt(s, 2 * pos) && A[2 * pos + 1] == HalfAt(s, 2 * pos + 1);
    A[2 * pos] := Xor(A[2 * pos], Even(lane));
    A[2 * pos + 1] := Xor(A[2 * pos + 1], Odd(lane));
    ghost var s' := s[pos := Xor(s[pos], lane)];
    forall i | 0 <= i < 50
      ensures A[i] == HalfAt(s', i)
    {
      if i / 2 != pos {
        assert HalfAt(s', i) == HalfAt(s, i);
      }
    }
  }

  /** One lane of a block that is zero elsewhere. */
  lemma OnlyLane(s: State, b: Message, pos: nat)
    requires |b| == 200 && pos < 25
    requires forall k :: 0 <= k < 200 && !(8 * pos <= k < 8 * pos + 8) ==> b[k] == ZeroByte()
    ensures Add(s, b) == s[pos := Xor(s[pos], LaneAt(b, pos))]
  {
    hide Load;
    forall i | 0 <= i < 25 && i != pos
      ensures Add(s, b)[i] == s[i]
    {
      ZeroLane(b, i);
    }
  }

  /** KeccakP1600_AddBytesInLane */
  method AddBytesInLane(A: array<Half>, pos: nat, data: Message, offset: nat, ghost s: State)
    requires pos < 25 && offset + |data| <= 8 && Shows(A, s)
    modifies A
    ensures Shows(A, Add(s, At(data, 8 * pos + offset)))
  {
    hide Load, Shows;
    var lane: Message := seq<Byte>(8, k requires 0 <= k < 8 => ByteAt(data, offset, k));
    ghost var b := At(data, 8 * pos + offset);
    assert b[8 * pos..8 * pos + 8] == lane;
    OnlyLane(s, b, pos);
    AddLane(A, pos, Load(lane), s);
  }

  /** KeccakP1600_AddByte: the byte goes to the low or the high word by its place in the lane. */
  method AddByte(A: array<Half>, b: Byte, offset: nat, ghost s: State)
    requires offset < 200 && Shows(A, s)
    modifies A
    ensures Shows(A, Add(s, At([b], offset)))
  {
    hide Load, Shows, Even, Odd;
    var pos, at := offset / 8, offset % 8;
    var low, high := Zeros(32), Zeros(32);
    var wide: Bits := b + Zeros(24);
    if at < 4 {
      low := Shl(wide, 8 * at);
    } else {
      high := Shl(wide, 8 * (at - 4));
    }
    ghost var block := At([b], offset);
    ByteInLane(b, at, low, high);
    forall k | 0 <= k < 8
      ensures block[8 * pos..8 * pos + 8][k] == At([b], at)[..8][k]
    {
      assert block[8 * pos + k] == ByteAt([b], offset, 8 * pos + k);
    }
    assert block[8 * pos..8 * pos + 8] == At([b], at)[..8];
    OnlyLane(s, block, pos);
    AddLane(A, pos, low + high, s);
  }

  lemma ShiftedByte(b: Byte, k: nat, n: nat)
    requires k <= 24 && n < 32
    ensures Shl(b + Zeros(24), k)[n] == (k <= n < k + 8 && b[n - k])
  {
  }

  lemma LoadedBit(b: Message, n: nat)
    requires |b| == 8 && n < 64
    ensures Load(b)[n] == b[n / 8][n % 8]
  {
    hide Load;
    assert Load(b)[8 * (n / 8)..8 * (n / 8) + 8][n % 8] == Load(b)[n];
  }

  lemma ByteInLane(b: Byte, at: nat, low: Half, high: Half)
    requires at < 8
    requires low == if at < 4 then Shl(b + Zeros(24), 8 * at) else Zeros(32)
    requires high == if at < 4 then Zeros(32) else Shl(b + Zeros(24), 8 * (at - 4))
    ensures low + high == Load(At([b], at)[..8])
  {
    hide Load, Shl, At;
    var x, y := low + high, Load(At([b], at)[..8]);
    forall n | 0 <= n < 64
      ensures x[n] == y[n]
    {
      LoadedBit(At([b], at)[..8], n);
      assert y[n] == ByteAt([b], at, n / 8)[n % 8];
      if at < 4 && n < 32 {
        ShiftedByte(b, 8 * at, n);
      } else if at >= 4 && n >= 32 {
        ShiftedByte(b, 8 * (at - 4), n - 32);
      }
    }
  }

  /** KeccakP1600_AddLanes */
  method AddLanes(A: array<Half>, data: Message, count: nat, ghost s: State)
    requires count <= 25 && 8 * count <= |data| && Shows(A, s)
    modifies A
    ensures Shows(A, Add(s, At(data[..8 * count], 0)))
  {
    hide Load, Shows, Add;
    var i := 0;
    AtNothing(s, 0);
    assert data[..0] == [];
    while i < count
      invariant i <= count && Shows(A, Add(s, At(data[..8 * i], 0)))
    {
      ghost var st := Add(s, At(data[..8 * i], 0));
      AddBytesInLane(A, i, data[8 * i..8 * i + 8], 0, st);
      AddPiece(s, data[..8 * i], data[8 * i..8 * i + 8], 0);
      assert data[..8 * (i + 1)] == data[..8 * i] + data[8 * i..8 * i + 8];
      i := i + 1;
    }
  }

  lemma AddPiece(s: State, a: Message, b: Message, offset: nat)
    requires offset + |a| + |b| <= 200
    ensures Add(Add(s, At(a, offset)), At(b, offset + |a|)) == Add(s, At(a + b, offset))
  {
    hide Add;
    AddAdd(s, At(a, offset), At(b, offset + |a|));
    AtJoin(a, b, offset);
  }

  lemma AddPrefix(s: State, data: Message, a: nat, b: nat, offset: nat)
    requires a <= b <= |data| && offset + |data| <= 200
    ensures Add(Add(s, At(data[..a], offset)), At(data[a..b], offset + a)) == Add(s, At(data[..b], offset))
  {
    hide Add, At;
    AddPiece(s, data[..a], data[a..b], offset);
    assert data[..b] == data[..a] + data[a..b];
  }

  /** SnP_AddBytes from offset 0: whole lanes, then a remainder. */
  method AddFromStart(A: array<Half>, data: Message, ghost s: State)
    requires |data| <= 200 && Shows(A, s)
    modifies A
    ensures Shows(A, Add(s, At(data[..|data|], 0)))
  {
    hide Load, Shows, Add, At;
    var whole, rest := |data| / 8, |data| % 8;
    AddLanes(A, data, whole, s);
    if rest > 0 {
      AddBytesInLane(A, whole, data[8 * whole..|data|], 0, Add(s, At(data[..8 * whole], 0)));
      AddPrefix(s, data, 8 * whole, |data|, 0);
    }
  }

  /** One more piece of data, which lies within lane pos. */
  method AddNext(A: array<Half>, pos: nat, at: nat, data: Message, cur: nat, take: nat, offset: nat, ghost s: State)
    requires pos < 25 && at + take <= 8 && 8 * pos + at == offset + cur
    requires cur + take <= |data| && offset + |data| <= 200 && Shows(A, Add(s, At(data[..cur], offset)))
    modifies A
    ensures Shows(A, Add(s, At(data[..cur + take], offset)))
  {
    hide Load, Shows, Add, At;
    AddBytesInLane(A, pos, data[cur..cur + take], at, Add(s, At(data[..cur], offset)));
    AddPrefix(s, data, cur, cur + take, offset);
  }

  /** SnP_AddBytes from any other offset: lane by lane, the first and the last one cut. */
  method AddLaneByLane(A: array<Half>, data: Message, offset: nat, ghost s: State)
    requires offset + |data| <= 200 && Shows(A, s)
    modifies A
    ensures Shows(A, Add(s, At(data[..|data|], offset)))
  {
    hide Load, Shows, Add, At;
    var left: nat, pos: nat, at: nat, cur: nat := |data|, offset / 8, offset % 8, 0;
    AtNothing(s, offset);
    assert data[..0] == [];
    while left > 0
      invariant cur + left == |data| && at < 8 && (left > 0 ==> 8 * pos + at == offset + cur)
      invariant Shows(A, Add(s, At(data[..cur], offset)))
    {
      var take := if 8 - at > left then left else 8 - at;
      AddNext(A, pos, at, data, cur, take, offset, s);
      left, pos, at, cur := left - take, pos + 1, 0, cur + take;
    }
  }

  /** KeccakP1600_AddBytes */
  method AddBytes(A: array<Half>, data: Message, offset: nat, ghost s: State)
    requires offset + |data| <= 200 && Shows(A, s)
    modifies A
    ensures Shows(A, Add(s, At(data, offset)))
  {
    assert data[..|data|] == data;
    if offset == 0 {
      AddFromStart(A, data, s);
    } else {
      AddLaneByLane(A, data, offset, s);
    }
  }

  lemma StateByte(s: State, pos: nat, j: nat)
    requires pos < 25 && j < 8
    ensures StateBytes(s)[8 * pos + j] == ByteOf(s[pos], j)
  {
    assert (8 * pos + j) / 8 == pos && (8 * pos + j) % 8 == j;
  }

  /** KeccakP1600_ExtractBytesInLane */
  method ExtractBytesInLane(A: array<Half>, pos: nat, offset: nat, length: nat, ghost s: State) returns (out: Message)
    requires pos < 25 && offset + length <= 8 && Shows(A, s)
    ensures out == StateBytes(s)[8 * pos + offset..8 * pos + offset + length]
  {
    hide Even, Odd, LaneOf, StateBytes, ByteOf;
    assert A[2 * pos] == HalfAt(s, 2 * pos) && A[2 * pos + 1] == HalfAt(s, 2 * pos + 1);
    InterleaveInverse(s[pos]);
    var lane := LaneOf(A[2 * pos], A[2 * pos + 1]);
    var bytes: Message := seq<Byte>(8, j requires 0 <= j < 8 => ByteOf(lane, j));
    out := bytes[offset..offset + length];
    forall k | 0 <= k < length
      ensures out[k] == StateBytes(s)[8 * pos + offset + k]
    {
      StateByte(s, pos, offset + k);
    }
  }

  /** KeccakP1600_ExtractLanes */
  method ExtractLanes(A: array<Half>, count: nat, ghost s: State) returns (out: Message)
    requires count <= 25 && Shows(A, s)
    ensures out == StateBytes(s)[..8 * count]
  {
    hide Shows, StateBytes;
    out := [];
    var i := 0;
    while i < count
      invariant i <= count && out == StateBytes(s)[..8 * i]
    {
      var bytes := ExtractBytesInLane(A, i, 0, 8, s);
      out := out + bytes;
      i := i + 1;
    }
  }

  /** SnP_ExtractBytes from offset 0: whole lanes, then a remainder. */
  method ExtractFromStart(A: array<Half>, length: nat, ghost s: State) returns (out: Message)
    requires length <= 200 && Shows(A, s)
    ensures out == StateBytes(s)[..length]
  {
    hide Shows, StateBytes;
    out := ExtractLanes(A, length / 8, s);
    if length % 8 > 0 {
      var rest := ExtractBytesInLane(A, length / 8, 0, length % 8, s);
      out := out + rest;
    }
  }

  /** SnP_ExtractBytes from any other offset: lane by lane, the first and the last one cut. */
  method ExtractLaneByLane(A: array<Half>, offset: nat, length: nat, ghost s: State) returns (out: Message)
    requires offset + length <= 200 && Shows(A, s)
    ensures out == StateBytes(s)[offset..offset + length]
  {
    hide Shows, StateBytes;
    out := [];
    var left: nat, pos: nat, at: nat := length, offset / 8, offset % 8;
    while left > 0
      invariant |out| + left == length && at < 8 && (left > 0 ==> 8 * pos + at == offset + |out|)
      invariant out == StateBytes(s)[offset..offset + |out|]
    {
      var take := if 8 - at > left then left else 8 - at;
      var bytes := ExtractBytesInLane(A, pos, at, take, s);
      out := out + bytes;
      left, pos, at := left - take, pos + 1, 0;
    }
  }

  /** KeccakP1600_ExtractBytes */
  method ExtractBytes(A: array<Half>, offset: nat, length: nat, ghost s: State) returns (out: Message)
    requires offset + length <= 200 && Shows(A, s)
    ensures out == StateBytes(s)[offset..offset + length]
  {
    if offset == 0 {
      out := ExtractFromStart(A, length, s);
    } else {
      out := ExtractLaneByLane(A, offset, length, s);
    }
  }

  /** KeccakP1600_Permute_24rounds in place */
  method PermuteHalves(P: State -> State, Q: Halves -> Halves, A: array<Half>, ghost s: State)
    requires SamePermutation(P, Q) && Shows(A, s)
    modifies A
    ensures Shows(A, P(s))
  {
    var next := Q(A[..]);
    forall i | 0 <= i < 50 {
      A[i] := next[i];
    }
    assert A[..] == next;
  }

  /** Data, suffix and final bit added one after the other make the padded last block. */
  lemma LastBlockByParts(s: State, m: Message)
    requires |m| < RATE
    ensures Add(Add(Add(s, At(m, 0)), At([Suffix()], |m|)), At([Final()], RATE - 1)) == Add(s, LastBlock(m))
  {
    hide Add, At, LastBlock, XorBlock;
    AddPiece(s, m, [Suffix()], 0);
    AddAdd(s, At(m + [Suffix()], 0), At([Final()], RATE - 1));
    LastBlockIsXor(m);
  }

  lemma LastBlockIsXor(m: Message)
    requires |m| < RATE
    ensures XorBlock(At(m + [Suffix()], 0), At([Final()], RATE - 1)) == LastBlock(m)
  {
    hide Xor, Or;
    var open := At(m + [Suffix()], 0);
    var x := XorBlock(open, At([Final()], RATE - 1));
    assert open[RATE - 1] == ByteAt(m + [Suffix()], 0, RATE - 1);
    forall k | 0 <= k < 200
      ensures x[k] == LastBlock(m)[k]
    {
      if k == RATE - 1 {
        OpenTop(m);
        OrIsXor(open[k]);
      } else {
        XorZero(open[k]);
      }
    }
  }

  /** A message may fill the block up to the byte before the last, so the last byte is the suffix or zero. */
  lemma OpenTop(m: Message)
    requires |m| < RATE
    ensures !ByteAt(m + [Suffix()], 0, RATE - 1)[7]
  {
  }

  /** Whatever stands in the last byte of the rate before the final bit has its top bit clear. */
  lemma OrIsXor(b: Byte)
    ensures !b[7] ==> Or(b, Final()) == Xor(b, Final())
  {
  }

  /** The squeeze loop of xkcp_shake256, started after one permutation: it permutes only between blocks. */
  method SqueezeHalves(P: State -> State, Q: Halves -> Halves, A: array<Half>, outlen: nat, ghost s: State)
    returns (out: Message)
    requires SamePermutation(P, Q) && Shows(A, P(s))
    modifies A
    ensures out == Squeeze(P, s, outlen)
  {
    hide Shows, StateBytes, SamePermutation, Squeeze;
    out := [];
    var left: nat := outlen;
    ghost var st := s;
    while left > RATE
      invariant Shows(A, P(st)) && out + Squeeze(P, st, left) == Squeeze(P, s, outlen)
    {
      var block := ExtractBytes(A, 0, RATE, P(st));
      PermuteHalves(P, Q, A, P(st));
      SqueezeStep(P, st, left);
      assert (out + block) + Squeeze(P, P(st), left - RATE) == out + (block + Squeeze(P, P(st), left - RATE));
      out := out + block;
      st := P(st);
      left := left - RATE;
    }
    SqueezeStep(P, st, left);
    var last := ExtractBytes(A, 0, left, P(st));
    out := out + last;
  }

  /** xkcp_shake256: the same bytes as the other sponge, for every message and output length. */
  method XkcpShake256(P: State -> State, Q: Halves -> Halves, m: Message, outlen: nat) returns (out: Message)
    requires SamePermutation(P, Q)
    ensures out == Shake256(P, m, outlen)
  {
    hide Shows, StateBytes, SamePermutation, Squeeze, Add, At, LastBlock;
    var A := new Half[50](_ => Zeros(32));
    ghost var s := ZeroState();
    ZeroShown(A);
    var full, rest := |m| / RATE, |m| % RATE;
    var i := 0;
    assert m[0..] == m;
    while i < full
      invariant i <= full && Shows(A, s) && Absorb(P, s, m[i * RATE..]) == Absorb(P, ZeroState(), m)
    {
      var block := m[i * RATE..(i + 1) * RATE];
      assert m[i * RATE..][..RATE] == block && m[i * RATE..][RATE..] == m[(i + 1) * RATE..];
      AddBytes(A, block, 0, s);
      PermuteHalves(P, Q, A, Add(s, At(block, 0)));
      s := P(Add(s, At(block, 0)));
      i := i + 1;
    }
    var tail := m[full * RATE..];
    ghost var s1 := Add(s, At(tail, 0));
    if rest > 0 {
      AddBytes(A, tail, 0, s);
    } else {
      AtNothing(s, 0);
      assert tail == [];
    }
    AddByte(A, Suffix(), rest, s1);
    ghost var s2 := Add(s1, At([Suffix()], rest));
    AddByte(A, Final(), RATE - 1, s2);
    LastBlockByParts(s, tail);
    ghost var absorbed := Add(s, LastBlock(tail));
    PermuteHalves(P, Q, A, absorbed);
    out := SqueezeHalves(P, Q, A, outlen, absorbed);
  }

  lemma ZeroShown(A: array<Half>)
    requires A.Length == 50 && forall i :: 0 <= i < 50 ==> A[i] == Zeros(32)
    ensures Shows(A, ZeroState())
  {
    hide Even, Odd;
    var z: Lane := Zeros(64);
    forall i: nat | i < 32
      ensures !Even(z)[i] && !Odd(z)[i]
    {
      EvenOddBits(z, i);
    }
    assert Even(z) == Zeros(32) && Odd(z) == Zeros(32);
    forall i | 0 <= i < 50
      ensures A[i] == HalfAt(ZeroState(), i)
    {
    }
  }
}
