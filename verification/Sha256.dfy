/** SHA-256 as a streaming context (hashs/sha256.c) over an arbitrary compression function, against the one-shot
    definition of section 5.1.1 of FIPS 180-4. */
module Sha256 {
  import opened Words
  import opened Params

  const BLOCK: nat := 64
  const WORD64: nat := 0x1_0000_0000_0000_0000
  const UINT_MAX: nat := 0xffff_ffff

  /** The eight 32-bit words of the chaining value. */
  type Chaining = s: seq<nat> | |s| == 8 witness [0, 0, 0, 0, 0, 0, 0, 0]

  type Compression = (Chaining, Bytes) -> Chaining

  function IV(): Chaining {
    [0x6a09e667, 0xbb67ae85, 0x3c6ef372, 0xa54ff53a, 0x510e527f, 0x9b05688c, 0x1f83d9ab, 0x5be0cd19]
  }

  // ---- the one-shot definition ----

  /** store_be64 */
  function StoreU64(v: nat): (b: Bytes)
    ensures |b| == 8
  {
    StoreU32(v / 0x1_0000_0000) + StoreU32(v % 0x1_0000_0000)
  }

  lemma U64Injective(v: nat, w: nat)
    requires v < WORD64 && w < WORD64 && StoreU64(v) == StoreU64(w)
    ensures v == w
  {
    hide StoreU32;
    assert StoreU64(v)[..4] == StoreU32(v / 0x1_0000_0000) && StoreU64(w)[..4] == StoreU32(w / 0x1_0000_0000);
    assert StoreU64(v)[4..] == StoreU32(v % 0x1_0000_0000) && StoreU64(w)[4..] == StoreU32(w % 0x1_0000_0000);
    U32RoundTrip(v / 0x1_0000_0000);
    U32RoundTrip(w / 0x1_0000_0000);
    U32RoundTrip(v % 0x1_0000_0000);
    U32RoundTrip(w % 0x1_0000_0000);
  }

  /** Zero bytes between the 0x80 and the length. */
  function Gap(len: nat): nat {
    (119 - len % BLOCK) % BLOCK
  }

  /** Section 5.1.1 of FIPS 180-4: 0x80, zeros, and the bit length in 64 bits. */
  function Padded(m: Bytes): (b: Bytes)
    ensures |b| % BLOCK == 0 && |b| == |m| + 9 + Gap(|m|)
  {
    PaddedLength(|m|);
    m + [0x80] + Fill(Gap(|m|), 0) + StoreU64(8 * |m| % WORD64)
  }

  lemma PaddedLength(len: nat)
    ensures (len + 9 + Gap(len)) % BLOCK == 0
  {
    var r := len % BLOCK;
    assert Gap(len) == if r <= 55 then 55 - r else 119 - r;
    assert (len - r) % BLOCK == 0;
  }

  /** Chaining over whole blocks. */
  function Fold(c: Compression, s: Chaining, b: Bytes): Chaining
    requires |b| % BLOCK == 0
    decreases |b|
  {
    if |b| == 0 then s else c(Fold(c, s, b[..|b| - BLOCK]), b[|b| - BLOCK..])
  }

  function Output(s: Chaining): Digest {
    StoreU32(s[0]) + StoreU32(s[1]) + StoreU32(s[2]) + StoreU32(s[3])
    + StoreU32(s[4]) + StoreU32(s[5]) + StoreU32(s[6]) + StoreU32(s[7])
  }

  function Hash(c: Compression, m: Bytes): Digest {
    Output(Fold(c, IV(), Padded(m)))
  }

  lemma FoldBlock(c: Compression, b: Bytes, last: Bytes)
    requires |b| % BLOCK == 0 && |last| == BLOCK
    ensures |b + last| % BLOCK == 0 && Fold(c, IV(), b + last) == c(Fold(c, IV(), b), last)
  {
    assert (b + last)[..|b|] == b && (b + last)[|b|..] == last;
  }

  /** Below 2^61 bytes no two messages share their padded form. */
  lemma PaddingInjective(m: Bytes, m': Bytes)
    requires 8 * |m| < WORD64 && 8 * |m'| < WORD64 && Padded(m) == Padded(m')
    ensures m == m'
  {
    hide StoreU64, Fill, Gap;
    var b, b' := Padded(m), Padded(m');
    assert b[|b| - 8..] == StoreU64(8 * |m|) && b'[|b'| - 8..] == StoreU64(8 * |m'|);
    U64Injective(8 * |m|, 8 * |m'|);
    assert b[..|m|] == m && b'[..|m'|] == m';
  }

  /** Sections 5.1.1 and 3.1 of FIPS 180-4, byte by byte: the message, one 0x80, as few zeros as possible, and the length
      in bits as two big-endian words, the high one first. */
  lemma PaddedLayout(m: Bytes)
    ensures var b, n := Padded(m), |Padded(m)|;
            && n % 64 == 0 && |m| + 9 <= n < |m| + 9 + 64
            && b[..|m|] == m && b[|m|] == 0x80 && (forall i :: |m| < i < n - 8 ==> b[i] == 0)
            && LoadU32(b[n - 8..]) * 0x1_0000_0000 + LoadU32(b[n - 4..]) == 8 * |m| % 0x1_0000_0000_0000_0000
  {
    hide StoreU64, StoreU32, LoadU32;
    var b := Padded(m);
    var zeros, len := Gap(|m|), 8 * |m| % WORD64;
    var front: Bytes := m + [0x80];
    assert b == front + (Fill(zeros, 0) + StoreU64(len));
    forall i | |m| < i < |b| - 8
      ensures b[i] == 0
    {
      assert b[i] == Fill(zeros, 0)[i - |m| - 1];
    }
    assert b[|b| - 8..] == StoreU64(len);
    assert b[|b| - 4..] == StoreU64(len)[4..];
    LengthField(len);
  }

  /** The length field, read back as two words. */
  lemma LengthField(v: nat)
    requires v < WORD64
    ensures LoadU32(StoreU64(v)) * 0x1_0000_0000 + LoadU32(StoreU64(v)[4..]) == v
  {
    hide StoreU32, LoadU32;
    var high, low := v / 0x1_0000_0000, v % 0x1_0000_0000;
    U32RoundTrip(high);
    U32RoundTrip(low);
    assert StoreU64(v)[..4] == StoreU32(high) && StoreU64(v)[4..] == StoreU32(low);
    LoadFront(StoreU64(v), StoreU32(high));
  }

  /** Word i of a digest is word i of the last chaining value, big-endian. */
  lemma DigestWords(c: Compression, m: Bytes, i: nat)
    requires i < 8 && forall k :: 0 <= k < 8 ==> Fold(c, IV(), Padded(m))[k] < 0x1_0000_0000
    ensures LoadU32(Hash(c, m)[4 * i..]) == Fold(c, IV(), Padded(m))[i]
  {
    hide StoreU32, LoadU32, Fold, Padded;
    var s := Fold(c, IV(), Padded(m));
    U32RoundTrip(s[i]);
    OutputWord(s, i);
    LoadFront(Hash(c, m)[4 * i..], StoreU32(s[i]));
  }

  lemma OutputWord(s: Chaining, i: nat)
    requires i < 8
    ensures Output(s)[4 * i..][..4] == StoreU32(s[i])
  {
    hide StoreU32;
    var d := Output(s);
    assert d[..4] == StoreU32(s[0]) && d[4..8] == StoreU32(s[1]) && d[8..12] == StoreU32(s[2]) && d[12..16] == StoreU32(s[3]);
    assert d[16..20] == StoreU32(s[4]) && d[20..24] == StoreU32(s[5]) && d[24..28] == StoreU32(s[6]) && d[28..] == StoreU32(s[7]);
    assert d[4 * i..][..4] == d[4 * i..4 * i + 4];
  }

  /** Section 5.3.3 of FIPS 180-4: the initial value is the first 32 bits of the fractional parts of the square roots of
      the first eight primes. */
  lemma InitialValue(i: nat)
    requires i < 8
    ensures var prime, whole := [2, 3, 5, 7, 11, 13, 17, 19][i], [1, 1, 2, 2, 3, 3, 4, 4][i];
            var root := whole * 0x1_0000_0000 + IV()[i];
            && whole * whole <= prime < (whole + 1) * (whole + 1) && IV()[i] < 0x1_0000_0000
            && root * root <= prime * 0x1_0000_0000_0000_0000 < (root + 1) * (root + 1)
  {
    assert i in {0, 1, 2, 3, 4, 5, 6, 7};
  }

  // ---- the context ----

  class Context {
    const compress: Compression
    var state: Chaining
    var bitLen: nat
    const buffer: array<byte>
    var bufferLen: nat
    ghost var head: Bytes

    /** SHA256_Init */
    constructor (compress: Compression)
      ensures this.compress == compress && Valid() && Data() == [] && fresh(buffer)
    {
      this.compress := compress;
      state, bitLen, bufferLen := IV(), 0, 0;
      buffer := new byte[64];
      head := [];
    }

    /** `head` is what has been compressed: the whole blocks of the input so far. */
    ghost predicate Valid()
      reads this
    {
      && buffer.Length == BLOCK && bufferLen < BLOCK && |head| % BLOCK == 0
      && state == Fold(compress, IV(), head) && bitLen == 8 * |head| % WORD64
    }

    /** Everything fed since init. */
    ghost function Data(): Bytes
      requires Valid()
      reads this, buffer
    {
      head + buffer[..bufferLen]
    }

    /** sha256_compress of the buffer. */
    method Compress()
      requires buffer.Length == BLOCK && |head| % BLOCK == 0 && state == Fold(compress, IV(), head)
      modifies this`state, this`head
      ensures head == old(head) + buffer[..] && |head| % BLOCK == 0 && state == Fold(compress, IV(), head)
    {
      FoldBlock(compress, head, buffer[..]);
      state, head := compress(state, buffer[..]), head + buffer[..];
    }

    /** SHA256_Update appends its input to what was fed so far. */
    method Update(input: Bytes)
      requires Valid()
      modifies this, buffer
      ensures Valid() && Data() == old(Data()) + input
    {
      hide Fold;
      var off := 0;
      assert input[..0] == [] && Data() == Data() + [];
      while off < |input|
        invariant off <= |input| && Valid() && Data() == old(Data()) + input[..off]
      {
        var take := if BLOCK - bufferLen > |input| - off then |input| - off else BLOCK - bufferLen;
        TakePiece(input[off..off + take]);
        assert input[..off + take] == input[..off] + input[off..off + take];
        off := off + take;
      }
      assert input[..off] == input;
    }

    /** One turn of the update loop: a piece that fits the buffer, compressed when the buffer is full. */
    method TakePiece(piece: Bytes)
      requires Valid() && bufferLen + |piece| <= BLOCK
      modifies this, buffer
      ensures Valid() && Data() == old(Data()) + piece
    {
      hide Fold;
      ghost var was := head;
      CopyIn(piece);
      bufferLen := bufferLen + |piece|;
      assert head + buffer[..bufferLen] == old(Data()) + piece;
      if bufferLen == BLOCK {
        assert buffer[..] == buffer[..bufferLen];
        Compress();
        bitLen := (bitLen + BLOCK * 8) % WORD64;
        BitsAdd(|was|);
        bufferLen := 0;
        assert head + buffer[..bufferLen] == head;
      }
    }

    /** The memcpy of an update. */
    method CopyIn(piece: Bytes)
      requires bufferLen + |piece| <= buffer.Length
      modifies buffer
      ensures buffer[..bufferLen + |piece|] == old(buffer[..bufferLen]) + piece
    {
      var i := 0;
      while i < |piece|
        invariant i <= |piece| && buffer[..bufferLen + i] == old(buffer[..bufferLen]) + piece[..i]
      {
        buffer[bufferLen + i] := piece[i];
        i := i + 1;
        assert buffer[..bufferLen + i] == buffer[..bufferLen + i - 1] + [piece[i - 1]];
        assert piece[..i] == piece[..i - 1] + [piece[i - 1]];
      }
      assert piece[..i] == piece;
    }

    /** Zero fill of the buffer from `from` up to `to`. */
    method ZeroFill(from: nat, to: nat)
      requires from <= to <= buffer.Length
      modifies buffer
      ensures buffer[..to] == old(buffer[..from]) + Fill(to - from, 0)
    {
      var i := from;
      while i < to
        invariant from <= i <= to && buffer[..i] == old(buffer[..from]) + Fill(i - from, 0)
      {
        buffer[i] := 0;
        i := i + 1;
        assert buffer[..i] == buffer[..i - 1] + [0];
      }
    }

    /** SHA256_Final */
    method Final() returns (out: Digest)
      requires Valid()
      modifies this, buffer
      ensures out == Hash(compress, old(Data()))
    {
      hide Fold, StoreU64, Fill, Output, StoreU32;
      ghost var data, whole, rest := Data(), head, buffer[..bufferLen];
      var totalBits := (bitLen + bufferLen * 8) % WORD64;
      BitsTotal(|head|, bufferLen);
      var used := bufferLen;
      buffer[used] := 0x80;
      used := used + 1;
      assert buffer[..used] == rest + [0x80];
      ghost var tail := rest + [0x80];
      if used > 56 {
        ZeroFill(used, BLOCK);
        assert buffer[..] == buffer[..BLOCK];
        Compress();
        used, tail := 0, [];
        assert buffer[..0] == [];
      }
      ZeroFill(used, 56);
      StoreLength(totalBits);
      Compress();
      PaddedShape(whole, rest, totalBits, head);
      out := Output(state);
    }

    method StoreLength(bits: nat)
      requires buffer.Length == BLOCK
      modifies buffer
      ensures buffer[..] == old(buffer[..56]) + StoreU64(bits)
    {
      hide StoreU64;
      var b := StoreU64(bits);
      var i := 0;
      while i < 8
        invariant i <= 8 && buffer[..56] == old(buffer[..56])
        invariant forall k :: 0 <= k < i ==> buffer[56 + k] == b[k]
      {
        buffer[56 + i] := b[i];
        i := i + 1;
      }
    }
  }

  lemma BitsAdd(n: nat)
    ensures (8 * n % WORD64 + BLOCK * 8) % WORD64 == 8 * (n + BLOCK) % WORD64
  {
  }

  lemma BitsTotal(n: nat, k: nat)
    ensures (8 * n % WORD64 + k * 8) % WORD64 == 8 * (n + k) % WORD64
  {
  }

  lemma GapAfter(whole: nat, rest: nat)
    requires whole % BLOCK == 0 && rest < BLOCK
    ensures Gap(whole + rest) == if rest + 1 > 56 then (BLOCK - rest - 1) + 56 else 55 - rest
  {
    assert (whole + rest) % BLOCK == rest;
  }

  /** The two ways SHA256_Final lays out its padding are both the standard one. */
  lemma PaddedShape(whole: Bytes, rest: Bytes, bits: nat, all: Bytes)
    requires |rest| < BLOCK && |whole| % BLOCK == 0 && bits == 8 * (|whole| + |rest|) % WORD64
    requires all == if |rest| + 1 > 56
                    then whole + (rest + [0x80] + Fill(BLOCK - |rest| - 1, 0)) + ([] + Fill(56, 0) + StoreU64(bits))
                    else whole + (rest + [0x80] + Fill(55 - |rest|, 0) + StoreU64(bits))
    ensures all == Padded(whole + rest)
  {
    hide StoreU64, Fill, Gap;
    GapAfter(|whole|, |rest|);
    assert |whole + rest| == |whole| + |rest|;
    if |rest| + 1 > 56 {
      ZerosJoin(BLOCK - |rest| - 1, 56);
      assert all == whole + rest + [0x80] + (Fill(BLOCK - |rest| - 1, 0) + Fill(56, 0)) + StoreU64(bits);
    } else {
      assert all == whole + rest + [0x80] + Fill(55 - |rest|, 0) + StoreU64(bits);
    }
  }

  lemma {:induction false} ZerosJoin(a: nat, b: nat)
    ensures Fill(a, 0) + Fill(b, 0) == Fill(a + b, 0)
  {
    if b > 0 {
      ZerosJoin(a, b - 1);
      assert Fill(a, 0) + Fill(b, 0) == (Fill(a, 0) + Fill(b - 1, 0)) + [0];
    } else {
      assert Fill(a, 0) + Fill(0, 0) == Fill(a, 0);
    }
  }

  /** sha256_update_size: an input of any size in pieces of at most UINT_MAX bytes. */
  method UpdateSize(ctx: Context, input: Bytes)
    requires ctx.Valid()
    modifies ctx, ctx.buffer
    ensures ctx.Valid() && ctx.Data() == old(ctx.Data()) + input
  {
    hide Fold, Context.Valid, Context.Data;
    AddNothing(ctx.Data(), input);
    var off := 0;
    while off < |input|
      invariant off <= |input| && ctx.Valid() && ctx.Data() == old(ctx.Data()) + input[..off]
    {
      var chunk := if |input| - off > UINT_MAX then UINT_MAX else |input| - off;
      ctx.Update(input[off..off + chunk]);
      AddChunk(old(ctx.Data()), input, off, chunk);
      off := off + chunk;
    }
    assert input[..off] == input;
  }

  lemma AddNothing(data: Bytes, input: Bytes)
    ensures data == data + input[..0]
  {
  }

  lemma AddChunk(data: Bytes, input: Bytes, off: nat, chunk: nat)
    requires off + chunk <= |input|
    ensures (data + input[..off]) + input[off..off + chunk] == data + input[..off + chunk]
  {
    assert input[..off + chunk] == input[..off] + input[off..off + chunk];
  }

  const SIZE_MAX: nat := 0xffff_ffff

  /** The stack buffer of lms_hash_parts. */
  const STACK_BUFFER: nat := 4 + 16 + 32 * 2 + 265 * 32

  /** memcpy of one part to its place. */
  method CopyPart(buf: array<byte>, off: nat, part: Bytes)
    requires off + |part| <= buf.Length
    modifies buf
    ensures buf[..off + |part|] == old(buf[..off]) + part
  {
    var i := 0;
    while i < |part|
      invariant i <= |part| && buf[..off + i] == old(buf[..off]) + part[..i]
    {
      buf[off + i] := part[i];
      i := i + 1;
      assert buf[..off + i] == buf[..off + i - 1] + [part[i - 1]];
      assert part[..i] == part[..i - 1] + [part[i - 1]];
    }
    assert part[..i] == part;
  }

  /** lms_hash_parts: the digest of the concatenation of the parts, streamed for SHA-256 and put together in a buffer
      for the other hashes. It fails exactly when the length overflows or a long buffer cannot be had. */
  method HashParts(alg: HashAlg, compress: Compression, other: (HashAlg, Bytes) -> Digest, memory: bool,
                   a: Bytes, b: Bytes, c: Bytes, d: Bytes) returns (ok: bool, out: Digest)
    requires |a| <= SIZE_MAX && |b| <= SIZE_MAX && |c| <= SIZE_MAX && |d| <= SIZE_MAX
    ensures var total := |a| + |b| + |c| + |d|;
            ok <==> total <= SIZE_MAX && (alg.Sha256? || total <= STACK_BUFFER || memory)
    ensures ok ==> out == if alg.Sha256? then Hash(compress, a + b + c + d) else other(alg, a + b + c + d)
  {
    hide Hash, Fold, Context.Valid, Context.Data;
    out := ZeroDigest();
    if |a| > SIZE_MAX - |b| || |a| + |b| > SIZE_MAX - |c| || |a| + |b| + |c| > SIZE_MAX - |d| {
      return false, out;
    }
    if alg.Sha256? {
      out := StreamParts(compress, a, b, c, d);
      return true, out;
    }
    var total := |a| + |b| + |c| + |d|;
    if total > STACK_BUFFER && !memory {
      return false, out;
    }
    var buf := new byte[total];
    CopyPart(buf, 0, a);
    CopyPart(buf, |a|, b);
    CopyPart(buf, |a| + |b|, c);
    CopyPart(buf, |a| + |b| + |c|, d);
    assert buf[..] == buf[..total] == a + b + c + d;
    ok, out := true, other(alg, buf[..]);
  }

  method StreamParts(compress: Compression, a: Bytes, b: Bytes, c: Bytes, d: Bytes) returns (out: Digest)
    ensures out == Hash(compress, a + b + c + d)
  {
    hide Hash, Fold, Context.Valid, Context.Data;
    var ctx := new Context(compress);
    UpdateSize(ctx, a);
    UpdateSize(ctx, b);
    UpdateSize(ctx, c);
    UpdateSize(ctx, d);
    assert ctx.Data() == a + b + c + d;
    out := ctx.Final();
  }
}
