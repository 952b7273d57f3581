/** Bit interleaving of hashs/xkcp/KeccakP-1600-inplace32BI.c. Words are lists of bits, lowest bit first, so that a
    little-endian load is the concatenation of its bytes. */
module Interleave {

  type Bits = seq<bool>
  type Byte = s: Bits | |s| == 8 witness [false, false, false, false, false, false, false, false]
  type Half = s: Bits | |s| == 32 witness seq(32, _ => false)
  type Lane = s: Bits | |s| == 64 witness seq(64, _ => false)

  function Zeros(n: nat): (r: Bits)
    ensures |r| == n && forall i :: 0 <= i < n ==> !r[i]
  {
    seq(n, i => false)
  }

  /** x ^ y */
  function Xor(x: Bits, y: Bits): (r: Bits)
    requires |x| == |y|
    ensures |r| == |x| && forall i :: 0 <= i < |r| ==> r[i] == (x[i] != y[i])
  {
    seq(|x|, i requires 0 <= i < |x| => x[i] != y[i])
  }

  function Shl(x: Bits, k: nat): (r: Bits)
    ensures |r| == |x| && forall i :: 0 <= i < |r| ==> r[i] == (i >= k && x[i - k])
  {
    seq(|x|, i requires 0 <= i < |x| => i >= k && x[i - k])
  }

  function Shr(x: Bits, k: nat): (r: Bits)
    ensures |r| == |x| && forall i :: 0 <= i < |r| ==> r[i] == (i + k < |x| && x[i + k])
  {
    seq(|x|, i requires 0 <= i < |x| => i + k < |x| && x[i + k])
  }

  function And(x: Bits, y: Bits): (r: Bits)
    requires |x| == |y|
    ensures |r| == |x| && forall i :: 0 <= i < |r| ==> r[i] == (x[i] && y[i])
  {
    seq(|x|, i requires 0 <= i < |x| => x[i] && y[i])
  }

  function Or(x: Bits, y: Bits): (r: Bits)
    requires |x| == |y|
    ensures |r| == |x| && forall i :: 0 <= i < |r| ==> r[i] == (x[i] || y[i])
  {
    seq(|x|, i requires 0 <= i < |x| => x[i] || y[i])
  }

  /** Bit i of 0x22222222, 0x0C0C0C0C, 0x00F000F0, 0x0000FF00 for k = 1, 2, 4, 8. */
  predicate MaskBit(k: nat, i: nat) {
    if k == 1 then i % 4 == 1
    else if k == 2 then 2 <= i % 8 < 4
    else if k == 4 then 4 <= i % 16 < 8
    else 8 <= i < 16
  }

  function Mask(k: nat): (r: Half)
    ensures forall i :: 0 <= i < 32 ==> r[i] == MaskBit(k, i)
  {
    seq(32, i requires 0 <= i < 32 => MaskBit(k, i))
  }

  /** temp = (x ^ (x >> k)) & mask; x ^ temp ^ (temp << k) */
  function Swap(k: nat, x: Half): Half {
    var temp := And(Xor(x, Shr(x, k)), Mask(k));
    Xor(Xor(x, temp), Shl(temp, k))
  }

  /** Where bit i comes from under a swap of distance k. */
  function From(k: nat, i: nat): nat {
    if MaskBit(k, i) then i + k else if i >= k && MaskBit(k, i - k) then i - k else i
  }

  lemma MaskApart(k: nat, i: nat)
    requires k in {1, 2, 4, 8} && i < 32 && MaskBit(k, i)
    ensures i + k < 32 && !MaskBit(k, i + k) && (i >= k ==> !MaskBit(k, i - k))
  {
  }

  lemma SwapBit(k: nat, x: Half, i: nat)
    requires k in {1, 2, 4, 8} && i < 32
    ensures From(k, i) < 32 && Swap(k, x)[i] == x[From(k, i)]
  {
    hide MaskBit;
    if MaskBit(k, i) {
      MaskApart(k, i);
    }
    if i >= k && MaskBit(k, i - k) {
      MaskApart(k, i - k);
    }
  }

  /** prepareToBitInterleaving on one half */
  function Unshuffle(x: Half): Half {
    Swap(8, Swap(4, Swap(2, Swap(1, x))))
  }

  /** prepareFromBitInterleaving on one half */
  function Shuffle(x: Half): Half {
    Swap(1, Swap(2, Swap(4, Swap(8, x))))
  }

  function EvenOdd(i: nat): nat {
    if i < 16 then 2 * i else 2 * (i - 16) + 1
  }

  /** The number with binary digits a b c d e. */
  function Digits(a: bool, b: bool, c: bool, d: bool, e: bool): nat {
    (if a then 16 else 0) + (if b then 8 else 0) + (if c then 4 else 0) + (if d then 2 else 0) + (if e then 1 else 0)
  }

  /** A swap of distance k exchanges two neighbouring digits of the bit position. */
  lemma FromHighDigits(a: bool, b: bool, c: bool, d: bool, e: bool)
    ensures From(8, Digits(a, b, c, d, e)) == Digits(b, a, c, d, e)
    ensures From(4, Digits(a, b, c, d, e)) == Digits(a, c, b, d, e)
  {
  }

  lemma FromLowDigits(a: bool, b: bool, c: bool, d: bool, e: bool)
    ensures From(2, Digits(a, b, c, d, e)) == Digits(a, b, d, c, e)
    ensures From(1, Digits(a, b, c, d, e)) == Digits(a, b, c, e, d)
  {
    hide From, Digits;
    SwapByTwo(a, b, c, d, e);
    SwapByOne(a, b, c, d, e);
  }

  lemma SwapByTwo(a: bool, b: bool, c: bool, d: bool, e: bool)
    ensures From(2, Digits(a, b, c, d, e)) == Digits(a, b, d, c, e)
  {
  }

  lemma SwapByOne(a: bool, b: bool, c: bool, d: bool, e: bool)
    ensures From(1, Digits(a, b, c, d, e)) == Digits(a, b, c, e, d)
  {
  }

  lemma DigitsOf(i: nat) returns (a: bool, b: bool, c: bool, d: bool, e: bool)
    requires i < 32
    ensures i == Digits(a, b, c, d, e)
  {
    a, b, c, d, e := i >= 16, i % 16 >= 8, i % 8 >= 4, i % 4 >= 2, i % 2 == 1;
  }

  lemma Route(i: nat)
    requires i < 32
    ensures From(8, i) < 32 && From(4, From(8, i)) < 32 && From(2, From(4, From(8, i))) < 32
    ensures From(1, From(2, From(4, From(8, i)))) == EvenOdd(i)
  {
    hide From;
    var a, b, c, d, e := DigitsOf(i);
    FromHighDigits(a, b, c, d, e);
    FromHighDigits(b, a, c, d, e);
    FromLowDigits(b, c, a, d, e);
    FromLowDigits(b, c, d, a, e);
  }

  /** The four swaps send the even bits to the low half of the word and the odd bits to the high half. */
  lemma UnshuffleBit(x: Half, i: nat)
    requires i < 32
    ensures Unshuffle(x)[i] == x[EvenOdd(i)]
  {
    hide Swap, From;
    Route(i);
    SwapBit(8, Swap(4, Swap(2, Swap(1, x))), i);
    SwapBit(4, Swap(2, Swap(1, x)), From(8, i));
    SwapBit(2, Swap(1, x), From(4, From(8, i)));
    SwapBit(1, x, From(2, From(4, From(8, i))));
  }

  lemma SwapTwice(k: nat, x: Half)
    requires k in {1, 2, 4, 8}
    ensures Swap(k, Swap(k, x)) == x
  {
    hide Swap, MaskBit;
    forall i: nat | i < 32
      ensures Swap(k, Swap(k, x))[i] == x[i]
    {
      if MaskBit(k, i) {
        MaskApart(k, i);
      }
      if i >= k && MaskBit(k, i - k) {
        MaskApart(k, i - k);
      }
      SwapBit(k, Swap(k, x), i);
      SwapBit(k, x, From(k, i));
    }
  }

  lemma ShuffleInverse(x: Half)
    ensures Shuffle(Unshuffle(x)) == x
  {
    hide Swap;
    SwapTwice(1, x);
    SwapTwice(2, Swap(1, x));
    SwapTwice(4, Swap(2, Swap(1, x)));
    SwapTwice(8, Swap(4, Swap(2, Swap(1, x))));
  }

  /** Bits 0 .. 15 set. */
  function LowMask(): (r: Half)
    ensures forall i :: 0 <= i < 32 ==> r[i] == (i < 16)
  {
    seq(32, i => i < 16)
  }

  function HighMask(): (r: Half)
    ensures forall i :: 0 <= i < 32 ==> r[i] == (i >= 16)
  {
    seq(32, i => i >= 16)
  }

  /** (a & 0x0000FFFF) | (b << 16) */
  function LowWord(a: Half, b: Half): Half {
    Or(And(a, LowMask()), Shl(b, 16))
  }

  /** (a >> 16) | (b & 0xFFFF0000) */
  function HighWord(a: Half, b: Half): Half {
    Or(Shr(a, 16), And(b, HighMask()))
  }

  /** toBitInterleaving of a lane: what is added to the even half-lane. */
  function Even(lane: Lane): Half {
    LowWord(Unshuffle(lane[..32]), Unshuffle(lane[32..]))
  }

  function Odd(lane: Lane): Half {
    HighWord(Unshuffle(lane[..32]), Unshuffle(lane[32..]))
  }

  /** fromBitInterleaving */
  function LaneOf(even: Half, odd: Half): Lane {
    Shuffle(LowWord(even, odd)) + Shuffle(HighWord(even, odd))
  }

  /** The macros split a lane into its even and its odd bits. */
  lemma EvenOddBits(lane: Lane, i: nat)
    requires i < 32
    ensures Even(lane)[i] == lane[2 * i] && Odd(lane)[i] == lane[2 * i + 1]
  {
    hide Unshuffle;
    UnshuffleBit(lane[..32], if i < 16 then i else i - 16);
    UnshuffleBit(lane[..32], if i < 16 then i + 16 else i);
    UnshuffleBit(lane[32..], if i < 16 then i else i - 16);
    UnshuffleBit(lane[32..], if i < 16 then i + 16 else i);
  }

  /** Reading back what was interleaved. */
  lemma InterleaveInverse(lane: Lane)
    ensures LaneOf(Even(lane), Odd(lane)) == lane
  {
    hide Unshuffle, Shuffle;
    ShuffleInverse(lane[..32]);
    ShuffleInverse(lane[32..]);
    assert LowWord(Even(lane), Odd(lane)) == Unshuffle(lane[..32]);
    assert HighWord(Even(lane), Odd(lane)) == Unshuffle(lane[32..]);
    assert lane == lane[..32] + lane[32..];
  }

  /** Interleaving is linear: adding into the interleaved state adds into the lane. */
  lemma InterleaveXor(a: Lane, b: Lane)
    ensures Even(Xor(a, b)) == Xor(Even(a), Even(b)) && Odd(Xor(a, b)) == Xor(Odd(a), Odd(b))
  {
    hide Even, Odd;
    forall i: nat | i < 32
      ensures Even(Xor(a, b))[i] == Xor(Even(a), Even(b))[i] && Odd(Xor(a, b))[i] == Xor(Odd(a), Odd(b))[i]
    {
      EvenOddBits(a, i);
      EvenOddBits(b, i);
      EvenOddBits(Xor(a, b), i);
    }
  }
}
