/** Winternitz digits and checksum: lms_lmots_coef and lms_lmots_checksum of src/lms_params.c,
    section 4.4 of RFC 8554. */
module Winternitz {
  import opened Words
  import opened Params

  /** Digit k of one byte, most significant first. */
  function ByteDigit(b: byte, k: nat, w: nat): (a: nat)
    requires IsWidth(w) && k < 8 / w
    ensures a < Pow2(w)
  {
    Shr(b, w * (8 / w - 1 - k)) % Pow2(w)
  }

  /** lms_lmots_coef: digit i of a byte string cut into w-bit digits, most significant first.
      For a power of two d, ~i & (d - 1) is d - 1 - i % d. */
  function Coef(data: Bytes, i: nat, w: nat): (a: nat)
    requires IsWidth(w) && i * w / 8 < |data|
    ensures a < Pow2(w)
  {
    ByteDigit(data[i * w / 8], i % (8 / w), w)
  }

  lemma DigitInRange(i: nat, w: nat)
    requires IsWidth(w)
    ensures i < HashDigits(w) ==> i * w / 8 < 32
    ensures i < DigitCount(w) ==> i * w / 8 < 34
  {
  }

  /** Sum of max - digit over the first n digits. */
  ghost function DigitGap(Q: Bytes, n: nat, w: nat): nat
    requires IsWidth(w) && |Q| >= 32 && n <= HashDigits(w)
  {
    if n == 0 then 0
    else
      DigitInRange(n - 1, w);
      DigitGap(Q, n - 1, w) + (Pow2(w) - 1 - Coef(Q, n - 1, w))
  }

  lemma {:induction false} GapBound(Q: Bytes, n: nat, w: nat)
    requires IsWidth(w) && |Q| >= 32 && n <= HashDigits(w)
    ensures DigitGap(Q, n, w) <= n * (Pow2(w) - 1)
  {
    if n > 0 {
      GapBound(Q, n - 1, w);
      Distribute(n - 1, 1, Pow2(w) - 1);
      DigitInRange(n - 1, w);
    }
  }

  /** lms_lmots_checksum */
  method Checksum(Q: Bytes, w: nat, ls: nat) returns (c: nat)
    requires IsWidth(w) && |Q| == 32
    ensures c == DigitGap(Q, HashDigits(w), w) * Pow2(ls)
  {
    hide ByteDigit, Coef;
    var sum: nat := 0;
    var u := 8 * |Q| / w;
    var maxDigit := Pow2(w) - 1;
    var i := 0;
    while i < u
      invariant 0 <= i <= u == HashDigits(w)
      invariant sum == DigitGap(Q, i, w)
    {
      DigitInRange(i, w);
      sum := sum + (maxDigit - Coef(Q, i, w));
      i := i + 1;
    }
    c := sum * Pow2(ls);
  }

  /** The two bytes appended to Q: the shifted checksum, stored in 16 bits. */
  ghost function ChecksumBytes(Q: Bytes, w: nat): (b: Bytes)
    requires IsWidth(w) && |Q| == 32
    ensures |b| == 2
  {
    StoreU16(DigitGap(Q, HashDigits(w), w) * Pow2(ChecksumShift(w)) % 0x1_0000)
  }

  /** Digit i of Q followed by its checksum. */
  ghost function Digit(Q: Bytes, i: nat, w: nat): (a: nat)
    requires IsWidth(w) && |Q| == 32 && i < DigitCount(w)
    ensures a < Pow2(w)
  {
    DigitInRange(i, w);
    Coef(Q + ChecksumBytes(Q, w), i, w)
  }

  /** The shifted checksum fits 16 bits. */
  lemma ChecksumFits(Q: Bytes, w: nat)
    requires IsWidth(w) && |Q| == 32
    ensures DigitGap(Q, HashDigits(w), w) * Pow2(ChecksumShift(w)) < 0x1_0000
  {
    hide DigitGap;
    GapBound(Q, HashDigits(w), w);
    Powers();
  }

  // ---- digits determine bytes, in order ----

  lemma DigitForm(b: byte, k: nat, w: nat, s: nat, p: nat)
    requires IsWidth(w) && k < 8 / w && s == w * (8 / w - 1 - k) && p == Pow2(s)
    ensures ByteDigit(b, k, w) == b as int / p % Pow2(w)
  {
    ShrEqDiv(b, s);
  }

  lemma Bits(b: byte)
    ensures b as int == 128 * ByteDigit(b, 0, 1) + 64 * ByteDigit(b, 1, 1) + 32 * ByteDigit(b, 2, 1) + 16 * ByteDigit(b, 3, 1)
                        + 8 * ByteDigit(b, 4, 1) + 4 * ByteDigit(b, 5, 1) + 2 * ByteDigit(b, 6, 1) + ByteDigit(b, 7, 1)
  {
    hide Pow2, Shr;
    Powers();
    ShrNone(b);
    Halve(b, 0);
    Halve(b, 1);
    Halve(b, 2);
    Halve(b, 3);
    Halve(b, 4);
    Halve(b, 5);
    Halve(b, 6);
  }

  lemma Halve(x: nat, i: nat)
    ensures Shr(x, i) == 2 * Shr(x, i + 1) + Shr(x, i) % 2
  {
    ShrStep(x, i);
  }

  lemma Pairs(b: byte)
    ensures b as int == 64 * ByteDigit(b, 0, 2) + 16 * ByteDigit(b, 1, 2) + 4 * ByteDigit(b, 2, 2) + ByteDigit(b, 3, 2)
    ensures b as int % 64 == 16 * ByteDigit(b, 1, 2) + 4 * ByteDigit(b, 2, 2) + ByteDigit(b, 3, 2)
  {
    hide ByteDigit, Pow2;
    Powers();
    DigitForm(b, 0, 2, 6, 64);
    DigitForm(b, 1, 2, 4, 16);
    DigitForm(b, 2, 2, 2, 4);
    DigitForm(b, 3, 2, 0, 1);
    var v: int := b as int;
    assert v / 4 / 4 == v / 16 && v / 16 / 4 == v / 64;
  }

  lemma Nibbles(b: byte)
    ensures b as int == 16 * ByteDigit(b, 0, 4) + ByteDigit(b, 1, 4)
    ensures b as int % 16 == ByteDigit(b, 1, 4)
  {
    hide ByteDigit, Pow2;
    Powers();
    DigitForm(b, 0, 4, 4, 16);
    DigitForm(b, 1, 4, 0, 1);
  }

  lemma TopBitOfByte(b: byte)
    ensures b as int == 128 * ByteDigit(b, 0, 1) + b as int % 128
  {
    hide ByteDigit, Pow2;
    Powers();
    DigitForm(b, 0, 1, 7, 128);
  }

  /** Digit by digit below means below; digit by digit equal means equal. */
  lemma ByteMonotone(b: byte, c: byte, w: nat)
    requires IsWidth(w)
    requires forall k :: 0 <= k < 8 / w ==> ByteDigit(b, k, w) <= ByteDigit(c, k, w)
    ensures b <= c
  {
    hide ByteDigit;
    if w == 1 {
      Bits(b);
      Bits(c);
    } else if w == 2 {
      Pairs(b);
      Pairs(c);
    } else if w == 4 {
      Nibbles(b);
      Nibbles(c);
    } else {
      WholeByte(b);
      WholeByte(c);
    }
  }

  lemma WholeByte(b: byte)
    ensures ByteDigit(b, 0, 8) == b as int
  {
    Powers();
  }

  /** The last checksum byte is its first digit, shifted up. */
  lemma LastByte(b: byte, w: nat)
    requires IsWidth(w) && b as int % Pow2(ChecksumShift(w)) == 0
    ensures b as int == ByteDigit(b, 0, w) * Pow2(if w == 8 then 0 else 8 - w)
  {
    hide ByteDigit, Pow2;
    Powers();
    if w == 1 {
      TopBitOfByte(b);
    } else if w == 2 {
      Pairs(b);
    } else if w == 4 {
      Nibbles(b);
    } else {
      WholeByte(b);
    }
  }

  // ---- the checksum defeats domination ----

  /** Larger digits, smaller gap; equal gaps only for equal digits. */
  lemma {:induction false} GapMonotone(Q: Bytes, R: Bytes, n: nat, w: nat)
    requires IsWidth(w) && |Q| == |R| == 32 && n <= HashDigits(w)
    requires forall i :: 0 <= i < n ==> i * w / 8 < 32 && Coef(Q, i, w) <= Coef(R, i, w)
    ensures DigitGap(R, n, w) <= DigitGap(Q, n, w)
    ensures DigitGap(R, n, w) == DigitGap(Q, n, w) ==> forall i :: 0 <= i < n ==> Coef(Q, i, w) == Coef(R, i, w)
  {
    hide Coef;
    if n > 0 {
      DigitInRange(n - 1, w);
      GapMonotone(Q, R, n - 1, w);
    }
  }

  lemma DigitOfHash(Q: Bytes, i: nat, w: nat)
    requires IsWidth(w) && |Q| == 32 && i < HashDigits(w)
    ensures i < DigitCount(w) && i * w / 8 < 32 && Digit(Q, i, w) == Coef(Q, i, w)
  {
    hide ByteDigit, ChecksumBytes;
    DigitInRange(i, w);
  }

  lemma DigitOfChecksum(Q: Bytes, k: nat, w: nat)
    requires IsWidth(w) && |Q| == 32 && k <= 8 / w
    ensures HashDigits(w) + k < DigitCount(w)
    ensures Digit(Q, HashDigits(w) + k, w)
         == if k < 8 / w then ByteDigit(ChecksumBytes(Q, w)[0], k, w) else ByteDigit(ChecksumBytes(Q, w)[1], 0, w)
  {
    hide ByteDigit, ChecksumBytes;
  }

  /** The checksum digits order the checksums. */
  lemma ChecksumMonotone(Q: Bytes, R: Bytes, w: nat)
    requires IsWidth(w) && |Q| == |R| == 32
    requires forall i :: HashDigits(w) <= i < DigitCount(w) ==> Digit(Q, i, w) <= Digit(R, i, w)
    ensures DigitGap(Q, HashDigits(w), w) <= DigitGap(R, HashDigits(w), w)
  {
    hide ByteDigit, Digit, DigitGap, ChecksumBytes;
    var q, r := ChecksumBytes(Q, w), ChecksumBytes(R, w);
    forall k | 0 <= k < 8 / w
      ensures ByteDigit(q[0], k, w) <= ByteDigit(r[0], k, w)
    {
      DigitOfChecksum(Q, k, w);
      DigitOfChecksum(R, k, w);
    }
    ByteMonotone(q[0], r[0], w);
    DigitOfChecksum(Q, 8 / w, w);
    DigitOfChecksum(R, 8 / w, w);
    var s := Pow2(ChecksumShift(w));
    ChecksumSplit(Q, w);
    ChecksumSplit(R, w);
    LastByte(q[1], w);
    LastByte(r[1], w);
    MulLe(ByteDigit(q[1], 0, w), ByteDigit(r[1], 0, w), Pow2(if w == 8 then 0 else 8 - w));
    var x, y := DigitGap(Q, HashDigits(w), w), DigitGap(R, HashDigits(w), w);
    assert x * s <= y * s;
    if y < x {
      MulLe(y + 1, x, s);
      Distribute(y, 1, s);
    }
  }

  lemma ChecksumSplit(Q: Bytes, w: nat)
    requires IsWidth(w) && |Q| == 32
    ensures var b := ChecksumBytes(Q, w);
            && b[0] as int * 0x100 + b[1] as int == DigitGap(Q, HashDigits(w), w) * Pow2(ChecksumShift(w))
            && b[1] as int % Pow2(ChecksumShift(w)) == 0
  {
    hide DigitGap, Pow2;
    ChecksumFits(Q, w);
    Powers();
    var p := Pow2(ChecksumShift(w));
    var v := DigitGap(Q, HashDigits(w), w) * p;
    MultipleBytes(v, DigitGap(Q, HashDigits(w), w), p);
    U16RoundTrip(v);
  }

  lemma MultipleBytes(v: nat, g: nat, p: nat)
    requires p in {1, 16, 64, 128} && v == g * p
    ensures v % 0x100 % p == 0
  {
    if p == 1 {
    } else if p == 16 {
      MultipleOf16(v, g);
    } else if p == 64 {
      MultipleOf64(v, g);
    } else {
      MultipleOf128(v, g);
    }
  }

  lemma MultipleOf16(v: nat, g: nat)
    requires v == g * 16
    ensures v % 0x100 % 16 == 0
  {
  }

  lemma MultipleOf64(v: nat, g: nat)
    requires v == g * 64
    ensures v % 0x100 % 64 == 0
  {
  }

  lemma MultipleOf128(v: nat, g: nat)
    requires v == g * 128
    ensures v % 0x100 % 128 == 0
  {
  }

  /** Section 4.4 of RFC 8554: the digits of two distinct hashes, checksum included, never dominate each other. */
  lemma NonDomination(Q: Bytes, R: Bytes, w: nat)
    requires IsWidth(w) && |Q| == |R| == 32
    requires forall i :: 0 <= i < DigitCount(w) ==> Digit(Q, i, w) <= Digit(R, i, w)
    ensures Q == R
  {
    hide Digit, Coef, DigitGap, ByteDigit;
    var u := HashDigits(w);
    forall i | 0 <= i < u
      ensures i * w / 8 < 32 && Coef(Q, i, w) <= Coef(R, i, w)
    {
      DigitOfHash(Q, i, w);
      DigitOfHash(R, i, w);
    }
    GapMonotone(Q, R, u, w);
    ChecksumMonotone(Q, R, w);
    EqualDigits(Q, R, w);
  }

  lemma EqualDigits(Q: Bytes, R: Bytes, w: nat)
    requires IsWidth(w) && |Q| == |R| == 32
    requires forall i :: 0 <= i < HashDigits(w) ==> i * w / 8 < 32 && Coef(Q, i, w) == Coef(R, i, w)
    ensures Q == R
  {
    hide ByteDigit;
    forall j | 0 <= j < 32
      ensures Q[j] == R[j]
    {
      forall k | 0 <= k < 8 / w
        ensures ByteDigit(Q[j], k, w) == ByteDigit(R[j], k, w)
      {
        DigitAt(Q, j, k, w);
        DigitAt(R, j, k, w);
      }
      ByteMonotone(Q[j], R[j], w);
      ByteMonotone(R[j], Q[j], w);
    }
  }

  lemma DigitAt(Q: Bytes, j: nat, k: nat, w: nat)
    requires IsWidth(w) && |Q| == 32 && j < 32 && k < 8 / w
    ensures var i := j * (8 / w) + k; i < HashDigits(w) && i * w / 8 < 32 && Coef(Q, i, w) == ByteDigit(Q[j], k, w)
  {
    hide ByteDigit;
    DigitPlace(j, k, w);
  }

  /** Byte and place of digit j * (8 / w) + k. */
  lemma DigitPlace(j: nat, k: nat, w: nat)
    requires IsWidth(w) && j < 32 && k < 8 / w
    ensures var i := j * (8 / w) + k; i < HashDigits(w) && i * w / 8 == j && i % (8 / w) == k
  {
    if w == 1 {
      PlaceIn(j, k, 8, 1);
    } else if w == 2 {
      PlaceIn(j, k, 4, 2);
    } else if w == 4 {
      PlaceIn(j, k, 2, 4);
    } else {
      PlaceIn(j, k, 1, 8);
    }
  }

  lemma PlaceIn(j: nat, k: nat, per: nat, w: nat)
    requires (per, w) in {(8, 1), (4, 2), (2, 4), (1, 8)} && k < per
    ensures (j * per + k) * w / 8 == j && (j * per + k) % per == k
  {
  }
}
