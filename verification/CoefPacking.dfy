/** Winternitz digits in 32-bit words: the running-shift packer and the div/mod unpacker of src/lms_mmio.c. */
module CoefPacking {
  import opened Words
  import opened Params

  const WORDS: nat := 32

  /** Digits per 32-bit word. */
  function PerWord(w: nat): nat
    requires w >= 1
  {
    32 / w
  }

  function OrBit(x: nat, y: nat): nat {
    if x % 2 == 1 || y % 2 == 1 then 1 else 0
  }

  /** x | y */
  function Or(x: nat, y: nat): nat
    decreases x + y
  {
    if x == 0 && y == 0 then 0 else OrBit(x, y) + 2 * Or(x / 2, y / 2)
  }

  lemma {:induction false} OrZero(x: nat)
    ensures Or(0, x) == x && Or(x, 0) == x
  {
    if x > 0 {
      OrZero(x / 2);
    }
  }

  /** Or of a value below bit s with one shifted to bit s is their sum. */
  lemma {:induction false} OrDisjoint(x: nat, y: nat, s: nat)
    requires x < Pow2(s)
    ensures Or(x, y * Pow2(s)) == x + y * Pow2(s)
  {
    if s == 0 {
      OrZero(y);
    } else {
      var z := y * Pow2(s - 1);
      assert y * Pow2(s) == 2 * z;
      OrDisjoint(x / 2, y, s - 1);
      if x == 0 && z == 0 {
      } else {
        assert (2 * z) / 2 == z && (2 * z) % 2 == 0;
      }
    }
  }

  /** Digits in base 2^w, the first one lowest. */
  function Value(c: seq<nat>, w: nat): nat {
    if |c| == 0 then 0 else c[0] % Pow2(w) + Pow2(w) * Value(c[1..], w)
  }

  /** (2^w)^n */
  function Base(w: nat, n: nat): (r: nat)
    ensures r >= 1
  {
    if n == 0 then 1 else Pow2(w) * Base(w, n - 1)
  }

  lemma {:induction false} BaseIsPow2(w: nat, n: nat)
    ensures Base(w, n) == Pow2(w * n)
  {
    if n == 0 {
      assert w * n == 0;
    } else {
      BaseIsPow2(w, n - 1);
      assert w * n == w + w * (n - 1);
      Pow2Add(w, w * (n - 1));
    }
  }

  lemma {:induction false} ValueBelow(c: seq<nat>, w: nat)
    ensures Value(c, w) < Base(w, |c|)
  {
    hide Pow2;
    if |c| > 0 {
      ValueBelow(c[1..], w);
      DigitBelow(c[0] % Pow2(w), Pow2(w), Value(c[1..], w), Base(w, |c| - 1));
    }
  }

  lemma DigitBelow(d: nat, p: nat, v: nat, b: nat)
    requires d < p && v < b
    ensures d + p * v < p * b
  {
    assert p * v + p == p * (v + 1);
    MulLe(v + 1, b, p);
  }

  lemma {:induction false} ValueAppend(c: seq<nat>, w: nat, d: nat)
    ensures Value(c + [d], w) == Value(c, w) + (d % Pow2(w)) * Base(w, |c|)
  {
    hide Pow2;
    if |c| == 0 {
      assert (c + [d])[1..] == [];
    } else {
      assert (c + [d])[1..] == c[1..] + [d];
      ValueAppend(c[1..], w, d);
      ScaledSum(Pow2(w), Value(c[1..], w), d % Pow2(w), Base(w, |c| - 1));
    }
  }

  lemma ScaledSum(p: nat, v: nat, d: nat, q: nat)
    ensures p * (v + d * q) == p * v + d * (p * q)
  {
  }

  /** Shifting right by t digits and masking gives digit t. */
  lemma {:induction false} DigitAt(c: seq<nat>, w: nat, t: nat)
    requires t < |c|
    ensures Value(c, w) / Base(w, t) % Pow2(w) == c[t] % Pow2(w)
  {
    hide Pow2;
    var p, rest := Pow2(w), Value(c[1..], w);
    LowDigit(c[0] % p, p, rest);
    if t > 0 {
      DigitAt(c[1..], w, t - 1);
      DivTwice(Value(c, w), p, Base(w, t - 1));
    }
  }

  lemma LowDigit(d: nat, p: nat, rest: nat)
    requires d < p
    ensures (d + p * rest) % p == d && (d + p * rest) / p == rest
  {
    DivUnique(d + p * rest, rest, p);
  }

  lemma DivTwice(x: nat, a: nat, b: nat)
    requires a >= 1 && b >= 1
    ensures a * b >= 1 && x / (a * b) == x / a / b
  {
    var y, r := x / a, x % a;
    var z, s := y / b, y % b;
    DivMod(x, a);
    DivMod(y, b);
    MulLe(1, b, a);
    NestedQuotient(x, a, b, y, r, z, s);
    DivUnique(x, z, a * b);
  }

  lemma DivMod(x: nat, d: nat)
    requires d >= 1
    ensures x == x / d * d + x % d && x % d < d
  {
  }

  lemma NestedQuotient(x: nat, a: nat, b: nat, y: nat, r: nat, z: nat, s: nat)
    requires x == y * a + r && r < a && y == z * b + s && s < b
    ensures z * (a * b) <= x < (z + 1) * (a * b)
  {
    Distribute(z * b, s, a);
    MulLe(s + 1, b, a);
    Distribute(s, 1, a);
    Distribute(z, 1, a * b);
    Product(z, b, a);
  }

  lemma Product(z: nat, b: nat, a: nat)
    ensures z * b * a == z * (a * b)
  {
  }

  /** What word k holds after packing: digits k * per, .. as far as there are any. */
  function PackedWord(c: seq<nat>, w: nat, k: nat): nat
    requires w >= 1
  {
    Value(c[Least(k * PerWord(w), |c|)..Least((k + 1) * PerWord(w), |c|)], w)
  }

  function Least(a: nat, b: nat): (m: nat)
    ensures m <= a && m <= b && (m == a || m == b)
  {
    if a < b then a else b
  }

  function WordsFor(p: nat, w: nat): nat {
    (p * w + 31) / 32
  }

  /** pack_coefficients_words: the offset advances by w and wraps at 32, no division in the loop. */
  method Pack(c: seq<nat>, w: nat, words: array<nat>) returns (count: nat)
    requires IsWidth(w) && |c| <= WORDS * PerWord(w) && words.Length == WORDS
    modifies words
    ensures count == WordsFor(|c|, w) <= WORDS
    ensures forall k :: 0 <= k < WORDS ==> words[k] == PackedWord(c, w, k)
    ensures Packs(words[..count], c, w)
  {
    hide Pow2, Or, PackedWord, PerWord, WordsFor, Cursor, Value;
    var per := PerWord(w);
    PerFacts(w);
    var i := 0;
    while i < WORDS
      invariant i <= WORDS && forall k :: 0 <= k < i ==> words[k] == PackedWord(c[..0], w, k)
    {
      NothingPacked(c, w, i);
      words[i] := 0;
      i := i + 1;
    }
    var index: nat, shift: nat := 0, 0;
    i := 0;
    CursorStart(w);
    while i < |c|
      invariant i <= |c| && Cursor(w, i, index, shift)
      invariant forall k :: 0 <= k < WORDS ==> words[k] == PackedWord(c[..i], w, k)
    {
      CursorInRange(c, w, i, index, shift);
      PackStep(c, w, i, index, shift);
      forall k | 0 <= k < WORDS && k != index
        ensures PackedWord(c[..i + 1], w, k) == PackedWord(c[..i], w, k)
      {
        OtherWord(c, w, i, index, shift, k);
      }
      words[index] := Or(words[index], (c[i] % Pow2(w)) * Pow2(shift));
      CursorStep(w, i, index, shift);
      shift := shift + w;
      i := i + 1;
      if shift >= 32 {
        shift := shift - 32;
        index := index + 1;
      }
    }
    assert c[..i] == c;
    CountAgrees(|c|, w);
    count := (|c| + per - 1) / per;
  }

  lemma PerFacts(w: nat)
    requires IsWidth(w)
    ensures PerWord(w) >= 1 && PerWord(w) * w == 32
  {
  }

  /** The next digit goes to word `index` at bit `shift`. */
  ghost predicate Cursor(w: nat, i: nat, index: nat, shift: nat)
    requires w >= 1
  {
    index * PerWord(w) <= i < (index + 1) * PerWord(w) && shift == w * (i - index * PerWord(w))
  }

  lemma CursorStart(w: nat)
    requires IsWidth(w)
    ensures Cursor(w, 0, 0, 0)
  {
  }

  lemma CursorStep(w: nat, i: nat, index: nat, shift: nat)
    requires IsWidth(w) && Cursor(w, i, index, shift)
    ensures if shift + w >= 32 then Cursor(w, i + 1, index + 1, shift + w - 32) else Cursor(w, i + 1, index, shift + w)
  {
  }

  lemma CursorInRange(c: seq<nat>, w: nat, i: nat, index: nat, shift: nat)
    requires IsWidth(w) && Cursor(w, i, index, shift) && i < |c| <= WORDS * PerWord(w)
    ensures index < WORDS
  {
  }

  lemma NothingPacked(c: seq<nat>, w: nat, k: nat)
    requires IsWidth(w)
    ensures PackedWord(c[..0], w, k) == 0
  {
    assert forall a, b :: 0 <= a <= b <= 0 ==> c[..0][a..b] == [];
  }

  lemma OtherWord(c: seq<nat>, w: nat, i: nat, index: nat, shift: nat, k: nat)
    requires IsWidth(w) && Cursor(w, i, index, shift) && i < |c| && k != index
    ensures PackedWord(c[..i + 1], w, k) == PackedWord(c[..i], w, k)
  {
    hide Value, PerWord;
    var per := PerWord(w);
    PerFacts(w);
    Distribute(k, 1, per);
    if k < index {
      MulLe(k + 1, index, per);
    } else {
      MulLe(index + 1, k, per);
    }
    SameSlice(c, i, k * per, (k + 1) * per);
  }

  /** A window that does not contain position i does not see it. */
  lemma SameSlice(c: seq<nat>, i: nat, lo: nat, hi: nat)
    requires i < |c| && lo <= hi && (hi <= i || i + 1 <= lo)
    ensures c[..i + 1][Least(lo, i + 1)..Least(hi, i + 1)] == c[..i][Least(lo, i)..Least(hi, i)]
  {
  }

  lemma PackStep(c: seq<nat>, w: nat, i: nat, index: nat, shift: nat)
    requires IsWidth(w) && Cursor(w, i, index, shift) && i < |c|
    ensures Or(PackedWord(c[..i], w, index), (c[i] % Pow2(w)) * Pow2(shift)) == PackedWord(c[..i + 1], w, index)
  {
    hide Value, Pow2, Or;
    var lo := index * PerWord(w);
    var digits := c[lo..i];
    assert c[..i][lo..i] == digits && c[..i + 1][lo..i + 1] == digits + [c[i]];
    ValueBelow(digits, w);
    BaseIsPow2(w, |digits|);
    OrDisjoint(Value(digits, w), c[i] % Pow2(w), shift);
    ValueAppend(digits, w, c[i]);
  }

  /** Every packed word is a 32-bit word. */
  lemma PackedWordFits(c: seq<nat>, w: nat, k: nat)
    requires IsWidth(w)
    ensures PackedWord(c, w, k) < 0x1_0000_0000
  {
    hide Value, Pow2, PerWord;
    PerFacts(w);
    var per := PerWord(w);
    assert (k + 1) * per == k * per + per;
    var digits := c[Least(k * per, |c|)..Least((k + 1) * per, |c|)];
    ValueBelow(digits, w);
    BaseIsPow2(w, |digits|);
    MulLe(|digits|, per, w);
    Pow2Monotone(w * |digits|, 32);
    assert Pow2(32) == 0x1_0000_0000 by { LargePowers(); }
  }

  lemma CountAgrees(p: nat, w: nat)
    requires IsWidth(w)
    ensures PerWord(w) >= 1 && (p + PerWord(w) - 1) / PerWord(w) == WordsFor(p, w)
    ensures p <= WORDS * PerWord(w) ==> WordsFor(p, w) <= WORDS
  {
  }

  /** The words hold digits c packed by Pack. */
  ghost predicate Packs(packed: seq<nat>, c: seq<nat>, w: nat)
    requires w >= 1
  {
    |packed| == WordsFor(|c|, w) && forall k :: 0 <= k < |packed| ==> packed[k] == PackedWord(c, w, k)
  }

  /** The read-back loop of lms_mmio_msg_q_coef: digit i is in word i * w / 32 at bit i * w % 32. Words that hold packed
      digits give every digit back, masked to w bits. */
  method Unpack(packed: seq<nat>, p: nat, w: nat, ghost digits: seq<nat>) returns (c: seq<nat>)
    requires IsWidth(w) && p * w <= 32 * |packed|
    ensures |c| == p
    ensures forall i :: 0 <= i < p ==> c[i] == UnpackedDigit(packed, w, i)
    ensures Packs(packed, digits, w) && p == |digits| ==> forall i :: 0 <= i < p ==> c[i] == digits[i] % Pow2(w)
  {
    hide Packs;
    c := [];
    while |c| < p
      invariant |c| <= p && forall i :: 0 <= i < |c| ==> c[i] == UnpackedDigit(packed, w, i)
    {
      var bit := |c| * w;
      c := c + [packed[bit / 32] / Pow2(bit % 32) % Pow2(w)];
    }
    if Packs(packed, digits, w) && p == |digits| {
      forall i | 0 <= i < p
        ensures c[i] == digits[i] % Pow2(w)
      {
        PackUnpack(digits, w, packed, i);
      }
    }
  }

  function UnpackedDigit(packed: seq<nat>, w: nat, i: nat): nat
    requires i * w / 32 < |packed|
  {
    packed[i * w / 32] / Pow2(i * w % 32) % Pow2(w)
  }

  /** Unpacking the packed words gives every digit back, masked to w bits, and reads none beyond the count. */
  lemma PackUnpack(c: seq<nat>, w: nat, packed: seq<nat>, i: nat)
    requires IsWidth(w) && i < |c| && Packs(packed, c, w)
    ensures i * w / 32 < |packed|
    ensures UnpackedDigit(packed, w, i) == c[i] % Pow2(w)
  {
    hide Value, Pow2, PackedWord;
    var per := PerWord(w);
    Position(i, w);
    var k, t := i / per, i % per;
    assert packed[k] == PackedWord(c, w, k);
    PackedDigit(c, w, k, t);
  }

  lemma Position(i: nat, w: nat)
    requires IsWidth(w)
    ensures PerWord(w) >= 1 && i * w / 32 == i / PerWord(w) && i * w % 32 == w * (i % PerWord(w))
    ensures i == (i / PerWord(w)) * PerWord(w) + i % PerWord(w)
  {
    if w == 1 {
    } else if w == 2 {
      Split(i, 16, 2);
    } else if w == 4 {
      Split(i, 8, 4);
    } else {
      Split(i, 4, 8);
    }
  }

  lemma Split(i: nat, per: nat, w: nat)
    requires per in {4, 8, 16} && per * w == 32
    ensures i * w / 32 == i / per && i * w % 32 == w * (i % per) && i == (i / per) * per + i % per
  {
    var k, t := i / per, i % per;
    assert i == k * per + t;
    assert i * w == k * (per * w) + w * t;
    MulLe(t + 1, per, w);
    DivUnique(i * w, k, 32);
  }

  lemma PackedDigit(c: seq<nat>, w: nat, k: nat, t: nat)
    requires IsWidth(w) && t < PerWord(w) && k * PerWord(w) + t < |c|
    ensures PackedWord(c, w, k) / Pow2(w * t) % Pow2(w) == c[k * PerWord(w) + t] % Pow2(w)
  {
    hide Value, Pow2;
    var per := PerWord(w);
    var lo, hi := Least(k * per, |c|), Least((k + 1) * per, |c|);
    assert (k + 1) * per == k * per + per;
    DigitAt(c[lo..hi], w, t);
    BaseIsPow2(w, t);
  }
}
