/** Machine words and bytes: powers of two, shifts, and the big-endian fields of RFC 8554. */
module Words {

  type byte = x: int | 0 <= x < 256

  type Bytes = seq<byte>

  datatype Option<T> = None | Some(value: T)

  /** An n = 32 byte hash value. */
  type Digest = s: Bytes | |s| == 32 witness seq(32, _ => 0)

  function ZeroDigest(): Digest {
    seq(32, _ => 0)
  }

  /** 1 << n */
  function Pow2(n: nat): (r: nat)
    ensures r >= 1
  {
    if n == 0 then 1 else 2 * Pow2(n - 1)
  }

  /** x >> i */
  function Shr(x: nat, i: nat): nat {
    if i == 0 then x else Shr(x, i - 1) / 2
  }

  /** x ^ 1: the other child of the same parent in 1-based heap order. */
  function Sibling(x: nat): nat {
    if x % 2 == 0 then x + 1 else x - 1
  }

  lemma {:induction false} Pow2Add(a: nat, b: nat)
    ensures Pow2(a + b) == Pow2(a) * Pow2(b)
  {
    if b == 0 {
    } else {
      Pow2Add(a, b - 1);
      calc {
        Pow2(a + b);
        2 * Pow2(a + (b - 1));
        2 * (Pow2(a) * Pow2(b - 1));
        Pow2(a) * (2 * Pow2(b - 1));
        Pow2(a) * Pow2(b);
      }
    }
  }

  /** The other child stays between the same two even bounds. */
  lemma SiblingBetween(x: nat, lo: nat, hi: nat)
    requires 2 * lo <= x < 2 * hi
    ensures 2 * lo <= Sibling(x) < 2 * hi
  {
    var h := x / 2;
    assert x == 2 * h || x == 2 * h + 1;
  }

  lemma Pow2Step(a: nat)
    ensures Pow2(a + 1) == 2 * Pow2(a)
  {
  }

  lemma {:induction false} Pow2Monotone(a: nat, b: nat)
    requires a <= b
    ensures Pow2(a) <= Pow2(b)
  {
    if a < b {
      Pow2Monotone(a, b - 1);
    }
  }

  lemma Pow2Inverse(a: nat, b: nat)
    requires Pow2(a) < Pow2(b)
    ensures a < b
  {
    if b <= a {
      Pow2Monotone(b, a);
    }
  }

  lemma ShrNone(x: nat)
    ensures Shr(x, 0) == x
  {
  }

  lemma ShrStep(x: nat, i: nat)
    ensures Shr(x, i + 1) == Shr(x, i) / 2
  {
  }

  lemma {:induction false} ShrShr(x: nat, a: nat, b: nat)
    ensures Shr(Shr(x, a), b) == Shr(x, a + b)
  {
    if b == 0 {
    } else {
      ShrShr(x, a, b - 1);
    }
  }

  lemma Distribute(a: int, b: int, c: int)
    ensures (a + b) * c == a * c + b * c
  {
  }

  lemma HalveBounds(x: nat, y: nat, h: nat, p: nat)
    requires y == h + h || y == h + h + 1
    requires y * p <= x < (y + 1) * p
    ensures h * (p + p) <= x < (h + 1) * (p + p)
  {
    Distribute(p, p, h);
    Distribute(p, p, h + 1);
    Distribute(h, 1, p);
    Distribute(h, h, p);
    Distribute(y, 1, p);
    Distribute(h + h, 1, p);
  }

  /** Shifting right divides by the power of two, with the remainder below it. */
  lemma {:induction false} ShrIsDiv(x: nat, i: nat)
    ensures Shr(x, i) * Pow2(i) <= x < (Shr(x, i) + 1) * Pow2(i)
  {
    if i == 0 {
    } else {
      ShrIsDiv(x, i - 1);
      HalveBounds(x, Shr(x, i - 1), Shr(x, i), Pow2(i - 1));
    }
  }

  lemma MulLe(a: nat, b: nat, c: nat)
    requires a <= b
    ensures a * c <= b * c
  {
  }

  lemma {:induction false} ShrOfSum(m: nat, r: nat, i: nat)
    requires r < Pow2(i)
    ensures Shr(m * Pow2(i) + r, i) == m
  {
    var x := m * Pow2(i) + r;
    ShrIsDiv(x, i);
    var y := Shr(x, i);
    if y < m {
      MulLe(y + 1, m, Pow2(i));
    } else if y > m {
      MulLe(m + 1, y, Pow2(i));
    }
  }

  lemma ShrEqDiv(x: nat, i: nat)
    ensures Shr(x, i) == x / Pow2(i)
  {
    ShrIsDiv(x, i);
    DivUnique(x, Shr(x, i), Pow2(i));
  }

  lemma DivUnique(x: nat, q: nat, d: nat)
    requires d > 0 && q * d <= x < (q + 1) * d
    ensures x / d == q
  {
    Distribute(q, 1, d);
    var e := x / d;
    assert e * d + x % d == x;
    if e < q {
      MulLe(e + 1, q, d);
      Distribute(e, 1, d);
    } else if e > q {
      MulLe(q + 1, e, d);
    }
  }

  lemma {:induction false} ShrPow2Plus(a: nat, x: nat, i: nat)
    requires i <= a
    ensures Shr(Pow2(a) + x, i) == Pow2(a - i) + Shr(x, i)
  {
    if i > 0 {
      ShrPow2Plus(a, x, i - 1);
      assert Pow2(a - i + 1) == 2 * Pow2(a - i);
    }
  }

  lemma {:induction false} ShrBelow(x: nat, a: nat, i: nat)
    requires x < Pow2(a) && i <= a
    ensures Shr(x, i) < Pow2(a - i)
  {
    if i > 0 {
      ShrBelow(x, a, i - 1);
      assert Pow2(a - i + 1) == 2 * Pow2(a - i);
    }
  }

  lemma {:induction false} ShrMonotone(x: nat, y: nat, i: nat)
    requires x <= y
    ensures Shr(x, i) <= Shr(y, i)
  {
    if i > 0 {
      ShrMonotone(x, y, i - 1);
    }
  }

  /** A number whose top bit is bit a keeps its top bit when shifted. */
  lemma {:induction false} ShrRange(x: nat, a: nat, i: nat)
    requires i <= a
    requires Pow2(a) <= x < Pow2(a + 1)
    ensures Pow2(a - i) <= Shr(x, i) < Pow2(a - i + 1)
  {
    if i > 0 {
      ShrRange(x, a, i - 1);
      assert Pow2(a - i + 1) == 2 * Pow2(a - i);
      assert Pow2(a - i + 2) == 2 * Pow2(a - i + 1);
    }
  }

  lemma Powers()
    ensures Pow2(0) == 1 && Pow2(1) == 2 && Pow2(2) == 4 && Pow2(3) == 8 && Pow2(4) == 16
    ensures Pow2(5) == 32 && Pow2(6) == 64 && Pow2(7) == 128 && Pow2(8) == 256
  {
  }

  lemma LargePowers()
    ensures Pow2(9) == 512 && Pow2(25) == 0x200_0000
    ensures Pow2(32) == 0x1_0000_0000 && Pow2(64) == 0x1_0000_0000_0000_0000
  {
    Powers();
    Pow2Add(8, 1);
    Pow2Add(8, 8);
    Pow2Add(16, 9);
    Pow2Add(16, 16);
    Pow2Add(32, 32);
  }

  // ---- bytes ----

  function Fill(n: nat, v: byte): (b: Bytes)
    ensures |b| == n && forall i :: 0 <= i < n ==> b[i] == v
  {
    if n == 0 then [] else Fill(n - 1, v) + [v]
  }

  // ---- big-endian fields ----

  /** lms_store_u32 / put_be32 */
  function StoreU32(v: nat): (b: Bytes)
    ensures |b| == 4
  {
    [v / 0x100_0000 % 256, v / 0x1_0000 % 256, v / 0x100 % 256, v % 256]
  }

  /** lms_store_u16 / put_be16 */
  function StoreU16(v: nat): (b: Bytes)
    ensures |b| == 2
  {
    [v / 0x100 % 256, v % 256]
  }

  /** lms_load_u32 / get_be32 */
  function LoadU32(b: Bytes): (v: nat)
    requires |b| >= 4
    ensures v < 0x1_0000_0000
  {
    b[0] as int * 0x100_0000 + b[1] as int * 0x1_0000 + b[2] as int * 0x100 + b[3] as int
  }

  function LoadU16(b: Bytes): (v: nat)
    requires |b| >= 2
    ensures v < 0x1_0000
  {
    b[0] as int * 0x100 + b[1] as int
  }

  lemma U32RoundTrip(v: nat)
    requires v < 0x1_0000_0000
    ensures LoadU32(StoreU32(v)) == v
  {
    var a, b := v / 0x100, v / 0x1_0000;
    assert a / 0x100 == b && b / 0x100 == v / 0x100_0000;
    assert v == a * 0x100 + v % 256 && a == b * 0x100 + a % 256;
  }

  lemma U16RoundTrip(v: nat)
    requires v < 0x1_0000
    ensures LoadU16(StoreU16(v)) == v
  {
  }

  /** A field is read from its own bytes only. */
  lemma LoadFront(b: Bytes, p: Bytes)
    requires |p| == 4 && |b| >= 4 && b[..4] == p
    ensures LoadU32(b) == LoadU32(p)
  {
    assert forall i :: 0 <= i < 4 ==> b[i] == b[..4][i];
  }

  lemma LoadFront16(b: Bytes, p: Bytes)
    requires |p| == 2 && |b| >= 2 && b[..2] == p
    ensures LoadU16(b) == LoadU16(p)
  {
    assert forall i :: 0 <= i < 2 ==> b[i] == b[..2][i];
  }
}
