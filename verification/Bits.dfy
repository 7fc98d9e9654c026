// Machine words as natural numbers, and the bitwise operators of Go on them.
// A word of k bits is a number below Pow2(k); operators are defined bit by bit,
// so every mask and shift used by the source has an arithmetic meaning proved here.
module Bits {
  type byte = x: int | 0 <= x < 0x100
  type u16 = x: int | 0 <= x < 0x1_0000
  type u32 = x: int | 0 <= x < 0x1_0000_0000
  type u64 = x: int | 0 <= x < 0x1_0000_0000_0000_0000

  const B32: int := 0x1_0000_0000
  const B64: int := 0x1_0000_0000_0000_0000

  function Min(a: nat, b: nat): nat { if a <= b then a else b }

  function Pow2(k: nat): (p: nat)
    ensures p >= 1
  {
    if k == 0 then 1 else 2 * Pow2(k - 1)
  }

  datatype Operator = AND | OR | XOR

  function BitOf(op: Operator, a: nat, b: nat): (r: nat)
    requires a < 2 && b < 2
    ensures r < 2
  {
    match op
    case AND => if a == 1 && b == 1 then 1 else 0
    case OR => if a == 1 || b == 1 then 1 else 0
    case XOR => if a == b then 0 else 1
  }

  /** The operator applied to every pair of bits of x and y. */
  function Bitwise(op: Operator, x: nat, y: nat): nat
    decreases x + y
  {
    if x == 0 && y == 0 then 0
    else 2 * Bitwise(op, x / 2, y / 2) + BitOf(op, x % 2, y % 2)
  }

  lemma {:induction false} BitwiseBound(op: Operator, x: nat, y: nat, k: nat)
    requires x < Pow2(k) && y < Pow2(k)
    ensures Bitwise(op, x, y) < Pow2(k)
  {
    if k > 0 {
      BitwiseBound(op, x / 2, y / 2, k - 1);
    }
  }

  /** x << k on unbounded numbers. */
  function Shl(x: nat, k: nat): (r: nat)
    ensures x == 0 ==> r == 0
  {
    if k == 0 then x else 2 * Shl(x, k - 1)
  }

  /** x >> k. */
  function Shr(x: nat, k: nat): nat
  {
    if k == 0 then x else Shr(x, k - 1) / 2
  }

  lemma {:induction false} ShlIsProduct(x: nat, k: nat, p: nat)
    requires p == Pow2(k)
    ensures Shl(x, k) == x * p
  {
    if k > 0 {
      ShlIsProduct(x, k - 1, Pow2(k - 1));
      Double(x, Pow2(k - 1));
    }
  }

  lemma Unfold(op: Operator, x: nat, y: nat)
    ensures Bitwise(op, x, y) == 2 * Bitwise(op, x / 2, y / 2) + BitOf(op, x % 2, y % 2)
  {
  }

  lemma Halves(high: nat, low: nat, k: nat)
    requires k > 0
    ensures Shl(high, k) == 2 * Shl(high, k - 1) && Pow2(k) == 2 * Pow2(k - 1)
    ensures (Shl(high, k) + low) / 2 == Shl(high, k - 1) + low / 2 && (Shl(high, k) + low) % 2 == low % 2
  {
  }

  /** Bitwise operators act on the high and on the low part of a word separately. */
  lemma {:induction false} BitwiseSplit(op: Operator, x1: nat, x0: nat, y1: nat, y0: nat, k: nat)
    requires x0 < Pow2(k) && y0 < Pow2(k)
    ensures Bitwise(op, Shl(x1, k) + x0, Shl(y1, k) + y0) == Shl(Bitwise(op, x1, y1), k) + Bitwise(op, x0, y0)
  {
    hide Bitwise, BitOf, Shl, Pow2;
    if k > 0 {
      Halves(x1, x0, k);
      Halves(y1, y0, k);
      Halves(Bitwise(op, x1, y1), 0, k);
      Unfold(op, Shl(x1, k) + x0, Shl(y1, k) + y0);
      Unfold(op, x0, y0);
      BitwiseSplit(op, x1, x0 / 2, y1, y0 / 2, k - 1);
    } else {
      Unshifted(op, x1, y1);
    }
  }

  lemma Unshifted(op: Operator, x: nat, y: nat)
    ensures Pow2(0) == 1 && Bitwise(op, 0, 0) == 0
    ensures Shl(x, 0) == x && Shl(y, 0) == y && Shl(Bitwise(op, x, y), 0) == Bitwise(op, x, y)
  {
  }

  lemma Double(a: nat, p: nat)
    ensures 2 * (a * p) == a * (2 * p)
  {
  }

  lemma {:induction false} XorInvolution(x: nat, y: nat)
    ensures Bitwise(XOR, Bitwise(XOR, x, y), y) == x
    decreases x + y
  {
    if x != 0 || y != 0 {
      XorInvolution(x / 2, y / 2);
      var z := Bitwise(XOR, x, y);
      assert z / 2 == Bitwise(XOR, x / 2, y / 2);
      assert z % 2 == BitOf(XOR, x % 2, y % 2);
    }
  }

  lemma {:induction false} BitwiseSymmetric(op: Operator, x: nat, y: nat)
    ensures Bitwise(op, x, y) == Bitwise(op, y, x)
    decreases x + y
  {
    if x != 0 || y != 0 {
      BitwiseSymmetric(op, x / 2, y / 2);
    }
  }

  lemma {:induction false} WithZero(x: nat)
    ensures Bitwise(AND, x, 0) == 0 == Bitwise(AND, 0, x)
    ensures Bitwise(OR, x, 0) == x == Bitwise(OR, 0, x)
    ensures Bitwise(XOR, x, 0) == x == Bitwise(XOR, 0, x)
  {
    if x != 0 {
      WithZero(x / 2);
    }
  }

  /** Masking with k one bits is the remainder modulo 2^k. */
  lemma {:induction false} AndOnes(x: nat, k: nat, p: nat)
    requires p == Pow2(k)
    ensures Bitwise(AND, x, p - 1) == x % p
  {
    if k == 0 {
      WithZero(x);
    } else {
      var h := Pow2(k - 1);
      AndOnes(x / 2, k - 1, h);
      ModHalf(x, h);
      assert (p - 1) / 2 == h - 1;
    }
  }

  lemma {:induction false} AndOnesFits(x: nat, k: nat)
    requires x < Pow2(k)
    ensures Bitwise(AND, x, Pow2(k) - 1) == x
  {
    if k > 0 {
      AndOnesFits(x / 2, k - 1);
    }
  }

  lemma ModHalf(x: nat, p: nat)
    requires p > 0
    ensures x % (2 * p) == 2 * ((x / 2) % p) + x % 2
  {
    var q, r := (x / 2) / p, (x / 2) % p;
    assert x / 2 == q * p + r;
    assert x == q * (2 * p) + (2 * r + x % 2) by { Double(q, p); }
    DivModUnique(x, 2 * p, q, 2 * r + x % 2);
  }

  lemma DivModUnique(x: int, d: int, q: int, r: int)
    requires d > 0 && x == q * d + r && 0 <= r < d
    ensures x / d == q && x % d == r
  {
    var q', r' := x / d, x % d;
    assert x == q' * d + r';
    if q > q' {
      ScaleMonotone(q' + 1, q, d);
    } else if q < q' {
      ScaleMonotone(q + 1, q', d);
    }
  }

  lemma ScaleMonotone(a: int, b: int, d: int)
    requires a <= b && d >= 0
    ensures a * d <= b * d
    ensures (a - 1) * d == a * d - d && (b - 1) * d == b * d - d
  {
  }

  lemma {:induction false} AndAtMost(x: nat, y: nat)
    ensures Bitwise(AND, x, y) <= x && Bitwise(AND, x, y) <= y
    decreases x + y
  {
    if x != 0 || y != 0 {
      AndAtMost(x / 2, y / 2);
    }
  }

  function And(x: nat, y: nat): nat { Bitwise(AND, x, y) }
  function Or(x: nat, y: nat): nat { Bitwise(OR, x, y) }
  function Xor(x: nat, y: nat): nat { Bitwise(XOR, x, y) }

  /** A shifted word joined by | with a word that fits below it. */
  lemma OrDisjoint(high: nat, low: nat, k: nat)
    requires low < Pow2(k)
    ensures Or(Shl(high, k), low) == Shl(high, k) + low == Or(low, Shl(high, k))
  {
    hide Bitwise;
    BitwiseSplit(OR, high, 0, 0, low, k);
    BitwiseSymmetric(OR, Shl(high, k), low);
    WithZero(high);
    WithZero(low);
  }

  lemma {:induction false} Pow2Sum(a: nat, b: nat)
    ensures Pow2(a + b) == Pow2(a) * Pow2(b)
  {
    if a > 0 {
      Pow2Sum(a - 1, b);
      Double(Pow2(b), Pow2(a - 1));
      assert Pow2(b) * Pow2(a) == Pow2(a) * Pow2(b);
    }
  }

  lemma DivMod(x: nat, d: nat)
    requires d > 0
    ensures x == (x / d) * d + x % d
  {
  }

  /** Masking with n one bits above k zero bits clears the low k bits. */
  lemma AndHigh(high: nat, low: nat, k: nat, n: nat)
    requires low < Pow2(k) && high < Pow2(n)
    ensures And(Shl(high, k) + low, Shl(Pow2(n) - 1, k)) == Shl(high, k)
  {
    BitwiseSplit(AND, high, low, Pow2(n) - 1, 0, k);
    AndOnesFits(high, n);
    WithZero(low);
  }

  lemma PowersOfTwo()
    ensures Pow2(1) == 2 && Pow2(2) == 4 && Pow2(7) == 128 && Pow2(8) == 0x100 && Pow2(16) == 0x1_0000
    ensures Pow2(24) == 0x100_0000 && Pow2(32) == B32 && Pow2(62) == 0x4000_0000_0000_0000 && Pow2(64) == B64
  {
    assert Pow2(8) == 0x100;
    assert Pow2(16) == 0x1_0000;
    assert Pow2(24) == 0x100_0000;
    assert Pow2(32) == 0x1_0000_0000;
    assert Pow2(40) == 0x100_0000_0000;
    assert Pow2(48) == 0x1_0000_0000_0000;
    assert Pow2(56) == 0x100_0000_0000_0000;
    assert Pow2(62) == 0x4000_0000_0000_0000;
  }

  function XorByte(x: byte, y: byte): byte
  {
    PowersOfTwo(); BitwiseBound(XOR, x, y, 8);
    Xor(x, y)
  }

  function Xor32(x: u32, y: u32): u32
  {
    PowersOfTwo(); BitwiseBound(XOR, x, y, 32);
    Xor(x, y)
  }

  function Add32(x: u32, y: u32): u32 { (x + y) % B32 }

  function Sub32(x: u32, y: u32): u32 { (x - y) % B32 }
}
