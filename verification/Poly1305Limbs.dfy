// The limb arithmetic of sum_generic.go: 64-bit words with carries, a partial
// reduction modulo 2^130 - 5 and a constant-time final subtraction.
module Poly1305Limbs {
  import opened Bits
  import opened Bytes
  import opened Poly1305Spec

  const B128: int := B64 * B64

  const R_MASK0: u64 := 0x0FFFFFFC0FFFFFFF
  const R_MASK1: u64 := 0x0FFFFFFC0FFFFFFC
  const MASK_LOW_2_BITS: u64 := 3
  const MASK_NOT_LOW_2_BITS: u64 := 0xFFFF_FFFF_FFFF_FFFC
  const P0: u64 := 0xFFFFFFFFFFFFFFFB
  const P1: u64 := 0xFFFFFFFFFFFFFFFF
  const P2: u64 := 3

  /** A 128-bit number in two words. */
  datatype Uint128 = Uint128(lo: u64, hi: u64) {
    function Value(): nat { lo + hi * B64 }
  }

  function Limbs(h0: u64, h1: u64, h2: u64): nat { h0 + h1 * B64 + h2 * B128 }

  function BitsAdd64(x: u64, y: u64, carry: u64): (r: (u64, u64))
    requires carry <= 1
    ensures r.0 + r.1 * B64 == x + y + carry && r.1 <= 1
  {
    ((x + y + carry) % B64, (x + y + carry) / B64)
  }

  function BitsSub64(x: u64, y: u64, borrow: u64): (r: (u64, u64))
    requires borrow <= 1
    ensures r.0 == x - y - borrow + r.1 * B64 && r.1 <= 1
  {
    ((x - y - borrow) % B64, if x < y + borrow then 1 else 0)
  }

  lemma ProductBound(a: nat, b: nat, m: nat, n: nat)
    requires a <= m && b <= n
    ensures 0 <= a * b <= m * n
  {
    ScaleMonotone(a, m, b);
    ScaleMonotone(b, n, m);
    assert b * m == m * b && n * m == m * n;
  }

  function Mul64(a: u64, b: u64): (r: Uint128)
    ensures r.Value() == a * b
  {
    ProductBound(a, b, B64 - 1, B64 - 1);
    var p: nat := a * b;
    Uint128(p % B64, p / B64)
  }

  /** The panic of the source is the carry out of the high words, which the requires excludes. */
  function Add128(a: Uint128, b: Uint128): (r: Uint128)
    requires a.Value() + b.Value() < B128
    ensures r.Value() == a.Value() + b.Value()
  {
    var (lo, c) := BitsAdd64(a.lo, b.lo, 0);
    var (hi, c') := BitsAdd64(a.hi, b.hi, c);
    assert c' == 0;
    Uint128(lo, hi)
  }

  lemma LowTwoBits(x: u64)
    ensures And(x, MASK_LOW_2_BITS) == x % 4
    ensures And(x, MASK_NOT_LOW_2_BITS) == x - x % 4
  {
    PowersOfTwo();
    AndOnes(x, 2, 4);
    AndHigh(x / 4, x % 4, 2, 62);
    ShlIsProduct(x / 4, 2, 4);
    ShlIsProduct(Pow2(62) - 1, 2, 4);
  }

  lemma OrAbove62(high: nat, low: nat)
    requires low < 0x4000_0000_0000_0000
    ensures Or(low, high * 0x4000_0000_0000_0000) == high * 0x4000_0000_0000_0000 + low
  {
    hide Bitwise, Or;
    PowersOfTwo();
    OrDisjoint(high, low, 62);
    ShlIsProduct(high, 62, 0x4000_0000_0000_0000);
  }

  lemma ShiftedWord(lo: u64, hi: u64)
    ensures Or(lo / 4, And(hi, 3) * 0x4000_0000_0000_0000 % B64) == lo / 4 + hi % 4 * 0x4000_0000_0000_0000
  {
    hide Bitwise, And, Or;
    LowTwoBits(hi);
    OrAbove62(hi % 4, lo / 4);
  }

  function ShiftRightBy2(a: Uint128): (r: Uint128)
    ensures r.Value() == a.Value() / 4
  {
    ShiftedWord(a.lo, a.hi);
    Uint128(Or(a.lo / 4, And(a.hi, 3) * 0x4000_0000_0000_0000 % B64), a.hi / 4)
  }

  function Not64(x: u64): u64 { B64 - 1 - x }

  function Dec64(x: u64): u64 { (x - 1) % B64 }

  /** Selects without a branch: ^(v-1)&x | (v-1)&y. */
  function Select64(v: u64, x: u64, y: u64): (r: u64)
    requires v <= 1
    ensures r == if v == 1 then x else y
  {
    AllOrNothing(x, y);
    Or(And(Not64(Dec64(v)), x), And(Dec64(v), y))
  }

  lemma AllOrNothing(x: u64, y: u64)
    ensures Or(And(B64 - 1, x), And(0, y)) == x
    ensures Or(And(0, x), And(B64 - 1, y)) == y
  {
    hide Bitwise;
    PowersOfTwo();
    AndOnes(x, 64, B64); AndOnes(y, 64, B64);
    BitwiseSymmetric(AND, B64 - 1, x); BitwiseSymmetric(AND, B64 - 1, y);
    WithZero(x); WithZero(y);
  }

  lemma SchoolBook(h0: nat, h1: nat, h2: nat, r0: nat, r1: nat, b: nat)
    ensures (h0 + h1 * b + h2 * (b * b)) * (r0 + r1 * b)
         == h0 * r0 + (h1 * r0 + h0 * r1) * b + (h2 * r0 + h1 * r1) * (b * b) + (h2 * r1) * (b * b * b)
  {
    calc {
      (h0 + h1 * b + h2 * (b * b)) * (r0 + r1 * b);
      (h0 + h1 * b + h2 * (b * b)) * r0 + (h0 + h1 * b + h2 * (b * b)) * (r1 * b);
      h0 * r0 + (h1 * r0) * b + (h2 * r0) * (b * b) + (h0 * r1) * b + (h1 * r1) * (b * b) + (h2 * r1) * (b * b * b);
    }
  }

  lemma ModPlusMultiple(x: int, k: int, d: int)
    requires d > 0
    ensures (x + k * d) % d == x % d
  {
    var q, r := x / d, x % d;
    assert x + k * d == (q + k) * d + r;
    DivModUnique(x + k * d, d, q + k, r);
  }

  /** Columns of double words, then one carry chain: the product of h and r in four words. */
  method Multiply(h0: u64, h1: u64, h2: u64, r0: u64, r1: u64) returns (t0: u64, t1: u64, t2: u64, t3: u64)
    requires h2 <= 7 && r0 <= R_MASK0 && r1 <= R_MASK1
    ensures t0 + t1 * B64 + t2 * B128 + t3 * (B128 * B64) == Limbs(h0, h1, h2) * (r0 + r1 * B64)
  {
    var h0r0, h1r0, h2r0 := Mul64(h0, r0), Mul64(h1, r0), Mul64(h2, r0);
    var h0r1, h1r1, h2r1 := Mul64(h0, r1), Mul64(h1, r1), Mul64(h2, r1);
    ProductBound(h1, r0, B64 - 1, R_MASK0);
    ProductBound(h0, r1, B64 - 1, R_MASK1);
    ProductBound(h1, r1, B64 - 1, R_MASK1);
    ProductBound(h2, r0, 7, R_MASK0);
    ProductBound(h2, r1, 7, R_MASK1);
    // The two overflow panics of the source, and the carry it discards, never happen.
    assert h2r0.hi == 0;
    assert h2r1.hi == 0;

    var m0 := h0r0;
    var m1 := Add128(h1r0, h0r1);
    var m2 := Add128(h2r0, h1r1);
    var m3 := h2r1;

    t0, t1, t2, t3 := Propagate(m0, m1, m2, m3);
    SchoolBook(h0, h1, h2, r0, r1, B64);
  }

  /** The carry chain over the columns. The carry out of the last word, which the source drops, is 0. */
  method Propagate(m0: Uint128, m1: Uint128, m2: Uint128, m3: Uint128) returns (t0: u64, t1: u64, t2: u64, t3: u64)
    requires m3.hi == 0 && m3.lo + m2.hi < B64 - 1
    ensures t0 + t1 * B64 + t2 * B128 + t3 * (B128 * B64)
         == m0.Value() + m1.Value() * B64 + m2.Value() * B128 + m3.Value() * (B128 * B64)
  {
    t0 := m0.lo;
    var x1 := BitsAdd64(m1.lo, m0.hi, 0);
    var x2 := BitsAdd64(m2.lo, m1.hi, x1.1);
    var x3 := BitsAdd64(m3.lo, m2.hi, x2.1);
    assert x3.1 == 0;
    t1, t2, t3 := x1.0, x2.0, x3.0;
  }

  /** One multiplication of the accumulator by r with its partial reduction. */
  method MulReduce(h0: u64, h1: u64, h2: u64, r0: u64, r1: u64) returns (h0': u64, h1': u64, h2': u64)
    requires h2 <= 7 && r0 <= R_MASK0 && r1 <= R_MASK1
    ensures h2' <= 5
    ensures Limbs(h0', h1', h2') % P == Limbs(h0, h1, h2) * (r0 + r1 * B64) % P
  {
    var t0, t1, t2, t3 := Multiply(h0, h1, h2, r0, r1);
    h0', h1', h2' := FoldCarry(t0, t1, t2, t3);
  }

  lemma Crandall(t0: u64, t1: u64, t2: u64, t3: u64, h: nat)
    requires h == t0 + t1 * B64 + (t2 % 4) * B128 + 5 * (t2 / 4 + t3 * 0x4000_0000_0000_0000)
    ensures h % P == (t0 + t1 * B64 + t2 * B128 + t3 * (B128 * B64)) % P
  {
    var carry := t2 / 4 + t3 * 0x4000_0000_0000_0000;
    ModPlusMultiple(h, carry, P);
    assert h + carry * P == t0 + t1 * B64 + t2 * B128 + t3 * (B128 * B64);
  }

  /** Replaces the part above 2^130 by five times itself, in two additions of cc and cc>>2. */
  method FoldCarry(t0: u64, t1: u64, t2: u64, t3: u64) returns (h0: u64, h1: u64, h2: u64)
    ensures h2 <= 5
    ensures Limbs(h0, h1, h2) % P == (t0 + t1 * B64 + t2 * B128 + t3 * (B128 * B64)) % P
  {
    hide Bitwise, And;
    LowTwoBits(t2);
    h0, h1, h2 := t0, t1, And(t2, MASK_LOW_2_BITS);
    var cc := Uint128(And(t2, MASK_NOT_LOW_2_BITS), t3);
    h0, h1, h2 := AddUint128(h0, h1, h2, cc);
    cc := ShiftRightBy2(cc);
    h0, h1, h2 := AddUint128(h0, h1, h2, cc);
    Crandall(t0, t1, t2, t3, Limbs(h0, h1, h2));
  }

  /** h += cc through the carry chain of the source. */
  method AddUint128(h0: u64, h1: u64, h2: u64, cc: Uint128) returns (h0': u64, h1': u64, h2': u64)
    requires h2 <= 6
    ensures Limbs(h0', h1', h2') == Limbs(h0, h1, h2) + cc.Value() && h2' <= h2 + 1
  {
    var (x0, c) := BitsAdd64(h0, cc.lo, 0);
    var (x1, c') := BitsAdd64(h1, cc.hi, c);
    h0', h1', h2' := x0, x1, h2 + c';
  }

  /** Subtracts 2^130 - 5 once if h is that large; the low 128 bits of the result. */
  method Reduce(h0: u64, h1: u64, h2: u64) returns (x0: u64, x1: u64)
    requires Limbs(h0, h1, h2) < 2 * P
    ensures x0 + x1 * B64 == Limbs(h0, h1, h2) % P % B128
  {
    hide Select64, BitsSub64;
    var d0 := BitsSub64(h0, P0, 0);
    var d1 := BitsSub64(h1, P1, d0.1);
    var d2 := BitsSub64(h2, P2, d1.1);
    var b := d2.1;
    x0 := Select64(b, h0, d0.0);
    x1 := Select64(b, h1, d1.0);
    ghost var h := Limbs(h0, h1, h2);
    assert Limbs(d0.0, d1.0, d2.0) == h - P + b * (B128 * B64);
    if b == 1 {
      DivModUnique(h, P, 0, h);
      DivModUnique(h, B128, h2, x0 + x1 * B64);
    } else {
      DivModUnique(h, P, 1, h - P);
      DivModUnique(h - P, B128, d2.0, x0 + x1 * B64);
    }
  }

  /** The tag: h reduced modulo 2^130 - 5, plus s, modulo 2^128. */
  method Finalize(h0: u64, h1: u64, h2: u64, s0: u64, s1: u64) returns (out: seq<byte>)
    requires Limbs(h0, h1, h2) < 2 * P
    ensures out == ToLE(Limbs(h0, h1, h2) % P + s0 + s1 * B64, TAG_SIZE)
  {
    hide ToLE;
    var x0, x1 := Reduce(h0, h1, h2);
    var y0 := BitsAdd64(x0, s0, 0);
    var y1 := BitsAdd64(x1, s1, y0.1);
    out := ToLE(y0.0, 8) + ToLE(y1.0, 8);
    TwoWords(y0.0, y1.0);
    ghost var sum := Limbs(h0, h1, h2) % P + s0 + s1 * B64;
    assert y0.0 + y1.0 * B64 == sum % B128 by {
      DivMod(Limbs(h0, h1, h2) % P, B128);
      DivModUnique(sum, B128, (Limbs(h0, h1, h2) % P) / B128 + y1.1, y0.0 + y1.0 * B64);
    }
    ToLEModulo(sum, TAG_SIZE);
  }

  lemma TwoWords(lo: u64, hi: u64)
    ensures ToLE(lo, 8) + ToLE(hi, 8) == ToLE(lo + hi * B64, TAG_SIZE)
    ensures Pow2(8 * TAG_SIZE) == B128
  {
    PowersOfTwo();
    Pow2Sum(64, 64);
    ToLEAppend(lo, hi, 8, 8, lo + B64 * hi);
  }
}
