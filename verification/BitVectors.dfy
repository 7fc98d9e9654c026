// Words as bit vectors, and the arithmetic of Bits on their values. Facts about bit vectors and facts about numbers
// are kept in lemmas of their own.
module BitVectors {
  import opened Bits
  import opened Bytes
  import opened ChaCha20Spec

  function Bit(b: bv32): (r: nat)
    ensures r < 2
  {
    if b & 1 == 1 then 1 else 0
  }

  function Half(b: bv32): bv32 { b >> 1 }

  function XorB(b: bv32, c: bv32): bv32 { b ^ c }

  /** The bits of a sum, for carries k. */
  function SumB(b: bv32, c: bv32, k: bv32): bv32 { b ^ c ^ k }

  function Majority(b: bv32, c: bv32, k: bv32): bv32 { (b & c) | (b & k) | (c & k) }

  /** Under m, each bit of k after the first is the carry out of the position below. */
  predicate Carries(b: bv32, c: bv32, k: bv32, m: bv32) { k & m == ((Majority(b, c, k) << 1) | (k & 1)) & m }

  predicate SameUnder(x: bv32, y: bv32, m: bv32) { x & m == y & m }

  /** The value of the low n bits. */
  function Low(b: bv32, n: nat): nat
  {
    if n == 0 then 0 else Bit(b) + 2 * Low(Half(b), n - 1)
  }

  lemma LowStep(b: bv32, n: nat)
    requires n > 0
    ensures Low(b, n) == Bit(b) + 2 * Low(Half(b), n - 1)
    ensures Low(b, n) / 2 == Low(Half(b), n - 1) && Low(b, n) % 2 == Bit(b)
  {
    hide Bit, Half;
  }

  lemma NoneLow(b: bv32)
    ensures Low(b, 0) == 0 && Pow2(0) == 1 && Bitwise(XOR, 0, 0) == 0
  {
  }

  lemma {:induction false} LowBound(b: bv32, n: nat)
    ensures Low(b, n) < Pow2(n)
    decreases n
  {
    hide Bit, Half;
    if n > 0 { LowBound(Half(b), n - 1); }
  }

  /** The number a word stands for. */
  function Val(b: bv32): u32
  {
    hide Low, Pow2;
    PowersOfTwo(); LowBound(b, 32);
    Low(b, 32)
  }

  lemma XorBits(b: bv32, c: bv32)
    ensures Half(XorB(b, c)) == XorB(Half(b), Half(c)) && Bit(XorB(b, c)) == if Bit(b) == Bit(c) then 0 else 1
  {
  }

  lemma {:induction false} XorLow(b: bv32, c: bv32, n: nat)
    ensures Bitwise(XOR, Low(b, n), Low(c, n)) == Low(XorB(b, c), n)
    decreases n
  {
    hide Low, Bit, Half, XorB, Bitwise;
    if n > 0 {
      XorLow(Half(b), Half(c), n - 1);
      XorBits(b, c);
      LowStep(b, n);
      LowStep(c, n);
      LowStep(XorB(b, c), n);
      Unfold(XOR, Low(b, n), Low(c, n));
    } else {
      NoneLow(b);
      NoneLow(c);
      NoneLow(XorB(b, c));
    }
  }

  lemma XorVal(b: bv32, c: bv32)
    ensures Xor32(Val(b), Val(c)) == Val(XorB(b, c))
  {
    hide Low, Bitwise, XorB;
    XorLow(b, c, 32);
  }

  /** m has its low n bits set. */
  predicate Ones(m: bv32, n: nat)
  {
    n == 0 || (Bit(m) == 1 && Ones(Half(m), n - 1))
  }

  lemma MaskStep(x: bv32, y: bv32, m: bv32)
    requires Bit(m) == 1 && SameUnder(x, y, m)
    ensures Bit(x) == Bit(y) && SameUnder(Half(x), Half(y), Half(m))
  {
  }

  lemma {:induction false} SameLow(x: bv32, y: bv32, m: bv32, n: nat)
    requires Ones(m, n) && SameUnder(x, y, m)
    ensures Low(x, n) == Low(y, n)
    decreases n
  {
    hide Low, Bit, Half, SameUnder;
    if n > 0 {
      MaskStep(x, y, m);
      SameLow(Half(x), Half(y), Half(m), n - 1);
      LowStep(x, n);
      LowStep(y, n);
    } else {
      NoneLow(x);
      NoneLow(y);
    }
  }

  const LOW31: bv32 := 0x7FFF_FFFF

  lemma FourBits(m: bv32)
    requires m & 15 == 15
    ensures Half(Half(Half(Half(m)))) == m >> 4
    ensures Bit(m) == 1 && Bit(Half(m)) == 1 && Bit(Half(Half(m))) == 1 && Bit(Half(Half(Half(m)))) == 1
  {
  }

  lemma FourOnes(m: bv32, m': bv32, n: nat)
    requires m & 15 == 15 && m >> 4 == m' && Ones(m', n)
    ensures Ones(m, n + 4)
  {
    FourBits(m);
    hide Bit, Half;
    assert Ones(Half(Half(Half(m))), n + 1);
    assert Ones(Half(Half(m)), n + 2);
    assert Ones(Half(m), n + 3);
  }

  lemma AllOnes()
    ensures Ones(0xFFFF_FFFF, 32) && Ones(LOW31, 31)
  {
    assert Ones(0, 0);
    HalfOfAll();
    FourOnes(0xF, 0, 0);
    FourOnes(0xFF, 0xF, 4);
    FourOnes(0xFFF, 0xFF, 8);
    FourOnes(0xFFFF, 0xFFF, 12);
    FourOnes(0xF_FFFF, 0xFFFF, 16);
    FourOnes(0xFF_FFFF, 0xF_FFFF, 20);
    FourOnes(0xFFF_FFFF, 0xFF_FFFF, 24);
    FourOnes(0xFFFF_FFFF, 0xFFF_FFFF, 28);
  }

  lemma HalfOfAll()
    ensures Half(0xFFFF_FFFF) == LOW31
  {
  }

  lemma CarryStep(b: bv32, c: bv32, k: bv32, m: bv32)
    requires Carries(b, c, k, m)
    ensures Carries(Half(b), Half(c), Half(k), Half(m)) && Half(SumB(b, c, k)) == SumB(Half(b), Half(c), Half(k))
  {
    HalfOfSum(b, c, k);
    hide SumB;
    HalfOfCarries(b, c, k, m);
  }

  lemma HalfOfSum(b: bv32, c: bv32, k: bv32)
    ensures Half(SumB(b, c, k)) == SumB(Half(b), Half(c), Half(k))
  {
  }

  lemma HalfOfCarries(b: bv32, c: bv32, k: bv32, m: bv32)
    requires k & m == ((((b & c) | (b & k) | (c & k)) << 1) | (k & 1)) & m
    ensures (k >> 1) & (m >> 1) ==
      (((((b >> 1) & (c >> 1)) | ((b >> 1) & (k >> 1)) | ((c >> 1) & (k >> 1))) << 1) | ((k >> 1) & 1)) & (m >> 1)
  {
  }

  lemma SumBits(b: bv32, c: bv32, k: bv32)
    ensures Bit(b) + Bit(c) + Bit(k) == 2 * Bit(Majority(b, c, k)) + Bit(SumB(b, c, k))
  {
  }

  lemma CarryBit(b: bv32, c: bv32, k: bv32, m: bv32)
    requires Carries(b, c, k, m) && Bit(m) == 1 && Bit(Half(m)) == 1
    ensures Bit(Half(k)) == Bit(Majority(b, c, k))
  {
  }

  lemma SumStep(p: nat, x: nat, y: nat, u: nat, r: nat, s: nat)
    requires p > 0 && r < 2 && s == 2 * (x + y + u) + r
    ensures s % (2 * p) == r + 2 * ((x + y + u) % p)
  {
    ModHalf(s, p);
  }

  lemma PowerStep(n: nat)
    requires n > 0
    ensures Pow2(n) == 2 * Pow2(n - 1) && (n == 1 ==> Pow2(n - 1) == 1)
  {
  }

  lemma {:induction false} AddLow(b: bv32, c: bv32, k: bv32, m: bv32, n: nat)
    requires Carries(b, c, k, m) && Ones(m, n)
    ensures Low(SumB(b, c, k), n) == (Low(b, n) + Low(c, n) + Bit(k)) % Pow2(n)
    decreases n
  {
    hide Low, Bit, Half, SumB, Carries, Majority, Pow2;
    if n > 0 {
      CarryStep(b, c, k, m);
      SumBits(b, c, k);
      AddLow(Half(b), Half(c), Half(k), Half(m), n - 1);
      LowStep(b, n);
      LowStep(c, n);
      LowStep(SumB(b, c, k), n);
      PowerStep(n);
      if n > 1 { CarryBit(b, c, k, m); }
      var u := Bit(Majority(b, c, k));
      assert n == 1 ==> (Low(Half(b), 0) + Low(Half(c), 0) + u) % 1 == 0;
      SumStep(Pow2(n - 1), Low(Half(b), n - 1), Low(Half(c), n - 1), u, Bit(SumB(b, c, k)),
        Low(b, n) + Low(c, n) + Bit(k));
    } else {
      NoneLow(SumB(b, c, k));
    }
  }

  /** What distinguishes s from b and c bit by bit are the carries of their sum: then s is that sum. */
  predicate IsSum(b: bv32, c: bv32, s: bv32)
  {
    b ^ c ^ s == Majority(b, c, b ^ c ^ s) << 1
  }

  lemma SumCarries(b: bv32, c: bv32, s: bv32, k: bv32)
    requires k == b ^ c ^ s && IsSum(b, c, s)
    ensures Carries(b, c, k, 0xFFFF_FFFF) && Bit(k) == 0 && SumB(b, c, k) == s
  {
    XorBack(b, c, s);
    hide Majority;
    Shifted(Majority(b, c, k), k);
  }

  lemma XorBack(b: bv32, c: bv32, s: bv32)
    ensures SumB(b, c, b ^ c ^ s) == s
  {
  }

  lemma Shifted(m: bv32, k: bv32)
    requires k == m << 1
    ensures k & 0xFFFF_FFFF == ((m << 1) | (k & 1)) & 0xFFFF_FFFF && Bit(k) == 0
  {
  }

  lemma AddVal(b: bv32, c: bv32, s: bv32)
    requires IsSum(b, c, s)
    ensures Add32(Val(b), Val(c)) == Val(s)
  {
    hide Low, Pow2, Carries, Bit, SumB, IsSum;
    var k := b ^ c ^ s;
    SumCarries(b, c, s, k);
    AllOnes();
    AddLow(b, c, k, 0xFFFF_FFFF, 32);
    PowersOfTwo();
  }

  // Rotations.

  function RotateOne(b: bv32): bv32 { b.RotateLeft(1) }

  function Top(b: bv32): nat { if b & 0x8000_0000 == 0 then 0 else 1 }

  function Nth(b: bv32, n: nat): nat
    decreases n
  {
    if n == 0 then Bit(b) else Nth(Half(b), n - 1)
  }

  lemma {:induction false} LowTop(b: bv32, n: nat)
    ensures Low(b, n + 1) == Low(b, n) + Pow2(n) * Nth(b, n)
    decreases n
  {
    hide Low, Pow2, Bit, Half, Nth;
    LowStep(b, n + 1);
    if n > 0 {
      LowTop(Half(b), n - 1);
      LowStep(b, n);
      TopStep(b, n);
    } else {
      NoneLow(b);
      NoneLow(Half(b));
      NthNone(b);
    }
  }

  lemma TopStep(b: bv32, n: nat)
    requires n > 0
    ensures Pow2(n) * Nth(b, n) == 2 * (Pow2(n - 1) * Nth(Half(b), n - 1))
  {
  }

  lemma NthNone(b: bv32)
    ensures Nth(b, 0) == Bit(b)
  {
  }

  lemma NthFour(b: bv32, n: nat)
    ensures Nth(b, n + 4) == Nth(Quarter(b), n)
  {
    FourHalves(b);
    hide Half, Bit, Quarter;
    assert Nth(b, n + 4) == Nth(Half(b), n + 3) == Nth(Half(Half(b)), n + 2) == Nth(Half(Half(Half(b))), n + 1);
  }

  lemma FourHalves(b: bv32)
    ensures Half(Half(Half(Half(b)))) == Quarter(b)
  {
  }

  function Quarter(b: bv32): bv32 { b >> 4 }

  lemma NthTop(b: bv32)
    ensures Nth(b, 31) == Top(b)
  {
    var b1 := Quarter(b);
    var b2 := Quarter(b1);
    var b3 := Quarter(b2);
    var b4 := Quarter(b3);
    var b5 := Quarter(b4);
    var b6 := Quarter(b5);
    var b7 := Quarter(b6);
    TopShifted(b);
    hide Nth, Quarter, Top, Bit, Half;
    NthFour(b, 27);
    NthFour(b1, 23);
    NthFour(b2, 19);
    NthFour(b3, 15);
    NthFour(b4, 11);
    NthFour(b5, 7);
    NthFour(b6, 3);
    NthLast(b7);
  }

  lemma NthLast(b: bv32)
    ensures Nth(b, 3) == Bit(Half(Half(Half(b))))
  {
    hide Bit, Half;
    assert Nth(b, 3) == Nth(Half(b), 2) == Nth(Half(Half(b)), 1) == Nth(Half(Half(Half(b))), 0);
  }

  lemma TopShifted(b: bv32)
    ensures var c := Quarter(Quarter(Quarter(Quarter(Quarter(Quarter(Quarter(b)))))));
      Bit(Half(Half(Half(c)))) == Top(b)
  {
  }

  lemma RotatedBits(b: bv32)
    ensures Bit(RotateOne(b)) == Top(b) && SameUnder(Half(RotateOne(b)), b, LOW31)
  {
  }

  /** One rotation on numbers is one on bit vectors. */
  lemma RotateOneVal(b: bv32)
    ensures Val(RotateOne(b)) == 2 * Val(b) % B32 + Val(b) / 0x8000_0000
  {
    hide Low, Bit, Half, RotateOne, Top, SameUnder, Nth, Pow2;
    RotatedBits(b);
    AllOnes();
    SameLow(Half(RotateOne(b)), b, LOW31, 31);
    LowStep(RotateOne(b), 32);
    LowTop(b, 31);
    NthTop(b);
    PowerThirtyOne();
    LowBound(b, 31);
    RotateNumber(Low(b, 31), Top(b));
  }

  lemma RotateNumber(low: nat, top: nat)
    requires low < 0x8000_0000 && top < 2
    ensures var v := low + 0x8000_0000 * top;
      2 * v % B32 + v / 0x8000_0000 == top + 2 * low
  {
  }

  lemma PowerThirtyOne()
    ensures Pow2(31) == 0x8000_0000
  {
    PowersOfTwo();
  }

  lemma {:induction false} RotateMore(x: u32, m: nat, n: nat)
    ensures RotateLeft32(x, m + n) == RotateLeft32(RotateLeft32(x, m), n)
    decreases m
  {
    if m > 0 {
      RotateLeftFirst(x, m);
      RotateLeftFirst(x, m + n);
      RotateMore(2 * x % B32 + x / 0x8000_0000, m - 1, n);
    }
  }

  function RotateFour(b: bv32): bv32 { RotateOne(RotateOne(RotateOne(RotateOne(b)))) }

  lemma RotateOnce(b: bv32)
    ensures RotateLeft32(Val(b), 1) == Val(RotateOne(b))
  {
    hide Val, RotateOne;
    RotateOneVal(b);
    RotateLeftFirst(Val(b), 1);
  }

  lemma RotateFourVal(b: bv32)
    ensures RotateLeft32(Val(b), 4) == Val(RotateFour(b))
  {
    hide Val, RotateOne, RotateLeft32;
    var b1 := RotateOne(b);
    var b2 := RotateOne(b1);
    RotateOnce(b);
    RotateOnce(b1);
    RotateOnce(b2);
    RotateOnce(RotateOne(b2));
    RotateMore(Val(b), 1, 1);
    RotateMore(Val(b), 2, 1);
    RotateMore(Val(b), 3, 1);
  }

  function Rotate4(b: bv32): bv32 { b.RotateLeft(4) }
  function Rotate7(b: bv32): bv32 { b.RotateLeft(7) }
  function Rotate8(b: bv32): bv32 { b.RotateLeft(8) }
  function Rotate12(b: bv32): bv32 { b.RotateLeft(12) }
  function Rotate16(b: bv32): bv32 { b.RotateLeft(16) }

  lemma RotatedFour(b: bv32)
    ensures RotateFour(b) == Rotate4(b)
  {
  }

  lemma RotatedMore(b: bv32)
    ensures RotateOne(RotateOne(RotateOne(Rotate4(b)))) == Rotate7(b)
    ensures Rotate4(Rotate4(b)) == Rotate8(b) && Rotate4(Rotate8(b)) == Rotate12(b)
    ensures Rotate4(Rotate12(b)) == Rotate16(b)
  {
    hide *;
    Seven(b);
    Eight(b);
    Twelve(b);
    Sixteen(b);
  }

  lemma Seven(b: bv32)
    ensures RotateOne(RotateOne(RotateOne(Rotate4(b)))) == Rotate7(b)
  {
  }

  lemma Eight(b: bv32)
    ensures Rotate4(Rotate4(b)) == Rotate8(b)
  {
  }

  lemma Twelve(b: bv32)
    ensures Rotate4(Rotate8(b)) == Rotate12(b)
  {
  }

  lemma Sixteen(b: bv32)
    ensures Rotate4(Rotate12(b)) == Rotate16(b)
  {
  }

  /** The rotations of the quarter round are those of bit vectors. */
  lemma RotateVal(b: bv32)
    ensures RotateLeft32(Val(b), 7) == Val(Rotate7(b)) && RotateLeft32(Val(b), 8) == Val(Rotate8(b))
    ensures RotateLeft32(Val(b), 12) == Val(Rotate12(b)) && RotateLeft32(Val(b), 16) == Val(Rotate16(b))
  {
    hide Val, RotateOne, RotateFour, RotateLeft32, Rotate4, Rotate7, Rotate8, Rotate12, Rotate16;
    RotatedMore(b);
    var b4, b8, b12 := Rotate4(b), Rotate8(b), Rotate12(b);
    RotateFourVal(b);
    RotatedFour(b);
    RotateFourVal(b4);
    RotatedFour(b4);
    RotateFourVal(b8);
    RotatedFour(b8);
    RotateFourVal(b12);
    RotatedFour(b12);
    RotateMore(Val(b), 4, 4);
    RotateMore(Val(b), 8, 4);
    RotateMore(Val(b), 12, 4);
    var b5 := RotateOne(b4);
    var b6 := RotateOne(b5);
    RotateOnce(b4);
    RotateOnce(b5);
    RotateOnce(b6);
    RotateMore(Val(b), 4, 1);
    RotateMore(Val(b), 5, 1);
    RotateMore(Val(b), 6, 1);
  }

  // Octets.

  /** The low eight bits. */
  function Octet(b: bv32): byte
  {
    Bit(b) + 2 * Bit(b >> 1) + 4 * Bit(b >> 2) + 8 * Bit(b >> 3)
      + 16 * Bit(b >> 4) + 32 * Bit(b >> 5) + 64 * Bit(b >> 6) + 128 * Bit(b >> 7)
  }

  function Next(b: bv32): bv32 { b >> 8 }

  lemma Halves(b: bv32)
    ensures Half(b) == b >> 1 && Half(b >> 1) == b >> 2 && Half(b >> 2) == b >> 3 && Half(b >> 3) == b >> 4
    ensures Half(b >> 4) == b >> 5 && Half(b >> 5) == b >> 6 && Half(b >> 6) == b >> 7 && Half(b >> 7) == Next(b)
  {
  }

  lemma LowOctet(b: bv32, n: nat)
    ensures Low(b, n + 8) == Octet(b) + 0x100 * Low(Next(b), n)
  {
    Halves(b);
    hide Low, Bit, Half, Next;
    LowStep(b, n + 8);
    LowStep(b >> 1, n + 7);
    LowStep(b >> 2, n + 6);
    LowStep(b >> 3, n + 5);
    LowStep(b >> 4, n + 4);
    LowStep(b >> 5, n + 3);
    LowStep(b >> 6, n + 2);
    LowStep(b >> 7, n + 1);
  }

  function Octets(b: bv32): seq<byte>
  {
    [Octet(b), Octet(b >> 8), Octet(b >> 16), Octet(b >> 24)]
  }

  /** A word as bytes, least significant first. */
  lemma OctetsVal(b: bv32)
    ensures Val(b) == Octet(b) + 0x100 * Octet(b >> 8) + 0x1_0000 * Octet(b >> 16) + 0x100_0000 * Octet(b >> 24)
    ensures ToLE(Val(b), 4) == Octets(b)
  {
    NextShifts(b);
    hide Low, Octet, Next, ToLE;
    LowOctet(b, 24);
    LowOctet(b >> 8, 16);
    LowOctet(b >> 16, 8);
    LowOctet(b >> 24, 0);
    NoneLow(Next(b >> 24));
    FourOctets(Octet(b), Octet(b >> 8), Octet(b >> 16), Octet(b >> 24));
  }

  lemma NextShifts(b: bv32)
    ensures Next(b) == b >> 8 && Next(b >> 8) == b >> 16 && Next(b >> 16) == b >> 24
  {
  }

  lemma FourOctets(a: byte, b: byte, c: byte, d: byte)
    ensures ToLE(a + 0x100 * b + 0x1_0000 * c + 0x100_0000 * d, 4) == [a, b, c, d]
  {
    hide ToLE;
    LowByte(a + 0x100 * b + 0x1_0000 * c + 0x100_0000 * d, 4);
    LowByte(b + 0x100 * c + 0x1_0000 * d, 3);
    LowByte(c + 0x100 * d, 2);
    LowByte(d, 1);
    NoBytes(0);
  }
}
