// Poly1305 as section 2.5 of RFC 8439 states it: a polynomial in r modulo 2^130 - 5.
module Poly1305Spec {
  import opened Bits
  import opened Bytes

  const TAG_SIZE: int := 16
  const P: int := 0x3_FFFF_FFFF_FFFF_FFFF_FFFF_FFFF_FFFF_FFFB // 2^130 - 5
  const CLAMP: int := 0x0FFFFFFC_0FFFFFFC_0FFFFFFC_0FFFFFFF

  /** Accumulates the blocks of msg, each with a one byte appended, highest coefficient first. */
  function Absorb(acc: nat, r: nat, msg: seq<byte>): nat
    decreases |msg|
  {
    if msg == [] then acc
    else
      var n := Min(TAG_SIZE, |msg|);
      Absorb((acc + LE(msg[..n] + [1])) * r % P, r, msg[n..])
  }

  function R(key: seq<byte>): nat
    requires |key| == 32
  {
    And(LE(key[..16]), CLAMP)
  }

  function S(key: seq<byte>): nat
    requires |key| == 32
  {
    LE(key[16..])
  }

  function Tag(key: seq<byte>, msg: seq<byte>): seq<byte>
    requires |key| == 32
  {
    ToLE(Absorb(0, R(key), msg) + S(key), TAG_SIZE)
  }

  /** Whole blocks absorbed first and the rest later make the same polynomial. */
  lemma {:induction false} AbsorbSplit(acc: nat, r: nat, x: seq<byte>, y: seq<byte>)
    requires |x| % TAG_SIZE == 0
    ensures Absorb(acc, r, x + y) == Absorb(Absorb(acc, r, x), r, y)
    decreases |x|
  {
    if x == [] {
      assert x + y == y;
    } else {
      var next := (acc + LE(x[..16] + [1])) * r % P;
      AbsorbSplit(next, r, x[16..], y);
      assert (x + y)[..16] == x[..16];
      assert (x + y)[16..] == x[16..] + y;
    }
  }

  // The same in plain arithmetic.

  lemma PrimeIs()
    ensures P == Pow2(130) - 5
  {
    PowersOfTwo();
    Pow2Sum(64, 64);
    Pow2Sum(128, 2);
  }

  /** One block: h := (h + m + 2^(8 * length)) * r modulo 2^130 - 5. A shorter block is the last one. */
  lemma AbsorbBlock(acc: nat, r: nat, m: seq<byte>, rest: seq<byte>)
    requires |m| == 16 || (0 < |m| < 16 && rest == [])
    ensures Absorb(acc, r, m + rest) == Absorb((acc + LE(m) + Pow2(8 * |m|)) * r % (Pow2(130) - 5), r, rest)
    ensures Absorb(acc, r, []) == acc
  {
    hide LE, Pow2;
    BlockValue(m);
    PrimeIs();
    Halves(m, rest);
  }

  lemma Halves(m: seq<byte>, rest: seq<byte>)
    ensures (m + rest)[..|m|] == m && (m + rest)[|m|..] == rest && (rest == [] ==> m + rest == m)
  {
  }

  lemma BlockValue(m: seq<byte>)
    ensures LE(m + [1]) == LE(m) + Pow2(8 * |m|)
  {
    OneIs();
    hide LE, Pow2;
    LEAppend(m, [1]);
  }

  lemma OneIs()
    ensures LE([1]) == 1
  {
  }

  function AndByte(x: byte, y: byte): byte
  {
    AndAtMost(x, y);
    And(x, y)
  }

  function AndBytes(a: seq<byte>, b: seq<byte>): (r: seq<byte>)
    requires |a| == |b|
    ensures |r| == |a|
  {
    seq(|a|, i requires 0 <= i < |a| => AndByte(a[i], b[i]))
  }

  lemma {:induction false} AndLE(a: seq<byte>, b: seq<byte>)
    requires |a| == |b|
    ensures And(LE(a), LE(b)) == LE(AndBytes(a, b))
  {
    hide Bitwise, AndByte, LE;
    if a != [] {
      AndLE(a[1..], b[1..]);
      AndLowByte(LE(a[1..]), a[0], LE(b[1..]), b[0]);
      assert AndBytes(a, b)[1..] == AndBytes(a[1..], b[1..]);
      AndByteIsAnd(a[0], b[0]);
      LEFirst(a);
      LEFirst(b);
      LEFirst(AndBytes(a, b));
    } else {
      NothingAnd();
      assert b == [] && AndBytes(a, b) == [];
    }
  }

  lemma NothingAnd()
    ensures LE([]) == 0 && And(0, 0) == 0
  {
  }

  lemma AndByteIsAnd(x: byte, y: byte)
    ensures AndByte(x, y) == And(x, y)
  {
  }

  lemma AndLowByte(x: nat, x0: byte, y: nat, y0: byte)
    ensures And(x * 0x100 + x0, y * 0x100 + y0) == And(x, y) * 0x100 + And(x0, y0)
  {
    hide Bitwise;
    PowersOfTwo();
    BitwiseSplit(AND, x, x0, y, y0, 8);
    ShlIsProduct(x, 8, 0x100);
    ShlIsProduct(y, 8, 0x100);
    ShlIsProduct(And(x, y), 8, 0x100);
  }

  /** The mask as bytes: the top four bits of every fourth byte, and the low two bits of the byte after it. */
  const CLAMP_WORD: seq<byte> := [0xFC, 0xFF, 0xFF, 0x0F]
  const CLAMP_BYTES: seq<byte> := [0xFF, 0xFF, 0xFF, 0x0F] + CLAMP_WORD + CLAMP_WORD + CLAMP_WORD

  lemma LEFour(a: byte, b: byte, c: byte, d: byte)
    ensures LE([a, b, c, d]) == a + 0x100 * b + 0x1_0000 * c + 0x100_0000 * d
  {
    assert LE([]) == 0;
    hide LE;
    assert [a, b, c, d][1..] == [b, c, d] && [b, c, d][1..] == [c, d] && [c, d][1..] == [d] && [d][1..] == [];
    LEFirst([a, b, c, d]);
    LEFirst([b, c, d]);
    LEFirst([c, d]);
    LEFirst([d]);
  }

  lemma ClampIs()
    ensures LE(CLAMP_BYTES) == CLAMP && |CLAMP_BYTES| == 16
  {
    LEFour(0xFF, 0xFF, 0xFF, 0x0F);
    LEFour(0xFC, 0xFF, 0xFF, 0x0F);
    hide LE, Pow2;
    PowersOfTwo();
    LEAppend(CLAMP_WORD, CLAMP_WORD);
    LEAppend(CLAMP_WORD, CLAMP_WORD + CLAMP_WORD);
    LEAppend([0xFF, 0xFF, 0xFF, 0x0F], CLAMP_WORD + (CLAMP_WORD + CLAMP_WORD));
    assert CLAMP_BYTES == [0xFF, 0xFF, 0xFF, 0x0F] + (CLAMP_WORD + (CLAMP_WORD + CLAMP_WORD));
  }

  lemma ByteMasksAnd(x: byte)
    ensures And(x, 0xFF) == x && And(x, 0x0F) == x % 16 && And(x, 0xFC) == x - x % 4
  {
    hide Bitwise;
    PowersOfTwo();
    AndOnes(x, 8, 0x100);
    AndOnes(x, 4, 16);
    ShlIsProduct(x / 4, 2, 4);
    ShlIsProduct(63, 2, 4);
    AndHigh(x / 4, x % 4, 2, 6);
  }

  /** Section 2.5: which bits of the key r keeps, byte by byte. */
  lemma ClampedBytes(key: seq<byte>, i: nat)
    requires |key| == 32 && i < 16
    ensures ToLE(R(key), 16)[i] ==
      if i % 4 == 3 then key[i] % 16 else if i % 4 == 0 && i > 0 then key[i] - key[i] % 4 else key[i]
  {
    hide LE, ToLE, Bitwise, AndByte, CLAMP_BYTES, CLAMP;
    ClampIs();
    ClampByteAt(i);
    AndLE(key[..16], CLAMP_BYTES);
    ToLEofLE(AndBytes(key[..16], CLAMP_BYTES));
    AndByteIsAnd(key[i], CLAMP_BYTES[i]);
    ByteMasksAnd(key[i]);
  }

  lemma ClampByteAt(i: nat)
    requires i < 16
    ensures |CLAMP_BYTES| == 16
    ensures CLAMP_BYTES[i] == if i % 4 == 3 then 0x0F else if i % 4 == 0 && i > 0 then 0xFC else 0xFF
  {
  }

  /** The tag is what the blocks leave plus the second half of the key, modulo 2^128. */
  lemma TagIs(key: seq<byte>, msg: seq<byte>)
    requires |key| == 32
    ensures |Tag(key, msg)| == 16
    ensures LE(Tag(key, msg)) == (Absorb(0, R(key), msg) + LE(key[16..32])) % Pow2(128)
  {
    hide LE, ToLE, Absorb, R, Pow2;
    LEofToLE(Absorb(0, R(key), msg) + S(key), TAG_SIZE);
    assert key[16..32] == key[16..];
  }
}
