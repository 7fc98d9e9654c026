// Byte strings as numbers: encoding/binary's little and big endian codecs.
module Bytes {
  import opened Bits

  function LE(s: seq<byte>): nat
  {
    if s == [] then 0 else s[0] + 0x100 * LE(s[1..])
  }

  function ToLE(n: nat, k: nat): (s: seq<byte>)
    ensures |s| == k
  {
    if k == 0 then [] else [n % 0x100] + ToLE(n / 0x100, k - 1)
  }

  lemma LowByte(k: nat, n: nat)
    requires n > 0
    ensures ToLE(k, n) == [k % 0x100] + ToLE(k / 0x100, n - 1)
    ensures ToLE(k, n)[0] == k % 0x100 && ToLE(k, n)[1..] == ToLE(k / 0x100, n - 1)
  {
  }

  lemma LEFirst(s: seq<byte>)
    requires s != []
    ensures LE(s) == s[0] + 0x100 * LE(s[1..])
  {
  }

  function BE(s: seq<byte>): nat
  {
    if s == [] then 0 else 0x100 * BE(s[..|s| - 1]) + s[|s| - 1]
  }

  function ToBE(n: nat, k: nat): (s: seq<byte>)
    ensures |s| == k
  {
    if k == 0 then [] else ToBE(n / 0x100, k - 1) + [n % 0x100]
  }

  function Zeros(n: nat): (s: seq<byte>)
    ensures |s| == n
  {
    seq(n, i => 0)
  }

  lemma Pow2Byte(k: nat)
    ensures Pow2(8 * (k + 1)) == 0x100 * Pow2(8 * k)
  {
    assert Pow2(8 * k + 8) == 2 * Pow2(8 * k + 7);
    assert Pow2(8 * k + 7) == 2 * Pow2(8 * k + 6);
    assert Pow2(8 * k + 6) == 2 * Pow2(8 * k + 5);
    assert Pow2(8 * k + 5) == 2 * Pow2(8 * k + 4);
    assert Pow2(8 * k + 4) == 2 * Pow2(8 * k + 3);
    assert Pow2(8 * k + 3) == 2 * Pow2(8 * k + 2);
    assert Pow2(8 * k + 2) == 2 * Pow2(8 * k + 1);
    assert Pow2(8 * k + 1) == 2 * Pow2(8 * k);
  }

  lemma {:induction false} LEBound(s: seq<byte>)
    ensures LE(s) < Pow2(8 * |s|)
  {
    if s != [] {
      LEBound(s[1..]);
      Pow2Byte(|s| - 1);
    }
  }

  lemma {:induction false} LEofToLE(n: nat, k: nat)
    ensures LE(ToLE(n, k)) == n % Pow2(8 * k)
  {
    if k > 0 {
      LEofToLE(n / 0x100, k - 1);
      Pow2Byte(k - 1);
      ModByte(n, Pow2(8 * (k - 1)));
      assert ToLE(n, k)[1..] == ToLE(n / 0x100, k - 1);
    }
  }

  lemma {:induction false} BEofToBE(n: nat, k: nat)
    requires n < Pow2(8 * k)
    ensures BE(ToBE(n, k)) == n
  {
    if k > 0 {
      Pow2Byte(k - 1);
      BEofToBE(n / 0x100, k - 1);
      assert ToBE(n, k)[..k - 1] == ToBE(n / 0x100, k - 1);
    }
  }

  lemma ModByte(n: nat, p: nat)
    requires p > 0
    ensures n % (0x100 * p) == 0x100 * ((n / 0x100) % p) + n % 0x100
  {
    var q, r := (n / 0x100) / p, (n / 0x100) % p;
    assert n / 0x100 == q * p + r;
    assert q * (0x100 * p) == 0x100 * (q * p);
    DivModUnique(n, 0x100 * p, q, 0x100 * r + n % 0x100);
  }

  lemma {:induction false} ToLEofLE(s: seq<byte>)
    ensures ToLE(LE(s), |s|) == s
  {
    if s != [] {
      ToLEofLE(s[1..]);
      assert LE(s) % 0x100 == s[0] && LE(s) / 0x100 == LE(s[1..]);
    }
  }

  lemma {:induction false} LEAppend(a: seq<byte>, b: seq<byte>)
    ensures LE(a + b) == LE(a) + Pow2(8 * |a|) * LE(b)
  {
    if a == [] {
      assert a + b == b;
    } else {
      hide LE, Pow2;
      LEAppend(a[1..], b);
      ConsAppend(a, b);
      LEFirst(a);
      LEFirst(a + b);
      Pow2Byte(|a| - 1);
      FactorByte(Pow2(8 * (|a| - 1)), LE(b));
    }
  }

  lemma ConsAppend(a: seq<byte>, b: seq<byte>)
    requires a != []
    ensures (a + b)[0] == a[0] && (a + b)[1..] == a[1..] + b
  {
  }

  lemma FactorByte(p: nat, x: nat)
    ensures (0x100 * p) * x == 0x100 * (p * x)
  {
  }

  lemma {:induction false} ToLEAppend(lo: nat, hi: nat, a: nat, b: nat, n: nat)
    requires lo < Pow2(8 * a) && n == lo + Pow2(8 * a) * hi
    ensures ToLE(lo, a) + ToLE(hi, b) == ToLE(n, a + b)
  {
    hide ToLE, Pow2;
    if a == 0 {
      NoBytes(lo);
      assert [] + ToLE(hi, b) == ToLE(hi, b);
    } else {
      LowBytes(lo, hi, a, n);
      ToLEAppend(lo / 0x100, hi, a - 1, b, n / 0x100);
      ToLEJoin(lo, hi, a, b, n, n / 0x100);
    }
  }

  lemma NoBytes(n: nat)
    ensures ToLE(n, 0) == [] && Pow2(0) == 1
  {
  }

  lemma LowBytes(lo: nat, hi: nat, a: nat, n: nat)
    requires a > 0 && lo < Pow2(8 * a) && n == lo + Pow2(8 * a) * hi
    ensures lo / 0x100 < Pow2(8 * (a - 1)) && n / 0x100 == lo / 0x100 + Pow2(8 * (a - 1)) * hi
    ensures n % 0x100 == lo % 0x100
  {
    hide Pow2;
    Pow2Byte(a - 1);
    PowerStep(lo, Pow2(8 * (a - 1)), hi, Pow2(8 * a));
  }

  lemma ToLEJoin(lo: nat, hi: nat, a: nat, b: nat, n: nat, n': nat)
    requires a > 0 && n % 0x100 == lo % 0x100 && n / 0x100 == n'
    requires ToLE(lo / 0x100, a - 1) + ToLE(hi, b) == ToLE(n', a - 1 + b)
    ensures ToLE(lo, a) + ToLE(hi, b) == ToLE(n, a + b)
  {
    hide ToLE;
    LowByte(lo, a);
    LowByte(n, a + b);
    ConsAppend(ToLE(lo, a), ToLE(hi, b));
    Rejoin(ToLE(lo, a) + ToLE(hi, b), ToLE(n, a + b));
  }

  lemma Rejoin(s: seq<byte>, t: seq<byte>)
    requires s != [] && t != [] && s[0] == t[0] && s[1..] == t[1..]
    ensures s == t
  {
    assert s == [s[0]] + s[1..] && t == [t[0]] + t[1..];
  }

  lemma PowerStep(lo: nat, q: nat, hi: nat, p: nat)
    requires p == 0x100 * q
    ensures (lo + p * hi) / 0x100 == lo / 0x100 + q * hi
    ensures (lo + p * hi) % 0x100 == lo % 0x100
  {
    FactorByte(q, hi);
  }

  lemma ToLEModulo(n: nat, k: nat)
    ensures ToLE(n, k) == ToLE(n % Pow2(8 * k), k)
  {
    LEofToLE(n, k);
    ToLEofLE(ToLE(n, k));
  }

  lemma {:induction false} LEZeros(n: nat)
    ensures LE(Zeros(n)) == 0
  {
    if n > 0 {
      LEZeros(n - 1);
      assert Zeros(n)[1..] == Zeros(n - 1);
    }
  }

  lemma LEPadded(a: seq<byte>, n: nat)
    ensures LE(a + Zeros(n)) == LE(a)
  {
    hide LE;
    LEAppend(a, Zeros(n));
    LEZeros(n);
    assert Pow2(8 * |a|) * 0 == 0;
  }

  function Uint32(s: seq<byte>): u32
    requires |s| == 4
  {
    LEBound(s); PowersOfTwo();
    LE(s)
  }

  function Uint64(s: seq<byte>): u64
    requires |s| == 8
  {
    LEBound(s); PowersOfTwo();
    LE(s)
  }

  lemma TwoUint64(s: seq<byte>)
    requires |s| == 16
    ensures LE(s) == Uint64(s[..8]) + Uint64(s[8..]) * B64
  {
    hide LE;
    PowersOfTwo();
    LEAppend(s[..8], s[8..]);
    assert s[..8] + s[8..] == s;
  }

  lemma TwoByteLength(n: nat)
    requires n <= 0xFFFF
    ensures ToBE(n, 2) == [n / 0x100 % 0x100, n % 0x100]
  {
    assert ToBE(n / 0x100, 1) == ToBE(n / 0x100 / 0x100, 0) + [n / 0x100 % 0x100];
  }

  lemma TwoByteValue(s: seq<byte>)
    requires |s| == 2
    ensures BE(s) == s[0] as int * 0x100 + s[1]
  {
    assert s[..1][..0] == [] && BE(s[..1]) == 0x100 * BE(s[..1][..0]) + s[0];
  }
}
