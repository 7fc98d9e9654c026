// The AEAD construction of section 2.8 of RFC 8439, and XChaCha20-Poly1305 of
// draft-irtf-cfrg-xchacha-01 on top of it, as functions of byte strings.
module AEADSpec {
  import opened Bits
  import opened Bytes
  import opened Results
  import opened ChaCha20Spec
  import Poly1305Spec
  import ChaCha20

  const KEY_SIZE: int := 32
  const NONCE_SIZE: int := 12
  const NONCE_SIZE_X: int := 24
  const OVERHEAD: int := 16
  const MAX_PLAINTEXT: int := 0x40_0000_0000 - 64 // 2^38 - 64
  const MAX_CIPHERTEXT: int := 0x40_0000_0000 - 48 // 2^38 - 48

  type AEADKey = k: seq<byte> | |k| == 32 witness seq(32, i => 0)
  type Nonce12 = n: seq<byte> | |n| == 12 witness seq(12, i => 0)
  type Nonce24 = n: seq<byte> | |n| == 24 witness seq(24, i => 0)

  function PadLength(n: nat): (r: nat)
    ensures r < 16 && (n + r) % 16 == 0
  {
    if n % 16 == 0 then 0 else 16 - n % 16
  }

  function Padded(b: seq<byte>): seq<byte> { b + Zeros(PadLength(|b|)) }

  function MacData(aad: seq<byte>, ciphertext: seq<byte>): seq<byte>
  {
    Padded(aad) + Padded(ciphertext) + ToLE(|aad|, 8) + ToLE(|ciphertext|, 8)
  }

  /** The one-time Poly1305 key: the first half of keystream block 0. */
  function PolyKey(key: AEADKey, nonce: Nonce12): (r: seq<byte>)
    ensures |r| == 32
  {
    XorStream(Words(key), Words(nonce), 0, Zeros(32))
  }

  /** The message is encrypted from block 1 on. */
  function Encrypt(key: AEADKey, nonce: Nonce12, text: seq<byte>): (r: seq<byte>)
    requires |text| <= MAX_PLAINTEXT
    ensures |r| == |text|
  {
    XorStream(Words(key), Words(nonce), BLOCK_SIZE, text)
  }

  function TagOf(key: AEADKey, nonce: Nonce12, aad: seq<byte>, ciphertext: seq<byte>): (r: seq<byte>)
    ensures |r| == OVERHEAD
  {
    Poly1305Spec.Tag(PolyKey(key, nonce), MacData(aad, ciphertext))
  }

  function Seal(key: AEADKey, nonce: Nonce12, plaintext: seq<byte>, aad: seq<byte>): (r: seq<byte>)
    requires |plaintext| <= MAX_PLAINTEXT
    ensures |r| == |plaintext| + OVERHEAD
  {
    var c := Encrypt(key, nonce, plaintext);
    c + TagOf(key, nonce, aad, c)
  }

  /** The tag at the end is the one of what comes before it. */
  predicate Authentic(key: AEADKey, nonce: Nonce12, sealed: seq<byte>, aad: seq<byte>)
  {
    |sealed| >= OVERHEAD
    && sealed[|sealed| - OVERHEAD..] == TagOf(key, nonce, aad, sealed[..|sealed| - OVERHEAD])
  }

  function Open(key: AEADKey, nonce: Nonce12, sealed: seq<byte>, aad: seq<byte>): (r: Option<seq<byte>>)
    requires |sealed| <= MAX_CIPHERTEXT
  {
    if Authentic(key, nonce, sealed, aad) then Some(Encrypt(key, nonce, sealed[..|sealed| - OVERHEAD])) else None
  }

  /** Open accepts exactly what Seal makes, and gives back what was sealed. */
  lemma OpenIffSealed(key: AEADKey, nonce: Nonce12, sealed: seq<byte>, aad: seq<byte>, p: seq<byte>)
    requires |sealed| <= MAX_CIPHERTEXT
    ensures Open(key, nonce, sealed, aad) == Some(p)
       <==> |p| <= MAX_PLAINTEXT && sealed == Seal(key, nonce, p, aad)
  {
    hide XorStream, TagOf;
    if |p| <= MAX_PLAINTEXT && sealed == Seal(key, nonce, p, aad) {
      XorStreamInvolution(Words(key), Words(nonce), BLOCK_SIZE, p);
      var c := Encrypt(key, nonce, p);
      assert sealed[..|sealed| - OVERHEAD] == c;
    }
    if Open(key, nonce, sealed, aad) == Some(p) {
      var c := sealed[..|sealed| - OVERHEAD];
      XorStreamInvolution(Words(key), Words(nonce), BLOCK_SIZE, c);
      assert sealed == c + sealed[|sealed| - OVERHEAD..];
    }
  }

  lemma RoundTrip(key: AEADKey, nonce: Nonce12, p: seq<byte>, aad: seq<byte>)
    requires |p| <= MAX_PLAINTEXT
    ensures Open(key, nonce, Seal(key, nonce, p, aad), aad) == Some(p)
  {
    OpenIffSealed(key, nonce, Seal(key, nonce, p, aad), aad, p);
  }

  lemma LengthFieldInjective(m: nat, n: nat)
    requires m < B64 && n < B64 && ToLE(m, 8) == ToLE(n, 8)
    ensures m == n
  {
    hide LE, ToLE, Pow2;
    PowersOfTwo();
    LEofToLE(m, 8);
    LEofToLE(n, 8);
  }

  /** What is authenticated determines both parts: no two pairs share a MAC input. */
  lemma MacDataInjective(aad: seq<byte>, c: seq<byte>, aad': seq<byte>, c': seq<byte>)
    requires |aad| < B64 && |c| < B64 && |aad'| < B64 && |c'| < B64
    requires MacData(aad, c) == MacData(aad', c')
    ensures aad == aad' && c == c'
  {
    hide ToLE;
    var d, d' := MacData(aad, c), MacData(aad', c');
    var n := |d|;
    assert ToLE(|aad|, 8) == d[n - 16..n - 8] == d'[n - 16..n - 8] == ToLE(|aad'|, 8);
    assert ToLE(|c|, 8) == d[n - 8..] == d'[n - 8..] == ToLE(|c'|, 8);
    LengthFieldInjective(|aad|, |aad'|);
    LengthFieldInjective(|c|, |c'|);
    assert aad == d[..|aad|] == d'[..|aad|] == aad';
    var k := |Padded(aad)|;
    assert c == d[k..k + |c|] == d'[k..k + |c|] == c';
  }

  // XChaCha20-Poly1305

  function XKey(key: AEADKey, nonce: Nonce24): AEADKey { HChaCha20Spec(key, nonce[0..16]) }

  function XNonce(nonce: Nonce24): Nonce12 { Zeros(4) + nonce[16..24] }

  function XEncrypt(key: AEADKey, nonce: Nonce24, text: seq<byte>): (r: seq<byte>)
    requires |text| <= MAX_PLAINTEXT
    ensures |r| == |text|
  {
    Encrypt(XKey(key, nonce), XNonce(nonce), text)
  }

  function XSeal(key: AEADKey, nonce: Nonce24, plaintext: seq<byte>, aad: seq<byte>): seq<byte>
    requires |plaintext| <= MAX_PLAINTEXT
  {
    Seal(XKey(key, nonce), XNonce(nonce), plaintext, aad)
  }

  function XOpen(key: AEADKey, nonce: Nonce24, sealed: seq<byte>, aad: seq<byte>): Option<seq<byte>>
    requires |sealed| <= MAX_CIPHERTEXT
  {
    Open(XKey(key, nonce), XNonce(nonce), sealed, aad)
  }

  /** The extended AEAD encrypts with the stream of the cipher built from the 24 byte nonce, from block 1. */
  lemma XSealKeystream(key: AEADKey, nonce: Nonce24, plaintext: seq<byte>, aad: seq<byte>)
    requires |plaintext| <= MAX_PLAINTEXT
    ensures XSeal(key, nonce, plaintext, aad)[..|plaintext|]
         == XorStream(ChaCha20.EffectiveKey(key, nonce), ChaCha20.EffectiveNonce(nonce), BLOCK_SIZE, plaintext)
  {
    hide XorStream, TagOf, HChaCha20Spec;
  }

  // Where things lie in memory.

  /** What the MAC absorbs, by position: the additional data from 0 on, the ciphertext from the next multiple of 16
      on, zeros between, and then the two lengths, that of the additional data first. */
  lemma MacBytes(aad: seq<byte>, c: seq<byte>, k: nat, n: nat)
    requires |aad| < B64 && |c| < B64
    requires k == (|aad| + 15) / 16 * 16 && n == k + (|c| + 15) / 16 * 16 + 16
    ensures |MacData(aad, c)| == n
    ensures MacData(aad, c)[..|aad|] == aad && MacData(aad, c)[|aad|..k] == Zeros(k - |aad|)
    ensures MacData(aad, c)[k..k + |c|] == c && MacData(aad, c)[k + |c|..n - 16] == Zeros(n - 16 - k - |c|)
    ensures LE(MacData(aad, c)[n - 16..n - 8]) == |aad| && LE(MacData(aad, c)[n - 8..n]) == |c|
  {
    MacDataIs(aad, c);
    PadLengthIs(|aad|);
    PadLengthIs(|c|);
    LengthField(|aad|);
    LengthField(|c|);
    hide *;
    SixParts(MacData(aad, c), aad, Zeros(PadLength(|aad|)), c, Zeros(PadLength(|c|)), ToLE(|aad|, 8), ToLE(|c|, 8),
      k, n);
  }

  lemma LengthField(n: nat)
    requires n < B64
    ensures LE(ToLE(n, 8)) == n
  {
    hide LE, ToLE, Pow2;
    PowersOfTwo();
    LEofToLE(n, 8);
  }

  lemma MacDataIs(aad: seq<byte>, c: seq<byte>)
    ensures MacData(aad, c)
         == (aad + Zeros(PadLength(|aad|))) + (c + Zeros(PadLength(|c|))) + ToLE(|aad|, 8) + ToLE(|c|, 8)
  {
    hide ToLE, PadLength;
  }

  lemma PadLengthIs(n: nat)
    ensures n + PadLength(n) == (n + 15) / 16 * 16
  {
  }

  lemma SixParts(d: seq<byte>, a: seq<byte>, p: seq<byte>, b: seq<byte>, q: seq<byte>, x: seq<byte>, y: seq<byte>,
                 k: nat, n: nat)
    requires d == (a + p) + (b + q) + x + y && |x| == 8 && |y| == 8
    requires k == |a| + |p| && n == k + |b| + |q| + 16
    ensures |d| == n && d[..|a|] == a && d[|a|..k] == p && d[k..k + |b|] == b && d[k + |b|..n - 16] == q
    ensures d[n - 16..n - 8] == x && d[n - 8..n] == y
  {
  }

  /** Section 2.6: the one-time key is the first half of block 0. */
  lemma PolyKeyIsBlock(key: AEADKey, nonce: Nonce12)
    ensures PolyKey(key, nonce) == Block(Words(key), 0, Words(nonce))[..32]
  {
    hide Block, Words, XorByte;
    var b := Block(Words(key), 0, Words(nonce));
    forall i | 0 <= i < 32 ensures PolyKey(key, nonce)[i] == b[i] {
      assert PolyKey(key, nonce)[i] == XorByte(0, b[i]);
      XorZero(b[i]);
    }
  }

  lemma XorZero(x: byte)
    ensures XorByte(0, x) == x
  {
    WithZero(x);
  }

  function BlockByte(key: AEADKey, nonce: Nonce12, counter: u32, j: nat): byte
    requires j < 64
  {
    Block(Words(key), counter, Words(nonce))[j]
  }

  /** Section 2.8: byte i of the text meets byte j of block c, counting blocks from 1. */
  lemma SealByte(key: AEADKey, nonce: Nonce12, p: seq<byte>, aad: seq<byte>, c: u32, j: nat, i: nat)
    requires |p| <= MAX_PLAINTEXT && i < |p| && j < 64 && i == 64 * (c - 1) + j
    ensures Seal(key, nonce, p, aad)[i] == XorByte(p[i], BlockByte(key, nonce, c, j))
  {
    hide Words, XorByte, TagOf, Block;
    assert Seal(key, nonce, p, aad)[i] == Encrypt(key, nonce, p)[i];
    assert (BLOCK_SIZE + i) / BLOCK_SIZE == c && (BLOCK_SIZE + i) % BLOCK_SIZE == j;
  }

  /** The tag of what comes before it is at the end. */
  lemma SealTag(key: AEADKey, nonce: Nonce12, p: seq<byte>, aad: seq<byte>)
    requires |p| <= MAX_PLAINTEXT
    ensures var s := Seal(key, nonce, p, aad);
      |s| == |p| + 16 && s[|p|..] == Poly1305Spec.Tag(PolyKey(key, nonce), MacData(aad, s[..|p|]))
  {
    hide MacData, PolyKey, Poly1305Spec.Tag, Encrypt;
    assert Seal(key, nonce, p, aad)[..|p|] == Encrypt(key, nonce, p);
  }

  /** The derived key is made from the first sixteen bytes of a long nonce; four zeros and the rest are the nonce. */
  lemma LongNonceParts(key: AEADKey, head: seq<byte>, tail: seq<byte>)
    requires |head| == 16 && |tail| == 8
    ensures XKey(key, head + tail) == HChaCha20Spec(key, head) && XNonce(head + tail) == [0, 0, 0, 0] + tail
    ensures ChaCha20.EffectiveKey(key, head + tail) == Words(HChaCha20Spec(key, head))
    ensures ChaCha20.EffectiveNonce(head + tail) == Words([0, 0, 0, 0] + tail)
  {
    hide HChaCha20Spec, Words;
    assert (head + tail)[0..16] == head && (head + tail)[16..24] == tail;
    assert Zeros(4) == [0, 0, 0, 0];
  }

  /** A short nonce is used as it is. */
  lemma ShortNonce(key: AEADKey, nonce: Nonce12)
    ensures ChaCha20.EffectiveKey(key, nonce) == Words(key) && ChaCha20.EffectiveNonce(nonce) == Words(nonce)
  {
  }

  /** A text is short enough exactly when its blocks, counted from 1, have 32-bit numbers; the tag comes on top. */
  lemma LimitIff(n: nat)
    ensures n <= MAX_PLAINTEXT <==> (n + 63) / 64 <= 0xFFFF_FFFF
    ensures n <= MAX_PLAINTEXT <==> n + 16 <= MAX_CIPHERTEXT
  {
  }
}
