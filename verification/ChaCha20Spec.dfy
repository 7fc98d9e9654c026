// ChaCha20 as sections 2.1 to 2.4 of RFC 8439 state it, on a state of sixteen words.
module ChaCha20Spec {
  import opened Bits
  import opened Bytes

  type State = s: seq<u32> | |s| == 16 witness seq(16, i => 0)
  type KeyWords = k: seq<u32> | |k| == 8 witness seq(8, i => 0)
  type NonceWords = n: seq<u32> | |n| == 3 witness seq(3, i => 0)

  const BLOCK_SIZE: int := 64
  /** Keystream bytes of one key and nonce: 2^32 blocks. */
  const STREAM_END: int := 0x40_0000_0000

  const J0: u32 := 0x61707865
  const J1: u32 := 0x3320646e
  const J2: u32 := 0x79622d32
  const J3: u32 := 0x6b206574

  function RotateLeft32(x: u32, n: nat): u32
    decreases n
  {
    if n == 0 then x else RotateLeft32(2 * x % B32 + x / 0x8000_0000, n - 1)
  }

  function RotateRight32(x: u32, n: nat): u32
    decreases n
  {
    if n == 0 then x else RotateRight32(x / 2 + x % 2 * 0x8000_0000, n - 1)
  }

  function QuarterRound(a: u32, b: u32, c: u32, d: u32): (u32, u32, u32, u32)
  {
    var a1 := Add32(a, b);
    var d1 := RotateLeft32(Xor32(d, a1), 16);
    var c1 := Add32(c, d1);
    var b1 := RotateLeft32(Xor32(b, c1), 12);
    var a2 := Add32(a1, b1);
    var d2 := RotateLeft32(Xor32(d1, a2), 8);
    var c2 := Add32(c1, d2);
    var b2 := RotateLeft32(Xor32(b1, c2), 7);
    (a2, b2, c2, d2)
  }

  /** The steps of QuarterRound undone in the opposite order. */
  function InverseQuarterRound(a2: u32, b2: u32, c2: u32, d2: u32): (u32, u32, u32, u32)
  {
    var b1 := Xor32(RotateRight32(b2, 7), c2);
    var c1 := Sub32(c2, d2);
    var d1 := Xor32(RotateRight32(d2, 8), a2);
    var a1 := Sub32(a2, b1);
    var b := Xor32(RotateRight32(b1, 12), c1);
    var c := Sub32(c1, d1);
    var d := Xor32(RotateRight32(d1, 16), a1);
    var a := Sub32(a1, b);
    (a, b, c, d)
  }

  lemma {:induction false} RotationsCancel(x: u32, n: nat)
    ensures RotateRight32(RotateLeft32(x, n), n) == x
    decreases n
  {
    if n > 0 {
      var y := 2 * x % B32 + x / 0x8000_0000;
      RotateLeftFirst(x, n);
      OneBitBack(x);
      hide RotateLeft32, RotateRight32;
      RotationsCancel(y, n - 1);
      RotateRightLast(RotateLeft32(y, n - 1), n - 1);
    }
  }

  lemma RotateLeftFirst(x: u32, n: nat)
    requires n > 0
    ensures RotateLeft32(x, n) == RotateLeft32(2 * x % B32 + x / 0x8000_0000, n - 1)
  {
  }

  lemma OneBitBack(x: u32)
    ensures var y := 2 * x % B32 + x / 0x8000_0000;
      y < B32 && y / 2 + y % 2 * 0x8000_0000 == x
  {
  }

  lemma {:induction false} RotateRightLast(x: u32, n: nat)
    ensures RotateRight32(x, n + 1) == (var y := RotateRight32(x, n); y / 2 + y % 2 * 0x8000_0000)
    decreases n
  {
    if n > 0 {
      RotateRightLast(x / 2 + x % 2 * 0x8000_0000, n - 1);
    }
  }

  lemma AddSubCancel(x: u32, y: u32)
    ensures Sub32(Add32(x, y), y) == x
  {
  }

  /** The quarter round loses nothing: it permutes the four-word states. */
  lemma QuarterRoundInvertible(a: u32, b: u32, c: u32, d: u32)
    ensures var q := QuarterRound(a, b, c, d); InverseQuarterRound(q.0, q.1, q.2, q.3) == (a, b, c, d)
  {
    hide RotateLeft32, RotateRight32, Bitwise, Add32, Sub32;
    var a1 := Add32(a, b);
    var d1 := RotateLeft32(Xor32(d, a1), 16);
    var c1 := Add32(c, d1);
    var b1 := RotateLeft32(Xor32(b, c1), 12);
    var a2 := Add32(a1, b1);
    var d2 := RotateLeft32(Xor32(d1, a2), 8);
    var c2 := Add32(c1, d2);
    RotationsCancel(Xor32(b1, c2), 7);
    RotationsCancel(Xor32(d1, a2), 8);
    RotationsCancel(Xor32(b, c1), 12);
    RotationsCancel(Xor32(d, a1), 16);
    XorInvolution(b1, c2);
    XorInvolution(d1, a2);
    XorInvolution(b, c1);
    XorInvolution(d, a1);
    AddSubCancel(c1, d2);
    AddSubCancel(a1, b1);
    AddSubCancel(c, d1);
    AddSubCancel(a, b);
  }

  /** QUARTERROUND(x, y, z, w) on the words of a state, section 2.2. */
  function QuarterRoundAt(s: State, x: nat, y: nat, z: nat, w: nat): State
    requires x < 16 && y < 16 && z < 16 && w < 16
  {
    var q := QuarterRound(s[x], s[y], s[z], s[w]);
    s[x := q.0][y := q.1][z := q.2][w := q.3]
  }

  function ColumnRound(s: State): State
  {
    QuarterRoundAt(QuarterRoundAt(QuarterRoundAt(QuarterRoundAt(s,
      0, 4, 8, 12), 1, 5, 9, 13), 2, 6, 10, 14), 3, 7, 11, 15)
  }

  function DiagonalRound(s: State): State
  {
    QuarterRoundAt(QuarterRoundAt(QuarterRoundAt(QuarterRoundAt(s,
      0, 5, 10, 15), 1, 6, 11, 12), 2, 7, 8, 13), 3, 4, 9, 14)
  }

  function InnerBlocks(s: State, n: nat): State
  {
    if n == 0 then s else DiagonalRound(ColumnRound(InnerBlocks(s, n - 1)))
  }

  function InitialState(key: KeyWords, counter: u32, nonce: NonceWords): State
  {
    [J0, J1, J2, J3] + key + [counter] + nonce
  }

  function AddStates(s: State, t: State): State
  {
    seq(16, i requires 0 <= i < 16 => Add32(s[i], t[i]))
  }

  function Serialize(words: seq<u32>): (r: seq<byte>)
    ensures |r| == 4 * |words|
  {
    if words == [] then [] else ToLE(words[0], 4) + Serialize(words[1..])
  }

  /** The block function of section 2.3. */
  function Block(key: KeyWords, counter: u32, nonce: NonceWords): (r: seq<byte>)
    ensures |r| == BLOCK_SIZE
  {
    var s := InitialState(key, counter, nonce);
    Serialize(AddStates(InnerBlocks(s, 10), s))
  }

  function KeyByte(key: KeyWords, nonce: NonceWords, at: nat): byte
    requires at < STREAM_END
  {
    Block(key, at / BLOCK_SIZE, nonce)[at % BLOCK_SIZE]
  }

  /** src combined with the keystream from position pos on. */
  function XorStream(key: KeyWords, nonce: NonceWords, pos: nat, src: seq<byte>): (r: seq<byte>)
    requires pos + |src| <= STREAM_END
    ensures |r| == |src|
  {
    hide XorByte, KeyByte;
    seq(|src|, i requires 0 <= i < |src| => XorByte(src[i], KeyByte(key, nonce, pos + i)))
  }

  function XorBytes(a: seq<byte>, b: seq<byte>): (r: seq<byte>)
    requires |a| == |b|
    ensures |r| == |a|
  {
    seq(|a|, i requires 0 <= i < |a| => XorByte(a[i], b[i]))
  }

  lemma XorStreamSplit(key: KeyWords, nonce: NonceWords, pos: nat, a: seq<byte>, b: seq<byte>)
    requires pos + |a| + |b| <= STREAM_END
    ensures XorStream(key, nonce, pos, a + b)
         == XorStream(key, nonce, pos, a) + XorStream(key, nonce, pos + |a|, b)
  {
    hide XorByte, KeyByte;
    var whole := XorStream(key, nonce, pos, a + b);
    var parts := XorStream(key, nonce, pos, a) + XorStream(key, nonce, pos + |a|, b);
    forall i | 0 <= i < |whole| ensures whole[i] == parts[i] {
      if i >= |a| {
        assert (a + b)[i] == b[i - |a|];
        assert pos + i == pos + |a| + (i - |a|);
      }
    }
  }

  /** Decryption is encryption: a stream applied twice at the same position cancels. */
  lemma XorStreamInvolution(key: KeyWords, nonce: NonceWords, pos: nat, src: seq<byte>)
    requires pos + |src| <= STREAM_END
    ensures XorStream(key, nonce, pos, XorStream(key, nonce, pos, src)) == src
  {
    hide KeyByte;
    var once := XorStream(key, nonce, pos, src);
    var twice := XorStream(key, nonce, pos, once);
    forall i | 0 <= i < |src| ensures twice[i] == src[i] {
      XorInvolution(src[i], KeyByte(key, nonce, pos + i));
    }
  }

  /** Within one block the stream is that block of section 2.3. */
  lemma XorStreamOneBlock(key: KeyWords, nonce: NonceWords, counter: u32, src: seq<byte>)
    requires |src| == BLOCK_SIZE
    ensures XorStream(key, nonce, BLOCK_SIZE * counter, src) == XorBytes(src, Block(key, counter, nonce))
  {
    hide XorByte, Block;
    var x := XorStream(key, nonce, BLOCK_SIZE * counter, src);
    var y := XorBytes(src, Block(key, counter, nonce));
    forall i | 0 <= i < BLOCK_SIZE ensures x[i] == y[i] {
      assert (BLOCK_SIZE * counter + i) / BLOCK_SIZE == counter;
      assert (BLOCK_SIZE * counter + i) % BLOCK_SIZE == i;
    }
  }

  lemma {:induction false} SerializeSnoc(words: seq<u32>, w: u32)
    ensures Serialize(words + [w]) == Serialize(words) + ToLE(w, 4)
  {
    hide ToLE;
    if words == [] {
      assert words + [w] == [w];
      assert Serialize([w]) == ToLE(w, 4) + Serialize([]);
    } else {
      SerializeSnoc(words[1..], w);
      assert (words + [w])[1..] == words[1..] + [w];
    }
  }

  /** Little endian words of a byte string. */
  function Words(s: seq<byte>): (w: seq<u32>)
    requires |s| % 4 == 0
    ensures |w| == |s| / 4
  {
    if s == [] then [] else [Uint32(s[..4])] + Words(s[4..])
  }

  lemma {:induction false} WordsOfSerialize(w: seq<u32>)
    ensures Words(Serialize(w)) == w
  {
    hide LE, ToLE;
    if w != [] {
      var s := Serialize(w);
      assert s[..4] == ToLE(w[0], 4) && s[4..] == Serialize(w[1..]);
      PowersOfTwo();
      LEofToLE(w[0], 4);
      WordsOfSerialize(w[1..]);
    }
  }

  /** A 16 byte nonce fills the counter and the nonce words, section 2.2 of draft-irtf-cfrg-xchacha-01. */
  function HChaChaState(key: seq<byte>, nonce: seq<byte>): State
    requires |key| == 32 && |nonce| == 16
  {
    [J0, J1, J2, J3] + Words(key) + Words(nonce)
  }

  function HChaCha20Spec(key: seq<byte>, nonce: seq<byte>): (r: seq<byte>)
    requires |key| == 32 && |nonce| == 16
    ensures |r| == 32
  {
    var s := InnerBlocks(HChaChaState(key, nonce), 10);
    Serialize(s[0..4] + s[12..16])
  }

  /** HChaCha20 is a ChaCha20 block with the final addition taken back, on the outer two rows. */
  lemma HChaChaFromBlock(key: seq<byte>, nonce: seq<byte>, i: nat)
    requires |key| == 32 && |nonce| == 16 && i < 8
    ensures var w := Words(nonce);
      var j := if i < 4 then i else i + 8;
      Words(HChaCha20Spec(key, nonce))[i]
        == Sub32(Words(Block(Words(key), w[0], w[1..]))[j], InitialState(Words(key), w[0], w[1..])[j])
  {
    hide InnerBlocks, Serialize;
    var w := Words(nonce);
    var init := InitialState(Words(key), w[0], w[1..]);
    assert init == HChaChaState(key, nonce);
    var s := InnerBlocks(init, 10);
    WordsOfSerialize(s[0..4] + s[12..16]);
    WordsOfSerialize(AddStates(s, init));
    var j := if i < 4 then i else i + 8;
    AddSubCancel(s[j], init[j]);
  }
}
