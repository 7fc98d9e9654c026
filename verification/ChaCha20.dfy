// The stream cipher of chacha_generic.go and xor.go: cached first round, leftover
// buffer, 32-bit block counter. Proved against ChaCha20Spec.
module ChaCha20 {
  import opened Bits
  import opened Bytes
  import opened Results
  import opened Slices
  import opened ChaCha20Spec

  const KEY_SIZE: int := 32
  const NONCE_SIZE: int := 12
  const NONCE_SIZE_X: int := 24

  /** A column round word by word: the four quarter rounds touch disjoint columns. */
  lemma ColumnRoundWords(s: State)
    ensures ColumnRound(s) == (
      var q := QuarterRound(s[0], s[4], s[8], s[12]);
      var r := QuarterRound(s[1], s[5], s[9], s[13]);
      var t := QuarterRound(s[2], s[6], s[10], s[14]);
      var u := QuarterRound(s[3], s[7], s[11], s[15]);
      [q.0, r.0, t.0, u.0, q.1, r.1, t.1, u.1, q.2, r.2, t.2, u.2, q.3, r.3, t.3, u.3])
  {
    hide QuarterRound;
  }

  lemma DiagonalRoundWords(s: State)
    ensures DiagonalRound(s) == (
      var q := QuarterRound(s[0], s[5], s[10], s[15]);
      var r := QuarterRound(s[1], s[6], s[11], s[12]);
      var t := QuarterRound(s[2], s[7], s[8], s[13]);
      var u := QuarterRound(s[3], s[4], s[9], s[14]);
      [q.0, r.0, t.0, u.0, u.1, q.1, r.1, t.1, t.2, u.2, q.2, r.2, r.3, t.3, u.3, q.3])
  {
    hide QuarterRound;
  }

  /** addXor: dst gets src combined with the little endian bytes of a + b, on either kind of platform. */
  method AddXor(dst: Slice, src: Slice, a: u32, b: u32, unaligned: bool)
    requires dst.Valid() && src.Valid() && dst.len == src.len == 4
    requires !InexactOverlap(dst, src)
    modifies dst.data
    ensures dst.data[..] == Patched(old(dst.data[..]), dst.off, XorBytes(old(src.Bytes()), ToLE(Add32(a, b), 4)))
  {
    hide Bitwise, LE, ToLE, XorByte;
    var sum := Add32(a, b);
    if unaligned {
      AddXorWord(dst, src, sum);
    } else {
      AddXorBytes(dst, src, sum);
    }
  }

  /** Four loads, one word operation, four stores. */
  method AddXorWord(dst: Slice, src: Slice, sum: u32)
    requires dst.Valid() && src.Valid() && dst.len == src.len == 4
    modifies dst.data
    ensures dst.data[..] == Patched(old(dst.data[..]), dst.off, XorBytes(old(src.Bytes()), ToLE(sum, 4)))
  {
    hide Bitwise, LE, ToLE, Xor32;
    var s, o := src.data, src.off;
    assert src.Bytes() == [s[o], s[o + 1], s[o + 2], s[o + 3]];
    XorWord(src.Bytes(), sum);
    var v := Xor32(JoinBytes(s[o], s[o + 1], s[o + 2], s[o + 3]), sum);
    var d, at := dst.data, dst.off;
    ghost var content, w := d[..], XorBytes(src.Bytes(), ToLE(sum, 4));
    assert w == [v % 0x100, v / 0x100 % 0x100, v / 0x1_0000 % 0x100, v / 0x100_0000 % 0x100];
    d[at], d[at + 1] := v % 0x100, v / 0x100 % 0x100;
    d[at + 2], d[at + 3] := v / 0x1_0000 % 0x100, v / 0x100_0000 % 0x100;
    assert d[..] == content[at := w[0]][at + 1 := w[1]][at + 2 := w[2]][at + 3 := w[3]];
    FourUpdates(content, at, w);
  }

  /** Byte by byte, so each load follows the store before it. */
  method AddXorBytes(dst: Slice, src: Slice, sum: u32)
    requires dst.Valid() && src.Valid() && dst.len == src.len == 4
    requires !InexactOverlap(dst, src)
    modifies dst.data
    ensures dst.data[..] == Patched(old(dst.data[..]), dst.off, XorBytes(old(src.Bytes()), ToLE(sum, 4)))
  {
    hide Bitwise, LE, ToLE, XorByte;
    FourBytes(sum);
    var d, at, s, o := dst.data, dst.off, src.data, src.off;
    ghost var content, w := d[..], XorBytes(src.Bytes(), ToLE(sum, 4));
    d[at] := XorByte(s[o], sum % 0x100);
    assert d[..] == content[at := w[0]];
    d[at + 1] := XorByte(s[o + 1], sum / 0x100 % 0x100);
    assert d[..] == content[at := w[0]][at + 1 := w[1]];
    d[at + 2] := XorByte(s[o + 2], sum / 0x1_0000 % 0x100);
    assert d[..] == content[at := w[0]][at + 1 := w[1]][at + 2 := w[2]];
    d[at + 3] := XorByte(s[o + 3], sum / 0x100_0000 % 0x100);
    assert d[..] == content[at := w[0]][at + 1 := w[1]][at + 2 := w[2]][at + 3 := w[3]];
    FourUpdates(content, at, w);
  }

  lemma FourUpdates(content: seq<byte>, at: nat, w: seq<byte>)
    requires |w| == 4 && at + 4 <= |content|
    ensures content[at := w[0]][at + 1 := w[1]][at + 2 := w[2]][at + 3 := w[3]] == Patched(content, at, w)
  {
  }

  lemma FourBytes(v: u32)
    ensures ToLE(v, 4) == [v % 0x100, v / 0x100 % 0x100, v / 0x1_0000 % 0x100, v / 0x100_0000 % 0x100]
  {
    assert ToLE(v, 4) == [v % 0x100] + ToLE(v / 0x100, 3);
    assert ToLE(v / 0x100, 3) == [v / 0x100 % 0x100] + ToLE(v / 0x100 / 0x100, 2);
    assert ToLE(v / 0x1_0000, 2) == [v / 0x1_0000 % 0x100] + ToLE(v / 0x1_0000 / 0x100, 1);
  }

  /** uint32(b0) | uint32(b1)<<8 | uint32(b2)<<16 | uint32(b3)<<24. */
  function JoinBytes(b0: byte, b1: byte, b2: byte, b3: byte): (v: u32)
    ensures v == LE([b0, b1, b2, b3])
  {
    JoinedBytes(b0, b1, b2, b3);
    Or(Or(Or(b0, b1 * 0x100), b2 * 0x1_0000), b3 * 0x100_0000)
  }

  lemma JoinedBytes(b0: byte, b1: byte, b2: byte, b3: byte)
    ensures Or(Or(Or(b0, b1 * 0x100), b2 * 0x1_0000), b3 * 0x100_0000) == LE([b0, b1, b2, b3])
    ensures LE([b0, b1, b2, b3]) < B32
  {
    hide Bitwise, LE;
    PowersOfTwo();
    ShlIsProduct(b1, 8, 0x100);
    ShlIsProduct(b2, 16, 0x1_0000);
    ShlIsProduct(b3, 24, 0x100_0000);
    OrDisjoint(b1, b0, 8);
    OrDisjoint(b2, b0 + b1 * 0x100, 16);
    OrDisjoint(b3, b0 + b1 * 0x100 + b2 * 0x1_0000, 24);
    LEFour(b0, b1, b2, b3);
  }

  lemma LEFour(b0: byte, b1: byte, b2: byte, b3: byte)
    ensures LE([b0, b1, b2, b3]) == b0 + b1 * 0x100 + b2 * 0x1_0000 + b3 * 0x100_0000
  {
    var s := [b0, b1, b2, b3];
    assert s[1..] == [b1, b2, b3] && s[1..][1..] == [b2, b3] && s[1..][1..][1..] == [b3];
    assert LE([b3]) == b3;
    assert LE([b2, b3]) == b2 + 0x100 * b3;
  }

  /** Combining words is combining their bytes. */
  lemma {:induction false} XorLE(a: seq<byte>, b: seq<byte>)
    requires |a| == |b|
    ensures Xor(LE(a), LE(b)) == LE(XorBytes(a, b))
  {
    hide Bitwise, XorByte;
    if a != [] {
      XorLE(a[1..], b[1..]);
      XorLowByte(LE(a[1..]), a[0], LE(b[1..]), b[0]);
      assert XorBytes(a, b)[1..] == XorBytes(a[1..], b[1..]);
      XorByteIsXor(a[0], b[0]);
    } else {
      WithZero(0);
    }
  }

  lemma XorLowByte(x: nat, x0: byte, y: nat, y0: byte)
    ensures Xor(x * 0x100 + x0, y * 0x100 + y0) == Xor(x, y) * 0x100 + Xor(x0, y0)
  {
    hide Bitwise;
    PowersOfTwo();
    BitwiseSplit(XOR, x, x0, y, y0, 8);
    ShlIsProduct(x, 8, 0x100);
    ShlIsProduct(y, 8, 0x100);
    ShlIsProduct(Xor(x, y), 8, 0x100);
  }

  lemma XorByteIsXor(x: byte, y: byte)
    ensures XorByte(x, y) == Xor(x, y)
  {
  }

  lemma Xor32IsXor(x: u32, y: u32)
    ensures Xor32(x, y) == Xor(x, y)
  {
  }

  lemma XorWord(s: seq<byte>, w: u32)
    requires |s| == 4
    ensures LE(s) < B32
    ensures var v := Xor32(LE(s), w);
      XorBytes(s, ToLE(w, 4)) == [v % 0x100, v / 0x100 % 0x100, v / 0x1_0000 % 0x100, v / 0x100_0000 % 0x100]
  {
    hide XorBytes, LE, ToLE, Xor32;
    XorWordLE(s, w);
    FourBytes(Xor32(LE(s), w));
  }

  lemma XorWordLE(s: seq<byte>, w: u32)
    requires |s| == 4
    ensures LE(s) < B32 && XorBytes(s, ToLE(w, 4)) == ToLE(Xor32(LE(s), w), 4)
  {
    hide XorBytes, LE, ToLE, Pow2, Xor32, Xor;
    PowersOfTwo();
    LEBound(s);
    LEofToLE(w, 4);
    XorLE(s, ToLE(w, 4));
    Xor32IsXor(LE(s), w);
    ToLEofLE(XorBytes(s, ToLE(w, 4)));
  }

  /** What is left to read of src is untouched by writing the processed part of dst. */
  lemma RestUntouched(content: seq<byte>, at: nat, s: seq<byte>, off: nat, len: nat)
    requires at + |s| <= |content| && |s| <= len && off + len <= |content|
    requires off == at || at + len <= off || off + len <= at
    ensures Patched(content, at, s)[off + |s|..off + len] == content[off + |s|..off + len]
  {
    forall k | off + |s| <= k < off + len ensures Patched(content, at, s)[k] == content[k] {}
  }

  /** How far an operation on two windows of the same length has come: done bytes of dst are written. */
  ghost predicate Progress(dst: Slice, src: Slice, content: seq<byte>, input: seq<byte>, done: seq<byte>)
    reads dst.data, src.data
  {
    && dst.Valid() && src.Valid() && dst.len == src.len == |input| && |done| <= src.len
    && !InexactOverlap(dst, src) && |content| == dst.data.Length
    && (dst.data == src.data ==> input == content[src.off..src.off + src.len])
    && dst.data[..] == Patched(content, dst.off, done)
    && src.Bytes()[|done|..] == input[|done|..]
  }

  lemma ProgressStart(dst: Slice, src: Slice)
    requires dst.Valid() && src.Valid() && dst.len == src.len && !InexactOverlap(dst, src)
    ensures Progress(dst, src, dst.data[..], src.Bytes(), [])
  {
  }

  lemma ProgressJoin(dst: Slice, src: Slice, content: seq<byte>, input: seq<byte>, done: seq<byte>, piece: seq<byte>)
    requires dst.Valid() && src.Valid() && dst.len == src.len == |input| && |done| + |piece| <= src.len
    requires !InexactOverlap(dst, src) && |content| == dst.data.Length
    requires dst.data == src.data ==> input == content[src.off..src.off + src.len]
    requires dst.data != src.data ==> src.Bytes()[|done|..] == input[|done|..]
    requires dst.data[..] == Patched(Patched(content, dst.off, done), dst.off + |done|, piece)
    ensures Progress(dst, src, content, input, done + piece)
  {
    PatchedTwice(content, dst.off, done, piece);
    if dst.data != src.data {
      assert src.Bytes()[|done + piece|..] == src.Bytes()[|done|..][|piece|..];
      assert input[|done + piece|..] == input[|done|..][|piece|..];
    }
    ProgressKept(dst, src, content, input, done + piece);
  }

  lemma ProgressEnd(dst: Slice, src: Slice, content: seq<byte>, input: seq<byte>, done: seq<byte>)
    requires Progress(dst, src, content, input, done)
    ensures dst.off + |done| <= |content| && dst.data[..] == Patched(content, dst.off, done)
  {
  }

  /** One more word written at the front of the remaining windows. */
  method AddXorNext(dst: Slice, src: Slice, a: u32, b: u32, unaligned: bool,
                    ghost content: seq<byte>, ghost input: seq<byte>, ghost done: seq<byte>, n: nat)
    requires Progress(dst, src, content, input, done) && n == |done| && n + 4 <= src.len
    modifies dst.data
    ensures Progress(dst, src, content, input, done + XorBytes(input[n..n + 4], ToLE(Add32(a, b), 4)))
  {
    hide ToLE, XorByte, Add32;
    ghost var word := XorBytes(input[n..n + 4], ToLE(Add32(a, b), 4));
    SubSlice(src, n, 4);
    assert src.Drop(n).Take(4).Bytes() == input[n..][..4] == input[n..n + 4];
    AddXor(dst.Drop(n).Take(4), src.Drop(n).Take(4), a, b, unaligned);
    ProgressJoin(dst, src, content, input, done, word);
  }

  lemma ProgressKept(dst: Slice, src: Slice, content: seq<byte>, input: seq<byte>, done: seq<byte>)
    requires dst.Valid() && src.Valid() && dst.len == src.len == |input| && |done| <= src.len
    requires !InexactOverlap(dst, src) && |content| == dst.data.Length
    requires dst.data == src.data ==> input == content[src.off..src.off + src.len]
    requires dst.data != src.data ==> src.Bytes()[|done|..] == input[|done|..]
    requires dst.data[..] == Patched(content, dst.off, done)
    ensures Progress(dst, src, content, input, done)
  {
    if dst.data == src.data {
      RestUntouched(content, dst.off, done, src.off, src.len);
      assert src.Bytes()[|done|..] == Patched(content, dst.off, done)[src.off + |done|..src.off + src.len];
      assert input[|done|..] == content[src.off + |done|..src.off + src.len];
    }
  }

  /** The sixteen addXor calls that end a block. */
  method XorBlock(dst: Slice, src: Slice, x: State, c: State, unaligned: bool)
    requires dst.Valid() && src.Valid() && dst.len == src.len == BLOCK_SIZE
    requires !InexactOverlap(dst, src)
    modifies dst.data
    ensures dst.data[..] == Patched(old(dst.data[..]), dst.off, XorBytes(old(src.Bytes()), Serialize(AddStates(x, c))))
  {
    hide ToLE, Serialize, XorByte, Patched, InexactOverlap;
    ghost var content, input, sum := dst.data[..], src.Bytes(), AddStates(x, c);
    ghost var done := [];
    ProgressStart(dst, src);
    SerializeEmpty();
    for k := 0 to 16
      invariant Progress(dst, src, content, input, done) && |done| == 4 * k
      invariant done == XorBytes(input[..4 * k], Serialize(sum[..k]))
    {
      AddXorNext(dst, src, x[k], c[k], unaligned, content, input, done, 4 * k);
      ghost var word := XorBytes(input[4 * k..4 * k + 4], ToLE(sum[k], 4));
      SerializeSnoc(sum[..k], sum[k]);
      assert sum[..k + 1] == sum[..k] + [sum[k]];
      XorBytesAppend(input[..4 * k], input[4 * k..4 * k + 4], Serialize(sum[..k]), ToLE(sum[k], 4));
      assert input[..4 * k] + input[4 * k..4 * k + 4] == input[..4 * (k + 1)];
      done := done + word;
    }
    assert sum[..16] == sum && input[..64] == input;
  }

  lemma SerializeEmpty()
    ensures Serialize([]) == []
  {
  }

  lemma XorBytesAppend(a: seq<byte>, a': seq<byte>, b: seq<byte>, b': seq<byte>)
    requires |a| == |b| && |a'| == |b'|
    ensures XorBytes(a, b) + XorBytes(a', b') == XorBytes(a + a', b + b')
  {
    hide XorByte;
  }

  lemma XorStreamZeros(key: KeyWords, nonce: NonceWords, pos: nat, m: nat, n: nat)
    requires m <= n && pos + n <= STREAM_END
    ensures XorStream(key, nonce, pos, Zeros(n))[m..] == XorStream(key, nonce, pos + m, Zeros(n - m))
    ensures XorStream(key, nonce, pos, Zeros(n))[..m] == XorStream(key, nonce, pos, Zeros(m))
  {
    hide XorByte, KeyByte;
    XorStreamSplit(key, nonce, pos, Zeros(m), Zeros(n - m));
    assert Zeros(m) + Zeros(n - m) == Zeros(n);
  }

  /** Source bytes combined with keystream bytes computed earlier. */
  lemma XorLeftover(key: KeyWords, nonce: NonceWords, pos: nat, src: seq<byte>)
    requires pos + |src| <= STREAM_END
    ensures XorBytes(src, XorStream(key, nonce, pos, Zeros(|src|))) == XorStream(key, nonce, pos, src)
  {
    hide XorByte, KeyByte;
    forall i | 0 <= i < |src|
      ensures XorByte(src[i], XorByte(0, KeyByte(key, nonce, pos + i))) == XorByte(src[i], KeyByte(key, nonce, pos + i))
    {
      XorByteIsXor(0, KeyByte(key, nonce, pos + i));
      WithZero(KeyByte(key, nonce, pos + i));
    }
  }

  class Cipher {
    const key: KeyWords
    const nonce: NonceWords
    const unaligned: bool // which of the two addXor branches the platform takes
    var counter: u32
    const buf: array<byte>
    var len: nat
    var overflow: bool
    var precompDone: bool
    var p1: u32 var p5: u32 var p9: u32 var p13: u32
    var p2: u32 var p6: u32 var p10: u32 var p14: u32
    var p3: u32 var p7: u32 var p11: u32 var p15: u32

    /** The cached values, once computed, are the three quarter rounds without the counter. */
    ghost predicate CacheValid()
      reads `precompDone, `p1, `p5, `p9, `p13, `p2, `p6, `p10, `p14, `p3, `p7, `p11, `p15
    {
      && (precompDone ==>
        && (p1, p5, p9, p13) == QuarterRound(J1, key[1], key[5], nonce[0])
        && (p2, p6, p10, p14) == QuarterRound(J2, key[2], key[6], nonce[1])
        && (p3, p7, p11, p15) == QuarterRound(J3, key[3], key[7], nonce[2]))
    }

    /** Keystream bytes given out or skipped so far. */
    ghost function Pos(): int
      reads this
    {
      (if overflow then STREAM_END else BLOCK_SIZE * counter) - len
    }

    ghost predicate Valid()
      reads this, buf
    {
      && CacheValid()
      && buf.Length == BLOCK_SIZE && len < BLOCK_SIZE
      && (overflow ==> counter == 0)
      && 0 <= Pos()
      && buf[BLOCK_SIZE - len..] == XorStream(key, nonce, Pos(), Zeros(len))
    }

    constructor (key: KeyWords, nonce: NonceWords, unaligned: bool)
        ensures Valid() && fresh(buf) && Pos() == 0
      ensures this.key == key && this.nonce == nonce
    {
      this.key, this.nonce, this.unaligned := key, nonce, unaligned;
      counter, len, overflow, precompDone := 0, 0, false, false;
      buf := new byte[BLOCK_SIZE](i => 0);
    }

    /** The working state after twenty rounds, the first of them partly taken from the cache. */
    method Rounds() returns (x: State)
      requires CacheValid() && precompDone
      ensures x == InnerBlocks(InitialState(key, counter, nonce), 10)
    {
      hide QuarterRound, ColumnRound, DiagonalRound;
      ghost var init := InitialState(key, counter, nonce);
      ColumnRoundWords(init);
      var (fcr0, fcr4, fcr8, fcr12) := QuarterRound(J0, key[0], key[4], counter);
      ghost var s := [fcr0, p1, p2, p3, fcr4, p5, p6, p7, fcr8, p9, p10, p11, fcr12, p13, p14, p15];
      assert ColumnRound(init) == s;
      DiagonalRoundWords(s);
      var (x0, x5, x10, x15) := QuarterRound(fcr0, p5, p10, p15);
      var (x1, x6, x11, x12) := QuarterRound(p1, p6, p11, fcr12);
      var (x2, x7, x8, x13) := QuarterRound(p2, p7, fcr8, p13);
      var (x3, x4, x9, x14) := QuarterRound(p3, fcr4, p9, p14);
      x := [x0, x1, x2, x3, x4, x5, x6, x7, x8, x9, x10, x11, x12, x13, x14, x15];
      assert InnerBlocks(init, 1) == DiagonalRound(ColumnRound(InnerBlocks(init, 0)));
      for i := 0 to 9
        invariant x == InnerBlocks(init, i + 1)
      {
        x := DoubleRound(x);
      }
    }

    /** Three quarters of the first round do not depend on the counter: computed once. */
    method Precompute()
      requires CacheValid()
      modifies `precompDone, `p1, `p5, `p9, `p13, `p2, `p6, `p10, `p14, `p3, `p7, `p11, `p15
      ensures CacheValid() && precompDone
    {
      hide QuarterRound;
      if !precompDone {
        var q := QuarterRound(J1, key[1], key[5], nonce[0]);
        p1, p5, p9, p13 := q.0, q.1, q.2, q.3;
        q := QuarterRound(J2, key[2], key[6], nonce[1]);
        p2, p6, p10, p14 := q.0, q.1, q.2, q.3;
        q := QuarterRound(J3, key[3], key[7], nonce[2]);
        p3, p7, p11, p15 := q.0, q.1, q.2, q.3;
        precompDone := true;
      }
    }

    /** The first n bytes of src are combined with the keystream from start on, in dst. */
    ghost predicate Streamed(dst: Slice, src: Slice, content: seq<byte>, input: seq<byte>, start: nat, n: nat)
      reads dst.data, src.data
    {
      && n <= |input| && start + n <= STREAM_END
      && Progress(dst, src, content, input, XorStream(key, nonce, start, input[..n]))
    }

    /** One pass of the block loop. */
    method NextBlock(dst: Slice, src: Slice, n: nat,
                     ghost content: seq<byte>, ghost input: seq<byte>, ghost start: nat)
      requires CacheValid() && precompDone && Streamed(dst, src, content, input, start, n)
      requires n + BLOCK_SIZE <= src.len && BLOCK_SIZE * counter == start + n && start + src.len <= STREAM_END
      modifies `counter, dst.data
      ensures counter == (old(counter) + 1) % B32
      ensures Streamed(dst, src, content, input, start, n + BLOCK_SIZE)
    {
      hide QuarterRound, XorByte, KeyByte, XorStream, InnerBlocks, Serialize, CacheValid, Patched, InexactOverlap;
      var x := Rounds();
      StreamNext(key, nonce, start, counter, input, n);
      XorBlockNext(dst, src, n, x, InitialState(key, counter, nonce), unaligned, content, input,
        XorStream(key, nonce, start, input[..n]));
      counter := (counter + 1) % B32;
    }

    /** xorKeyStreamBlocksGeneric: whole blocks only. */
    method XorKeyStreamBlocksGeneric(dst: Slice, src: Slice)
      requires CacheValid()
      requires dst.Valid() && src.Valid() && dst.len == src.len && src.len % BLOCK_SIZE == 0
      requires !InexactOverlap(dst, src)
      requires BLOCK_SIZE * counter + src.len <= STREAM_END
      modifies `counter, `precompDone, `p1, `p5, `p9, `p13, `p2, `p6, `p10, `p14, `p3, `p7, `p11, `p15, dst.data
      ensures CacheValid()
      ensures counter == (old(counter) + src.len / BLOCK_SIZE) % B32
      ensures dst.data[..] == Patched(old(dst.data[..]), dst.off,
                                XorStream(key, nonce, BLOCK_SIZE * old(counter), old(src.Bytes())))
    {
      hide QuarterRound, XorByte, KeyByte, InexactOverlap, Patched, XorStream, CacheValid, Progress;
      Precompute();
      ghost var content, input, start := dst.data[..], src.Bytes(), BLOCK_SIZE * counter;
      ProgressStart(dst, src);
      XorStreamEmpty(key, nonce, start);
      assert input[..0] == [];
      var n, i := 0, 0;
      while src.len - n >= BLOCK_SIZE
        invariant 0 <= n <= src.len && n == BLOCK_SIZE * i
        invariant CacheValid() && precompDone
        invariant counter == (old(counter) + i) % B32
        invariant Streamed(dst, src, content, input, start, n)
        decreases src.len - n
      {
        assert counter == old(counter) + i;
        NextBlock(dst, src, n, content, input, start);
        n, i := n + BLOCK_SIZE, i + 1;
      }
      assert input[..n] == input;
      ProgressEnd(dst, src, content, input, XorStream(key, nonce, start, input));
    }

    /** dst[i] = src[i] ^ keyStream[i] for the k bytes of leftover keystream in use. */
    method XorLeft(dst: Slice, src: Slice, left: nat, k: nat, ghost stream: seq<byte>)
      requires dst.Valid() && src.Valid() && dst.len == src.len && !InexactOverlap(dst, src)
      requires dst.data != buf && src.data != buf && buf.Length == BLOCK_SIZE
      requires k <= src.len && k <= left <= BLOCK_SIZE && stream == buf[BLOCK_SIZE - left..]
      modifies dst.data
      ensures Progress(dst, src, old(dst.data[..]), old(src.Bytes()), XorBytes(old(src.Bytes())[..k], stream[..k]))
    {
      hide XorByte, Patched, InexactOverlap;
      ghost var content, input := dst.data[..], src.Bytes();
      ProgressStart(dst, src);
      ghost var done: seq<byte> := [];
      for i := 0 to k
        invariant |done| == i && done == XorBytes(input[..i], stream[..i])
        invariant Progress(dst, src, content, input, done)
        invariant buf[BLOCK_SIZE - left..] == stream
      {
        var b := XorByte(src.data[src.off + i], buf[BLOCK_SIZE - left + i]);
        assert src.data[src.off + i] == src.Bytes()[i..][0] == input[i];
        assert b == XorByte(input[i], stream[i]);
        PutNext(dst, src, i, b, content, input, done);
        done := done + [b];
        assert done == XorBytes(input[..i + 1], stream[..i + 1]);
      }
    }

    /** Uses keystream left over from an earlier call; k bytes of it. */
    method Drain(dst: Slice, src: Slice) returns (k: nat)
      requires Valid() && dst.Valid() && src.Valid() && dst.len == src.len && !InexactOverlap(dst, src)
      requires dst.data != buf && src.data != buf
      modifies `len, dst.data
      ensures Valid() && k == Min(old(len), src.len) && len == old(len) - k && Pos() == old(Pos()) + k
      ensures Streamed(dst, src, old(dst.data[..]), old(src.Bytes()), old(Pos()), k)
    {
      hide XorByte, KeyByte, XorStream, Patched, CacheValid, Progress, XorBytes;
      k := Min(len, src.len);
      ghost var input, pos, stream := src.Bytes(), Pos(), buf[BLOCK_SIZE - len..];
      XorStreamZeros(key, nonce, pos, k, len);
      XorLeft(dst, src, len, k, stream);
      XorLeftover(key, nonce, pos, input[..k]);
      assert buf[BLOCK_SIZE - (len - k)..] == stream[k..];
      len := len - k;
    }

    /** The whole blocks of the input, straight into dst. */
    method FullBlocks(dst: Slice, src: Slice, n: nat, full: nat,
                      ghost content: seq<byte>, ghost input: seq<byte>, ghost start: nat)
      requires CacheValid() && Streamed(dst, src, content, input, start, n)
      requires full % BLOCK_SIZE == 0 && n + full <= src.len
      requires BLOCK_SIZE * counter == start + n && start + n + full <= STREAM_END
      modifies `counter, `precompDone, `p1, `p5, `p9, `p13, `p2, `p6, `p10, `p14, `p3, `p7, `p11, `p15, dst.data
      ensures CacheValid() && counter == (old(counter) + full / BLOCK_SIZE) % B32
      ensures Streamed(dst, src, content, input, start, n + full)
    {
      hide XorByte, KeyByte, XorStream, CacheValid, Patched;
      ghost var done, piece := XorStream(key, nonce, start, input[..n]), input[n..n + full];
      SubSlice(src, n, full);
      assert src.Bytes()[n..][..full] == piece;
      XorStreamSplit(key, nonce, start, input[..n], piece);
      assert input[..n] + piece == input[..n + full];
      XorKeyStreamBlocksGeneric(dst.Drop(n).Take(full), src.Drop(n).Take(full));
      ProgressJoin(dst, src, content, input, done, XorStream(key, nonce, start + n, piece));
    }

    /** buf becomes the remaining input, padded with zeros. */
    method PadBuffer(src: Slice, n: nat)
      requires buf.Length == BLOCK_SIZE && src.Valid() && src.data != buf
      requires n <= src.len && src.len - n <= BLOCK_SIZE
      modifies buf
      ensures buf[..] == src.Bytes()[n..] + Zeros(BLOCK_SIZE - (src.len - n))
    {
      var m := src.len - n;
      forall i | 0 <= i < BLOCK_SIZE { buf[i] := if i < m then src.data[src.off + n + i] else 0; }
    }

    /** The padded input becomes output followed by unused keystream. */
    method BufferBlock(ghost rest: seq<byte>)
      requires CacheValid() && buf.Length == BLOCK_SIZE && |rest| <= BLOCK_SIZE
      requires buf[..] == rest + Zeros(BLOCK_SIZE - |rest|)
      modifies this`counter, `precompDone, `p1, `p5, `p9, `p13, `p2, `p6, `p10, `p14, `p3, `p7, `p11, `p15, buf
      ensures CacheValid() && counter == (old(counter) + 1) % B32
      ensures BLOCK_SIZE * old(counter) + BLOCK_SIZE <= STREAM_END
      ensures buf[..|rest|] == XorStream(key, nonce, BLOCK_SIZE * old(counter), rest)
      ensures buf[|rest|..] == XorStream(key, nonce, BLOCK_SIZE * old(counter) + |rest|, Zeros(BLOCK_SIZE - |rest|))
    {
      hide XorByte, KeyByte, XorStream, CacheValid, Patched;
      ghost var pad := Zeros(BLOCK_SIZE - |rest|);
      ghost var out := XorStream(key, nonce, BLOCK_SIZE * counter, rest + pad);
      assert Whole(buf).Bytes() == buf[..];
      XorStreamSplit(key, nonce, BLOCK_SIZE * counter, rest, pad);
      PatchedWhole(buf[..], out);
      XorKeyStreamBlocksGeneric(Whole(buf), Whole(buf));
      assert buf[..] == out;
    }

    /** A last incomplete block goes through buf, whose tail keeps the unused keystream. */
    method LastBlock(dst: Slice, src: Slice, n: nat,
                     ghost content: seq<byte>, ghost input: seq<byte>, ghost start: nat)
      requires CacheValid() && buf.Length == BLOCK_SIZE && Streamed(dst, src, content, input, start, n)
      requires dst.data != buf && src.data != buf
      requires 0 < src.len - n < BLOCK_SIZE && BLOCK_SIZE * counter == start + n
      modifies this, buf, dst.data
      ensures CacheValid() && counter == (old(counter) + 1) % B32
      ensures len == BLOCK_SIZE - (src.len - n) && overflow == old(overflow)
      ensures start + src.len + len <= STREAM_END
      ensures Streamed(dst, src, content, input, start, src.len)
      ensures buf[BLOCK_SIZE - len..] == XorStream(key, nonce, start + src.len, Zeros(len))
    {
      hide XorByte, KeyByte, XorStream, CacheValid, Patched;
      var m := src.len - n;
      ghost var rest := input[n..];
      PadBuffer(src, n);
      BufferBlock(rest);
      XorStreamSplit(key, nonce, start, input[..n], rest);
      assert input[..n] + rest == input == input[..src.len];
      CopyNext(dst, src, n, buf, m, content, input, XorStream(key, nonce, start, input[..n]));
      len := BLOCK_SIZE - m;
    }

    /** How much keystream a call of XORKeyStream uses: all it needs, or what was left over before the counter
        panic, or none when it is refused outright. */
    ghost function Used(dst: Slice, src: Slice): (n: nat)
      requires Valid()
      reads this, buf
      ensures n <= src.len && Pos() + n <= STREAM_END && (n > 0 ==> n <= dst.len)
      ensures n == src.len || n == 0 || (Pos() + n) % BLOCK_SIZE == 0
    {
      if src.len == 0 || dst.len < src.len || InexactOverlap(dst.Take(src.len), src) then 0
      else if Pos() + src.len <= STREAM_END then src.len
      else Min(len, src.len)
    }

    /** Not ok is one of the panics of the source: small output, inexact overlap, counter overflow. */
    method XORKeyStream(dst: Slice, src: Slice) returns (ok: bool)
      requires Valid() && dst.Valid() && src.Valid()
      requires dst.data != buf && src.data != buf
      modifies this, buf, dst.data
      ensures Valid() && Pos() == old(Pos() + Used(dst, src))
      ensures ok <==> src.len == 0 || (src.len <= dst.len && !InexactOverlap(dst.Take(src.len), src)
                                       && old(Pos()) + src.len <= STREAM_END)
      ensures ok ==> old(Used(dst, src)) == src.len
      ensures dst.data[..] == Patched(old(dst.data[..]), dst.off,
                                XorStream(key, nonce, old(Pos()), old(src.Bytes()[..Used(dst, src)])))
    {
      hide XorByte, KeyByte, XorStream, CacheValid, InexactOverlap;
      XorStreamEmpty(key, nonce, Pos());
      if src.len == 0 { return true; }
      if dst.len < src.len { return false; }
      var dst := dst.Take(src.len);
      if InexactOverlap(dst, src) { return false; }

      ghost var content, input, start := dst.data[..], src.Bytes(), Pos();
      var n := Drain(dst, src);
      assert input[..src.len] == input;
      if n == src.len { return true; }
      ok := Generate(dst, src, n, content, input, start);
    }

    /** The whole blocks and then the rest, without looking at the counter limit. */
    method GenerateBlocks(dst: Slice, src: Slice, n: nat,
                          ghost content: seq<byte>, ghost input: seq<byte>, ghost start: nat)
      requires CacheValid() && buf.Length == BLOCK_SIZE && len == 0 && n < src.len
      requires BLOCK_SIZE * counter == start + n && start + src.len <= STREAM_END
      requires Streamed(dst, src, content, input, start, n)
      requires dst.data != buf && src.data != buf
      modifies this, buf, dst.data
      ensures CacheValid() && overflow == old(overflow)
      ensures counter == (old(counter) + (src.len - n + BLOCK_SIZE - 1) / BLOCK_SIZE) % B32
      ensures len == (BLOCK_SIZE - (src.len - n) % BLOCK_SIZE) % BLOCK_SIZE && start + src.len + len <= STREAM_END
      ensures buf[BLOCK_SIZE - len..] == XorStream(key, nonce, start + src.len, Zeros(len))
      ensures Streamed(dst, src, content, input, start, src.len)
    {
      hide XorByte, KeyByte, XorStream, CacheValid, Progress;
      var full := (src.len - n) - (src.len - n) % BLOCK_SIZE;
      FullBlocks(dst, src, n, full, content, input, start);
      // bufSize is one block, so filling the buffer cannot overflow the counter here.
      assert counter + 1 <= B32;
      if src.len - n - full > 0 {
        LastBlock(dst, src, n + full, content, input, start);
      } else {
        XorStreamEmpty(key, nonce, start + src.len);
        assert buf[BLOCK_SIZE - len..] == [];
        assert Zeros(0) == [];
      }
    }

    /** Everything after the leftover keystream: new blocks, if the counter has room for them. */
    method Generate(dst: Slice, src: Slice, n: nat,
                    ghost content: seq<byte>, ghost input: seq<byte>, ghost start: nat) returns (ok: bool)
      requires Valid() && len == 0 && n < src.len && Pos() == start + n
      requires Streamed(dst, src, content, input, start, n)
      requires dst.data != buf && src.data != buf
      modifies this, buf, dst.data
      ensures Valid()
      ensures ok <==> start + src.len <= STREAM_END
      ensures Pos() == if ok then start + src.len else start + n
      ensures Streamed(dst, src, content, input, start, if ok then src.len else n)
    {
      hide XorByte, KeyByte, XorStream, CacheValid, Progress, Streamed;
      BlocksNeeded(src.len - n);
      var numBlocks := (src.len - n + BLOCK_SIZE - 1) / BLOCK_SIZE;
      if overflow || counter + numBlocks > B32 {
        return false;
      } else if counter + numBlocks == B32 {
        overflow := true;
      }
      ok := true;
      assert start + src.len <= STREAM_END;
      GenerateBlocks(dst, src, n, content, input, start);
      assert counter == if overflow then 0 else old(counter) + numBlocks;
    }

    /** Not ok is the rollback panic: exactly when the new position lies before the current one. */
    method SetCounter(counter': u32) returns (ok: bool)
      requires Valid()
      modifies `counter, `len
      ensures Valid()
      ensures ok <==> old(Pos()) <= BLOCK_SIZE * counter'
      ensures ok ==> len == 0
      ensures Pos() == if ok then BLOCK_SIZE * counter' else old(Pos())
    {
      hide XorByte, KeyByte, XorStream, CacheValid;
      var outputCounter := (counter - len / BLOCK_SIZE) % B32;
      if overflow || counter' < outputCounter { return false; }
      ok := true;
      if counter' < counter {
        assert false; // needs a buffer of several blocks
      } else {
        counter := counter';
        len := 0;
        XorStreamEmpty(key, nonce, Pos());
        assert Zeros(0) == [];
      }
    }
  }

  /** Whole blocks, or the padding of the last one. */
  lemma BlocksNeeded(n: nat)
    ensures BLOCK_SIZE * ((n + BLOCK_SIZE - 1) / BLOCK_SIZE) == n + (BLOCK_SIZE - n % BLOCK_SIZE) % BLOCK_SIZE
  {
  }

  lemma StreamNext(key: KeyWords, nonce: NonceWords, start: nat, counter: u32, input: seq<byte>, n: nat)
    requires start + |input| <= STREAM_END
    requires n + BLOCK_SIZE <= |input| && BLOCK_SIZE * counter == start + n
    ensures XorStream(key, nonce, start, input[..n]) + XorBytes(input[n..n + BLOCK_SIZE], Block(key, counter, nonce))
         == XorStream(key, nonce, start, input[..n + BLOCK_SIZE])
  {
    hide XorStream, XorBytes, Block;
    var piece := input[n..n + BLOCK_SIZE];
    XorStreamOneBlock(key, nonce, counter, piece);
    XorStreamSplit(key, nonce, start, input[..n], piece);
    assert input[..n] + piece == input[..n + BLOCK_SIZE];
  }

  lemma XorStreamEmpty(key: KeyWords, nonce: NonceWords, pos: nat)
    requires pos <= STREAM_END
    ensures XorStream(key, nonce, pos, []) == []
  {
  }

  /** One pass of the round loop: a column round, then a diagonal round. */
  method DoubleRound(x: State) returns (y: State)
    ensures y == DiagonalRound(ColumnRound(x))
  {
    hide QuarterRound, ColumnRound, DiagonalRound;
    ColumnRoundWords(x);
    var (x0, x4, x8, x12) := QuarterRound(x[0], x[4], x[8], x[12]);
    var (x1, x5, x9, x13) := QuarterRound(x[1], x[5], x[9], x[13]);
    var (x2, x6, x10, x14) := QuarterRound(x[2], x[6], x[10], x[14]);
    var (x3, x7, x11, x15) := QuarterRound(x[3], x[7], x[11], x[15]);
    ghost var s := [x0, x1, x2, x3, x4, x5, x6, x7, x8, x9, x10, x11, x12, x13, x14, x15];
    assert ColumnRound(x) == s;
    DiagonalRoundWords(s);
    var (y0, y5, y10, y15) := QuarterRound(x0, x5, x10, x15);
    var (y1, y6, y11, y12) := QuarterRound(x1, x6, x11, x12);
    var (y2, y7, y8, y13) := QuarterRound(x2, x7, x8, x13);
    var (y3, y4, y9, y14) := QuarterRound(x3, x4, x9, x14);
    y := [y0, y1, y2, y3, y4, y5, y6, y7, y8, y9, y10, y11, y12, y13, y14, y15];
  }

  method XorBlockNext(dst: Slice, src: Slice, n: nat, x: State, c: State, unaligned: bool,
                      ghost content: seq<byte>, ghost input: seq<byte>, ghost done: seq<byte>)
    requires Progress(dst, src, content, input, done) && n == |done| && n + BLOCK_SIZE <= src.len
    modifies dst.data
    ensures Progress(dst, src, content, input,
              done + XorBytes(input[n..n + BLOCK_SIZE], Serialize(AddStates(x, c))))
  {
    hide Serialize, XorByte;
    ghost var piece := XorBytes(input[n..n + BLOCK_SIZE], Serialize(AddStates(x, c)));
    SubSlice(src, n, BLOCK_SIZE);
    assert src.Drop(n).Take(BLOCK_SIZE).Bytes() == input[n..][..BLOCK_SIZE] == input[n..n + BLOCK_SIZE];
    XorBlock(dst.Drop(n).Take(BLOCK_SIZE), src.Drop(n).Take(BLOCK_SIZE), x, c, unaligned);
    PatchedTwice(content, dst.off, done, piece);
    ProgressKept(dst, src, content, input, done + piece);
  }

  /** dst[i] = b as the next step of an operation on the two windows. */
  method PutNext(dst: Slice, src: Slice, i: nat, b: byte,
                 ghost content: seq<byte>, ghost input: seq<byte>, ghost done: seq<byte>)
    requires Progress(dst, src, content, input, done) && i == |done| < src.len
    modifies dst.data
    ensures Progress(dst, src, content, input, done + [b])
  {
    dst.data[dst.off + i] := b;
    assert dst.data[..] == Patched(Patched(content, dst.off, done), dst.off + i, [b]);
    ProgressJoin(dst, src, content, input, done, [b]);
  }

  /** copy(dst[n:], from[:m]) as the next step. */
  method CopyNext(dst: Slice, src: Slice, n: nat, from: array<byte>, m: nat,
                  ghost content: seq<byte>, ghost input: seq<byte>, ghost done: seq<byte>)
    requires Progress(dst, src, content, input, done) && n == |done| && n + m <= src.len
    requires from != dst.data && m <= from.Length
    modifies dst.data
    ensures Progress(dst, src, content, input, done + from[..m])
  {
    forall i | 0 <= i < m { dst.data[dst.off + n + i] := from[i]; }
    assert dst.data[..] == Patched(Patched(content, dst.off, done), dst.off + n, from[..m]);
    ProgressJoin(dst, src, content, input, done, from[..m]);
  }

  /** The key and nonce a 12 or 24 byte nonce leads to. */
  function EffectiveKey(key: seq<byte>, nonce: seq<byte>): (r: KeyWords)
    requires |key| == KEY_SIZE && (|nonce| == NONCE_SIZE || |nonce| == NONCE_SIZE_X)
  {
    Words(if |nonce| == NONCE_SIZE_X then HChaCha20Spec(key, nonce[0..16]) else key)
  }

  function EffectiveNonce(nonce: seq<byte>): (r: NonceWords)
    requires |nonce| == NONCE_SIZE || |nonce| == NONCE_SIZE_X
  {
    Words(if |nonce| == NONCE_SIZE_X then Zeros(4) + nonce[16..24] else nonce)
  }

  method NewUnauthenticatedCipher(key: seq<byte>, nonce: seq<byte>, unaligned: bool) returns (r: Result<Cipher>)
    ensures r.Ok? <==> |key| == KEY_SIZE && (|nonce| == NONCE_SIZE || |nonce| == NONCE_SIZE_X)
    ensures r.Ok? ==> fresh(r.value) && fresh(r.value.buf) && r.value.Valid() && r.value.Pos() == 0
    ensures r.Ok? ==> r.value.key == EffectiveKey(key, nonce) && r.value.nonce == EffectiveNonce(nonce)
    ensures r.Err? && |key| != KEY_SIZE ==> r.message == "chacha20: wrong key size"
    ensures r.Err? && |key| == KEY_SIZE ==> r.message == "chacha20: wrong nonce size"
  {
    hide HChaCha20Spec, Words;
    if |key| != KEY_SIZE {
      return Err("chacha20: wrong key size");
    }
    var key', nonce' := key, nonce;
    if |nonce| == NONCE_SIZE_X {
      var h := HChaCha20(key, nonce[0..16]);
      key', nonce' := h.value, Zeros(4) + nonce[16..24];
    } else if |nonce| != NONCE_SIZE {
      return Err("chacha20: wrong nonce size");
    }
    var c := new Cipher(Words(key'), Words(nonce'), unaligned);
    r := Ok(c);
  }

  method HChaCha20(key: seq<byte>, nonce: seq<byte>) returns (r: Result<seq<byte>>)
    ensures r.Ok? <==> |key| == KEY_SIZE && |nonce| == 16
    ensures r.Ok? ==> r.value == HChaCha20Spec(key, nonce)
    ensures r.Err? && |key| != KEY_SIZE ==> r.message == "chacha20: wrong HChaCha20 key size"
    ensures r.Err? && |key| == KEY_SIZE ==> r.message == "chacha20: wrong HChaCha20 nonce size"
  {
    hide QuarterRound, ColumnRound, DiagonalRound, Serialize, Words;
    if |key| != KEY_SIZE {
      return Err("chacha20: wrong HChaCha20 key size");
    }
    if |nonce| != 16 {
      return Err("chacha20: wrong HChaCha20 nonce size");
    }
    ghost var init := HChaChaState(key, nonce);
    var x: State := [J0, J1, J2, J3] + Words(key) + Words(nonce);
    for i := 0 to 10
      invariant x == InnerBlocks(init, i)
    {
      x := DoubleRound(x);
    }
    r := Ok(Serialize(x[0..4] + x[12..16]));
  }
}
