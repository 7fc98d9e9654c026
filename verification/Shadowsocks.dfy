// Shadowsocks AEAD framing of shadowsocks.go: sealed length, sealed chunk, one nonce
// counter in each direction.
module Shadowsocks {
  import opened Bits
  import opened Bytes
  import opened Results
  import opened Cutting
  import opened Net
  import opened Reads
  import opened AEADCalls
  import ChaCha20Poly1305
  import Spec = AEADSpec

  const MAX_CHUNK: int := 0x3FFF // ssMaxChunkSize
  const NONCE_LEN: int := 12

  /** The nonce after k increments: little endian, modulo 2^96. */
  function NonceAt(k: nat): (n: seq<byte>)
    ensures |n| == NONCE_LEN
  {
    ToLE(k, NONCE_LEN)
  }

  /** Counting up byte by byte, least significant byte first. */
  function Incremented(s: seq<byte>): (r: seq<byte>)
    ensures |r| == |s|
  {
    if s == [] then []
    else if Successor(s[0]) == 0 then [0] + Incremented(s[1..])
    else [Successor(s[0])] + s[1..]
  }

  /** nonce[i]++ on a byte. */
  function Successor(b: byte): byte { (b as int + 1) % 0x100 }

  lemma {:induction false} IncrementedIsPlusOne(k: nat, n: nat)
    ensures Incremented(ToLE(k, n)) == ToLE(k + 1, n)
  {
    if n > 0 {
      hide ToLE, Incremented;
      LowByte(k, n);
      LowByte(k + 1, n);
      IncrementedStep(ToLE(k, n));
      IncrementedIsPlusOne(k / 0x100, n - 1);
      LowByteCarry(k);
    }
  }

  lemma LowByteCarry(k: nat)
    ensures (k + 1) % 0x100 == Successor(k % 0x100)
    ensures (k + 1) / 0x100 == k / 0x100 + if Successor(k % 0x100) == 0 then 1 else 0
  {
  }

  method IncrementNonce(nonce: array<byte>)
    modifies nonce
    ensures nonce[..] == Incremented(old(nonce[..]))
  {
    hide Incremented;
    ghost var before := nonce[..];
    var i := 0;
    while i < nonce.Length
      invariant 0 <= i <= nonce.Length
      invariant Carried(before, nonce[..], i)
    {
      ghost var now := nonce[..];
      CarryOn(before, now, i);
      nonce[i] := Successor(nonce[i]);
      assert nonce[..] == now[i := Successor(now[i])];
      if nonce[i] != 0 { return; }
      i := i + 1;
    }
    AllCarried(before, nonce[..]);
  }

  /** The first i bytes of now have been counted up, and the carry goes into the rest. */
  ghost predicate Carried(before: seq<byte>, now: seq<byte>, i: nat)
  {
    i <= |now| && Incremented(before) == now[..i] + Incremented(now[i..])
  }

  lemma CarryOn(before: seq<byte>, now: seq<byte>, i: nat)
    requires i < |now| && Carried(before, now, i)
    ensures var next := now[i := Successor(now[i])];
      if next[i] != 0 then next == Incremented(before) else Carried(before, next, i + 1)
  {
    hide Incremented, Successor;
    IncrementedStep(now[i..]);
    Around(now, i, Successor(now[i]));
    Associative(now[..i], [0], Incremented(now[i + 1..]));
  }

  /** A string cut at the position that is updated. */
  lemma Around(s: seq<byte>, i: nat, b: byte)
    requires i < |s|
    ensures s[i..][0] == s[i] && s[i..][1..] == s[i + 1..]
    ensures var next := s[i := b];
      next == s[..i] + ([b] + s[i + 1..]) && next[..i + 1] == s[..i] + [b] && next[i + 1..] == s[i + 1..]
  {
  }

  lemma AllCarried(before: seq<byte>, now: seq<byte>)
    requires Carried(before, now, |now|)
    ensures now == Incremented(before)
  {
    assert now[|now|..] == [] && now[..|now|] == now;
  }

  lemma IncrementedStep(s: seq<byte>)
    requires s != []
    ensures Incremented(s) == if Successor(s[0]) == 0 then [0] + Incremented(s[1..]) else [Successor(s[0])] + s[1..]
  {
  }

  /** Two of the nonces of a connection collide only 2^96 increments apart. */
  lemma NoncesCollide(i: nat, j: nat)
    ensures NonceAt(i) == NonceAt(j) <==> i % Pow2(96) == j % Pow2(96)
  {
    LEofToLE(i, NONCE_LEN);
    LEofToLE(j, NONCE_LEN);
    if i % Pow2(96) == j % Pow2(96) {
      ToLEModulo(i, NONCE_LEN);
      ToLEModulo(j, NONCE_LEN);
    }
  }

  /** Chunk c (from 0) is sealed under nonces 2c+1 and 2c+2: all different exactly up to 2^95 chunks. */
  lemma NoncesDistinctIff(chunks: nat)
    ensures (forall i: nat, j: nat :: 1 <= i < j <= 2 * chunks ==> NonceAt(i) != NonceAt(j)) <==> chunks <= Pow2(95)
  {
    hide NonceAt;
    assert Pow2(96) == 2 * Pow2(95);
    if chunks <= Pow2(95) {
      forall i: nat, j: nat | 1 <= i < j <= 2 * chunks ensures NonceAt(i) != NonceAt(j) {
        NoncesCollide(i, j);
        Apart(i, j, Pow2(96));
      }
    } else {
      var j := 1 + Pow2(96);
      DivModUnique(j, Pow2(96), 1, 1);
      DivModUnique(1, Pow2(96), 0, 1);
      NoncesCollide(1, j);
      assert NonceAt(1) == NonceAt(j);
    }
  }

  lemma Apart(i: nat, j: nat, p: nat)
    requires 1 <= i < j <= p
    ensures i % p != j % p
  {
    if j == p {
      DivModUnique(j, p, 1, 0);
      DivModUnique(i, p, 0, i);
    } else {
      DivModUnique(i, p, 0, i);
      DivModUnique(j, p, 0, j);
    }
  }

  /** The bytes of one chunk sealed after k increments. */
  function EncodeChunk(a: AEAD, k: nat, chunk: seq<byte>): seq<byte>
  {
    a.seal(NonceAt(k + 1), ToBE(|chunk|, 2)) + a.seal(NonceAt(k + 2), chunk)
  }

  function Encode(a: AEAD, k: nat, payload: seq<byte>): seq<byte>
    decreases |payload|
  {
    if payload == [] then []
    else
      var n := Min(MAX_CHUNK, |payload|);
      EncodeChunk(a, k, payload[..n]) + Encode(a, k + 2, payload[n..])
  }

  function ChunkCount(n: nat): nat { Count(n, MAX_CHUNK) }

  function EncodeAll(a: AEAD, k: nat, writes: seq<seq<byte>>): seq<byte>
    decreases |writes|
  {
    if writes == [] then []
    else Encode(a, k, writes[0]) + EncodeAll(a, k + 2 * ChunkCount(|writes[0]|), writes[1..])
  }

  /** The errors of readChunk, in the order in which they are looked for. */
  datatype ReadError = UnexpectedEOF | BadLength | BadLengthSize | EndOfStream | Oversized | BadChunk

  /** Outcome of reading one chunk: it, or an error; either way where nonce and input stand then. */
  datatype ChunkResult =
    | Chunk(plain: seq<byte>, k: nat, rest: seq<byte>)
    | Failed(error: ReadError, k: nat, rest: seq<byte>)

  function DecodeChunk(a: AEAD, k: nat, input: seq<byte>): (r: ChunkResult)
    ensures r.Chunk? && a.overhead > 0 ==> |r.rest| < |input|
  {
    var (head, rest) := TakeFull(input, 2 + a.overhead);
    if head.None? then Failed(UnexpectedEOF, k, rest)
    else
      var length := a.open(NonceAt(k + 1), head.value);
      if length.None? then Failed(BadLength, k + 1, rest)
      else if |length.value| != 2 then Failed(BadLengthSize, k + 1, rest)
      else
        var size := BE(length.value);
        if size == 0 then Failed(EndOfStream, k + 1, rest)
        else if size > MAX_CHUNK + 1 then Failed(Oversized, k + 1, rest)
        else
          var (sealed, rest') := TakeFull(rest, size + a.overhead);
          if sealed.None? then Failed(UnexpectedEOF, k + 1, rest')
          else
            var plain := a.open(NonceAt(k + 2), sealed.value);
            if plain.None? then Failed(BadChunk, k + 2, rest')
            else Chunk(plain.value, k + 2, rest')
  }

  /** The chunks a reader unwraps from input before its first error. */
  function Chunks(a: AEAD, k: nat, input: seq<byte>): seq<seq<byte>>
    requires a.overhead > 0
    decreases |input|
  {
    var r := DecodeChunk(a, k, input);
    if r.Chunk? then [r.plain] + Chunks(a, r.k, r.rest) else []
  }

  /** Every chunk the writer makes passes the reader's checks and comes out as it went in. */
  lemma ChunkRoundTrip(a: AEAD, k: nat, chunk: seq<byte>, tail: seq<byte>)
    requires Lawful(a) && 0 < |chunk| <= MAX_CHUNK + 1
    ensures DecodeChunk(a, k, EncodeChunk(a, k, chunk) + tail) == Chunk(chunk, k + 2, tail)
  {
    hide ToLE, ToBE, BE, Lawful;
    var length := ToBE(|chunk|, 2);
    SealLaw(a, NonceAt(k + 1), length);
    SealLaw(a, NonceAt(k + 2), chunk);
    var s1, s2 := a.seal(NonceAt(k + 1), length), a.seal(NonceAt(k + 2), chunk);
    SplitThree(s1, s2, tail);
    PowersOfTwo();
    BEofToBE(|chunk|, 2);
  }

  /** Of the chunks whose length fits its field, the reader takes exactly those of 1 to 2^14 bytes. */
  lemma ChunkAcceptedIff(a: AEAD, k: nat, chunk: seq<byte>, tail: seq<byte>)
    requires Lawful(a) && |chunk| <= 0xFFFF
    ensures var r := DecodeChunk(a, k, EncodeChunk(a, k, chunk) + tail);
      && (r.Chunk? <==> 0 < |chunk| <= 16384)
      && (r.Failed? ==> r.k == k + 1 && r.error == if chunk == [] then EndOfStream else Oversized)
  {
    hide ToLE, ToBE, BE, Lawful;
    var length := ToBE(|chunk|, 2);
    SealLaw(a, NonceAt(k + 1), length);
    SealLaw(a, NonceAt(k + 2), chunk);
    SplitThree(a.seal(NonceAt(k + 1), length), a.seal(NonceAt(k + 2), chunk), tail);
    PowersOfTwo();
    BEofToBE(|chunk|, 2);
  }

  /** A chunk on the wire: its length, high byte first, sealed under the next nonce, then the chunk under the one after
      that. Nonces are little endian numbers, and the first one is 1. */
  lemma ChunkBytes(a: AEAD, k: nat, chunk: seq<byte>) returns (n: seq<byte>, n': seq<byte>)
    requires |chunk| <= 0xFFFF
    ensures |n| == 12 && LE(n) == (k + 1) % Pow2(96) && |n'| == 12 && LE(n') == (k + 2) % Pow2(96)
    ensures k == 0 ==> n == [1, 0, 0, 0, 0, 0, 0, 0, 0, 0, 0, 0] && n' == [2, 0, 0, 0, 0, 0, 0, 0, 0, 0, 0, 0]
    ensures EncodeChunk(a, k, chunk) == a.seal(n, [|chunk| / 256, |chunk| % 256]) + a.seal(n', chunk)
  {
    hide ToLE, ToBE, LE, Pow2;
    n, n' := NonceAt(k + 1), NonceAt(k + 2);
    LEofToLE(k + 1, 12);
    LEofToLE(k + 2, 12);
    TwoByteLength(|chunk|);
    FirstNonces();
  }

  lemma FirstNonces()
    ensures ToLE(1, 12) == [1, 0, 0, 0, 0, 0, 0, 0, 0, 0, 0, 0]
    ensures ToLE(2, 12) == [2, 0, 0, 0, 0, 0, 0, 0, 0, 0, 0, 0]
  {
    hide ToLE;
    LowByte(1, 12);
    LowByte(2, 12);
    ToLEZero(11);
    assert Zeros(11) == [0, 0, 0, 0, 0, 0, 0, 0, 0, 0, 0];
  }

  lemma {:induction false} ToLEZero(k: nat)
    ensures ToLE(0, k) == Zeros(k)
  {
    if k > 0 { ToLEZero(k - 1); }
  }

  /** The writer cuts off pieces of 16383 bytes. */
  lemma PiecesSent(a: AEAD, k: nat, payload: seq<byte>)
    ensures 0 < |payload| <= 16383 ==> Encode(a, k, payload) == EncodeChunk(a, k, payload)
    ensures |payload| > 16383 ==>
      Encode(a, k, payload) == EncodeChunk(a, k, payload[..16383]) + Encode(a, k + 2, payload[16383..])
  {
    hide EncodeChunk;
    if 0 < |payload| <= 16383 {
      assert payload[..|payload|] == payload && payload[|payload|..] == [];
    }
  }

  lemma ChunkCountStep(n: nat)
    requires n > 0
    ensures ChunkCount(n) == 1 + ChunkCount(n - Min(MAX_CHUNK, n))
  {
    CountStep(n, MAX_CHUNK);
  }

  lemma {:induction false} EncodeRoundTrip(a: AEAD, k: nat, payload: seq<byte>, tail: seq<byte>)
    requires Lawful(a)
    ensures Chunks(a, k, Encode(a, k, payload) + tail)
         == Pieces(payload, MAX_CHUNK) + Chunks(a, k + 2 * ChunkCount(|payload|), tail)
    decreases |payload|
  {
    hide DecodeChunk, EncodeChunk, Lawful;
    if payload == [] {
      assert Encode(a, k, payload) + tail == tail;
    } else {
      var n := Min(MAX_CHUNK, |payload|);
      var rest := Encode(a, k + 2, payload[n..]) + tail;
      assert Encode(a, k, payload) + tail == EncodeChunk(a, k, payload[..n]) + rest;
      ChunkRoundTrip(a, k, payload[..n], rest);
      EncodeRoundTrip(a, k + 2, payload[n..], tail);
      ChunkCountStep(|payload|);
    }
  }

  /** A reader in step with the writer gets back all the writes in order, whatever the chunk limits cut. */
  lemma {:induction false} StreamRoundTrip(a: AEAD, k: nat, writes: seq<seq<byte>>)
    requires Lawful(a)
    ensures Flatten(Chunks(a, k, EncodeAll(a, k, writes))) == Flatten(writes)
    decreases |writes|
  {
    hide DecodeChunk, EncodeChunk, Encode, Lawful;
    LawfulOverhead(a);
    if writes == [] {
      ShortInput(a, k, []);
    } else {
      var k' := k + 2 * ChunkCount(|writes[0]|);
      var tail := EncodeAll(a, k', writes[1..]);
      EncodeRoundTrip(a, k, writes[0], tail);
      StreamRoundTrip(a, k', writes[1..]);
      FlattenAppend(Pieces(writes[0], MAX_CHUNK), Chunks(a, k', tail));
      PiecesFlatten(writes[0], MAX_CHUNK);
    }
  }

  lemma LawfulOverhead(a: AEAD)
    requires Lawful(a)
    ensures a.overhead == 16
  {
  }

  lemma ShortInput(a: AEAD, k: nat, input: seq<byte>)
    requires a.overhead > 0 && |input| < 2 + a.overhead
    ensures Chunks(a, k, input) == []
  {
  }

  /** The bytes a writer puts on the wire, read with buffers of any sizes, are request and payloads joined. */
  lemma ReaderUndoesWriter(a: AEAD, request: seq<byte>, writes: seq<seq<byte>>, sizes: seq<nat>)
    requires Lawful(a)
    ensures var s := Source([], Chunks(a, 0, EncodeAll(a, 0, Sent(request, writes))));
      Delivered(ReadMany(s, sizes).0, sizes, Stream(request, writes))
  {
    hide Lawful, Chunks, EncodeAll, Flatten, ReadMany;
    LawfulOverhead(a);
    var all := Sent(request, writes);
    StreamRoundTrip(a, 0, all);
    FlattenNothing<byte>();
    FlattenCons(request, writes);
    var s := Source([], Chunks(a, 0, EncodeAll(a, 0, all)));
    assert Left(s) == Flatten(s.chunks);
    ReadManyDelivers(s, sizes);
  }

  /** What writes on a new tunnel make the writer send: the request before the first of them. */
  function Sent(request: seq<byte>, writes: seq<seq<byte>>): seq<seq<byte>>
  {
    if writes == [] then [] else [request] + writes
  }

  /** What the peer has to get. */
  function Stream(request: seq<byte>, writes: seq<seq<byte>>): seq<byte>
  {
    if writes == [] then [] else request + Flatten(writes)
  }

  class Writer {
    const w: Conn
    const cipher: Sealer
    const sealer: AEAD // what cipher computes
    const nonce: array<byte>
    ghost var k: nat // increments so far

    ghost predicate Valid()
      reads this, nonce
    {
      nonce.Length == NONCE_LEN && nonce[..] == NonceAt(k) && sealer == Law(cipher) && Lawful(sealer)
    }

    constructor (w: Conn, cipher: Sealer)
      requires Lawful(Law(cipher))
      ensures Valid() && k == 0 && this.w == w && sealer == Law(cipher) && fresh(nonce)
    {
      this.w, this.cipher, sealer := w, cipher, Law(cipher);
      nonce := new byte[NONCE_LEN](i => 0);
      k := 0;
      new;
      ZeroNonce();
      assert nonce[..] == Zeros(NONCE_LEN);
    }

    method Increment()
      requires Valid()
      modifies `k, nonce
      ensures Valid() && k == old(k) + 1
    {
      hide ToLE, Lawful, Incremented;
      IncrementedIsPlusOne(k, NONCE_LEN);
      IncrementNonce(nonce);
      k := k + 1;
    }

    method WriteChunk(chunk: seq<byte>)
      requires Valid() && |chunk| <= 0xFFFF
      modifies `k, nonce, w`output
      ensures Valid() && k == old(k) + 2
      ensures w.output == old(w.output) + EncodeChunk(sealer, old(k), chunk)
    {
      hide ToLE, Lawful;
      var length := [|chunk| / 0x100 % 0x100, |chunk| % 0x100];
      TwoByteLength(|chunk|);
      Increment();
      var sealedLength := SealInPlace(cipher, nonce[..], length);
      w.Write(sealedLength);
      Increment();
      var sealed := SealFresh(cipher, nonce[..], chunk);
      w.Write(sealed);
    }

    method Write(payload: seq<byte>) returns (written: nat)
      requires Valid()
      modifies `k, nonce, w`output
      ensures Valid() && written == |payload|
      ensures k == old(k) + 2 * ChunkCount(|payload|)
      ensures w.output == old(w.output) + Encode(sealer, old(k), payload)
    {
      hide ToLE, Lawful, EncodeChunk;
      written := 0;
      var rest := payload;
      while |rest| > 0
        invariant Valid() && written + |rest| == |payload|
        invariant k + 2 * ChunkCount(|rest|) == old(k) + 2 * ChunkCount(|payload|)
        invariant w.output + Encode(sealer, k, rest) == old(w.output) + Encode(sealer, old(k), payload)
        decreases |rest|
      {
        var size := |rest|;
        if size > MAX_CHUNK {
          size := MAX_CHUNK;
        }
        var chunk := rest[..size];
        ChunkCountStep(|rest|);
        assert Encode(sealer, k, rest) == EncodeChunk(sealer, k, chunk) + Encode(sealer, k + 2, rest[size..]);
        rest := rest[size..];
        Associative(w.output, EncodeChunk(sealer, k, chunk), Encode(sealer, k + 2, rest));
        WriteChunk(chunk);
        written := written + size;
      }
    }
  }

  lemma ZeroNonce()
    ensures NonceAt(0) == Zeros(NONCE_LEN)
  {
    LEZeros(NONCE_LEN);
    ToLEofLE(Zeros(NONCE_LEN));
  }

  class Reader {
    const r: Conn
    const cipher: Sealer
    const opener: AEAD // what cipher computes
    const nonce: array<byte>
    var pending: seq<byte>
    ghost var k: nat

    ghost predicate Valid()
      reads this, nonce
    {
      nonce.Length == NONCE_LEN && nonce[..] == NonceAt(k) && opener == Law(cipher) && Lawful(opener)
    }

    constructor (r: Conn, cipher: Sealer)
      requires Lawful(Law(cipher))
      ensures Valid() && k == 0 && pending == [] && this.r == r && opener == Law(cipher) && fresh(nonce)
    {
      this.r, this.cipher, opener, pending := r, cipher, Law(cipher), [];
      nonce := new byte[NONCE_LEN](i => 0);
      k := 0;
      new;
      ZeroNonce();
      assert nonce[..] == Zeros(NONCE_LEN);
    }

    ghost function Source(): Source
      requires Valid()
      reads this, nonce, r
    {
      Reads.Source(pending, Chunks(opener, k, r.input))
    }

    method Increment()
      requires Valid()
      modifies `k, nonce
      ensures Valid() && k == old(k) + 1
    {
      hide ToLE, Lawful, Incremented;
      IncrementedIsPlusOne(k, NONCE_LEN);
      IncrementNonce(nonce);
      k := k + 1;
    }

    /** Returns the error, if any; pending changes only without one. */
    method ReadChunk() returns (err: Option<ReadError>)
      requires Valid()
      modifies this, nonce, r`input
      ensures Valid()
      ensures var c := DecodeChunk(opener, old(k), old(r.input));
        k == c.k && r.input == c.rest
        && match c
           case Chunk(plain, _, _) => err == None && pending == plain
           case Failed(error, _, _) => err == Some(error) && pending == old(pending)
    {
      hide ToLE, BE, Lawful, Incremented;
      LawfulOverhead(opener);
      var sizeBuffer := r.ReadFull(2 + opener.overhead);
      if sizeBuffer.None? { return Some(UnexpectedEOF); }
      Increment();
      var length := OpenInPlace(cipher, nonce[..], sizeBuffer.value);
      if length.None? { return Some(BadLength); }
      if |length.value| != 2 { return Some(BadLengthSize); }
      TwoByteValue(length.value);
      var size: nat := length.value[0] as int * 0x100 + length.value[1];
      if size == 0 { return Some(EndOfStream); }
      if size > MAX_CHUNK + 1 { return Some(Oversized); }
      var sealed := r.ReadFull(size + opener.overhead);
      if sealed.None? { return Some(UnexpectedEOF); }
      Increment();
      var plain := OpenFresh(cipher, nonce[..], sealed.value);
      if plain.None? { return Some(BadChunk); }
      pending := plain.value;
      err := None;
    }

    /** One Read, as the common model of chunked reading prescribes. */
    method Read(n: nat) returns (out: Option<seq<byte>>)
      requires Valid()
      modifies this, nonce, r`input
      ensures Valid()
      ensures out == Reads.Read(old(Source()), n).0
      ensures out.Some? ==> Source() == Reads.Read(old(Source()), n).1
    {
      hide DecodeChunk;
      if |pending| == 0 {
        PlainNotEmpty(opener, k, r.input);
        var err := ReadChunk();
        if err.Some? { return None; }
      }
      var c := Min(n, |pending|);
      out := Some(pending[..c]);
      pending := pending[c..];
    }

    /** Reads into buffers of the given sizes until the first error. */
    method ReceiveAll(sizes: seq<nat>) returns (out: seq<byte>)
      requires Valid()
      modifies this, nonce, r`input
      ensures Valid() && out == ReadMany(old(Source()), sizes).0
    {
      hide ReadMany, Chunks, Reads.Read;
      out := [];
      ReadManyEnds(Source(), sizes, []);
      for i := 0 to |sizes|
        invariant Valid()
        invariant out + ReadMany(Source(), sizes[i..]).0 == ReadMany(old(Source()), sizes).0
      {
        ReadManyAt(Source(), sizes, i, out);
        var piece := Read(sizes[i]);
        if piece.None? { return; }
        out := out + piece.value;
      }
      ReadManyEnds(Source(), sizes, out);
    }
  }

  /** A chunk is never empty, so one readChunk is enough. */
  lemma PlainNotEmpty(a: AEAD, k: nat, input: seq<byte>)
    requires Lawful(a)
    ensures var c := DecodeChunk(a, k, input); c.Chunk? ==> 0 < |c.plain| <= MAX_CHUNK + 1
  {
    hide ToLE, BE;
  }

  /** ssConn: the target address goes out before the first payload. */
  class SSConn {
    const encrypter: Writer
    const request: seq<byte>
    var sent: bool

    constructor (encrypter: Writer, request: seq<byte>)
      ensures this.encrypter == encrypter && this.request == request && !sent
    {
      this.encrypter, this.request, sent := encrypter, request, false;
    }

    method Write(payload: seq<byte>) returns (written: nat)
      requires encrypter.Valid()
      modifies `sent, encrypter`k, encrypter.nonce, encrypter.w`output
      ensures encrypter.Valid() && sent && written == |payload|
      ensures var e := encrypter;
        var writes := if old(sent) then [payload] else [request, payload];
        e.w.output == old(e.w.output) + EncodeAll(e.sealer, old(e.k), writes)
        && e.k == old(e.k) + 2 * TotalChunks(writes)
    {
      hide ToLE, Lawful, Encode;
      ghost var e, before, k0 := encrypter, encrypter.w.output, encrypter.k;
      EncodeAllShort(e.sealer, k0, request, payload);
      if !sent {
        sent := true;
        var n := encrypter.Write(request);
      }
      written := encrypter.Write(payload);
    }

    /** Payloads written one after another on a new tunnel. */
    method SendAll(writes: seq<seq<byte>>)
      requires encrypter.Valid() && encrypter.k == 0 && !sent
      modifies `sent, encrypter`k, encrypter.nonce, encrypter.w`output
      ensures encrypter.Valid()
      ensures encrypter.w.output == old(encrypter.w.output) + EncodeAll(encrypter.sealer, 0, Sent(request, writes))
    {
      hide ToLE, Lawful, Encode, EncodeAll, TotalChunks, Sent;
      ghost var e, before := encrypter, encrypter.w.output;
      NothingSent(e.sealer, before, request, writes);
      for i := 0 to |writes|
        invariant e.Valid() && sent == (i > 0) && e.k == 2 * TotalChunks(Sent(request, writes[..i]))
        invariant e.w.output == before + EncodeAll(e.sealer, 0, Sent(request, writes[..i]))
      {
        SentNext(e.sealer, before, request, writes, i);
        var n := Write(writes[i]);
      }
      assert writes[..|writes|] == writes;
    }
  }

  lemma NothingSent(a: AEAD, before: seq<byte>, request: seq<byte>, writes: seq<seq<byte>>)
    ensures before + EncodeAll(a, 0, Sent(request, writes[..0])) == before
    ensures TotalChunks(Sent(request, writes[..0])) == 0
  {
    NothingEncoded(a, 0);
  }

  /** The first write takes the request along. */
  lemma SentNext(a: AEAD, before: seq<byte>, request: seq<byte>, writes: seq<seq<byte>>, i: nat)
    requires i < |writes|
    ensures var done, more := Sent(request, writes[..i]), if i > 0 then [writes[i]] else [request, writes[i]];
      var next, k := Sent(request, writes[..i + 1]), 2 * TotalChunks(done);
      (before + EncodeAll(a, 0, done)) + EncodeAll(a, k, more) == before + EncodeAll(a, 0, next)
      && TotalChunks(next) == TotalChunks(done) + TotalChunks(more)
  {
    hide EncodeAll, TotalChunks;
    var done, more := Sent(request, writes[..i]), if i > 0 then [writes[i]] else [request, writes[i]];
    EncodeAllMore(a, 0, done, more);
    Associative(before, EncodeAll(a, 0, done), EncodeAll(a, 2 * TotalChunks(done), more));
    assert writes[..i + 1] == writes[..i] + [writes[i]];
    assert Sent(request, writes[..i + 1]) == done + more;
  }

  lemma NothingEncoded(a: AEAD, k: nat)
    ensures EncodeAll(a, k, []) == [] && TotalChunks([]) == 0
  {
  }

  lemma EncodeAllShort(a: AEAD, k: nat, x: seq<byte>, y: seq<byte>)
    ensures EncodeAll(a, k, [y]) == Encode(a, k, y)
    ensures EncodeAll(a, k, [x, y]) == Encode(a, k, x) + Encode(a, k + 2 * ChunkCount(|x|), y)
    ensures TotalChunks([y]) == ChunkCount(|y|) && TotalChunks([x, y]) == ChunkCount(|x|) + ChunkCount(|y|)
  {
    hide Encode, ChunkCount;
    assert [x, y][1..] == [y] && [y][1..] == [];
    assert EncodeAll(a, k + 2 * ChunkCount(|x|), [y]) == Encode(a, k + 2 * ChunkCount(|x|), y) + [];
  }

  lemma EncodeAllCons(a: AEAD, k: nat, w: seq<byte>, ws: seq<seq<byte>>)
    ensures EncodeAll(a, k, [w] + ws) == Encode(a, k, w) + EncodeAll(a, k + 2 * ChunkCount(|w|), ws)
    ensures TotalChunks([w] + ws) == ChunkCount(|w|) + TotalChunks(ws)
  {
    assert ([w] + ws)[1..] == ws;
    hide Encode, ChunkCount;
  }

  /** Writes made one after another add up to one run of the encoder. */
  lemma {:induction false} EncodeAllMore(a: AEAD, k: nat, ws: seq<seq<byte>>, more: seq<seq<byte>>)
    ensures EncodeAll(a, k, ws + more) == EncodeAll(a, k, ws) + EncodeAll(a, k + 2 * TotalChunks(ws), more)
    ensures TotalChunks(ws + more) == TotalChunks(ws) + TotalChunks(more)
    decreases |ws|
  {
    hide EncodeAll, TotalChunks, ChunkCount;
    if ws == [] {
      assert ws + more == more;
      NothingEncoded(a, k);
    } else {
      var k' := k + 2 * ChunkCount(|ws[0]|);
      assert ws == [ws[0]] + ws[1..] && ws + more == [ws[0]] + (ws[1..] + more);
      EncodeAllCons(a, k, ws[0], ws[1..]);
      EncodeAllCons(a, k, ws[0], ws[1..] + more);
      EncodeAllMore(a, k', ws[1..], more);
      Associative(Encode(a, k, ws[0]), EncodeAll(a, k', ws[1..]), EncodeAll(a, k + 2 * TotalChunks(ws), more));
    }
  }

  function TotalChunks(ws: seq<seq<byte>>): nat
  {
    if ws == [] then 0 else ChunkCount(|ws[0]|) + TotalChunks(ws[1..])
  }

  /** A tunnel from one end to the other: for any payloads and any read buffer sizes, the reader object returns
      request and payloads joined. */
  method Tunnel(cipher: Sealer, request: seq<byte>, writes: seq<seq<byte>>, sizes: seq<nat>) returns (out: seq<byte>)
    requires Lawful(Law(cipher))
    ensures Delivered(out, sizes, Stream(request, writes))
  {
    hide Lawful, Law, Delivered, ReadMany, EncodeAll, Chunks, Stream, Sent;
    ghost var a := Law(cipher);
    LawfulOverhead(a);
    var there := new Conn([]);
    var writer := new Writer(there, cipher);
    var tunnel := new SSConn(writer, request);
    tunnel.SendAll(writes);
    assert there.output == EncodeAll(a, 0, Sent(request, writes));
    var here := new Conn(there.output);
    var reader := new Reader(here, cipher);
    out := reader.ReceiveAll(sizes);
    ReaderUndoesWriter(a, request, writes, sizes);
  }

  /** The tunnel over an object of the in-tree ChaCha20-Poly1305 at each end, sealing and opening in place as the
      source does, with nothing assumed about the cipher. */
  method TunnelOverChaCha(key: Spec.AEADKey, unaligned: bool, request: seq<byte>, writes: seq<seq<byte>>,
                          sizes: seq<nat>) returns (out: seq<byte>)
    ensures Delivered(out, sizes, Stream(request, writes))
  {
    hide Delivered, Stream, ChaChaAEAD;
    ChaChaLawful(key);
    var aead := new ChaCha20Poly1305.Aead(key, unaligned);
    out := Tunnel(InTree(aead), request, writes, sizes);
  }
}
