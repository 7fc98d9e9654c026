// VMess body framing of vmess.go: clear two byte length, sealed chunk, a 16-bit
// counter at the front of the nonce.
module VMess {
  import opened Bits
  import opened Bytes
  import opened Results
  import opened Cutting
  import opened Net
  import opened Reads
  import opened AEADCalls
  import ChaCha20Poly1305
  import Spec = AEADSpec

  const CHUNK_SIZE: int := 8192 // vmessChunkSize
  const MAX_PIECE: int := CHUNK_SIZE - 16 - 2

  type IV = s: seq<byte> | |s| == 16 witness seq(16, i => 0)

  /** The nonce of chunk k: the counter wraps at 2^16 and overwrites the first two bytes of the IV. */
  function NonceAt(iv: IV, k: nat): (n: seq<byte>)
    ensures |n| == 12
  {
    ToBE(k % 0x1_0000, 2) + iv[2..12]
  }

  lemma NoncesCollide(iv: IV, i: nat, j: nat)
    ensures NonceAt(iv, i) == NonceAt(iv, j) <==> i % 0x1_0000 == j % 0x1_0000
  {
    hide ToBE, BE;
    PowersOfTwo();
    BEofToBE(i % 0x1_0000, 2);
    BEofToBE(j % 0x1_0000, 2);
    if NonceAt(iv, i) == NonceAt(iv, j) {
      assert ToBE(i % 0x1_0000, 2) == NonceAt(iv, i)[..2] == NonceAt(iv, j)[..2] == ToBE(j % 0x1_0000, 2);
    }
  }

  /** A connection reuses no nonce exactly as long as it has sent at most 65536 chunks. */
  lemma NoncesDistinctIff(iv: IV, chunks: nat)
    ensures (forall i, j :: 0 <= i < j < chunks ==> NonceAt(iv, i) != NonceAt(iv, j)) <==> chunks <= 0x1_0000
  {
    hide NonceAt;
    if chunks <= 0x1_0000 {
      forall i, j | 0 <= i < j < chunks ensures NonceAt(iv, i) != NonceAt(iv, j) {
        NoncesCollide(iv, i, j);
      }
    } else {
      NoncesCollide(iv, 0, 0x1_0000);
      assert NonceAt(iv, 0) == NonceAt(iv, 0x1_0000);
    }
  }

  function EncodeChunk(a: AEAD, iv: IV, k: nat, chunk: seq<byte>): seq<byte>
  {
    ToBE(|chunk| + 16, 2) + a.seal(NonceAt(iv, k), chunk)
  }

  function Encode(a: AEAD, iv: IV, k: nat, payload: seq<byte>): seq<byte>
    decreases |payload|
  {
    if payload == [] then []
    else
      var n := Min(MAX_PIECE, |payload|);
      EncodeChunk(a, iv, k, payload[..n]) + Encode(a, iv, k + 1, payload[n..])
  }

  function ChunkCount(n: nat): nat { Count(n, MAX_PIECE) }

  function EncodeAll(a: AEAD, iv: IV, k: nat, writes: seq<seq<byte>>): seq<byte>
    decreases |writes|
  {
    if writes == [] then []
    else Encode(a, iv, k, writes[0]) + EncodeAll(a, iv, k + ChunkCount(|writes[0]|), writes[1..])
  }

  datatype ReadError = UnexpectedEOF | Oversized | BadChunk | EndOfStream

  datatype ChunkResult =
    | Chunk(plain: seq<byte>, k: nat, rest: seq<byte>)
    | Failed(error: ReadError, k: nat, rest: seq<byte>)

  function DecodeChunk(a: AEAD, iv: IV, k: nat, input: seq<byte>): (r: ChunkResult)
    ensures r.Chunk? ==> |r.rest| < |input|
  {
    var (length, rest) := TakeFull(input, 2);
    if length.None? then Failed(UnexpectedEOF, k, rest)
    else
      var size := BE(length.value);
      if size > CHUNK_SIZE then Failed(Oversized, k, rest)
      else
        var (sealed, rest') := TakeFull(rest, size);
        if sealed.None? then Failed(UnexpectedEOF, k, rest')
        else
          var plain := a.open(NonceAt(iv, k), sealed.value);
          if plain.None? then Failed(BadChunk, k + 1, rest')
          else if plain.value == [] then Failed(EndOfStream, k + 1, rest')
          else Chunk(plain.value, k + 1, rest')
  }

  function Chunks(a: AEAD, iv: IV, k: nat, input: seq<byte>): seq<seq<byte>>
    decreases |input|
  {
    var r := DecodeChunk(a, iv, k, input);
    if r.Chunk? then [r.plain] + Chunks(a, iv, r.k, r.rest) else []
  }

  /** The length fits its field and the limit of the reader, and the chunk comes out as it went in. */
  lemma ChunkRoundTrip(a: AEAD, iv: IV, k: nat, chunk: seq<byte>, tail: seq<byte>)
    requires Lawful(a) && 0 < |chunk| <= MAX_PIECE
    ensures DecodeChunk(a, iv, k, EncodeChunk(a, iv, k, chunk) + tail) == Chunk(chunk, k + 1, tail)
    ensures BE(ToBE(|chunk| + 16, 2)) == |chunk| + 16 <= CHUNK_SIZE
  {
    hide ToBE, BE, NonceAt, Lawful, Pow2, DecodeChunk;
    SealLaw(a, NonceAt(iv, k), chunk);
    var length, sealed := ToBE(|chunk| + 16, 2), a.seal(NonceAt(iv, k), chunk);
    TwoByteRoundTrip(|chunk| + 16);
    DecodeParts(a, iv, k, length, sealed, tail);
  }

  /** Of the chunks whose length fits its field, the reader takes exactly the nonempty ones within its limit. */
  lemma ChunkAcceptedIff(a: AEAD, iv: IV, k: nat, chunk: seq<byte>, tail: seq<byte>)
    requires Lawful(a) && |chunk| + 16 <= 0xFFFF
    ensures var r := DecodeChunk(a, iv, k, EncodeChunk(a, iv, k, chunk) + tail);
      && (r.Chunk? <==> 0 < |chunk| <= 8176)
      && (r.Failed? ==> r.error == if chunk == [] then EndOfStream else Oversized)
  {
    hide ToBE, BE, NonceAt, Lawful, Pow2;
    SealLaw(a, NonceAt(iv, k), chunk);
    SplitThree(ToBE(|chunk| + 16, 2), a.seal(NonceAt(iv, k), chunk), tail);
    TwoByteRoundTrip(|chunk| + 16);
  }

  lemma DecodeParts(a: AEAD, iv: IV, k: nat, length: seq<byte>, sealed: seq<byte>, tail: seq<byte>)
    requires |length| == 2 && BE(length) == |sealed| <= CHUNK_SIZE
    requires a.open(NonceAt(iv, k), sealed).Some? && a.open(NonceAt(iv, k), sealed).value != []
    ensures DecodeChunk(a, iv, k, (length + sealed) + tail) == Chunk(a.open(NonceAt(iv, k), sealed).value, k + 1, tail)
  {
    hide BE, NonceAt;
    SplitThree(length, sealed, tail);
  }

  lemma TwoByteRoundTrip(n: nat)
    requires n <= 0xFFFF
    ensures BE(ToBE(n, 2)) == n
  {
    PowersOfTwo();
    BEofToBE(n, 2);
  }

  /** The count, high byte first, and then bytes 2 to 11 of the IV. */
  lemma NonceBytes(iv: IV, k: nat, i: nat)
    requires i < 12
    ensures NonceAt(iv, k)[i] == if i == 0 then k / 256 % 256 else if i == 1 then k % 256 else iv[i]
  {
    hide ToBE;
    TwoByteLength(k % 0x1_0000);
    LowHalf(k);
  }

  lemma LowHalf(k: nat)
    ensures k % 65536 / 256 % 256 == k / 256 % 256 && k % 65536 % 256 == k % 256
  {
    assert k == 256 * (256 * (k / 65536) + k % 65536 / 256) + k % 65536 % 256;
  }

  /** A chunk on the wire: the length of the sealed chunk, high byte first, and the sealed chunk. */
  lemma ChunkBytes(a: AEAD, iv: IV, k: nat, chunk: seq<byte>)
    requires |chunk| + 16 <= 0xFFFF
    ensures EncodeChunk(a, iv, k, chunk)
         == [(|chunk| + 16) / 256, (|chunk| + 16) % 256] + a.seal(NonceAt(iv, k), chunk)
  {
    hide ToBE, NonceAt;
    TwoByteLength(|chunk| + 16);
  }

  /** The writer cuts off pieces of 8174 bytes. */
  lemma PiecesSent(a: AEAD, iv: IV, k: nat, payload: seq<byte>)
    ensures 0 < |payload| <= 8174 ==> Encode(a, iv, k, payload) == EncodeChunk(a, iv, k, payload)
    ensures |payload| > 8174 ==>
      Encode(a, iv, k, payload) == EncodeChunk(a, iv, k, payload[..8174]) + Encode(a, iv, k + 1, payload[8174..])
  {
    hide EncodeChunk;
    if 0 < |payload| <= 8174 {
      assert payload[..|payload|] == payload && payload[|payload|..] == [];
    }
  }

  lemma ChunkCountStep(n: nat)
    requires n > 0
    ensures ChunkCount(n) == 1 + ChunkCount(n - Min(MAX_PIECE, n))
  {
    CountStep(n, MAX_PIECE);
  }

  lemma {:induction false} EncodeRoundTrip(a: AEAD, iv: IV, k: nat, payload: seq<byte>, tail: seq<byte>)
    requires Lawful(a)
    ensures Chunks(a, iv, k, Encode(a, iv, k, payload) + tail)
         == Pieces(payload, MAX_PIECE) + Chunks(a, iv, k + ChunkCount(|payload|), tail)
    decreases |payload|
  {
    hide DecodeChunk, EncodeChunk, Lawful;
    if payload == [] {
      assert Encode(a, iv, k, payload) + tail == tail;
    } else {
      var n := Min(MAX_PIECE, |payload|);
      var rest := Encode(a, iv, k + 1, payload[n..]) + tail;
      assert Encode(a, iv, k, payload) + tail == EncodeChunk(a, iv, k, payload[..n]) + rest;
      ChunkRoundTrip(a, iv, k, payload[..n], rest);
      EncodeRoundTrip(a, iv, k + 1, payload[n..], tail);
      ChunkCountStep(|payload|);
    }
  }

  lemma {:induction false} StreamRoundTrip(a: AEAD, iv: IV, k: nat, writes: seq<seq<byte>>)
    requires Lawful(a)
    ensures Flatten(Chunks(a, iv, k, EncodeAll(a, iv, k, writes))) == Flatten(writes)
    decreases |writes|
  {
    hide DecodeChunk, EncodeChunk, Encode, Lawful;
    if writes == [] {
      NothingLeft(a, iv, k);
    } else {
      var k' := k + ChunkCount(|writes[0]|);
      var tail := EncodeAll(a, iv, k', writes[1..]);
      EncodeRoundTrip(a, iv, k, writes[0], tail);
      StreamRoundTrip(a, iv, k', writes[1..]);
      FlattenAppend(Pieces(writes[0], MAX_PIECE), Chunks(a, iv, k', tail));
      PiecesFlatten(writes[0], MAX_PIECE);
    }
  }

  lemma NothingLeft(a: AEAD, iv: IV, k: nat)
    ensures Chunks(a, iv, k, []) == []
  {
  }

  /** The bytes a writer puts on the wire, read with buffers of any sizes, are the payloads joined; k may be past
      any wraparound. */
  lemma ReaderUndoesWriter(a: AEAD, iv: IV, k: nat, writes: seq<seq<byte>>, sizes: seq<nat>)
    requires Lawful(a)
    ensures var s := Source([], Chunks(a, iv, k, EncodeAll(a, iv, k, writes)));
      Delivered(ReadMany(s, sizes).0, sizes, Flatten(writes))
  {
    hide Lawful, Chunks, EncodeAll, Flatten, ReadMany;
    StreamRoundTrip(a, iv, k, writes);
    var s := Source([], Chunks(a, iv, k, EncodeAll(a, iv, k, writes)));
    assert Left(s) == Flatten(s.chunks);
    ReadManyDelivers(s, sizes);
  }

  /** How many chunks a run of writes makes. */
  function TotalChunks(ws: seq<seq<byte>>): nat
  {
    if ws == [] then 0 else ChunkCount(|ws[0]|) + TotalChunks(ws[1..])
  }

  lemma NothingEncoded(a: AEAD, iv: IV, k: nat)
    ensures EncodeAll(a, iv, k, []) == [] && TotalChunks([]) == 0
  {
  }

  lemma EncodeAllCons(a: AEAD, iv: IV, k: nat, w: seq<byte>, ws: seq<seq<byte>>)
    ensures EncodeAll(a, iv, k, [w] + ws) == Encode(a, iv, k, w) + EncodeAll(a, iv, k + ChunkCount(|w|), ws)
    ensures TotalChunks([w] + ws) == ChunkCount(|w|) + TotalChunks(ws)
  {
    assert ([w] + ws)[1..] == ws;
    hide Encode, ChunkCount;
  }

  /** Writes made one after another add up to one run of the encoder. */
  lemma {:induction false} EncodeAllMore(a: AEAD, iv: IV, k: nat, ws: seq<seq<byte>>, w: seq<byte>)
    ensures EncodeAll(a, iv, k, ws + [w]) == EncodeAll(a, iv, k, ws) + Encode(a, iv, k + TotalChunks(ws), w)
    ensures TotalChunks(ws + [w]) == TotalChunks(ws) + ChunkCount(|w|)
    decreases |ws|
  {
    hide Encode, EncodeAll, TotalChunks, ChunkCount;
    if ws == [] {
      assert ws + [w] == [w] + [] && Encode(a, iv, k, w) + [] == Encode(a, iv, k, w);
      EncodeAllCons(a, iv, k, w, []);
      NothingEncoded(a, iv, k);
      NothingEncoded(a, iv, k + ChunkCount(|w|));
    } else {
      var k' := k + ChunkCount(|ws[0]|);
      assert ws == [ws[0]] + ws[1..] && ws + [w] == [ws[0]] + (ws[1..] + [w]);
      EncodeAllCons(a, iv, k, ws[0], ws[1..]);
      EncodeAllCons(a, iv, k, ws[0], ws[1..] + [w]);
      EncodeAllMore(a, iv, k', ws[1..], w);
      Associative(Encode(a, iv, k, ws[0]), EncodeAll(a, iv, k', ws[1..]), Encode(a, iv, k + TotalChunks(ws), w));
    }
  }

  class ChunkWriter {
    const w: Conn
    const cipher: Sealer
    const aead: AEAD // what cipher computes
    const nonce: IV
    var count: u16
    ghost var k: nat // chunks so far

    ghost predicate Valid()
      reads this
    {
      count == k % 0x1_0000 && aead == Law(cipher) && Lawful(aead)
    }

    constructor (w: Conn, cipher: Sealer, iv: IV)
      requires Lawful(Law(cipher))
      ensures Valid() && k == 0 && this.w == w && aead == Law(cipher) && nonce == iv
    {
      this.w, this.cipher, aead, nonce, count, k := w, cipher, Law(cipher), iv, 0, 0;
    }

    method NextNonce() returns (n: seq<byte>)
      requires Valid()
      modifies `count, `k
      ensures Valid() && k == old(k) + 1 && n == NonceAt(nonce, old(k))
    {
      hide ToBE;
      var full := ToBE(count, 2) + nonce[2..];
      count := (count + 1) % 0x1_0000;
      k := k + 1;
      n := full[..aead.nonceSize];
    }

    method Write(payload: seq<byte>) returns (written: nat)
      requires Valid()
      modifies `count, `k, w`output
      ensures Valid() && written == |payload|
      ensures k == old(k) + ChunkCount(|payload|)
      ensures w.output == old(w.output) + Encode(aead, nonce, old(k), payload)
    {
      hide ToBE, NonceAt, Lawful;
      LawfulSizes(aead);
      written := 0;
      var rest := payload;
      while |rest| > 0
        invariant Valid() && written + |rest| == |payload|
        invariant k + ChunkCount(|rest|) == old(k) + ChunkCount(|payload|)
        invariant w.output + Encode(aead, nonce, k, rest) == old(w.output) + Encode(aead, nonce, old(k), payload)
        decreases |rest|
      {
        var size := |rest|;
        if size > CHUNK_SIZE - aead.overhead - 2 {
          size := CHUNK_SIZE - aead.overhead - 2;
        }
        var chunk := rest[..size];
        ChunkCountStep(|rest|);
        ghost var before, k0, tail := w.output, k, Encode(aead, nonce, k + 1, rest[size..]);
        assert Encode(aead, nonce, k, rest) == EncodeChunk(aead, nonce, k, chunk) + tail;
        rest := rest[size..];
        var n := NextNonce();
        var length := ToBE(|chunk| + aead.overhead, 2);
        w.Write(length);
        var sealed := SealFresh(cipher, n, chunk);
        w.Write(sealed);
        assert w.output == before + EncodeChunk(aead, nonce, k0, chunk);
        Associative(before, EncodeChunk(aead, nonce, k0, chunk), tail);
        written := written + size;
      }
    }

    /** Payloads written one after another. */
    method SendAll(writes: seq<seq<byte>>)
      requires Valid()
      modifies `count, `k, w`output
      ensures Valid() && k == old(k) + TotalChunks(writes)
      ensures w.output == old(w.output) + EncodeAll(aead, nonce, old(k), writes)
    {
      hide Encode, EncodeAll, TotalChunks, ChunkCount, Lawful;
      ghost var before, start := w.output, k;
      NothingEncoded(aead, nonce, start);
      for i := 0 to |writes|
        invariant Valid() && k == start + TotalChunks(writes[..i])
        invariant w.output == before + EncodeAll(aead, nonce, start, writes[..i])
      {
        ghost var done, more := EncodeAll(aead, nonce, start, writes[..i]), Encode(aead, nonce, k, writes[i]);
        EncodeAllMore(aead, nonce, start, writes[..i], writes[i]);
        Associative(before, done, more);
        assert writes[..i + 1] == writes[..i] + [writes[i]];
        var n := Write(writes[i]);
      }
      assert writes[..|writes|] == writes;
    }
  }

  class ChunkReader {
    const r: Conn
    const cipher: Sealer
    const aead: AEAD // what cipher computes
    const nonce: IV
    var count: u16
    var pending: seq<byte>
    ghost var k: nat

    ghost predicate Valid()
      reads this
    {
      count == k % 0x1_0000 && aead == Law(cipher) && Lawful(aead)
    }

    constructor (r: Conn, cipher: Sealer, iv: IV)
      requires Lawful(Law(cipher))
      ensures Valid() && k == 0 && pending == [] && this.r == r && aead == Law(cipher) && nonce == iv
    {
      this.r, this.cipher, aead, nonce, count, pending, k := r, cipher, Law(cipher), iv, 0, [], 0;
    }

    ghost function Source(): Source
      requires Valid()
      reads this, r
    {
      Reads.Source(pending, Chunks(aead, nonce, k, r.input))
    }

    method ReadChunk() returns (err: Option<ReadError>)
      requires Valid()
      modifies this, r`input
      ensures Valid()
      ensures var c := DecodeChunk(aead, nonce, old(k), old(r.input));
        k == c.k && r.input == c.rest
        && match c
           case Chunk(plain, _, _) => err == None && pending == plain
           case Failed(error, _, _) => err == Some(error) && pending == old(pending)
    {
      hide ToBE, BE, Lawful;
      assert aead.nonceSize == 12 by { LawfulSizes(aead); }
      var length := r.ReadFull(2);
      if length.None? { return Some(UnexpectedEOF); }
      TwoByteValue(length.value);
      var size: nat := length.value[0] as int * 0x100 + length.value[1];
      if size > CHUNK_SIZE { return Some(Oversized); }
      var sealed := r.ReadFull(size);
      if sealed.None? { return Some(UnexpectedEOF); }
      var full := ToBE(count, 2) + nonce[2..];
      assert full[..12] == NonceAt(nonce, k);
      count := (count + 1) % 0x1_0000;
      k := k + 1;
      var plain := OpenFresh(cipher, full[..aead.nonceSize], sealed.value);
      if plain.None? { return Some(BadChunk); }
      if |plain.value| == 0 { return Some(EndOfStream); }
      pending := plain.value;
      err := None;
    }

    method Read(n: nat) returns (out: Option<seq<byte>>)
      requires Valid()
      modifies this, r`input
      ensures Valid()
      ensures out == Reads.Read(old(Source()), n).0
      ensures out.Some? ==> Source() == Reads.Read(old(Source()), n).1
    {
      hide DecodeChunk, Lawful;
      while |pending| == 0
        invariant Valid()
        invariant Reads.Read(Source(), n) == Reads.Read(old(Source()), n)
        decreases |r.input|, |pending| == 0
      {
        ghost var before := Source();
        var err := ReadChunk();
        if err.Some? { return None; }
        assert Reads.Read(before, n) == Reads.Read(Source(), n);
      }
      var c := Min(n, |pending|);
      out := Some(pending[..c]);
      pending := pending[c..];
    }

    /** Reads into buffers of the given sizes until the first error. */
    method ReceiveAll(sizes: seq<nat>) returns (out: seq<byte>)
      requires Valid()
      modifies this, r`input
      ensures Valid() && out == ReadMany(old(Source()), sizes).0
    {
      hide ReadMany, Chunks, Reads.Read, Lawful;
      out := [];
      ReadManyEnds(Source(), sizes, []);
      for i := 0 to |sizes|
        invariant Valid()
        invariant out + ReadMany(Source(), sizes[i..]).0 == ReadMany(old(Source()), sizes).0
      {
        ReadManyAt(Source(), sizes, i, out);
        var piece := Read(sizes[i]);
        if piece.None? { return; }
        out := out + piece.value;
      }
      ReadManyEnds(Source(), sizes, out);
    }
  }

  lemma LawfulSizes(a: AEAD)
    requires Lawful(a)
    ensures a.nonceSize == 12 && a.overhead == 16
  {
  }

  /** A body from one end to the other: for any payloads and any read buffer sizes, the reader object returns the
      payloads joined, however often the counters wrap. */
  method Transfer(cipher: Sealer, iv: IV, writes: seq<seq<byte>>, sizes: seq<nat>) returns (out: seq<byte>)
    requires Lawful(Law(cipher))
    ensures Delivered(out, sizes, Flatten(writes))
  {
    hide Lawful, Law, Delivered, ReadMany, EncodeAll, Chunks, Flatten;
    ghost var a := Law(cipher);
    var there := new Conn([]);
    var writer := new ChunkWriter(there, cipher, iv);
    writer.SendAll(writes);
    assert there.output == EncodeAll(a, iv, 0, writes);
    var here := new Conn(there.output);
    var reader := new ChunkReader(here, cipher, iv);
    out := reader.ReceiveAll(sizes);
    ReaderUndoesWriter(a, iv, 0, writes, sizes);
  }

  /** The body over an object of the in-tree ChaCha20-Poly1305 at each end, with nothing assumed about the cipher. */
  method BodyOverChaCha(key: Spec.AEADKey, unaligned: bool, iv: IV, writes: seq<seq<byte>>, sizes: seq<nat>)
    returns (out: seq<byte>)
    ensures Delivered(out, sizes, Flatten(writes))
  {
    hide Delivered, Flatten, ChaChaAEAD;
    ChaChaLawful(key);
    var aead := new ChaCha20Poly1305.Aead(key, unaligned);
    out := Transfer(InTree(aead), iv, writes, sizes);
  }
}
