# A verified model of the collector's proxy transports and state stores

This project models, in Dafny 4.11, the parts of GO_V2rayCollector_V2 whose
correctness is arithmetic or history rather than I/O, and proves what they promise.

- **The in-tree AEAD** (`internal/proxy/poly1305`, `chacha20`, `chacha20poly1305`). The limb
  arithmetic of Poly1305, the buffering MAC, the stream cipher with its cached first round,
  leftover buffer and 32-bit counter, and Seal and Open on Go slices are methods over arrays
  and objects, each proved equal to a short specification that follows RFC 8439 sections 2.1
  to 2.8 and draft-irtf-cfrg-xchacha-01. No panic of the arithmetic is reachable; the panics
  that remain are results of the methods, with the exact condition for each.
- **Framing** (`ws.go`, `shadowsocks.go`, `vmess.go`). Writers and readers are objects on a
  connection made of two byte strings. Whatever is written comes out of the reader again,
  for every sequence of writes and every sequence of read buffer sizes (`Shadowsocks.Tunnel`,
  `VMess.Transfer`, `WebSocket.Exchange`). The sealing law that Shadowsocks and VMess rest on
  is proved for the in-tree cipher (`Net.ChaChaLawful`), so those theorems hold over it without
  assumption.
- **Histories** (`state/candidates.go`, `state/store.go`, `output/snapshot.go`,
  `concurrency/worker_pool.go`, `parser/parser.go`). Promotion of candidates over whole runs,
  exactly what pruning changes of what is published, the interleavings of the worker pool, and the
  normal form of canonical query strings.

## How it is laid out

| files | content |
|---|---|
| Bits, Bytes, Slices, Results, Cutting | machine words as numbers with bitwise operators, byte codecs, Go slices, sequences cut into pieces |
| Poly1305Spec, Poly1305Limbs, Poly1305 | specification, limb arithmetic, stateful MAC |
| ChaCha20Spec, ChaCha20, ChaCha20Runs | specification, cipher object, runs of calls |
| BitVectors, KnownAnswers | the specification on bit vectors, and the test vectors of RFC 8439 |
| AEADSpec, ChaCha20Poly1305, AEADCalls | the AEAD as a function, Seal and Open in place, and how the framings call them |
| Net, Reads, Shadowsocks, VMess, WebSocketSpec, WebSocketItems, WebSocket | connections, chunked reading, the three framings |
| Sorting, SortedQuery | sorting with uniqueness, canonical queries |
| Clock, Candidates, CandidateRuns, Collecting, Store, StoreRuns, Snapshot, WorkerPool | time, stores, publication, worker pool |

Words are natural numbers below 2^32 or 2^64, with wrap-around, masks and shifts written
out; `Bits` proves what each mask and shift means. Object methods carry contracts over old
and new state that tie them to a specification function; the theorems are lemmas about those
functions. What those functions mean is proved once more without naming them: on test vectors,
byte by byte, or in plain arithmetic (`KnownAnswers.BlockAnswer`, `AEADSpec.MacBytes`,
`WebSocketSpec.MaskedTail`, `Candidates.OfferedByAge`, `SortedQuery.RefusedByName` and others), so
that a method and its specification cannot be wrong together. Not ok results stand for the panics of the source. Randomness is a nondeterministic
choice, the clock is a parameter.

The loop body of updateGeneric is cut into methods that keep the order of its statements, and
the sixteen unrolled word combinations of a keystream block are a loop. In this build the
cipher's buffer is one block: the branches for a buffer of several blocks, in XORKeyStream and
in SetCounter, are proved unreachable.

## Where code and comments differ

The model follows the code.

- `incrementNonce` is documented as a big-endian counter; it counts little endian, and it runs
  before each use, so the first nonce is 1 (internal/proxy/shadowsocks.go:365-375, 444-452).
- `Wait` is documented to wait for all submitted jobs. It does so exactly when the pool has one
  worker (`WorkerPool.WaitsForAllIff`); with more, any fewer than that many earlier jobs may still
  run (`WorkerPool.LeftBehindIff`). ProcessWithConcurrency reads its error after Wait, so it can
  miss the errors of fewer batches than it has workers (`WorkerPool.ErrorMissedIff`).
- A ping longer than 125 bytes is answered with a pong whose length byte is cut to eight bits:
  the reply is a well-formed frame exactly up to 125 bytes (`WebSocketSpec.ControlReplyIff`).
- `Write` of a WebSocket connection accepts payloads of any size, while the peer refuses frames
  over 2^20 bytes: a frame is understood exactly up to that size (`WebSocketSpec.FrameRoundTrip`).
- A check of a candidate that is already promoted demotes it unless it finds something and the
  successes are enough for the settings of that check (`CandidateRuns.PromotedByCheckIff`), so
  raising the threshold can demote it even on success. The order in which the collector calls the
  store is what keeps promotions final (`CandidateRuns.PromotionIsFinal`). That order includes channel checks
  that report while sources are offered, since Wait does not wait for the last of them; Stop does.
- An entry that was pruned and comes back takes the value of the link it comes back with, and
  links of different value can share a fingerprint. Pruning can therefore change which of those
  links is published, and changes nothing else (`StoreRuns.PrunesInvisibleIff`).
- The number of days after which candidates expire is multiplied in 64 bits and the difference of
  times saturates: the test of age is right at every distance in time exactly up to 106751 days
  (`Candidates.AgeTestIff`).
- `canonicalize` is meant not to depend on parameter order. Its output does not, but the refusal
  of insecure links looks at the first value of a switch only (`SortedQuery.RefusalStableIff`).
- VMess nonces repeat after 65536 chunks of one connection, and not before
  (`VMess.NoncesDistinctIff`).

## Model

| member | source | states |
|---|---|---|
| Poly1305Spec.AbsorbSplit | internal/proxy/poly1305/sum_generic.go:12-24 | absorbing whole blocks and then the rest is absorbing the whole message, so the tag does not depend on how updates are cut |
| Poly1305Spec.AbsorbBlock | internal/proxy/poly1305/sum_generic.go:143-180 | one block m of n bytes takes h to (h + m + 2^(8n)) * r modulo 2^130 - 5; only the last may be shorter than sixteen bytes |
| Poly1305Spec.PrimeIs | internal/proxy/poly1305/sum_generic.go:272-277 | the modulus is 2^130 - 5 |
| Poly1305Spec.ClampedBytes | internal/proxy/poly1305/sum_generic.go:94-108 | byte by byte, which bits of the key make r: the top four of bytes 3, 7, 11 and 15 and the low two of bytes 4, 8 and 12 are cleared, no others |
| Poly1305Spec.TagIs | internal/proxy/poly1305/sum_generic.go:279-309 | the tag is sixteen bytes, little endian, of the accumulator plus the second half of the key modulo 2^128 |
| Poly1305Limbs.ShiftRightBy2 | internal/proxy/poly1305/sum_generic.go:130-134 | the shift and mask form divides the 128-bit value by four |
| Poly1305Limbs.Add128 | internal/proxy/poly1305/sum_generic.go:121-128 | the sum of two 128-bit values; the overflow panic is excluded by a condition every caller is proved to meet |
| Poly1305Limbs.Select64 | internal/proxy/poly1305/sum_generic.go:269-270 | the branch-free mask expression selects x or y |
| Poly1305Limbs.Multiply | internal/proxy/poly1305/sum_generic.go:197-224 | four words equal the product of a three-limb h with h2 at most 7 and a clamped r; no overflow panic is reachable |
| Poly1305Limbs.Propagate | internal/proxy/poly1305/sum_generic.go:221-224 | the carry chain keeps the value of the columns, and the carry out that the source drops is zero |
| Poly1305Limbs.FoldCarry | internal/proxy/poly1305/sum_generic.go:241-258 | the two additions of cc and cc>>2 keep the residue modulo 2^130 - 5 and leave h2 at most 5 |
| Poly1305Limbs.MulReduce | internal/proxy/poly1305/sum_generic.go:175-258 | one multiplication step is h * r modulo 2^130 - 5 with h2 at most 5 afterwards |
| Poly1305Limbs.Reduce | internal/proxy/poly1305/sum_generic.go:285-296 | the borrow chain and selection give the low 128 bits of h modulo 2^130 - 5 for every h below twice the prime |
| Poly1305Limbs.Finalize | internal/proxy/poly1305/sum_generic.go:279-309 | the tag bytes are (h mod 2^130 - 5) + s modulo 2^128, little endian |
| Poly1305.ClampHalves | internal/proxy/poly1305/sum_generic.go:94-108 | masking the key in two words is the clamp of RFC 8439 on the whole, and bounds r |
| Poly1305.MacState.Initialize | internal/proxy/poly1305/sum_generic.go:102-108 | the state starts at residue zero with the r and s of the key |
| Poly1305.MacState.UpdateGeneric | internal/proxy/poly1305/sum_generic.go:143-262 | a whole call evaluates the polynomial of section 2.5 of RFC 8439 over msg, short last block included, and keeps h2 at most 5 |
| Poly1305.MacGeneric.Write | internal/proxy/poly1305/sum_generic.go:61-81 | the bytes absorbed grow by exactly p, whatever was buffered; offset stays below 16 |
| Poly1305.MacGeneric.Sum | internal/proxy/poly1305/sum_generic.go:86-92 | the tag of everything absorbed, with the running state untouched |
| Poly1305.MAC.Write | internal/proxy/poly1305/poly1305.go:76-81 | refused exactly after Sum or Verify, otherwise absorbed |
| Poly1305.MAC.Sum | internal/proxy/poly1305/poly1305.go:85-90 | appends the tag of everything absorbed and finalizes |
| Poly1305.MAC.Verify | internal/proxy/poly1305/poly1305.go:94-99 | true exactly when expected is that tag |
| ChaCha20Spec.QuarterRoundInvertible | internal/proxy/chacha20/chacha_generic.go:125-142 | the quarter round is a permutation: the inverse steps recover its input |
| KnownAnswers.ConstantsSpell | internal/proxy/chacha20/chacha_generic.go:117-120 | the four constant words are the bytes of "expand 32-byte k" |
| KnownAnswers.QuarterRoundAnswer | internal/proxy/chacha20/chacha_generic.go:125-142 | the quarter round gives the test vector of section 2.1.1 of RFC 8439 |
| KnownAnswers.BlockAnswer | internal/proxy/chacha20/chacha_generic.go:256-339 | the block function gives the 64 bytes of section 2.3.2 of RFC 8439: constants, rotations, word order, rounds, counter and nonce are those of the standard |
| ChaCha20Spec.XorStreamSplit | internal/proxy/chacha20/chacha_generic.go:181-183 | the stream over two inputs joined is the stream over the first, then the stream over the second from where the first ended |
| ChaCha20Spec.XorStreamInvolution | internal/proxy/chacha20/chacha_generic.go:174-184 | applying the stream twice at a position gives the input back |
| ChaCha20Spec.HChaChaFromBlock | internal/proxy/chacha20/chacha_generic.go:352-398 | each output word is the block function's word with the initial state subtracted, rows one and four |
| ChaCha20.ColumnRoundWords | internal/proxy/chacha20/chacha_generic.go:303-307 | the four quarter rounds of a column round, in any order of columns, are the round of section 2.3 of RFC 8439 |
| ChaCha20.DiagonalRoundWords | internal/proxy/chacha20/chacha_generic.go:295-313 | the same for the diagonal round, including the order in which the source writes it |
| ChaCha20.XorLE | internal/proxy/chacha20/xor.go:24-28 | combining little endian words is combining their bytes |
| ChaCha20.JoinBytes | internal/proxy/chacha20/xor.go:24-27 | the shifts and ors assemble the little endian value |
| ChaCha20.AddXor | internal/proxy/chacha20/xor.go:16-42 | both platform branches write src combined with the bytes of a + b, also in place |
| ChaCha20.Cipher.Rounds | internal/proxy/chacha20/chacha_generic.go:291-314 | twenty rounds from the cached first-round values equal twenty plain rounds of the initial state |
| ChaCha20.Cipher.Precompute | internal/proxy/chacha20/chacha_generic.go:279-287 | the cache holds the three counter-independent quarter rounds and stays valid |
| ChaCha20.Cipher.XorKeyStreamBlocksGeneric | internal/proxy/chacha20/chacha_generic.go:256-339 | whole blocks are combined with the RFC 8439 keystream from the counter on (the standard's by KnownAnswers.BlockAnswer); nothing else in dst changes |
| ChaCha20.Cipher.Drain | internal/proxy/chacha20/chacha_generic.go:196-208 | leftover keystream is used first, at the right stream position |
| ChaCha20.Cipher.XORKeyStream | internal/proxy/chacha20/chacha_generic.go:184-254 | dst gets src combined with the stream from the current position, in place or apart; panics exactly on short dst, inexact overlap, or when the stream would pass 2^38 bytes, and then has used exactly the keystream left over |
| ChaCha20.Cipher.SetCounter | internal/proxy/chacha20/chacha_generic.go:152-172 | moves to block counter, and panics exactly when that would go back |
| ChaCha20.NewUnauthenticatedCipher | internal/proxy/chacha20/chacha_generic.go:72-113 | a cipher at position 0 for 12 and 24 byte nonces, the error for every other size |
| ChaCha20.HChaCha20 | internal/proxy/chacha20/chacha_generic.go:344-398 | the derived key of section 2.2 of draft-irtf-cfrg-xchacha-01, or the size error |
| ChaCha20Runs.InPieces | internal/proxy/chacha20/chacha_generic.go:174-254 | calls on consecutive windows of any sizes, in place or apart, do to the cipher and to dst what one call on the whole does, up to the end of the stream |
| ChaCha20Runs.ServeAll | internal/proxy/chacha20/chacha_generic.go:152-254 | any sequence of calls on one cipher object, on any arrays and panicking ones included, is a run in the sense of the rows below: each call reads what memory shows before it and leaves its output in memory, from the position before to the position after |
| ChaCha20Runs.ServeApart | internal/proxy/chacha20/chacha_generic.go:152-254 | when no call writes where another reads or writes, each reads what was there before the run, and its output is there after it |
| ChaCha20Runs.RunIsOneCall | internal/proxy/chacha20/chacha_generic.go:181-183 | over any run of accepted calls the outputs joined are the inputs joined, combined with the stream from where the run began |
| ChaCha20Runs.ByteOfCall | internal/proxy/chacha20/chacha_generic.go:174-254 | every byte a call of a run writes is its input combined with one keystream byte, at the position the call began plus its index |
| ChaCha20Runs.RunMonotone | internal/proxy/chacha20/chacha_generic.go:144-172 | over any run of calls the stream position never decreases |
| ChaCha20Runs.KeystreamUsedOnce | internal/proxy/chacha20/chacha_generic.go:144-172 | no keystream byte serves two calls of a run, also when a call panicked after draining the buffer, and none lies beyond block 2^32 |
| AEADSpec.OpenIffSealed | internal/proxy/chacha20poly1305/chacha20poly1305_generic.go:53-81 | Open returns p exactly when its input is the sealing of p under that nonce and data |
| AEADSpec.RoundTrip | internal/proxy/chacha20poly1305/chacha20poly1305_test.go:24-35 | opening what was sealed gives the plaintext |
| AEADSpec.MacDataInjective | internal/proxy/chacha20poly1305/chacha20poly1305_generic.go:15-28 | the padded data with its two lengths determines associated data and ciphertext |
| AEADSpec.MacBytes | internal/proxy/chacha20poly1305/chacha20poly1305_generic.go:15-28 | by position: the data from 0, zeros, the ciphertext from the next multiple of sixteen, zeros, and in the last sixteen bytes the length of the data and then that of the ciphertext, both little endian |
| AEADSpec.PolyKeyIsBlock | internal/proxy/chacha20poly1305/chacha20poly1305_generic.go:37-39 | the one-time key is the first 32 bytes of block 0 |
| AEADSpec.SealByte | internal/proxy/chacha20poly1305/chacha20poly1305_generic.go:40-41 | byte i of the text meets byte i mod 64 of keystream block 1 + i div 64 |
| AEADSpec.SealTag | internal/proxy/chacha20poly1305/chacha20poly1305_generic.go:43-48 | the last sixteen bytes are the tag of what comes before them |
| AEADSpec.LimitIff | internal/proxy/chacha20poly1305/chacha20poly1305.go:62-78 | a text is within the limit exactly when its blocks, counted from 1, have 32-bit numbers |
| AEADSpec.XSealKeystream | internal/proxy/chacha20poly1305/xchacha20poly1305.go:41-64 | the extended AEAD encrypts with the stream of the 24-byte-nonce cipher from block 1 |
| AEADSpec.LongNonceParts | internal/proxy/chacha20poly1305/xchacha20poly1305.go:56-63 | sixteen bytes of the long nonce go into the derived key; four zeros and the other eight are the nonce |
| AEADSpec.ShortNonce | internal/proxy/chacha20/chacha_generic.go:94-111 | a 12 byte nonce and its key are used as they are |
| Slices.SliceForAppend | internal/proxy/chacha20poly1305/chacha20poly1305.go:89-98 | extends in the same array exactly when the capacity allows, keeping the content |
| Slices.OverlapIff | internal/proxy/internal/alias/alias.go:15-32 | two windows overlap exactly when some position of memory is in both, inexactly when they also start apart |
| ChaCha20Poly1305.WriteWithPadding | internal/proxy/chacha20poly1305/chacha20poly1305_generic.go:15-22 | absorbs b and zeros up to a multiple of sixteen |
| ChaCha20Poly1305.CryptInto | internal/proxy/chacha20poly1305/chacha20poly1305.go:62-78 | behind block 1 the counter panic occurs exactly for more than 2^38 - 64 bytes, and before anything is written: the length guards are exact |
| ChaCha20Poly1305.BadOverlapIff | internal/proxy/chacha20poly1305/chacha20poly1305_generic.go:31-35 | the overlap panic, position by position: output within the capacity shares one with the input and does not start with it |
| ChaCha20Poly1305.SealGeneric | internal/proxy/chacha20poly1305/chacha20poly1305_generic.go:30-51 | dst followed by ciphertext and tag, also when sealing in place; the tag covers the additional data as it reads once the ciphertext is written; panics exactly on inexact overlap or more than 2^38 - 64 bytes of plaintext, and then writes nothing |
| ChaCha20Poly1305.DataApart | internal/proxy/chacha20poly1305/chacha20poly1305_generic.go:30-51 | additional data that shares no memory with the output is authenticated as it was given |
| ChaCha20Poly1305.New | internal/proxy/chacha20poly1305/chacha20poly1305.go:40-47 | an AEAD with that key, or the error exactly for a key that is not 32 bytes long |
| ChaCha20Poly1305.NewX | internal/proxy/chacha20poly1305/xchacha20poly1305.go:24-31 | the same for the extended AEAD |
| ChaCha20Poly1305.OpenGeneric | internal/proxy/chacha20poly1305/chacha20poly1305_generic.go:53-81 | the plaintext appended exactly when the tag is right; otherwise the output window is zeroed; panics exactly on inexact overlap, or on a right tag with more than 2^38 - 48 bytes |
| ChaCha20Poly1305.Aead.Seal | internal/proxy/chacha20poly1305/chacha20poly1305.go:57-67 | panics exactly on nonce length, plaintext over 2^38 - 64 or overlap; the counter panic is unreachable behind the guard |
| ChaCha20Poly1305.Aead.Open | internal/proxy/chacha20poly1305/chacha20poly1305.go:71-83 | the same for Open, with the error for inputs shorter than a tag |
| ChaCha20Poly1305.XAead.Seal | internal/proxy/chacha20poly1305/xchacha20poly1305.go:41-64 | sealing under the derived key and nonce |
| ChaCha20Poly1305.XAead.Open | internal/proxy/chacha20poly1305/xchacha20poly1305.go:66-86 | opening under the derived key and nonce |
| Net.ChaChaLawful | internal/proxy/shadowsocks.go:321-326 | the in-tree AEAD keeps the sealing law the framings rest on |
| AEADCalls.SealInPlace | internal/proxy/shadowsocks.go:366-369 | Seal on the buffer that holds the plaintext and room for the tag never panics on overlap and leaves the sealed bytes in it |
| AEADCalls.OpenInPlace | internal/proxy/shadowsocks.go:407-412 | Open on the buffer that holds the sealed bytes never panics on overlap and gives what opening gives |
| AEADCalls.SealFresh | internal/proxy/shadowsocks.go:375-375 | Seal into a nil slice gives the sealed bytes |
| AEADCalls.OpenFresh | internal/proxy/shadowsocks.go:426-432 | Open into a nil slice gives what opening gives |
| Net.TakeFullIs | internal/proxy/ws.go:163-167 | reading n bytes gives them and leaves the rest, or takes what there is and fails |
| Reads.ReadManyConserves | internal/proxy/shadowsocks.go:395-404 | for any buffer sizes, what was read followed by what is left is what there was |
| Reads.ReadFills | internal/proxy/ws.go:105-114 | a read fills the buffer as far as the next nonempty chunk goes, skipping empty ones, and the rest of that chunk is kept |
| Reads.ReadManyDelivers | internal/proxy/shadowsocks.go:395-404 | reads of any sizes return a beginning of the stream, and all of it when they are enough and none is empty |
| Reads.ReadManyDrains | internal/proxy/shadowsocks.go:395-404 | enough reads with nonempty buffers return the whole stream |
| Shadowsocks.IncrementNonce | internal/proxy/shadowsocks.go:444-452 | the loop with its early return increments the byte string |
| Shadowsocks.IncrementedIsPlusOne | internal/proxy/shadowsocks.go:444-452 | that increment is plus one on the little endian value, modulo the size |
| Shadowsocks.NoncesCollide | internal/proxy/shadowsocks.go:338-342 | two nonces of a connection agree exactly when their counts agree modulo 2^96 |
| Shadowsocks.NoncesDistinctIff | internal/proxy/shadowsocks.go:365-375 | the nonces of a connection are distinct exactly up to 2^95 chunks |
| Shadowsocks.ChunkAcceptedIff | internal/proxy/shadowsocks.go:406-438 | of all chunks whose length fits two bytes the reader takes exactly those of 1 to 16384 bytes; an empty one ends the stream, a longer one is refused as oversized |
| Shadowsocks.ChunkBytes | internal/proxy/shadowsocks.go:365-381 | a chunk on the wire: two sealed parts, the first of the two length bytes, high byte first, under consecutive little endian nonces that begin with 1 |
| Shadowsocks.PiecesSent | internal/proxy/shadowsocks.go:345-363 | a write up to 16383 bytes is one chunk, a longer one begins with 16383 bytes |
| Shadowsocks.ChunkRoundTrip | internal/proxy/shadowsocks.go:406-438 | every chunk of 1 to 16384 bytes passes the reader's checks and comes out unchanged, nonces in step |
| Shadowsocks.EncodeRoundTrip | internal/proxy/shadowsocks.go:344-363 | one write comes out as its pieces, and the reader stands where the writer does |
| Shadowsocks.StreamRoundTrip | internal/proxy/shadowsocks.go:344-438 | any sequence of writes comes out joined |
| Shadowsocks.ReaderUndoesWriter | internal/proxy/shadowsocks.go:395-462 | the bytes on the wire, read with buffers of any sizes, are request and payloads joined |
| Shadowsocks.Tunnel | internal/proxy/shadowsocks.go:344-462 | a writer object and a reader object joined by a connection: for any payloads and any read sizes the reader returns request and payloads joined |
| Shadowsocks.TunnelOverChaCha | internal/proxy/shadowsocks.go:321-326 | the same with an object of the in-tree cipher at each end, called in place as the source does, with nothing assumed |
| Shadowsocks.Writer.Write | internal/proxy/shadowsocks.go:344-384 | appends exactly the encoding of payload and advances the nonce by two per chunk |
| Shadowsocks.Reader.ReadChunk | internal/proxy/shadowsocks.go:406-442 | chunk, error kind, nonce count and input position as the decoding function gives them, errors included |
| Shadowsocks.Reader.Read | internal/proxy/shadowsocks.go:395-404 | one read of the stream of decoded chunks |
| Shadowsocks.SSConn.Write | internal/proxy/shadowsocks.go:454-462 | the request precedes the first payload, once, and the nonce count moves on by two for each chunk of both |
| Shadowsocks.SSConn.SendAll | internal/proxy/shadowsocks.go:454-462 | any writes on a new tunnel put the encoding of request and payloads on the wire |
| Shadowsocks.Reader.ReceiveAll | internal/proxy/shadowsocks.go:395-404 | reads into buffers of any sizes return what reading the decoded chunks returns |
| Shadowsocks.EncodeAllMore | internal/proxy/shadowsocks.go:344-363 | writes made one after another add up to one run of the encoder, at the nonce count where the earlier ones stopped |
| VMess.NoncesDistinctIff | internal/proxy/vmess.go:432-437 | the nonces of a connection are distinct exactly up to 65536 chunks |
| VMess.ChunkRoundTrip | internal/proxy/vmess.go:518-545 | every sealed chunk fits its 16-bit length and the 8192 limit and comes out unchanged |
| VMess.ChunkAcceptedIff | internal/proxy/vmess.go:518-545 | of all chunks whose sealed length fits two bytes the reader takes exactly the nonempty ones of at most 8176 bytes; an empty one ends the stream, a longer one is refused |
| VMess.NonceBytes | internal/proxy/vmess.go:432-437 | byte by byte: the count modulo 2^16, high byte first, then bytes 2 to 11 of the IV |
| VMess.ChunkBytes | internal/proxy/vmess.go:417-425 | a chunk on the wire: the sealed length, high byte first and in the clear, and the sealed chunk |
| VMess.PiecesSent | internal/proxy/vmess.go:407-415 | a write up to 8174 bytes is one chunk, a longer one begins with 8174 bytes |
| VMess.EncodeRoundTrip | internal/proxy/vmess.go:407-430 | one write comes out as its pieces with both counters in step |
| VMess.StreamRoundTrip | internal/proxy/vmess.go:407-545 | any sequence of writes comes out joined, from any counter value |
| VMess.ReaderUndoesWriter | internal/proxy/vmess.go:507-516 | the bytes on the wire, read with buffers of any sizes, are the payloads joined, through counter wraparound |
| VMess.EncodeAllMore | internal/proxy/vmess.go:407-430 | writes made one after another add up to one run of the encoder |
| VMess.Transfer | internal/proxy/vmess.go:407-545 | a writer object and a reader object joined by a connection: for any payloads and any read sizes the reader returns the payloads joined |
| VMess.BodyOverChaCha | internal/proxy/vmess.go:237-249 | the same with an object of the in-tree cipher at each end, with nothing assumed |
| VMess.ChunkWriter.NextNonce | internal/proxy/vmess.go:432-437 | the nonce of chunk k, and the counter moves on with wraparound |
| VMess.ChunkWriter.Write | internal/proxy/vmess.go:407-430 | appends exactly the encoding of payload |
| VMess.ChunkWriter.SendAll | internal/proxy/vmess.go:407-430 | any writes put the encoding of all of them on the wire |
| VMess.ChunkReader.ReadChunk | internal/proxy/vmess.go:518-545 | chunk or error, counter and input position as the decoding function gives them |
| VMess.ChunkReader.Read | internal/proxy/vmess.go:507-516 | one read of the stream of decoded chunks |
| VMess.ChunkReader.ReceiveAll | internal/proxy/vmess.go:507-516 | reads into buffers of any sizes return what reading the decoded chunks returns |
| WebSocketSpec.FrameRoundTrip | internal/proxy/ws.go:116-210 | a frame, masked or not, across both length switches, is understood exactly when its payload is at most 2^20 bytes |
| WebSocketSpec.HeaderBytes | internal/proxy/ws.go:116-138 | the first bytes of a frame: flags and opcode, mask bit and the three forms of the length, most significant byte first |
| WebSocketSpec.MaskedTail | internal/proxy/ws.go:140-152 | a masked frame ends with the payload, payload byte i combined with byte i mod 4 of the four bytes before it |
| WebSocketSpec.ParsedBytes | internal/proxy/ws.go:163-210 | the frame read of given bytes: flags, length and payload by position, with or without mask, and what is left |
| WebSocketSpec.ReadTail | internal/proxy/ws.go:195-210 | in the bytes read, the payload of a masked frame is what precedes the rest, byte i combined with byte i mod 4 of the four bytes before it |
| WebSocketSpec.OverlongRefused | internal/proxy/ws.go:191-193 | a length above 2^20, the top bit included, is refused |
| WebSocketSpec.OpcodesHandled | internal/proxy/ws.go:212-245 | opcode by opcode: 0 and 2 are data, 9 is answered, 10 ignored, 8 ends the stream, all others are unsupported |
| WebSocketSpec.Reassembly | internal/proxy/ws.go:212-245 | messages fragmented in any way with pings and pongs in between are reassembled exactly |
| WebSocketSpec.FragmentsReadBack | internal/proxy/ws.go:105-114 | the same for any read buffer sizes |
| WebSocketSpec.WritesRoundTrip | internal/proxy/ws.go:116-161 | each nonempty write comes out as one piece, in order, up to the first that is too long for a frame |
| WebSocketSpec.UnderstoodIff | internal/proxy/ws.go:116-210 | all writes come out exactly when each has at most 2^20 bytes |
| WebSocketSpec.ReaderUndoesWriter | internal/proxy/ws.go:105-161 | the frames of any writes, read with buffers of any sizes, give the concatenation of the writes understood |
| WebSocketSpec.ControlReplyIff | internal/proxy/ws.go:247-267 | a control reply is a well-formed frame exactly when it echoes at most 125 bytes |
| WebSocketSpec.PongBytes | internal/proxy/ws.go:247-267 | the bytes of a reply of up to 125 bytes |
| WebSocketItems.MixedIff | internal/proxy/ws.go:116-267 | on a connection that writes and answers pings, every frame and reply is read as what it is meant to be, in its place, exactly when each payload written has at most 2^20 bytes and each ping answered at most 125 |
| WebSocketItems.MixedReadBack | internal/proxy/ws.go:105-267 | the peer then reads the payloads written and nothing else, for any buffer sizes |
| WebSocket.WSConn.Write | internal/proxy/ws.go:116-161 | nothing for an empty payload, otherwise one final binary frame, masked exactly on the masking side; it begins with 0x82, and a masked one ends with the payload combined byte by byte with the key before it |
| WebSocket.WSConn.LengthBytes | internal/proxy/ws.go:123-135 | the three length encodings, the eight byte loop included |
| WebSocket.WSConn.ReadFrame | internal/proxy/ws.go:163-245 | pending data, fragments, pong reply or error as the frame demands |
| WebSocket.WSConn.Read | internal/proxy/ws.go:105-114 | one read of the stream of messages, control frames skipped; the pings passed over are answered, once each and in order |
| WebSocket.WSConn.SendAll | internal/proxy/ws.go:116-161 | any writes put one frame for each nonempty payload on the wire, each masked exactly on the masking side |
| WebSocket.WSConn.ReceiveAll | internal/proxy/ws.go:105-114 | reads into buffers of any sizes return what reading the stream of messages returns |
| WebSocket.WSConn.Converse | internal/proxy/ws.go:105-267 | writes and reads in any order: the reads return the stream of messages, and what goes out is the payloads in order with answers to a beginning of the pings that came in |
| WebSocket.Exchange | internal/proxy/ws.go:105-245 | two connection objects joined: for any writes and any read sizes, the peer reads their concatenation when each fits a frame, and otherwise what came before the first that does not |
| WebSocket.Dialogue | internal/proxy/ws.go:105-267 | two connection objects, one of which writes, reads and answers pings in any order: the other reads exactly the payloads written when these fit a frame and no ping has more than 125 bytes |
| WebSocket.BigEndianInt64 | internal/proxy/ws.go:186-189 | the shifting loop computes the signed 64-bit value |
| Candidates.CandidateStore.Observe | internal/state/candidates.go:65-77 | the whole new map after an observation |
| Candidates.ObservedParts | internal/state/candidates.go:65-77 | part by part: a new candidate starts pending at now, a known one keeps everything but when and where it was seen, others are not touched |
| Candidates.IdSpells | internal/state/candidates.go:66 | the identifier: the kind, a colon, the lowered value |
| Candidates.AgeTestIff | internal/state/candidates.go:84 | the test of age is now > firstSeenAt + days * 24 hours, at every distance in time, exactly for at most 106751 days |
| Candidates.OfferedByAge | internal/state/candidates.go:100-115 | up to that many days: an open candidate of the kind is handed out unchanged exactly when now <= firstSeenAt + days * 24 hours and expires exactly when it is later; no other is handed out or changed |
| Candidates.PrunedByAge | internal/state/candidates.go:118-126 | removed is exactly what is expired with before > firstSeenAt + days * 24 hours |
| Candidates.ScoreWeights | internal/state/candidates.go:127-129 | what one more success, origin, empty or missing answer and each second modulo 17 does to the score |
| Candidates.BestFirst | internal/state/candidates.go:113 | in what is handed out no candidate comes before one with a higher score |
| Candidates.CandidateStore.EligibleAll | internal/state/candidates.go:100-115 | exactly the open candidates that are young enough, each once, best score first; the others expire |
| Candidates.CandidateStore.EligibleWithin | internal/state/candidates.go:78-96 | the budget best of them; panics exactly on a negative budget |
| Candidates.CandidateStore.Prune | internal/state/candidates.go:118-126 | removes exactly the expired candidates that are old enough |
| Candidates.CandidateStore.Result | internal/state/candidates.go:130-151 | the candidate and map after a check, unknown identifiers included |
| Candidates.CheckedParts | internal/state/candidates.go:130-151 | part by part: which counters move, when a success counts, and what status is left |
| Candidates.KeysStayRight | internal/state/candidates.go:65-151 | every call keeps channel and source candidates stored under their own identifiers, a Result for an unknown identifier included |
| CandidateRuns.StepKeepsInvariant | internal/app/collect.go:240-330 | every step keeps each record in agreement with the successes that counted |
| CandidateRuns.OutcomesCount | internal/app/collect.go:332-343 | which counter each outcome of a check moves, and that another error moves none |
| CandidateRuns.LateCheckEnabled | internal/app/collect.go:276-284 | a check handed out can still report after the candidates of the other kind have been offered, after a prune and after observations |
| CandidateRuns.PromotionIsEarned | internal/state/candidates.go:134-142 | with settings that change between checks: a promoted candidate was promoted by its last check, which found something, and has at least as many counted successes of the run as that check asked for, each as long after the one before as its own check asked for; first to last span those intervals together |
| CandidateRuns.RequiredAtLeast | internal/state/candidates.go:134-142 | when no check asked for less than an interval, that is (count - 1) intervals |
| CandidateRuns.PromotionIsFinal | internal/app/collect.go:240-330 | in the collector's order of calls, checks that report after Wait has returned included, a promoted candidate is never demoted, offered again or removed |
| CandidateRuns.PromotedByCheckIff | internal/state/candidates.go:130-151 | whatever a candidate was before, a check leaves it promoted exactly when it finds something and the successes, this one included if it counts, are enough for the settings of that check |
| CandidateRuns.RaisedThresholdDemotes | internal/state/candidates.go:130-151 | an input on which a successful check demotes: two successes were enough, three are asked for now, and the interval is not over |
| Collecting.Collect | internal/app/collect.go:228-330 | one collection on a store object, with checks that report in any order and late: the store follows a run whose other calls are the observations, the two offers and the prune, in that order |
| Collecting.PlanInOrder | internal/app/collect.go:228-330 | the calls one by one: an observation for each mention in order, the channels, the sources, the prune |
| Collecting.CollectAll | internal/app/collect.go:228-330 | any sequence of collections from an empty store, each with its own settings, is such a run, so that the rows above hold of the object |
| Store.Store.Upsert | internal/state/store.go:61-74 | the whole new map, and whether the configuration is new |
| Store.UpsertedParts | internal/state/store.go:61-74 | part by part: a new entry starts where it was seen, a known one keeps its configuration and gains or renews one observation, others are not touched |
| Store.NamesSpell | internal/state/store.go:70 | the kinds as they appear in the keys of observations |
| Store.Store.Prune | internal/state/store.go:76-82 | removes exactly the entries last seen before the cut |
| Store.EntriesForWindow | internal/state/store.go:102-114 | exactly the entries seen in the window, each as often as it is stored, by fingerprint |
| Store.WindowIs | internal/state/store.go:105-110 | start included, end not; windows that meet show together what the window over both shows |
| Store.ListingUnique | internal/state/store.go:112 | the list is determined by its content, whatever the order of the map |
| Store.PruneKeepsList | internal/state/store.go:76-114 | pruning up to the start of a window leaves its list unchanged |
| Store.SafeCutIff | internal/state/store.go:76-114 | a cut is harmless to a window for every honest store exactly when it is not after the window's start |
| Store.SafeStoreIff | internal/state/store.go:76-114 | all cuts up to the start are harmless to all windows of a store exactly when no entry of it was observed later than its own time stamp |
| StoreRuns.UpsertHonestIff | internal/state/store.go:61-74 | an upsert keeps every observation within its entry's time stamp exactly when it is not dated before another observation of that entry; a clock that goes back is what breaks pruning |
| StoreRuns.RunsStayHonest | internal/state/store.go:61-82 | over any run with a forward clock no entry was observed later than its own time stamp |
| StoreRuns.DayIs | internal/output/snapshot.go:143-146 | a day begins at the only multiple of 86400 seconds at most that long before, and the next day where it ends |
| StoreRuns.RollingIs | internal/output/archive.go:22-32 | the rolling window takes what was seen after now less days times 24 hours, up to and including now; the cut of as many days lies just before it |
| StoreRuns.DaySnapshotSafe | internal/output/snapshot.go:143-146 | with a day of retention the cut lies before the day |
| StoreRuns.RollingSafeIff | internal/output/archive.go:22-32 | the rolling window is safe exactly when rolling days do not exceed daily days |
| StoreRuns.PrunesKeepSightings | internal/state/store.go:61-114 | over a whole run with a forward clock, against the same run without its prunes: cuts up to start change neither which fingerprints a later window shows nor when they were seen |
| StoreRuns.PrunesInvisibleIff | internal/state/store.go:61-82 | against the same run without its prunes, values and protocols shown stay the same too, over all runs on a set of configurations, exactly when no two of them share a fingerprint |
| StoreRuns.CollectKeepsDay | internal/app/collect.go:167-172 | all the prunes of a run of collections together leave the fingerprints of the day and their sightings as they were |
| Snapshot.WriteSnapshot | internal/output/snapshot.go:38-76 | each file holds exactly the values whose observations in the window send them there |
| Snapshot.SnapshotIs | internal/output/snapshot.go:38-76 | spelled out: a value is in a file exactly when an entry of a known protocol, or of the unknown one where kept, has it and was observed between start and end by an observation that goes to the file |
| Snapshot.PathsAre | internal/output/snapshot.go:55-74 | path by path, where an observation goes |
| Snapshot.ViewDeterminesFiles | internal/output/snapshot.go:38-76 | the files depend only on value, protocol and sightings of the entries in the window, however the entries are listed |
| Snapshot.ListingCovers | internal/app/collect.go:212-219 | the list of the window is one of those listings |
| Snapshot.PruneKeepsSnapshot | internal/app/collect.go:167-172 | pruning up to the start of a window changes no published file |
| Snapshot.RunKeepsSnapshot | internal/app/collect.go:167-172 | nor do all the prunes of a run, when no two of its configurations share a fingerprint |
| SortedQuery.EscapeInjective | internal/parser/parser.go:357-372 | escaping loses nothing |
| SortedQuery.EscapedByte | internal/parser/parser.go:368 | for each of the 256 bytes: letters, digits and - _ . ~ stay, a space is +, the others are % and two upper-case digits |
| SortedQuery.EscapeJoins | internal/parser/parser.go:368 | a string is escaped byte by byte |
| Sorting.StringOrderIs | internal/parser/parser.go:362-366 | the order of keys and values: a prefix first, otherwise by the first byte that differs |
| SortedQuery.OutputInjective | internal/parser/parser.go:357-372 | the joined string determines the list of pairs |
| SortedQuery.NormalForm | internal/parser/parser.go:357-372 | two outputs are equal exactly when every key occurs with every value equally often in both maps |
| SortedQuery.SameMeans | internal/parser/parser.go:357-372 | when every key carries a value, that is the same keys with the same multisets of values |
| SortedQuery.SortedQuery | internal/parser/parser.go:357-372 | the loops over sorted keys and items produce the canonical output of the map |
| SortedQuery.OutputAnswer | internal/parser/parser.go:357-372 | b = 2, b = 1 and a = "x y" are written as a=x+y&b=1&b=2 |
| SortedQuery.CanonicalQuery | internal/parser/parser.go:267-278 | refuses exactly insecure links, otherwise the canonical query without remarks |
| SortedQuery.RefusedByName | internal/parser/parser.go:271-273 | by the bytes of the names: refused exactly when the first value of allowInsecure, insecure or allow_insecure is truthy, an absent one counting as the empty string |
| SortedQuery.WrittenByName | internal/parser/parser.go:267-278 | by the bytes of the names: no remarks, remark, ps or name is written, and every other key with its values, in order |
| SortedQuery.AnswersAgreeIff | internal/parser/parser.go:267-278 | two queries get the same answer exactly when both are refused, or neither is and they are the same without their remarks |
| SortedQuery.RefusalStableIff | internal/parser/parser.go:271-273 | the order of parameters cannot decide about a refusal exactly when some insecure switch has only truthy values or none has any |
| SortedQuery.RefusedStableIff | internal/parser/parser.go:267-273 | the same for queries as they come, remarks included |
| WorkerPool.FirstInFirstOut | internal/concurrency/worker_pool.go:66-73 | jobs start in the order of submission and at most once |
| WorkerPool.PoolBounds | internal/concurrency/worker_pool.go:19-29 | no more jobs run than there are workers, 5 where none is set, and a job is accepted exactly while fewer than twice as many wait |
| WorkerPool.AtLeastOneWorker | internal/concurrency/worker_pool.go:20-23 | a pool asked for no worker has one |
| WorkerPool.JobsAreConserved | internal/concurrency/worker_pool.go:103-117 | every job submitted is queued, running or finished, at every step, stopping included |
| WorkerPool.WaitGuarantee | internal/concurrency/worker_pool.go:120-131 | once Wait's job runs, all earlier jobs have started and at most workers - 1 are unfinished |
| WorkerPool.LeftBehindIff | internal/concurrency/worker_pool.go:119-131 | Wait's own job can be finished while exactly a given set of the jobs before it is not, exactly when the set is smaller than the number of workers |
| WorkerPool.WaitsForAllIff | internal/concurrency/worker_pool.go:119-131 | for every number of jobs before it, Wait waits for all of them exactly when the pool has one worker |
| WorkerPool.ErrorMissedIff | internal/concurrency/worker_pool.go:174-209 | a run of ProcessWithConcurrency in which batches fail can return no error exactly when fewer of them fail than there are workers |
| Cutting.PiecesFlatten | internal/concurrency/worker_pool.go:174-209 | the batches put together are the items |
| Cutting.PiecesFull | internal/concurrency/worker_pool.go:174-209 | every batch but the last is full, and the last is not empty |
| WorkerPool.BatchesFull | internal/concurrency/worker_pool.go:140-151 | that size is the one asked for, or 10 |
| WorkerPool.SubmitBatches | internal/concurrency/worker_pool.go:174-209 | the submitted jobs are the batches in order, all of them unless the context is cancelled first |
| WorkerPool.Process | internal/concurrency/worker_pool.go:154-171 | batches are given to fn in order until the first failure or cancellation, and all of them otherwise |

## Left out

- Shadowsocks.Reader.ReadChunk: the AEAD is any lawful one with a 12 byte nonce; the 24 byte xchacha20-ietf-poly1305 does not fit the nonce array of the source.
- Shadowsocks.ReaderUndoesWriter: what a reader returns after its first error is not described.
- WebSocket.WSConn.Write: random masks are arbitrary choices; failed connection writes are not represented.
- Candidates.CandidateStore.EligibleAll: asks that candidates of the kind are stored under their own identifiers, which every call keeps (Candidates.KeysStayRight); a state file edited otherwise is not covered.
- Candidates.CandidateStore.EligibleWithin: asks the same.
- CandidateRuns.PromotionIsFinal: Result calls are atomic steps; races between workers are not represented.
- Collecting.Collect: what providers answer is an arbitrary choice; an early return on a cancelled context or a failed file write, and the writing of promoted names to the settings files, are not represented.
- SortedQuery.CanonicalQuery: isTruthy is a parameter, because trimming and lower-casing are library code.
- Snapshot.WriteSnapshot: the protocol tables and path joining are parameters, and writing the files is I/O.
- WorkerPool.JobsAreConserved: closing the jobs channel in Stop and submissions that a stopped pool refuses are not steps of the model; nothing is claimed about jobs still queued then.
- Dialing, TLS, the HTTP upgrade, contexts and deadlines: I/O.
- AES-GCM, CFB, RC4, MD5, SHA and HMAC, salts and key derivation: library code.
- Shadowsocks stream ciphers and VMess header sealing: chains of library code.
- Loading and saving of the JSON state files: I/O and library code.
- canonicalVMess: joins unescaped values, so it is not a normal form.
- Fetchers, CDN, notifications, reports, web pages, updater and command line: I/O and formatting.
