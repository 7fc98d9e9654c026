// Whole runs of calls on one cipher, panicking ones included: which part of the keystream
// each call uses.
module ChaCha20Runs {
  import opened Bits
  import opened Slices
  import opened Cutting
  import opened ChaCha20Spec
  import ChaCha20

  datatype Request = Xor(dst: Slice, src: Slice) | Seek(counter: u32)

  /** What a call did: output is the part of dst it wrote, all of it unless the call panicked, and then nothing or
      what the buffered block still had. */
  datatype Call = Xored(input: seq<byte>, output: seq<byte>, ok: bool) | Sought(counter: u32, ok: bool)

  /** A call that takes the cipher from position pos to pos'. */
  ghost predicate Made(key: KeyWords, nonce: NonceWords, pos: nat, call: Call, pos': nat)
  {
    match call
    case Xored(input, output, ok) =>
      && |output| <= |input| && (ok ==> |output| == |input|)
      && pos' == pos + |output| <= STREAM_END
      && output == XorStream(key, nonce, pos, input[..|output|])
      && (!ok ==> output == [] || pos' % BLOCK_SIZE == 0)
    case Sought(c, ok) =>
      (ok <==> pos <= BLOCK_SIZE * c) && pos' == (if ok then BLOCK_SIZE * c else pos) <= STREAM_END
  }

  ghost predicate Run(key: KeyWords, nonce: NonceWords, calls: seq<Call>, positions: seq<nat>)
  {
    && |positions| == |calls| + 1
    && forall i :: 0 <= i < |calls| ==> Made(key, nonce, positions[i], calls[i], positions[i + 1])
  }

  lemma {:induction false} RunMonotone(key: KeyWords, nonce: NonceWords, calls: seq<Call>, positions: seq<nat>,
                                       i: nat, j: nat)
    requires Run(key, nonce, calls, positions) && i <= j <= |calls|
    ensures positions[i] <= positions[j]
    decreases j - i
  {
    if i < j {
      RunMonotone(key, nonce, calls, positions, i, j - 1);
      assert Made(key, nonce, positions[j - 1], calls[j - 1], positions[j]);
    }
  }

  /** Byte a of call i was combined with keystream byte positions[i] + a, and with no other. */
  lemma ByteOfCall(key: KeyWords, nonce: NonceWords, calls: seq<Call>, positions: seq<nat>, i: nat, a: nat)
    requires Run(key, nonce, calls, positions) && i < |calls| && calls[i].Xored? && a < |calls[i].output|
    ensures a < |calls[i].input| && positions[i] + a < STREAM_END
    ensures calls[i].output[a] == XorByte(calls[i].input[a], KeyByte(key, nonce, positions[i] + a))
  {
    hide XorByte, KeyByte;
    assert Made(key, nonce, positions[i], calls[i], positions[i + 1]);
  }

  /** No keystream byte is used by two calls, and none beyond the last block. */
  lemma KeystreamUsedOnce(key: KeyWords, nonce: NonceWords, calls: seq<Call>, positions: seq<nat>,
                          i: nat, j: nat, a: nat, b: nat)
    requires Run(key, nonce, calls, positions) && i < j < |calls| && calls[i].Xored? && calls[j].Xored?
    requires a < |calls[i].output| && b < |calls[j].output|
    ensures positions[i] + a < positions[j] + b < STREAM_END
  {
    assert Made(key, nonce, positions[i], calls[i], positions[i + 1]);
    assert Made(key, nonce, positions[j], calls[j], positions[j + 1]);
    RunMonotone(key, nonce, calls, positions, i + 1, j);
  }

  ghost predicate Fits(c: ChaCha20.Cipher, r: Request)
  {
    r.Xor? ==> r.dst.Valid() && r.src.Valid() && r.dst.data != c.buf && r.src.data != c.buf
  }

  // What calls on one object do to memory.

  type Memory = map<array<byte>, seq<byte>>

  ghost function Content(arrays: set<array<byte>>): Memory
    reads arrays
  {
    map a | a in arrays :: a[..]
  }

  /** What a request does: input is what src shows before it, and output is put at the start of dst. */
  ghost predicate Effect(m: Memory, r: Request, call: Call, m': Memory)
  {
    match r
    case Xor(dst, src) =>
      && call.Xored? && dst.data in m && src.data in m
      && src.off + src.len <= |m[src.data]| && dst.off + |call.output| <= |m[dst.data]|
      && call.input == m[src.data][src.off..src.off + src.len]
      && m' == m[dst.data := Patched(m[dst.data], dst.off, call.output)]
    case Seek(counter) =>
      call.Sought? && call.counter == counter && m' == m
  }

  ghost predicate Effects(requests: seq<Request>, calls: seq<Call>, ms: seq<Memory>)
  {
    && |calls| == |requests| && |ms| == |requests| + 1
    && forall i :: 0 <= i < |requests| ==> Effect(ms[i], requests[i], calls[i], ms[i + 1])
  }

  ghost function Arrays(requests: seq<Request>): set<array<byte>>
  {
    (set r | r in requests && r.Xor? :: r.dst.data) + (set r | r in requests && r.Xor? :: r.src.data)
  }

  /** One request on a real cipher is a call of the model. */
  method Serve(c: ChaCha20.Cipher, r: Request, ghost arrays: set<array<byte>>) returns (ok: bool, ghost call: Call)
    requires c.Valid() && Fits(c, r) && c.buf !in arrays
    requires r.Xor? ==> r.dst.data in arrays && r.src.data in arrays
    modifies c, c.buf, if r.Xor? then {r.dst.data} else {}
    ensures c.Valid() && 0 <= old(c.Pos())
    ensures call.ok == ok && Effect(old(Content(arrays)), r, call, Content(arrays))
    ensures Made(c.key, c.nonce, old(c.Pos()), call, c.Pos())
  {
    hide XorStream, Patched, InexactOverlap;
    match r {
      case Xor(dst, src) =>
        ghost var input, n := src.Bytes(), c.Used(dst, src);
        ghost var output := XorStream(c.key, c.nonce, c.Pos(), input[..n]);
        ok := c.XORKeyStream(dst, src);
        call := Xored(input, output, ok);
      case Seek(counter) =>
        ok := c.SetCounter(counter);
        call := Sought(counter, ok);
    }
  }

  /** Any sequence of requests on one cipher, on any arrays and in any order, is a run of calls that do to memory
      what the requests ask for; ms is the memory between the calls. */
  method ServeAll(c: ChaCha20.Cipher, requests: seq<Request>)
    returns (oks: seq<bool>, ghost calls: seq<Call>, ghost positions: seq<nat>, ghost ms: seq<Memory>)
    requires c.Valid() && forall r :: r in requests ==> Fits(c, r)
    modifies c, c.buf, set r | r in requests && r.Xor? :: r.dst.data
    ensures c.Valid() && |oks| == |calls| && forall i :: 0 <= i < |calls| ==> calls[i].ok == oks[i]
    ensures Run(c.key, c.nonce, calls, positions)
    ensures positions[0] == old(c.Pos()) && positions[|calls|] == c.Pos()
    ensures Effects(requests, calls, ms)
    ensures ms[0] == old(Content(Arrays(requests))) && ms[|calls|] == Content(Arrays(requests))
  {
    hide Run, Effects, Made, Effect, Content;
    ghost var arrays := Arrays(requests);
    oks, calls, positions, ms := [], [], [c.Pos()], [Content(arrays)];
    NothingServed(c.key, c.nonce, c.Pos(), Content(arrays));
    for i := 0 to |requests|
      invariant |positions| == |ms| == i + 1
      invariant c.Valid() && |oks| == |calls| == i && forall k :: 0 <= k < i ==> calls[k].ok == oks[k]
      invariant Run(c.key, c.nonce, calls, positions)
      invariant positions[0] == old(c.Pos()) && positions[i] == c.Pos()
      invariant Effects(requests[..i], calls, ms)
      invariant ms[0] == old(Content(arrays)) && ms[i] == Content(arrays)
    {
      assert requests[i] in requests;
      var ok, call := Serve(c, requests[i], arrays);
      assert requests[..i + 1] == requests[..i] + [requests[i]];
      ServedNext(c.key, c.nonce, requests[..i], calls, positions, ms, requests[i], call, c.Pos(), Content(arrays));
      oks, calls := oks + [ok], calls + [call];
      positions, ms := positions + [c.Pos()], ms + [Content(arrays)];
    }
    assert requests[..|requests|] == requests;
  }

  lemma NothingServed(key: KeyWords, nonce: NonceWords, pos: nat, m: Memory)
    ensures Run(key, nonce, [], [pos]) && Effects([], [], [m])
  {
  }

  lemma ServedNext(key: KeyWords, nonce: NonceWords, requests: seq<Request>, calls: seq<Call>, positions: seq<nat>,
                   ms: seq<Memory>, r: Request, call: Call, pos: nat, m: Memory)
    requires Run(key, nonce, calls, positions) && Effects(requests, calls, ms)
    requires Made(key, nonce, positions[|calls|], call, pos) && Effect(ms[|calls|], r, call, m)
    ensures Run(key, nonce, calls + [call], positions + [pos]) && Effects(requests + [r], calls + [call], ms + [m])
  {
    hide Made, Effect;
  }

  /** No request writes where another one reads or writes; each may work in place. */
  ghost predicate Apart(requests: seq<Request>)
  {
    forall i, j :: 0 <= i < |requests| && 0 <= j < |requests| && i != j && requests[i].Xor? && requests[j].Xor?
      ==> requests[j].dst.data != requests[i].src.data && requests[j].dst.data != requests[i].dst.data
  }

  lemma {:induction false} Unwritten(requests: seq<Request>, calls: seq<Call>, ms: seq<Memory>, a: array<byte>,
                                     i: nat, j: nat)
    requires Effects(requests, calls, ms) && i <= j <= |requests| && a in ms[i]
    requires forall k :: i <= k < j && requests[k].Xor? ==> requests[k].dst.data != a
    ensures a in ms[j] && ms[j][a] == ms[i][a]
    decreases j - i
  {
    hide Patched;
    if i < j {
      Unwritten(requests, calls, ms, a, i, j - 1);
      assert Effect(ms[j - 1], requests[j - 1], calls[j - 1], ms[j]);
    }
  }

  lemma {:induction false} SameArrays(requests: seq<Request>, calls: seq<Call>, ms: seq<Memory>, i: nat)
    requires Effects(requests, calls, ms) && i <= |requests|
    ensures ms[i].Keys == ms[0].Keys
  {
    hide Patched;
    if i > 0 {
      SameArrays(requests, calls, ms, i - 1);
      assert Effect(ms[i - 1], requests[i - 1], calls[i - 1], ms[i]);
    }
  }

  /** On apart arrays, each call reads what its src held before the run and leaves its output in its dst. */
  lemma ApartBytes(requests: seq<Request>, calls: seq<Call>, ms: seq<Memory>, i: nat)
    requires Effects(requests, calls, ms) && Apart(requests) && i < |requests| && requests[i].Xor?
    ensures var r, last := requests[i], ms[|requests|];
      r.dst.data in last && Effect(ms[0], r, calls[i], ms[0][r.dst.data := last[r.dst.data]])
  {
    hide Patched;
    var dst, src := requests[i].dst.data, requests[i].src.data;
    assert Effect(ms[i], requests[i], calls[i], ms[i + 1]);
    SameArrays(requests, calls, ms, i);
    SameArrays(requests, calls, ms, |requests|);
    Unwritten(requests, calls, ms, dst, 0, i);
    Unwritten(requests, calls, ms, src, 0, i);
    Unwritten(requests, calls, ms, dst, i + 1, |requests|);
  }

  /** The call read input, and what it wrote is in the array of its dst. */
  twostate predicate Served(r: Request, call: Call)
    requires r.Xor?
    reads r.dst.data
  {
    && call.Xored? && r.src.Valid() && call.input == old(r.src.Bytes())
    && r.dst.off + |call.output| <= r.dst.data.Length
    && r.dst.data[..] == Patched(old(r.dst.data[..]), r.dst.off, call.output)
  }

  /** Requests on apart arrays: every call reads what was in memory before, and its output stays there. */
  method ServeApart(c: ChaCha20.Cipher, requests: seq<Request>)
    returns (oks: seq<bool>, ghost calls: seq<Call>, ghost positions: seq<nat>)
    requires c.Valid() && (forall r :: r in requests ==> Fits(c, r)) && Apart(requests)
    modifies c, c.buf, set r | r in requests && r.Xor? :: r.dst.data
    ensures c.Valid() && |oks| == |calls| == |requests| && forall i :: 0 <= i < |calls| ==> calls[i].ok == oks[i]
    ensures Run(c.key, c.nonce, calls, positions)
    ensures positions[0] == old(c.Pos()) && positions[|calls|] == c.Pos()
    ensures forall i :: 0 <= i < |requests| && requests[i].Xor? ==> Served(requests[i], calls[i])
  {
    hide Run, Effect, Patched;
    ghost var ms: seq<Memory>;
    oks, calls, positions, ms := ServeAll(c, requests);
    forall i | 0 <= i < |requests| && requests[i].Xor? ensures Served(requests[i], calls[i]) {
      assert requests[i] in requests;
      ApartBytes(requests, calls, ms, i);
      EffectSeen(ms[0], requests[i], calls[i], ms[|requests|]);
    }
  }

  lemma EffectSeen(m: Memory, r: Request, call: Call, last: Memory)
    requires r.Xor? && r.dst.data in last && Effect(m, r, call, m[r.dst.data := last[r.dst.data]])
    ensures call.Xored? && r.src.data in m && r.src.off + r.src.len <= |m[r.src.data]|
    ensures call.input == m[r.src.data][r.src.off..r.src.off + r.src.len]
    ensures r.dst.data in m && r.dst.off + |call.output| <= |m[r.dst.data]|
    ensures last[r.dst.data] == Patched(m[r.dst.data], r.dst.off, call.output)
  {
    hide Patched;
    assert m[r.dst.data := last[r.dst.data]][r.dst.data] == last[r.dst.data];
  }

  // Many calls as one.

  ghost predicate AllXored(calls: seq<Call>) { forall i :: 0 <= i < |calls| ==> calls[i].Xored? && calls[i].ok }

  function Inputs(calls: seq<Call>): seq<seq<byte>>
  {
    if calls == [] then [] else [if calls[0].Xored? then calls[0].input else []] + Inputs(calls[1..])
  }

  function Outputs(calls: seq<Call>): seq<seq<byte>>
  {
    if calls == [] then [] else [if calls[0].Xored? then calls[0].output else []] + Outputs(calls[1..])
  }

  /** A run of accepted calls of XORKeyStream is one call: the outputs joined are the inputs joined, combined with
      the stream from where the run began. */
  lemma {:induction false} RunIsOneCall(key: KeyWords, nonce: NonceWords, calls: seq<Call>, positions: seq<nat>)
    requires Run(key, nonce, calls, positions) && AllXored(calls) && positions[0] <= STREAM_END
    ensures positions[0] + |Flatten(Inputs(calls))| == positions[|calls|] <= STREAM_END
    ensures Flatten(Outputs(calls)) == XorStream(key, nonce, positions[0], Flatten(Inputs(calls)))
    decreases |calls|
  {
    hide XorStream;
    if calls == [] {
      ChaCha20.XorStreamEmpty(key, nonce, positions[0]);
    } else {
      assert Made(key, nonce, positions[0], calls[0], positions[1]);
      var input := calls[0].input;
      assert input[..|input|] == input;
      RunIsOneCall(key, nonce, calls[1..], positions[1..]);
      FlattenCons(input, Inputs(calls[1..]));
      FlattenCons(calls[0].output, Outputs(calls[1..]));
      XorStreamSplit(key, nonce, positions[0], input, Flatten(Inputs(calls[1..])));
    }
  }

  /** One call on the windows of k bytes behind the first n. */
  method OnePiece(c: ChaCha20.Cipher, dst: Slice, src: Slice, n: nat, k: nat,
                  ghost content: seq<byte>, ghost input: seq<byte>, ghost start: nat)
    returns (ok: bool, ghost used: nat)
    requires c.Valid() && c.Pos() == start + n && c.Streamed(dst, src, content, input, start, n) && n + k <= src.len
    requires dst.data != c.buf && src.data != c.buf
    modifies c, c.buf, dst.data
    ensures c.Valid() && used <= k && c.Pos() == start + n + used
    ensures ok <==> start + n + k <= STREAM_END
    ensures ok ==> used == k
    ensures c.Streamed(dst, src, content, input, start, n + used)
  {
    hide XorStream, Patched, InexactOverlap;
    PieceOverlap(dst, src, n, k);
    var d, s := dst.Drop(n).Take(k), src.Drop(n).Take(k);
    ghost var done := XorStream(c.key, c.nonce, start, input[..n]);
    used := c.Used(d, s);
    ghost var piece := input[n..n + used];
    SubSlice(src, n, k);
    PieceBytes(src.Bytes(), input, n, k, used);
    assert d.Take(k) == d;
    XorStreamSplit(c.key, c.nonce, start, input[..n], piece);
    ok := c.XORKeyStream(d, s);
    ChaCha20.ProgressJoin(dst, src, content, input, done, XorStream(c.key, c.nonce, start + n, piece));
  }

  lemma PieceBytes(bytes: seq<byte>, input: seq<byte>, n: nat, k: nat, used: nat)
    requires |bytes| == |input| && used <= k && n + k <= |input| && bytes[n..] == input[n..]
    ensures bytes[n..][..k][..used] == input[n..n + used]
    ensures input[..n] + input[n..n + used] == input[..n + used]
  {
    assert bytes[n..][..k][..used] == bytes[n..][..used] == input[n..][..used];
  }

  lemma PieceOverlap(dst: Slice, src: Slice, n: nat, k: nat)
    requires dst.Valid() && src.Valid() && dst.len == src.len && n + k <= src.len && !InexactOverlap(dst, src)
    ensures !InexactOverlap(dst.Drop(n).Take(k), src.Drop(n).Take(k))
  {
  }

  function Sum(cuts: seq<nat>): nat { if cuts == [] then 0 else cuts[0] + Sum(cuts[1..]) }

  /** Calls on consecutive windows of dst and src, in place or apart, do what one call on the whole does: however the
      windows are cut, dst gets src combined with the stream, up to the end of the stream. */
  method InPieces(c: ChaCha20.Cipher, dst: Slice, src: Slice, cuts: seq<nat>) returns (ok: bool)
    requires c.Valid() && dst.Valid() && src.Valid() && dst.len == src.len == Sum(cuts) && !InexactOverlap(dst, src)
    requires dst.data != c.buf && src.data != c.buf
    modifies c, c.buf, dst.data
    ensures c.Valid() && old(c.Pos()) <= c.Pos() && c.Pos() - old(c.Pos()) <= src.len
    ensures ok <==> old(c.Pos()) + src.len <= STREAM_END
    ensures ok ==> c.Pos() == old(c.Pos()) + src.len
    ensures 0 <= old(c.Pos()) && c.Pos() <= STREAM_END
    ensures dst.data[..] == Patched(old(dst.data[..]), dst.off,
                              XorStream(c.key, c.nonce, old(c.Pos()), old(src.Bytes())[..c.Pos() - old(c.Pos())]))
  {
    hide XorStream, Patched, InexactOverlap, ChaCha20.Progress;
    ghost var content, input, start := dst.data[..], src.Bytes(), c.Pos();
    var n: nat := 0;
    StreamedNothing(c, dst, src);
    for i := 0 to |cuts|
      invariant c.Valid() && n + Sum(cuts[i..]) == src.len && c.Pos() == start + n
      invariant c.Streamed(dst, src, content, input, start, n)
    {
      assert cuts[i..][0] == cuts[i] && cuts[i..][1..] == cuts[i + 1..];
      ghost var used: nat;
      ok, used := OnePiece(c, dst, src, n, cuts[i], content, input, start);
      ChaCha20.ProgressEnd(dst, src, content, input, XorStream(c.key, c.nonce, start, input[..n + used]));
      if !ok { return; }
      n := n + cuts[i];
    }
    ChaCha20.ProgressEnd(dst, src, content, input, XorStream(c.key, c.nonce, start, input[..n]));
    ok := true;
  }

  lemma StreamedNothing(c: ChaCha20.Cipher, dst: Slice, src: Slice)
    requires c.Valid() && dst.Valid() && src.Valid() && dst.len == src.len && !InexactOverlap(dst, src)
    ensures 0 <= c.Pos() && c.Streamed(dst, src, dst.data[..], src.Bytes(), c.Pos(), 0)
  {
    hide XorStream;
    ChaCha20.ProgressStart(dst, src);
    ChaCha20.XorStreamEmpty(c.key, c.nonce, c.Pos());
  }
}
