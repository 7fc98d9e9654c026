// WebSocket frames (sections 5.2 to 5.5 of RFC 6455) and what a stream of them carries.
module WebSocketSpec {
  import opened Bits
  import opened Bytes
  import opened Results
  import opened Cutting
  import opened Net
  import opened Reads

  const MAX_FRAME: int := 0x10_0000 // wsMaxFrameSize
  const B63: int := 0x8000_0000_0000_0000

  type Opcode = n: nat | n < 16

  datatype Frame = Frame(fin: bool, opcode: Opcode, payload: seq<byte>)

  type Mask = m: seq<byte> | |m| == 4 witness [0, 0, 0, 0]

  /** Payload bytes combined with the key, over and over. */
  function Masked(p: seq<byte>, key: Mask): (r: seq<byte>)
    ensures |r| == |p|
  {
    seq(|p|, i requires 0 <= i < |p| => XorByte(p[i], key[i % 4]))
  }

  lemma MaskedTwice(p: seq<byte>, key: Mask)
    ensures Masked(Masked(p, key), key) == p
  {
    forall i | 0 <= i < |p| ensures Masked(Masked(p, key), key)[i] == p[i] {
      XorInvolution(p[i], key[i % 4]);
    }
  }

  /** The seven length bits and the extended length after them. */
  function LengthField(n: nat): (nat, seq<byte>)
  {
    if n < 126 then (n, []) else if n < 0x1_0000 then (126, ToBE(n, 2)) else (127, ToBE(n, 8))
  }

  function MaskBytes(mask: Option<Mask>): seq<byte>
  {
    if mask.Some? then mask.value else []
  }

  function Body(payload: seq<byte>, mask: Option<Mask>): seq<byte>
  {
    if mask.Some? then Masked(payload, mask.value) else payload
  }

  function EncodeFrame(f: Frame, mask: Option<Mask>): seq<byte>
  {
    var (len7, extended) := LengthField(|f.payload|);
    [(if f.fin then 0x80 else 0) + f.opcode, (if mask.Some? then 0x80 else 0) + len7]
      + (extended + (MaskBytes(mask) + Body(f.payload, mask)))
  }

  datatype FrameError = UnexpectedEOF | InvalidLength | Closed | Unsupported

  datatype Parsed = Got(frame: Frame, rest: seq<byte>) | Bad(error: FrameError, rest: seq<byte>)

  /** The value of 64 bits as Go's int64. */
  function ToInt64(n: nat): int
  {
    if n % B64 < B63 then n % B64 else n % B64 - B64
  }

  function ExtendedSize(len7: nat): nat { if len7 == 126 then 2 else if len7 == 127 then 8 else 0 }

  function ParseFrame(input: seq<byte>): (r: Parsed)
    ensures r.Got? ==> |r.rest| < |input|
  {
    var (header, rest) := TakeFull(input, 2);
    if header.None? then Bad(UnexpectedEOF, rest)
    else ParseLength(header.value[0], header.value[1], rest)
  }

  function ParseLength(b0: byte, b1: byte, input: seq<byte>): (r: Parsed)
    ensures r.Got? ==> |r.rest| <= |input|
  {
    var len7 := b1 % 0x80;
    var (extended, rest) := TakeFull(input, ExtendedSize(len7));
    if extended.None? then Bad(UnexpectedEOF, rest)
    else
      var length := if len7 < 126 then len7 else ToInt64(BE(extended.value));
      if length < 0 || length > MAX_FRAME then Bad(InvalidLength, rest)
      else ParsePayload(b0, b1 >= 0x80, length, rest)
  }

  function ParsePayload(b0: byte, masked: bool, length: nat, input: seq<byte>): (r: Parsed)
    ensures r.Got? ==> |r.frame.payload| == length && |input| == (if masked then 4 else 0) + length + |r.rest|
  {
    var (key, rest) := TakeFull(input, if masked then 4 else 0);
    if key.None? then Bad(UnexpectedEOF, rest)
    else
      var (chunk, rest') := TakeFull(rest, length);
      if chunk.None? then Bad(UnexpectedEOF, rest')
      else Got(Frame(b0 >= 0x80, b0 % 16, if masked then Masked(chunk.value, key.value) else chunk.value), rest')
  }

  lemma BodyRoundTrip(b0: byte, f: Frame, mask: Option<Mask>, tail: seq<byte>)
    requires b0 == (if f.fin then 0x80 else 0) + f.opcode
    ensures ParsePayload(b0, mask.Some?, |f.payload|, MaskBytes(mask) + Body(f.payload, mask) + tail) == Got(f, tail)
  {
    hide Masked;
    SplitThree(MaskBytes(mask), Body(f.payload, mask), tail);
    if mask.Some? {
      MaskedTwice(f.payload, mask.value);
    } else {
      assert MaskBytes(mask) + Body(f.payload, mask) + tail == Body(f.payload, mask) + tail;
    }
  }

  /** The extended length says the payload size again. */
  lemma LengthFieldRoundTrip(n: nat)
    requires n < B63
    ensures var (len7, extended) := LengthField(n);
      len7 < 128 && |extended| == ExtendedSize(len7) && n == if len7 < 126 then len7 else ToInt64(BE(extended))
  {
    hide ToBE, BE;
    PowersOfTwo();
    if 126 <= n < 0x1_0000 {
      BEofToBE(n, 2);
    } else if n >= 0x1_0000 {
      BEofToBE(n, 8);
    }
  }

  lemma LengthRoundTrip(b0: byte, f: Frame, mask: Option<Mask>, rest: seq<byte>)
    requires |f.payload| < B63
    ensures var (len7, extended) := LengthField(|f.payload|);
      len7 < 128 && ParseLength(b0, (if mask.Some? then 0x80 else 0) + len7, extended + rest)
      == if |f.payload| <= MAX_FRAME then ParsePayload(b0, mask.Some?, |f.payload|, rest) else Bad(InvalidLength, rest)
  {
    hide ToBE, BE, ParsePayload, LengthField, ToInt64;
    LengthFieldRoundTrip(|f.payload|);
    var (len7, extended) := LengthField(|f.payload|);
    SplitThree([], extended, rest);
  }

  /** A frame is understood exactly when its payload is within the frame limit, masked or not. */
  lemma FrameRoundTrip(f: Frame, mask: Option<Mask>, tail: seq<byte>)
    requires |f.payload| < B63
    ensures ParseFrame(EncodeFrame(f, mask) + tail) ==
      if |f.payload| <= MAX_FRAME then Got(f, tail)
      else Bad(InvalidLength, MaskBytes(mask) + Body(f.payload, mask) + tail)
  {
    hide Body, MaskBytes, ParsePayload, ParseLength, LengthField;
    LengthFieldRoundTrip(|f.payload|);
    var (len7, extended) := LengthField(|f.payload|);
    var b0: byte, b1: byte := (if f.fin then 0x80 else 0) + f.opcode, (if mask.Some? then 0x80 else 0) + len7;
    var body := MaskBytes(mask) + Body(f.payload, mask);
    SplitThree([b0, b1], extended + body, tail);
    Associative(extended, body, tail);
    LengthRoundTrip(b0, f, mask, body + tail);
    BodyRoundTrip(b0, f, mask, tail);
  }

  /** What readFrame does with a frame: new message data, or a reply, or the end. */
  datatype Step =
    | Continue(pending: Option<seq<byte>>, fragments: seq<byte>, pong: Option<seq<byte>>, rest: seq<byte>)
    | Stop(error: FrameError, rest: seq<byte>)

  function Deliver(fragments: seq<byte>, f: Frame, rest: seq<byte>): Step
  {
    if f.opcode == 0 then
      if f.fin then Continue(Some(fragments + f.payload), [], None, rest)
      else Continue(Some([]), fragments + f.payload, None, rest)
    else if f.opcode == 2 then
      if f.fin then Continue(Some(fragments + f.payload), [], None, rest)
      else Continue(Some([]), fragments + f.payload, None, rest)
    else if f.opcode == 9 then Continue(None, fragments, Some(f.payload), rest)
    else if f.opcode == 8 then Stop(Closed, rest)
    else if f.opcode == 10 then Continue(None, fragments, None, rest)
    else Stop(Unsupported, rest)
  }

  function NextStep(fragments: seq<byte>, input: seq<byte>): (r: Step)
    ensures r.Continue? ==> |r.rest| < |input|
  {
    var p := ParseFrame(input);
    if p.Bad? then Stop(p.error, p.rest) else Deliver(fragments, p.frame, p.rest)
  }

  /** The pieces of data a reader gets out of input before its first error. */
  function Messages(fragments: seq<byte>, input: seq<byte>): seq<seq<byte>>
    decreases |input|
  {
    var s := NextStep(fragments, input);
    if s.Stop? then []
    else (if s.pending.Some? then [s.pending.value] else []) + Messages(s.fragments, s.rest)
  }

  /** A frame on the wire, with the mask its sender chose. */
  datatype Sent = Sent(frame: Frame, mask: Option<Mask>)

  function Wire(frames: seq<Sent>): seq<byte>
  {
    if frames == [] then [] else EncodeFrame(frames[0].frame, frames[0].mask) + Wire(frames[1..])
  }

  /** Section 5.4: a message is one binary frame, or a first fragment, continuations and a last one;
      pings and pongs of at most 125 bytes may come anywhere. */
  ghost predicate WellFormed(frames: seq<Sent>, inMessage: bool)
  {
    if frames == [] then !inMessage
    else
      var f := frames[0].frame;
      && |f.payload| <= MAX_FRAME
      && (
        || ((f.opcode == 9 || f.opcode == 10) && f.fin && |f.payload| <= 125 && WellFormed(frames[1..], inMessage))
        || (f.opcode == 2 && !inMessage && WellFormed(frames[1..], !f.fin))
        || (f.opcode == 0 && inMessage && WellFormed(frames[1..], !f.fin)))
  }

  function DataOf(frames: seq<Sent>): seq<byte>
  {
    if frames == [] then []
    else
      var f := frames[0].frame;
      (if f.opcode == 0 || f.opcode == 2 then f.payload else []) + DataOf(frames[1..])
  }

  /** Any sequence of messages, fragmented in any way and interleaved with control frames, is reassembled exactly. */
  lemma {:induction false} Reassembly(frames: seq<Sent>, inMessage: bool, fragments: seq<byte>, tail: seq<byte>)
    requires WellFormed(frames, inMessage) && (!inMessage ==> fragments == [])
    ensures Flatten(Messages(fragments, Wire(frames) + tail))
         == fragments + DataOf(frames) + Flatten(Messages([], tail))
  {
    hide ParseFrame, EncodeFrame;
    if frames == [] {
      assert Wire(frames) + tail == tail;
      assert fragments + DataOf(frames) == [];
    } else {
      var f, rest := frames[0].frame, Wire(frames[1..]) + tail;
      assert Wire(frames) + tail == EncodeFrame(f, frames[0].mask) + rest;
      FrameRoundTrip(f, frames[0].mask, rest);
      var step := Deliver(fragments, f, rest);
      assert NextStep(fragments, Wire(frames) + tail) == step;
      var inMessage' := if f.opcode == 9 || f.opcode == 10 then inMessage else !f.fin;
      Reassembly(frames[1..], inMessage', step.fragments, tail);
      var more := Messages(step.fragments, rest);
      if step.pending.Some? {
        assert Flatten([step.pending.value] + more) == step.pending.value + Flatten(more);
      } else {
        assert [] + more == more;
      }
      Regroup(fragments, f.payload, DataOf(frames[1..]), Flatten(Messages([], tail)));
    }
  }

  lemma Regroup(a: seq<byte>, b: seq<byte>, c: seq<byte>, d: seq<byte>)
    ensures a + b + c + d == a + (b + c) + d
    ensures [] + (a + b + c + d) == a + (b + c) + d
    ensures (a + b) + ([] + c + d) == a + (b + c) + d
    ensures a + c + d == a + ([] + c) + d
  {
  }

  /** Read with any buffer sizes, the reassembled messages are the data of the frames. */
  lemma FragmentsReadBack(frames: seq<Sent>, sizes: seq<nat>)
    requires WellFormed(frames, false)
    ensures Delivered(ReadMany(Source([], Messages([], Wire(frames))), sizes).0, sizes, DataOf(frames))
  {
    hide Messages, Wire, DataOf, WellFormed, ReadMany;
    Reassembly(frames, false, [], []);
    NothingLeft([]);
    assert Wire(frames) + [] == Wire(frames);
    var s := Source([], Messages([], Wire(frames)));
    assert Left(s) == Flatten(s.chunks);
    assert [] + DataOf(frames) + Flatten([]) == DataOf(frames);
    ReadManyDelivers(s, sizes);
  }

  function Binary(payload: seq<byte>, mask: Option<Mask>): Sent { Sent(Frame(true, 2, payload), mask) }

  /** The frames that writes put on the wire: one each, and none for an empty payload. */
  function Frames(writes: seq<seq<byte>>, masks: seq<Option<Mask>>): seq<Sent>
    requires |masks| == |writes|
  {
    if writes == [] then [] else FrameOf(writes[0], masks[0]) + Frames(writes[1..], masks[1..])
  }

  function FrameOf(payload: seq<byte>, mask: Option<Mask>): seq<Sent>
  {
    if payload == [] then [] else [Binary(payload, mask)]
  }

  /** The writes a peer gets to see: those before the first that is too long for a frame. */
  function Understood(writes: seq<seq<byte>>): seq<seq<byte>>
  {
    if writes == [] || |writes[0]| > MAX_FRAME then [] else [writes[0]] + Understood(writes[1..])
  }

  function NonEmpty(writes: seq<seq<byte>>): seq<seq<byte>>
  {
    if writes == [] then [] else (if writes[0] == [] then [] else [writes[0]]) + NonEmpty(writes[1..])
  }

  lemma {:induction false} NonEmptyFlatten(writes: seq<seq<byte>>)
    ensures Flatten(NonEmpty(writes)) == Flatten(writes)
  {
    if writes != [] {
      NonEmptyFlatten(writes[1..]);
      if writes[0] == [] {
        assert NonEmpty(writes) == NonEmpty(writes[1..]);
      } else {
        FlattenCons(writes[0], NonEmpty(writes[1..]));
      }
    }
  }

  /** All writes are understood exactly when each fits into a frame. */
  lemma {:induction false} UnderstoodIff(writes: seq<seq<byte>>)
    ensures Understood(writes) == writes <==> forall w :: w in writes ==> |w| <= MAX_FRAME
  {
    if writes != [] {
      UnderstoodIff(writes[1..]);
      assert writes == [writes[0]] + writes[1..];
      if Understood(writes) == writes && |writes[0]| <= MAX_FRAME {
        assert Understood(writes)[1..] == Understood(writes[1..]);
      }
    }
  }

  lemma FrameMessage(payload: seq<byte>, mask: Option<Mask>, rest: seq<byte>)
    requires |payload| < B63
    ensures Messages([], EncodeFrame(Frame(true, 2, payload), mask) + rest)
         == if |payload| <= MAX_FRAME then [payload] + Messages([], rest) else []
  {
    hide ParseFrame, EncodeFrame;
    FrameRoundTrip(Frame(true, 2, payload), mask, rest);
    assert [] + payload == payload;
  }

  /** Every nonempty write comes out as one piece, in order, up to the first that is too long. */
  lemma {:induction false} WritesRoundTrip(writes: seq<seq<byte>>, masks: seq<Option<Mask>>)
    requires |masks| == |writes| && forall w :: w in writes ==> |w| < B63
    ensures Messages([], Wire(Frames(writes, masks))) == NonEmpty(Understood(writes))
    decreases |writes|
  {
    hide EncodeFrame, Messages, Understood, NonEmpty;
    if writes == [] {
      NothingLeft([]);
      NonEmptyUnderstood(writes);
    } else {
      var rest := Frames(writes[1..], masks[1..]);
      WritesRoundTrip(writes[1..], masks[1..]);
      NonEmptyUnderstood(writes);
      assert writes[0] in writes;
      if writes[0] == [] {
        assert Frames(writes, masks) == rest;
      } else {
        assert Frames(writes, masks)[1..] == rest;
        FrameMessage(writes[0], masks[0], Wire(rest));
      }
    }
  }

  lemma NonEmptyUnderstood(writes: seq<seq<byte>>)
    ensures NonEmpty(Understood(writes)) ==
      if writes == [] || |writes[0]| > MAX_FRAME then []
      else if writes[0] == [] then NonEmpty(Understood(writes[1..]))
      else [writes[0]] + NonEmpty(Understood(writes[1..]))
  {
    if writes != [] && |writes[0]| <= MAX_FRAME {
      assert Understood(writes)[1..] == Understood(writes[1..]);
    }
  }

  /** Reads of any sizes return the concatenation of the writes understood. */
  lemma ReaderUndoesWriter(writes: seq<seq<byte>>, masks: seq<Option<Mask>>, sizes: seq<nat>)
    requires |masks| == |writes| && forall w :: w in writes ==> |w| < B63
    ensures var s := Source([], Messages([], Wire(Frames(writes, masks))));
      Delivered(ReadMany(s, sizes).0, sizes, Flatten(Understood(writes)))
  {
    hide Messages, Wire, Frames, Understood, Flatten, ReadMany;
    var s := Source([], Messages([], Wire(Frames(writes, masks))));
    WritesRoundTrip(writes, masks);
    NonEmptyFlatten(Understood(writes));
    assert Left(s) == Flatten(s.chunks);
    ReadManyDelivers(s, sizes);
  }

  /** A further write adds its frame at the end. */
  lemma {:induction false} FramesAppend(writes: seq<seq<byte>>, masks: seq<Option<Mask>>, w: seq<byte>, m: Option<Mask>)
    requires |masks| == |writes|
    ensures Frames(writes + [w], masks + [m]) == Frames(writes, masks) + FrameOf(w, m)
  {
    hide FrameOf;
    if writes == [] {
      assert writes + [w] == [w] && masks + [m] == [m];
    } else {
      var ws, ms := writes[1..], masks[1..];
      FramesAppend(ws, ms, w, m);
      assert writes + [w] == [writes[0]] + (ws + [w]) && masks + [m] == [masks[0]] + (ms + [m]);
      FramesCons(writes[0], masks[0], ws + [w], ms + [m]);
      Associative(FrameOf(writes[0], masks[0]), Frames(ws, ms), FrameOf(w, m));
    }
  }

  lemma FramesCons(w: seq<byte>, m: Option<Mask>, ws: seq<seq<byte>>, ms: seq<Option<Mask>>)
    requires |ms| == |ws|
    ensures Frames([w] + ws, [m] + ms) == FrameOf(w, m) + Frames(ws, ms)
  {
    assert ([w] + ws)[1..] == ws && ([m] + ms)[1..] == ms;
  }

  lemma {:induction false} WireAppend(frames: seq<Sent>, f: Sent)
    ensures Wire(frames + [f]) == Wire(frames) + EncodeFrame(f.frame, f.mask)
  {
    hide EncodeFrame;
    if frames == [] {
      assert frames + [f] == [f];
    } else {
      WireAppend(frames[1..], f);
      assert (frames + [f])[1..] == frames[1..] + [f];
    }
  }

  lemma NothingLeft(fragments: seq<byte>)
    ensures Messages(fragments, []) == []
  {
  }

  /** The reply of writeControl: its length byte is cut to eight bits. */
  function ControlBytes(opcode: Opcode, payload: seq<byte>, mask: Option<Mask>): seq<byte>
  {
    var b := |payload| % 0x100;
    [0x80 + opcode, if mask.Some? && b < 0x80 then b + 0x80 else b] + (MaskBytes(mask) + Body(payload, mask))
  }

  lemma ParseAccounts(input: seq<byte>)
    ensures var p := ParseFrame(input);
      p.Bad? || (|input| >= 2
      && |input| == 2 + ExtendedSize(input[1] % 0x80) + (if input[1] >= 0x80 then 4 else 0)
                    + |p.frame.payload| + |p.rest|
      && (input[1] % 0x80 < 126 ==> |p.frame.payload| == input[1] % 0x80))
  {
    hide ParsePayload, BE, ToInt64;
  }

  /** A control reply is a well-formed frame exactly when the payload it echoes has at most 125 bytes. */
  lemma ControlReplyIff(opcode: Opcode, payload: seq<byte>, mask: Option<Mask>, tail: seq<byte>)
    ensures ParseFrame(ControlBytes(opcode, payload, mask) + tail) == Got(Frame(true, opcode, payload), tail)
       <==> |payload| <= 125
  {
    hide ParseFrame, Body, MaskBytes;
    var f := Frame(true, opcode, payload);
    var input := ControlBytes(opcode, payload, mask) + tail;
    if |payload| <= 125 {
      ControlIsFrame(opcode, payload, mask);
      FrameRoundTrip(f, mask, tail);
    } else if ParseFrame(input) == Got(f, tail) {
      ParseAccounts(input);
      BodySize(payload, mask);
      assert false;
    }
  }

  lemma ControlIsFrame(opcode: Opcode, payload: seq<byte>, mask: Option<Mask>)
    requires |payload| <= 125
    ensures ControlBytes(opcode, payload, mask) == EncodeFrame(Frame(true, opcode, payload), mask)
  {
    hide Body, MaskBytes;
    assert [] + (MaskBytes(mask) + Body(payload, mask)) == MaskBytes(mask) + Body(payload, mask);
  }

  lemma BodySize(payload: seq<byte>, mask: Option<Mask>)
    ensures |MaskBytes(mask) + Body(payload, mask)| == (if mask.Some? then 4 else 0) + |payload|
  {
  }

  // Frames byte by byte, as section 5.2 draws them.

  /** The body of a masked frame is at the end of it and the key just before: key byte i % 4 meets payload byte i. */
  lemma MaskedTail(before: seq<byte>, f: Frame, key: Mask, i: nat)
    requires i < |f.payload|
    ensures var out, m := before + EncodeFrame(f, Some(key)), |f.payload|;
      && |out| >= m + 6
      && XorByte(out[|out| - m + i], out[|out| - m - 4 + i % 4]) == f.payload[i]
  {
    hide XorByte, EncodeFrame, Masked;
    var head := EncodeMasked(f, key);
    var body := Masked(f.payload, key);
    Chained(before, head, key, body);
    MaskedAt(f.payload, key, i);
    TailAt(before + head, key, body, i);
  }

  lemma TailAt(a: seq<byte>, key: seq<byte>, body: seq<byte>, i: nat)
    requires |key| == 4 && i < |body|
    ensures var out := a + key + body;
      && |out| == |a| + 4 + |body| && out[|out| - |body| + i] == body[i]
      && out[|out| - |body| - 4 + i % 4] == key[i % 4]
  {
    TailParts(a, key, body);
  }

  lemma MaskedAt(p: seq<byte>, key: Mask, i: nat)
    requires i < |p|
    ensures XorByte(Masked(p, key)[i], key[i % 4]) == p[i]
  {
    hide XorByte;
    Unmask(p[i], key[i % 4]);
  }

  lemma EncodeMasked(f: Frame, key: Mask) returns (head: seq<byte>)
    ensures |head| >= 2 && EncodeFrame(f, Some(key)) == head + (key + Masked(f.payload, key))
  {
    hide Masked, ToBE;
    var (len7, extended) := LengthField(|f.payload|);
    head := [(if f.fin then 0x80 else 0) + f.opcode, 0x80 + len7] + extended;
  }

  lemma Unmask(x: byte, k: byte)
    ensures XorByte(XorByte(x, k), k) == x
  {
    XorInvolution(x, k);
  }

  lemma Chained(a: seq<byte>, b: seq<byte>, c: seq<byte>, d: seq<byte>)
    ensures a + (b + (c + d)) == (a + b) + c + d
  {
  }

  lemma TailParts(a: seq<byte>, key: seq<byte>, body: seq<byte>)
    requires |key| == 4
    ensures var out := a + key + body;
      && (forall i :: 0 <= i < |body| ==> out[|out| - |body| + i] == body[i])
      && (forall j :: 0 <= j < 4 ==> out[|out| - |body| - 4 + j] == key[j])
  {
  }

  /** The flags, and the three forms of the length: seven bits, two bytes, eight bytes, most significant first. */
  lemma HeaderBytes(f: Frame, mask: Option<Mask>)
    requires |f.payload| < B63
    ensures var out, n, bit := EncodeFrame(f, mask), |f.payload|, if mask.Some? then 128 else 0;
      && |out| >= 2 && out[0] == (if f.fin then 128 else 0) + f.opcode
      && (n < 126 ==> out[1] == bit + n && out[2..] == MaskBytes(mask) + Body(f.payload, mask))
      && (126 <= n < 65536 ==> |out| >= 4 && out[1] == bit + 126 && out[2] == n / 256 && out[3] == n % 256
                               && out[4..] == MaskBytes(mask) + Body(f.payload, mask))
      && (65536 <= n ==> |out| >= 10 && out[1] == bit + 127 && BE(out[2..10]) == n
                         && out[10..] == MaskBytes(mask) + Body(f.payload, mask))
  {
    hide BE, ToBE, Body, MaskBytes;
    var out, n := EncodeFrame(f, mask), |f.payload|;
    var (len7, extended) := LengthField(n);
    HeaderParts(out[0], out[1], extended, MaskBytes(mask) + Body(f.payload, mask));
    if 126 <= n < 65536 {
      TwoByteLength(n);
    } else if n >= 65536 {
      PowersOfTwo();
      BEofToBE(n, 8);
    }
  }

  lemma HeaderParts(b: byte, c: byte, extended: seq<byte>, rest: seq<byte>)
    ensures var out := [b, c] + (extended + rest);
      && out[2..2 + |extended|] == extended && out[2 + |extended|..] == rest
      && (|extended| == 2 ==> out[2] == extended[0] && out[3] == extended[1])
  {
  }

  /** A frame that comes in, whoever made it: flags, length and body are read off these positions, and a body that was
      masked is combined with the key byte by byte. */
  lemma ParsedBytes(b: byte, c: byte, extended: seq<byte>, key: seq<byte>, body: seq<byte>, rest: seq<byte>)
    requires |extended| == (if c % 128 == 126 then 2 else if c % 128 == 127 then 8 else 0)
    requires |key| == (if c >= 128 then 4 else 0)
    requires |body| <= 0x10_0000
    requires if c % 128 < 126 then |body| == c % 128 else BE(extended) == |body|
    ensures var p := ParseFrame([b, c] + extended + key + body + rest);
      && p.Got? && p.rest == rest && p.frame.fin == (b >= 128) && p.frame.opcode == b % 16
      && |p.frame.payload| == |body|
      && forall i :: 0 <= i < |body| ==>
           p.frame.payload[i] == if c >= 128 then XorByte(body[i], key[i % 4]) else body[i]
  {
    hide BE, XorByte, ParsePayload, ToInt64;
    var after := key + body + rest;
    PayloadBytes(b, c >= 128, key, body, rest);
    SmallInt64(|body|);
    HeaderSplit(b, c, extended, key, body, rest);
    SplitThree([], extended, after);
    SplitThree([b, c], extended, after);
    assert ParseFrame(([b, c] + extended) + after) == ParseLength(b, c, extended + after);
    assert ParseLength(b, c, extended + after) == ParsePayload(b, c >= 128, |body|, after);
  }

  lemma HeaderSplit(b: byte, c: byte, extended: seq<byte>, key: seq<byte>, body: seq<byte>, rest: seq<byte>)
    ensures [b, c] + extended + key + body + rest == ([b, c] + extended) + (key + body + rest)
  {
  }

  lemma SmallInt64(n: nat)
    requires n <= 0x10_0000
    ensures ToInt64(n) == n
  {
  }

  lemma PayloadBytes(b: byte, masked: bool, key: seq<byte>, body: seq<byte>, rest: seq<byte>)
    requires |key| == (if masked then 4 else 0)
    ensures var p := ParsePayload(b, masked, |body|, key + body + rest);
      && p.Got? && p.rest == rest && p.frame.fin == (b >= 128) && p.frame.opcode == b % 16
      && |p.frame.payload| == |body|
      && forall i :: 0 <= i < |body| ==>
           p.frame.payload[i] == if masked then XorByte(body[i], key[i % 4]) else body[i]
  {
    hide XorByte;
    SplitThree(key, body, rest);
    assert [] + body == body;
  }

  /** The same counted from the end of what was read: key byte i % 4 met body byte i. */
  lemma ReadTail(input: seq<byte>, i: nat)
    requires ParseFrame(input).Got? && |input| >= 2 && input[1] >= 128 && i < |ParseFrame(input).frame.payload|
    ensures var p := ParseFrame(input);
      var at := |input| - |p.rest| - |p.frame.payload|;
      at >= 6 && p.frame.payload[i] == XorByte(input[at + i], input[at - 4 + i % 4])
  {
    hide XorByte, BE, ToInt64, ParsePayload;
    var n := 2 + ExtendedSize(input[1] % 128);
    var after := input[n..];
    assert input[2..][ExtendedSize(input[1] % 128)..] == after;
    var length := |ParseFrame(input).frame.payload|;
    assert exists l: nat :: ParseFrame(input) == ParsePayload(input[0], true, l, after);
    var l: nat :| ParseFrame(input) == ParsePayload(input[0], true, l, after);
    PayloadTail(input[0], l, after, i);
    var p := ParseFrame(input);
    var at := |after| - |p.rest| - length;
    assert after[at + i] == input[n + at + i] && after[at - 4 + i % 4] == input[n + at - 4 + i % 4];
  }

  lemma PayloadTail(b: byte, length: nat, input: seq<byte>, i: nat)
    requires ParsePayload(b, true, length, input).Got? && i < length
    ensures var p := ParsePayload(b, true, length, input);
      var at := |input| - |p.rest| - length;
      |p.frame.payload| == length && at == 4 && p.frame.payload[i] == XorByte(input[at + i], input[at - 4 + i % 4])
  {
    hide XorByte;
    assert input[4..][..length][i] == input[4 + i];
  }

  /** Longer frames, and lengths with the top bit set, are refused. */
  lemma OverlongRefused(b: byte, c: byte, extended: seq<byte>, rest: seq<byte>)
    requires c % 128 == 127 && |extended| == 8 && 0x10_0000 < BE(extended) < 0x1_0000_0000_0000_0000
    ensures ParseFrame([b, c] + extended + rest) == Bad(InvalidLength, rest)
  {
    hide BE, ParsePayload;
    SplitThree([b, c], extended, rest);
  }

  /** What becomes of a frame, opcode by opcode: data, ping, pong, close, and the end for everything else. */
  lemma OpcodesHandled(fragments: seq<byte>, f: Frame, rest: seq<byte>)
    ensures var s := Deliver(fragments, f, rest);
      s.rest == rest && (s.Stop? <==> f.opcode !in {0, 2, 9, 10})
    ensures var s := Deliver(fragments, f, rest);
      s.Stop? ==> s.error == if f.opcode == 8 then Closed else Unsupported
    ensures f.opcode == 9 ==> Deliver(fragments, f, rest) == Continue(None, fragments, Some(f.payload), rest)
    ensures f.opcode == 10 ==> Deliver(fragments, f, rest) == Continue(None, fragments, None, rest)
    ensures f.opcode in {0, 2} && f.fin
        ==> Deliver(fragments, f, rest) == Continue(Some(fragments + f.payload), [], None, rest)
    ensures f.opcode in {0, 2} && !f.fin
        ==> Deliver(fragments, f, rest) == Continue(Some([]), fragments + f.payload, None, rest)
  {
  }

  /** The reply to a ping: final, opcode 10, the length, and what the ping said. */
  lemma PongBytes(payload: seq<byte>, key: Mask)
    requires |payload| <= 125
    ensures ControlBytes(10, payload, None) == [0x8A, |payload|] + payload
    ensures ControlBytes(10, payload, Some(key)) == [0x8A, 0x80 + |payload|] + key + Masked(payload, key)
  {
    hide Masked;
    assert [] + payload == payload;
    var head := [0x8A, 0x80 + |payload|];
    assert head + key + Masked(payload, key) == head + (key + Masked(payload, key));
  }
}
