// wsConn of ws.go: writing and reading frames on a connection.
module WebSocket {
  import opened Bits
  import opened Bytes
  import opened Results
  import opened Cutting
  import opened Net
  import opened Reads
  import opened WebSocketSpec
  import opened WebSocketItems

  lemma OneBit(b: nat)
    requires b < 2
    ensures And(b, 1) == b && Or(b, 1) == 1
  {
  }

  lemma ByteMasks(x: byte)
    ensures And(x, 0x80) != 0 <==> x >= 0x80
    ensures And(x, 0x0F) == x % 0x10
    ensures And(x, 0x7F) == x % 0x80
  {
    hide Bitwise;
    PowersOfTwo();
    AndOnes(x, 4, 16);
    AndOnes(x, 7, 128);
    BitwiseSplit(AND, x / 128, x % 128, 1, 0, 7);
    ShlIsProduct(x / 128, 7, 128);
    ShlIsProduct(1, 7, 128);
    OneBit(x / 128);
    WithZero(x % 128);
  }

  lemma OrTopBit(x: byte)
    ensures Or(x, 0x80) == Or(0x80, x) == if x < 0x80 then x + 0x80 else x
  {
    hide Bitwise;
    PowersOfTwo();
    BitwiseSplit(OR, x / 128, x % 128, 1, 0, 7);
    ShlIsProduct(x / 128, 7, 128);
    ShlIsProduct(1, 7, 128);
    OneBit(x / 128);
    WithZero(x % 128);
    BitwiseSymmetric(OR, x, 0x80);
  }

  /** crypto/rand: any four bytes. */
  method RandomMask() returns (m: Mask)
  {
    var a: byte, b: byte, c: byte, d: byte := *, *, *, *;
    m := [a, b, c, d];
  }

  class WSConn {
    const conn: Conn
    const mask: bool
    var pending: seq<byte>
    var fragments: seq<byte>

    constructor (conn: Conn, mask: bool)
      ensures this.conn == conn && this.mask == mask && pending == [] && fragments == []
    {
      this.conn, this.mask, pending, fragments := conn, mask, [], [];
    }

    /** A mask key is chosen exactly by the side that masks. */
    ghost predicate MaskChosen(m: Option<Mask>) { m.Some? <==> mask }

    /** One final binary frame was written. */
    ghost predicate FrameSent(before: seq<byte>, after: seq<byte>, payload: seq<byte>)
    {
      exists m :: MaskChosen(m) && after == before + EncodeFrame(Frame(true, 2, payload), m)
    }

    ghost predicate ControlSent(before: seq<byte>, after: seq<byte>, opcode: Opcode, payload: seq<byte>)
    {
      exists m :: MaskChosen(m) && after == before + ControlBytes(opcode, payload, m)
    }

    /** for i := range p { p[i] ^= key[i%4] } */
    static method Apply(p: array<byte>, key: Mask)
      modifies p
      ensures p[..] == Masked(old(p[..]), key)
    {
      hide XorByte;
      ghost var before := p[..];
      for i := 0 to p.Length
        invariant p[..i] == Masked(before, key)[..i]
        invariant p[i..] == before[i..]
      {
        assert p[i] == before[i..][0];
        ghost var done := p[..i];
        p[i] := XorByte(p[i], key[i % 4]);
        assert p[..i + 1] == done + [p[i]];
      }
    }

    method MaskedCopy(payload: seq<byte>, key: Mask) returns (body: seq<byte>)
      ensures body == Masked(payload, key)
    {
      var a := new byte[|payload|](i requires 0 <= i < |payload| => payload[i]);
      assert a[..] == payload;
      Apply(a, key);
      body := a[..];
    }

    method Write(payload: seq<byte>) returns (n: nat)
      requires |payload| < B63
      modifies conn`output
      ensures n == |payload|
      ensures payload == [] ==> conn.output == old(conn.output)
      ensures payload != [] ==> FrameSent(old(conn.output), conn.output, payload)
      ensures payload != [] ==> old(conn.output) + [0x82] <= conn.output
      ensures mask ==> BodyAtEnd(conn.output, payload)
    {
      hide Masked, ToBE, Bitwise, BodyAtEnd;
      NothingAtEnd(conn.output);
      if |payload| == 0 { return 0; }
      n := |payload|;
      var second: byte, extended := LengthBytes(n);
      OrTopBit(second);
      var body, m := payload, None;
      if mask {
        second := Or(second, 0x80);
        var key := RandomMask();
        m := Some(key);
        body := MaskedCopy(payload, key);
      }
      var header := [0x82, second] + extended + MaskBytes(m);
      conn.Write(header);
      conn.Write(body);
      Associative3(old(conn.output), header, body, [0x82, second], extended, MaskBytes(m));
      assert conn.output == old(conn.output) + EncodeFrame(Frame(true, 2, payload), m);
      FrameEnds(old(conn.output), payload, m);
    }

    /** A written frame starts with the opcode and ends with the masked payload. */
    static lemma FrameEnds(before: seq<byte>, payload: seq<byte>, m: Option<Mask>)
      requires |payload| < B63
      ensures var out := before + EncodeFrame(Frame(true, 2, payload), m);
        before + [0x82] <= out && (m.Some? ==> BodyAtEnd(out, payload))
    {
      hide Masked, ToBE, XorByte;
      var f := Frame(true, 2, payload);
      assert EncodeFrame(f, m)[0] == 0x82;
      if m.Some? {
        forall i | 0 <= i < |payload|
          ensures var out, n := before + EncodeFrame(f, m), |payload|;
            |out| >= n + 6 && XorByte(out[|out| - n + i], out[|out| - n - 4 + i % 4]) == payload[i]
        {
          MaskedTail(before, f, m.value, i);
        }
        if payload != [] { MaskedTail(before, f, m.value, 0); }
      }
    }

    /** The last bytes of out, combined with the four before them over and over, are the payload. */
    static ghost predicate BodyAtEnd(out: seq<byte>, payload: seq<byte>)
    {
      payload != [] ==>
        && |out| >= |payload| + 4
        && forall i :: 0 <= i < |payload| ==>
             XorByte(out[|out| - |payload| + i], out[|out| - |payload| - 4 + i % 4]) == payload[i]
    }

    static lemma NothingAtEnd(out: seq<byte>)
      ensures BodyAtEnd(out, [])
    {
    }

    /** The length switch: seven bits, 16 bits or 64 bits. */
    method LengthBytes(length: nat) returns (second: byte, extended: seq<byte>)
      requires length < B63
      ensures (second, extended) == LengthField(length) && second < 0x80
    {
      extended := [];
      if length < 126 {
        second := length;
      } else if length < 65536 {
        second := 126;
        extended := [length / 0x100 % 0x100, length % 0x100];
        TwoByteLength(length);
      } else {
        second := 127;
        var i := 8;
        while i > 0
          invariant 0 <= i <= 8
          invariant extended == ToBE(Shr(length, 8 * i), 8 - i)
        {
          i := i - 1;
          ShrByte(length, 8 * i);
          ToBEStep(Shr(length, 8 * i), 7 - i);
          extended := extended + [Shr(length, 8 * i) % 0x100];
        }
      }
    }

    /** Returns the error, if any. */
    method ReadFrame() returns (err: Option<FrameError>)
      requires pending == []
      modifies `pending, `fragments, conn
      ensures var s := NextStep(old(fragments), old(conn.input));
        match s
        case Stop(error, rest) =>
          err == Some(error) && conn.input == rest && conn.output == old(conn.output)
          && pending == [] && fragments == old(fragments)
        case Continue(p, fr, pong, rest) =>
          err == None && conn.input == rest && fragments == fr
          && pending == (if p.Some? then p.value else [])
          && (pong.None? ==> conn.output == old(conn.output))
          && (pong.Some? ==> ControlSent(old(conn.output), conn.output, 10, pong.value))
    {
      hide ParseFrame, ControlBytes;
      var p := ReadParsed();
      if p.Bad? { return Some(p.error); }
      var f := p.frame;
      err := None;
      if f.opcode == 0x0 {
        fragments := fragments + f.payload;
        if !f.fin {
          pending := [];
          return;
        }
        pending, fragments := fragments, [];
      } else if f.opcode == 0x2 {
        if !f.fin {
          fragments, pending := fragments + f.payload, [];
          return;
        }
        if |fragments| > 0 {
          pending, fragments := fragments + f.payload, [];
        } else {
          pending := f.payload;
          assert fragments + f.payload == f.payload;
        }
      } else if f.opcode == 0x9 {
        WriteControl(0xA, f.payload);
      } else if f.opcode == 0x8 {
        err := Some(Closed);
      } else if f.opcode == 0xA {
      } else {
        err := Some(Unsupported);
      }
    }

    /** The flags and fields of the first two bytes. */
    static method Header(b0: byte, b1: byte) returns (fin: bool, opcode: Opcode, masked: bool, len7: nat)
      ensures fin == (b0 >= 0x80) && opcode == b0 % 16 && masked == (b1 >= 0x80) && len7 == b1 % 0x80
    {
      hide Bitwise;
      ByteMasks(b0);
      ByteMasks(b1);
      fin, opcode := And(b0, 0x80) != 0, And(b0, 0x0F);
      masked, len7 := And(b1, 0x80) != 0, And(b1, 0x7F);
    }

    /** The first half of readFrame: header, length, mask and payload. */
    method ReadParsed() returns (p: Parsed)
      modifies conn`input
      ensures p == ParseFrame(old(conn.input)) && conn.input == p.rest
      ensures p.Got? && |old(conn.input)| >= 2 && old(conn.input)[1] >= 0x80 ==>
        BodyTakenOff(old(conn.input), |p.rest|, p.frame.payload)
    {
      hide Bitwise, BE, Masked, BodyTakenOff;
      BodiesTakenOff(conn.input);
      var header := conn.ReadFull(2);
      if header.None? { return Bad(UnexpectedEOF, conn.input); }
      var b0, b1 := header.value[0], header.value[1];
      var fin, opcode, masked, len7 := Header(b0, b1);
      var length: int := len7;
      var bytes := if length == 126 then 2 else if length == 127 then 8 else 0;
      var extended := conn.ReadFull(bytes);
      if extended.None? { return Bad(UnexpectedEOF, conn.input); }
      if bytes > 0 {
        length := BigEndianInt64(extended.value);
      }
      if length < 0 || length > MAX_FRAME { return Bad(InvalidLength, conn.input); }
      p := ReadPayload(fin, opcode, masked, length, b0);
    }

    /** With left bytes after it, input has the payload combined with the four bytes before it over and over. */
    static ghost predicate BodyTakenOff(input: seq<byte>, left: nat, payload: seq<byte>)
    {
      var at := |input| - left - |payload|;
      payload != [] ==>
        at >= 6 && forall i :: 0 <= i < |payload| ==> payload[i] == XorByte(input[at + i], input[at - 4 + i % 4])
    }

    static lemma BodiesTakenOff(input: seq<byte>)
      ensures var p := ParseFrame(input);
        p.Got? && |input| >= 2 && input[1] >= 0x80 ==> BodyTakenOff(input, |p.rest|, p.frame.payload)
    {
      hide ParseLength, XorByte;
      var p := ParseFrame(input);
      if p.Got? && |input| >= 2 && input[1] >= 0x80 && p.frame.payload != [] {
        ReadTail(input, 0);
        forall i | 0 <= i < |p.frame.payload|
          ensures var at := |input| - |p.rest| - |p.frame.payload|;
            at >= 6 && at + i < |input| && p.frame.payload[i] == XorByte(input[at + i], input[at - 4 + i % 4])
        {
          ReadTail(input, i);
        }
      }
    }

    method ReadPayload(fin: bool, opcode: Opcode, masked: bool, length: nat, ghost b0: byte) returns (p: Parsed)
      requires fin == (b0 >= 0x80) && opcode == b0 % 16
      modifies conn`input
      ensures p == ParsePayload(b0, masked, length, old(conn.input)) && conn.input == p.rest
    {
      hide Masked;
      var key := conn.ReadFull(if masked then 4 else 0);
      if key.None? { return Bad(UnexpectedEOF, conn.input); }
      var chunk := conn.ReadFull(length);
      if chunk.None? { return Bad(UnexpectedEOF, conn.input); }
      var payload := chunk.value;
      if masked {
        payload := MaskedCopy(payload, key.value);
      }
      p := Got(Frame(fin, opcode, payload), conn.input);
    }

    method WriteControl(opcode: Opcode, payload: seq<byte>)
      modifies conn`output
      ensures ControlSent(old(conn.output), conn.output, opcode, payload)
    {
      hide Masked, Bitwise;
      OrTopBit(opcode);
      var second := |payload| % 0x100;
      OrTopBit(second);
      var body, m := payload, None;
      if mask {
        var key := RandomMask();
        second := Or(second, 0x80);
        m := Some(key);
        body := MaskedCopy(payload, key);
      }
      var header := [Or(0x80, opcode), second] + MaskBytes(m);
      conn.Write(header);
      conn.Write(body);
      assert conn.output == old(conn.output) + ControlBytes(opcode, payload, m);
    }

    ghost function Source(): Source
      reads this, conn
    {
      Reads.Source(pending, Messages(fragments, conn.input))
    }

    /** Control replies, masked as they have to be. */
    ghost predicate Answering(answers: seq<Item>) { forall it :: it in answers ==> it.Pong? && MaskChosen(it.mask) }

    /** Unwraps frames until there is data, answering pings on the way. */
    method Read(n: nat) returns (out: Option<seq<byte>>, ghost answers: seq<Item>)
      modifies `pending, `fragments, conn
      ensures out == Reads.Read(old(Source()), n).0
      ensures out.Some? ==> Source() == Reads.Read(old(Source()), n).1
      ensures Answering(answers) && conn.output == old(conn.output) + Mixed(answers)
      ensures Pongs(answers) + (if out.Some? then Pings(fragments, conn.input) else [])
           == Pings(old(fragments), old(conn.input))
    {
      hide NextStep, ControlBytes, Pings, Pongs, Mixed;
      answers := [];
      NoItems();
      assert [] + Pings(fragments, conn.input) == Pings(fragments, conn.input);
      while |pending| == 0
        invariant Reads.Read(Source(), n) == Reads.Read(old(Source()), n)
        invariant Answering(answers) && conn.output == old(conn.output) + Mixed(answers)
        invariant Pongs(answers) + Pings(fragments, conn.input) == Pings(old(fragments), old(conn.input))
        decreases |conn.input|, |pending| == 0
      {
        ghost var step := NextStep(fragments, conn.input);
        ghost var before, written := Source(), conn.output;
        PingsStep(fragments, conn.input);
        var err := ReadFrame();
        if err.Some? {
          assert before == Reads.Source([], []);
          out := None;
          return;
        }
        if step.pong.Some? {
          ghost var m :| MaskChosen(m) && conn.output == written + ControlBytes(10, step.pong.value, m);
          ItemNext(old(conn.output), answers, Pong(step.pong.value, m));
          Associative(Pongs(answers), [step.pong.value], Pings(fragments, conn.input));
          answers := answers + [Pong(step.pong.value, m)];
        } else {
          assert [] + Pings(fragments, conn.input) == Pings(fragments, conn.input);
        }
        if step.pending.Some? {
          assert before.chunks[0] == step.pending.value && before.chunks[1..] == Messages(fragments, conn.input);
        } else {
          assert before.chunks == [] + Messages(fragments, conn.input);
          assert before == Source();
        }
        assert Reads.Read(before, n) == Reads.Read(Source(), n);
      }
      var c := Min(n, |pending|);
      out := Some(pending[..c]);
      pending := pending[c..];
    }

    /** Payloads written one after another; masks are the keys chosen for them. */
    method SendAll(writes: seq<seq<byte>>) returns (ghost masks: seq<Option<Mask>>)
      requires forall w :: w in writes ==> |w| < B63
      modifies conn`output
      ensures |masks| == |writes| && forall i :: 0 <= i < |masks| && writes[i] != [] ==> MaskChosen(masks[i])
      ensures conn.output == old(conn.output) + Wire(Frames(writes, masks))
    {
      hide Wire, Frames, FrameOf, EncodeFrame;
      masks := [];
      FramesStart();
      for i := 0 to |writes|
        invariant |masks| == i && forall k :: 0 <= k < i && writes[k] != [] ==> MaskChosen(masks[k])
        invariant conn.output == old(conn.output) + Wire(Frames(writes[..i], masks))
      {
        ghost var before, m := conn.output, None;
        var n := Write(writes[i]);
        if writes[i] != [] {
          m :| MaskChosen(m) && conn.output == before + EncodeFrame(Frame(true, 2, writes[i]), m);
        }
        SentNext(old(conn.output), before, conn.output, writes[..i], masks, writes[i], m);
        assert writes[..i + 1] == writes[..i] + [writes[i]];
        masks := masks + [m];
      }
      assert writes[..|writes|] == writes;
    }

    /** Reads into buffers of the given sizes until the first error. */
    method ReceiveAll(sizes: seq<nat>) returns (out: seq<byte>)
      modifies `pending, `fragments, conn
      ensures out == ReadMany(old(Source()), sizes).0
    {
      hide ReadMany, Messages, Reads.Read;
      out := [];
      ReadManyEnds(Source(), sizes, []);
      for i := 0 to |sizes|
        invariant out + ReadMany(Source(), sizes[i..]).0 == ReadMany(old(Source()), sizes).0
      {
        ReadManyAt(Source(), sizes, i, out);
        var piece, _ := Read(sizes[i]);
        if piece.None? { return; }
        out := out + piece.value;
      }
      ReadManyEnds(Source(), sizes, out);
    }

    /** Writes and reads in any order; reads after the first failed one are not made. items is what went out. */
    method Converse(ops: seq<Op>) returns (out: seq<byte>, ghost items: seq<Item>)
      requires forall op :: op in ops && op.WriteOp? ==> |op.payload| < B63
      modifies `pending, `fragments, conn
      ensures out == ReadMany(old(Source()), Sizes(ops)).0
      ensures conn.output == old(conn.output) + Mixed(items) && forall it :: it in items ==> MaskChosen(it.mask)
      ensures Datas(items) == NonEmpty(Writes(ops)) && Pongs(items) <= Pings(old(fragments), old(conn.input))
    {
      hide ReadMany, Messages, Reads.Read, Mixed, Datas, Pongs, Pings, NonEmpty, Writes, Sizes, EncodeFrame;
      var failed := false;
      out, items := [], [];
      NothingDone(Source(), ops);
      ghost var all, pings := ReadMany(Source(), Sizes(ops)).0, Pings(fragments, conn.input);
      for i := 0 to |ops|
        invariant out + (if failed then [] else ReadMany(Source(), Sizes(ops[i..])).0) == all
        invariant conn.output == old(conn.output) + Mixed(items) && forall it :: it in items ==> MaskChosen(it.mask)
        invariant Datas(items) == NonEmpty(Writes(ops[..i]))
        invariant if failed then Pongs(items) <= pings else Pongs(items) + Pings(fragments, conn.input) == pings
      {
        assert ops[i] in ops && ops[..i + 1] == ops[..i] + [ops[i]];
        WritesNext(ops[..i], ops[i]);
        SizesNext(ops, i);
        match ops[i] {
          case WriteOp(payload) =>
            ghost var written := conn.output;
            var n := Write(payload);
            if payload != [] {
              ghost var m :| MaskChosen(m) && conn.output == written + EncodeFrame(Frame(true, 2, payload), m);
              ItemNext(old(conn.output), items, Data(payload, m));
              items := items + [Data(payload, m)];
            }
          case ReadOp(n) =>
            if !failed {
              ReadManyFirst(Source(), n, Sizes(ops[i + 1..]), out);
              ghost var before := Pongs(items);
              var piece, answers := Read(n);
              ItemsNext(old(conn.output), items, answers);
              Associative(before, Pongs(answers), Pings(fragments, conn.input));
              items := items + answers;
              failed := piece.None?;
              if piece.Some? {
                out := out + piece.value;
              }
            }
        }
      }
      AllDone(Source(), ops, out);
    }
  }

  lemma NothingDone(s: Reads.Source, ops: seq<Op>)
    ensures [] + ReadMany(s, Sizes(ops[0..])).0 == ReadMany(s, Sizes(ops)).0
    ensures Mixed([]) == [] && Datas([]) == NonEmpty(Writes(ops[..0])) && Pongs([]) == []
  {
    assert ops[0..] == ops;
  }

  lemma AllDone(s: Reads.Source, ops: seq<Op>, out: seq<byte>)
    ensures out + ReadMany(s, Sizes(ops[|ops|..])).0 == out
    ensures ops[..|ops|] == ops
  {
    assert Sizes(ops[|ops|..]) == [];
  }

  lemma SizesNext(ops: seq<Op>, i: nat)
    requires i < |ops|
    ensures Sizes(ops[i..]) == if ops[i].ReadOp? then [ops[i].n] + Sizes(ops[i + 1..]) else Sizes(ops[i + 1..])
  {
    assert ops[i..][0] == ops[i] && ops[i..][1..] == ops[i + 1..];
  }

  lemma ItemsNext(start: seq<byte>, items: seq<Item>, more: seq<Item>)
    ensures (start + Mixed(items)) + Mixed(more) == start + Mixed(items + more)
    ensures Datas(items + more) == Datas(items) + Datas(more) && Pongs(items + more) == Pongs(items) + Pongs(more)
    ensures (forall it :: it in more ==> it.Pong?) ==> Datas(items + more) == Datas(items)
  {
    hide Mixed, Pongs;
    ItemsAppend(items, more);
    Associative(start, Mixed(items), Mixed(more));
    if forall it :: it in more ==> it.Pong? { OnlyPongs(more); }
  }

  lemma {:induction false} OnlyPongs(items: seq<Item>)
    requires forall it :: it in items ==> it.Pong?
    ensures Datas(items) == []
  {
    if items != [] {
      assert items[0] in items;
      OnlyPongs(items[1..]);
    }
  }

  lemma ItemNext(start: seq<byte>, items: seq<Item>, it: Item)
    ensures (start + Mixed(items)) + ItemBytes(it) == start + Mixed(items + [it])
    ensures Datas(items + [it]) == Datas(items) + DataIn(it) && Pongs(items + [it]) == Pongs(items) + PongIn(it)
  {
    OneItem(it);
    hide Mixed, Datas, Pongs;
    ItemsNext(start, items, [it]);
  }

  lemma FramesStart()
    ensures Wire(Frames([], [])) == []
  {
  }

  lemma SentNext(start: seq<byte>, before: seq<byte>, after: seq<byte>,
                 writes: seq<seq<byte>>, masks: seq<Option<Mask>>, w: seq<byte>, m: Option<Mask>)
    requires |masks| == |writes| && before == start + Wire(Frames(writes, masks))
    requires after == if w == [] then before else before + EncodeFrame(Frame(true, 2, w), m)
    ensures after == start + Wire(Frames(writes + [w], masks + [m]))
  {
    hide Wire, Frames, EncodeFrame;
    FramesAppend(writes, masks, w, m);
    if w == [] {
      assert Frames(writes, masks) + [] == Frames(writes, masks);
    } else {
      WireAppend(Frames(writes, masks), Binary(w, m));
      Associative(start, Wire(Frames(writes, masks)), EncodeFrame(Frame(true, 2, w), m));
    }
  }

  /** One end writes, reads and answers pings; the other then reads what it sent. Whatever the order, the other end
      gets exactly the payloads written, as long as each fits a frame and the pings answered have at most 125 bytes. */
  method Dialogue(input: seq<byte>, ops: seq<Op>, masking: bool, sizes: seq<nat>)
    returns (out: seq<byte>, back: seq<byte>)
    requires forall op :: op in ops && op.WriteOp? ==> |op.payload| < B63
    ensures out == ReadMany(Source([], Messages([], input)), Sizes(ops)).0
    ensures (forall w :: w in Writes(ops) ==> |w| <= MAX_FRAME) && (forall p :: p in Pings([], input) ==> |p| <= 125)
        ==> Delivered(back, sizes, Flatten(Writes(ops)))
  {
    hide Delivered, ReadMany, Messages, Mixed, Datas, Pongs, Pings, Writes, Flatten, NonEmpty, Fits;
    var here := new Conn(input);
    var speaker := new WSConn(here, masking);
    ghost var items: seq<Item>;
    out, items := speaker.Converse(ops);
    assert [] + Mixed(items) == Mixed(items);
    var there := new Conn(here.output);
    var listener := new WSConn(there, !masking);
    back := listener.ReceiveAll(sizes);
    if (forall w :: w in Writes(ops) ==> |w| <= MAX_FRAME) && (forall p :: p in Pings([], input) ==> |p| <= 125) {
      AllFit(items, Writes(ops), Pings([], input));
      MixedReadBack(items, sizes);
      NonEmptyFlatten(Writes(ops));
    }
  }

  /** Two ends of a connection: what one end writes, the other reads, for any writes and read buffer sizes. */
  method Exchange(writes: seq<seq<byte>>, masking: bool, sizes: seq<nat>) returns (out: seq<byte>)
    requires forall w :: w in writes ==> |w| < B63
    ensures Delivered(out, sizes, Flatten(Understood(writes)))
    ensures (forall w :: w in writes ==> |w| <= MAX_FRAME) ==> Delivered(out, sizes, Flatten(writes))
  {
    hide Delivered, ReadMany, Understood, Wire, Frames, Messages, Flatten;
    var there := new Conn([]);
    var writer := new WSConn(there, masking);
    ghost var masks := writer.SendAll(writes);
    assert there.output == Wire(Frames(writes, masks));
    var here := new Conn(there.output);
    var reader := new WSConn(here, !masking);
    out := reader.ReceiveAll(sizes);
    ReaderUndoesWriter(writes, masks, sizes);
    UnderstoodIff(writes);
  }

  lemma ToBEStep(n: nat, k: nat)
    ensures ToBE(n, k + 1) == ToBE(n / 0x100, k) + [n % 0x100]
  {
  }

  lemma ShrByte(n: nat, k: nat)
    ensures Shr(n, k + 8) == Shr(n, k) / 0x100
  {
    assert Shr(n, k + 2) == Shr(n, k) / 4;
    assert Shr(n, k + 4) == Shr(n, k + 2) / 4;
    assert Shr(n, k + 6) == Shr(n, k + 4) / 4;
    assert Shr(n, k + 8) == Shr(n, k + 6) / 4;
  }

  /** Header and body written one after the other are one string. */
  lemma Associative3(before: seq<byte>, header: seq<byte>, body: seq<byte>, a: seq<byte>, b: seq<byte>, c: seq<byte>)
    requires header == a + b + c
    ensures (before + header) + body == before + (a + (b + (c + body)))
  {
  }

  /** length = length<<8 | int64(b) over the eight bytes. */
  method BigEndianInt64(s: seq<byte>) returns (length: int)
    requires |s| <= 8
    ensures length == ToInt64(BE(s))
  {
    length := 0;
    for i := 0 to |s|
      invariant length == ToInt64(BE(s[..i]))
    {
      assert s[..i + 1][..i] == s[..i];
      ghost var before := BE(s[..i]);
      assert BE(s[..i + 1]) == 0x100 * before + s[i];
      length := ShiftIn(length, s[i]);
      ShiftInValue(before, s[i]);
    }
    assert s[..|s|] == s;
  }

  /** x<<8 | b on int64, wrapping. */
  function ShiftIn(x: int, b: byte): int { ToInt64((x % B64) * 0x100 % B64 + b) }

  lemma ShiftInValue(n: nat, b: byte)
    ensures ShiftIn(ToInt64(n), b) == ToInt64(0x100 * n + b)
  {
    assert ToInt64(n) % B64 == n % B64;
    var q, r := n / B64, n % B64;
    assert 0x100 * n + b == (0x100 * q) * B64 + (0x100 * r + b);
    var s, t := 0x100 * r / B64, 0x100 * r % B64;
    assert 0x100 * n + b == (0x100 * q + s) * B64 + (t + b);
    assert (0x100 * n + b) % B64 == (t + b) % B64;
  }
}
