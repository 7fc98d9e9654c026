// What a connection that both writes and answers pings puts on the wire: binary frames and control replies, mixed.
module WebSocketItems {
  import opened Bits
  import opened Results
  import opened Cutting
  import opened Reads
  import opened WebSocketSpec

  datatype Item = Data(payload: seq<byte>, mask: Option<Mask>) | Pong(payload: seq<byte>, mask: Option<Mask>)

  function ItemBytes(it: Item): seq<byte>
  {
    match it
    case Data(payload, mask) => EncodeFrame(Frame(true, 2, payload), mask)
    case Pong(payload, mask) => ControlBytes(10, payload, mask)
  }

  /** The items on the wire, one after another. */
  function Mixed(items: seq<Item>): seq<byte>
  {
    if items == [] then [] else ItemBytes(items[0]) + Mixed(items[1..])
  }

  /** The frame an item is meant to be. */
  function Meant(it: Item): Frame { Frame(true, if it.Data? then 2 else 10, it.payload) }

  predicate Fits(it: Item) { |it.payload| <= if it.Data? then MAX_FRAME else 125 }

  /** An item is read as the frame it is meant to be exactly when it fits. */
  lemma ItemIff(it: Item, tail: seq<byte>)
    requires |it.payload| < B63
    ensures ParseFrame(ItemBytes(it) + tail) == Got(Meant(it), tail) <==> Fits(it)
  {
    hide ParseFrame, EncodeFrame, ControlBytes;
    match it
    case Data(payload, mask) => FrameRoundTrip(Meant(it), mask, tail);
    case Pong(payload, mask) => ControlReplyIff(10, payload, mask, tail);
  }

  /** Every item is read as meant, in its place, exactly when every item fits. */
  lemma MixedIff(items: seq<Item>)
    requires forall it :: it in items ==> |it.payload| < B63
    ensures (forall i :: 0 <= i < |items| ==> ReadAsMeant(items, i)) <==> forall it :: it in items ==> Fits(it)
  {
    hide ParseFrame, ItemBytes;
    forall i | 0 <= i < |items| ensures ReadAsMeant(items, i) <==> Fits(items[i]) {
      assert items[i] in items;
      assert items[i..][0] == items[i] && items[i..][1..] == items[i + 1..];
      ItemIff(items[i], Mixed(items[i + 1..]));
    }
  }

  predicate ReadAsMeant(items: seq<Item>, i: nat)
    requires i < |items|
  {
    ParseFrame(Mixed(items[i..])) == Got(Meant(items[i]), Mixed(items[i + 1..]))
  }

  /** The items as frames with their masks. */
  function AsSent(items: seq<Item>): seq<Sent>
  {
    if items == [] then [] else [Sent(Meant(items[0]), items[0].mask)] + AsSent(items[1..])
  }

  function Datas(items: seq<Item>): seq<seq<byte>>
  {
    if items == [] then [] else DataIn(items[0]) + Datas(items[1..])
  }

  function DataIn(it: Item): seq<seq<byte>> { if it.Data? then [it.payload] else [] }

  function Pongs(items: seq<Item>): seq<seq<byte>>
  {
    if items == [] then [] else PongIn(items[0]) + Pongs(items[1..])
  }

  function PongIn(it: Item): seq<seq<byte>> { if it.Pong? then [it.payload] else [] }

  lemma {:induction false} FittingIsWire(items: seq<Item>)
    requires forall it :: it in items ==> Fits(it)
    ensures Mixed(items) == Wire(AsSent(items)) && WellFormed(AsSent(items), false)
    ensures DataOf(AsSent(items)) == Flatten(Datas(items))
  {
    hide EncodeFrame, ControlBytes;
    if items == [] {
      FlattenNothing<byte>();
    } else {
      var it, rest := items[0], items[1..];
      assert it in items && Fits(it);
      FittingIsWire(rest);
      if it.Pong? { ControlIsFrame(10, it.payload, it.mask); }
      assert AsSent(items)[0] == Sent(Meant(it), it.mask) && AsSent(items)[1..] == AsSent(rest);
      if it.Data? {
        FlattenCons(it.payload, Datas(rest));
      } else {
        assert [] + Datas(rest) == Datas(rest) && [] + DataOf(AsSent(rest)) == DataOf(AsSent(rest));
      }
    }
  }

  /** A peer that reads items that fit, with buffers of any sizes, gets the payloads written and nothing else. */
  lemma MixedReadBack(items: seq<Item>, sizes: seq<nat>)
    requires forall it :: it in items ==> Fits(it)
    ensures Delivered(ReadMany(Source([], Messages([], Mixed(items))), sizes).0, sizes, Flatten(Datas(items)))
  {
    hide Fits, Mixed, Messages, Delivered, ReadMany;
    FittingIsWire(items);
    FragmentsReadBack(AsSent(items), sizes);
  }

  /** The payloads of the pings a reader meets before its first error. */
  function Pings(fragments: seq<byte>, input: seq<byte>): seq<seq<byte>>
    decreases |input|
  {
    var s := NextStep(fragments, input);
    if s.Stop? then [] else (if s.pong.Some? then [s.pong.value] else []) + Pings(s.fragments, s.rest)
  }

  lemma PingsStep(fragments: seq<byte>, input: seq<byte>)
    ensures var s := NextStep(fragments, input);
      Pings(fragments, input)
      == if s.Stop? then [] else (if s.pong.Some? then [s.pong.value] else []) + Pings(s.fragments, s.rest)
  {
    hide NextStep;
  }

  /** What a connection is asked to do. */
  datatype Op = WriteOp(payload: seq<byte>) | ReadOp(n: nat)

  function Writes(ops: seq<Op>): seq<seq<byte>>
  {
    if ops == [] then [] else (if ops[0].WriteOp? then [ops[0].payload] else []) + Writes(ops[1..])
  }

  function Sizes(ops: seq<Op>): seq<nat>
  {
    if ops == [] then [] else (if ops[0].ReadOp? then [ops[0].n] else []) + Sizes(ops[1..])
  }

  lemma {:induction false} WritesNext(ops: seq<Op>, op: Op)
    ensures NonEmpty(Writes(ops + [op]))
         == NonEmpty(Writes(ops)) + if op.WriteOp? && op.payload != [] then [op.payload] else []
  {
    if ops == [] {
      assert ops + [op] == [op];
    } else {
      WritesNext(ops[1..], op);
      assert (ops + [op])[0] == ops[0] && (ops + [op])[1..] == ops[1..] + [op];
      FirstWrite(ops);
      FirstWrite(ops + [op]);
    }
  }

  lemma FirstWrite(ops: seq<Op>)
    requires ops != []
    ensures NonEmpty(Writes(ops))
         == (if ops[0].WriteOp? && ops[0].payload != [] then [ops[0].payload] else []) + NonEmpty(Writes(ops[1..]))
  {
    var rest := Writes(ops[1..]);
    if ops[0].WriteOp? {
      assert Writes(ops) == [ops[0].payload] + rest && Writes(ops)[1..] == rest;
    } else {
      assert Writes(ops) == rest;
    }
  }

  lemma {:induction false} NonEmptyIn(writes: seq<seq<byte>>)
    ensures forall w :: w in NonEmpty(writes) ==> w in writes
  {
    if writes != [] { NonEmptyIn(writes[1..]); }
  }

  lemma {:induction false} PayloadIn(items: seq<Item>)
    ensures forall it :: it in items ==> it.payload in if it.Data? then Datas(items) else Pongs(items)
  {
    if items != [] {
      PayloadIn(items[1..]);
      assert items == [items[0]] + items[1..];
    }
  }

  /** Items that carry the writes and answer pings fit when the writes and the pings are short enough. */
  lemma AllFit(items: seq<Item>, writes: seq<seq<byte>>, pings: seq<seq<byte>>)
    requires Datas(items) == NonEmpty(writes) && Pongs(items) <= pings
    requires (forall w :: w in writes ==> |w| <= MAX_FRAME) && (forall p :: p in pings ==> |p| <= 125)
    ensures forall it :: it in items ==> Fits(it)
  {
    PayloadIn(items);
    NonEmptyIn(writes);
  }

  lemma {:induction false} ItemsAppend(a: seq<Item>, b: seq<Item>)
    ensures Mixed(a + b) == Mixed(a) + Mixed(b)
    ensures Datas(a + b) == Datas(a) + Datas(b) && Pongs(a + b) == Pongs(a) + Pongs(b)
  {
    hide Mixed, Datas, Pongs, ItemBytes;
    if a == [] {
      NoItems();
      assert a + b == b && [] + Mixed(b) == Mixed(b) && [] + Datas(b) == Datas(b) && [] + Pongs(b) == Pongs(b);
    } else {
      ItemsAppend(a[1..], b);
      assert a == [a[0]] + a[1..] && a + b == [a[0]] + (a[1..] + b);
      ItemsCons(a[0], a[1..]);
      ItemsCons(a[0], a[1..] + b);
      Associative(ItemBytes(a[0]), Mixed(a[1..]), Mixed(b));
      Associative(DataIn(a[0]), Datas(a[1..]), Datas(b));
      Associative(PongIn(a[0]), Pongs(a[1..]), Pongs(b));
    }
  }

  lemma ItemsCons(it: Item, rest: seq<Item>)
    ensures Mixed([it] + rest) == ItemBytes(it) + Mixed(rest)
    ensures Datas([it] + rest) == DataIn(it) + Datas(rest) && Pongs([it] + rest) == PongIn(it) + Pongs(rest)
  {
    assert ([it] + rest)[1..] == rest;
  }

  lemma OneItem(it: Item)
    ensures Mixed([it]) == ItemBytes(it)
    ensures Datas([it]) == DataIn(it) && Pongs([it]) == PongIn(it)
  {
    hide ItemBytes;
    assert ItemBytes(it) + [] == ItemBytes(it);
  }

  lemma NoItems()
    ensures Mixed([]) == [] && Datas([]) == [] && Pongs([]) == []
  {
  }
}
