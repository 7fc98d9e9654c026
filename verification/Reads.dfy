// Reading a byte stream that arrives in chunks, with a buffer of any size: the part
// shared by the three framing readers.
module Reads {
  import opened Bits
  import opened Results
  import opened Cutting

  /** Bytes already unwrapped, and the chunks that unwrapping will still produce. */
  datatype Source = Source(pending: seq<byte>, chunks: seq<seq<byte>>)

  function Left(s: Source): seq<byte> { s.pending + Flatten(s.chunks) }

  /** One Read into a buffer of n bytes; None is the error at the end of the stream. */
  function Read(s: Source, n: nat): (Option<seq<byte>>, Source)
    decreases |s.chunks|
  {
    if s.pending != [] then
      var k := Min(n, |s.pending|);
      (Some(s.pending[..k]), s.(pending := s.pending[k..]))
    else if s.chunks == [] then (None, s)
    else Read(Source(s.chunks[0], s.chunks[1..]), n)
  }

  /** Reads with the given buffer sizes until the first error. */
  function ReadMany(s: Source, sizes: seq<nat>): (seq<byte>, Source)
    decreases |sizes|
  {
    if sizes == [] then ([], s)
    else
      var (out, s') := Read(s, sizes[0]);
      if out.None? then ([], s')
      else
        var (more, s'') := ReadMany(s', sizes[1..]);
        (out.value + more, s'')
  }

  lemma {:induction false} ReadConserves(s: Source, n: nat)
    ensures var (out, s') := Read(s, n);
      match out
      case Some(b) => b + Left(s') == Left(s) && |b| <= n && (n > 0 ==> b != [])
      case None => Left(s) == [] == Left(s')
    decreases |s.chunks|
  {
    if s.pending != [] {
      var k := Min(n, |s.pending|);
      assert s.pending[..k] + (s.pending[k..] + Flatten(s.chunks)) == Left(s);
    } else if s.chunks != [] {
      ReadConserves(Source(s.chunks[0], s.chunks[1..]), n);
      assert Left(s) == Left(Source(s.chunks[0], s.chunks[1..]));
    }
  }

  /** What was read, followed by what is left, is what there was. */
  lemma {:induction false} ReadManyConserves(s: Source, sizes: seq<nat>)
    ensures ReadMany(s, sizes).0 + Left(ReadMany(s, sizes).1) == Left(s)
    decreases |sizes|
  {
    if sizes != [] {
      ReadConserves(s, sizes[0]);
      var (out, s') := Read(s, sizes[0]);
      if out.Some? {
        ReadManyConserves(s', sizes[1..]);
        var (more, s'') := ReadMany(s', sizes[1..]);
        assert (out.value + more) + Left(s'') == out.value + (more + Left(s''));
      }
    }
  }

  /** Enough reads with nonempty buffers return the whole stream. */
  lemma {:induction false} ReadManyDrains(s: Source, sizes: seq<nat>)
    requires forall i :: 0 <= i < |sizes| ==> sizes[i] > 0
    requires |Left(s)| <= |sizes|
    ensures ReadMany(s, sizes).0 == Left(s)
    decreases |sizes|
  {
    if sizes != [] {
      ReadConserves(s, sizes[0]);
      var (out, s') := Read(s, sizes[0]);
      if out.Some? {
        ReadManyDrains(s', sizes[1..]);
      }
    }
  }

  /** What reads with these buffer sizes have to return of a stream: never anything else than its beginning, and
      all of it when there are enough of them, none with an empty buffer. */
  ghost predicate Delivered(out: seq<byte>, sizes: seq<nat>, stream: seq<byte>)
  {
    && out <= stream
    && ((forall i :: 0 <= i < |sizes| ==> sizes[i] > 0) && |stream| <= |sizes| ==> out == stream)
  }

  lemma ReadManyDelivers(s: Source, sizes: seq<nat>)
    ensures Delivered(ReadMany(s, sizes).0, sizes, Left(s))
  {
    hide ReadMany, Left;
    ReadManyConserves(s, sizes);
    if (forall i :: 0 <= i < |sizes| ==> sizes[i] > 0) && |Left(s)| <= |sizes| {
      ReadManyDrains(s, sizes);
    }
  }

  /** One read before the rest, after sofar was read. */
  lemma ReadManyFirst(s: Source, n: nat, rest: seq<nat>, sofar: seq<byte>)
    ensures var (out, s') := Read(s, n);
      sofar + ReadMany(s, [n] + rest).0
      == if out.None? then sofar else (sofar + out.value) + ReadMany(s', rest).0
  {
    assert ([n] + rest)[0] == n && ([n] + rest)[1..] == rest;
    hide Read;
    var (out, s') := Read(s, n);
    if out.Some? {
      Associative(sofar, out.value, ReadMany(s', rest).0);
    }
  }

  /** Read i of many, after sofar was read. */
  lemma ReadManyAt(s: Source, sizes: seq<nat>, i: nat, sofar: seq<byte>)
    requires i < |sizes|
    ensures var (out, s') := Read(s, sizes[i]);
      sofar + ReadMany(s, sizes[i..]).0
      == if out.None? then sofar else (sofar + out.value) + ReadMany(s', sizes[i + 1..]).0
  {
    hide Read, ReadMany;
    assert sizes[i..] == [sizes[i]] + sizes[i + 1..];
    ReadManyFirst(s, sizes[i], sizes[i + 1..], sofar);
  }

  lemma ReadManyEnds(s: Source, sizes: seq<nat>, sofar: seq<byte>)
    ensures [] + ReadMany(s, sizes[0..]).0 == ReadMany(s, sizes).0
    ensures sofar + ReadMany(s, sizes[|sizes|..]).0 == sofar
  {
    assert sizes[0..] == sizes && sizes[|sizes|..] == [];
  }

  lemma SplitThree(x: seq<byte>, y: seq<byte>, z: seq<byte>)
    ensures ((x + y) + z)[..|x|] == x && ((x + y) + z)[|x|..] == y + z
    ensures (y + z)[..|y|] == y && (y + z)[|y|..] == z
  {
  }

  /** A read hands out what is pending, as much as fits, and otherwise the beginning of the next chunk that is not
      empty; the rest of it stays pending. */
  lemma {:induction false} ReadFills(s: Source, n: nat, i: nat)
    requires s.pending == [] && i < |s.chunks| && s.chunks[i] != []
    requires forall j :: 0 <= j < i ==> s.chunks[j] == []
    ensures var c, (out, s') := s.chunks[i], Read(s, n);
      out.Some? && |out.value| == (if n <= |c| then n else |c|) && out.value + s'.pending == c
      && s'.chunks == s.chunks[i + 1..]
    decreases i
  {
    if i > 0 {
      ReadFills(Source(s.chunks[0], s.chunks[1..]), n, i - 1);
    }
  }
}
