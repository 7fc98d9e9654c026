// Sequences cut into pieces of a fixed size, and put together again: the chunks of the
// framing layers and the batches of the worker pool.
module Cutting {
  import opened Bits

  function Flatten<T>(pieces: seq<seq<T>>): seq<T>
  {
    if pieces == [] then [] else pieces[0] + Flatten(pieces[1..])
  }

  /** Items cut into pieces of size elements; only the last may be shorter, and none is empty. */
  function Pieces<T>(items: seq<T>, size: nat): seq<seq<T>>
    requires size > 0
    decreases |items|
  {
    if items == [] then []
    else
      var n := Min(size, |items|);
      [items[..n]] + Pieces(items[n..], size)
  }

  lemma FlattenCons<T>(x: seq<T>, pieces: seq<seq<T>>)
    ensures Flatten([x] + pieces) == x + Flatten(pieces)
  {
    assert ([x] + pieces)[1..] == pieces;
  }

  lemma {:induction false} FlattenAppend<T>(a: seq<seq<T>>, b: seq<seq<T>>)
    ensures Flatten(a + b) == Flatten(a) + Flatten(b)
  {
    if a == [] {
      assert a + b == b;
    } else {
      FlattenAppend(a[1..], b);
      assert (a + b)[0] == a[0] && (a + b)[1..] == a[1..] + b;
      Associative(a[0], Flatten(a[1..]), Flatten(b));
    }
  }

  lemma Associative<T>(x: seq<T>, y: seq<T>, z: seq<T>)
    ensures (x + y) + z == x + (y + z)
  {
  }

  /** The pieces put together are the items: in order, none lost, none twice. */
  lemma {:induction false} PiecesFlatten<T>(items: seq<T>, size: nat)
    requires size > 0
    ensures Flatten(Pieces(items, size)) == items
    decreases |items|
  {
    hide Flatten;
    if items == [] {
      FlattenNothing<T>();
    } else {
      var n := Min(size, |items|);
      PiecesFlatten(items[n..], size);
      FlattenCons(items[..n], Pieces(items[n..], size));
      assert items == items[..n] + items[n..];
    }
  }

  lemma FlattenNothing<T>()
    ensures Flatten<T>([]) == []
  {
  }

  /** Every piece is full but perhaps the last, which is not empty. */
  lemma {:induction false} PiecesFull<T>(items: seq<T>, size: nat, i: nat)
    requires size > 0 && i < |Pieces(items, size)|
    ensures 0 < |Pieces(items, size)[i]| <= size
    ensures i < |Pieces(items, size)| - 1 ==> |Pieces(items, size)[i]| == size
    decreases i
  {
    var n := Min(size, |items|);
    var rest := Pieces(items[n..], size);
    assert Pieces(items, size) == [items[..n]] + rest;
    if i > 0 {
      PiecesFull(items[n..], size, i - 1);
    } else if rest != [] {
      assert items[n..] != [];
    }
  }

  /** How many pieces n items make. */
  function Count(n: nat, size: nat): nat
    requires size > 0
  {
    (n + size - 1) / size
  }

  lemma CountStep(n: nat, size: nat)
    requires n > 0 && size > 0
    ensures Count(n, size) == 1 + Count(n - Min(size, n), size)
  {
    if n > size {
      DivModUnique(n + size - 1, size, (n - 1) / size + 1, (n - 1) % size);
    } else {
      DivModUnique(n + size - 1, size, 1, n - 1);
      DivModUnique(size - 1, size, 0, size - 1);
    }
  }
}
