// Go byte slices: a window with a length and a capacity on a shared array.
module Slices {
  import opened Bits

  datatype Slice = Slice(data: array<byte>, off: nat, len: nat, cap: nat) {
    ghost predicate Valid() { len <= cap && off + cap <= data.Length }

    ghost function Bytes(): (s: seq<byte>)
      requires Valid()
      reads data
      ensures |s| == len
    {
      data[off..off + len]
    }

    function Take(n: nat): Slice
      requires n <= len
    {
      Slice(data, off, n, cap)
    }

    function Drop(n: nat): Slice
      requires n <= len <= cap
    {
      Slice(data, off + n, len - n, cap - n)
    }
  }

  lemma SubBytes(s: Slice, i: nat, j: nat)
    requires s.Valid() && i <= j <= s.len
    ensures s.data[s.off + i..s.off + j] == s.Bytes()[i..j]
  {
    forall k | 0 <= k < j - i ensures s.data[s.off + i..s.off + j][k] == s.Bytes()[i..j][k] {
      assert s.Bytes()[i..j][k] == s.data[s.off + i + k];
    }
  }

  lemma SubSlice(s: Slice, i: nat, n: nat)
    requires s.Valid() && i + n <= s.len
    ensures s.Drop(i).Take(n).Bytes() == s.Bytes()[i..i + n] == s.Bytes()[i..][..n]
  {
  }

  /** The whole array as a slice. */
  function Whole(a: array<byte>): Slice { Slice(a, 0, a.Length, a.Length) }

  /** alias.AnyOverlap: the two windows share an index. */
  predicate AnyOverlap(x: Slice, y: Slice)
  {
    x.len > 0 && y.len > 0 && x.data == y.data && x.off < y.off + y.len && y.off < x.off + x.len
  }

  /** alias.InexactOverlap: they share memory without starting at the same address. */
  predicate InexactOverlap(x: Slice, y: Slice)
  {
    !(x.len == 0 || y.len == 0 || (x.data == y.data && x.off == y.off)) && AnyOverlap(x, y)
  }

  /** Position j of the array is in the window. */
  predicate Within(j: int, s: Slice) { s.off <= j < s.off + s.len }

  /** Windows overlap exactly when some position of the array is in both, and the overlap is inexact when they start at
      different positions. */
  lemma OverlapIff(x: Slice, y: Slice)
    ensures AnyOverlap(x, y) <==> x.data == y.data && exists j :: Within(j, x) && Within(j, y)
    ensures InexactOverlap(x, y) <==> x.data == y.data && x.off != y.off && exists j :: Within(j, x) && Within(j, y)
  {
    if AnyOverlap(x, y) {
      var j := if x.off <= y.off then y.off else x.off;
      assert Within(j, x) && Within(j, y);
    }
  }

  /** The array content with the bytes from position at on replaced by s. */
  function Patched(content: seq<byte>, at: nat, s: seq<byte>): (r: seq<byte>)
    requires at + |s| <= |content|
    ensures |r| == |content|
  {
    content[..at] + s + content[at + |s|..]
  }

  lemma PatchedWhole(content: seq<byte>, s: seq<byte>)
    requires |s| == |content|
    ensures Patched(content, 0, s) == s
  {
  }

  lemma PatchedWindow(content: seq<byte>, at: nat, s: seq<byte>)
    requires at + |s| <= |content|
    ensures Patched(content, at, s)[at..at + |s|] == s
  {
  }

  lemma PartOverlap(x: Slice, n: nat, y: Slice)
    requires n <= x.len && !InexactOverlap(x, y)
    ensures !InexactOverlap(x.Take(n), y)
  {
  }

  lemma PatchedTwice(content: seq<byte>, at: nat, s: seq<byte>, t: seq<byte>)
    requires at + |s| + |t| <= |content|
    ensures Patched(Patched(content, at, s), at + |s|, t) == Patched(content, at, s + t)
  {
  }

  /** sliceForAppend: in extended by n bytes, in its own array when the capacity allows. */
  method SliceForAppend(input: Slice, n: nat) returns (head: Slice, tail: Slice)
    requires input.Valid()
    ensures head.Valid() && tail.Valid()
    ensures head.len == input.len + n && tail == head.Drop(input.len)
    ensures head.Bytes()[..input.len] == input.Bytes()
    ensures if input.cap >= input.len + n then head == input.(len := input.len + n) else fresh(head.data)
  {
    var total := input.len + n;
    if input.cap >= total {
      head := input.(len := total);
      SubBytes(head, 0, input.len);
    } else {
      var a := new byte[total](i => 0);
      forall i | 0 <= i < input.len { a[i] := input.data[input.off + i]; }
      head := Whole(a);
      assert a[..input.len] == input.Bytes();
      assert head.Bytes() == a[..];
    }
    tail := head.Drop(input.len);
  }
}
