// Sorting with a comparison, and the order of Go strings.
module Sorting {
  import opened Bits

  type Str = seq<byte>

  /** The bytes of an ASCII literal. */
  function Ascii(s: string): Str { seq(|s|, i requires 0 <= i < |s| => s[i] as int % 0x100) }

  ghost predicate TotalOrder<T(!new)>(le: (T, T) -> bool)
  {
    && (forall x, y :: le(x, y) || le(y, x))
    && (forall x, y, z :: le(x, y) && le(y, z) ==> le(x, z))
  }

  ghost predicate Antisymmetric<T(!new)>(le: (T, T) -> bool)
  {
    forall x, y :: le(x, y) && le(y, x) ==> x == y
  }

  ghost predicate IsSorted<T(!new)>(s: seq<T>, le: (T, T) -> bool)
  {
    forall i, j :: 0 <= i < j < |s| ==> le(s[i], s[j])
  }

  function Insert<T>(x: T, s: seq<T>, le: (T, T) -> bool): seq<T>
  {
    if s == [] then [x]
    else if le(x, s[0]) then [x] + s
    else [s[0]] + Insert(x, s[1..], le)
  }

  function Sort<T>(s: seq<T>, le: (T, T) -> bool): seq<T>
  {
    if s == [] then [] else Insert(s[0], Sort(s[1..], le), le)
  }

  lemma PrependSorted<T(!new)>(h: T, x: T, rest: seq<T>, t: seq<T>, le: (T, T) -> bool)
    requires IsSorted([h] + rest, le) && IsSorted(t, le) && multiset(t) == multiset{x} + multiset(rest) && le(h, x)
    ensures IsSorted([h] + t, le)
  {
    forall i | 0 <= i < |t| ensures le(h, t[i]) {
      assert t[i] in multiset(t);
      if t[i] != x {
        var j :| 0 <= j < |rest| && rest[j] == t[i];
        assert ([h] + rest)[0] == h && ([h] + rest)[j + 1] == t[i];
      }
    }
  }

  lemma {:induction false} InsertSorted<T(!new)>(x: T, s: seq<T>, le: (T, T) -> bool)
    requires TotalOrder(le) && IsSorted(s, le)
    ensures IsSorted(Insert(x, s, le), le) && multiset(Insert(x, s, le)) == multiset{x} + multiset(s)
  {
    if s != [] {
      var rest := s[1..];
      assert s == [s[0]] + rest;
      if !le(x, s[0]) {
        InsertSorted(x, rest, le);
        PrependSorted(s[0], x, rest, Insert(x, rest, le), le);
      }
    }
  }

  lemma {:induction false} SortSorts<T(!new)>(s: seq<T>, le: (T, T) -> bool)
    requires TotalOrder(le)
    ensures IsSorted(Sort(s, le), le) && multiset(Sort(s, le)) == multiset(s)
  {
    if s != [] {
      SortSorts(s[1..], le);
      InsertSorted(s[0], Sort(s[1..], le), le);
      assert s == [s[0]] + s[1..];
    }
  }

  lemma FirstIsLeast<T(!new)>(s: seq<T>, t: seq<T>, le: (T, T) -> bool)
    requires IsSorted(s, le) && s != [] && t != [] && multiset(s) == multiset(t)
    ensures s[0] == t[0] || le(s[0], t[0])
  {
    assert t[0] in multiset(s);
    assert t[0] in s;
  }

  lemma CutFirst<T>(s: seq<T>)
    requires s != []
    ensures s == [s[0]] + s[1..] && multiset(s) == multiset{s[0]} + multiset(s[1..])
  {
    assert s == [s[0]] + s[1..];
  }

  lemma Cancel<T(!new)>(x: T, m: multiset<T>, n: multiset<T>)
    requires multiset{x} + m == multiset{x} + n
    ensures m == n
  {
    forall y ensures m[y] == n[y] {
      assert (multiset{x} + m)[y] == (multiset{x} + n)[y];
    }
  }

  lemma SameTails<T(!new)>(s: seq<T>, t: seq<T>)
    requires s != [] && t != [] && s[0] == t[0] && multiset(s) == multiset(t)
    ensures multiset(s[1..]) == multiset(t[1..])
  {
    CutFirst(s);
    CutFirst(t);
    Cancel(s[0], multiset(s[1..]), multiset(t[1..]));
  }

  /** Elements of s that the order puts on both sides of each other are the same. */
  ghost predicate TellsApart<T(!new)>(s: seq<T>, le: (T, T) -> bool)
  {
    forall x, y :: x in s && y in s && le(x, y) && le(y, x) ==> x == y
  }

  /** Where the order tells the elements apart, their sorted arrangement is unique. */
  lemma {:induction false} SortedUnique<T(!new)>(s: seq<T>, t: seq<T>, le: (T, T) -> bool)
    requires TellsApart(s, le)
    requires IsSorted(s, le) && IsSorted(t, le) && multiset(s) == multiset(t)
    ensures s == t
  {
    hide TellsApart, IsSorted;
    SameLength(s, t);
    if s != [] {
      SameFirst(s, t, le);
      SameTails(s, t);
      TailSorted(s, le);
      TailSorted(t, le);
      SortedUnique(s[1..], t[1..], le);
      CutFirst(s);
      CutFirst(t);
    }
  }

  lemma SameFirst<T(!new)>(s: seq<T>, t: seq<T>, le: (T, T) -> bool)
    requires TellsApart(s, le)
    requires IsSorted(s, le) && IsSorted(t, le) && multiset(s) == multiset(t) && s != [] && t != []
    ensures s[0] == t[0]
  {
    FirstIsLeast(s, t, le);
    FirstIsLeast(t, s, le);
    assert t[0] in multiset(s);
  }

  lemma TailSorted<T(!new)>(s: seq<T>, le: (T, T) -> bool)
    requires IsSorted(s, le) && s != []
    ensures IsSorted(s[1..], le)
    ensures TellsApart(s, le) ==> TellsApart(s[1..], le)
  {
  }

  lemma SameLength<T>(s: seq<T>, t: seq<T>)
    requires multiset(s) == multiset(t)
    ensures |s| == |t|
  {
    assert |s| == |multiset(s)| == |multiset(t)| == |t|;
  }

  /** Byte by byte, a proper prefix first. */
  predicate StringLE(a: Str, b: Str)
  {
    a == [] || (b != [] && (a[0] < b[0] || (a[0] == b[0] && StringLE(a[1..], b[1..]))))
  }

  lemma {:induction false} StringTotal(a: Str, b: Str)
    ensures StringLE(a, b) || StringLE(b, a)
  {
    if a != [] && b != [] && a[0] == b[0] { StringTotal(a[1..], b[1..]); }
  }

  lemma {:induction false} StringAntisymmetric(a: Str, b: Str)
    requires StringLE(a, b) && StringLE(b, a)
    ensures a == b
  {
    if a != [] {
      StringAntisymmetric(a[1..], b[1..]);
      assert a == [a[0]] + a[1..] && b == [b[0]] + b[1..];
    }
  }

  lemma {:induction false} StringTransitive(a: Str, b: Str, c: Str)
    requires StringLE(a, b) && StringLE(b, c)
    ensures StringLE(a, c)
  {
    if a != [] && a[0] == b[0] && b[0] == c[0] { StringTransitive(a[1..], b[1..], c[1..]); }
  }

  lemma StringOrder()
    ensures TotalOrder(StringLE) && Antisymmetric(StringLE)
  {
    forall x: Str, y: Str ensures StringLE(x, y) || StringLE(y, x) { StringTotal(x, y); }
    forall x: Str, y: Str, z: Str | StringLE(x, y) && StringLE(y, z) ensures StringLE(x, z) {
      StringTransitive(x, y, z);
    }
    forall x: Str, y: Str | StringLE(x, y) && StringLE(y, x) ensures x == y { StringAntisymmetric(x, y); }
  }

  /** The strings agree before position i, and a has the smaller byte there. */
  predicate SmallerAt(a: Str, b: Str, i: nat)
  {
    i < |a| && i < |b| && a[..i] == b[..i] && a[i] < b[i]
  }

  /** The order of Go strings: a prefix comes first, otherwise the first byte that differs decides. */
  lemma {:induction false} StringOrderIs(a: Str, b: Str)
    ensures StringLE(a, b) <==> a <= b || exists i: nat :: SmallerAt(a, b, i)
  {
    hide SmallerAt;
    if a != [] && b != [] {
      StringOrderIs(a[1..], b[1..]);
      SmallerCases(a, b);
      PrefixCases(a, b);
    } else if exists i: nat :: SmallerAt(a, b, i) {
      var i: nat :| SmallerAt(a, b, i);
      SmallerWithin(a, b, i);
    }
  }

  lemma SmallerWithin(a: Str, b: Str, i: nat)
    requires SmallerAt(a, b, i)
    ensures a != [] && b != []
  {
  }

  lemma PrefixCases(a: Str, b: Str)
    requires a != [] && b != []
    ensures a <= b <==> a[0] == b[0] && a[1..] <= b[1..]
  {
    assert a == [a[0]] + a[1..] && b == [b[0]] + b[1..];
  }

  lemma SmallerCases(a: Str, b: Str)
    requires a != [] && b != []
    ensures (exists i: nat :: SmallerAt(a, b, i))
       <==> a[0] < b[0] || (a[0] == b[0] && exists i: nat :: SmallerAt(a[1..], b[1..], i))
  {
    if a[0] < b[0] { assert SmallerAt(a, b, 0); }
    if exists i: nat :: SmallerAt(a, b, i) {
      var i: nat :| SmallerAt(a, b, i);
      if i > 0 { SmallerShift(a, b, i - 1); }
    }
    if a[0] == b[0] && exists i: nat :: SmallerAt(a[1..], b[1..], i) {
      var i: nat :| SmallerAt(a[1..], b[1..], i);
      SmallerShift(a, b, i);
    }
  }

  lemma SmallerShift(a: Str, b: Str, i: nat)
    requires a != [] && b != []
    ensures SmallerAt(a, b, i + 1) <==> a[0] == b[0] && SmallerAt(a[1..], b[1..], i)
  {
    if i + 1 < |a| && i + 1 < |b| {
      assert a[..i + 1] == [a[0]] + a[1..][..i] && b[..i + 1] == [b[0]] + b[1..][..i];
      PrefixEqual(a[0], a[1..][..i], b[0], b[1..][..i]);
    }
  }

  lemma PrefixEqual(x: byte, a: Str, y: byte, b: Str)
    ensures [x] + a == [y] + b <==> x == y && a == b
  {
    if [x] + a == [y] + b {
      assert x == ([x] + a)[0] && y == ([y] + b)[0];
      assert a == ([x] + a)[1..] && b == ([y] + b)[1..];
    }
  }

  /** The bytes of an ASCII literal are its characters. */
  lemma AsciiSpells(s: string, i: nat)
    requires i < |s|
    ensures |Ascii(s)| == |s| && (s[i] < 128 as char ==> Ascii(s)[i] == s[i] as int)
  {
  }

  lemma AsciiJoins(s: string, t: string)
    ensures Ascii(s) + Ascii(t) == Ascii(s + t)
  {
  }
}
