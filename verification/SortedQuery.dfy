// The canonical query string of parser.go: keys sorted, the values of a key sorted,
// everything escaped.
module SortedQuery {
  import opened Bits
  import opened Results
  import opened Sorting
  import Cutting

  type Values = map<Str, seq<Str>>
  datatype Pair = Pair(key: Str, item: Str)

  const AMPERSAND: byte := 0x26
  const EQUALS: byte := 0x3D
  const PERCENT: byte := 0x25
  const PLUS: byte := 0x2B
  const SPACE: byte := 0x20

  /** Letters, digits and - _ . ~ stay as they are. */
  predicate Unreserved(c: byte)
  {
    || 0x61 <= c <= 0x7A || 0x41 <= c <= 0x5A || 0x30 <= c <= 0x39
    || c == 0x2D || c == 0x5F || c == 0x2E || c == 0x7E
  }

  function HexDigit(n: nat): byte
    requires n < 16
  {
    if n < 10 then 0x30 + n else 0x41 + (n - 10)
  }

  function EscapeByte(c: byte): (s: Str)
    ensures s != []
  {
    if Unreserved(c) then [c]
    else if c == SPACE then [PLUS]
    else [PERCENT, HexDigit(c / 16), HexDigit(c % 16)]
  }

  /** url.QueryEscape */
  function QueryEscape(s: Str): Str
  {
    if s == [] then [] else EscapeByte(s[0]) + QueryEscape(s[1..])
  }

  function Part(p: Pair): Str { QueryEscape(p.key) + [EQUALS] + QueryEscape(p.item) }

  /** strings.Join(parts, "&") */
  function Join(parts: seq<Str>): Str
  {
    if parts == [] then []
    else if |parts| == 1 then parts[0]
    else parts[0] + [AMPERSAND] + Join(parts[1..])
  }

  function Parts(pairs: seq<Pair>): seq<Str>
  {
    seq(|pairs|, i requires 0 <= i < |pairs| => Part(pairs[i]))
  }

  // Reading the output back: every step is injective.

  lemma {:induction false} EscapedHasNoSeparator(s: Str)
    ensures AMPERSAND !in QueryEscape(s) && EQUALS !in QueryEscape(s)
  {
    if s != [] {
      EscapedHasNoSeparator(s[1..]);
      assert AMPERSAND !in EscapeByte(s[0]) && EQUALS !in EscapeByte(s[0]);
    }
  }

  lemma EscapeByteInjective(a: byte, x: Str, b: byte, y: Str)
    requires EscapeByte(a) + x == EscapeByte(b) + y
    ensures a == b && x == y
  {
    var s, t := EscapeByte(a) + x, EscapeByte(b) + y;
    assert s[0] == EscapeByte(a)[0] && t[0] == EscapeByte(b)[0];
    if s[0] == PERCENT {
      assert s[1] == HexDigit(a / 16) && t[1] == HexDigit(b / 16);
      assert s[2] == HexDigit(a % 16) && t[2] == HexDigit(b % 16);
      assert x == s[3..] && y == t[3..];
    } else {
      assert x == s[1..] && y == t[1..];
    }
  }

  lemma {:induction false} EscapeInjective(a: Str, b: Str)
    requires QueryEscape(a) == QueryEscape(b)
    ensures a == b
  {
    if a != [] && b != [] {
      EscapeByteInjective(a[0], QueryEscape(a[1..]), b[0], QueryEscape(b[1..]));
      EscapeInjective(a[1..], b[1..]);
      assert a == [a[0]] + a[1..] && b == [b[0]] + b[1..];
    }
  }

  /** The text before the first separator, and the text after it. */
  lemma {:induction false} CutAtSeparator(a: Str, x: Str, b: Str, y: Str, c: byte)
    requires c !in a && c !in b && a + [c] + x == b + [c] + y
    ensures a == b && x == y
  {
    var s, t := a + [c] + x, b + [c] + y;
    assert s[0] == if a == [] then c else a[0];
    assert t[0] == if b == [] then c else b[0];
    if a == [] && b == [] {
      assert x == s[1..] && y == t[1..];
    } else if a != [] && b != [] {
      assert s[1..] == a[1..] + [c] + x && t[1..] == b[1..] + [c] + y;
      CutAtSeparator(a[1..], x, b[1..], y, c);
    }
  }

  lemma PartInjective(p: Pair, q: Pair)
    requires Part(p) == Part(q)
    ensures p == q
  {
    EscapedHasNoSeparator(p.key);
    EscapedHasNoSeparator(q.key);
    CutAtSeparator(QueryEscape(p.key), QueryEscape(p.item), QueryEscape(q.key), QueryEscape(q.item), EQUALS);
    EscapeInjective(p.key, q.key);
    EscapeInjective(p.item, q.item);
  }

  lemma PartIsPlain(p: Pair)
    ensures Part(p) != [] && AMPERSAND !in Part(p)
  {
    EscapedHasNoSeparator(p.key);
    EscapedHasNoSeparator(p.item);
  }

  lemma {:induction false} OutputInjective(ps: seq<Pair>, qs: seq<Pair>)
    requires Join(Parts(ps)) == Join(Parts(qs))
    ensures ps == qs
  {
    hide QueryEscape, Part;
    if ps == [] || qs == [] {
      OutputEmpty(ps);
      OutputEmpty(qs);
    } else {
      PartIsPlain(ps[0]);
      PartIsPlain(qs[0]);
      assert Parts(ps)[1..] == Parts(ps[1..]) && Parts(qs)[1..] == Parts(qs[1..]);
      if |ps| > 1 && |qs| > 1 {
        CutAtSeparator(Part(ps[0]), Join(Parts(ps[1..])), Part(qs[0]), Join(Parts(qs[1..])), AMPERSAND);
        OutputInjective(ps[1..], qs[1..]);
      } else {
        assert |ps| > 1 ==> AMPERSAND in Join(Parts(ps));
        assert |qs| > 1 ==> AMPERSAND in Join(Parts(qs));
      }
      PartInjective(ps[0], qs[0]);
      assert ps == [ps[0]] + ps[1..] && qs == [qs[0]] + qs[1..];
    }
  }

  lemma OutputEmpty(ps: seq<Pair>)
    ensures Join(Parts(ps)) == [] <==> ps == []
  {
    hide QueryEscape, Part;
    if ps != [] { PartIsPlain(ps[0]); }
  }

  // The order of the output.

  predicate PairLE(p: Pair, q: Pair)
  {
    if p.key == q.key then StringLE(p.item, q.item) else StringLE(p.key, q.key)
  }

  lemma PairAntisymmetric()
    ensures Antisymmetric(PairLE)
  {
    StringOrder();
  }

  /** How often a key occurs with an item. */
  function Count(values: Values, p: Pair): nat
  {
    if p.key in values then multiset(values[p.key])[p.item] else 0
  }

  /** The pairs of a query map, each as often as it occurs, in order. */
  ghost predicate IsCanonical(pairs: seq<Pair>, values: Values)
  {
    IsSorted(pairs, PairLE) && forall p :: multiset(pairs)[p] == Count(values, p)
  }

  /** What two query maps must share to count as the same query. */
  ghost predicate Same(v: Values, w: Values)
  {
    forall p :: Count(v, p) == Count(w, p)
  }

  lemma SameCanonical(v: Values, ps: seq<Pair>, w: Values, qs: seq<Pair>)
    requires IsCanonical(ps, v) && IsCanonical(qs, w) && Same(v, w)
    ensures ps == qs
  {
    hide PairLE, StringLE;
    forall p ensures multiset(ps)[p] == multiset(qs)[p] {
      assert Count(v, p) == Count(w, p);
    }
    assert multiset(ps) == multiset(qs);
    PairAntisymmetric();
    SortedUnique(ps, qs, PairLE);
  }

  lemma CanonicalSame(v: Values, ps: seq<Pair>, w: Values)
    requires IsCanonical(ps, v) && IsCanonical(ps, w)
    ensures Same(v, w)
  {
    hide PairLE;
    forall p ensures Count(v, p) == Count(w, p) {
      assert multiset(ps)[p] == Count(v, p);
    }
  }

  /** Outputs are equal exactly when the queries are the same, in whatever order their parameters came. */
  lemma NormalForm(v: Values, x: Str, w: Values, y: Str)
    requires IsOutput(x, v) && IsOutput(y, w)
    ensures x == y <==> Same(v, w)
  {
    hide Part, IsCanonical, Same, Join, Parts;
    var ps :| IsCanonical(ps, v) && x == Join(Parts(ps));
    var qs :| IsCanonical(qs, w) && y == Join(Parts(qs));
    if x == y {
      OutputInjective(ps, qs);
      CanonicalSame(v, ps, w);
    }
    if Same(v, w) {
      SameCanonical(v, ps, w, qs);
    }
  }

  /** When every key carries a value, being the same is having the same keys with the same values up to order. */
  lemma SameMeans(v: Values, w: Values)
    requires (forall k :: k in v ==> v[k] != []) && (forall k :: k in w ==> w[k] != [])
    ensures Same(v, w) <==> v.Keys == w.Keys && forall k :: k in v && k in w ==> multiset(v[k]) == multiset(w[k])
  {
    if Same(v, w) {
      forall k | k in v ensures k in w {
        assert v[k][0] in multiset(v[k]);
        assert Count(v, Pair(k, v[k][0])) == Count(w, Pair(k, v[k][0]));
      }
      forall k | k in w ensures k in v {
        assert w[k][0] in multiset(w[k]);
        assert Count(v, Pair(k, w[k][0])) == Count(w, Pair(k, w[k][0]));
      }
      forall k | k in v && k in w ensures multiset(v[k]) == multiset(w[k]) {
        forall x ensures multiset(v[k])[x] == multiset(w[k])[x] {
          assert Count(v, Pair(k, x)) == Count(w, Pair(k, x));
        }
      }
    }
  }

  /** The pairs collected so far belong to the keys gone through so far. */
  ghost predicate Collected(pairs: seq<Pair>, values: Values, keys: seq<Str>)
  {
    && IsSorted(pairs, PairLE)
    && (forall p :: multiset(pairs)[p] == if p.key in keys then Count(values, p) else 0)
  }

  lemma CollectedKeys(pairs: seq<Pair>, values: Values, keys: seq<Str>, i: nat)
    requires Collected(pairs, values, keys) && i < |pairs|
    ensures pairs[i].key in keys
  {
    assert pairs[i] in multiset(pairs);
    assert multiset(pairs)[pairs[i]] > 0;
  }

  function ItemPairs(key: Str, items: seq<Str>): seq<Pair>
  {
    seq(|items|, j requires 0 <= j < |items| => Pair(key, items[j]))
  }

  lemma {:induction false} ItemPairsCount(key: Str, items: seq<Str>, p: Pair)
    ensures multiset(ItemPairs(key, items))[p] == if p.key == key then multiset(items)[p.item] else 0
  {
    if items != [] {
      var rest := items[1..];
      ItemPairsCount(key, rest, p);
      assert ItemPairs(key, items) == [Pair(key, items[0])] + ItemPairs(key, rest);
      assert items == [items[0]] + rest;
    } else {
      assert ItemPairs(key, items) == [];
    }
  }

  /** One more key, larger than those before it. */
  lemma CollectNext(pairs: seq<Pair>, values: Values, keys: seq<Str>, key: Str, items: seq<Str>)
    requires Collected(pairs, values, keys) && key in values && key !in keys
    requires forall k :: k in keys ==> StringLE(k, key)
    requires IsSorted(items, StringLE) && multiset(items) == multiset(values[key])
    ensures Collected(pairs + ItemPairs(key, items), values, keys + [key])
  {
    var more := ItemPairs(key, items);
    forall p ensures multiset(pairs + more)[p] == if p.key in keys + [key] then Count(values, p) else 0 {
      ItemPairsCount(key, items, p);
    }
    CollectedSorted(pairs, values, keys, key, items);
  }

  lemma CollectedSorted(pairs: seq<Pair>, values: Values, keys: seq<Str>, key: Str, items: seq<Str>)
    requires Collected(pairs, values, keys) && key !in keys && IsSorted(items, StringLE)
    requires forall k :: k in keys ==> StringLE(k, key)
    ensures IsSorted(pairs + ItemPairs(key, items), PairLE)
  {
    hide StringLE;
    var all := pairs + ItemPairs(key, items);
    forall i, j | 0 <= i < j < |all| ensures PairLE(all[i], all[j]) {
      if i < |pairs| <= j {
        CollectedKeys(pairs, values, keys, i);
      }
    }
  }

  method MapKeys(values: Values) returns (keys: seq<Str>)
    ensures multiset(keys) == multiset(values.Keys)
  {
    keys := [];
    var left := values.Keys;
    while left != {}
      invariant left <= values.Keys
      invariant multiset(keys) == multiset(values.Keys) - multiset(left)
      decreases left
    {
      var k :| k in left;
      keys := keys + [k];
      left := left - {k};
    }
  }

  lemma DistinctKeys(keys: seq<Str>, s: set<Str>)
    requires multiset(keys) == multiset(s)
    ensures forall k :: k in keys <==> k in s
    ensures forall i, j :: 0 <= i < j < |keys| ==> keys[i] != keys[j]
  {
    forall k ensures k in keys <==> k in s {
      assert k in keys <==> k in multiset(keys);
    }
    forall i, j | 0 <= i < j < |keys| ensures keys[i] != keys[j] {
      assert keys == keys[..i] + [keys[i]] + keys[i + 1..j] + [keys[j]] + keys[j + 1..];
      assert multiset(keys)[keys[i]] <= 1;
    }
  }

  /** The parts of one key appended. */
  method AppendItems(parts: seq<Str>, key: Str, items: seq<Str>, ghost pairs: seq<Pair>) returns (parts': seq<Str>)
    requires parts == Parts(pairs)
    ensures parts' == Parts(pairs + ItemPairs(key, items))
  {
    hide QueryEscape;
    parts' := parts;
    assert pairs + ItemPairs(key, items[..0]) == pairs;
    for j := 0 to |items|
      invariant parts' == Parts(pairs + ItemPairs(key, items[..j]))
    {
      parts' := parts' + [QueryEscape(key) + [EQUALS] + QueryEscape(items[j])];
      assert ItemPairs(key, items[..j + 1]) == ItemPairs(key, items[..j]) + [Pair(key, items[j])];
    }
    assert items[..|items|] == items;
  }

  ghost predicate IsOutput(out: Str, values: Values)
  {
    exists pairs :: IsCanonical(pairs, values) && out == Join(Parts(pairs))
  }

  method SortedQuery(values: Values) returns (out: Str)
    ensures IsOutput(out, values)
  {
    hide *;
    StringOrder();
    var unsorted := MapKeys(values);
    var keys := Sort(unsorted, StringLE);
    SortSorts(unsorted, StringLE);
    DistinctKeys(keys, values.Keys);
    var parts := [];
    ghost var pairs := [];
    NothingCollected(values);
    for i := 0 to |keys|
      invariant Collected(pairs, values, keys[..i]) && parts == Parts(pairs)
    {
      var key := keys[i];
      var items := Sort(values[key], StringLE);
      SortSorts(values[key], StringLE);
      parts := AppendItems(parts, key, items, pairs);
      NextKey(keys, i, values.Keys);
      CollectNext(pairs, values, keys[..i], key, items);
      pairs := pairs + ItemPairs(key, items);
      assert keys[..i + 1] == keys[..i] + [key];
    }
    assert keys[..|keys|] == keys;
    AllCollected(pairs, values, keys);
    out := Join(parts);
    Written(out, values, pairs);
  }

  lemma Written(out: Str, values: Values, pairs: seq<Pair>)
    requires IsCanonical(pairs, values) && out == Join(Parts(pairs))
    ensures IsOutput(out, values)
  {
  }

  lemma NextKey(keys: seq<Str>, i: nat, s: set<Str>)
    requires i < |keys| && IsSorted(keys, StringLE) && multiset(keys) == multiset(s)
    ensures keys[i] in s && keys[i] !in keys[..i] && forall k :: k in keys[..i] ==> StringLE(k, keys[i])
  {
    hide StringLE;
    DistinctKeys(keys, s);
  }

  lemma NothingCollected(values: Values)
    ensures Collected([], values, []) && Parts([]) == []
  {
  }

  lemma AllCollected(pairs: seq<Pair>, values: Values, keys: seq<Str>)
    requires Collected(pairs, values, keys) && forall k :: k in keys <==> k in values.Keys
    ensures IsCanonical(pairs, values)
  {
  }

  const REMARKS: set<Str> := {Ascii("remarks"), Ascii("remark"), Ascii("ps"), Ascii("name")}
  const INSECURE: set<Str> := {Ascii("allowInsecure"), Ascii("insecure"), Ascii("allow_insecure")}

  /** query.Get: the first value of a key, or the empty string. */
  function First(query: Values, k: Str): Str { if k in query && query[k] != [] then query[k][0] else [] }

  /** Some insecure switch is on. */
  predicate Insecure(query: Values, truthy: Str -> bool)
  {
    exists k :: k in INSECURE && truthy(First(query, k))
  }

  const REFUSED: string := "insecure transport is not accepted"

  predicate Refused(query: Values, truthy: Str -> bool) { Insecure(query - REMARKS, truthy) }

  /** The answer for a query: refused when insecure without its remarks, otherwise the canonical output of those. */
  ghost predicate Answer(r: Result<Str>, query: Values, truthy: Str -> bool)
  {
    if Refused(query, truthy) then r == Err(REFUSED) else r.Ok? && IsOutput(r.value, query - REMARKS)
  }

  /** The query part of canonicalize: remark parameters dropped, insecure links refused. */
  method CanonicalQuery(query: Values, truthy: Str -> bool) returns (out: Result<Str>)
    ensures Answer(out, query, truthy)
  {
    hide *;
    var kept := query - REMARKS;
    if Insecure(kept, truthy) {
      out := Err(REFUSED);
    } else {
      var s := SortedQuery(kept);
      out := Ok(s);
    }
    Answered(out, query, truthy);
  }

  lemma Answered(r: Result<Str>, query: Values, truthy: Str -> bool)
    requires if Insecure(query - REMARKS, truthy) then r == Err(REFUSED)
             else r.Ok? && IsOutput(r.value, query - REMARKS)
    ensures Answer(r, query, truthy)
  {
    hide Insecure, IsOutput;
  }

  /** Two queries have the same answer exactly when both are refused, or neither is and they are the same without
      their remarks. */
  lemma AnswersAgreeIff(v: Values, w: Values, truthy: Str -> bool, x: Result<Str>, y: Result<Str>)
    requires Answer(x, v, truthy) && Answer(y, w, truthy)
    ensures var v', w' := v - REMARKS, w - REMARKS;
      x == y <==> (Insecure(v', truthy) && Insecure(w', truthy))
                  || (!Insecure(v', truthy) && !Insecure(w', truthy) && Same(v', w'))
  {
    hide Insecure, IsOutput, Same;
    if x.Ok? && y.Ok? {
      NormalForm(v - REMARKS, x.value, w - REMARKS, y.value);
    }
  }

  /** Only the first value of a switch counts, so the order of its values can decide about the refusal. It does not
      exactly when some switch has only truthy values, or none has any. */
  lemma RefusalStableIff(v: Values, truthy: Str -> bool)
    requires !truthy([])
    ensures (forall w :: Same(v, w) ==> (Insecure(w, truthy) <==> Insecure(v, truthy)))
       <==> AlwaysOn(v, truthy) || NeverOn(v, truthy)
  {
    hide AlwaysOn, NeverOn, Insecure, Same;
    if AlwaysOn(v, truthy) || NeverOn(v, truthy) {
      forall w | Same(v, w) ensures Insecure(w, truthy) <==> Insecure(v, truthy) {
        SameRefusal(v, w, truthy);
        Rearranged(v, v);
        SameRefusal(v, v, truthy);
      }
    } else {
      var on := SwitchOn(v, truthy);
      Rearranged(v, SwitchedOff(v, truthy));
      AllOff(v, truthy);
    }
  }

  /** The same for queries as they come, whose remarks do not matter. */
  lemma RefusedStableIff(query: Values, truthy: Str -> bool)
    requires !truthy([])
    ensures var v := query - REMARKS;
      (forall w: Values :: Same(v, w - REMARKS) ==> (Refused(w, truthy) <==> Refused(query, truthy)))
      <==> AlwaysOn(v, truthy) || NeverOn(v, truthy)
  {
    hide AlwaysOn, NeverOn, Insecure, Same;
    var v := query - REMARKS;
    RefusalStableIff(v, truthy);
    if !(AlwaysOn(v, truthy) || NeverOn(v, truthy)) {
      var w :| Same(v, w) && !(Insecure(w, truthy) <==> Insecure(v, truthy));
      NoRemarks(query, w, truthy);
    }
  }

  /** Remarks that w lists without values do not matter. */
  lemma NoRemarks(query: Values, w: Values, truthy: Str -> bool)
    requires Same(query - REMARKS, w)
    ensures Same(query - REMARKS, w - REMARKS) && (Insecure(w - REMARKS, truthy) <==> Insecure(w, truthy))
  {
    forall p ensures Count(w - REMARKS, p) == Count(query - REMARKS, p) {
      assert Count(w, p) == Count(query - REMARKS, p);
    }
    SwitchesAreNoRemarks();
    hide Ascii;
    forall k | k in INSECURE ensures First(w - REMARKS, k) == First(w, k) {}
  }

  lemma SwitchesAreNoRemarks()
    ensures INSECURE !! REMARKS
  {
    forall k | k in INSECURE ensures |k| == 13 || |k| == 8 || |k| == 14 {}
    forall k | k in REMARKS ensures |k| == 7 || |k| == 6 || |k| == 2 || |k| == 4 {}
  }

  lemma SwitchOn(v: Values, truthy: Str -> bool) returns (on: Values)
    requires !NeverOn(v, truthy)
    ensures Same(v, on) && Insecure(on, truthy)
  {
    var k, i :| k in INSECURE && k in v && 0 <= i < |v[k]| && truthy(v[k][i]);
    on := v[k := ToFront(v[k], i)];
    ToFrontRearranges(v[k], i);
    hide ToFront;
    Rearranged(v, on);
    assert truthy(First(on, k));
  }

  lemma AllOff(v: Values, truthy: Str -> bool)
    requires !AlwaysOn(v, truthy) && !truthy([])
    ensures !Insecure(SwitchedOff(v, truthy), truthy)
  {
    hide OffFirst;
    var off := SwitchedOff(v, truthy);
    forall k | k in INSECURE ensures !truthy(First(off, k)) {
      if k in v && v[k] != [] {
        assert exists i :: 0 <= i < |v[k]| && !truthy(v[k][i]);
      } else if k in v {
        assert |multiset(off[k])| == |multiset(v[k])| == 0;
      }
    }
  }

  ghost predicate AlwaysOn(v: Values, truthy: Str -> bool)
  {
    exists k :: k in INSECURE && k in v && v[k] != [] && forall i :: 0 <= i < |v[k]| ==> truthy(v[k][i])
  }

  ghost predicate NeverOn(v: Values, truthy: Str -> bool)
  {
    forall k :: k in INSECURE && k in v ==> forall i :: 0 <= i < |v[k]| ==> !truthy(v[k][i])
  }

  lemma SameRefusal(v: Values, w: Values, truthy: Str -> bool)
    requires Same(v, w) && !truthy([])
    ensures AlwaysOn(v, truthy) ==> Insecure(w, truthy)
    ensures NeverOn(v, truthy) ==> !Insecure(w, truthy)
  {
    forall k | k in w && w[k] != [] ensures k in v && First(w, k) in v[k] {
      assert First(w, k) in multiset(w[k]);
      assert Count(v, Pair(k, First(w, k))) == Count(w, Pair(k, First(w, k)));
      assert First(w, k) in multiset(v[k]);
    }
    forall k | k in v && v[k] != [] ensures k in w && w[k] != [] {
      assert First(v, k) in multiset(v[k]);
      assert Count(v, Pair(k, First(v, k))) == Count(w, Pair(k, First(v, k)));
    }
    if AlwaysOn(v, truthy) {
      var k :| k in INSECURE && k in v && v[k] != [] && forall i :: 0 <= i < |v[k]| ==> truthy(v[k][i]);
      assert truthy(First(w, k));
    }
  }

  function ToFront(s: seq<Str>, i: nat): (r: seq<Str>)
    requires i < |s|
    ensures |r| == |s| && r[0] == s[i]
  {
    [s[i]] + s[..i] + s[i + 1..]
  }

  lemma ToFrontRearranges(s: seq<Str>, i: nat)
    requires i < |s|
    ensures multiset(ToFront(s, i)) == multiset(s)
  {
    assert s == s[..i] + [s[i]] + s[i + 1..];
  }

  /** Every switch with a value that is not truthy has one in front. */
  ghost function SwitchedOff(v: Values, truthy: Str -> bool): (w: Values)
    ensures w.Keys == v.Keys
  {
    map k | k in v :: if k in INSECURE then OffFirst(v[k], truthy) else v[k]
  }

  ghost function OffFirst(s: seq<Str>, truthy: Str -> bool): (r: seq<Str>)
    ensures multiset(r) == multiset(s)
    ensures (exists i :: 0 <= i < |s| && !truthy(s[i])) ==> r != [] && !truthy(r[0])
  {
    if exists i :: 0 <= i < |s| && !truthy(s[i]) then
      var i :| 0 <= i < |s| && !truthy(s[i]);
      ToFrontRearranges(s, i);
      ToFront(s, i)
    else s
  }

  lemma Rearranged(v: Values, w: Values)
    requires v.Keys == w.Keys
    requires forall k :: k in v ==> multiset(v[k]) == multiset(w[k])
    ensures Same(v, w)
  {
  }

  // The answer in the bytes of the names and of the output.

  /** The names of the switches in bytes: allowInsecure, insecure, allow_insecure. */
  lemma SwitchesSpell(camel: Str, plain: Str, snake: Str)
    requires camel == [97, 108, 108, 111, 119, 73, 110, 115, 101, 99, 117, 114, 101]
    requires plain == [105, 110, 115, 101, 99, 117, 114, 101]
    requires snake == [97, 108, 108, 111, 119, 95, 105, 110, 115, 101, 99, 117, 114, 101]
    ensures INSECURE == {camel, plain, snake}
  {
    assert Ascii("allowInsecure") == camel;
    assert Ascii("insecure") == plain;
    assert Ascii("allow_insecure") == snake;
  }

  /** And of the remarks: remarks, remark, ps, name. */
  lemma RemarksSpell(many: Str, one: Str, ps: Str, name: Str)
    requires many == [114, 101, 109, 97, 114, 107, 115] && one == [114, 101, 109, 97, 114, 107]
    requires ps == [112, 115] && name == [110, 97, 109, 101]
    ensures REMARKS == {many, one, ps, name}
  {
    assert Ascii("remarks") == many;
    assert Ascii("remark") == one;
    assert Ascii("ps") == ps;
    assert Ascii("name") == name;
  }

  /** A query is refused exactly when the first value of allowInsecure, insecure or allow_insecure is truthy, where an
      absent key counts as the empty string. */
  lemma RefusedByName(r: Result<Str>, query: Values, truthy: Str -> bool, camel: Str, plain: Str, snake: Str)
    requires Answer(r, query, truthy)
    requires camel == [97, 108, 108, 111, 119, 73, 110, 115, 101, 99, 117, 114, 101]
    requires plain == [105, 110, 115, 101, 99, 117, 114, 101]
    requires snake == [97, 108, 108, 111, 119, 95, 105, 110, 115, 101, 99, 117, 114, 101]
    ensures var first := (k: Str) => if k in query && query[k] != [] then query[k][0] else [];
      r.Err? <==> truthy(first(camel)) || truthy(first(plain)) || truthy(first(snake))
    ensures r.Err? ==> r.message == "insecure transport is not accepted"
  {
    hide Ascii, INSECURE, REMARKS, IsOutput;
    SwitchesAreNoRemarks();
    SwitchesSpell(camel, plain, snake);
    forall k | k in INSECURE ensures First(query - REMARKS, k) == First(query, k) {}
  }

  /** What is written of an accepted query: no remarks, remark, ps or name, and every other key with its values, in the
      order of keys and values. */
  lemma WrittenByName(r: Result<Str>, query: Values, truthy: Str -> bool, many: Str, one: Str, ps: Str, name: Str)
    returns (pairs: seq<Pair>)
    requires Answer(r, query, truthy) && r.Ok?
    requires many == [114, 101, 109, 97, 114, 107, 115] && one == [114, 101, 109, 97, 114, 107]
    requires ps == [112, 115] && name == [110, 97, 109, 101]
    ensures r.value == Join(Parts(pairs))
    ensures forall p :: p in pairs ==> p.key != many && p.key != one && p.key != ps && p.key != name
    ensures forall k, x :: k != many && k != one && k != ps && k != name ==>
      multiset(pairs)[Pair(k, x)] == if k in query then multiset(query[k])[x] else 0
    ensures forall i, j :: 0 <= i < j < |pairs| ==>
      if pairs[i].key == pairs[j].key then StringLE(pairs[i].item, pairs[j].item)
      else StringLE(pairs[i].key, pairs[j].key)
  {
    hide Ascii, REMARKS, Join, Parts, StringLE, Insecure;
    pairs :| IsCanonical(pairs, query - REMARKS) && r.value == Join(Parts(pairs));
    RemarksSpell(many, one, ps, name);
    forall p | p in pairs ensures p.key !in REMARKS {
      assert p in multiset(pairs);
    }
    forall k, x | k !in REMARKS
      ensures multiset(pairs)[Pair(k, x)] == if k in query then multiset(query[k])[x] else 0
    {
      assert multiset(pairs)[Pair(k, x)] == Count(query - REMARKS, Pair(k, x));
    }
    forall i, j | 0 <= i < j < |pairs| ensures PairLE(pairs[i], pairs[j]) {}
  }

  /** Letters, digits and - _ . ~ as they are, a space as +, every other byte as % and two hexadecimal digits. */
  lemma EscapedByte(c: byte)
    ensures var digits := [48, 49, 50, 51, 52, 53, 54, 55, 56, 57, 65, 66, 67, 68, 69, 70];
      QueryEscape([c]) ==
        if 97 <= c <= 122 || 65 <= c <= 90 || 48 <= c <= 57 || c in [45, 95, 46, 126] then [c]
        else if c == 32 then [43]
        else [37, digits[c / 16], digits[c % 16]]
  {
    assert [c][1..] == [] && QueryEscape([]) == [];
    assert QueryEscape([c]) == EscapeByte(c) + [];
    Digit(c / 16);
    Digit(c % 16);
  }

  lemma Digit(n: nat)
    requires n < 16
    ensures [48, 49, 50, 51, 52, 53, 54, 55, 56, 57, 65, 66, 67, 68, 69, 70][n] == HexDigit(n)
  {
  }

  /** Each byte is escaped on its own. */
  lemma {:induction false} EscapeJoins(a: Str, b: Str)
    ensures QueryEscape(a + b) == QueryEscape(a) + QueryEscape(b)
  {
    hide QueryEscape, EscapeByte;
    EscapeNext([]);
    if a == [] {
      assert a + b == b;
    } else {
      EscapeJoins(a[1..], b);
      assert (a + b)[0] == a[0] && (a + b)[1..] == a[1..] + b;
      EscapeNext(a);
      EscapeNext(a + b);
      Cutting.Associative(EscapeByte(a[0]), QueryEscape(a[1..]), QueryEscape(b));
    }
  }

  lemma EscapeNext(s: Str)
    ensures QueryEscape(s) == if s == [] then [] else EscapeByte(s[0]) + QueryEscape(s[1..])
  {
  }

  /** A query written out: key=value parts in the order of keys and values, joined by &. For b = 2, b = 1 and
      a = "x y" that is a=x+y&b=1&b=2. */
  lemma OutputAnswer(out: Str)
    requires IsOutput(out, map[[98] := [[50], [49]], [97] := [[120, 32, 121]]])
    ensures out == [97, 61, 120, 43, 121, 38, 98, 61, 49, 38, 98, 61, 50]
  {
    var v: Values := map[[98] := [[50], [49]], [97] := [[120, 32, 121]]];
    var lit: Str := [97, 61, 120, 43, 121, 38, 98, 61, 49, 38, 98, 61, 50];
    AnswerWritten(v, lit);
    NormalForm(v, out, v, lit);
  }

  lemma AnswerWritten(v: Values, lit: Str)
    requires v == map[[98] := [[50], [49]], [97] := [[120, 32, 121]]]
    requires lit == [97, 61, 120, 43, 121, 38, 98, 61, 49, 38, 98, 61, 50]
    ensures IsOutput(lit, v)
  {
    hide QueryEscape, Join, Parts, StringLE, Part;
    var a, b, c := Pair([97], [120, 32, 121]), Pair([98], [49]), Pair([98], [50]);
    AnswerText([a, b, c], lit);
    AnswerSorted(a, b, c);
    forall p ensures multiset([a, b, c])[p] == Count(v, p) {
      AnswerCounts(v, a, b, c, p);
    }
    assert IsCanonical([a, b, c], v);
  }

  lemma AnswerCounts(v: Values, a: Pair, b: Pair, c: Pair, p: Pair)
    requires a.key != b.key && b.key == c.key && v.Keys == {a.key, b.key}
    requires v[a.key] == [a.item] && v[b.key] == [c.item, b.item]
    ensures multiset([a, b, c])[p] == Count(v, p)
  {
    if p.key != a.key && p.key != b.key {
      assert p !in [a, b, c];
    }
  }

  lemma AnswerSorted(a: Pair, b: Pair, c: Pair)
    requires a.key == [97] && b == Pair([98], [49]) && c == Pair([98], [50])
    ensures IsSorted([a, b, c], PairLE)
  {
  }

  lemma AnswerText(pairs: seq<Pair>, lit: Str)
    requires pairs == [Pair([97], [120, 32, 121]), Pair([98], [49]), Pair([98], [50])]
    requires lit == [97, 61, 120, 43, 121, 38, 98, 61, 49, 38, 98, 61, 50]
    ensures Join(Parts(pairs)) == lit
  {
    hide QueryEscape, Join, Parts;
    EscapedByte(97);
    EscapedByte(98);
    EscapedByte(49);
    EscapedByte(50);
    EscapedSpace();
    var a, b, c := [97, 61, 120, 43, 121], [98, 61, 49], [98, 61, 50];
    assert Part(pairs[0]) == a && Part(pairs[1]) == b && Part(pairs[2]) == c;
    PartsOfThree(pairs[0], pairs[1], pairs[2]);
    JoinThree(a, b, c);
  }

  lemma EscapedSpace()
    ensures QueryEscape([120, 32, 121]) == [120, 43, 121]
  {
    hide QueryEscape;
    EscapedByte(120);
    EscapedByte(32);
    EscapedByte(121);
    EscapeJoins([120], [32]);
    EscapeJoins([120, 32], [121]);
    assert [120] + [32] == [120, 32] && [120, 32] + [121] == [120, 32, 121];
  }

  lemma PartsOfThree(p: Pair, q: Pair, r: Pair)
    ensures Parts([p, q, r]) == [Part(p), Part(q), Part(r)]
  {
    hide Part;
  }

  lemma JoinThree(a: Str, b: Str, c: Str)
    ensures Join([a, b, c]) == a + [AMPERSAND] + (b + [AMPERSAND] + c)
  {
    assert [a, b, c][1..] == [b, c] && [b, c][1..] == [c];
    assert Join([b, c]) == b + [AMPERSAND] + c;
  }
}
