// The configuration store of store.go, and the windows published from it.
module Store {
  import opened Clock
  import opened Sorting

  datatype SourceKind = Telegram | Subscription | GitHubFork
  datatype Observation = Observation(kind: SourceKind, channel: Str, lastSeenAt: Time)
  datatype Entry = Entry(value: Str, protocol: Str, fingerprint: Str, firstSeenAt: Time, lastSeenAt: Time,
                         observations: map<Str, Observation>)
  datatype ParsedConfig = ParsedConfig(value: Str, protocol: Str, fingerprint: Str)

  type Data = map<Str, Entry>

  function KindName(kind: SourceKind): Str
  {
    match kind
    case Telegram => Ascii("telegram")
    case Subscription => Ascii("subscription")
    case GitHubFork => Ascii("github_fork")
  }

  /** The store after an upsert; channel is already in lower case. */
  function Upserted(d: Data, c: ParsedConfig, kind: SourceKind, channel: Str, key: Str, at: Time): Data
  {
    var e := if c.fingerprint in d then d[c.fingerprint]
             else Entry(c.value, c.protocol, c.fingerprint, at, at, map[]);
    d[c.fingerprint := e.(lastSeenAt := at, observations := e.observations[key := Observation(kind, channel, at)])]
  }

  function Pruned(d: Data, before: Time): Data
  {
    map f | f in d && d[f].lastSeenAt >= before :: d[f]
  }

  predicate Seen(o: Observation, start: Time, end: Time) { start <= o.lastSeenAt < end }

  predicate InWindow(e: Entry, start: Time, end: Time)
  {
    exists k :: k in e.observations && Seen(e.observations[k], start, end)
  }

  predicate WellKeyed(d: Data) { forall f :: f in d ==> d[f].fingerprint == f }

  predicate ByFingerprint(e: Entry, f: Entry) { StringLE(e.fingerprint, f.fingerprint) }

  /** The part of the store seen in the window. */
  ghost function Window(d: Data, start: Time, end: Time): Data
  {
    map f | f in d && InWindow(d[f], start, end) :: d[f]
  }

  ghost function Places(d: Data, e: Entry): set<Str> { set f | f in d && d[f] == e }

  /** out lists the entries of d, each as often as it is stored, by fingerprint. */
  ghost predicate Listing(out: seq<Entry>, d: Data)
  {
    IsSorted(out, ByFingerprint) && forall e :: multiset(out)[e] == |Places(d, e)|
  }

  /** The published list is determined by what is in it. */
  lemma ListingUnique(x: seq<Entry>, y: seq<Entry>, d: Data)
    requires WellKeyed(d) && Listing(x, d) && Listing(y, d)
    ensures x == y
  {
    hide StringLE;
    StringOrder();
    forall e, f | e in x && f in x && ByFingerprint(e, f) && ByFingerprint(f, e) ensures e == f {
      Stored(x, d, e);
      Stored(x, d, f);
    }
    assert multiset(x) == multiset(y);
    SortedUnique(x, y, ByFingerprint);
  }

  lemma Stored(x: seq<Entry>, d: Data, e: Entry)
    requires WellKeyed(d) && Listing(x, d)
    ensures e in x <==> e.fingerprint in d && d[e.fingerprint] == e
  {
    assert e in x <==> multiset(x)[e] > 0;
    if e.fingerprint in d && d[e.fingerprint] == e { assert e.fingerprint in Places(d, e); }
    if Places(d, e) != {} { var f :| f in Places(d, e); }
  }

  /** No entry was observed later than its own time stamp. */
  ghost predicate Honest(d: Data)
  {
    forall f, k :: f in d && k in d[f].observations ==> d[f].observations[k].lastSeenAt <= d[f].lastSeenAt
  }

  lemma PruneKeepsWindow(d: Data, before: Time, start: Time, end: Time)
    requires Honest(d) && before <= start
    ensures Window(Pruned(d, before), start, end) == Window(d, start, end)
  {
    forall f | f in d && InWindow(d[f], start, end) ensures f in Pruned(d, before) {
      var k :| k in d[f].observations && Seen(d[f].observations[k], start, end);
    }
  }

  /** Pruning never changes the list of a window that starts at or after the cut. */
  lemma PruneKeepsList(d: Data, before: Time, start: Time, end: Time, x: seq<Entry>, y: seq<Entry>)
    requires WellKeyed(d) && Honest(d) && before <= start
    requires Listing(x, Window(d, start, end)) && Listing(y, Window(Pruned(d, before), start, end))
    ensures x == y
  {
    PruneKeepsWindow(d, before, start, end);
    ListingUnique(x, y, Window(d, start, end));
  }

  /** An entry seen once, at time t. */
  function Once(t: Time): Data
  {
    map[[] := Entry([], [], [], t, t, map[[] := Observation(Telegram, [], t)])]
  }

  /** Which cuts are safe for a window, for all honest stores: those not after its start. */
  lemma SafeCutIff(before: Time, start: Time, end: Time)
    requires start < end
    ensures (forall d :: Honest(d) ==> Window(Pruned(d, before), start, end) == Window(d, start, end))
       <==> before <= start
  {
    if before <= start {
      forall d | Honest(d) ensures Window(Pruned(d, before), start, end) == Window(d, start, end) {
        PruneKeepsWindow(d, before, start, end);
      }
    } else {
      var d := Once(start);
      assert Honest(d);
      assert [] in d[[]].observations && Seen(d[[]].observations[[]], start, end);
      assert [] in Window(d, start, end) && [] !in Window(Pruned(d, before), start, end);
    }
  }

  /** Which stores every cut up to the start of a window is safe for: the honest ones. */
  lemma SafeStoreIff(d: Data)
    ensures (forall before: Time, start: Time, end: Time | before <= start
              :: Window(Pruned(d, before), start, end) == Window(d, start, end)) <==> Honest(d)
  {
    if Honest(d) {
      forall before: Time, start: Time, end: Time | before <= start
        ensures Window(Pruned(d, before), start, end) == Window(d, start, end)
      {
        PruneKeepsWindow(d, before, start, end);
      }
    } else {
      var f, k :| f in d && k in d[f].observations && d[f].observations[k].lastSeenAt > d[f].lastSeenAt;
      var t := d[f].observations[k].lastSeenAt;
      assert Seen(d[f].observations[k], t, t + 1);
      assert f in Window(d, t, t + 1) && f !in Window(Pruned(d, t), t, t + 1);
    }
  }

  /** What an upsert changes: a new entry starts where it was seen, a known one keeps its configuration and gains or
      renews one observation. */
  lemma UpsertedParts(d: Data, c: ParsedConfig, kind: SourceKind, channel: Str, key: Str, at: Time, other: Str)
    ensures var after, f := Upserted(d, c, kind, channel, key, at), c.fingerprint;
      && f in after && after[f].lastSeenAt == at && key in after[f].observations
      && after[f].observations[key] == Observation(kind, channel, at)
      && (f !in d ==> after[f].value == c.value && after[f].protocol == c.protocol && after[f].fingerprint == f
                      && after[f].firstSeenAt == at && after[f].observations.Keys == {key})
      && (f in d ==> after[f] == d[f].(lastSeenAt := at, observations := after[f].observations)
                     && after[f].observations - {key} == d[f].observations - {key})
      && (other != f ==> (other in after <==> other in d) && (other in d ==> after[other] == d[other]))
  {
  }

  /** The names in the keys of observations, spelled out. */
  lemma NamesSpell()
    ensures KindName(Telegram) == [116, 101, 108, 101, 103, 114, 97, 109]
    ensures KindName(Subscription) == [115, 117, 98, 115, 99, 114, 105, 112, 116, 105, 111, 110]
    ensures KindName(GitHubFork) == [103, 105, 116, 104, 117, 98, 95, 102, 111, 114, 107]
  {
    assert Ascii("telegram") == [116, 101, 108, 101, 103, 114, 97, 109];
    assert Ascii("subscription") == [115, 117, 98, 115, 99, 114, 105, 112, 116, 105, 111, 110];
    assert Ascii("github_fork") == [103, 105, 116, 104, 117, 98, 95, 102, 111, 114, 107];
  }

  /** An entry is in the window exactly when one of its observations falls into it, the start included and the end not;
      so windows that meet share no observation and together show what the window over both shows. */
  lemma WindowIs(d: Data, start: Time, middle: Time, end: Time, f: Str)
    requires start <= middle <= end
    ensures f in Window(d, start, end) <==>
      f in d && exists k :: k in d[f].observations && start <= d[f].observations[k].lastSeenAt < end
    ensures Window(d, start, end).Keys == Window(d, start, middle).Keys + Window(d, middle, end).Keys
  {
    var whole, parts := Window(d, start, end), Window(d, start, middle).Keys + Window(d, middle, end).Keys;
    forall g | g in whole ensures g in parts {
      var k :| k in d[g].observations && Seen(d[g].observations[k], start, end);
      assert Seen(d[g].observations[k], start, middle) || Seen(d[g].observations[k], middle, end);
    }
    forall g | g in parts ensures g in whole {
      if InWindow(d[g], start, middle) {
        var k :| k in d[g].observations && Seen(d[g].observations[k], start, middle);
        assert Seen(d[g].observations[k], start, end);
      } else {
        var k :| k in d[g].observations && Seen(d[g].observations[k], middle, end);
        assert Seen(d[g].observations[k], start, end);
      }
    }
    if f in d && exists k :: k in d[f].observations && start <= d[f].observations[k].lastSeenAt < end {
      var k :| k in d[f].observations && start <= d[f].observations[k].lastSeenAt < end;
      assert Seen(d[f].observations[k], start, end);
    }
  }

  class Store {
    var entries: Data
    const lower: Str -> Str // strings.ToLower

    constructor (entries: Data, lower: Str -> Str)
      ensures this.entries == entries && this.lower == lower
    {
      this.entries, this.lower := entries, lower;
    }

    /** Reports whether the configuration is new. */
    method Upsert(config: ParsedConfig, kind: SourceKind, channel: Str, at: Time) returns (isNew: bool)
      modifies `entries
      ensures isNew <==> config.fingerprint !in old(entries)
      ensures entries == Upserted(old(entries), config, kind, lower(channel),
                                  KindName(kind) + [0x3A] + lower(channel), at)
    {
      isNew := config.fingerprint !in entries;
      var entry: Entry;
      if isNew {
        entry := Entry(config.value, config.protocol, config.fingerprint, at, at, map[]);
      } else {
        entry := entries[config.fingerprint];
      }
      entry := entry.(lastSeenAt := at);
      var key := KindName(kind) + [0x3A] + lower(channel);
      entry := entry.(observations := entry.observations[key := Observation(kind, lower(channel), at)]);
      entries := entries[config.fingerprint := entry];
    }

    method Prune(before: Time)
      modifies `entries
      ensures entries == Pruned(old(entries), before)
    {
      var left := entries.Keys;
      ghost var d := entries;
      while left != {}
        invariant left <= d.Keys
        invariant entries == map f | f in d && (f in left || d[f].lastSeenAt >= before) :: d[f]
        decreases left
      {
        var f :| f in left;
        left := left - {f};
        assert f in entries && entries[f] == d[f];
        if entries[f].lastSeenAt < before {
          entries := entries - {f};
        }
      }
    }
  }

  /** The inner loop of EntriesForWindow: looks for one observation in the window. */
  method SeenInWindow(e: Entry, start: Time, end: Time) returns (found: bool)
    ensures found == InWindow(e, start, end)
  {
    var left := e.observations.Keys;
    while left != {}
      invariant left <= e.observations.Keys
      invariant forall k :: k in e.observations.Keys - left ==> !Seen(e.observations[k], start, end)
      decreases left
    {
      var k :| k in left;
      var o := e.observations[k];
      if o.lastSeenAt >= start && o.lastSeenAt < end {
        assert Seen(e.observations[k], start, end);
        return true;
      }
      left := left - {k};
    }
    assert e.observations.Keys - left == e.observations.Keys;
    found := false;
  }

  /** The entries among those under fs that are seen in the window. */
  ghost function Visited(d: Data, fs: set<Str>, start: Time, end: Time): Data
  {
    map f | f in d && f in fs && InWindow(d[f], start, end) :: d[f]
  }

  /** One more entry visited, which is listed when it is seen in the window. */
  lemma VisitNext(found: seq<Entry>, d: Data, fs: set<Str>, f: Str, start: Time, end: Time)
    requires f in d && f !in fs && forall e :: multiset(found)[e] == |Places(Visited(d, fs, start, end), e)|
    ensures var found' := if InWindow(d[f], start, end) then found + [d[f]] else found;
      forall e :: multiset(found')[e] == |Places(Visited(d, fs + {f}, start, end), e)|
  {
    hide InWindow, Visited, Places;
    var found' := if InWindow(d[f], start, end) then found + [d[f]] else found;
    var before, after := Visited(d, fs, start, end), Visited(d, fs + {f}, start, end);
    forall e ensures multiset(found')[e] == |Places(after, e)| {
      PlacesNext(d, fs, f, start, end, e);
    }
  }

  lemma PlacesNext(d: Data, fs: set<Str>, f: Str, start: Time, end: Time, e: Entry)
    requires f in d && f !in fs
    ensures var before, after := Visited(d, fs, start, end), Visited(d, fs + {f}, start, end);
      |Places(after, e)| == |Places(before, e)| + if InWindow(d[f], start, end) && e == d[f] then 1 else 0
  {
    hide InWindow;
    var before, after := Visited(d, fs, start, end), Visited(d, fs + {f}, start, end);
    if InWindow(d[f], start, end) && e == d[f] {
      assert Places(after, e) == Places(before, e) + {f} && f !in Places(before, e);
    } else {
      assert Places(after, e) == Places(before, e);
    }
  }

  lemma VisitEnds(d: Data, fs: set<Str>, start: Time, end: Time)
    ensures forall e :: Places(Visited(d, {}, start, end), e) == {}
    ensures d.Keys - fs == {} && fs <= d.Keys ==> Visited(d, fs, start, end) == Window(d, start, end)
  {
    hide InWindow;
    if d.Keys - fs == {} && fs <= d.Keys {
      forall f | f in d ensures f in fs { assert f !in d.Keys - fs; }
    }
  }

  lemma FingerprintOrder()
    ensures TotalOrder(ByFingerprint)
  {
    hide StringLE;
    StringOrder();
  }

  method EntriesForWindow(d: Data, start: Time, end: Time) returns (out: seq<Entry>)
    ensures Listing(out, Window(d, start, end))
  {
    hide InWindow, Visited, Window, Places, StringLE, Sort;
    var left, found := d.Keys, [];
    ghost var done: set<Str> := {};
    VisitEnds(d, {}, start, end);
    while left != {}
      invariant left == d.Keys - done && done <= d.Keys
      invariant forall e :: multiset(found)[e] == |Places(Visited(d, done, start, end), e)|
      decreases left
    {
      var f :| f in left;
      VisitNext(found, d, done, f, start, end);
      left, done := left - {f}, done + {f};
      var seen := SeenInWindow(d[f], start, end);
      if seen {
        found := found + [d[f]];
      }
    }
    VisitEnds(d, done, start, end);
    FingerprintOrder();
    SortSorts(found, ByFingerprint);
    out := Sort(found, ByFingerprint);
  }
}
