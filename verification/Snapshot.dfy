// The files of one published snapshot, as writeSnapshot of snapshot.go fills them in memory.
module Snapshot {
  import opened Clock
  import opened Results
  import opened Sorting
  import opened Store
  import opened StoreRuns

  datatype Options = Options(keepUnknown: bool, writePerChannel: bool, writeProtocols: bool, writeCombined: bool)

  datatype Info = Info(fileName: Str, telegramProxy: bool)

  /** The protocol tables and path joining, which are data and library to this model. */
  datatype Tables = Tables(unknown: Str, info: Str -> Option<Info>, isVPN: Str -> bool, join: seq<Str> -> Str)

  type Files = map<Str, set<Str>>

  /** The files one observation of an entry goes to. */
  function Paths(e: Entry, o: Observation, info: Info, opt: Options, t: Tables): set<Str>
  {
    var dir := if o.kind == Telegram then Ascii("telegram") else Ascii("subscription");
    var group := if info.telegramProxy then Ascii("telegram-proxies") else Ascii("protocols");
    (if opt.writeProtocols then {t.join([dir, group, info.fileName])} else {})
    + (if opt.writeProtocols && opt.writePerChannel && o.kind == Telegram && o.channel != [] then
         {t.join([Ascii("telegram"), Ascii("channels"), o.channel, info.fileName])} else {})
    + (if opt.writeCombined && t.isVPN(e.protocol) then {t.join([dir + Ascii("_all.txt")])} else {})
  }

  /** Entries of unknown protocols are dropped unless asked for. */
  predicate Published(e: Entry, opt: Options, t: Tables)
  {
    (e.protocol != t.unknown || opt.keepUnknown) && t.info(e.protocol).Some?
  }

  /** The observation under key k is in the window and sends the value to path. */
  predicate Sends(e: Entry, k: Str, path: Str, start: Time, end: Time, opt: Options, t: Tables)
    requires k in e.observations && Published(e, opt, t)
  {
    Seen(e.observations[k], start, end) && path in Paths(e, e.observations[k], t.info(e.protocol).value, opt, t)
  }

  /** The value of e belongs in file path because of an observation in the window. */
  ghost predicate Contributes(e: Entry, path: Str, start: Time, end: Time, opt: Options, t: Tables)
  {
    Published(e, opt, t) && exists k :: k in e.observations && Sends(e, k, path, start, end, opt, t)
  }

  ghost predicate Holds(files: Files, path: Str, value: Str) { path in files && value in files[path] }

  /** files has exactly the values the entries contribute, and no empty file. */
  ghost predicate IsSnapshot(files: Files, entries: seq<Entry>, start: Time, end: Time, opt: Options, t: Tables)
  {
    && (forall path, value :: Holds(files, path, value) <==> Wanted(entries, path, value, start, end, opt, t))
    && forall path :: path in files ==> files[path] != {}
  }

  ghost predicate Wanted(entries: seq<Entry>, path: Str, value: Str, start: Time, end: Time, opt: Options, t: Tables)
  {
    exists e :: e in entries && e.value == value && Contributes(e, path, start, end, opt, t)
  }

  function Add(files: Files, path: Str, value: Str): Files
  {
    files[path := (if path in files then files[path] else {}) + {value}]
  }

  function AddAll(files: Files, paths: set<Str>, value: Str): Files
  {
    map p | p in files.Keys + paths :: (if p in files then files[p] else {}) + (if p in paths then {value} else {})
  }

  lemma AddNothing(files: Files, value: Str)
    ensures AddAll(files, {}, value) == files
  {
    assert files.Keys + {} == files.Keys;
    forall p | p in files ensures AddAll(files, {}, value)[p] == files[p] {
      assert files[p] + {} == files[p];
    }
  }

  lemma AddAllTwice(files: Files, a: set<Str>, b: set<Str>, value: Str)
    ensures AddAll(AddAll(files, a, value), b, value) == AddAll(files, a + b, value)
  {
    var once := AddAll(files, a, value);
    var twice, both := AddAll(once, b, value), AddAll(files, a + b, value);
    assert once.Keys + b == files.Keys + (a + b);
    forall p | p in both ensures twice[p] == both[p] {
      assert twice[p] == (if p in once then once[p] else {}) + (if p in b then {value} else {});
    }
  }

  lemma AddIsAddAll(files: Files, p: Str, value: Str)
    ensures Add(files, p, value) == AddAll(files, {p}, value)
  {
    assert files.Keys + {p} == Add(files, p, value).Keys;
    forall q | q in Add(files, p, value) ensures Add(files, p, value)[q] == AddAll(files, {p}, value)[q] {
      if q != p { assert files[q] + {} == files[q]; }
    }
  }

  lemma AddNext(files: Files, paths: set<Str>, p: Str, value: Str)
    ensures Add(AddAll(files, paths, value), p, value) == AddAll(files, paths + {p}, value)
  {
    AddAllTwice(files, paths, {p}, value);
    AddIsAddAll(AddAll(files, paths, value), p, value);
  }

  /** The body of the observation loop: at most three files gain the value. */
  method AddObservation(files: Files, e: Entry, o: Observation, info: Info, opt: Options, t: Tables)
    returns (files': Files)
    ensures files' == AddAll(files, Paths(e, o, info, opt, t), e.value)
  {
    hide Ascii, Add, AddAll;
    files' := files;
    ghost var paths: set<Str> := {};
    AddNothing(files, e.value);
    var sourceDir := Ascii("subscription");
    if o.kind == Telegram {
      sourceDir := Ascii("telegram");
    }
    if opt.writeProtocols {
      var directory := Ascii("protocols");
      if info.telegramProxy {
        directory := Ascii("telegram-proxies");
      }
      var path := t.join([sourceDir, directory, info.fileName]);
      AddNext(files, paths, path, e.value);
      files', paths := Add(files', path, e.value), paths + {path};
      if opt.writePerChannel && o.kind == Telegram && o.channel != [] {
        path := t.join([Ascii("telegram"), Ascii("channels"), o.channel, info.fileName]);
        AddNext(files, paths, path, e.value);
        files', paths := Add(files', path, e.value), paths + {path};
      }
    }
    if opt.writeCombined && t.isVPN(e.protocol) {
      var path := t.join([sourceDir + Ascii("_all.txt")]);
      AddNext(files, paths, path, e.value);
      files', paths := Add(files', path, e.value), paths + {path};
    }
    assert paths == Paths(e, o, info, opt, t);
  }

  /** The paths that observations under the keys ks send the value of e to. */
  ghost function Reached(e: Entry, ks: set<Str>, start: Time, end: Time, opt: Options, t: Tables): set<Str>
    requires Published(e, opt, t)
  {
    set k, p | k in ks && k in e.observations && Seen(e.observations[k], start, end)
               && p in Paths(e, e.observations[k], t.info(e.protocol).value, opt, t) :: p
  }

  lemma ReachedNext(e: Entry, ks: set<Str>, k: Str, start: Time, end: Time, opt: Options, t: Tables)
    requires Published(e, opt, t) && k in e.observations
    ensures var before, after := Reached(e, ks, start, end, opt, t), Reached(e, ks + {k}, start, end, opt, t);
      if Seen(e.observations[k], start, end)
      then after == before + Paths(e, e.observations[k], t.info(e.protocol).value, opt, t)
      else after == before
  {
    hide Paths;
  }

  lemma ReachedAll(e: Entry, path: Str, start: Time, end: Time, opt: Options, t: Tables)
    requires Published(e, opt, t)
    ensures path in Reached(e, e.observations.Keys, start, end, opt, t) <==> Contributes(e, path, start, end, opt, t)
  {
    hide Paths;
    if Contributes(e, path, start, end, opt, t) {
      var k :| k in e.observations && Sends(e, k, path, start, end, opt, t);
    }
    if path in Reached(e, e.observations.Keys, start, end, opt, t) {
      var k, p :| k in e.observations.Keys && k in e.observations && Seen(e.observations[k], start, end)
               && p in Paths(e, e.observations[k], t.info(e.protocol).value, opt, t) && p == path;
      assert Sends(e, k, path, start, end, opt, t);
    }
  }

  /** All observations of one entry. */
  method AddEntry(files: Files, e: Entry, start: Time, end: Time, opt: Options, t: Tables) returns (files': Files)
    requires Published(e, opt, t)
    ensures files' == AddAll(files, Reached(e, e.observations.Keys, start, end, opt, t), e.value)
  {
    hide Paths, AddAll, Reached, Published;
    files' := files;
    var left := e.observations.Keys;
    ghost var done: set<Str> := {};
    AddNothing(files, e.value);
    EmptyReached(e, start, end, opt, t);
    while left != {}
      invariant left == e.observations.Keys - done && done <= e.observations.Keys
      invariant files' == AddAll(files, Reached(e, done, start, end, opt, t), e.value)
      decreases left
    {
      var k :| k in left;
      ReachedNext(e, done, k, start, end, opt, t);
      PublishedInfo(e, opt, t);
      var o := e.observations[k];
      var info := t.info(e.protocol).value;
      AddAllTwice(files, Reached(e, done, start, end, opt, t), Paths(e, o, info, opt, t), e.value);
      left, done := left - {k}, done + {k};
      if o.lastSeenAt < start || o.lastSeenAt >= end {
        continue;
      }
      files' := AddObservation(files', e, o, info, opt, t);
    }
    assert done == e.observations.Keys;
  }

  lemma PublishedInfo(e: Entry, opt: Options, t: Tables)
    requires Published(e, opt, t)
    ensures t.info(e.protocol).Some?
  {
  }

  lemma EmptyReached(e: Entry, start: Time, end: Time, opt: Options, t: Tables)
    requires Published(e, opt, t)
    ensures Reached(e, {}, start, end, opt, t) == {}
  {
  }

  /** The files after one more entry. */
  ghost function WithEntry(files: Files, e: Entry, start: Time, end: Time, opt: Options, t: Tables): Files
  {
    if Published(e, opt, t) then AddAll(files, Reached(e, e.observations.Keys, start, end, opt, t), e.value) else files
  }

  lemma SnapshotNext(files: Files, es: seq<Entry>, e: Entry, start: Time, end: Time, opt: Options, t: Tables)
    requires IsSnapshot(files, es, start, end, opt, t)
    ensures IsSnapshot(WithEntry(files, e, start, end, opt, t), es + [e], start, end, opt, t)
  {
    hide Reached, AddAll, Contributes, Wanted, Holds;
    var files' := WithEntry(files, e, start, end, opt, t);
    forall path, value
      ensures Holds(files', path, value) <==> Wanted(es + [e], path, value, start, end, opt, t)
    {
      WantedNext(es, e, path, value, start, end, opt, t);
      if Published(e, opt, t) {
        ReachedAll(e, path, start, end, opt, t);
        HoldsNext(files, Reached(e, e.observations.Keys, start, end, opt, t), e.value, path, value);
      } else {
        NotPublished(e, path, start, end, opt, t);
      }
    }
    if Published(e, opt, t) {
      NoneEmpty(files, Reached(e, e.observations.Keys, start, end, opt, t), e.value);
    }
  }

  lemma NotPublished(e: Entry, path: Str, start: Time, end: Time, opt: Options, t: Tables)
    requires !Published(e, opt, t)
    ensures !Contributes(e, path, start, end, opt, t)
  {
  }

  lemma HoldsNext(files: Files, paths: set<Str>, v: Str, path: Str, value: Str)
    ensures Holds(AddAll(files, paths, v), path, value)
       <==> Holds(files, path, value) || (path in paths && value == v)
  {
  }

  lemma NoneEmpty(files: Files, paths: set<Str>, v: Str)
    requires forall p :: p in files ==> files[p] != {}
    ensures forall p :: p in AddAll(files, paths, v) ==> AddAll(files, paths, v)[p] != {}
  {
    forall p | p in AddAll(files, paths, v) ensures AddAll(files, paths, v)[p] != {} {
      if p in paths { assert v in AddAll(files, paths, v)[p]; }
    }
  }

  lemma WantedNext(es: seq<Entry>, e: Entry, path: Str, value: Str, start: Time, end: Time, opt: Options, t: Tables)
    ensures Wanted(es + [e], path, value, start, end, opt, t)
      <==> Wanted(es, path, value, start, end, opt, t) || (e.value == value && Contributes(e, path, start, end, opt, t))
  {
    hide Contributes;
    assert e in es + [e];
  }

  method WriteSnapshot(entries: seq<Entry>, start: Time, end: Time, opt: Options, t: Tables) returns (files: Files)
    ensures IsSnapshot(files, entries, start, end, opt, t)
  {
    hide IsSnapshot, Reached, AddAll;
    files := map[];
    EmptySnapshot(start, end, opt, t);
    for i := 0 to |entries|
      invariant IsSnapshot(files, entries[..i], start, end, opt, t)
    {
      var e := entries[i];
      SnapshotNext(files, entries[..i], e, start, end, opt, t);
      assert entries[..i + 1] == entries[..i] + [e];
      if e.protocol == t.unknown && !opt.keepUnknown {
        continue;
      }
      if t.info(e.protocol).None? {
        continue;
      }
      files := AddEntry(files, e, start, end, opt, t);
    }
    assert entries[..|entries|] == entries;
  }

  lemma EmptySnapshot(start: Time, end: Time, opt: Options, t: Tables)
    ensures IsSnapshot(map[], [], start, end, opt, t)
  {
  }

  /** Entries of a store, in any order, with all those seen in the window among them. */
  ghost predicate Covers(entries: seq<Entry>, d: Data, start: Time, end: Time)
  {
    && (forall e :: e in entries ==> exists f :: f in d && d[f] == e)
    && (forall f :: f in Window(d, start, end) ==> d[f] in entries)
  }

  /** An entry that shows the same in the window goes to the same files. */
  lemma SameSightContributes(e: Entry, e': Entry, path: Str, start: Time, end: Time, opt: Options, t: Tables)
    requires e.protocol == e'.protocol && Sightings(e, start, end) == Sightings(e', start, end)
    requires Contributes(e, path, start, end, opt, t)
    ensures Contributes(e', path, start, end, opt, t) && InWindow(e, start, end)
  {
    var k :| k in e.observations && Sends(e, k, path, start, end, opt, t);
    assert k in Sightings(e, start, end) && k in Sightings(e', start, end);
    assert Sightings(e, start, end)[k] == e.observations[k] && Sightings(e', start, end)[k] == e'.observations[k];
    assert Sends(e', k, path, start, end, opt, t);
  }

  lemma SameViewWanted(d: Data, d': Data, xs: seq<Entry>, ys: seq<Entry>, path: Str, value: Str,
                       start: Time, end: Time, opt: Options, t: Tables)
    requires Covers(xs, d, start, end) && Covers(ys, d', start, end) && View(d, start, end) == View(d', start, end)
    requires Wanted(xs, path, value, start, end, opt, t)
    ensures Wanted(ys, path, value, start, end, opt, t)
  {
    hide Contributes, InWindow, Sightings;
    var e :| e in xs && e.value == value && Contributes(e, path, start, end, opt, t);
    var f :| f in d && d[f] == e;
    SameSightContributes(e, e, path, start, end, opt, t);
    var v, v' := View(d, start, end), View(d', start, end);
    assert f in v && v[f] == v'[f];
    SameSightContributes(e, d'[f], path, start, end, opt, t);
    assert d'[f] in ys && d'[f].value == value;
  }

  /** The list EntriesForWindow makes is such a list. */
  lemma ListingCovers(out: seq<Entry>, d: Data, start: Time, end: Time)
    requires Listing(out, Window(d, start, end))
    ensures Covers(out, d, start, end)
  {
    hide InWindow;
    var w := Window(d, start, end);
    forall e | e in out ensures exists f :: f in d && d[f] == e {
      assert multiset(out)[e] > 0;
      var f :| f in Places(w, e);
      assert d[f] == e;
    }
    forall f | f in w ensures d[f] in out {
      assert f in Places(w, w[f]);
      assert multiset(out)[d[f]] > 0;
    }
  }

  /** What the window shows of a store determines the files, whichever way the entries are listed. */
  lemma ViewDeterminesFiles(d: Data, d': Data, xs: seq<Entry>, ys: seq<Entry>, x: Files, y: Files,
                            start: Time, end: Time, opt: Options, t: Tables)
    requires Covers(xs, d, start, end) && Covers(ys, d', start, end) && View(d, start, end) == View(d', start, end)
    requires IsSnapshot(x, xs, start, end, opt, t) && IsSnapshot(y, ys, start, end, opt, t)
    ensures x == y
  {
    hide Wanted, Covers, View;
    forall path, value ensures Holds(x, path, value) <==> Holds(y, path, value) {
      if Wanted(xs, path, value, start, end, opt, t) {
        SameViewWanted(d, d', xs, ys, path, value, start, end, opt, t);
      }
      if Wanted(ys, path, value, start, end, opt, t) {
        SameViewWanted(d', d, ys, xs, path, value, start, end, opt, t);
      }
    }
    SameFiles(x, y);
  }

  /** Pruning up to the start of a window changes no published file. */
  lemma PruneKeepsSnapshot(d: Data, before: Time, xs: seq<Entry>, ys: seq<Entry>, x: Files, y: Files,
                           start: Time, end: Time, opt: Options, t: Tables)
    requires Honest(d) && before <= start && Covers(xs, d, start, end) && Covers(ys, Pruned(d, before), start, end)
    requires IsSnapshot(x, xs, start, end, opt, t) && IsSnapshot(y, ys, start, end, opt, t)
    ensures x == y
  {
    PruneKeepsWindow(d, before, start, end);
    assert View(d, start, end) == View(Pruned(d, before), start, end);
    ViewDeterminesFiles(d, Pruned(d, before), xs, ys, x, y, start, end, opt, t);
  }

  /** Nor do all the prunes of a run, if no two configurations of the run share a fingerprint. */
  lemma RunKeepsSnapshot(events: seq<Event>, cs: set<ParsedConfig>, xs: seq<Entry>, ys: seq<Entry>, x: Files, y: Files,
                         start: Time, end: Time, opt: Options, t: Tables)
    requires ClockForward(events) && CutsUpTo(events, start) && Uses(events, cs) && Determined(cs)
    requires Covers(xs, After(map[], events), start, end) && Covers(ys, After(map[], Upserts(events)), start, end)
    requires IsSnapshot(x, xs, start, end, opt, t) && IsSnapshot(y, ys, start, end, opt, t)
    ensures x == y
  {
    hide After, Upserts, Covers, IsSnapshot, View;
    PrunesAreInvisible(events, cs, start);
    ViewDeterminesFiles(After(map[], events), After(map[], Upserts(events)), xs, ys, x, y, start, end, opt, t);
  }

  lemma SameFiles(x: Files, y: Files)
    requires forall path, value :: Holds(x, path, value) <==> Holds(y, path, value)
    requires (forall path :: path in x ==> x[path] != {}) && (forall path :: path in y ==> y[path] != {})
    ensures x == y
  {
    forall path ensures path in x <==> path in y {
      if path in x { var v :| v in x[path]; assert Holds(x, path, v); assert Holds(y, path, v); }
      if path in y { var v :| v in y[path]; assert Holds(y, path, v); assert Holds(x, path, v); }
    }
    forall path | path in x ensures x[path] == y[path] {
      forall v ensures v in x[path] <==> v in y[path] {
        assert Holds(x, path, v) <==> Holds(y, path, v);
      }
    }
  }

  /** Where an observation sends a value, path by path. */
  lemma PathsAre(e: Entry, o: Observation, info: Info, opt: Options, t: Tables, path: Str)
    ensures path in Paths(e, o, info, opt, t) <==>
      || (opt.writeProtocols
          && path == t.join([Ascii(if o.kind == Telegram then "telegram" else "subscription"),
                             Ascii(if info.telegramProxy then "telegram-proxies" else "protocols"), info.fileName]))
      || (opt.writeProtocols && opt.writePerChannel && o.kind == Telegram && o.channel != []
          && path == t.join([Ascii("telegram"), Ascii("channels"), o.channel, info.fileName]))
      || (opt.writeCombined && t.isVPN(e.protocol)
          && path == t.join([Ascii(if o.kind == Telegram then "telegram_all.txt" else "subscription_all.txt")]))
  {
    AsciiJoins("telegram", "_all.txt");
    AsciiJoins("subscription", "_all.txt");
    assert "telegram" + "_all.txt" == "telegram_all.txt" && "subscription" + "_all.txt" == "subscription_all.txt";
    hide Ascii;
  }

  /** A value is in a file exactly when some entry carries it that is of a known protocol, or of the unknown one where
      that is kept, and was observed in the window by an observation that goes to the file. */
  lemma SnapshotIs(files: Files, entries: seq<Entry>, start: Time, end: Time, opt: Options, t: Tables,
                   path: Str, value: Str)
    requires IsSnapshot(files, entries, start, end, opt, t)
    ensures path in files && value in files[path] <==>
      exists e, k :: e in entries && k in e.observations && e.value == value
        && (e.protocol == t.unknown ==> opt.keepUnknown) && t.info(e.protocol).Some?
        && start <= e.observations[k].lastSeenAt < end
        && path in Paths(e, e.observations[k], t.info(e.protocol).value, opt, t)
  {
    hide Paths;
    assert Holds(files, path, value) <==> Wanted(entries, path, value, start, end, opt, t);
    if Wanted(entries, path, value, start, end, opt, t) {
      var e :| e in entries && e.value == value && Contributes(e, path, start, end, opt, t);
      var k :| k in e.observations && Sends(e, k, path, start, end, opt, t);
    }
    forall e, k | e in entries && k in e.observations && e.value == value && Published(e, opt, t)
                  && start <= e.observations[k].lastSeenAt < end
                  && path in Paths(e, e.observations[k], t.info(e.protocol).value, opt, t)
      ensures Wanted(entries, path, value, start, end, opt, t)
    {
      assert Sends(e, k, path, start, end, opt, t);
    }
  }
}
