// Whole runs of the configuration store: what pruning leaves of the windows that are published.
module StoreRuns {
  import opened Clock
  import opened Sorting
  import opened Store

  // Runs of a collector whose clock does not go back.

  datatype Event =
    | Upsert(config: ParsedConfig, kind: SourceKind, channel: Str, key: Str, at: Time)
    | Prune(before: Time)

  function Next(d: Data, e: Event): Data
  {
    match e
    case Upsert(c, kind, channel, key, at) => Upserted(d, c, kind, channel, key, at)
    case Prune(before) => Pruned(d, before)
  }

  function After(d: Data, events: seq<Event>): Data
  {
    if events == [] then d else Next(After(d, events[..|events| - 1]), events[|events| - 1])
  }

  ghost predicate ClockForward(events: seq<Event>)
  {
    forall i, j :: 0 <= i < j < |events| && events[i].Upsert? && events[j].Upsert? ==> events[i].at <= events[j].at
  }

  /** Every time stamp of the store came from some upsert. */
  ghost predicate Dated(d: Data, events: seq<Event>)
  {
    forall f :: f in d ==> Dating(d[f].lastSeenAt, events)
  }

  ghost predicate Dating(t: Time, events: seq<Event>)
  {
    exists i :: 0 <= i < |events| && events[i].Upsert? && events[i].at == t
  }

  lemma {:induction false} RunsStayHonest(events: seq<Event>)
    requires ClockForward(events)
    ensures WellKeyed(After(map[], events)) && Honest(After(map[], events)) && Dated(After(map[], events), events)
  {
    if events != [] {
      var n := |events| - 1;
      var es, e := events[..n], events[n];
      RunsStayHonest(es);
      var d := After(map[], es);
      DatedLater(d, es, e);
      if e.Upsert? {
        forall f | f in d ensures d[f].lastSeenAt <= e.at {
          var i :| 0 <= i < |es| && es[i].Upsert? && es[i].at == d[f].lastSeenAt;
          assert events[i] == es[i];
        }
        UpsertHonest(d, e);
        UpsertDated(d, es, e);
      }
      assert events == es + [e];
    }
  }

  lemma DatedLater(d: Data, es: seq<Event>, e: Event)
    requires Dated(d, es)
    ensures Dated(d, es + [e])
  {
    forall f | f in d ensures Dating(d[f].lastSeenAt, es + [e]) {
      var i :| 0 <= i < |es| && es[i].Upsert? && es[i].at == d[f].lastSeenAt;
      assert (es + [e])[i] == es[i];
    }
  }

  lemma UpsertDated(d: Data, es: seq<Event>, e: Event)
    requires Dated(d, es + [e]) && e.Upsert?
    ensures Dated(Next(d, e), es + [e])
  {
    var d' := Next(d, e);
    assert (es + [e])[|es|] == e;
    forall f | f in d' ensures Dating(d'[f].lastSeenAt, es + [e]) {
      if f != e.config.fingerprint { assert d'[f] == d[f]; }
    }
  }

  lemma UpsertHonest(d: Data, e: Event)
    requires WellKeyed(d) && Honest(d) && e.Upsert? && forall f :: f in d ==> d[f].lastSeenAt <= e.at
    ensures WellKeyed(Next(d, e)) && Honest(Next(d, e))
  {
  }

  /** An upsert keeps an honest store honest exactly when it is not dated before another observation of its entry. */
  lemma UpsertHonestIff(d: Data, e: Event)
    requires Honest(d) && e.Upsert?
    ensures Honest(Next(d, e)) <==>
      (e.config.fingerprint in d ==>
         forall k :: k in d[e.config.fingerprint].observations && k != e.key
           ==> d[e.config.fingerprint].observations[k].lastSeenAt <= e.at)
  {
    var f, d' := e.config.fingerprint, Next(d, e);
    forall g | g in d && g != f ensures d'[g] == d[g] {}
    if f in d {
      forall k | k in d[f].observations && k != e.key ensures d'[f].observations[k] == d[f].observations[k] {}
    }
  }

  // The run without its prunes.

  function Upserts(events: seq<Event>): seq<Event>
  {
    if events == [] then []
    else
      var n := |events| - 1;
      Upserts(events[..n]) + if events[n].Upsert? then [events[n]] else []
  }

  ghost predicate CutsUpTo(events: seq<Event>, start: Time)
  {
    forall i :: 0 <= i < |events| && events[i].Prune? ==> events[i].before <= start
  }

  lemma {:induction false} UpsertsForward(events: seq<Event>)
    requires ClockForward(events)
    ensures ClockForward(Upserts(events)) && forall e :: e in Upserts(events) ==> e in events && e.Upsert?
  {
    if events != [] {
      var n := |events| - 1;
      UpsertsForward(events[..n]);
      var u, e := Upserts(events[..n]), events[n];
      if e.Upsert? {
        forall i | 0 <= i < |u| ensures u[i].at <= e.at {
          assert u[i] in u;
          var j :| 0 <= j < n && events[j] == u[i];
        }
      }
    }
  }

  ghost predicate Recent(e: Entry, k: Str, start: Time) { k in e.observations && e.observations[k].lastSeenAt >= start }

  /** From start on, a store d and one d' that was never pruned show the same. */
  ghost predicate Agree(d: Data, d': Data, start: Time)
  {
    && (forall f :: f in d ==> f in d' && AgreeOn(d[f], d'[f], start))
    && (forall f :: f in d' && f !in d ==> d'[f].lastSeenAt < start)
  }

  ghost predicate AgreeOn(e: Entry, e': Entry, start: Time)
  {
    e.lastSeenAt == e'.lastSeenAt && SameRecent(e, e', start)
  }

  ghost predicate SameRecent(e: Entry, e': Entry, start: Time)
  {
    && (forall k :: Recent(e, k, start) <==> Recent(e', k, start))
    && (forall k :: Recent(e, k, start) ==> e.observations[k] == e'.observations[k])
  }

  function Touched(e: Entry, key: Str, o: Observation): Entry
  {
    e.(lastSeenAt := o.lastSeenAt, observations := e.observations[key := o])
  }

  lemma TouchAgrees(e: Entry, e': Entry, start: Time, key: Str, o: Observation)
    requires SameRecent(e, e', start)
    ensures AgreeOn(Touched(e, key, o), Touched(e', key, o), start)
  {
    var t, t' := Touched(e, key, o), Touched(e', key, o);
    forall k ensures Recent(t, k, start) <==> if k == key then o.lastSeenAt >= start else Recent(e, k, start) {}
    forall k ensures Recent(t', k, start) <==> if k == key then o.lastSeenAt >= start else Recent(e', k, start) {}
  }

  lemma UpsertAgrees(d: Data, d': Data, e: Event, start: Time)
    requires Agree(d, d', start) && Honest(d') && e.Upsert?
    ensures Agree(Next(d, e), Next(d', e), start)
  {
    var f := e.config.fingerprint;
    var x, x', o := Before(d, e), Before(d', e), Observation(e.kind, e.channel, e.at);
    if f !in d && f in d' { OldUnseen(d', f, start); }
    assert SameRecent(x, x', start);
    TouchAgrees(x, x', start, e.key, o);
    NextUpsert(d, e);
    NextUpsert(d', e);
    hide Next, Before, Touched, SameRecent, Recent;
    ReplaceAgrees(d, d', f, Touched(x, e.key, o), Touched(x', e.key, o), start);
  }

  lemma NextUpsert(d: Data, e: Event)
    requires e.Upsert?
    ensures Next(d, e)
         == d[e.config.fingerprint := Touched(Before(d, e), e.key, Observation(e.kind, e.channel, e.at))]
  {
  }

  lemma ReplaceAgrees(d: Data, d': Data, f: Str, x: Entry, x': Entry, start: Time)
    requires Agree(d, d', start) && AgreeOn(x, x', start)
    ensures Agree(d[f := x], d'[f := x'], start)
  {
    hide AgreeOn;
  }

  /** The entry an upsert starts from. */
  function Before(d: Data, e: Event): Entry
    requires e.Upsert?
  {
    var c := e.config;
    if c.fingerprint in d then d[c.fingerprint] else Entry(c.value, c.protocol, c.fingerprint, e.at, e.at, map[])
  }

  lemma OldUnseen(d: Data, f: Str, start: Time)
    requires Honest(d) && f in d && d[f].lastSeenAt < start
    ensures forall k :: !Recent(d[f], k, start)
    ensures forall from, end :: start <= from ==> !InWindow(d[f], from, end)
  {
  }

  lemma {:induction false} RunsAgree(events: seq<Event>, start: Time)
    requires ClockForward(events) && CutsUpTo(events, start)
    ensures Agree(After(map[], events), After(map[], Upserts(events)), start)
  {
    if events != [] {
      hide Honest, Dated, Agree, Next, ClockForward;
      var n := |events| - 1;
      var es, e := events[..n], events[n];
      FewerForward(events);
      RunsAgree(es, start);
      UpsertsForward(es);
      RunsStayHonest(Upserts(es));
      var d, d' := After(map[], es), After(map[], Upserts(es));
      if e.Upsert? {
        UpsertAgrees(d, d', e, start);
        assert (Upserts(es) + [e])[..|Upserts(es)|] == Upserts(es);
      } else {
        PruneAgrees(d, d', e, start);
        assert Upserts(es) + [] == Upserts(es);
      }
    } else {
      assert Agree(map[], map[], start);
    }
  }

  lemma FewerForward(events: seq<Event>)
    requires ClockForward(events) && events != []
    ensures ClockForward(events[..|events| - 1])
  {
  }

  lemma PruneAgrees(d: Data, d': Data, e: Event, start: Time)
    requires Agree(d, d', start) && e.Prune? && e.before <= start
    ensures Agree(Next(d, e), d', start)
  {
  }

  /** Over a whole run with a forward clock, prunes up to start never change which fingerprints a window shows, nor
      when they were seen. */
  lemma PrunesKeepSightings(events: seq<Event>, start: Time, from: Time, end: Time)
    requires ClockForward(events) && CutsUpTo(events, start) && start <= from
    ensures var w, w' := Window(After(map[], events), from, end), Window(After(map[], Upserts(events)), from, end);
      w.Keys == w'.Keys && forall f :: f in w ==> Sightings(w[f], from, end) == Sightings(w'[f], from, end)
  {
    var d, d' := After(map[], events), After(map[], Upserts(events));
    RunsAgree(events, start);
    UpsertsForward(events);
    RunsStayHonest(Upserts(events));
    hide After, Upserts, ClockForward, CutsUpTo, Dated;
    AgreeOnWindow(d, d', start, from, end);
  }

  /** The observations of an entry in a window. */
  ghost function Sightings(e: Entry, start: Time, end: Time): map<Str, Observation>
  {
    map k | k in e.observations && Seen(e.observations[k], start, end) :: e.observations[k]
  }

  lemma AgreeOnWindow(d: Data, d': Data, start: Time, from: Time, end: Time)
    requires Agree(d, d', start) && Honest(d') && start <= from
    ensures var w, w' := Window(d, from, end), Window(d', from, end);
      w.Keys == w'.Keys && forall f :: f in w ==> Sightings(w[f], from, end) == Sightings(w'[f], from, end)
  {
    forall f | f in d ensures Sightings(d[f], from, end) == Sightings(d'[f], from, end) {
      SightingsAgree(d[f], d'[f], start, from, end);
    }
    forall f ensures f in Window(d, from, end) <==> f in Window(d', from, end) {
      if f in d {
        SeenSightings(d[f], from, end);
        SeenSightings(d'[f], from, end);
      } else if f in d' {
        OldUnseen(d', f, start);
      }
    }
  }

  lemma SightingsAgree(e: Entry, e': Entry, start: Time, from: Time, end: Time)
    requires AgreeOn(e, e', start) && start <= from
    ensures Sightings(e, from, end) == Sightings(e', from, end)
  {
    forall k ensures k in Sightings(e, from, end) <==> k in Sightings(e', from, end) {
      assert Recent(e, k, start) <==> Recent(e', k, start);
    }
    forall k | k in Sightings(e, from, end) ensures Sightings(e, from, end)[k] == Sightings(e', from, end)[k] {
      assert Recent(e, k, start);
    }
  }

  lemma SeenSightings(e: Entry, start: Time, end: Time)
    ensures InWindow(e, start, end) <==> Sightings(e, start, end) != map[]
  {
    if InWindow(e, start, end) {
      var k :| k in e.observations && Seen(e.observations[k], start, end);
      assert k in Sightings(e, start, end);
    }
    if Sightings(e, start, end) != map[] {
      var k :| k in Sightings(e, start, end);
    }
  }

  // What the entries say, which a prune can change: an entry that comes back brings the value of the link it
  // comes back with.

  /** Every entry holds one of the configurations that came. */
  ghost predicate Drawn(d: Data, cs: set<ParsedConfig>)
  {
    forall f :: f in d ==> ParsedConfig(d[f].value, d[f].protocol, f) in cs
  }

  ghost predicate Uses(events: seq<Event>, cs: set<ParsedConfig>)
  {
    forall i :: 0 <= i < |events| && events[i].Upsert? ==> events[i].config in cs
  }

  /** No two configurations share a fingerprint. */
  ghost predicate Determined(cs: set<ParsedConfig>)
  {
    forall a, b :: a in cs && b in cs && a.fingerprint == b.fingerprint ==> a == b
  }

  lemma {:induction false} RunDraws(events: seq<Event>, cs: set<ParsedConfig>)
    requires Uses(events, cs)
    ensures Drawn(After(map[], events), cs)
  {
    if events != [] {
      RunDraws(events[..|events| - 1], cs);
    }
  }

  /** What a window shows of a store: value, protocol and sightings by fingerprint. */
  datatype Sight = Sight(value: Str, protocol: Str, sightings: map<Str, Observation>)

  ghost function View(d: Data, start: Time, end: Time): map<Str, Sight>
  {
    map f | f in Window(d, start, end) :: Sight(d[f].value, d[f].protocol, Sightings(d[f], start, end))
  }

  ghost predicate PrunesInvisible(events: seq<Event>, start: Time)
  {
    forall from, end | start <= from
      :: View(After(map[], events), from, end) == View(After(map[], Upserts(events)), from, end)
  }

  /** Links that are put in, cut out and put in again: first c, then c'. */
  function Returning(c: ParsedConfig, c': ParsedConfig, start: Time): seq<Event>
  {
    [Upsert(c, Telegram, [], [], start - 1), Prune(start), Upsert(c', Telegram, [], [], start)]
  }

  lemma ReturningEnds(c: ParsedConfig, c': ParsedConfig, start: Time)
    requires c.fingerprint == c'.fingerprint
    ensures var es, f := Returning(c, c', start), c.fingerprint;
      var d, d' := After(map[], es), After(map[], Upserts(es));
      f in d && f in d' && d[f].value == c'.value && d[f].protocol == c'.protocol
      && d'[f].value == c.value && d'[f].protocol == c.protocol
      && InWindow(d[f], start, start + 1) && ClockForward(es) && CutsUpTo(es, start)
  {
    var es, f := Returning(c, c', start), c.fingerprint;
    var e0, e1, e2 := es[0], es[1], es[2];
    ThreeEvents(e0, e1, e2);
    hide After, Upserts;
    var d := After(map[], es);
    assert Next(Next(map[], e0), e1) == map[];
    assert [] in d[f].observations && Seen(d[f].observations[[]], start, start + 1);
  }

  lemma OneMoreEvent(es: seq<Event>, e: Event)
    ensures After(map[], es + [e]) == Next(After(map[], es), e)
    ensures Upserts(es + [e]) == Upserts(es) + if e.Upsert? then [e] else []
  {
    assert (es + [e])[..|es|] == es;
  }

  lemma ThreeEvents(e0: Event, e1: Event, e2: Event)
    requires e0.Upsert? && e1.Prune? && e2.Upsert?
    ensures After(map[], [e0, e1, e2]) == Next(Next(Next(map[], e0), e1), e2)
    ensures After(map[], Upserts([e0, e1, e2])) == Next(Next(map[], e0), e2)
  {
    assert After(map[], []) == map[] && Upserts([]) == [];
    hide After, Upserts, Next;
    OneMoreEvent([], e0);
    OneMoreEvent([e0], e1);
    OneMoreEvent([e0, e1], e2);
    OneMoreEvent([e0], e2);
    assert [] + [e0] == [e0] && [e0] + [e1] == [e0, e1] && [e0, e1] + [e2] == [e0, e1, e2] && [e0] + [] == [e0];
  }

  /** Prunes leave what the windows show unchanged, over all runs on the configurations in cs, exactly when no two of
      those share a fingerprint. */
  lemma PrunesInvisibleIff(cs: set<ParsedConfig>, start: Time)
    ensures (forall events | ClockForward(events) && CutsUpTo(events, start) && Uses(events, cs)
               :: PrunesInvisible(events, start)) <==> Determined(cs)
  {
    if Determined(cs) {
      forall events | ClockForward(events) && CutsUpTo(events, start) && Uses(events, cs)
        ensures PrunesInvisible(events, start)
      {
        PrunesAreInvisible(events, cs, start);
      }
    } else {
      var c, c' :| c in cs && c' in cs && c.fingerprint == c'.fingerprint && c != c';
      var es, f := Returning(c, c', start), c.fingerprint;
      ReturningEnds(c, c', start);
      var d, d' := After(map[], es), After(map[], Upserts(es));
      assert Uses(es, cs);
      hide After, Upserts;
      var v, v' := View(d, start, start + 1), View(d', start, start + 1);
      assert f in v && v[f].value == c'.value && v[f].protocol == c'.protocol;
      assert f in v' ==> v'[f].value == c.value && v'[f].protocol == c.protocol;
      assert v != v';
      assert !PrunesInvisible(es, start);
    }
  }

  lemma PrunesAreInvisible(events: seq<Event>, cs: set<ParsedConfig>, start: Time)
    requires ClockForward(events) && CutsUpTo(events, start) && Uses(events, cs) && Determined(cs)
    ensures PrunesInvisible(events, start)
  {
    var d, d' := After(map[], events), After(map[], Upserts(events));
    RunDraws(events, cs);
    UpsertsForward(events);
    UpsertsUse(events, cs);
    RunDraws(Upserts(events), cs);
    hide After, Upserts, Window, Sightings;
    forall from, end | start <= from ensures View(d, from, end) == View(d', from, end) {
      PrunesKeepSightings(events, start, from, end);
      WindowOf(d, from, end);
      WindowOf(d', from, end);
      var w := Window(d, from, end);
      forall f | f in w ensures View(d, from, end)[f] == View(d', from, end)[f] {
        var c, c' := ParsedConfig(d[f].value, d[f].protocol, f), ParsedConfig(d'[f].value, d'[f].protocol, f);
        assert c in cs && c' in cs && c == c';
      }
    }
  }

  lemma WindowOf(d: Data, start: Time, end: Time)
    ensures forall f :: f in Window(d, start, end) ==> f in d && Window(d, start, end)[f] == d[f]
  {
  }

  lemma UpsertsUse(events: seq<Event>, cs: set<ParsedConfig>)
    requires ClockForward(events) && Uses(events, cs)
    ensures Uses(Upserts(events), cs)
  {
    UpsertsForward(events);
    forall i | 0 <= i < |Upserts(events)| ensures Upserts(events)[i].config in cs {
      var e := Upserts(events)[i];
      var j :| 0 <= j < |events| && events[j] == e;
    }
  }

  // The windows the collector publishes.

  /** output.DayBounds in UTC. */
  function DayBounds(t: Time): (Time, Time)
  {
    (t - t % DAY, t - t % DAY + DAY)
  }

  /** The rolling window of output.PublishRolling. */
  function RollingBounds(now: Time, days: int): (Time, Time)
  {
    (now + 1 - days * DAY, now + 1)
  }

  /** The cut of the collector: daily retention days back. */
  function Cut(now: Time, dailyDays: int): Time { now - dailyDays * DAY }

  /** With at least one day of retention, which the settings demand, the cut never reaches into the day. */
  lemma DaySnapshotSafe(now: Time, dailyDays: int)
    requires dailyDays >= 1
    ensures Cut(now, dailyDays) <= DayBounds(now).0 <= now < DayBounds(now).1
  {
    assert dailyDays * DAY >= DAY;
  }

  /** The rolling window is safe for all honest stores exactly when it reaches back no further than the retention. */
  lemma RollingSafeIff(now: Time, rollingDays: int, dailyDays: int)
    requires rollingDays >= 1
    ensures var w := RollingBounds(now, rollingDays);
      (forall d :: Honest(d) ==> Window(Pruned(d, Cut(now, dailyDays)), w.0, w.1) == Window(d, w.0, w.1))
      <==> rollingDays <= dailyDays
  {
    var w := RollingBounds(now, rollingDays);
    assert rollingDays * DAY >= DAY;
    SafeCutIff(Cut(now, dailyDays), w.0, w.1);
    assert (dailyDays - rollingDays) * DAY == dailyDays * DAY - rollingDays * DAY;
    if rollingDays > dailyDays {
      assert (rollingDays - dailyDays) * DAY >= DAY;
    }
  }

  /** The prunes of a collector: each cuts back from a clock no later than now. */
  ghost predicate CollectorCuts(events: seq<Event>, now: Time, dailyDays: int)
  {
    forall i :: 0 <= i < |events| && events[i].Prune? ==> exists t :: t <= now && events[i].before == Cut(t, dailyDays)
  }

  /** Over a whole run with a forward clock, all the prunes together leave the fingerprints of the day and their
      sightings as they were. */
  lemma CollectKeepsDay(events: seq<Event>, now: Time, dailyDays: int)
    requires ClockForward(events) && CollectorCuts(events, now, dailyDays) && dailyDays >= 1
    ensures var b := DayBounds(now);
      var w, w' := Window(After(map[], events), b.0, b.1), Window(After(map[], Upserts(events)), b.0, b.1);
      w.Keys == w'.Keys && forall f :: f in w ==> Sightings(w[f], b.0, b.1) == Sightings(w'[f], b.0, b.1)
  {
    DaySnapshotSafe(now, dailyDays);
    CollectorCutsUpTo(events, now, dailyDays);
    PrunesKeepSightings(events, Cut(now, dailyDays), DayBounds(now).0, DayBounds(now).1);
  }

  lemma CollectorCutsUpTo(events: seq<Event>, now: Time, dailyDays: int)
    requires CollectorCuts(events, now, dailyDays)
    ensures CutsUpTo(events, Cut(now, dailyDays))
  {
    forall i | 0 <= i < |events| && events[i].Prune? ensures events[i].before <= Cut(now, dailyDays) {
      var t :| t <= now && events[i].before == Cut(t, dailyDays);
    }
  }

  /** A day starts at a multiple of 86400 seconds, the only one at most that long before t, and the next day where it
      ends. */
  lemma DayIs(t: Time, s: Time)
    ensures var (start, end) := DayBounds(t);
      && start <= t < end && end == start + 86_400_000_000_000
      && (s % 86_400_000_000_000 == 0 && s <= t < s + 86_400_000_000_000 <==> s == start)
      && DayBounds(end) == (end, end + 86_400_000_000_000)
  {
    var d := 86_400_000_000_000;
    if s % d == 0 && s <= t < s + d {
      assert s == d * (s / d) && t == d * (t / d) + t % d;
      assert d * (s / d - t / d) < d && d * (t / d - s / d) < d;
      assert s / d == t / d;
    }
    assert t - t % d == d * (t / d);
  }

  /** The rolling window ends just after now, the instant itself included, and reaches days times 24 hours back; the
      cut is as many days of retention back. */
  lemma RollingIs(now: Time, days: int, s: Time)
    ensures var (start, end) := RollingBounds(now, days);
      && (start <= s < end <==> now - days * 86_400_000_000_000 < s <= now)
      && Cut(now, days) == now - days * 86_400_000_000_000
      && (days >= 1 ==> Cut(now, days) == start - 1)
  {
  }
}
