// The collections of collect.go on one candidate store: whatever the network answers and however the checks of the
// workers fall between the other calls, the store goes through a run.
module Collecting {
  import opened Clock
  import opened Sorting
  import opened Candidates
  import opened CandidateRuns
  import opened Cutting

  /** A channel or source that a provider mentioned. */
  datatype Mention = Mention(kind: Kind, value: Str, origin: Str)

  /** One collection: what was mentioned, its clock and settings, and the date of its prune. */
  datatype Collection = Collection(mentions: seq<Mention>, now: Time, policy: Policy, expiryDays: int, cut: Time)

  predicate Dated(c: Collection) { c.now != ZERO_TIME && c.policy.minInterval > MIN_DURATION }

  /** The store has gone through these events. */
  ghost predicate Follows(store: CandidateStore, events: seq<Event>, worlds: seq<World>)
    reads store
  {
    Run(events, worlds) && store.data == worlds[|events|].data
  }

  /** The calls of a run other than reports of checks. */
  function Calls(events: seq<Event>): seq<Event>
  {
    if events == [] then []
    else
      var n := |events| - 1;
      Calls(events[..n]) + if events[n].Check? then [] else [events[n]]
  }

  lemma CallsNext(events: seq<Event>, e: Event)
    ensures Calls(events + [e]) == Calls(events) + if e.Check? then [] else [e]
  {
    assert (events + [e])[..|events|] == events;
  }

  /** The calls a collection makes, in order; checks report in between and after. */
  function Plan(lower: Str -> Str, c: Collection): seq<Event>
  {
    Mentioned(lower, c, |c.mentions|)
    + [Offer(Channel, c.now, c.expiryDays), Offer(Source, c.now, c.expiryDays), Prune(c.cut, c.expiryDays)]
  }

  function Mentioned(lower: Str -> Str, c: Collection, n: nat): seq<Event>
    requires n <= |c.mentions|
  {
    seq(n, i requires 0 <= i < n =>
      var m := c.mentions[i]; Observe(IdOf(lower, m), m.kind, m.value, m.origin, c.now))
  }

  function IdOf(lower: Str -> Str, m: Mention): Str { KindName(m.kind) + [0x3A] + lower(m.value) }

  function Plans(lower: Str -> Str, collections: seq<Collection>): seq<Event>
  {
    if collections == [] then []
    else
      var n := |collections| - 1;
      Plans(lower, collections[..n]) + Plan(lower, collections[n])
  }

  lemma RunNext(events: seq<Event>, worlds: seq<World>, e: Event)
    requires Run(events, worlds) && Enabled(worlds[|events|], e)
    ensures Run(events + [e], worlds + [Next(worlds[|events|], e)])
    ensures Calls(events + [e]) == Calls(events) + if e.Check? then [] else [e]
  {
    hide Next, Enabled, Calls;
    CallsNext(events, e);
    var w, es := worlds[|events|], events + [e];
    var ws := worlds + [Next(w, e)];
    forall i | 0 <= i < |es| ensures Enabled(ws[i], es[i]) && ws[i + 1] == Next(ws[i], es[i]) {
      if i < |events| {
        assert es[i] == events[i] && ws[i] == worlds[i] && ws[i + 1] == worlds[i + 1];
      } else {
        assert es[i] == e && ws[i] == w && ws[i + 1] == Next(w, e);
      }
    }
  }

  /** Candidates that workers have not checked yet: handed out, and of one of the kinds. */
  ghost predicate Waiting(pending: set<Str>, w: World, kinds: set<Kind>)
  {
    forall id :: id in pending ==> id in w.offered && id in w.data && w.data[id].kind in kinds
  }

  /** A fetch over the network: any outcome. */
  method Fetch() returns (o: Outcome)
  {
    o := *;
  }

  /** Workers check some of the pending candidates, in any order; the others are still at it, or were known. */
  method CheckSome(store: CandidateStore, pending: set<Str>, c: Collection, ghost kinds: set<Kind>,
                   ghost events: seq<Event>, ghost worlds: seq<World>)
    returns (left: set<Str>, ghost events': seq<Event>, ghost worlds': seq<World>)
    requires Follows(store, events, worlds) && Dated(c) && Waiting(pending, worlds[|events|], kinds)
    modifies store
    ensures Follows(store, events', worlds') && events <= events' && Waiting(left, worlds'[|events'|], kinds)
    ensures Calls(events') == Calls(events)
  {
    hide Run, Calls;
    left, events', worlds' := pending, events, worlds;
    RunShape(events, worlds);
    while left != {}
      invariant |worlds'| == |events'| + 1 && Follows(store, events', worlds') && events <= events'
      invariant Waiting(left, worlds'[|events'|], kinds) && Calls(events') == Calls(events)
      decreases left
    {
      var stop: bool := *;
      if stop { break; }
      var id :| id in left;
      left := left - {id};
      var outcome := Fetch();
      var r := store.Result(id, StatusOf(outcome), c.now, c.policy.minSuccess, c.policy.minInterval);
      ghost var e := Check(id, outcome, c.now, c.policy);
      RunNext(events', worlds', e);
      events', worlds' := events' + [e], worlds' + [Next(worlds'[|events'|], e)];
    }
  }

  lemma RunShape(events: seq<Event>, worlds: seq<World>)
    requires Run(events, worlds)
    ensures |worlds| == |events| + 1
  {
  }

  /** EligibleAll hands out the candidates of one kind; those of other kinds that are still pending stay so. */
  method HandOut(store: CandidateStore, kind: Kind, c: Collection, ghost others: set<Str>, ghost kinds: set<Kind>,
                 ghost events: seq<Event>, ghost worlds: seq<World>)
    returns (pending: set<Str>, ghost events': seq<Event>, ghost worlds': seq<World>)
    requires Follows(store, events, worlds) && kind !in kinds && Waiting(others, worlds[|events|], kinds)
    modifies store
    ensures Follows(store, events', worlds') && events <= events'
    ensures Waiting(others + pending, worlds'[|events'|], kinds + {kind})
    ensures Calls(events') == Calls(events) + [Offer(kind, c.now, c.expiryDays)]
  {
    hide Run, Eligible, Aged, Calls;
    RunShape(events, worlds);
    ghost var w, e := worlds[|events|], Offer(kind, c.now, c.expiryDays);
    RunKeepsInvariant(events, worlds, |events|);
    OwnKeys(w, kind);
    var all := store.EligibleAll(kind, c.now, c.expiryDays);
    pending := set x | x in all :: x.id;
    RunNext(events, worlds, e);
    events', worlds' := events + [e], worlds + [Next(w, e)];
    OfferedWait(w, e, all, others, kinds);
  }

  lemma OwnKeys(w: World, kind: Kind)
    requires Invariant(w)
    ensures WellKeyed(w.data, kind)
  {
    forall id | id in w.data ensures w.data[id].id == id { assert SoundAt(w, id); }
  }

  lemma OfferedWait(w: World, e: Event, all: seq<Candidate>, others: set<Str>, kinds: set<Kind>)
    requires e.Offer? && Waiting(others, w, kinds) && e.kind !in kinds && WellKeyed(w.data, e.kind)
    requires Candidates.Offer(all, w.data, e.kind, e.now, e.expiryDays)
    ensures Waiting(others + (set x | x in all :: x.id), Next(w, e), kinds + {e.kind})
  {
    hide TooOld;
    var eligible := set id | id in w.data && Eligible(w.data[id], e.kind, e.now, e.expiryDays) :: w.data[id];
    forall x | x in all ensures x in eligible {
      assert x in multiset(all);
    }
  }

  method ObserveAll(store: CandidateStore, c: Collection, ghost events: seq<Event>, ghost worlds: seq<World>)
    returns (ghost events': seq<Event>, ghost worlds': seq<World>)
    requires Follows(store, events, worlds)
    modifies store
    ensures Follows(store, events', worlds') && events <= events'
    ensures Calls(events') == Calls(events) + Mentioned(store.lower, c, |c.mentions|)
  {
    hide Run, Calls;
    events', worlds' := events, worlds;
    RunShape(events, worlds);
    assert Calls(events) + Mentioned(store.lower, c, 0) == Calls(events);
    for i := 0 to |c.mentions|
      invariant |worlds'| == |events'| + 1 && Follows(store, events', worlds') && events <= events'
      invariant Calls(events') == Calls(events) + Mentioned(store.lower, c, i)
    {
      var m := c.mentions[i];
      store.Observe(m.kind, m.value, m.origin, c.now);
      ghost var e := Observe(IdOf(store.lower, m), m.kind, m.value, m.origin, c.now);
      RunNext(events', worlds', e);
      assert Mentioned(store.lower, c, i + 1) == Mentioned(store.lower, c, i) + [e];
      Associative(Calls(events), Mentioned(store.lower, c, i), [e]);
      events', worlds' := events' + [e], worlds' + [Next(worlds'[|events'|], e)];
    }
  }

  /** validateCandidates after what was mentioned: channels, sources, and the prune, with checks reporting late. What is
      still pending at the end, Stop drops. */
  method Collect(store: CandidateStore, c: Collection, ghost events: seq<Event>, ghost worlds: seq<World>)
    returns (ghost events': seq<Event>, ghost worlds': seq<World>)
    requires Follows(store, events, worlds) && Dated(c)
    modifies store
    ensures Follows(store, events', worlds') && events <= events'
    ensures Calls(events') == Calls(events) + Plan(store.lower, c)
  {
    hide Run, Next, Waiting, Calls;
    var channels, sources: set<Str>;
    events', worlds' := ObserveAll(store, c, events, worlds);
    RunShape(events', worlds');
    NoneWaiting(worlds'[|events'|]);
    channels, events', worlds' := HandOut(store, Channel, c, {}, {}, events', worlds');
    assert {} + channels == channels && {} + {Channel} == {Channel};
    channels, events', worlds' := CheckSome(store, channels, c, {Channel}, events', worlds');
    sources, events', worlds' := HandOut(store, Source, c, channels, {Channel}, events', worlds');
    var pending := channels + sources;
    pending, events', worlds' := CheckSome(store, pending, c, {Channel} + {Source}, events', worlds');
    store.Prune(c.cut, c.expiryDays);
    RunShape(events', worlds');
    ghost var w, e := worlds'[|events'|], Prune(c.cut, c.expiryDays);
    RunKeepsInvariant(events', worlds', |events'|);
    PruneWaits(w, e, pending, {Channel} + {Source});
    RunNext(events', worlds', e);
    events', worlds' := events' + [e], worlds' + [Next(w, e)];
    pending, events', worlds' := CheckSome(store, pending, c, {Channel} + {Source}, events', worlds');
    Planned(Calls(events), store.lower, c);
  }

  lemma Planned(before: seq<Event>, lower: Str -> Str, c: Collection)
    ensures before + Mentioned(lower, c, |c.mentions|) + [Offer(Channel, c.now, c.expiryDays)]
            + [Offer(Source, c.now, c.expiryDays)] + [Prune(c.cut, c.expiryDays)] == before + Plan(lower, c)
  {
  }

  lemma NoneWaiting(w: World)
    ensures Waiting({}, w, {})
  {
  }

  lemma PruneWaits(w: World, e: Event, pending: set<Str>, kinds: set<Kind>)
    requires Invariant(w) && e.Prune? && Enabled(w, e) && Waiting(pending, w, kinds)
    ensures Next(w, e).data == Pruned(w.data, e.before, e.expiryDays) && Waiting(pending, Next(w, e), kinds)
  {
    hide TooOld;
    forall id | id in pending ensures id in Next(w, e).data { assert SoundAt(w, id); }
  }

  /** Any sequence of collections, each with its own settings, from an empty store: what was proved of runs holds of
      the object. */
  method CollectAll(collections: seq<Collection>, lower: Str -> Str)
    returns (store: CandidateStore, ghost events: seq<Event>, ghost worlds: seq<World>)
    requires forall c :: c in collections ==> Dated(c)
    ensures fresh(store) && Follows(store, events, worlds) && Calls(events) == Plans(lower, collections)
  {
    hide Calls, Plan, Run;
    Started();
    store := new CandidateStore(map[], lower);
    events, worlds := [], [START];
    for i := 0 to |collections|
      invariant fresh(store) && store.lower == lower && Follows(store, events, worlds)
      invariant Calls(events) == Plans(lower, collections[..i])
    {
      assert collections[i] in collections && collections[..i + 1][..i] == collections[..i];
      events, worlds := Collect(store, collections[i], events, worlds);
    }
    assert collections[..|collections|] == collections;
  }

  lemma Started()
    ensures Run([], [START]) && Calls([]) == []
  {
  }

  /** The calls of a collection one by one: the mentions in order, then channels, sources and the prune. */
  lemma PlanInOrder(lower: Str -> Str, c: Collection, i: nat)
    requires i < |c.mentions| + 3
    ensures var n := |c.mentions|;
      |Plan(lower, c)| == n + 3 && Plan(lower, c)[i] ==
        if i < n then
          var m := c.mentions[i];
          Observe(KindName(m.kind) + [58] + lower(m.value), m.kind, m.value, m.origin, c.now)
        else if i == n then Offer(Channel, c.now, c.expiryDays)
        else if i == n + 1 then Offer(Source, c.now, c.expiryDays)
        else Prune(c.cut, c.expiryDays)
  {
    hide KindName;
  }
}
