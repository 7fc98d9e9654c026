// Whole runs of the candidate store in the order the collector drives it: candidates
// are observed, offered, checked at most once per offer, and pruned.
module CandidateRuns {
  import opened Clock
  import opened Results
  import opened Sorting
  import opened Candidates

  /** The settings a check goes by; they can change from one collection to the next. */
  datatype Policy = Policy(minSuccess: int, minInterval: Duration)

  /** What a check of a channel or source can report. */
  datatype Outcome = Found | Empty | Missing | Failing

  /** candidateStatus */
  function StatusOf(o: Outcome): Status
  {
    match o
    case Found => Qualified
    case Empty => NoConfig
    case Missing => NotFound
    case Failing => Unknown
  }

  datatype Event =
    | Observe(id: Str, kind: Kind, value: Str, origin: Str, now: Time)
    | Offer(kind: Kind, now: Time, expiryDays: int)
    | Check(id: Str, outcome: Outcome, now: Time, policy: Policy)
    | Prune(before: Time, expiryDays: int)

  /** A check that was made: which event it was, what it found, when, and under which settings. */
  datatype Report = Report(event: nat, outcome: Outcome, at: Time, policy: Policy)

  /** The store, the candidates handed out and not checked yet, the successes that counted for each, and the last
      check of each.
      Wait can return before the last checks of a pool have reported, so channels handed out stay so while the
      sources are offered; Stop ends those checks before the next offer of the same kind. */
  datatype World = World(data: Data, offered: set<Str>, counted: map<Str, seq<Report>>, last: map<Str, Report>,
                         events: nat)

  const START: World := World(map[], {}, map[], map[], 0)

  /** A check is of a candidate handed out by the last offer of its kind and not checked since, however many
      offers of the other kind and prunes came between; the clock is past year 1. */
  predicate Enabled(w: World, e: Event)
  {
    e.Check? ==> e.id in w.offered && e.now != ZERO_TIME && e.policy.minInterval > MIN_DURATION
  }

  /** A check handed out can still report after an offer of the other kind, after a prune and after observations. */
  lemma LateCheckEnabled(w: World, e: Event, id: Str, outcome: Outcome, now: Time, p: Policy)
    requires Enabled(w, Check(id, outcome, now, p)) && id in w.data
    requires !e.Check? && (e.Offer? ==> w.data[id].kind != e.kind)
    ensures Enabled(Next(w, e), Check(id, outcome, now, p))
  {
  }

  function History(w: World, id: Str): seq<Report> { if id in w.counted then w.counted[id] else [] }

  function Next(w: World, e: Event): World
  {
    var n := w.events + 1;
    match e
    case Observe(id, kind, value, origin, now) =>
      World(Observed(w.data, id, kind, value, origin, now), w.offered, w.counted[id := History(w, id)], w.last, n)
    case Offer(kind, now, days) =>
      World(AllAged(w.data, kind, now, days),
            (set id | id in w.offered && id in w.data && w.data[id].kind != kind)
            + (set id | id in w.data && Eligible(w.data[id], kind, now, days)),
            w.counted, w.last, n)
    case Check(id, outcome, now, p) =>
      var c := Lookup(w.data, id);
      var h := History(w, id);
      var counts := outcome == Found && Counts(c, now, p.minInterval);
      var report := Report(w.events, outcome, now, p);
      World(w.data[id := Checked(c, StatusOf(outcome), now, p.minSuccess, p.minInterval)],
            w.offered - {id},
            w.counted[id := if counts then h + [report] else h], w.last[id := report], n)
    case Prune(before, days) =>
      var d := Pruned(w.data, before, days);
      World(d, w.offered, (map id | id in d && id in w.counted :: w.counted[id]), w.last, n)
  }

  /** A run visits worlds[0..], one event apart. */
  ghost predicate Run(events: seq<Event>, worlds: seq<World>)
  {
    && |worlds| == |events| + 1 && worlds[0] == START
    && forall i :: 0 <= i < |events| ==> Enabled(worlds[i], events[i]) && worlds[i + 1] == Next(worlds[i], events[i])
  }

  /** Counted successes keep the distance their own check asked for. */
  ghost predicate Spaced(h: seq<Report>)
  {
    forall i :: 0 <= i < |h| - 1 ==> h[i + 1].at - h[i].at >= h[i + 1].policy.minInterval
  }

  /** The record of one candidate agrees with the successes that counted for it. */
  ghost predicate Earned(c: Candidate, h: seq<Report>)
  {
    && c.successes == |h|
    && (h == [] ==> c.lastSuccessAt == ZERO_TIME)
    && (h != [] ==> c.lastSuccessAt == h[|h| - 1].at != ZERO_TIME)
    && Spaced(h)
  }

  /** What is known of one candidate: its record agrees with the successes that counted, it is promoted only when its
      last check found something and the successes were enough for that check, and open while it is handed out. */
  ghost predicate Sound(id: Str, c: Candidate, h: seq<Report>, last: Option<Report>, offered: bool)
  {
    && c.id == id && Earned(c, h)
    && (c.status == Promoted ==>
          last.Some? && last.value.outcome == Found && h != [] && |h| >= last.value.policy.minSuccess)
    && (offered ==> c.status != Promoted && c.status != Expired)
  }

  function LastOf(w: World, id: Str): Option<Report> { if id in w.last then Some(w.last[id]) else None }

  ghost predicate SoundAt(w: World, id: Str)
    requires id in w.data && id in w.counted
  {
    Sound(id, w.data[id], w.counted[id], LastOf(w, id), id in w.offered)
  }

  ghost predicate Invariant(w: World)
  {
    && w.counted.Keys == w.data.Keys && w.offered <= w.data.Keys
    && forall id :: id in w.data ==> SoundAt(w, id)
  }

  lemma SubBelow(t: Time, u: Time, d: Duration)
    requires MIN_DURATION < d && Sub(t, u) >= d
    ensures t - u >= d
  {
  }

  lemma CheckedEarned(c: Candidate, h: seq<Report>, status: Status, r: Report)
    requires Earned(c, h) && r.at != ZERO_TIME && r.policy.minInterval > MIN_DURATION
    ensures var counts := status == Qualified && Counts(c, r.at, r.policy.minInterval);
      Earned(Checked(c, status, r.at, r.policy.minSuccess, r.policy.minInterval), if counts then h + [r] else h)
  {
    if status == Qualified && h != [] && Sub(r.at, c.lastSuccessAt) >= r.policy.minInterval {
      SubBelow(r.at, c.lastSuccessAt, r.policy.minInterval);
    }
  }

  lemma CheckedSound(id: Str, c: Candidate, h: seq<Report>, last: Option<Report>, offered: bool, r: Report)
    requires Sound(id, c, h, last, offered) && r.at != ZERO_TIME && r.policy.minInterval > MIN_DURATION
    ensures var counts := r.outcome == Found && Counts(c, r.at, r.policy.minInterval);
      Sound(id, Checked(c, StatusOf(r.outcome), r.at, r.policy.minSuccess, r.policy.minInterval),
            if counts then h + [r] else h, Some(r), false)
  {
    hide Spaced;
    CheckedEarned(c, h, StatusOf(r.outcome), r);
  }

  lemma ObservedSound(id: Str, c: Candidate, h: seq<Report>, last: Option<Report>, offered: bool, now: Time, from: Str)
    ensures Sound(id, c, h, last, offered)
        ==> Sound(id, c.(lastSeenAt := now, origins := c.origins[from := now]), h, last, offered)
    ensures c == ZERO.(id := id, kind := c.kind, value := c.value, firstSeenAt := c.firstSeenAt) && !offered
        ==> Sound(id, c, [], last, offered)
  {
  }

  lemma ObserveKeepsInvariant(w: World, e: Event)
    requires Invariant(w) && e.Observe?
    ensures Invariant(Next(w, e))
  {
    hide Sound;
    var id, w' := e.id, Next(w, e);
    var c := if id in w.data then w.data[id]
             else ZERO.(id := id, kind := e.kind, value := e.value, firstSeenAt := e.now);
    ObservedSound(id, c, History(w, id), LastOf(w, id), id in w.offered, e.now, e.origin);
    assert SoundAt(w', id);
    forall k | k in w'.data && k != id ensures SoundAt(w', k) { assert SoundAt(w, k); }
  }

  lemma OfferKeepsInvariant(w: World, e: Event)
    requires Invariant(w) && e.Offer?
    ensures Invariant(Next(w, e))
  {
    hide TooOld, Earned;
    forall id | id in w.data ensures SoundAt(Next(w, e), id) {
      assert SoundAt(w, id);
      EarnedStatus(w.data[id], Next(w, e).data[id], w.counted[id]);
    }
  }

  lemma EarnedStatus(c: Candidate, c': Candidate, h: seq<Report>)
    requires c' == c.(status := c'.status) && Earned(c, h)
    ensures Earned(c', h)
  {
  }

  lemma CheckKeepsInvariant(w: World, e: Event)
    requires Invariant(w) && Enabled(w, e) && e.Check?
    ensures Invariant(Next(w, e))
  {
    hide Sound, Checked, Counts;
    var id, w' := e.id, Next(w, e);
    CheckedSound(id, w.data[id], w.counted[id], LastOf(w, id), id in w.offered,
      Report(w.events, e.outcome, e.now, e.policy));
    assert SoundAt(w', id);
    forall k | k in w'.data && k != id ensures SoundAt(w', k) { assert SoundAt(w, k); }
  }

  lemma PruneKeepsInvariant(w: World, e: Event)
    requires Invariant(w) && e.Prune?
    ensures Invariant(Next(w, e))
  {
    hide TooOld, Earned;
    forall id | id in Next(w, e).data ensures SoundAt(Next(w, e), id) { assert SoundAt(w, id); }
    forall id | id in w.offered ensures id in Next(w, e).data { assert SoundAt(w, id); }
  }

  /** Every step keeps the record of every candidate honest. */
  lemma StepKeepsInvariant(w: World, e: Event)
    requires Invariant(w) && Enabled(w, e)
    ensures Invariant(Next(w, e))
  {
    hide *;
    match e
    case Observe(_, _, _, _, _) => ObserveKeepsInvariant(w, e);
    case Offer(_, _, _) => OfferKeepsInvariant(w, e);
    case Check(_, _, _, _) => CheckKeepsInvariant(w, e);
    case Prune(_, _) => PruneKeepsInvariant(w, e);
  }

  lemma {:induction false} RunKeepsInvariant(events: seq<Event>, worlds: seq<World>, i: nat)
    requires Run(events, worlds) && i <= |events|
    ensures Invariant(worlds[i]) && worlds[i].events == i
  {
    if i > 0 {
      RunKeepsInvariant(events, worlds, i - 1);
      StepKeepsInvariant(worlds[i - 1], events[i - 1]);
    }
  }

  /** The report is of a check of that candidate in the run. */
  ghost predicate Reported(r: Report, id: Str, events: seq<Event>)
  {
    r.event < |events| && events[r.event] == Check(id, r.outcome, r.at, r.policy)
  }

  /** Counted successes are checks of that candidate that found something, in the order of the run. */
  ghost predicate Witnessed(h: seq<Report>, id: Str, events: seq<Event>)
  {
    && (forall m :: 0 <= m < |h| ==> Reported(h[m], id, events) && h[m].outcome == Found)
    && (forall m :: 0 <= m < |h| - 1 ==> h[m].event < h[m + 1].event)
  }

  /** A step keeps a history, drops it with its candidate, or adds the success it counted; a check is the last one. */
  lemma HistoryStep(w: World, e: Event, id: Str)
    ensures var h, h' := History(w, id), History(Next(w, e), id);
      h' == h || h' == []
      || (e.Check? && e == Check(id, Found, e.now, e.policy) && h' == h + [Report(w.events, Found, e.now, e.policy)])
    ensures var w' := Next(w, e);
      id in w'.last ==> if e.Check? && e.id == id then w'.last[id] == Report(w.events, e.outcome, e.now, e.policy)
                        else id in w.last && w'.last[id] == w.last[id]
  {
    hide Checked, Counts, Eligible, AllAged, Pruned, Observed;
  }

  lemma WitnessedNext(h: seq<Report>, id: Str, events: seq<Event>, e: Event)
    requires Witnessed(h, id, events)
    ensures Witnessed(h, id, events + [e])
    ensures e.Check? && e == Check(id, Found, e.now, e.policy)
        ==> Witnessed(h + [Report(|events|, Found, e.now, e.policy)], id, events + [e])
  {
    if h != [] { assert Reported(h[|h| - 1], id, events); }
    forall m | 0 <= m < |h| ensures Reported(h[m], id, events + [e]) {
      assert Reported(h[m], id, events);
    }
  }

  lemma NoneWitnessed(id: Str, events: seq<Event>)
    ensures Witnessed([], id, events) && History(START, id) == [] && START.last == map[]
  {
  }

  lemma {:induction false} RunWitnessed(events: seq<Event>, worlds: seq<World>, i: nat, id: Str)
    requires Run(events, worlds) && i <= |events|
    ensures Witnessed(History(worlds[i], id), id, events[..i])
    ensures id in worlds[i].last ==> Reported(worlds[i].last[id], id, events[..i])
  {
    hide Next, Witnessed, Invariant, Enabled, History;
    NoneWitnessed(id, events[..i]);
    if i > 0 {
      var w, e, es := worlds[i - 1], events[i - 1], events[..i - 1];
      RunWitnessed(events, worlds, i - 1, id);
      RunKeepsInvariant(events, worlds, i - 1);
      assert worlds[i] == Next(w, e);
      HistoryStep(w, e, id);
      WitnessedNext(History(w, id), id, es, e);
      assert events[..i] == es + [e];
    }
  }

  /** The distances that the counted successes after the first were asked to keep, together. */
  function Required(h: seq<Report>): int
  {
    if |h| <= 1 then 0 else Required(h[..|h| - 1]) + h[|h| - 1].policy.minInterval
  }

  lemma {:induction false} SpanOf(h: seq<Report>)
    requires Spaced(h) && h != []
    ensures h[|h| - 1].at - h[0].at >= Required(h)
    decreases |h|
  {
    if |h| > 1 {
      SpanOf(h[..|h| - 1]);
    }
  }

  /** When no check asked for less than d, that is d for each success after the first. */
  lemma {:induction false} RequiredAtLeast(h: seq<Report>, d: Duration)
    requires h != [] && forall m :: 0 < m < |h| ==> h[m].policy.minInterval >= d
    ensures Required(h) >= (|h| - 1) * d
    decreases |h|
  {
    if |h| > 1 {
      RequiredAtLeast(h[..|h| - 1], d);
      assert (|h| - 1) * d == (|h| - 2) * d + d;
    }
  }

  /** A promoted candidate was promoted by its last check, when it had been found working at least as often as that
      check asked for, each time as long after the one before as the settings of the day asked for. */
  lemma PromotionIsEarned(events: seq<Event>, worlds: seq<World>, i: nat, id: Str)
    requires Run(events, worlds) && i <= |events| && id in worlds[i].data && worlds[i].data[id].status == Promoted
    ensures id in worlds[i].last
    ensures var h, last := History(worlds[i], id), worlds[i].last[id];
      && Reported(last, id, events[..i]) && last.outcome == Found && |h| >= last.policy.minSuccess
      && h != [] && Witnessed(h, id, events[..i]) && Spaced(h)
      && h[|h| - 1].at - h[0].at >= Required(h)
  {
    RunKeepsInvariant(events, worlds, i);
    assert SoundAt(worlds[i], id);
    RunWitnessed(events, worlds, i, id);
    SpanOf(History(worlds[i], id));
  }

  /** Once promoted, a candidate stays in the store, stays promoted and is never handed out again. */
  lemma {:induction false} PromotionIsFinal(events: seq<Event>, worlds: seq<World>, i: nat, j: nat, id: Str)
    requires Run(events, worlds) && i <= j <= |events|
    requires id in worlds[i].data && worlds[i].data[id].status == Promoted
    ensures id in worlds[j].data && worlds[j].data[id].status == Promoted && id !in worlds[j].offered
    decreases j
  {
    hide Checked, Counts, TooOld, Earned;
    RunKeepsInvariant(events, worlds, j);
    if i == j {
      assert SoundAt(worlds[j], id);
    } else {
      PromotionIsFinal(events, worlds, i, j - 1, id);
      assert worlds[j] == Next(worlds[j - 1], events[j - 1]);
      assert Enabled(worlds[j - 1], events[j - 1]);
    }
  }

  /** Whatever a candidate was before, a check leaves it promoted exactly when it finds something and the successes,
      this one included if it counts, are enough for the settings of that check. */
  lemma PromotedByCheckIff(c: Candidate, outcome: Outcome, now: Time, p: Policy)
    ensures Checked(c, StatusOf(outcome), now, p.minSuccess, p.minInterval).status == Promoted
       <==> outcome == Found && c.successes + (if Counts(c, now, p.minInterval) then 1 else 0) >= p.minSuccess
  {
  }

  /** So outside that order a promotion can be lost even to a check that finds something: two successes were enough,
      three are asked for now, and the interval is not over. */
  lemma RaisedThresholdDemotes()
    ensures var c := ZERO.(status := Promoted, successes := 2, lastSuccessAt := 0);
      Checked(c, StatusOf(Found), 1, 3, DAY).status == Qualified
  {
  }

  /** What each outcome of a check adds to the counts of the candidate. */
  lemma OutcomesCount(w: World, id: Str, o: Outcome, now: Time, p: Policy)
    requires id in w.data && p.minInterval <= 0x7FFF_FFFF_FFFF_FFFF
    requires Enabled(w, Check(id, o, now, p))
    ensures var c, r := w.data[id], Next(w, Check(id, o, now, p)).data[id];
      && r.noConfigCount == c.noConfigCount + (if o == Empty then 1 else 0)
      && r.notFoundCount == c.notFoundCount + (if o == Missing then 1 else 0)
      && r.successes == c.successes
           + (if o == Found && (c.lastSuccessAt == ZERO_TIME || now >= c.lastSuccessAt + p.minInterval) then 1 else 0)
      && (o == Failing ==> r == c.(lastCheckedAt := now, status := Unknown))
  {
    CheckedParts(w.data[id], StatusOf(o), now, p.minSuccess, p.minInterval);
  }
}
