// The candidate store of candidates.go: what each call does to the map.
module Candidates {
  import opened Clock
  import opened Sorting

  /** Unset is the zero kind, the empty string. */
  datatype Kind = Channel | Source | Unset
  datatype Status = Pending | Qualified | Promoted | NoConfig | NotFound | Unknown | Expired

  datatype Candidate = Candidate(id: Str, kind: Kind, value: Str, status: Status,
                                 firstSeenAt: Time, lastSeenAt: Time, lastCheckedAt: Time, lastSuccessAt: Time,
                                 successes: int, noConfigCount: int, notFoundCount: int, origins: map<Str, Time>)

  type Data = map<Str, Candidate>

  /** What looking up a candidate never seen yields. */
  const ZERO: Candidate :=
    Candidate([], Unset, [], Pending, ZERO_TIME, ZERO_TIME, ZERO_TIME, ZERO_TIME, 0, 0, 0, map[])

  function Lookup(d: Data, id: Str): Candidate { if id in d then d[id] else ZERO }

  function Observed(d: Data, id: Str, kind: Kind, value: Str, origin: Str, now: Time): Data
  {
    var c := if id in d then d[id] else ZERO.(id := id, kind := kind, value := value, firstSeenAt := now);
    d[id := c.(lastSeenAt := now, origins := c.origins[origin := now])]
  }

  /** The candidate after one check. */
  function Checked(c: Candidate, status: Status, now: Time, minSuccess: int, minInterval: Duration): Candidate
  {
    var c := c.(lastCheckedAt := now, status := status);
    if status == Qualified then
      var c := if Counts(c, now, minInterval) then c.(successes := c.successes + 1, lastSuccessAt := now) else c;
      if c.successes >= minSuccess then c.(status := Promoted) else c
    else if status == NoConfig then c.(noConfigCount := c.noConfigCount + 1)
    else if status == NotFound then c.(notFoundCount := c.notFoundCount + 1)
    else c
  }

  /** A success counts when it is the first or far enough from the last that counted. */
  predicate Counts(c: Candidate, now: Time, minInterval: Duration)
  {
    c.lastSuccessAt == ZERO_TIME || Sub(now, c.lastSuccessAt) >= minInterval
  }

  predicate TooOld(c: Candidate, now: Time, expiryDays: int) { Sub(now, c.firstSeenAt) > Days(expiryDays) }

  predicate Open(c: Candidate, kind: Kind) { c.kind == kind && c.status != Promoted && c.status != Expired }

  predicate Eligible(c: Candidate, kind: Kind, now: Time, expiryDays: int)
  {
    Open(c, kind) && !TooOld(c, now, expiryDays)
  }

  function Aged(c: Candidate, kind: Kind, now: Time, expiryDays: int): Candidate
  {
    if Open(c, kind) && TooOld(c, now, expiryDays) then c.(status := Expired) else c
  }

  function AllAged(d: Data, kind: Kind, now: Time, expiryDays: int): Data
  {
    map id | id in d :: Aged(d[id], kind, now, expiryDays)
  }

  predicate Removed(c: Candidate, before: Time, expiryDays: int)
  {
    c.status == Expired && TooOld(c, before, expiryDays)
  }

  function Pruned(d: Data, before: Time, expiryDays: int): Data
  {
    map id | id in d && !Removed(d[id], before, expiryDays) :: d[id]
  }

  function Score(c: Candidate): int
  {
    c.successes * 100 + |c.origins| * 20 - c.noConfigCount * 30 - c.notFoundCount * 50
      + TruncatedMod(Unix(c.lastSeenAt), 17)
  }

  predicate ScoreOrder(c: Candidate, d: Candidate) { Score(c) >= Score(d) }

  /** Candidates of this kind are stored under their own identifier. */
  predicate WellKeyed(d: Data, kind: Kind) { forall id :: id in d && d[id].kind == kind ==> d[id].id == id }

  /** Every call keeps the keys of the real kinds right, a Result for an unknown identifier included. */
  lemma KeysStayRight(d: Data, kind: Kind, id: Str, other: Kind, value: Str, origin: Str, now: Time, days: int,
                      status: Status, minSuccess: int, minInterval: Duration)
    requires WellKeyed(d, kind) && kind != Unset
    ensures WellKeyed(Observed(d, id, other, value, origin, now), kind)
    ensures WellKeyed(AllAged(d, other, now, days), kind) && WellKeyed(Pruned(d, now, days), kind)
    ensures WellKeyed(d[id := Checked(Lookup(d, id), status, now, minSuccess, minInterval)], kind)
  {
    hide TooOld, Counts;
  }

  /** out lists the eligible candidates of d, each once, best score first. */
  ghost predicate Offer(out: seq<Candidate>, d: Data, kind: Kind, now: Time, expiryDays: int)
  {
    && IsSorted(out, ScoreOrder)
    && multiset(out) == multiset(set id | id in d && Eligible(d[id], kind, now, expiryDays) :: d[id])
  }

  class CandidateStore {
    var data: Data
    const lower: Str -> Str // strings.ToLower

    constructor (data: Data, lower: Str -> Str)
      ensures this.data == data && this.lower == lower
    {
      this.data, this.lower := data, lower;
    }

    function Id(kind: Kind, value: Str): Str
    {
      KindName(kind) + [0x3A] + lower(value)
    }

    method Observe(kind: Kind, value: Str, origin: Str, now: Time)
      modifies this
      ensures data == Observed(old(data), Id(kind, value), kind, value, origin, now)
    {
      var id := Id(kind, value);
      var c: Candidate;
      if id in data {
        c := data[id];
      } else {
        c := ZERO.(id := id, kind := kind, value := value, status := Pending, firstSeenAt := now, origins := map[]);
      }
      c := c.(lastSeenAt := now);
      c := c.(origins := c.origins[origin := now]);
      data := data[id := c];
    }

    /** The body of the loop: a candidate that is too old is marked, one that is open is kept. */
    method Consider(c: Candidate, kind: Kind, now: Time, expiryDays: int) returns (keep: bool)
      requires c.kind == kind ==> c.id in data && data[c.id] == c
      modifies this
      ensures keep == Eligible(c, kind, now, expiryDays)
      ensures data == if c.kind == kind then old(data)[c.id := Aged(c, kind, now, expiryDays)] else old(data)
    {
      hide TooOld;
      if c.kind != kind || c.status == Promoted || c.status == Expired {
        return false;
      }
      if TooOld(c, now, expiryDays) {
        data := data[c.id := c.(status := Expired)];
        return false;
      }
      keep := true;
    }

    method EligibleAll(kind: Kind, now: Time, expiryDays: int) returns (out: seq<Candidate>)
      requires WellKeyed(data, kind)
      modifies this
      ensures data == AllAged(old(data), kind, now, expiryDays)
      ensures Offer(out, old(data), kind, now, expiryDays)
    {
      hide *;
      var left, found := data.Keys, [];
      ghost var d, done: set<Str> := data, {};
      NoneVisited(d, kind, now, expiryDays);
      while left != {}
        invariant left == d.Keys - done && done <= d.Keys
        invariant data == Visited(d, done, kind, now, expiryDays)
        invariant multiset(found) == multiset(Chosen(d, done, kind, now, expiryDays))
        decreases left
      {
        var id :| id in left;
        VisitNext(d, done, id, kind, now, expiryDays);
        var c := data[id];
        left, done := left - {id}, done + {id};
        var keep := Consider(c, kind, now, expiryDays);
        if keep {
          found := found + [c];
        }
      }
      AllVisited(d, done, kind, now, expiryDays);
      ScoreIsOrder();
      SortSorts(found, ScoreOrder);
      out := Sort(found, ScoreOrder);
      OfferOf(out, d, kind, now, expiryDays);
    }

    /** Eligible: the budget best of EligibleAll. Not ok is the slice panic of a negative budget. */
    method EligibleWithin(kind: Kind, now: Time, budget: int, expiryDays: int) returns (ok: bool, out: seq<Candidate>)
      requires WellKeyed(data, kind)
      modifies this
      ensures ok <==> budget >= 0
      ensures data == AllAged(old(data), kind, now, expiryDays)
      ensures ok ==> exists all :: Offer(all, old(data), kind, now, expiryDays)
                       && out == if |all| > budget then all[..budget] else all
    {
      var all := EligibleAll(kind, now, expiryDays);
      ok, out := true, all;
      if |out| > budget {
        if budget < 0 { return false, []; }
        out := out[..budget];
      }
    }

    method Prune(before: Time, expiryDays: int)
      modifies this
      ensures data == Pruned(old(data), before, expiryDays)
    {
      hide TooOld;
      var left := data.Keys;
      ghost var d := data;
      while left != {}
        invariant left <= d.Keys
        invariant data == map id | id in d && (id in left || !Removed(d[id], before, expiryDays)) :: d[id]
        decreases left
      {
        var id :| id in left;
        left := left - {id};
        assert id in data && data[id] == d[id];
        if data[id].status == Expired {
          if TooOld(data[id], before, expiryDays) {
            data := data - {id};
          }
        }
      }
    }

    method Result(id: Str, status: Status, now: Time, minSuccess: int, minInterval: Duration) returns (r: Candidate)
      modifies this
      ensures r == Checked(Lookup(old(data), id), status, now, minSuccess, minInterval)
      ensures data == old(data)[id := r]
    {
      var c := Lookup(data, id);
      c := c.(lastCheckedAt := now);
      c := c.(status := status);
      if status == Qualified {
        if c.lastSuccessAt == ZERO_TIME || Sub(now, c.lastSuccessAt) >= minInterval {
          c := c.(successes := c.successes + 1);
          c := c.(lastSuccessAt := now);
        }
        if c.successes >= minSuccess {
          c := c.(status := Promoted);
        }
      }
      if status == NoConfig {
        c := c.(noConfigCount := c.noConfigCount + 1);
      }
      if status == NotFound {
        c := c.(notFoundCount := c.notFoundCount + 1);
      }
      data := data[id := c];
      r := c;
    }
  }

  function KindName(kind: Kind): Str
  {
    match kind
    case Channel => Ascii("channel")
    case Source => Ascii("source")
    case Unset => []
  }

  ghost function Chosen(d: Data, ids: set<Str>, kind: Kind, now: Time, expiryDays: int): set<Candidate>
  {
    set id | id in ids && id in d && Eligible(d[id], kind, now, expiryDays) :: d[id]
  }

  /** The map after the candidates in ids have been considered. */
  ghost function Visited(d: Data, ids: set<Str>, kind: Kind, now: Time, expiryDays: int): Data
  {
    map id | id in d :: if id in ids then Aged(d[id], kind, now, expiryDays) else d[id]
  }

  lemma NoneVisited(d: Data, kind: Kind, now: Time, expiryDays: int)
    ensures Chosen(d, {}, kind, now, expiryDays) == {} && Visited(d, {}, kind, now, expiryDays) == d
  {
  }

  lemma AllVisited(d: Data, done: set<Str>, kind: Kind, now: Time, expiryDays: int)
    requires d.Keys - done == {} && done <= d.Keys
    ensures Visited(d, done, kind, now, expiryDays) == AllAged(d, kind, now, expiryDays)
    ensures done == d.Keys
  {
    forall id | id in d.Keys ensures id in done {
      assert id !in d.Keys - done;
    }
  }

  lemma OfferOf(out: seq<Candidate>, d: Data, kind: Kind, now: Time, expiryDays: int)
    requires IsSorted(out, ScoreOrder) && multiset(out) == multiset(Chosen(d, d.Keys, kind, now, expiryDays))
    ensures Offer(out, d, kind, now, expiryDays)
  {
    hide Eligible, Score;
    assert Chosen(d, d.Keys, kind, now, expiryDays)
        == set id | id in d && Eligible(d[id], kind, now, expiryDays) :: d[id];
  }

  lemma VisitNext(d: Data, ids: set<Str>, id: Str, kind: Kind, now: Time, expiryDays: int)
    requires WellKeyed(d, kind) && id in d && id !in ids
    ensures var v := Visited(d, ids, kind, now, expiryDays);
      id in v && v[id] == d[id] && (d[id].kind == kind ==> d[id].id == id)
      && Visited(d, ids + {id}, kind, now, expiryDays) == v[id := Aged(d[id], kind, now, expiryDays)]
      && (d[id].kind != kind ==> Visited(d, ids + {id}, kind, now, expiryDays) == v)
    ensures Chosen(d, ids + {id}, kind, now, expiryDays)
         == Chosen(d, ids, kind, now, expiryDays) + if Eligible(d[id], kind, now, expiryDays) then {d[id]} else {}
    ensures d[id] !in Chosen(d, ids, kind, now, expiryDays)
  {
    hide TooOld;
  }

  lemma ScoreIsOrder()
    ensures TotalOrder(ScoreOrder)
  {
    hide Score;
  }

  /** The test of age means what it says, at every distance in time, exactly as long as that many days do not wrap
      around: with more, the saturated difference decides alike on both sides of the limit. */
  lemma AgeTestIff(days: int)
    ensures (forall c: Candidate, now :: TooOld(c, now, days) <==> now > c.firstSeenAt + days * 86_400_000_000_000)
        <==> -106_751 <= days <= 106_751
  {
    if -106_751 <= days <= 106_751 {
      forall c: Candidate, now ensures TooOld(c, now, days) <==> now > c.firstSeenAt + days * 86_400_000_000_000 {
        NoWrap(days);
      }
    } else {
      var c, limit := ZERO.(firstSeenAt := 0), days * 86_400_000_000_000;
      assert Sub(limit, 0) == Sub(limit + 1, 0);
      assert TooOld(c, limit, days) <==> TooOld(c, limit + 1, days);
    }
  }

  lemma NoWrap(days: int)
    requires -106_751 <= days <= 106_751
    ensures Days(days) == days * 86_400_000_000_000 && MIN_DURATION < Days(days) < MAX_DURATION
  {
  }

  /** What EligibleAll hands out and marks, in plain terms. */
  lemma OfferedByAge(out: seq<Candidate>, d: Data, kind: Kind, now: Time, days: int, id: Str)
    requires Offer(out, d, kind, now, days) && id in d && -106_751 <= days <= 106_751
    ensures var c, after := d[id], AllAged(d, kind, now, days);
      var open, limit := c.kind == kind && c.status != Promoted && c.status != Expired,
                         c.firstSeenAt + days * 86_400_000_000_000;
      && id in after
      && (open && now <= limit ==> c in out && after[id] == c)
      && (open && now > limit ==> c !in out && after[id] == c.(status := Expired))
      && (!open ==> c !in out && after[id] == c)
  {
    hide TooOld, ScoreOrder;
    AgeTestIff(days);
    OfferMembers(out, d, kind, now, days, d[id]);
  }

  lemma OfferMembers(out: seq<Candidate>, d: Data, kind: Kind, now: Time, days: int, c: Candidate)
    requires Offer(out, d, kind, now, days)
    ensures c in out <==> exists id :: id in d && d[id] == c && Eligible(c, kind, now, days)
  {
    hide Eligible, ScoreOrder;
    assert c in out <==> c in multiset(out);
    assert c in multiset(out) <==> c in set id | id in d && Eligible(d[id], kind, now, days) :: d[id];
  }

  /** Prune removes the expired candidates that are older than the limit at the date given, and nothing else. */
  lemma PrunedByAge(d: Data, before: Time, days: int, id: Str)
    requires -106_751 <= days <= 106_751
    ensures id in Pruned(d, before, days) <==>
      id in d && !(d[id].status == Expired && before > d[id].firstSeenAt + days * 86_400_000_000_000)
    ensures id in Pruned(d, before, days) ==> Pruned(d, before, days)[id] == d[id]
  {
    hide TooOld;
    AgeTestIff(days);
  }

  /** What each part of a candidate adds to its score, and that the best come first. */
  lemma ScoreWeights(c: Candidate, origin: Str, t: Time, seconds: int)
    requires origin !in c.origins
    ensures Score(c.(successes := c.successes + 1)) == Score(c) + 100
    ensures Score(c.(origins := c.origins[origin := t])) == Score(c) + 20
    ensures Score(c.(noConfigCount := c.noConfigCount + 1)) == Score(c) - 30
    ensures Score(c.(notFoundCount := c.notFoundCount + 1)) == Score(c) - 50
    ensures 0 <= seconds < 17 ==>
      Score(c.(lastSeenAt := seconds * 1_000_000_000)) == Score(c.(lastSeenAt := 0)) + seconds
    ensures Score(ZERO.(lastSeenAt := 0)) == 0
    ensures t >= 0 ==> Score(c.(lastSeenAt := t)) == Score(c.(lastSeenAt := t + 17_000_000_000))
  {
    if t >= 0 {
      assert Unix(t + 17_000_000_000) == Unix(t) + 17;
    }
  }

  lemma BestFirst(out: seq<Candidate>, d: Data, kind: Kind, now: Time, days: int, i: nat, j: nat)
    requires Offer(out, d, kind, now, days) && i < j < |out|
    ensures Score(out[i]) >= Score(out[j])
  {
    assert ScoreOrder(out[i], out[j]);
  }

  /** What a check changes, part by part. */
  lemma CheckedParts(c: Candidate, status: Status, now: Time, minSuccess: int, minInterval: Duration)
    requires -0x8000_0000_0000_0000 <= minInterval <= 0x7FFF_FFFF_FFFF_FFFF
    ensures var r := Checked(c, status, now, minSuccess, minInterval);
      var never, counted := c.lastSuccessAt == -719_162 * 86_400_000_000_000, r.successes - c.successes;
      var spaced := now >= c.lastSuccessAt + minInterval || minInterval == -0x8000_0000_0000_0000;
      && r.lastCheckedAt == now
      && counted == (if status == Qualified && (never || spaced) then 1 else 0)
      && r.lastSuccessAt == (if counted == 1 then now else c.lastSuccessAt)
      && r.noConfigCount == c.noConfigCount + (if status == NoConfig then 1 else 0)
      && r.notFoundCount == c.notFoundCount + (if status == NotFound then 1 else 0)
      && r.status == (if status == Qualified && r.successes >= minSuccess then Promoted else status)
      && r.id == c.id && r.kind == c.kind && r.value == c.value
      && r.firstSeenAt == c.firstSeenAt && r.lastSeenAt == c.lastSeenAt && r.origins == c.origins
  {
  }

  /** What an observation changes: a new candidate starts pending, a known one keeps all but when and where it was
      seen. */
  lemma ObservedParts(d: Data, id: Str, kind: Kind, value: Str, origin: Str, now: Time, other: Str)
    ensures var after := Observed(d, id, kind, value, origin, now);
      && id in after && after[id].lastSeenAt == now && origin in after[id].origins && after[id].origins[origin] == now
      && (id !in d ==> after[id].status == Pending && after[id].firstSeenAt == now && after[id].successes == 0
                       && after[id].id == id && after[id].kind == kind && after[id].value == value
                       && after[id].origins.Keys == {origin})
      && (id in d ==> after[id] == d[id].(lastSeenAt := now, origins := after[id].origins)
                      && after[id].origins - {origin} == d[id].origins - {origin})
      && (other != id ==> (other in after <==> other in d) && (other in d ==> after[other] == d[other]))
  {
  }

  /** The identifiers spelled out: the kind, a colon, the lowered value. */
  lemma IdSpells(store: CandidateStore, value: Str)
    ensures store.Id(Channel, value) == [99, 104, 97, 110, 110, 101, 108, 58] + store.lower(value)
    ensures store.Id(Source, value) == [115, 111, 117, 114, 99, 101, 58] + store.lower(value)
  {
    assert Ascii("channel") == [99, 104, 97, 110, 110, 101, 108];
    assert Ascii("source") == [115, 111, 117, 114, 99, 101];
  }
}
