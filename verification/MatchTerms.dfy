/** The terms of each match a pass makes, in rating points and seconds: who, where, at what average, what waits. */
module MatchTerms {
  import opened Seqs
  import opened MatchRequests
  import opened Greedy
  import opened MatchQueues
  import opened Notifications
  import opened Matchmakers
  import opened MatchingGuarantees

  /** The seconds a request has waited, in nanoseconds of the steady clock. */
  ghost function Seconds(r: MatchRequest, now: int): real {
    (now - r.enqueuedAt) as real / 1000000000.0
  }

  /** 100 points, and 25 more for every five seconds waited in full. */
  ghost predicate Tolerates(r: MatchRequest, distance: int, now: int) {
    distance <= 100 || (Seconds(r, now) > 0.0 && distance <= 100 + 25 * (Seconds(r, now) / 5.0).Floor)
  }

  ghost predicate BothTolerate(a: MatchRequest, b: MatchRequest, distance: int, now: int) {
    Tolerates(a, distance, now) && Tolerates(b, distance, now)
  }

  /** Both tolerate the distance of the ratings, and the regions are the same or one of them is any. */
  ghost predicate Welcome(a: MatchRequest, b: MatchRequest, now: int) {
    && BothTolerate(a, b, a.elo - b.elo, now) && BothTolerate(a, b, b.elo - a.elo, now)
    && (a.region == b.region || a.region == "any" || b.region == "any")
  }

  lemma ToleratesExactly(r: MatchRequest, distance: int, now: int)
    ensures Tolerates(r, distance, now) <==> distance <= r.CurrentTolerance(now)
  {
    ToleranceFromSeconds(r, now);
    assert r.WaitSeconds(now) == Seconds(r, now);
    if Seconds(r, now) > 0.0 {
      assert (Seconds(r, now) / 5.0).Floor >= 0;
    }
  }

  /** Who accepts whom, in points and seconds. */
  lemma AcceptableIsWelcome(a: MatchRequest, b: MatchRequest, now: int)
    ensures Acceptable(a, b, now) <==> Welcome(a, b, now)
  {
    ToleratesExactly(a, a.elo - b.elo, now);
    ToleratesExactly(a, b.elo - a.elo, now);
    ToleratesExactly(b, a.elo - b.elo, now);
    ToleratesExactly(b, b.elo - a.elo, now);
  }

  /** Both have the region, or take any. */
  ghost predicate PlayedIn(region: string, a: MatchRequest, b: MatchRequest) {
    && (region == a.region || region == b.region)
    && (a.region == "any" || region == a.region) && (b.region == "any" || region == b.region)
  }

  /** Between the two ratings: half their sum, the half point dropped towards zero. */
  ghost predicate Averages(average: int, a: int, b: int) {
    && (a <= average <= b || b <= average <= a)
    && (if a + b >= 0 then 2 * average <= a + b <= 2 * average + 1 else 2 * average - 1 <= a + b <= 2 * average)
  }

  ghost predicate Terms(m: Match, number: nat, a: MatchRequest, b: MatchRequest, now: int) {
    && m.id == number && m.players == [a.playerId, b.playerId] && m.createdAt == now
    && Averages(m.averageElo, a.elo, b.elo) && PlayedIn(m.region, a, b) && Welcome(a, b, now)
  }

  lemma TermsOfPair(pair: Pairing, number: nat, now: int)
    requires CanPair(pair.first, pair.second, now)
    ensures Terms(MatchOf(pair, number, now), number, pair.first.request, pair.second.request, now)
  {
    AcceptableIsWelcome(pair.first.request, pair.second.request, now);
  }

  /** The two waits of match `k` of a pass are the next ones observed. */
  ghost predicate WaitsObserved(before: seq<real>, after: seq<real>, k: nat,
                                a: MatchRequest, b: MatchRequest, now: int)
  {
    var n := |before| + 2 * k;
    n + 1 < |after| && after[n] == Seconds(a, now) && after[n + 1] == Seconds(b, now)
  }

  lemma {:induction false} WaitsAt(pairs: seq<Pairing>, now: int, k: nat)
    ensures |WaitsOf(pairs, now)| == 2 * |pairs|
    ensures k < |pairs| ==>
      WaitsObserved([], WaitsOf(pairs, now), k, pairs[k].first.request, pairs[k].second.request, now)
  {
    if pairs != [] {
      WaitsAt(pairs[..|pairs| - 1], now, k);
    }
  }

  lemma WaitsLater(before: seq<real>, waits: seq<real>, k: nat, a: MatchRequest, b: MatchRequest, now: int)
    requires WaitsObserved([], waits, k, a, b, now)
    ensures WaitsObserved(before, before + waits, k, a, b, now)
  {
  }

  ghost predicate MadeOnTerms(m: Match, p: Pass, k: nat) {
    && |m.players| == 2 && m.players[0] in p.before && m.players[1] in p.before && m.players[0] != m.players[1]
    && var a, b := p.before[m.players[0]].request, p.before[m.players[1]].request;
       Terms(m, p.base + k + 1, a, b, p.now) && WaitsObserved(p.waitsBefore, p.waitsAfter, k, a, b, p.now)
  }

  lemma PairOnTerms(p: Pass, pair: Pairing, k: nat)
    requires CanPair(pair.first, pair.second, p.now) && IdOf(pair.first) != IdOf(pair.second)
    requires Queued(pair.first, p.before) && Queued(pair.second, p.before)
    requires WaitsObserved(p.waitsBefore, p.waitsAfter, k, pair.first.request, pair.second.request, p.now)
    ensures MadeOnTerms(MatchOf(pair, p.base + k + 1, p.now), p, k)
  {
    TermsOfPair(pair, p.base + k + 1, p.now);
  }

  lemma PairsOnTerms(p: Pass, pairs: seq<Pairing>)
    requires FairPairs(pairs, p.before, p.now) && p.waitsAfter == p.waitsBefore + WaitsOf(pairs, p.now)
    ensures |p.waitsAfter| == |p.waitsBefore| + 2 * |pairs|
    ensures forall k :: 0 <= k < |pairs| ==> MadeOnTerms(MatchOf(pairs[k], p.base + k + 1, p.now), p, k)
  {
    WaitsAt(pairs, p.now, 0);
    forall k | 0 <= k < |pairs| ensures MadeOnTerms(MatchOf(pairs[k], p.base + k + 1, p.now), p, k) {
      var pair := pairs[k];
      WaitsAt(pairs, p.now, k);
      WaitsLater(p.waitsBefore, WaitsOf(pairs, p.now), k, pair.first.request, pair.second.request, p.now);
      PairOnTerms(p, pair, k);
    }
  }

  /**
   * Every match of a pass is made now between two queued players within 100 points and 25 more for every five seconds
   * each has waited, in a region both play in, at the average of their ratings, under the next number; and exactly the
   * two waits of each match, in order, are observed.
   */
  lemma MatchesAreOnTerms(p: Pass)
    requires Ran(p)
    ensures |p.waitsAfter| == |p.waitsBefore| + 2 * |p.matches| && p.waitsBefore <= p.waitsAfter
    ensures forall k :: 0 <= k < |p.matches| ==> MadeOnTerms(p.matches[k], p, k)
  {
    var pairs := PairsAreFair(p);
    PairsOnTerms(p, pairs);
  }

  // ----- the exported histogram -----

  ghost function Within(seconds: real): real -> bool {
    (w: real) => w <= seconds
  }

  lemma {:induction false} SameWithin(waits: seq<real>, bound: real)
    ensures Count(waits, AtMost(bound)) == Count(waits, Within(bound))
  {
    if waits != [] {
      SameWithin(waits[..|waits| - 1], bound);
    }
  }

  /** The waits of at most 0, 5, 10, 20, 40 and 80 seconds, and those beyond. */
  ghost predicate CountsBySeconds(counts: seq<nat>, overflow: nat, waits: seq<real>)
    requires |counts| == 6
  {
    && SumUpTo(counts, 0) == Count(waits, Within(0.0)) && SumUpTo(counts, 1) == Count(waits, Within(5.0))
    && SumUpTo(counts, 2) == Count(waits, Within(10.0)) && SumUpTo(counts, 3) == Count(waits, Within(20.0))
    && SumUpTo(counts, 4) == Count(waits, Within(40.0)) && SumUpTo(counts, 5) == Count(waits, Within(80.0))
    && SumUpTo(counts, 5) + overflow == |waits|
  }

  lemma HistogramBySeconds(counts: seq<nat>, overflow: nat, waits: seq<real>)
    requires Tallied(counts, overflow, waits)
    ensures CountsBySeconds(counts, overflow, waits)
  {
    forall i | 0 <= i < BUCKETS ensures SumUpTo(counts, i) == Count(waits, Within(BOUNDS[i])) {
      CumulativeBucket(counts, overflow, waits, i);
      SameWithin(waits, BOUNDS[i]);
    }
    BucketsCoverWaits(counts, overflow, waits);
    assert BOUNDS == [0.0, 5.0, 10.0, 20.0, 40.0, 80.0];
  }
}
