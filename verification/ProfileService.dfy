/** Career aggregates, ratings and the two ways of listing the best players (player_profile_service.cpp). */
module ProfileServices {
  import opened Seqs
  import opened Sorting
  import opened MatchStats
  import opened Elo
  import opened Leaderboards

  datatype AggregateStats = AggregateStats(
    matches: nat, wins: nat, losses: nat, kills: nat, deaths: nat, shotsFired: nat, hitsLanded: nat,
    damageDealt: nat, damageTaken: nat, rating: int)

  const INITIAL_RATING := 1200
  const UNPLAYED: AggregateStats := AggregateStats(0, 0, 0, 0, 0, 0, 0, 0, 0, INITIAL_RATING)

  datatype PlayerProfile = PlayerProfile(playerId: string, stats: AggregateStats) {
    function Accuracy(): real {
      if stats.shotsFired == 0 then 0.0 else stats.hitsLanded as real / stats.shotsFired as real
    }
  }

  type Aggregates = map<string, AggregateStats>

  /** `aggregates_[id]`: a new player's entry when there is none. */
  function Of(aggs: Aggregates, id: string): AggregateStats {
    if id in aggs then aggs[id] else UNPLAYED
  }

  function Counted(a: AggregateStats, line: PlayerMatchStats): AggregateStats {
    a.(matches := a.matches + 1,
       shotsFired := a.shotsFired + line.shotsFired, hitsLanded := a.hitsLanded + line.hitsLanded,
       damageDealt := a.damageDealt + line.damageDealt, damageTaken := a.damageTaken + line.damageTaken,
       kills := a.kills + line.kills, deaths := a.deaths + line.deaths)
  }

  ghost function CountLines(aggs: Aggregates, lines: seq<PlayerMatchStats>): Aggregates {
    if lines == [] then aggs
    else
      var line, counted := lines[|lines| - 1], CountLines(aggs, lines[..|lines| - 1]);
      counted[line.playerId := Counted(Of(counted, line.playerId), line)]
  }

  /** The winner's and the loser's entries; a player recorded as beating himself keeps the loser's new rating. */
  ghost function Entered(aggs: Aggregates, winner: string, loser: string, u: Update): Aggregates {
    var w, l := Of(aggs, winner), Of(aggs, loser);
    if winner == loser then
      aggs[winner := w.(wins := w.wins + 1, losses := w.losses + 1, rating := u.loserNew)]
    else
      aggs[winner := w.(wins := w.wins + 1, rating := u.winnerNew)]
          [loser := l.(losses := l.losses + 1, rating := u.loserNew)]
  }

  ghost function Settle(aggs: Aggregates, winner: string, loser: string, expected: int -> real): Aggregates {
    Entered(aggs, winner, loser, Rate(Of(aggs, winner).rating, Of(aggs, loser).rating, expected))
  }

  lemma EnteredAfterCreation(aggs: Aggregates, winner: string, loser: string, u: Update)
    ensures var created := aggs[winner := Of(aggs, winner)];
      Entered(created[loser := Of(created, loser)], winner, loser, u) == Entered(aggs, winner, loser, u)
  {
  }

  /** Everything the service remembers; `board` is the leaderboard's contents when there is one. */
  datatype Books = Books(
    aggregates: Aggregates, board: Option<map<string, int>>, matchesRecorded: nat, ratingUpdates: nat)

  ghost function Record(b: Books, result: MatchResult, expected: int -> real): Books {
    var aggs := Settle(CountLines(b.aggregates, result.playerStats), result.winnerId, result.loserId, expected);
    Books(aggs,
          if b.board.None? then None
          else Some(b.board.value[result.winnerId := aggs[result.winnerId].rating]
                                 [result.loserId := aggs[result.loserId].rating]),
          b.matchesRecorded + 1, b.ratingUpdates + 2)
  }

  // ----- listing the best players -----

  ghost function Ratings(aggs: Aggregates): map<string, int> {
    map id | id in aggs :: aggs[id].rating
  }

  predicate RatesHigher(a: PlayerProfile, b: PlayerProfile) {
    if a.stats.rating != b.stats.rating then a.stats.rating > b.stats.rating else LexLess(a.playerId, b.playerId)
  }

  /** The profiles of the entries whose player is known, in the same order. */
  ghost function Profiles(entries: seq<Entry>, aggs: Aggregates): seq<PlayerProfile> {
    if entries == [] then []
    else
      var e := entries[|entries| - 1];
      Profiles(entries[..|entries| - 1], aggs) + (if e.id in aggs then [PlayerProfile(e.id, aggs[e.id])] else [])
  }

  lemma {:induction false} ProfilesAt(entries: seq<Entry>, aggs: Aggregates)
    requires forall e :: e in entries ==> e.id in aggs
    ensures |Profiles(entries, aggs)| == |entries|
    ensures forall k :: 0 <= k < |entries| ==>
      Profiles(entries, aggs)[k] == PlayerProfile(entries[k].id, aggs[entries[k].id])
  {
    if entries != [] {
      assert forall e :: e in entries[..|entries| - 1] ==> e in entries;
      ProfilesAt(entries[..|entries| - 1], aggs);
    }
  }

  lemma FirstOfProfiles(entries: seq<Entry>, aggs: Aggregates, n: nat)
    requires forall e :: e in entries ==> e.id in aggs
    ensures Profiles(First(entries, n), aggs) == First(Profiles(entries, aggs), n)
  {
    assert forall e :: e in First(entries, n) ==> e in entries;
    ProfilesAt(entries, aggs);
    ProfilesAt(First(entries, n), aggs);
  }

  function AsEntry(p: PlayerProfile): Entry {
    Entry(p.playerId, p.stats.rating)
  }

  ghost predicate HoldsAll(profiles: seq<PlayerProfile>, aggs: Aggregates, ids: set<string>) {
    && (forall p :: p in profiles <==> p.playerId in ids && p.playerId in aggs && p.stats == aggs[p.playerId])
    && (forall i, j :: 0 <= i < j < |profiles| ==> profiles[i].playerId != profiles[j].playerId)
  }

  lemma RatesHigherIsAnOrder(profiles: seq<PlayerProfile>, aggs: Aggregates)
    requires HoldsAll(profiles, aggs, aggs.Keys)
    ensures Transitive(RatesHigher) && Comparable(RatesHigher, profiles)
  {
    RanksBeforeIsAnOrder();
    forall a, b, c | RatesHigher(a, b) && RatesHigher(b, c) ensures RatesHigher(a, c) {
      assert RanksBefore(AsEntry(a), AsEntry(b)) && RanksBefore(AsEntry(b), AsEntry(c));
    }
    forall i, j | 0 <= i < j < |profiles|
      ensures RatesHigher(profiles[i], profiles[j]) || RatesHigher(profiles[j], profiles[i])
    {
      DifferentIdsRank(AsEntry(profiles[i]), AsEntry(profiles[j]));
    }
  }

  /** Sorting profiles by rating and id is ranking the ratings. */
  lemma SortIsRanking(profiles: seq<PlayerProfile>, aggs: Aggregates)
    requires HoldsAll(profiles, aggs, aggs.Keys)
    ensures Sort(RatesHigher, profiles) == Profiles(Ranking(Ratings(aggs)), aggs)
  {
    var sorted := Sort(RatesHigher, profiles);
    RatesHigherIsAnOrder(profiles, aggs);
    SortPermutes(RatesHigher, profiles);
    SortSorts(RatesHigher, profiles);
    var entries := seq(|sorted|, i requires 0 <= i < |sorted| => AsEntry(sorted[i]));
    EntriesOfProfiles(sorted, entries, aggs);
    RankingUnique(entries, Ratings(aggs));
    ProfilesAt(entries, aggs);
    forall k | 0 <= k < |sorted| ensures sorted[k] == Profiles(entries, aggs)[k] {
      assert sorted[k] in sorted && sorted[k] in profiles;
    }
  }

  lemma EntriesOfProfiles(sorted: seq<PlayerProfile>, entries: seq<Entry>, aggs: Aggregates)
    requires Sorted(RatesHigher, sorted) && |entries| == |sorted|
    requires forall p :: p in sorted <==> p.playerId in aggs && p.stats == aggs[p.playerId]
    requires forall k :: 0 <= k < |sorted| ==> entries[k] == AsEntry(sorted[k])
    ensures IsRanking(entries, Ratings(aggs)) && forall e :: e in entries ==> e.id in aggs
  {
    forall e ensures e in entries <==> e.id in aggs && aggs[e.id].rating == e.score {
      if e in entries {
        var k :| 0 <= k < |entries| && entries[k] == e;
        assert sorted[k] in sorted;
      }
      if e.id in aggs && aggs[e.id].rating == e.score {
        assert PlayerProfile(e.id, aggs[e.id]) in sorted;
        var k :| 0 <= k < |sorted| && sorted[k] == PlayerProfile(e.id, aggs[e.id]);
        assert entries[k] == e;
      }
    }
    forall i, j | 0 <= i < j < |entries| ensures RanksBefore(entries[i], entries[j]) {
      assert RatesHigher(sorted[i], sorted[j]);
    }
  }

  class PlayerProfileService {
    const expected: int -> real
    const leaderboard: InMemoryLeaderboardStore?
    var aggregates: Aggregates
    var matchesRecorded: nat
    var ratingUpdates: nat

    ghost predicate Valid()
      reads leaderboard
    {
      leaderboard != null ==> leaderboard.Valid()
    }

    ghost function Contents(): Books
      reads this, leaderboard
    {
      Books(aggregates, if leaderboard == null then None else Some(leaderboard.scores), matchesRecorded, ratingUpdates)
    }

    /** `expected` is the logistic curve that the rating calculator evaluates. */
    constructor (expected: int -> real, store: InMemoryLeaderboardStore?)
      requires store != null ==> store.Valid()
      ensures Valid() && this.expected == expected && leaderboard == store
      ensures Contents() == Books(map[], if store == null then None else Some(store.scores), 0, 0)
    {
      this.expected, leaderboard := expected, store;
      aggregates, matchesRecorded, ratingUpdates := map[], 0, 0;
    }

    method RecordMatch(result: MatchResult)
      requires Valid()
      modifies this, leaderboard
      ensures Valid() && Contents() == Record(old(Contents()), result, expected)
    {
      AccumulateLines(result.playerStats);
      SettleRatings(result.winnerId, result.loserId);
      if leaderboard != null {
        leaderboard.Upsert(result.winnerId, aggregates[result.winnerId].rating);
        leaderboard.Upsert(result.loserId, aggregates[result.loserId].rating);
      }
      matchesRecorded := matchesRecorded + 1;
    }

    method AccumulateLines(lines: seq<PlayerMatchStats>)
      modifies this`aggregates
      ensures aggregates == CountLines(old(aggregates), lines)
    {
      var k := 0;
      while k < |lines|
        invariant k <= |lines|
        invariant aggregates == CountLines(old(aggregates), lines[..k])
      {
        var id := lines[k].playerId;
        assert lines[..k + 1][..k] == lines[..k];
        aggregates := aggregates[id := Counted(Of(aggregates, id), lines[k])];
        k := k + 1;
      }
      assert lines[..k] == lines;
    }

    method SettleRatings(winner: string, loser: string)
      modifies this`aggregates, this`ratingUpdates
      ensures aggregates == Settle(old(aggregates), winner, loser, expected)
      ensures ratingUpdates == old(ratingUpdates) + 2
    {
      aggregates := aggregates[winner := Of(aggregates, winner)];
      aggregates := aggregates[loser := Of(aggregates, loser)];
      var update := Rate(aggregates[winner].rating, aggregates[loser].rating, expected);
      EnterResult(winner, loser, update);
      EnteredAfterCreation(old(aggregates), winner, loser, update);
      ratingUpdates := ratingUpdates + 2;
    }

    /** Each write goes through to the one entry when winner and loser coincide. */
    method EnterResult(winner: string, loser: string, update: Update)
      requires winner in aggregates && loser in aggregates
      modifies this`aggregates
      ensures aggregates == Entered(old(aggregates), winner, loser, update)
    {
      aggregates := aggregates[winner := aggregates[winner].(wins := aggregates[winner].wins + 1)];
      aggregates := aggregates[loser := aggregates[loser].(losses := aggregates[loser].losses + 1)];
      aggregates := aggregates[winner := aggregates[winner].(rating := update.winnerNew)];
      aggregates := aggregates[loser := aggregates[loser].(rating := update.loserNew)];
    }

    method GetProfile(id: string) returns (profile: Option<PlayerProfile>)
      ensures profile.Some? <==> id in aggregates
      ensures profile.Some? ==> profile.value.playerId == id && profile.value.stats == aggregates[id]
    {
      profile := if id in aggregates then Some(PlayerProfile(id, aggregates[id])) else None;
    }

    /** With a leaderboard its first entries, as far as they are known here; without, the first of all, sorted. */
    method TopProfiles(limit: nat) returns (profiles: seq<PlayerProfile>)
      requires Valid()
      ensures leaderboard == null ==> profiles == First(Profiles(Ranking(Ratings(aggregates)), aggregates), limit)
      ensures leaderboard != null ==> profiles == Profiles(First(Ranking(leaderboard.scores), limit), aggregates)
    {
      if leaderboard == null {
        profiles := AllProfiles();
        SortIsRanking(profiles, aggregates);
        profiles := Sort(RatesHigher, profiles);
        if |profiles| > limit {
          profiles := profiles[..limit];
        }
        return;
      }
      var entries := leaderboard.TopN(limit);
      profiles := [];
      var k := 0;
      while k < |entries|
        invariant k <= |entries|
        invariant profiles == Profiles(entries[..k], aggregates)
      {
        assert entries[..k + 1][..k] == entries[..k];
        if entries[k].id in aggregates {
          profiles := profiles + [PlayerProfile(entries[k].id, aggregates[entries[k].id])];
        }
        k := k + 1;
      }
      assert entries[..k] == entries;
    }

    /** One profile for each entry, in whatever order the hash map holds them. */
    method AllProfiles() returns (profiles: seq<PlayerProfile>)
      ensures HoldsAll(profiles, aggregates, aggregates.Keys)
    {
      profiles := [];
      var rest := aggregates.Keys;
      while rest != {}
        invariant rest <= aggregates.Keys
        invariant HoldsAll(profiles, aggregates, aggregates.Keys - rest)
        decreases rest
      {
        var id :| id in rest;
        assert forall p :: p in profiles ==> p.playerId != id;
        profiles := profiles + [PlayerProfile(id, aggregates[id])];
        rest := rest - {id};
      }
    }
  }
}
