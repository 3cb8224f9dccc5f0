/** What each profile says after any sequence of matches: wins, losses, totals, rating; and who is listed best. */
module Standings {
  import opened Seqs
  import opened Reals
  import opened Sorting
  import opened MatchStats
  import opened Elo
  import opened Leaderboards
  import opened ProfileServices
  import opened RatingRuns
  import opened CareerTotals

  // ----- wins and losses -----

  ghost function WonBy(id: string): MatchResult -> bool {
    (r: MatchResult) => r.winnerId == id
  }

  ghost function LostBy(id: string): MatchResult -> bool {
    (r: MatchResult) => r.loserId == id
  }

  /** A player has won the results that name him as winner, and lost those that name him as loser. */
  ghost predicate Standing(a: AggregateStats, results: seq<MatchResult>, id: string) {
    a.wins == Count(results, WonBy(id)) && a.losses == Count(results, LostBy(id))
  }

  lemma {:induction false} EveryStanding(results: seq<MatchResult>, expected: int -> real, ranked: bool, id: string)
    ensures Standing(Of(AfterMatches(results, expected, ranked).aggregates, id), results, id)
  {
    if results != [] {
      var past, last := results[..|results| - 1], results[|results| - 1];
      EveryStanding(past, expected, ranked, id);
      LinesKeepStanding(AfterMatches(past, expected, ranked).aggregates, last.playerStats);
    }
  }

  // ----- ratings -----

  /** `now` is one of the integers nearest to `exact`. */
  predicate Nearest(now: int, exact: real) {
    exact - 0.5 <= now as real <= exact + 0.5
  }

  /**
   * The winner gains 25 points times his expected shortfall and the loser loses 25 times what was expected of him, to
   * the nearest point; against himself a player loses 12 or 13. Nobody else's rating moves.
   */
  ghost predicate RatingsMove(before: Aggregates, after: Aggregates, winner: string, loser: string,
                              expected: int -> real)
  {
    var w, l := Of(before, winner).rating, Of(before, loser).rating;
    && winner in after && loser in after
    && (if winner == loser then 12 <= w - after[winner].rating <= 13
        else
          && Nearest(after[winner].rating, w as real + 25.0 * (1.0 - expected(w - l)))
          && Nearest(after[loser].rating, l as real - 25.0 * expected(l - w))
          && 0 <= after[winner].rating - w <= 25 && 0 <= l - after[loser].rating <= 25)
    && forall id :: id != winner && id != loser ==> Of(after, id).rating == Of(before, id).rating
  }

  lemma OneMatchMoves(b: Books, result: MatchResult, expected: int -> real)
    requires Logistic(expected)
    ensures RatingsMove(b.aggregates, Record(b, result, expected).aggregates, result.winnerId, result.loserId, expected)
  {
    LinesKeepStanding(b.aggregates, result.playerStats);
    var w, l := Of(b.aggregates, result.winnerId).rating, Of(b.aggregates, result.loserId).rating;
    if result.winnerId == result.loserId {
      SelfMatch(l, expected);
    } else {
      Movement(w, l, expected);
      RateIsNearest(w, l, expected);
    }
  }

  /** 1200 to begin with, at most 25 up for each win and at most 25 down for each loss. */
  ghost predicate RatingInBounds(rating: int, won: nat, lost: nat) {
    1200 - 25 * lost <= rating <= 1200 + 25 * won
  }

  lemma {:induction false} EveryRating(results: seq<MatchResult>, expected: int -> real, ranked: bool, id: string)
    requires Logistic(expected)
    ensures RatingInBounds(Of(AfterMatches(results, expected, ranked).aggregates, id).rating,
                           Count(results, WonBy(id)), Count(results, LostBy(id)))
  {
    if results != [] {
      var past, last := results[..|results| - 1], results[|results| - 1];
      EveryRating(past, expected, ranked, id);
      OneMatchMoves(AfterMatches(past, expected, ranked), last, expected);
    }
  }

  // ----- the other totals -----

  /** One match for each line about the player, and the sums of what those lines report. */
  ghost predicate Totals(a: AggregateStats, results: seq<MatchResult>, id: string) {
    && a.matches == InResults(results, id, (line: PlayerMatchStats) => 1)
    && a.kills == InResults(results, id, (line: PlayerMatchStats) => line.kills)
    && a.deaths == InResults(results, id, (line: PlayerMatchStats) => line.deaths)
    && a.shotsFired == InResults(results, id, (line: PlayerMatchStats) => line.shotsFired)
    && a.hitsLanded == InResults(results, id, (line: PlayerMatchStats) => line.hitsLanded)
    && a.damageDealt == InResults(results, id, (line: PlayerMatchStats) => line.damageDealt)
    && a.damageTaken == InResults(results, id, (line: PlayerMatchStats) => line.damageTaken)
  }

  lemma EveryTotal(results: seq<MatchResult>, expected: int -> real, ranked: bool, id: string)
    ensures Totals(Of(AfterMatches(results, expected, ranked).aggregates, id), results, id)
  {
    CareerIsTheSum(results, expected, ranked, id, (a: AggregateStats) => a.matches, (line: PlayerMatchStats) => 1);
    CareerIsTheSum(results, expected, ranked, id,
                   (a: AggregateStats) => a.kills, (line: PlayerMatchStats) => line.kills);
    CareerIsTheSum(results, expected, ranked, id,
                   (a: AggregateStats) => a.deaths, (line: PlayerMatchStats) => line.deaths);
    CareerIsTheSum(results, expected, ranked, id,
                   (a: AggregateStats) => a.shotsFired, (line: PlayerMatchStats) => line.shotsFired);
    CareerIsTheSum(results, expected, ranked, id,
                   (a: AggregateStats) => a.hitsLanded, (line: PlayerMatchStats) => line.hitsLanded);
    CareerIsTheSum(results, expected, ranked, id,
                   (a: AggregateStats) => a.damageDealt, (line: PlayerMatchStats) => line.damageDealt);
    CareerIsTheSum(results, expected, ranked, id,
                   (a: AggregateStats) => a.damageTaken, (line: PlayerMatchStats) => line.damageTaken);
  }

  /** Accuracy is hits for each shot, and zero without shots. */
  lemma AccuracyIsHitsPerShot(profile: PlayerProfile, line: PlayerMatchStats)
    ensures Mul(profile.Accuracy(), profile.stats.shotsFired as real) ==
      if profile.stats.shotsFired == 0 then 0.0 else profile.stats.hitsLanded as real
    ensures Mul(line.Accuracy(), line.shotsFired as real) ==
      if line.shotsFired == 0 then 0.0 else line.hitsLanded as real
    ensures profile.stats.shotsFired == 0 ==> profile.Accuracy() == 0.0
    ensures line.shotsFired == 0 ==> line.Accuracy() == 0.0
  {
    if profile.stats.shotsFired > 0 {
      DivideBack(profile.stats.hitsLanded as real, profile.stats.shotsFired as real);
    }
    if line.shotsFired > 0 {
      DivideBack(line.hitsLanded as real, line.shotsFired as real);
    }
  }

  // ----- the best players -----

  /** No listed player is rated below one listed later, and of equals the smaller id comes first. */
  ghost predicate BestFirst(top: seq<Entry>) {
    forall i, j :: 0 <= i < j < |top| ==>
      top[i].score >= top[j].score && (top[i].score == top[j].score ==> LexLess(top[i].id, top[j].id))
  }

  /** Nobody left out is rated above anybody listed, and with an equal rating has the larger id. */
  ghost predicate NobodyBetter(top: seq<Entry>, scores: map<string, int>) {
    forall i, id :: 0 <= i < |top| && id in scores && Entry(id, scores[id]) !in top ==>
      scores[id] <= top[i].score && (scores[id] == top[i].score ==> LexLess(top[i].id, id))
  }

  lemma TopIsBest(scores: map<string, int>, n: nat)
    ensures var top := First(Ranking(scores), n);
      && |top| == (if n <= |scores| then n else |scores|)
      && (forall e :: e in top ==> e.id in scores && scores[e.id] == e.score)
      && BestFirst(top) && NobodyBetter(top, scores)
  {
    RankingIsRanking(scores);
    var all, top := Ranking(scores), First(Ranking(scores), n);
    assert BestFirst(top) by {
      assert forall i, j :: 0 <= i < j < |top| ==> RanksBefore(top[i], top[j]);
    }
    forall e | e in top ensures e.id in scores && scores[e.id] == e.score {
      assert e in all;
    }
    forall i, id | 0 <= i < |top| && id in scores && Entry(id, scores[id]) !in top
      ensures scores[id] <= top[i].score && (scores[id] == top[i].score ==> LexLess(top[i].id, id))
    {
      assert Entry(id, scores[id]) in all;
      var j :| 0 <= j < |all| && all[j] == Entry(id, scores[id]);
      assert j >= |top|;
      assert RanksBefore(all[i], all[j]);
    }
  }
}
