/** What any sequence of recorded matches leaves behind: totals, rating drift, the leaderboard, accuracies. */
module RatingRuns {
  import opened Seqs
  import opened MapSums
  import opened Sorting
  import opened Combat
  import opened SessionModel
  import opened SessionInvariants
  import opened SessionRuns
  import opened MatchStats
  import opened ExactStats
  import opened Elo
  import opened Leaderboards
  import opened ProfileServices

  ghost function AfterMatches(results: seq<MatchResult>, expected: int -> real, ranked: bool): Books {
    if results == [] then Books(map[], if ranked then Some(map[]) else None, 0, 0)
    else Record(AfterMatches(results[..|results| - 1], expected, ranked), results[|results| - 1], expected)
  }

  // ----- totals over all players -----

  function Wins(): AggregateStats -> int { (a: AggregateStats) => a.wins }

  function Losses(): AggregateStats -> int { (a: AggregateStats) => a.losses }

  function Rating(): AggregateStats -> int { (a: AggregateStats) => a.rating }

  function Excess(): AggregateStats -> int { (a: AggregateStats) => a.rating - INITIAL_RATING }

  function DealtBy(): AggregateStats -> int { (a: AggregateStats) => a.damageDealt }

  function TakenBy(): AggregateStats -> int { (a: AggregateStats) => a.damageTaken }

  lemma TotalUpdate(aggs: Aggregates, id: string, a: AggregateStats, f: AggregateStats -> int)
    requires f(UNPLAYED) == 0
    ensures Sum(aggs[id := a], f) == Sum(aggs, f) - f(Of(aggs, id)) + f(a)
  {
    SumUpdate(aggs, id, a, f);
  }

  lemma RatingsOverExcess(aggs: Aggregates)
    ensures Sum(aggs, Rating()) == Sum(aggs, Excess()) + INITIAL_RATING * |aggs|
  {
  }

  lemma {:induction false} KeptByLines(aggs: Aggregates, lines: seq<PlayerMatchStats>, f: AggregateStats -> int)
    requires f(UNPLAYED) == 0 && forall a, line :: f(Counted(a, line)) == f(a)
    ensures Sum(CountLines(aggs, lines), f) == Sum(aggs, f)
  {
    if lines != [] {
      var line, counted := lines[|lines| - 1], CountLines(aggs, lines[..|lines| - 1]);
      KeptByLines(aggs, lines[..|lines| - 1], f);
      TotalUpdate(counted, line.playerId, Counted(Of(counted, line.playerId), line), f);
    }
  }

  lemma {:induction false} DamageOfLines(aggs: Aggregates, lines: seq<PlayerMatchStats>)
    ensures Sum(CountLines(aggs, lines), DealtBy()) == Sum(aggs, DealtBy()) + TotalDealt(lines)
    ensures Sum(CountLines(aggs, lines), TakenBy()) == Sum(aggs, TakenBy()) + TotalTaken(lines)
  {
    if lines != [] {
      var line, counted := lines[|lines| - 1], CountLines(aggs, lines[..|lines| - 1]);
      DamageOfLines(aggs, lines[..|lines| - 1]);
      TotalUpdate(counted, line.playerId, Counted(Of(counted, line.playerId), line), DealtBy());
      TotalUpdate(counted, line.playerId, Counted(Of(counted, line.playerId), line), TakenBy());
    }
  }

  /** Entering a result moves a total by what it moves at the two players. */
  lemma TotalAfterEntry(aggs: Aggregates, winner: string, loser: string, u: Update, f: AggregateStats -> int)
    requires f(UNPLAYED) == 0
    ensures var after := Entered(aggs, winner, loser, u);
      Sum(after, f) == Sum(aggs, f) + f(after[loser]) - f(Of(aggs, loser))
        + (if winner == loser then 0 else f(after[winner]) - f(Of(aggs, winner)))
  {
    var after := Entered(aggs, winner, loser, u);
    TotalUpdate(aggs, winner, after[winner], f);
    if winner != loser {
      TotalUpdate(aggs[winner := after[winner]], loser, after[loser], f);
    }
  }

  // ----- wins, losses and the counters -----

  ghost predicate Tallied(b: Books, matches: nat) {
    && Sum(b.aggregates, Wins()) == Sum(b.aggregates, Losses()) == b.matchesRecorded == matches
    && b.ratingUpdates == 2 * matches
  }

  lemma TalliedStep(b: Books, result: MatchResult, expected: int -> real, matches: nat)
    requires Tallied(b, matches)
    ensures Tallied(Record(b, result, expected), matches + 1)
  {
    var counted := CountLines(b.aggregates, result.playerStats);
    var u := Rate(Of(counted, result.winnerId).rating, Of(counted, result.loserId).rating, expected);
    KeptByLines(b.aggregates, result.playerStats, Wins());
    KeptByLines(b.aggregates, result.playerStats, Losses());
    TotalAfterEntry(counted, result.winnerId, result.loserId, u, Wins());
    TotalAfterEntry(counted, result.winnerId, result.loserId, u, Losses());
  }

  /** Summed over all players, wins and losses both equal the number of matches recorded. */
  lemma {:induction false} EveryMatchIsWonAndLost(results: seq<MatchResult>, expected: int -> real, ranked: bool)
    ensures Tallied(AfterMatches(results, expected, ranked), |results|)
  {
    if results == [] {
    } else {
      var past := results[..|results| - 1];
      EveryMatchIsWonAndLost(past, expected, ranked);
      TalliedStep(AfterMatches(past, expected, ranked), results[|results| - 1], expected, |past|);
    }
  }

  // ----- rating drift -----

  ghost function SelfMatches(results: seq<MatchResult>): nat {
    Count(results, (r: MatchResult) => r.winnerId == r.loserId)
  }

  /** How far the ratings may have left 1200 on average: one point a match, and 12 or 13 down for each self-match. */
  ghost predicate DriftBounded(aggs: Aggregates, matches: nat, selfMatches: nat) {
    && selfMatches <= matches
    && var drift := Sum(aggs, Rating()) - INITIAL_RATING * |aggs|;
       -(matches - selfMatches) - 13 * selfMatches <= drift <= (matches - selfMatches) - 12 * selfMatches
  }

  /** The ratings' sum moves exactly as rounding moves it: by the shift of `SumMoves`, or a self-match's loss. */
  ghost function RoundingShift(winner: int, loser: int, same: bool, expected: int -> real): int {
    var g := Gain(winner, loser, expected);
    if same then (if loser >= 13 then -12 else -13)
    else if !HalfInteger(g) then 0
    else if winner as real + g >= 0.0 && loser as real - g >= 0.0 then 1
    else if winner as real + g < 0.0 && loser as real - g < 0.0 then -1
    else 0
  }

  lemma ExcessAfterRecord(b: Books, result: MatchResult, expected: int -> real)
    requires Logistic(expected)
    ensures var counted := CountLines(b.aggregates, result.playerStats);
      Sum(Record(b, result, expected).aggregates, Excess()) == Sum(b.aggregates, Excess()) + RoundingShift(
        Of(counted, result.winnerId).rating, Of(counted, result.loserId).rating,
        result.winnerId == result.loserId, expected)
  {
    var counted := CountLines(b.aggregates, result.playerStats);
    var w, l := Of(counted, result.winnerId).rating, Of(counted, result.loserId).rating;
    KeptByLines(b.aggregates, result.playerStats, Excess());
    TotalAfterEntry(counted, result.winnerId, result.loserId, Rate(w, l, expected), Excess());
    if result.winnerId == result.loserId {
      SelfMatch(l, expected);
    } else {
      SumMoves(w, l, expected);
    }
  }

  lemma DriftStep(b: Books, result: MatchResult, expected: int -> real, matches: nat, selfMatches: nat)
    requires Logistic(expected) && DriftBounded(b.aggregates, matches, selfMatches)
    ensures DriftBounded(Record(b, result, expected).aggregates, matches + 1,
                         selfMatches + if result.winnerId == result.loserId then 1 else 0)
  {
    RatingsOverExcess(b.aggregates);
    RatingsOverExcess(Record(b, result, expected).aggregates);
    ExcessAfterRecord(b, result, expected);
  }

  /** After any matches: the sum of ratings is within one point a match of 1200 a player, self-matches counted apart. */
  lemma {:induction false} RatingsDriftSlowly(results: seq<MatchResult>, expected: int -> real, ranked: bool)
    requires Logistic(expected)
    ensures DriftBounded(AfterMatches(results, expected, ranked).aggregates, |results|, SelfMatches(results))
  {
    if results == [] {
    } else {
      var past, last := results[..|results| - 1], results[|results| - 1];
      RatingsDriftSlowly(past, expected, ranked);
      DriftStep(AfterMatches(past, expected, ranked), last, expected, |past|, SelfMatches(past));
    }
  }

  // ----- the leaderboard -----

  predicate Decided(a: AggregateStats) {
    a.wins > 0 || a.losses > 0
  }

  /** The leaderboard holds exactly the players who have won or lost, each at the rating in the aggregates. */
  ghost predicate BoardAgrees(b: Books) {
    b.board.Some? ==>
      && (forall id :: id in b.board.value <==> id in b.aggregates && Decided(b.aggregates[id]))
      && (forall id :: id in b.board.value ==> b.board.value[id] == b.aggregates[id].rating)
  }

  ghost predicate SameStanding(before: Aggregates, after: Aggregates) {
    && (forall id :: id in before ==> id in after)
    && (forall id :: id in after ==>
          && after[id].wins == Of(before, id).wins && after[id].losses == Of(before, id).losses
          && after[id].rating == Of(before, id).rating)
  }

  lemma {:induction false} LinesKeepStanding(aggs: Aggregates, lines: seq<PlayerMatchStats>)
    ensures SameStanding(aggs, CountLines(aggs, lines))
  {
    if lines != [] {
      LinesKeepStanding(aggs, lines[..|lines| - 1]);
    }
  }

  lemma BoardStep(b: Books, result: MatchResult, expected: int -> real)
    requires BoardAgrees(b)
    ensures BoardAgrees(Record(b, result, expected))
  {
    LinesKeepStanding(b.aggregates, result.playerStats);
  }

  lemma {:induction false} BoardHoldsTheDecided(results: seq<MatchResult>, expected: int -> real, ranked: bool)
    ensures BoardAgrees(AfterMatches(results, expected, ranked))
    ensures AfterMatches(results, expected, ranked).board.Some? <==> ranked
  {
    if results != [] {
      var past := results[..|results| - 1];
      BoardHoldsTheDecided(past, expected, ranked);
      BoardStep(AfterMatches(past, expected, ranked), results[|results| - 1], expected);
    }
  }

  lemma {:induction false} ProfilesFilter(entries: seq<Entry>, aggs: Aggregates,
                                          p: Entry -> bool, q: PlayerProfile -> bool)
    requires forall e :: e in entries ==> e.id in aggs && p(e) == q(PlayerProfile(e.id, aggs[e.id]))
    ensures Profiles(Filter(entries, p), aggs) == Filter(Profiles(entries, aggs), q)
  {
    if entries != [] {
      var init, e := entries[..|entries| - 1], entries[|entries| - 1];
      assert forall x :: x in init ==> x in entries;
      ProfilesFilter(init, aggs, p, q);
      var profile := PlayerProfile(e.id, aggs[e.id]);
      assert (Profiles(init, aggs) + [profile])[..|Profiles(init, aggs)|] == Profiles(init, aggs);
      assert (Filter(init, p) + [e])[..|Filter(init, p)|] == Filter(init, p);
      assert Filter(init, p) + [] == Filter(init, p);
    }
  }

  lemma BoardRanking(aggs: Aggregates, board: map<string, int>)
    requires BoardAgrees(Books(aggs, Some(board), 0, 0))
    ensures Ranking(board) == Filter(Ranking(Ratings(aggs)), (e: Entry) => e.id in aggs && Decided(aggs[e.id]))
  {
    var all, p := Ranking(Ratings(aggs)), (e: Entry) => e.id in aggs && Decided(aggs[e.id]);
    RankingIsRanking(Ratings(aggs));
    FilterSorted(RanksBefore, all, p);
    FilterMembers(all, p);
    RankingUnique(Filter(all, p), board);
  }

  /** Both ways of answering `TopProfiles` agree: through the board, or by sorting everyone and keeping the decided. */
  lemma BoardMatchesSort(b: Books, limit: nat)
    requires b.board.Some? && BoardAgrees(b)
    ensures Profiles(First(Ranking(b.board.value), limit), b.aggregates) ==
      First(Filter(Profiles(Ranking(Ratings(b.aggregates)), b.aggregates),
                   (p: PlayerProfile) => Decided(p.stats)), limit)
  {
    var aggs, board := b.aggregates, b.board.value;
    var p, q := (e: Entry) => e.id in aggs && Decided(aggs[e.id]), (p: PlayerProfile) => Decided(p.stats);
    BoardRanking(aggs, board);
    RankingIsRanking(Ratings(aggs));
    RankingIsRanking(board);
    ProfilesFilter(Ranking(Ratings(aggs)), aggs, p, q);
    FirstOfProfiles(Ranking(board), aggs, limit);
  }

  // ----- accuracy and damage -----

  ghost predicate HitsCovered(aggs: Aggregates) {
    forall id :: id in aggs ==> aggs[id].hitsLanded <= aggs[id].shotsFired
  }

  lemma {:induction false} LinesCovered(aggs: Aggregates, lines: seq<PlayerMatchStats>)
    requires HitsCovered(aggs) && forall line :: line in lines ==> line.hitsLanded <= line.shotsFired
    ensures HitsCovered(CountLines(aggs, lines))
  {
    if lines != [] {
      assert forall line :: line in lines[..|lines| - 1] ==> line in lines;
      LinesCovered(aggs, lines[..|lines| - 1]);
      assert lines[|lines| - 1] in lines;
    }
  }

  lemma DamageAfterRecord(b: Books, result: MatchResult, expected: int -> real)
    requires Sum(b.aggregates, DealtBy()) == Sum(b.aggregates, TakenBy())
    requires TotalDealt(result.playerStats) == TotalTaken(result.playerStats)
    ensures var after := Record(b, result, expected).aggregates; Sum(after, DealtBy()) == Sum(after, TakenBy())
  {
    var counted := CountLines(b.aggregates, result.playerStats);
    var u := Rate(Of(counted, result.winnerId).rating, Of(counted, result.loserId).rating, expected);
    DamageOfLines(b.aggregates, result.playerStats);
    TotalAfterEntry(counted, result.winnerId, result.loserId, u, DealtBy());
    TotalAfterEntry(counted, result.winnerId, result.loserId, u, TakenBy());
  }

  // ----- matches the sessions themselves report -----

  ghost predicate CollectedIn(result: MatchResult, run: Run, death: CombatEvent) {
    && Legal(run)
    && death in Final(run).pendingDeaths
    && IsReport(result, death, Final(run).players, Final(run).log)
  }

  /** A result that the collector made of a death pending in some reachable session. */
  ghost predicate Collected(result: MatchResult) {
    exists run, death :: CollectedIn(result, run, death)
  }

  ghost predicate SoundResult(result: MatchResult) {
    && result.winnerId != result.loserId
    && (forall line :: line in result.playerStats ==> line.hitsLanded <= line.shotsFired)
    && TotalDealt(result.playerStats) == TotalTaken(result.playerStats)
  }

  lemma {:induction false} NobodyKillsHimself(t: Trace, death: CombatEvent)
    requires SoundTrace(t) && death in Deaths(t)
    ensures death.shooterId != death.targetId
  {
    if t.mark.Died? {
      if death != t.mark.death {
        NobodyKillsHimself(t.past, death);
      }
    } else {
      NobodyKillsHimself(t.past, death);
    }
  }

  lemma DeathsNameTwo(s: Session, death: CombatEvent)
    requires Inv(s) && death in s.pendingDeaths
    ensures death.shooterId != death.targetId
  {
    assert death in s.history.consumed + s.pendingDeaths;
    NobodyKillsHimself(s.history.trace, death);
  }

  lemma CollectedIsSound(result: MatchResult)
    requires Collected(result)
    ensures SoundResult(result)
  {
    var run, death :| CollectedIn(result, run, death);
    EveryRun(run);
    DeathsNameTwo(Final(run), death);
    AccuracyIsAFraction(run, result, death);
    DamageBalances(result, death, Final(run).players, Final(run).log);
  }

  /**
   * Every accuracy is a fraction, damage is conserved, and the ratings sum to within a point a match of 1200 a
   * player.
   */
  ghost predicate SoundCareer(aggs: Aggregates, matches: nat) {
    && (forall id :: id in aggs ==> 0.0 <= PlayerProfile(id, aggs[id]).Accuracy() <= 1.0)
    && Sum(aggs, DealtBy()) == Sum(aggs, TakenBy())
    && var drift := Sum(aggs, Rating()) - INITIAL_RATING * |aggs|; drift <= matches && -drift <= matches
  }

  lemma {:induction false} CareerOfSound(results: seq<MatchResult>, expected: int -> real, ranked: bool)
    requires forall result :: result in results ==> SoundResult(result)
    ensures var aggs := AfterMatches(results, expected, ranked).aggregates;
      HitsCovered(aggs) && Sum(aggs, DealtBy()) == Sum(aggs, TakenBy()) && SelfMatches(results) == 0
  {
    if results == [] {
    } else {
      var past, last := results[..|results| - 1], results[|results| - 1];
      assert forall result :: result in past ==> result in results;
      CareerOfSound(past, expected, ranked);
      assert last in results;
      LinesCovered(AfterMatches(past, expected, ranked).aggregates, last.playerStats);
      DamageAfterRecord(AfterMatches(past, expected, ranked), last, expected);
    }
  }

  /**
   * From the simulation to the profiles: whatever matches reachable sessions report, the careers they add up to are
   * sound.
   */
  lemma CareersAreSound(results: seq<MatchResult>, expected: int -> real, ranked: bool)
    requires Logistic(expected) && forall result :: result in results ==> Collected(result)
    ensures SoundCareer(AfterMatches(results, expected, ranked).aggregates, |results|)
  {
    forall result | result in results ensures SoundResult(result) {
      CollectedIsSound(result);
    }
    CareerOfSound(results, expected, ranked);
    RatingsDriftSlowly(results, expected, ranked);
    var aggs := AfterMatches(results, expected, ranked).aggregates;
    forall id | id in aggs ensures 0.0 <= PlayerProfile(id, aggs[id]).Accuracy() <= 1.0 {
      if aggs[id].shotsFired > 0 {
        FractionOfOne(aggs[id].hitsLanded, aggs[id].shotsFired);
      }
    }
  }
}
