/** What every collected report guarantees: damage balances, accuracy is a fraction; and when the log is lossless. */
module ExactStats {
  import opened Seqs
  import opened Sorting
  import opened Combat
  import opened SessionModel
  import opened SessionInvariants
  import opened SessionRuns
  import opened MatchStats

  // ----- damage dealt and damage taken balance in every report -----

  ghost predicate Distinct(stats: seq<PlayerMatchStats>) {
    forall i, j :: 0 <= i < j < |stats| ==> stats[i].playerId != stats[j].playerId
  }

  ghost predicate Listed(stats: seq<PlayerMatchStats>, id: string) {
    exists st :: st in stats && st.playerId == id
  }

  ghost function TotalDealt(stats: seq<PlayerMatchStats>): nat {
    if stats == [] then 0 else TotalDealt(stats[..|stats| - 1]) + stats[|stats| - 1].damageDealt
  }

  ghost function TotalTaken(stats: seq<PlayerMatchStats>): nat {
    if stats == [] then 0 else TotalTaken(stats[..|stats| - 1]) + stats[|stats| - 1].damageTaken
  }

  /** What the log says the listed players dealt and took. */
  ghost function SumDealt(stats: seq<PlayerMatchStats>, log: seq<CombatEvent>): nat {
    if stats == [] then 0
    else SumDealt(stats[..|stats| - 1], log) + Dealt(log, stats[|stats| - 1].playerId)
  }

  ghost function SumTaken(stats: seq<PlayerMatchStats>, log: seq<CombatEvent>): nat {
    if stats == [] then 0
    else SumTaken(stats[..|stats| - 1], log) + Taken(log, stats[|stats| - 1].playerId)
  }

  lemma ListedSnoc(stats: seq<PlayerMatchStats>, id: string)
    requires stats != []
    ensures Listed(stats, id) <==> Listed(stats[..|stats| - 1], id) || stats[|stats| - 1].playerId == id
  {
  }

  lemma LastUnlisted(stats: seq<PlayerMatchStats>)
    requires stats != [] && Distinct(stats)
    ensures !Listed(stats[..|stats| - 1], stats[|stats| - 1].playerId)
  {
  }

  lemma {:induction false} SumsSnoc(stats: seq<PlayerMatchStats>, log: seq<CombatEvent>, e: CombatEvent)
    requires Distinct(stats)
    ensures SumDealt(stats, log + [e]) ==
      SumDealt(stats, log) + (if e.kind.Hit? && Listed(stats, e.shooterId) then e.damage else 0)
    ensures SumTaken(stats, log + [e]) ==
      SumTaken(stats, log) + (if e.kind.Hit? && Listed(stats, e.targetId) then e.damage else 0)
  {
    if stats != [] {
      SumsSnoc(stats[..|stats| - 1], log, e);
      Snoc(log, e, stats[|stats| - 1].playerId);
      ListedSnoc(stats, e.shooterId);
      ListedSnoc(stats, e.targetId);
      LastUnlisted(stats);
    }
  }

  lemma {:induction false} SumsBalance(stats: seq<PlayerMatchStats>, log: seq<CombatEvent>)
    requires Distinct(stats) && forall id :: Named(log, id) ==> Listed(stats, id)
    ensures SumDealt(stats, log) == SumTaken(stats, log)
  {
    if log == [] {
      NothingSummed(stats);
    } else {
      var init, e := log[..|log| - 1], log[|log| - 1];
      assert init + [e] == log;
      assert e in log;
      assert Named(log, e.shooterId) && Named(log, e.targetId);
      forall id | Named(init, id) ensures Named(log, id) {
        Snoc(init, e, id);
      }
      SumsBalance(stats, init);
      SumsSnoc(stats, init, e);
    }
  }

  lemma {:induction false} NothingSummed(stats: seq<PlayerMatchStats>)
    ensures SumDealt(stats, []) == SumTaken(stats, []) == 0
  {
    if stats != [] {
      NothingSummed(stats[..|stats| - 1]);
    }
  }

  lemma {:induction false} TotalsAreSums(stats: seq<PlayerMatchStats>, log: seq<CombatEvent>)
    requires forall i :: 0 <= i < |stats| ==>
      stats[i].damageDealt == Dealt(log, stats[i].playerId) && stats[i].damageTaken == Taken(log, stats[i].playerId)
    ensures TotalDealt(stats) == SumDealt(stats, log) && TotalTaken(stats) == SumTaken(stats, log)
  {
    if stats != [] {
      TotalsAreSums(stats[..|stats| - 1], log);
    }
  }

  lemma ReportIsDistinct(stats: seq<PlayerMatchStats>)
    requires Sorted(ByPlayer, stats)
    ensures Distinct(stats)
  {
    forall i, j | 0 <= i < j < |stats| ensures stats[i].playerId != stats[j].playerId {
      assert ByPlayer(stats[i], stats[j]);
      LexAsymmetric(stats[i].playerId, stats[j].playerId);
    }
  }

  /** Whatever the log has dropped: all damage dealt in a report is damage taken in it. */
  lemma DamageBalances(result: MatchResult, death: CombatEvent,
                       players: map<string, PlayerRuntime>, log: seq<CombatEvent>)
    requires IsReport(result, death, players, log)
    ensures TotalDealt(result.playerStats) == TotalTaken(result.playerStats)
  {
    var stats, counted := result.playerStats, Filter(log, UpTo(death.tick));
    ReportIsDistinct(stats);
    forall id | Named(counted, id) ensures Listed(stats, id) {
      assert Reported(players, counted, death, id);
    }
    forall i | 0 <= i < |stats|
      ensures stats[i].damageDealt == Dealt(counted, stats[i].playerId)
      ensures stats[i].damageTaken == Taken(counted, stats[i].playerId)
    {
      assert stats[i] in stats;
    }
    TotalsAreSums(stats, counted);
    SumsBalance(stats, counted);
  }

  /** In a report on any reachable session nobody has landed more shots than he fired. */
  lemma AccuracyIsAFraction(run: Run, result: MatchResult, death: CombatEvent)
    requires Legal(run) && IsReport(result, death, Final(run).players, Final(run).log)
    ensures forall st :: st in result.playerStats ==> st.hitsLanded <= st.shotsFired && 0.0 <= st.Accuracy() <= 1.0
  {
    CreditOfRun(run);
    forall st | st in result.playerStats ensures st.hitsLanded <= st.shotsFired && 0.0 <= st.Accuracy() <= 1.0 {
      if st.shotsFired > 0 {
        FractionOfOne(st.hitsLanded, st.shotsFired);
      }
    }
  }

  lemma CreditOfRun(run: Run)
    requires Legal(run)
    ensures HitsWithinShots(Final(run).players)
  {
    EveryRun(run);
    CreditOfState(Final(run));
  }

  ghost predicate HitsWithinShots(players: map<string, PlayerRuntime>) {
    forall id :: id in players ==> players[id].state.hitsLanded <= players[id].state.shotsFired
  }

  lemma CreditOfState(s: Session)
    requires Roster(s) && Credit(s)
    ensures HitsWithinShots(s.players)
  {
  }

  lemma FractionOfOne(part: nat, whole: nat)
    requires part <= whole && whole > 0
    ensures 0.0 <= part as real / whole as real <= 1.0
  {
  }

  // ----- when the log is lossless -----

  /** The log has dropped nothing yet. */
  ghost predicate NothingDropped(s: Session) {
    |Events(s.history.trace)| <= LOG_CAPACITY
  }

  /** At most six events for each join; so with at most five joins the 32-slot log still holds every event. */
  ghost predicate LogComplete(s: Session) {
    && |Events(s.history.trace)| <= 6 * Joins(s.history.trace)
    && s.log == Suffix(Events(s.history.trace), LOG_CAPACITY)
    && (Joins(s.history.trace) <= 5 ==> NothingDropped(s) && s.log == Events(s.history.trace))
  }

  lemma LogOfState(s: Session)
    requires Ledger(s) && Budget(s)
    ensures LogComplete(s)
  {
    ReserveIsPositive(s);
  }

  lemma ReserveIsPositive(s: Session)
    requires Ledger(s)
    ensures MapSums.Sum(s.players, Reserve()) >= 0
  {
    forall id | id in s.players ensures Reserve()(s.players[id]) >= 0 {
      ReserveNonNegative(s, id);
    }
    MapSums.SumNonNegative(s.players, Reserve());
  }

  lemma LosslessLog(run: Run)
    requires Legal(run)
    ensures LogComplete(Final(run))
  {
    EveryRun(run);
    LogOfState(Final(run));
  }
}
