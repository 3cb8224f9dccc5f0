/** What each line of a match report says, in counts of logged events and the session's own counters. */
module ReportLines {
  import opened Seqs
  import opened Sorting
  import opened Combat
  import opened SessionModel
  import opened MatchStats

  /** An event no later than the death reported. */
  predicate Counts(e: CombatEvent, death: CombatEvent) { e.tick <= death.tick }

  ghost function KillOf(id: string, death: CombatEvent): CombatEvent -> bool {
    (e: CombatEvent) => Counts(e, death) && e.kind == Death && e.shooterId == id
  }

  ghost function DeathOf(id: string, death: CombatEvent): CombatEvent -> bool {
    (e: CombatEvent) => Counts(e, death) && e.kind == Death && e.targetId == id
  }

  /** The damage of the hits that count and are by the player, or on him. */
  ghost function HitPoints(log: seq<CombatEvent>, death: CombatEvent, id: string, dealt: bool): nat {
    if log == [] then 0
    else
      var e := log[|log| - 1];
      HitPoints(log[..|log| - 1], death, id, dealt)
      + (if Counts(e, death) && e.kind == Hit && (if dealt then e.shooterId else e.targetId) == id then e.damage else 0)
  }

  ghost predicate Concerned(players: map<string, PlayerRuntime>, log: seq<CombatEvent>,
                            death: CombatEvent, id: string)
  {
    || id in players || id == death.shooterId || id == death.targetId
    || exists e :: e in log && Counts(e, death) && (e.shooterId == id || e.targetId == id)
  }

  /**
   * Shots, hits and deaths as the session has them, kills and damage as logged; a winner without a logged kill is given
   * one, and so is a death to whoever fell though the session knows of none.
   */
  ghost predicate LineReads(line: PlayerMatchStats, players: map<string, PlayerRuntime>, log: seq<CombatEvent>,
                            death: CombatEvent)
  {
    var id := line.playerId;
    var kills := Count(log, KillOf(id, death));
    var deaths := if id in players then players[id].state.deaths else 0;
    var fell := id == death.targetId || Count(log, DeathOf(id, death)) > 0;
    && line.shotsFired == (if id in players then players[id].state.shotsFired else 0)
    && line.hitsLanded == (if id in players then players[id].state.hitsLanded else 0)
    && line.kills == (if kills == 0 && id == death.shooterId then 1 else kills)
    && line.deaths == (if deaths == 0 && fell then 1 else deaths)
    && line.damageDealt == HitPoints(log, death, id, true)
    && line.damageTaken == HitPoints(log, death, id, false)
  }

  /** Winner and loser as in the death; a line for everybody concerned and nobody else, in the order of their ids. */
  ghost predicate ReportReads(result: MatchResult, players: map<string, PlayerRuntime>, log: seq<CombatEvent>,
                              death: CombatEvent)
  {
    var lines := result.playerStats;
    && result.winnerId == death.shooterId && result.loserId == death.targetId
    && result.matchId == MatchId(death.tick, death.shooterId, death.targetId)
    && (forall i, j :: 0 <= i < j < |lines| ==> LexLess(lines[i].playerId, lines[j].playerId))
    && (forall id :: Concerned(players, log, death, id) ==> exists line :: line in lines && line.playerId == id)
    && forall line :: line in lines ==>
         && Concerned(players, log, death, line.playerId) && line.matchId == result.matchId
         && LineReads(line, players, log, death)
  }

  lemma {:induction false} LogReads(log: seq<CombatEvent>, death: CombatEvent, id: string)
    ensures var counted := Filter(log, UpTo(death.tick));
      && Kills(counted, id) == Count(log, KillOf(id, death))
      && (Fell(counted, id) <==> Count(log, DeathOf(id, death)) > 0)
      && Dealt(counted, id) == HitPoints(log, death, id, true)
      && Taken(counted, id) == HitPoints(log, death, id, false)
  {
    if log != [] {
      var init, e := log[..|log| - 1], log[|log| - 1];
      LogReads(init, death, id);
      if Counts(e, death) {
        Snoc(Filter(init, UpTo(death.tick)), e, id);
      } else {
        assert Filter(init, UpTo(death.tick)) + [] == Filter(init, UpTo(death.tick));
      }
    }
  }

  lemma ConcernedIsReported(players: map<string, PlayerRuntime>, log: seq<CombatEvent>, death: CombatEvent, id: string)
    ensures Reported(players, Filter(log, UpTo(death.tick)), death, id) <==> Concerned(players, log, death, id)
  {
    FilterMembers(log, UpTo(death.tick));
    var counted := Filter(log, UpTo(death.tick));
    assert forall e :: e in counted <==> e in log && Counts(e, death);
  }

  lemma LineOf(players: map<string, PlayerRuntime>, log: seq<CombatEvent>, death: CombatEvent, id: string,
               matchId: MatchId)
    ensures LineReads(Line(matchId, Settled(Tally(players, Filter(log, UpTo(death.tick)), id), death)),
                      players, log, death)
  {
    LogReads(log, death, id);
  }

  /** What the collector returns reads so, for any session and any death. */
  lemma ReportIsRead(result: MatchResult, death: CombatEvent,
                     players: map<string, PlayerRuntime>, log: seq<CombatEvent>)
    requires IsReport(result, death, players, log)
    ensures ReportReads(result, players, log, death)
  {
    var lines, counted := result.playerStats, Filter(log, UpTo(death.tick));
    forall i, j | 0 <= i < j < |lines| ensures LexLess(lines[i].playerId, lines[j].playerId) {
      assert ByPlayer(lines[i], lines[j]);
    }
    forall line | line in lines
      ensures Concerned(players, log, death, line.playerId) && LineReads(line, players, log, death)
    {
      ConcernedIsReported(players, log, death, line.playerId);
      LineOf(players, log, death, line.playerId, result.matchId);
    }
    forall id | Concerned(players, log, death, id) ensures exists line :: line in lines && line.playerId == id {
      ConcernedIsReported(players, log, death, id);
      assert Line(result.matchId, Settled(Tally(players, counted, id), death)) in lines;
    }
  }
}
