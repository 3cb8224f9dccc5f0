/** Post-match statistics folded from the session snapshot and the combat log (match_stats.cpp). */
module MatchStats {
  import opened Seqs
  import opened Sorting
  import opened Combat
  import opened SessionModel
  import opened GameSessions

  /** The text of a match id is its three parts; the model keeps the parts. */
  datatype MatchId = MatchId(tick: nat, winnerId: string, loserId: string)

  datatype PlayerMatchStats = PlayerMatchStats(
    matchId: MatchId, playerId: string, shotsFired: nat, hitsLanded: nat, kills: nat, deaths: nat,
    damageDealt: nat, damageTaken: nat)
  {
    function Accuracy(): real {
      if shotsFired == 0 then 0.0 else hitsLanded as real / shotsFired as real
    }
  }

  datatype MatchResult = MatchResult(
    matchId: MatchId, winnerId: string, loserId: string, completedAt: int, playerStats: seq<PlayerMatchStats>)

  datatype RunningTotals = RunningTotals(
    playerId: string, shotsFired: nat, hitsLanded: nat, kills: nat, deaths: nat, damageDealt: nat, damageTaken: nat)

  // ----- what the log says about one player -----

  ghost function Dealt(log: seq<CombatEvent>, id: string): nat {
    if log == [] then 0
    else
      var e := log[|log| - 1];
      Dealt(log[..|log| - 1], id) + (if e.kind.Hit? && e.shooterId == id then e.damage else 0)
  }

  ghost function Taken(log: seq<CombatEvent>, id: string): nat {
    if log == [] then 0
    else
      var e := log[|log| - 1];
      Taken(log[..|log| - 1], id) + (if e.kind.Hit? && e.targetId == id then e.damage else 0)
  }

  ghost function Kills(log: seq<CombatEvent>, id: string): nat {
    if log == [] then 0
    else
      var e := log[|log| - 1];
      Kills(log[..|log| - 1], id) + (if e.kind.Death? && e.shooterId == id then 1 else 0)
  }

  ghost predicate Fell(log: seq<CombatEvent>, id: string) {
    exists e :: e in log && e.kind.Death? && e.targetId == id
  }

  ghost predicate Named(log: seq<CombatEvent>, id: string) {
    exists e :: e in log && (e.shooterId == id || e.targetId == id)
  }

  ghost function UpTo(tick: nat): CombatEvent -> bool {
    (e: CombatEvent) => e.tick <= tick
  }

  /** The totals of one player: counters from the session, kills and damage from the events that count. */
  ghost function Tally(players: map<string, PlayerRuntime>, counted: seq<CombatEvent>, id: string): RunningTotals {
    var state := if id in players then players[id].state else FRESH_STATE;
    RunningTotals(id, state.shotsFired, state.hitsLanded, Kills(counted, id),
                  if state.deaths == 0 && Fell(counted, id) then 1 else state.deaths,
                  Dealt(counted, id), Taken(counted, id))
  }

  /** The winner is given a kill, and the loser a death, when the counted events show none. */
  ghost function Settled(t: RunningTotals, death: CombatEvent): RunningTotals {
    var killed := if t.playerId == death.shooterId && t.kills == 0 then t.(kills := 1) else t;
    if t.playerId == death.targetId && t.deaths == 0 then killed.(deaths := 1) else killed
  }

  function Line(matchId: MatchId, t: RunningTotals): PlayerMatchStats {
    PlayerMatchStats(matchId, t.playerId, t.shotsFired, t.hitsLanded, t.kills, t.deaths, t.damageDealt, t.damageTaken)
  }

  predicate ByPlayer(a: PlayerMatchStats, b: PlayerMatchStats) {
    LexLess(a.playerId, b.playerId)
  }

  ghost predicate Reported(players: map<string, PlayerRuntime>, counted: seq<CombatEvent>,
                           death: CombatEvent, id: string)
  {
    id in players || Named(counted, id) || id == death.shooterId || id == death.targetId
  }

  /** What `Collect` owes: one line for each player concerned, in id order, with the settled totals. */
  ghost predicate IsReport(result: MatchResult, death: CombatEvent,
                           players: map<string, PlayerRuntime>, log: seq<CombatEvent>)
  {
    var matchId, counted := MatchId(death.tick, death.shooterId, death.targetId), Filter(log, UpTo(death.tick));
    && result.matchId == matchId && result.winnerId == death.shooterId && result.loserId == death.targetId
    && Sorted(ByPlayer, result.playerStats)
    && (forall st :: st in result.playerStats ==>
          && Reported(players, counted, death, st.playerId)
          && st == Line(matchId, Settled(Tally(players, counted, st.playerId), death)))
    && (forall id :: Reported(players, counted, death, id) ==>
          Line(matchId, Settled(Tally(players, counted, id), death)) in result.playerStats)
  }

  lemma {:induction false} UnnamedIsZero(log: seq<CombatEvent>, id: string)
    requires !Named(log, id)
    ensures Dealt(log, id) == Taken(log, id) == Kills(log, id) == 0 && !Fell(log, id)
  {
    if log != [] {
      assert forall e :: e in log[..|log| - 1] ==> e in log;
      assert log[|log| - 1] in log;
      UnnamedIsZero(log[..|log| - 1], id);
    }
  }

  lemma Snoc(log: seq<CombatEvent>, e: CombatEvent, id: string)
    ensures Dealt(log + [e], id) == Dealt(log, id) + (if e.kind.Hit? && e.shooterId == id then e.damage else 0)
    ensures Taken(log + [e], id) == Taken(log, id) + (if e.kind.Hit? && e.targetId == id then e.damage else 0)
    ensures Kills(log + [e], id) == Kills(log, id) + (if e.kind.Death? && e.shooterId == id then 1 else 0)
    ensures Fell(log + [e], id) <==> Fell(log, id) || (e.kind.Death? && e.targetId == id)
    ensures Named(log + [e], id) <==> Named(log, id) || e.shooterId == id || e.targetId == id
  {
  }

  /** What one more counted event adds to the totals of `t.playerId`. */
  function Bumped(t: RunningTotals, e: CombatEvent): RunningTotals {
    var asShooter :=
      if e.shooterId != t.playerId then t
      else if e.kind.Hit? then t.(damageDealt := t.damageDealt + e.damage)
      else t.(kills := t.kills + 1);
    if e.targetId != t.playerId then asShooter
    else if e.kind.Hit? then asShooter.(damageTaken := asShooter.damageTaken + e.damage)
    else if asShooter.deaths == 0 then asShooter.(deaths := 1)
    else asShooter
  }

  lemma TallySnoc(players: map<string, PlayerRuntime>, counted: seq<CombatEvent>, e: CombatEvent, id: string)
    ensures Tally(players, counted + [e], id) == Bumped(Tally(players, counted, id), e)
  {
    Snoc(counted, e, id);
  }

  lemma TallyOfStranger(players: map<string, PlayerRuntime>, counted: seq<CombatEvent>, id: string)
    requires id !in players && !Named(counted, id)
    ensures Tally(players, counted, id) == RunningTotals(id, 0, 0, 0, 0, 0, 0)
  {
    UnnamedIsZero(counted, id);
  }

  // ----- the collector -----

  function Entry(totals: map<string, RunningTotals>, id: string): RunningTotals {
    if id in totals then totals[id] else RunningTotals(id, 0, 0, 0, 0, 0, 0)
  }

  /** The running totals hold exactly the tallies of the players met so far. */
  ghost predicate Holds(totals: map<string, RunningTotals>, players: map<string, PlayerRuntime>,
                        counted: seq<CombatEvent>)
  {
    && (forall id :: id in totals <==> id in players || Named(counted, id))
    && (forall id :: id in totals ==> totals[id] == Tally(players, counted, id))
  }

  /** The totals of everybody concerned, after the fix-ups. */
  ghost predicate AllSettled(totals: map<string, RunningTotals>, players: map<string, PlayerRuntime>,
                             counted: seq<CombatEvent>, death: CombatEvent)
  {
    && (forall id :: id in totals <==> Reported(players, counted, death, id))
    && (forall id :: id in totals ==> totals[id] == Settled(Tally(players, counted, id), death))
  }

  class MatchStatsCollector {
    constructor () {}

    method Collect(death: CombatEvent, session: GameSession, completedAt: int, order: seq<string>)
      returns (result: MatchResult)
      requires session.Valid() && Enumerates(order, session.players.Keys)
      requires forall id :: id in session.players ==> session.players[id].state.playerId == id
      ensures IsReport(result, death, session.players, session.combatLog.events)
      ensures result.completedAt == completedAt
    {
      var states := session.Snapshot(order);
      var log := session.combatLog.Snapshot();
      result := Report(death, states, log, completedAt, session.players, order);
    }

    static method Report(death: CombatEvent, states: seq<PlayerState>, log: seq<CombatEvent>, completedAt: int,
                         ghost players: map<string, PlayerRuntime>, ghost order: seq<string>)
      returns (result: MatchResult)
      requires Enumerates(order, players.Keys) && |states| == |order|
      requires forall id :: id in players ==> players[id].state.playerId == id
      requires forall k :: 0 <= k < |order| ==> states[k] == players[order[k]].state
      ensures IsReport(result, death, players, log) && result.completedAt == completedAt
    {
      var totals := FromStates(states, players, order);
      totals := BookAll(totals, log, death.tick, players);
      ghost var counted := Filter(log, UpTo(death.tick));
      totals := Settle(totals, death, players, counted);
      result := Assemble(death, totals, log, completedAt, players);
    }

    static method Assemble(death: CombatEvent, totals: map<string, RunningTotals>, ghost log: seq<CombatEvent>,
                           completedAt: int, ghost players: map<string, PlayerRuntime>)
      returns (result: MatchResult)
      requires AllSettled(totals, players, Filter(log, UpTo(death.tick)), death)
      ensures IsReport(result, death, players, log) && result.completedAt == completedAt
    {
      var matchId := MatchId(death.tick, death.shooterId, death.targetId);
      var stats := Lines(totals, matchId);
      var sorted := SortLines(stats);
      result := MatchResult(matchId, death.shooterId, death.targetId, completedAt, sorted);
      ReportFromLines(result, death, players, log, totals);
    }

    /** The loop over the log; events after the death are passed over. */
    static method BookAll(start: map<string, RunningTotals>, log: seq<CombatEvent>, tick: nat,
                          ghost players: map<string, PlayerRuntime>)
      returns (totals: map<string, RunningTotals>)
      requires Holds(start, players, [])
      ensures Holds(totals, players, Filter(log, UpTo(tick)))
    {
      totals := start;
      ghost var counted: seq<CombatEvent> := [];
      var k := 0;
      while k < |log|
        invariant k <= |log| && counted == Filter(log[..k], UpTo(tick))
        invariant Holds(totals, players, counted)
      {
        assert log[..k + 1][..k] == log[..k];
        if log[k].tick <= tick {
          totals := Book(totals, log[k], players, counted);
          counted := counted + [log[k]];
        } else {
          assert counted + [] == counted;
        }
        k := k + 1;
      }
      assert log[..|log|] == log;
    }

    static method SortLines(stats: seq<PlayerMatchStats>) returns (sorted: seq<PlayerMatchStats>)
      requires forall i, j :: 0 <= i < j < |stats| ==> stats[i].playerId != stats[j].playerId
      ensures Sorted(ByPlayer, sorted) && forall st :: st in sorted <==> st in stats
    {
      LinesComparable(stats);
      SortPermutes(ByPlayer, stats);
      SortSorts(ByPlayer, stats);
      sorted := Sort(ByPlayer, stats);
    }

    static method FromStates(states: seq<PlayerState>,
                             ghost players: map<string, PlayerRuntime>, ghost order: seq<string>)
      returns (totals: map<string, RunningTotals>)
      requires Enumerates(order, players.Keys) && |states| == |order|
      requires forall id :: id in players ==> players[id].state.playerId == id
      requires forall k :: 0 <= k < |order| ==> states[k] == players[order[k]].state
      ensures Holds(totals, players, [])
    {
      totals := map[];
      var k := 0;
      while k < |states|
        invariant k <= |states|
        invariant forall id :: id in totals <==> id in order[..k]
        invariant forall id :: id in totals ==> id in players && totals[id] == Tally(players, [], id)
      {
        var s := states[k];
        assert order[k] in players.Keys;
        assert order[..k + 1] == order[..k] + [order[k]];
        totals := totals[s.playerId := RunningTotals(s.playerId, s.shotsFired, s.hitsLanded, 0, s.deaths, 0, 0)];
        k := k + 1;
      }
      assert order[..|states|] == order;
    }

    static method Book(totals: map<string, RunningTotals>, event: CombatEvent,
                       ghost players: map<string, PlayerRuntime>, ghost counted: seq<CombatEvent>)
      returns (booked: map<string, RunningTotals>)
      requires Holds(totals, players, counted)
      ensures Holds(booked, players, counted + [event])
    {
      booked := Bump(totals, event);
      forall id ensures id in booked <==> id in players || Named(counted + [event], id) {
        Snoc(counted, event, id);
      }
      forall id | id in booked ensures booked[id] == Tally(players, counted + [event], id) {
        TallySnoc(players, counted, event, id);
        if id !in totals {
          TallyOfStranger(players, counted, id);
        }
      }
    }

    static method Bump(totals: map<string, RunningTotals>, event: CombatEvent)
      returns (booked: map<string, RunningTotals>)
      requires forall id :: id in totals ==> totals[id].playerId == id
      ensures booked.Keys == totals.Keys + {event.shooterId, event.targetId}
      ensures forall id :: id in booked ==>
        booked[id] ==
        (if id == event.shooterId || id == event.targetId then Bumped(Entry(totals, id), event) else totals[id])
    {
      booked := totals;
      var shooter := Entry(booked, event.shooterId);
      if event.kind.Hit? {
        booked := booked[event.shooterId := shooter.(damageDealt := shooter.damageDealt + event.damage)];
        var target := Entry(booked, event.targetId);
        booked := booked[event.targetId := target.(damageTaken := target.damageTaken + event.damage)];
      } else {
        booked := booked[event.shooterId := shooter.(kills := shooter.kills + 1)];
        var target := Entry(booked, event.targetId);
        booked := booked[event.targetId := if target.deaths == 0 then target.(deaths := 1) else target];
      }
    }

    static method Settle(totals: map<string, RunningTotals>, death: CombatEvent,
                         ghost players: map<string, PlayerRuntime>, ghost counted: seq<CombatEvent>)
      returns (settled: map<string, RunningTotals>)
      requires Holds(totals, players, counted)
      ensures AllSettled(settled, players, counted, death)
    {
      var ensured := EnsureEntry(totals, death.shooterId, players, counted);
      ensured := EnsureEntry(ensured, death.targetId, players, counted);
      settled := FixUp(ensured, death);
    }

    static method FixUp(totals: map<string, RunningTotals>, death: CombatEvent)
      returns (settled: map<string, RunningTotals>)
      requires death.shooterId in totals && death.targetId in totals
      requires forall id :: id in totals ==> totals[id].playerId == id
      ensures settled.Keys == totals.Keys
      ensures forall id :: id in totals ==> settled[id] == Settled(totals[id], death)
    {
      settled := totals;
      if settled[death.shooterId].kills == 0 {
        settled := settled[death.shooterId := settled[death.shooterId].(kills := 1)];
      }
      if settled[death.targetId].deaths == 0 {
        settled := settled[death.targetId := settled[death.targetId].(deaths := 1)];
      }
    }

    static method EnsureEntry(totals: map<string, RunningTotals>, id: string,
                              ghost players: map<string, PlayerRuntime>, ghost counted: seq<CombatEvent>)
      returns (ensured: map<string, RunningTotals>)
      requires forall other :: other in players || Named(counted, other) ==> other in totals
      requires forall other :: other in totals ==> totals[other] == Tally(players, counted, other)
      ensures ensured.Keys == totals.Keys + {id}
      ensures forall other :: other in ensured ==> ensured[other] == Tally(players, counted, other)
    {
      ensured := totals[id := Entry(totals, id)];
      if id !in totals {
        UnnamedIsZero(counted, id);
      }
    }

    /** One line per entry, in whatever order the hash map yields them. */
    static method Lines(totals: map<string, RunningTotals>, matchId: MatchId) returns (stats: seq<PlayerMatchStats>)
      requires forall id :: id in totals ==> totals[id].playerId == id
      ensures forall st :: st in stats ==> st.playerId in totals && st == Line(matchId, totals[st.playerId])
      ensures forall id :: id in totals ==> Line(matchId, totals[id]) in stats
      ensures forall i, j :: 0 <= i < j < |stats| ==> stats[i].playerId != stats[j].playerId
    {
      stats := [];
      var todo := totals.Keys;
      while todo != {}
        invariant todo <= totals.Keys
        invariant forall st :: st in stats ==>
          st.playerId in totals && st.playerId !in todo && st == Line(matchId, totals[st.playerId])
        invariant forall id :: id in totals && id !in todo ==> Line(matchId, totals[id]) in stats
        invariant forall i, j :: 0 <= i < j < |stats| ==> stats[i].playerId != stats[j].playerId
        decreases todo
      {
        var id :| id in todo;
        forall i | 0 <= i < |stats| ensures stats[i].playerId != id {
          assert stats[i] in stats;
        }
        ghost var before := stats;
        stats := stats + [Line(matchId, totals[id])];
        todo := todo - {id};
        assert forall st :: st in stats <==> st in before || st == Line(matchId, totals[id]);
      }
    }
  }

  lemma ReportFromLines(result: MatchResult, death: CombatEvent, players: map<string, PlayerRuntime>,
                        log: seq<CombatEvent>, totals: map<string, RunningTotals>)
    requires result.matchId == MatchId(death.tick, death.shooterId, death.targetId)
    requires result.winnerId == death.shooterId && result.loserId == death.targetId
    requires Sorted(ByPlayer, result.playerStats)
    requires forall st :: st in result.playerStats ==>
      st.playerId in totals && st == Line(result.matchId, totals[st.playerId])
    requires forall id :: id in totals ==> Line(result.matchId, totals[id]) in result.playerStats
    requires AllSettled(totals, players, Filter(log, UpTo(death.tick)), death)
    ensures IsReport(result, death, players, log)
  {
  }

  lemma ByPlayerIsAnOrder()
    ensures Transitive(ByPlayer) && Asymmetric(ByPlayer)
  {
    forall a: PlayerMatchStats, b: PlayerMatchStats, c: PlayerMatchStats | ByPlayer(a, b) && ByPlayer(b, c)
      ensures ByPlayer(a, c)
    {
      LexTransitive(a.playerId, b.playerId, c.playerId);
    }
    forall a: PlayerMatchStats, b: PlayerMatchStats | ByPlayer(a, b) ensures !ByPlayer(b, a) {
      LexAsymmetric(a.playerId, b.playerId);
    }
  }

  lemma LinesComparable(stats: seq<PlayerMatchStats>)
    requires forall i, j :: 0 <= i < j < |stats| ==> stats[i].playerId != stats[j].playerId
    ensures Comparable(ByPlayer, stats) && Transitive(ByPlayer)
  {
    ByPlayerIsAnOrder();
    forall i, j | 0 <= i < j < |stats| ensures ByPlayer(stats[i], stats[j]) || ByPlayer(stats[j], stats[i]) {
      LexTotal(stats[i].playerId, stats[j].playerId);
    }
  }

  /** The report is determined by the death, the players and the log: hash-map order cannot show in it. */
  lemma ReportIsUnique(a: MatchResult, b: MatchResult, death: CombatEvent,
                       players: map<string, PlayerRuntime>, log: seq<CombatEvent>)
    requires IsReport(a, death, players, log) && IsReport(b, death, players, log)
    ensures a.playerStats == b.playerStats
  {
    ByPlayerIsAnOrder();
    SortedUnique(ByPlayer, a.playerStats, b.playerStats);
  }
}
