/** The server's tick handler (BroadcastState): tick, read the deaths, collect one result for each. */
module Driver {
  import opened Seqs
  import opened Combat
  import opened SessionModel
  import opened GameSessions
  import opened MatchStats
  import opened SessionInvariants
  import opened SessionRuns
  import opened ExactStats
  import opened ExactReports

  ghost function IsDeath(): CombatEvent -> bool {
    (e: CombatEvent) => e.kind.Death?
  }

  class WebSocketServer {
    const session: GameSession
    const collector: MatchStatsCollector
    const hasCallback: bool
    var lastBroadcastTick: nat

    ghost predicate Valid()
      reads this, session, session.combatLog
    {
      session.Valid()
    }

    constructor (session: GameSession, hasCallback: bool)
      requires session.Valid()
      ensures Valid() && this.session == session && this.hasCallback == hasCallback
    {
      this.session := session;
      this.hasCallback := hasCallback;
      collector := new MatchStatsCollector();
      lastBroadcastTick := 0;
    }

    /** `clock` answers the successive readings of the system clock. The results go to the match-completed callback. */
    method BroadcastState(tick: nat, delta: real, order: seq<string>, clock: nat -> int)
      returns (completed: seq<MatchResult>)
      requires Valid() && Enumerates(order, session.players.Keys) && Keyed(session.State())
      modifies this, session, session.combatLog
      ensures Valid() && lastBroadcastTick == tick
      ensures session.State() == ConsumeDeaths(Tick(old(session.State()), tick, delta, order))
      ensures if hasCallback then ReportsOf(completed, Tick(old(session.State()), tick, delta, order))
              else completed == []
      ensures forall k :: 0 <= k < |completed| ==> completed[k].completedAt == clock(k)
    {
      KeyedTick(session.State(), tick, delta, order);
      session.Tick(tick, delta, order);
      var deaths := session.ConsumeDeathEvents();
      completed := CollectAll(deaths, order, clock);
      lastBroadcastTick := tick;
    }

    method CollectAll(deaths: seq<CombatEvent>, order: seq<string>, clock: nat -> int)
      returns (completed: seq<MatchResult>)
      requires Valid() && Enumerates(order, session.players.Keys)
      requires Keyed(session.State())
      ensures var due := Filter(deaths, IsDeath());
        && |completed| == (if hasCallback then |due| else 0)
        && forall k :: 0 <= k < |completed| ==>
             && IsReport(completed[k], due[k], session.players, session.combatLog.events)
             && completed[k].completedAt == clock(k)
    {
      completed := [];
      var i := 0;
      while i < |deaths|
        invariant i <= |deaths|
        invariant |completed| == (if hasCallback then |Filter(deaths[..i], IsDeath())| else 0)
        invariant forall k :: 0 <= k < |completed| ==>
          && IsReport(completed[k], Filter(deaths[..i], IsDeath())[k], session.players, session.combatLog.events)
          && completed[k].completedAt == clock(k)
      {
        assert deaths[..i + 1][..i] == deaths[..i];
        if deaths[i].kind.Death? && hasCallback {
          var result := collector.Collect(deaths[i], session, clock(|completed|), order);
          completed := completed + [result];
        }
        i := i + 1;
      }
      assert deaths[..|deaths|] == deaths;
    }
  }

  /** Players are filed under their own ids, as in every reachable session. */
  ghost predicate Keyed(s: Session) {
    forall id :: id in s.players ==> s.players[id].state.playerId == id
  }

  lemma KeyedOfRun(run: Run)
    requires Legal(run)
    ensures Keyed(Final(run))
  {
    EveryRun(run);
    KeyedState(Final(run));
  }

  lemma KeyedState(s: Session)
    requires Roster(s)
    ensures Keyed(s)
  {
  }

  lemma KeyedCollide(s: Session, i: nat, tick: nat, order: seq<string>)
    requires Keyed(s) && i < |s.projectiles| && forall id :: id in order ==> id in s.players
    ensures Keyed(Collide(s, i, tick, order))
  {
  }

  lemma {:induction false} KeyedResolve(s: Session, i: nat, tick: nat, order: seq<string>)
    requires Keyed(s) && i <= |s.projectiles| && forall id :: id in order ==> id in s.players
    ensures Keyed(Resolve(s, i, tick, order))
    decreases |s.projectiles| - i
  {
    if i < |s.projectiles| {
      KeyedCollide(s, i, tick, order);
      KeyedResolve(Collide(s, i, tick, order), i + 1, tick, order);
    }
  }

  lemma KeyedTick(s: Session, tick: nat, delta: real, order: seq<string>)
    requires Keyed(s) && forall id :: id in order ==> id in s.players
    ensures Keyed(Tick(s, tick, delta, order)) && Tick(s, tick, delta, order).players.Keys == s.players.Keys
  {
    var begun := BeginTick(s, delta);
    FlyAllAt(s.projectiles, delta, begun.elapsed);
    KeyedResolve(begun, 0, tick, order);
  }

  /**
   * One report for each pending death, in order, winner and loser as in the death: every line exact, damage balanced.
   */
  ghost predicate AllExact(completed: seq<MatchResult>, s: Session) {
    && |completed| == |s.pendingDeaths|
    && forall k :: 0 <= k < |completed| ==>
         && completed[k].loserId == s.pendingDeaths[k].targetId
         && completed[k].winnerId == s.pendingDeaths[k].shooterId
         && ExactReport(completed[k], s)
         && TotalDealt(completed[k].playerStats) == TotalTaken(completed[k].playerStats)
  }

  /** What the driver hands over: a report for each death, in order. */
  ghost predicate ReportsOf(completed: seq<MatchResult>, s: Session) {
    var deaths := Filter(s.pendingDeaths, IsDeath());
    && |completed| == |deaths|
    && forall k :: 0 <= k < |completed| ==> IsReport(completed[k], deaths[k], s.players, s.log)
  }

  /** The reports of a tick are exact just when the log is clean, unless there are none. */
  ghost predicate ExactWhileClean(completed: seq<MatchResult>, s: Session) {
    AllExact(completed, s) <==> completed == [] || CleanLog(s)
  }

  lemma PendingAreDeaths(s: Session, tick: nat)
    requires PendingRecent(s, tick)
    ensures Filter(s.pendingDeaths, IsDeath()) == s.pendingDeaths
  {
    forall i | 0 <= i < |s.pendingDeaths| ensures s.pendingDeaths[i].kind.Death? {
      assert Recent(s.pendingDeaths[i], s, tick);
    }
    FilterKeepsAll(s.pendingDeaths, IsDeath());
  }

  lemma ReportsAreExact(s: Session, tick: nat, completed: seq<MatchResult>)
    requires Reportable(s, tick) && ReportsOf(completed, s)
    ensures ExactWhileClean(completed, s)
  {
    PendingAreDeaths(s, tick);
    forall k | 0 <= k < |completed|
      ensures ExactReport(completed[k], s) <==> CleanLog(s)
      ensures TotalDealt(completed[k].playerStats) == TotalTaken(completed[k].playerStats)
    {
      ExactExactly(s, tick, s.pendingDeaths[k], completed[k]);
      DamageBalances(completed[k], s.pendingDeaths[k], s.players, s.log);
    }
    if completed != [] {
      assert ExactReport(completed[0], s) <==> CleanLog(s);
    }
  }

  /**
   * End to end, whatever has joined, left and joined again: every broadcast of a driven run reports each death of the
   * tick exactly if and only if the log is clean.
   */
  lemma BroadcastReportsAreExact(run: Run, completed: seq<MatchResult>)
    requires Legal(run) && run.After? && run.op.Elapse? && Driven(run)
    requires ReportsOf(completed, Final(run))
    ensures ExactWhileClean(completed, Final(run))
  {
    EveryBroadcast(run);
    ReportsAreExact(Final(run), run.op.tick, completed);
  }

  /**
   * Where each id joins once and nobody leaves, a clean log is one of at most 32 events, as after at most five joins.
   */
  ghost predicate CleanByCount(s: Session) {
    && (CleanLog(s) <==> NothingDropped(s))
    && (Joins(s.history.trace) <= 5 ==> CleanLog(s))
  }

  lemma CountOfState(s: Session, tick: nat)
    requires Reportable(s, tick) && Untroubled(s)
    ensures CleanByCount(s)
  {
    CleanIsComplete(s);
  }

  lemma CalmReportsNeedOnlyCount(run: Run)
    requires Legal(run) && run.After? && run.op.Elapse? && Driven(run) && Calm(run)
    ensures CleanByCount(Final(run))
  {
    EveryBroadcast(run);
    CountOfState(Final(run), run.op.tick);
  }
}
