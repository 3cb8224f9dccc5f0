/** What a career counts: the sum of the reported snapshots, and when that is the number of shots really fired. */
module CareerTotals {
  import opened Seqs
  import opened Combat
  import opened Projectiles
  import opened SessionModel
  import opened SessionInvariants
  import opened SessionRuns
  import opened MatchStats
  import opened ExactStats
  import opened ExactReports
  import opened Driver
  import opened Elo
  import opened ProfileServices
  import opened RatingRuns

  // ----- any sequence of results -----

  /** What the lines about `id` say, `g` reading one of the counters. */
  ghost function InLines(lines: seq<PlayerMatchStats>, id: string, g: PlayerMatchStats -> int): int {
    if lines == [] then 0
    else
      var line := lines[|lines| - 1];
      InLines(lines[..|lines| - 1], id, g) + (if line.playerId == id then g(line) else 0)
  }

  ghost function InResults(results: seq<MatchResult>, id: string, g: PlayerMatchStats -> int): int {
    if results == [] then 0
    else InResults(results[..|results| - 1], id, g) + InLines(results[|results| - 1].playerStats, id, g)
  }

  /** `f` is the career's copy of the counter `g` reads: a line adds to it, a result and its ratings do not touch it. */
  ghost predicate Accumulates(f: AggregateStats -> int, g: PlayerMatchStats -> int) {
    && f(UNPLAYED) == 0
    && (forall a, line :: f(Counted(a, line)) == f(a) + g(line))
    && (forall a: AggregateStats, w: nat, l: nat, r: int :: f(a.(wins := w, losses := l, rating := r)) == f(a))
  }

  lemma {:induction false} LinesAdd(aggs: Aggregates, lines: seq<PlayerMatchStats>, id: string,
                                    f: AggregateStats -> int, g: PlayerMatchStats -> int)
    requires Accumulates(f, g)
    ensures f(Of(CountLines(aggs, lines), id)) == f(Of(aggs, id)) + InLines(lines, id, g)
  {
    if lines != [] {
      LinesAdd(aggs, lines[..|lines| - 1], id, f, g);
    }
  }

  lemma EntryKeeps(aggs: Aggregates, winner: string, loser: string, u: Update, id: string,
                   f: AggregateStats -> int, g: PlayerMatchStats -> int)
    requires Accumulates(f, g)
    ensures f(Of(Entered(aggs, winner, loser, u), id)) == f(Of(aggs, id))
  {
    var w, l := Of(aggs, winner), Of(aggs, loser);
    assert f(w.(wins := w.wins + 1, losses := w.losses + 1, rating := u.loserNew)) == f(w);
    assert f(w.(wins := w.wins + 1, losses := w.losses, rating := u.winnerNew)) == f(w);
    assert f(l.(wins := l.wins, losses := l.losses + 1, rating := u.loserNew)) == f(l);
  }

  lemma RecordAdds(b: Books, result: MatchResult, expected: int -> real, id: string,
                   f: AggregateStats -> int, g: PlayerMatchStats -> int)
    requires Accumulates(f, g)
    ensures f(Of(Record(b, result, expected).aggregates, id)) ==
      f(Of(b.aggregates, id)) + InLines(result.playerStats, id, g)
  {
    var counted := CountLines(b.aggregates, result.playerStats);
    LinesAdd(b.aggregates, result.playerStats, id, f, g);
    EntryKeeps(counted, result.winnerId, result.loserId,
               Rate(Of(counted, result.winnerId).rating, Of(counted, result.loserId).rating, expected), id, f, g);
  }

  /** Every counter of a career is the sum of what the results reported, whatever the results. */
  lemma {:induction false} CareerIsTheSum(results: seq<MatchResult>, expected: int -> real, ranked: bool, id: string,
                                          f: AggregateStats -> int, g: PlayerMatchStats -> int)
    requires Accumulates(f, g)
    ensures f(Of(AfterMatches(results, expected, ranked).aggregates, id)) == InResults(results, id, g)
  {
    if results != [] {
      var past := results[..|results| - 1];
      CareerIsTheSum(past, expected, ranked, id, f, g);
      RecordAdds(AfterMatches(past, expected, ranked), results[|results| - 1], expected, id, f, g);
    }
  }

  function CareerShots(): AggregateStats -> int { (a: AggregateStats) => a.shotsFired }

  function ReportedShots(): PlayerMatchStats -> int { (line: PlayerMatchStats) => line.shotsFired }

  function CareerHits(): AggregateStats -> int { (a: AggregateStats) => a.hitsLanded }

  function ReportedHits(): PlayerMatchStats -> int { (line: PlayerMatchStats) => line.hitsLanded }

  // ----- the session's own counters -----

  ghost function LaunchedBy(id: string): Projectile -> bool {
    (p: Projectile) => p.ownerId == id
  }

  /** How many projectiles had been launched when `id` last entered anew. */
  ghost function LaunchedAt(t: Trace, id: string): nat {
    match t
    case Start => 0
    case Then(past, Joined(j, anew, n)) => if j == id && anew then n else LaunchedAt(past, id)
    case Then(past, _) => LaunchedAt(past, id)
  }

  /** The shots `id` has really fired since he entered. */
  ghost function ShotsSinceEntry(s: Session, id: string): nat {
    var from, launched := LaunchedAt(s.history.trace, id), s.history.launched;
    if from <= |launched| then Count(launched[from..], LaunchedBy(id)) else 0
  }

  ghost function HitBy(id: string): CombatEvent -> bool {
    (e: CombatEvent) => e.kind.Hit? && e.shooterId == id
  }

  /** The hits `id` has really landed since he entered. */
  ghost function HitsSinceEntry(s: Session, id: string): nat {
    Count(SinceEntry(s.history.trace, id), HitBy(id))
  }

  ghost predicate FiredBy(s: Session, id: string)
    requires id in s.players
  {
    LaunchedAt(s.history.trace, id) <= |s.history.launched| && s.players[id].shotsFired == ShotsSinceEntry(s, id)
  }

  /** Each present player's counter is the number of projectiles he has launched since he entered. */
  ghost predicate Fired(s: Session) {
    forall id :: id in s.players ==> FiredBy(s, id)
  }

  /** Nothing about shots has changed for those still there. */
  ghost predicate SameShots(s: Session, s': Session) {
    && s'.history.launched == s.history.launched && s'.players.Keys <= s.players.Keys
    && (forall id :: LaunchedAt(s'.history.trace, id) == LaunchedAt(s.history.trace, id))
    && (forall id :: id in s'.players ==> s'.players[id].shotsFired == s.players[id].shotsFired)
  }

  lemma SameShotsHit(s: Session, i: nat, target: string, tick: nat)
    requires i < |s.projectiles| && target in s.players
    ensures SameShots(s, HitPlayer(s, i, target, tick))
  {
    var _, _ := TraceAfterHit(s, i, target, tick);
  }

  lemma SameShotsCollide(s: Session, i: nat, tick: nat, order: seq<string>)
    requires i < |s.projectiles| && forall id :: id in order ==> id in s.players
    ensures SameShots(s, Collide(s, i, tick, order))
  {
    if s.projectiles[i].active {
      var scanned := Scan(s.players, order, s.projectiles[i], 0);
      ScanFindsPlayer(s.players, order, s.projectiles[i], 0);
      if scanned.target.Some? {
        SameShotsHit(CountPairs(s, scanned.pairs), i, scanned.target.value, tick);
      }
    }
  }

  lemma {:induction false} SameShotsResolve(s: Session, i: nat, tick: nat, order: seq<string>)
    requires i <= |s.projectiles| && forall id :: id in order ==> id in s.players
    ensures SameShots(s, Resolve(s, i, tick, order))
    decreases |s.projectiles| - i
  {
    if i < |s.projectiles| {
      ResolveUnfolds(s, i, tick, order);
      SameShotsCollide(s, i, tick, order);
      SameShotsResolve(Collide(s, i, tick, order), i + 1, tick, order);
    }
  }

  lemma SameShotsTick(s: Session, tick: nat, delta: real, order: seq<string>)
    requires forall id :: id in order ==> id in s.players
    ensures SameShots(s, Tick(s, tick, delta, order))
  {
    SameShotsResolve(BeginTick(s, delta), 0, tick, order);
  }

  lemma FiredFrame(s: Session, s': Session)
    requires Fired(s) && SameShots(s, s')
    ensures Fired(s')
  {
    forall id | id in s'.players ensures FiredBy(s', id) {
      assert FiredBy(s, id);
    }
  }

  lemma FiredJoin(s: Session, id: string)
    requires Roster(s) && Fired(s) && id != ""
    ensures Fired(UpsertPlayer(s, id))
  {
    var s' := UpsertPlayer(s, id);
    if id in s.players {
      assert Mirrored(s.players[id], id);
    }
    forall other | other in s'.players ensures FiredBy(s', other) {
      if other in s.players {
        assert FiredBy(s, other);
      } else {
        assert s.history.launched[|s.history.launched|..] == [];
      }
    }
  }

  lemma CountLaunched(launched: seq<Projectile>, p: Projectile, from: nat, id: string)
    requires from <= |launched|
    ensures Count((launched + [p])[from..], LaunchedBy(id)) ==
      Count(launched[from..], LaunchedBy(id)) + (if p.ownerId == id then 1 else 0)
  {
    assert (launched + [p])[from..] == launched[from..] + [p];
    CountSnoc(launched[from..], p, LaunchedBy(id));
  }

  lemma FiredLaunch(s: Session, id: string, p: Projectile)
    requires Fired(s) && id in s.players && p.ownerId == id
    ensures Fired(Launch(s, id, p))
  {
    var s' := Launch(s, id, p);
    forall other | other in s'.players ensures FiredBy(s', other) {
      assert FiredBy(s, other);
      CountLaunched(s.history.launched, p, LaunchedAt(s.history.trace, other), other);
    }
  }

  lemma FiredInput(s: Session, id: string, input: MovementInput, delta: real, roots: Roots)
    requires Fired(s) && Roster(s) && roots.Of(input)
    ensures Fired(ApplyInput(s, id, input, delta, roots))
  {
    if id in s.players && input.sequence >= s.players[id].state.lastSequence {
      var moved := Steer(s, id, input, delta, roots);
      FiredFrame(s, moved);
      if CanFire(moved, id, input, roots) {
        assert Mirrored(s.players[id], id);
        FiredLaunch(moved, id, Shot(moved, id, input, roots));
      }
    }
  }

  lemma FiredStep(s: Session, op: Op)
    requires Inv(s) && Fired(s) && Enabled(s, op)
    ensures Fired(Step(s, op))
  {
    match op
    case Join(id) => FiredJoin(s, id);
    case Leave(id) => FiredFrame(s, RemovePlayer(s, id));
    case Input(id, input, delta, roots) => FiredInput(s, id, input, delta, roots);
    case Elapse(tick, delta, order) =>
      SameShotsTick(s, tick, delta, order);
      FiredFrame(s, Tick(s, tick, delta, order));
    case Consume => FiredFrame(s, ConsumeDeaths(s));
  }

  lemma {:induction false} EveryShot(run: Run)
    requires Legal(run)
    ensures Fired(Final(run))
  {
    if run.After? {
      EveryRun(run.past);
      EveryShot(run.past);
      FiredStep(Final(run.past), run.op);
    }
  }

  lemma {:induction false} DealtIsHits(events: seq<CombatEvent>, id: string)
    requires Harmful(events)
    ensures Dealt(events, id) == DAMAGE_PER_HIT * Count(events, HitBy(id))
  {
    if events != [] {
      var init, last := events[..|events| - 1], events[|events| - 1];
      assert events == init + [last];
      MembersSnoc(init, last);
      DealtIsHits(init, id);
    }
  }

  /** The counters a report shows are the shots really fired and the hits really landed since entry. */
  ghost predicate TrueCounters(s: Session) {
    forall id :: id in s.players ==>
      s.players[id].shotsFired == ShotsSinceEntry(s, id) && s.players[id].hitsLanded == HitsSinceEntry(s, id)
  }

  lemma TrueCountersOfState(s: Session)
    requires Fired(s) && Accounted(s) && SoundTrace(s.history.trace)
    ensures TrueCounters(s)
  {
    forall id | id in s.players
      ensures s.players[id].shotsFired == ShotsSinceEntry(s, id) && s.players[id].hitsLanded == HitsSinceEntry(s, id)
    {
      assert FiredBy(s, id) && EntryCounts(s.players[id], s.history.trace, id);
      EntryIsHarmful(s.history.trace, id);
      DealtIsHits(SinceEntry(s.history.trace, id), id);
    }
  }

  lemma {:induction false} EntryIsHarmful(t: Trace, id: string)
    requires SoundTrace(t)
    ensures Harmful(SinceEntry(t, id))
  {
    if t.Then? {
      EntryIsHarmful(t.past, id);
    }
  }

  lemma EveryCounterIsTrue(run: Run)
    requires Legal(run)
    ensures TrueCounters(Final(run))
  {
    EveryRun(run);
    EveryShot(run);
    EveryRunCounts(run);
    TrueCountersOfState(Final(run));
  }

  // ----- the reports of one broadcast in a career -----

  lemma {:induction false} UnlistedAddsNothing(lines: seq<PlayerMatchStats>, id: string, g: PlayerMatchStats -> int)
    requires !Listed(lines, id)
    ensures InLines(lines, id, g) == 0
  {
    if lines != [] {
      ListedSnoc(lines, id);
      UnlistedAddsNothing(lines[..|lines| - 1], id, g);
    }
  }

  lemma {:induction false} OneLineAdds(lines: seq<PlayerMatchStats>, st: PlayerMatchStats, g: PlayerMatchStats -> int)
    requires Distinct(lines) && st in lines
    ensures InLines(lines, st.playerId, g) == g(st)
  {
    var init, last := lines[..|lines| - 1], lines[|lines| - 1];
    if st == last {
      LastUnlisted(lines);
      UnlistedAddsNothing(init, st.playerId, g);
    } else {
      OneLineAdds(init, st, g);
      LastUnlisted(lines);
      assert Listed(init, st.playerId);
    }
  }

  lemma ReportAddsSnapshot(s: Session, result: MatchResult, death: CombatEvent, id: string)
    requires Roster(s) && id in s.players && IsReport(result, death, s.players, s.log)
    ensures InLines(result.playerStats, id, ReportedShots()) == s.players[id].shotsFired
    ensures InLines(result.playerStats, id, ReportedHits()) == s.players[id].hitsLanded
  {
    var counted := Filter(s.log, UpTo(death.tick));
    var line := Line(result.matchId, Settled(Tally(s.players, counted, id), death));
    ReportIsDistinct(result.playerStats);
    assert Mirrored(s.players[id], id) && Reported(s.players, counted, death, id);
    OneLineAdds(result.playerStats, line, ReportedShots());
    OneLineAdds(result.playerStats, line, ReportedHits());
  }

  ghost function Times(n: nat, count: nat): nat { n * count }

  lemma {:induction false} SnapshotsAdd(earlier: seq<MatchResult>, completed: seq<MatchResult>, id: string,
                                        g: PlayerMatchStats -> int, count: nat)
    requires forall k :: 0 <= k < |completed| ==> InLines(completed[k].playerStats, id, g) == count
    ensures InResults(earlier + completed, id, g) == InResults(earlier, id, g) + Times(|completed|, count)
  {
    if completed == [] {
      assert earlier + completed == earlier;
    } else {
      var n := |completed| - 1;
      SnapshotsAdd(earlier, completed[..n], id, g, count);
      assert (earlier + completed)[..|earlier| + n] == earlier + completed[..n];
      OnceMore(n, |completed|, count);
    }
  }

  lemma OnceMore(n: nat, m: nat, count: nat)
    requires m == n + 1
    ensures Times(m, count) == Times(n, count) + count
  {
  }

  lemma {:induction false} NothingNegative(results: seq<MatchResult>, id: string, g: PlayerMatchStats -> int)
    requires forall line :: g(line) >= 0
    ensures InResults(results, id, g) >= 0
  {
    if results != [] {
      NothingNegative(results[..|results| - 1], id, g);
      LinesNotNegative(results[|results| - 1].playerStats, id, g);
    }
  }

  lemma {:induction false} LinesNotNegative(lines: seq<PlayerMatchStats>, id: string, g: PlayerMatchStats -> int)
    requires forall line :: g(line) >= 0
    ensures InLines(lines, id, g) >= 0
  {
    if lines != [] {
      LinesNotNegative(lines[..|lines| - 1], id, g);
    }
  }

  /**
   * Each report adds the whole count so far. So a career counter equals the true count since entry if and only if
   * nothing was reported before, and the player is reported once or has nothing to count.
   */
  ghost predicate CountsSnapshots(earlier: seq<MatchResult>, completed: seq<MatchResult>, id: string, count: nat,
                                  f: AggregateStats -> int, g: PlayerMatchStats -> int,
                                  expected: int -> real, ranked: bool)
  {
    var before := InResults(earlier, id, g);
    var career := f(Of(AfterMatches(earlier + completed, expected, ranked).aggregates, id));
    && career == before + Times(|completed|, count)
    && (completed != [] ==> (career == count <==> before == 0 && (|completed| == 1 || count == 0)))
  }

  lemma SnapshotsCount(earlier: seq<MatchResult>, completed: seq<MatchResult>, id: string, count: nat,
                       f: AggregateStats -> int, g: PlayerMatchStats -> int, expected: int -> real, ranked: bool)
    requires Accumulates(f, g) && forall line :: g(line) >= 0
    requires forall k :: 0 <= k < |completed| ==> InLines(completed[k].playerStats, id, g) == count
    ensures CountsSnapshots(earlier, completed, id, count, f, g, expected, ranked)
  {
    CareerIsTheSum(earlier + completed, expected, ranked, id, f, g);
    SnapshotsAdd(earlier, completed, id, g, count);
    NothingNegative(earlier, id, g);
    ExactlyOnce(InResults(earlier, id, g), |completed|, count);
  }

  lemma ExactlyOnce(before: nat, times: nat, count: nat)
    ensures times > 0 ==> (before + Times(times, count) == count <==> before == 0 && (times == 1 || count == 0))
  {
    if times > 1 && count > 0 {
      assert times * count >= 2 * count;
    }
  }

  lemma SnapshotsOfState(earlier: seq<MatchResult>, completed: seq<MatchResult>, s: Session, id: string,
                         expected: int -> real, ranked: bool)
    requires Roster(s) && TrueCounters(s) && id in s.players && ReportsOf(completed, s)
    ensures CountsSnapshots(earlier, completed, id, ShotsSinceEntry(s, id),
                            CareerShots(), ReportedShots(), expected, ranked)
    ensures CountsSnapshots(earlier, completed, id, HitsSinceEntry(s, id),
                            CareerHits(), ReportedHits(), expected, ranked)
  {
    forall k | 0 <= k < |completed|
      ensures InLines(completed[k].playerStats, id, ReportedShots()) == ShotsSinceEntry(s, id)
      ensures InLines(completed[k].playerStats, id, ReportedHits()) == HitsSinceEntry(s, id)
    {
      ReportAddsSnapshot(s, completed[k], Filter(s.pendingDeaths, IsDeath())[k], id);
    }
    SnapshotsCount(earlier, completed, id, ShotsSinceEntry(s, id), CareerShots(), ReportedShots(), expected, ranked);
    SnapshotsCount(earlier, completed, id, HitsSinceEntry(s, id), CareerHits(), ReportedHits(), expected, ranked);
  }

  /** Shots and hits alike, for the reports of any reachable state, whatever has been recorded before. */
  lemma CareersCountSnapshots(run: Run, earlier: seq<MatchResult>, completed: seq<MatchResult>, id: string,
                              expected: int -> real, ranked: bool)
    requires Legal(run) && ReportsOf(completed, Final(run)) && id in Final(run).players
    ensures CountsSnapshots(earlier, completed, id, ShotsSinceEntry(Final(run), id),
                            CareerShots(), ReportedShots(), expected, ranked)
    ensures CountsSnapshots(earlier, completed, id, HitsSinceEntry(Final(run), id),
                            CareerHits(), ReportedHits(), expected, ranked)
  {
    EveryRun(run);
    EveryCounterIsTrue(run);
    SnapshotsOfState(earlier, completed, Final(run), id, expected, ranked);
  }
}
