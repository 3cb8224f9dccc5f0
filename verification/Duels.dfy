/** Runs in which reports are wrong: one player shoots the others, one after another, at the place where all enter. */
module Duels {
  import opened Seqs
  import opened Reals
  import opened Combat
  import opened Projectiles
  import opened SessionModel
  import opened GameSessions
  import opened SessionInvariants
  import opened SessionRuns
  import opened MatchStats
  import opened ExactStats
  import opened ExactReports
  import opened Driver
  import opened ProfileServices
  import opened RatingRuns
  import opened CareerTotals

  const SHOOTER: string := "A"

  /** A name longer than those of all victims before. */
  function Victim(n: nat): string {
    seq(n + 2, _ => 'v')
  }

  ghost predicate AtOrigin(r: PlayerRuntime) {
    r.state.x == 0.0 && r.state.y == 0.0 && r.state.isAlive
  }

  /**
   * The shooter may fire, nothing is in the air or pending, and of the others nobody lives but `target`, if anybody.
   */
  ghost predicate Ready(s: Session, target: Option<string>) {
    && SHOOTER in s.players && AtOrigin(s.players[SHOOTER])
    && s.players[SHOOTER].state.playerId == SHOOTER && s.players[SHOOTER].state.lastSequence == 0
    && !CoolingDown(s.players[SHOOTER].lastFireTime, s.elapsed)
    && s.projectiles == [] && s.pendingDeaths == []
    && (target.Some? ==>
          && target.value != SHOOTER && target.value in s.players && AtOrigin(s.players[target.value])
          && s.players[target.value].state.playerId == target.value)
    && (forall id :: id in s.players && id != SHOOTER && Some(id) != target ==> !s.players[id].state.isAlive)
  }

  // ----- one shot -----

  lemma NearOrigin(dx: real, dy: real)
    requires dx * dx + dy * dy == 1.0
    ensures (dx * SPAWN_OFFSET) * (dx * SPAWN_OFFSET) + (dy * SPAWN_OFFSET) * (dy * SPAWN_OFFSET) == 0.09
  {
    assert (dx * SPAWN_OFFSET) * (dx * SPAWN_OFFSET) == 0.09 * (dx * dx);
    assert (dy * SPAWN_OFFSET) * (dy * SPAWN_OFFSET) == 0.09 * (dy * dy);
  }

  /** Whoever fires at the origin fires a projectile that touches everybody there. */
  lemma ShotTouches(s: Session, input: MovementInput, roots: Roots, state: PlayerState)
    requires SHOOTER in s.players && AtOrigin(s.players[SHOOTER]) && state.x == state.y == 0.0
    requires roots.Of(input) && roots.aim >= MIN_AIM
    ensures Touches(Shot(s, SHOOTER, input, roots), state)
  {
    var p := Shot(s, SHOOTER, input, roots);
    var dx, dy := input.mouseX / roots.aim, input.mouseY / roots.aim;
    Normalised(input.mouseX, input.mouseY, roots.aim);
    NearOrigin(dx, dy);
    RootOfOne(roots.unit);
    assert p.x == dx * SPAWN_OFFSET && p.y == dy * SPAWN_OFFSET;
  }

  lemma StandsStill(state: PlayerState, input: MovementInput, root: real)
    ensures Moved(state, input, 0.0, root) == state
  {
  }

  /** The state after firing: the shooter's books, and one projectile that reaches the origin. */
  lemma Fires(s: Session, target: string, input: MovementInput, roots: Roots) returns (p: Projectile)
    requires Ready(s, Some(target)) && roots.Of(input) && input.fire && roots.aim >= MIN_AIM && input.sequence == 0
    ensures p.active && p.ownerId == SHOOTER && p.spawnTime == s.elapsed
    ensures forall state: PlayerState :: state.x == state.y == 0.0 ==> Touches(p, state)
    ensures var t := ApplyInput(s, SHOOTER, input, 0.0, roots);
      t == s.(projectileCounter := t.projectileCounter, projectiles := [p], spawnedTotal := t.spawnedTotal,
              players := t.players, history := s.history.(launched := t.history.launched))
    ensures var r, t := s.players[SHOOTER], ApplyInput(s, SHOOTER, input, 0.0, roots);
      t.players == s.players[SHOOTER := r.(lastFireTime := Some(s.elapsed), shotsFired := r.shotsFired + 1,
                                           state := r.state.(shotsFired := r.shotsFired + 1))]
  {
    StandsStill(s.players[SHOOTER].state.(lastSequence := 0), input, roots.move);
    var steered := Steer(s, SHOOTER, input, 0.0, roots);
    assert steered.players == s.players;
    p := Shot(steered, SHOOTER, input, roots);
    forall state: PlayerState | state.x == state.y == 0.0 ensures Touches(p, state) {
      ShotTouches(steered, input, roots, state);
    }
  }

  // ----- the tick in which it hits -----

  lemma RestsForNow(p: Projectile, now: real)
    requires p.active && p.spawnTime == now
    ensures Fly(p, 0.0, now) == p && !ExpiresAfter(0.0, now)(p)
  {
  }

  /** A tick of no duration leaves the one projectile where it is. */
  lemma BeginsAtOnce(s: Session, p: Projectile)
    requires s.projectiles == [p] && p.active && p.spawnTime == s.elapsed
    ensures BeginTick(s, 0.0) == s
  {
    RestsForNow(p, s.elapsed);
    assert FlyAll([p], 0.0, s.elapsed) == [p];
    assert [p][..0] == [];
    assert Count([p], ExpiresAfter(0.0, s.elapsed)) == 0;
  }

  /** The only target there is. */
  lemma ScanHits(s: Session, p: Projectile, order: seq<string>, target: string)
    requires Enumerates(order, s.players.Keys) && target in s.players && AtOrigin(s.players[target])
    requires p.ownerId == SHOOTER && target != SHOOTER
    requires forall id :: id in s.players ==> s.players[id].state.playerId == id
    requires forall id :: id in s.players && id != SHOOTER && id != target ==> !s.players[id].state.isAlive
    requires forall state: PlayerState :: state.x == state.y == 0.0 ==> Touches(p, state)
    ensures Scan(s.players, order, p, 0).target == Some(target)
  {
    ScanFindsPlayer(s.players, order, p, 0);
    var j :| 0 <= j < |order| && order[j] == target;
    assert Qualifies(p, s.players[order[j]].state);
  }

  /** So the tick is the hit, after which the dead projectile is swept away. */
  lemma TickHits(s: Session, p: Projectile, order: seq<string>, target: string, tick: nat)
    requires s.projectiles == [p] && p.active && p.spawnTime == s.elapsed
    requires forall id :: id in order ==> id in s.players
    requires target in s.players && Scan(s.players, order, p, 0).target == Some(target)
    ensures var counted := CountPairs(s, Scan(s.players, order, p, 0).pairs);
      Tick(s, tick, 0.0, order) == Sweep(HitPlayer(counted, 0, target, tick))
  {
    BeginsAtOnce(s, p);
    ResolveUnfolds(s, 0, tick, order);
  }

  /** What a hit of the only projectile leaves. */
  lemma SweptAfterHit(s: Session, p: Projectile, target: string, tick: nat)
    requires s.projectiles == [p] && target in s.players
    ensures Sweep(HitPlayer(s, 0, target, tick)).projectiles == []
  {
    var _, _ := TraceAfterHit(s, 0, target, tick);
    var dead := [p.Deactivate()];
    assert HitPlayer(s, 0, target, tick).projectiles == dead;
    assert dead[..0] == [];
    assert Filter(dead, Live()) == Filter([], Live()) + [];
  }

  lemma SomeOrder(ids: set<string>) returns (order: seq<string>)
    ensures Enumerates(order, ids)
    decreases ids
  {
    if ids == {} {
      order := [];
    } else {
      var id := Pick(ids);
      var rest := SomeOrder(ids - {id});
      order := rest + [id];
    }
  }

  /** What one more shot does, `t` being the state after the tick: target wounded, shooter's books, events added. */
  ghost predicate Shoots(s: Session, t: Session, target: string, dies: bool) {
    && SHOOTER in s.players && target in s.players && target != SHOOTER
    && t.players.Keys == s.players.Keys && t.projectiles == [] && t.elapsed == s.elapsed
    && t.players[target].health == s.players[target].health.ApplyDamage(DAMAGE_PER_HIT).0
    && t.players[target].state.playerId == s.players[target].state.playerId
    && t.players[target].state.isAlive == t.players[target].health.IsAlive()
    && t.players[target].state.x == s.players[target].state.x && t.players[target].state.y == s.players[target].state.y
    && t.players[SHOOTER].state.isAlive == s.players[SHOOTER].state.isAlive
    && t.players[SHOOTER].state.x == s.players[SHOOTER].state.x
    && t.players[SHOOTER].state.y == s.players[SHOOTER].state.y
    && t.players[SHOOTER].state.playerId == SHOOTER && t.players[SHOOTER].state.lastSequence == 0
    && t.players[SHOOTER].lastFireTime == Some(s.elapsed)
    && t.players[SHOOTER].shotsFired == s.players[SHOOTER].shotsFired + 1
    && (forall id :: id in s.players && id != SHOOTER && id != target ==> t.players[id] == s.players[id])
    && Events(s.history.trace) <= Events(t.history.trace)
    && |Events(t.history.trace)| == |Events(s.history.trace)| + (if dies then 2 else 1)
    && (exists e :: e in Events(t.history.trace) && e.targetId == target)
    && |t.pendingDeaths| == (if dies then 1 else 0)
  }

  lemma HitShoots(s: Session, f: Session, p: Projectile, target: string, pairs: nat)
    requires Ready(s, Some(target)) && p.ownerId == SHOOTER
    requires f == s.(projectileCounter := f.projectileCounter, projectiles := [p], spawnedTotal := f.spawnedTotal,
                     players := f.players, history := s.history.(launched := f.history.launched))
    requires var r := s.players[SHOOTER];
      f.players == s.players[SHOOTER := r.(lastFireTime := Some(s.elapsed), shotsFired := r.shotsFired + 1,
                                           state := r.state.(shotsFired := r.shotsFired + 1))]
    ensures Shoots(s, Sweep(HitPlayer(CountPairs(f, pairs), 0, target, 0)), target, DiesNext(s.players[target]))
  {
    var counted := CountPairs(f, pairs);
    SweptAfterHit(counted, p, target, 0);
    var hit, death := TraceAfterHit(counted, 0, target, 0);
    var t := HitPlayer(counted, 0, target, 0);
    assert hit.hit in Events(t.history.trace);
  }

  /** Fire, and let a tick of no duration pass: a step of any run that is ready. */
  lemma OneShot(s: Session, target: string) returns (input: MovementInput, roots: Roots, order: seq<string>)
    requires Ready(s, Some(target)) && Roster(s)
    ensures roots.Of(input) && Enumerates(order, ApplyInput(s, SHOOTER, input, 0.0, roots).players.Keys)
    ensures ApplyInput(s, SHOOTER, input, 0.0, roots).pendingDeaths == []
    ensures Shoots(s, Tick(ApplyInput(s, SHOOTER, input, 0.0, roots), 0, 0.0, order),
                   target, DiesNext(s.players[target]))
  {
    input, roots := SomeShot(0);
    var p := Fires(s, target, input, roots);
    var f := ApplyInput(s, SHOOTER, input, 0.0, roots);
    order := SomeOrder(f.players.Keys);
    forall id | id in f.players ensures f.players[id].state.playerId == id {
      assert Mirrored(s.players[id], id);
    }
    ScanHits(f, p, order, target);
    TickHits(f, p, order, target, 0);
    HitShoots(s, f, p, target, Scan(f.players, order, p, 0).pairs);
  }

  // ----- runs of shots -----

  lemma Extend(run: Run, op: Op)
    requires Legal(run) && Enabled(Final(run), op)
    ensures Legal(After(run, op)) && Final(After(run, op)) == Step(Final(run), op)
  {
  }

  /** In driver order so far, all ticks numbered 0. */
  ghost predicate OnAir(run: Run) {
    Legal(run) && Driven(run) && LastTick(run) == 0
  }

  /** A run that ends with a tick, its deaths not yet read. */
  ghost predicate AtReport(run: Run) {
    OnAir(run) && run.After? && run.op.Elapse?
  }

  ghost predicate Continues(run: Run, past: Run) {
    run == past || (run.After? && Continues(run.past, past))
  }

  ghost predicate SameCompany(run: Run, past: Run)
    requires Legal(run) && Legal(past)
  {
    Continues(run, past) && (Calm(past) ==> Calm(run))
  }

  lemma {:induction false} ContinuesFurther(c: Run, b: Run, a: Run)
    requires Continues(c, b) && Continues(b, a)
    ensures Continues(c, a)
  {
    if c != b {
      ContinuesFurther(c.past, b, a);
    }
  }

  lemma RosterOfRun(run: Run)
    requires Legal(run)
    ensures Roster(Final(run)) && Ledger(Final(run))
  {
    EveryRun(run);
  }

  /** One shot in driver order; the run ends with the tick that hits. */
  lemma Shoot(run: Run, target: string) returns (next: Run)
    requires OnAir(run) && Ready(Final(run), Some(target))
    ensures AtReport(next) && SameCompany(next, run)
    ensures Shoots(Final(run), Final(next), target, DiesNext(Final(run).players[target]))
  {
    RosterOfRun(run);
    var input, roots, order := OneShot(Final(run), target);
    var fired := After(run, Input(SHOOTER, input, 0.0, roots));
    Extend(run, Input(SHOOTER, input, 0.0, roots));
    next := After(fired, Elapse(0, 0.0, order));
    Extend(fired, Elapse(0, 0.0, order));
  }

  lemma NothingFlies(s: Session, delta: real, order: seq<string>)
    requires s.projectiles == [] && forall id :: id in order ==> id in s.players
    ensures Tick(s, 0, delta, order) == s.(elapsed := s.elapsed + delta)
  {
    assert FlyAll([], delta, s.elapsed + delta) == [];
  }

  /** Between shots the deaths are read and a cooldown passes. */
  ghost predicate Rests(s: Session, t: Session) {
    t == ConsumeDeaths(s).(elapsed := s.elapsed + FIRE_COOLDOWN)
  }

  ghost predicate Waits(s: Session, t: Session) {
    t == s.(elapsed := s.elapsed + FIRE_COOLDOWN)
  }

  lemma ReadDeaths(run: Run) returns (next: Run)
    requires OnAir(run)
    ensures OnAir(next) && SameCompany(next, run) && Final(next) == ConsumeDeaths(Final(run))
  {
    next := After(run, Consume);
    Extend(run, Consume);
  }

  lemma PassOnce(s: Session) returns (pass: Op)
    requires s.projectiles == []
    ensures pass.Elapse? && pass.tick == 0 && Enabled(s, pass)
    ensures Waits(s, Step(s, pass))
  {
    var order := SomeOrder(s.players.Keys);
    NothingFlies(s, FIRE_COOLDOWN, order);
    pass := Elapse(0, FIRE_COOLDOWN, order);
  }

  lemma Pass(run: Run) returns (next: Run)
    requires OnAir(run) && Final(run).projectiles == [] && Final(run).pendingDeaths == []
    ensures OnAir(next) && SameCompany(next, run) && Waits(Final(run), Final(next))
  {
    var pass := PassOnce(Final(run));
    next := After(run, pass);
    Extend(run, pass);
  }

  lemma Rest(run: Run) returns (next: Run)
    requires OnAir(run) && Final(run).projectiles == []
    ensures OnAir(next) && SameCompany(next, run) && Rests(Final(run), Final(next))
  {
    var read := ReadDeaths(run);
    next := Pass(read);
    ContinuesFurther(next, read, run);
  }

  /** How far a run has come: ready for `target`, after so many events and shots. */
  ghost predicate Standing(run: Run, target: Option<string>, events: nat, shots: nat) {
    && OnAir(run) && Ready(Final(run), target)
    && |Events(Final(run).history.trace)| == events && Final(run).players[SHOOTER].shotsFired == shots
  }

  lemma ReadyAgain(s: Session, t: Session, u: Session, target: string)
    requires Ready(s, Some(target)) && Shoots(s, t, target, DiesNext(s.players[target])) && Rests(t, u)
    ensures Ready(u, if t.players[target].state.isAlive then Some(target) else None)
  {
  }

  /** A living target stands at a multiple of 20 points; the next hit kills him just at 20. */
  lemma NextHit(s: Session, target: string)
    requires Roster(s) && Ledger(s) && Ready(s, Some(target))
    ensures s.players[target].health.current in {20, 40, 60, 80, 100}
    ensures DiesNext(s.players[target]) <==> s.players[target].health.current == 20
    ensures var wounded := s.players[target].health.ApplyDamage(DAMAGE_PER_HIT).0;
      wounded.current == s.players[target].health.current - 20
  {
    HealthAlternatives(s, target);
  }

  /** Keys, other players and the events so far stay. */
  ghost predicate Grows(s: Session, t: Session) {
    t.players.Keys == s.players.Keys && Events(s.history.trace) <= Events(t.history.trace)
  }

  lemma Wound(run: Run, target: string, events: nat, shots: nat) returns (next: Run)
    requires Standing(run, Some(target), events, shots) && Final(run).players[target].health.current > 20
    ensures Standing(next, Some(target), events + 1, shots + 1) && SameCompany(next, run)
    ensures Grows(Final(run), Final(next))
    ensures Final(next).players[target].health.current == Final(run).players[target].health.current - 20
    ensures exists e :: e in Events(Final(next).history.trace) && e.targetId == target
  {
    RosterOfRun(run);
    NextHit(Final(run), target);
    var shot := Shoot(run, target);
    next := Rest(shot);
    ContinuesFurther(next, shot, run);
    ReadyAgain(Final(run), Final(shot), Final(next), target);
  }

  /** The fatal hit, and the state in which it is reported. */
  lemma Kill(run: Run, target: string, events: nat, shots: nat) returns (report: Run, next: Run)
    requires Standing(run, Some(target), events, shots) && Final(run).players[target].health.current == 20
    ensures AtReport(report) && SameCompany(report, run) && |Final(report).pendingDeaths| == 1
    ensures Grows(Final(run), Final(report)) && |Events(Final(report).history.trace)| == events + 2
    ensures Final(report).players[SHOOTER].shotsFired == shots + 1
    ensures Standing(next, None, events + 2, shots + 1)
    ensures SameCompany(next, report) && Grows(Final(report), Final(next))
  {
    RosterOfRun(run);
    NextHit(Final(run), target);
    report := Shoot(run, target);
    next := Rest(report);
    ReadyAgain(Final(run), Final(report), Final(next), target);
  }

  lemma ReadyForNewcomer(s: Session, id: string)
    requires Ready(s, None) && Roster(s) && id != "" && id !in s.players
    ensures Ready(UpsertPlayer(s, id), Some(id)) && UpsertPlayer(s, id).players[id].health.current == 100
    ensures Events(UpsertPlayer(s, id).history.trace) == Events(s.history.trace)
  {
  }

  /** A victim enters at the origin, in full health. */
  lemma Enter(run: Run, id: string, events: nat, shots: nat) returns (next: Run)
    requires Standing(run, None, events, shots) && id != "" && id !in Final(run).players
    ensures Standing(next, Some(id), events, shots) && SameCompany(next, run)
    ensures Final(next).players.Keys == Final(run).players.Keys + {id} && Final(next).players[id].health.current == 100
    ensures Events(Final(run).history.trace) <= Events(Final(next).history.trace)
  {
    RosterOfRun(run);
    ReadyForNewcomer(Final(run), id);
    next := After(run, Join(id));
    Extend(run, Join(id));
  }

  /** Four hits; the fifth will be fatal. */
  lemma WoundFourTimes(run: Run, target: string, events: nat, shots: nat) returns (next: Run)
    requires Standing(run, Some(target), events, shots) && Final(run).players[target].health.current == 100
    ensures Standing(next, Some(target), events + 4, shots + 4) && SameCompany(next, run)
    ensures Grows(Final(run), Final(next)) && Final(next).players[target].health.current == 20
  {
    var one := Wound(run, target, events, shots);
    var two := Wound(one, target, events + 1, shots + 1);
    ContinuesFurther(two, one, run);
    var three := Wound(two, target, events + 2, shots + 2);
    ContinuesFurther(three, two, run);
    next := Wound(three, target, events + 3, shots + 3);
    ContinuesFurther(next, three, run);
  }

  /** A newcomer's whole story: enters, takes five hits, is reported dead. */
  lemma Story(run: Run, id: string, events: nat, shots: nat) returns (report: Run, next: Run)
    requires Standing(run, None, events, shots) && id != "" && id !in Final(run).players
    ensures AtReport(report) && SameCompany(report, run) && |Final(report).pendingDeaths| == 1
    ensures |Events(Final(report).history.trace)| == events + 6
    ensures SHOOTER in Final(report).players && Final(report).players[SHOOTER].shotsFired == shots + 5
    ensures Final(report).players.Keys == Final(run).players.Keys + {id}
    ensures Events(Final(run).history.trace) <= Events(Final(report).history.trace)
    ensures Standing(next, None, events + 6, shots + 5)
    ensures SameCompany(next, report) && Grows(Final(report), Final(next))
  {
    var entered := Enter(run, id, events, shots);
    var wounded := WoundFourTimes(entered, id, events, shots);
    ContinuesFurther(wounded, entered, run);
    report, next := Kill(wounded, id, events + 4, shots + 4);
    ContinuesFurther(report, wounded, run);
  }

  lemma ShooterAlone(s: Session)
    requires s == UpsertPlayer(EMPTY, SHOOTER)
    ensures Ready(s, None) && s.players.Keys == {SHOOTER} && s.players[SHOOTER].shotsFired == 0
    ensures Events(s.history.trace) == []
  {
  }

  lemma Opening() returns (run: Run)
    ensures Standing(run, None, 0, 0) && Calm(run) && Final(run).players.Keys == {SHOOTER}
  {
    Extend(Begin, Join(SHOOTER));
    run := After(Begin, Join(SHOOTER));
    ShooterAlone(Final(run));
  }

  ghost predicate ShortNames(s: Session, n: nat) {
    forall id :: id in s.players ==> |id| <= n + 1
  }

  /** After `n` victims. */
  lemma {:induction false} Rampage(n: nat) returns (run: Run)
    ensures Standing(run, None, 6 * n, 5 * n) && Calm(run) && ShortNames(Final(run), n)
  {
    if n == 0 {
      run := Opening();
    } else {
      var past := Rampage(n - 1);
      var _, next := Story(past, Victim(n - 1), 6 * (n - 1), 5 * (n - 1));
      run := next;
    }
  }

  // ----- reports that are wrong -----

  /** For every n there is a calm driven run whose last death is reported after 6 (n + 1) events. */
  lemma LongRun(n: nat) returns (report: Run)
    ensures AtReport(report) && Calm(report) && |Final(report).pendingDeaths| == 1
    ensures |Events(Final(report).history.trace)| == 6 * (n + 1)
  {
    var past := Rampage(n);
    var last, _ := Story(past, Victim(n), 6 * n, 5 * n);
    report := last;
  }

  /** So the count is exceeded: a calm driven run with a death to report, whose reports cannot be exact. */
  lemma TooManyEvents() returns (report: Run)
    ensures AtReport(report) && Calm(report) && Final(report).pendingDeaths != [] && !NothingDropped(Final(report))
    ensures forall completed :: ReportsOf(completed, Final(report)) ==> !AllExact(completed, Final(report))
  {
    report := LongRun(5);
    CalmReportsNeedOnlyCount(report);
    AllWrong(report);
  }

  lemma AllWrong(report: Run)
    requires AtReport(report) && Final(report).pendingDeaths != [] && !CleanLog(Final(report))
    ensures forall completed :: ReportsOf(completed, Final(report)) ==> !AllExact(completed, Final(report))
  {
    forall completed | ReportsOf(completed, Final(report)) ensures !AllExact(completed, Final(report)) {
      BroadcastReportsAreExact(report, completed);
    }
  }

  /** A player who leaves after a single hit spoils the next report, with seven events in the log. */
  lemma LeaverSpoilsReport() returns (report: Run)
    ensures AtReport(report) && Final(report).pendingDeaths != [] && NothingDropped(Final(report))
    ensures forall completed :: ReportsOf(completed, Final(report)) ==> !AllExact(completed, Final(report))
  {
    var opening := Opening();
    var entered := Enter(opening, "B", 0, 0);
    var wounded := Wound(entered, "B", 0, 0);
    var left := Leave(wounded, "B", 1, 1);
    var last, _ := Story(left, "C", 1, 1);
    report := last;
    LogOfRun(report);
    Spoiled(Final(left), Final(report), "B");
    AllWrong(report);
  }

  lemma Spoiled(s: Session, t: Session, id: string)
    requires Named(Events(s.history.trace), id) && Events(s.history.trace) <= Events(t.history.trace)
    requires id !in t.players && LogComplete(t) && NothingDropped(t)
    ensures !CleanLog(t)
  {
    var e :| e in Events(s.history.trace) && (e.shooterId == id || e.targetId == id);
    assert e in Events(t.history.trace);
    assert Named(t.log, id);
  }

  lemma LogOfRun(run: Run)
    requires Legal(run)
    ensures LogComplete(Final(run))
  {
    LosslessLog(run);
  }

  lemma Leave(run: Run, id: string, events: nat, shots: nat) returns (next: Run)
    requires Standing(run, Some(id), events, shots)
    ensures Standing(next, None, events, shots) && Continues(next, run)
    ensures Final(next).players.Keys == Final(run).players.Keys - {id}
    ensures Events(Final(next).history.trace) == Events(Final(run).history.trace)
  {
    next := After(run, Op.Leave(id));
    Extend(run, Op.Leave(id));
  }

  // ----- careers that are wrong -----

  lemma PositiveTimes(n: nat, count: nat)
    requires n > 0 && count > 0
    ensures Times(n, count) > 0
  {
  }

  /** Reports of a state with a death to report, in which the shooter has fired, put shots in his career. */
  lemma ReportsAddShots(run: Run, completed: seq<MatchResult>)
    requires AtReport(run) && ReportsOf(completed, Final(run)) && Final(run).pendingDeaths != []
    requires SHOOTER in Final(run).players && Final(run).players[SHOOTER].shotsFired > 0
    ensures completed != [] && InResults(completed, SHOOTER, ReportedShots()) > 0
  {
    EveryBroadcast(run);
    ReportsShots(Final(run), run.op.tick, completed);
  }

  lemma ReportsShots(s: Session, tick: nat, completed: seq<MatchResult>)
    requires Reportable(s, tick) && ReportsOf(completed, s) && s.pendingDeaths != []
    requires SHOOTER in s.players && s.players[SHOOTER].shotsFired > 0
    ensures completed != [] && InResults(completed, SHOOTER, ReportedShots()) > 0
  {
    PendingAreDeaths(s, tick);
    forall k | 0 <= k < |completed|
      ensures InLines(completed[k].playerStats, SHOOTER, ReportedShots()) == s.players[SHOOTER].shotsFired
    {
      ReportAddsSnapshot(s, completed[k], Filter(s.pendingDeaths, IsDeath())[k], SHOOTER);
    }
    SnapshotsAdd([], completed, SHOOTER, ReportedShots(), s.players[SHOOTER].shotsFired);
    assert [] + completed == completed;
    PositiveTimes(|completed|, s.players[SHOOTER].shotsFired);
  }

  ghost predicate WrongCareer(earlier: seq<MatchResult>, completed: seq<MatchResult>, s: Session,
                              expected: int -> real, ranked: bool)
  {
    var career := Of(AfterMatches(earlier + completed, expected, ranked).aggregates, SHOOTER);
    CareerShots()(career) != ShotsSinceEntry(s, SHOOTER)
  }

  /**
   * Two broadcasts of one calm driven run with a death each: whatever they report, the career recorded from them is not
   * the number of shots fired.
   */
  lemma CareersGoWrong(expected: int -> real, ranked: bool) returns (first: Run, second: Run)
    ensures AtReport(first) && AtReport(second) && Calm(second) && Continues(second, first)
    ensures Final(first).pendingDeaths != [] && Final(second).pendingDeaths != []
    ensures forall earlier, completed :: ReportsOf(earlier, Final(first)) && ReportsOf(completed, Final(second)) ==>
      WrongCareer(earlier, completed, Final(second), expected, ranked)
  {
    var opening := Opening();
    var report, next := Story(opening, Victim(0), 0, 0);
    var last, _ := Story(next, Victim(1), 6, 5);
    first, second := report, last;
    ContinuesFurther(second, next, first);
    forall earlier, completed | ReportsOf(earlier, Final(first)) && ReportsOf(completed, Final(second))
      ensures WrongCareer(earlier, completed, Final(second), expected, ranked)
    {
      ReportsAddShots(first, earlier);
      ReportsAddShots(second, completed);
      CareersCountSnapshots(second, earlier, completed, SHOOTER, expected, ranked);
    }
  }
}
