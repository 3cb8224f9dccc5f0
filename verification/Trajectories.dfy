/** Projectiles fly straight: closed-form positions over every run, and the range of every hit. */
module Trajectories {
  import opened Seqs
  import opened Reals
  import opened Projectiles
  import opened SessionModel
  import opened SessionInvariants
  import opened SessionRuns

  /** Where a projectile launched as `o` is at the given age. */
  ghost predicate AtAge(o: Projectile, x: real, y: real, age: real) {
    x == o.x + SPEED * Mul(o.dirX, age) && y == o.y + SPEED * Mul(o.dirY, age)
  }

  ghost predicate OnCourse(p: Projectile, launched: seq<Projectile>, now: real) {
    && 1 <= p.id <= |launched|
    && var o := launched[p.id - 1];
       && p.ownerId == o.ownerId && p.dirX == o.dirX && p.dirY == o.dirY && p.spawnTime == o.spawnTime
       && Mul(o.dirX, o.dirX) + Mul(o.dirY, o.dirY) == 1.0
       && (p.active ==> 0.0 <= now - o.spawnTime < LIFETIME && AtAge(o, p.x, p.y, now - o.spawnTime))
  }

  ghost predicate Flight(s: Session) {
    forall i :: 0 <= i < |s.projectiles| ==> OnCourse(s.projectiles[i], s.history.launched, s.elapsed)
  }

  /** The hit happened while its projectile was younger than its lifetime, on its straight course, within 45 m. */
  ghost predicate HitInRange(mark: Mark, launched: seq<Projectile>)
    requires mark.Struck?
  {
    && 1 <= mark.hit.projectileId <= |launched|
    && var o := launched[mark.hit.projectileId - 1];
       && mark.hit.shooterId == o.ownerId
       && 0.0 <= mark.time - o.spawnTime < LIFETIME
       && AtAge(o, mark.x, mark.y, mark.time - o.spawnTime)
       && Mul(mark.x - o.x, mark.x - o.x) + Mul(mark.y - o.y, mark.y - o.y) < 45.0 * 45.0
  }

  ghost predicate HitsInRange(t: Trace, launched: seq<Projectile>) {
    match t
    case Start => true
    case Then(past, Struck(hit, x, y, time)) =>
      HitInRange(Struck(hit, x, y, time), launched) && HitsInRange(past, launched)
    case Then(past, _) => HitsInRange(past, launched)
  }

  lemma {:induction false} MoreLaunched(t: Trace, launched: seq<Projectile>, p: Projectile)
    requires HitsInRange(t, launched)
    ensures HitsInRange(t, launched + [p])
  {
    if t.Then? {
      MoreLaunched(t.past, launched, p);
    }
  }

  lemma CourseExtends(o: Projectile, x: real, y: real, age: real, delta: real)
    requires AtAge(o, x, y, age)
    ensures AtAge(o, x + o.dirX * SPEED * delta, y + o.dirY * SPEED * delta, age + delta)
  {
    assert Mul(o.dirX, age + delta) == Mul(o.dirX, age) + Mul(o.dirX, delta);
    assert Mul(o.dirY, age + delta) == Mul(o.dirY, age) + Mul(o.dirY, delta);
    assert o.dirX * SPEED * delta == SPEED * Mul(o.dirX, delta);
    assert o.dirY * SPEED * delta == SPEED * Mul(o.dirY, delta);
  }

  /** A unit direction at 30 m/s for less than 1.5 s covers less than 45 m. */
  lemma WithinRange(o: Projectile, x: real, y: real, age: real)
    requires AtAge(o, x, y, age) && Mul(o.dirX, o.dirX) + Mul(o.dirY, o.dirY) == 1.0
    requires 0.0 <= age < LIFETIME
    ensures Mul(x - o.x, x - o.x) + Mul(y - o.y, y - o.y) < 45.0 * 45.0
  {
    var way := SPEED * age;
    assert x - o.x == Mul(o.dirX, way) && y - o.y == Mul(o.dirY, way);
    SquareOfProduct(o.dirX, way);
    SquareOfProduct(o.dirY, way);
    Distribute(Mul(o.dirX, o.dirX), Mul(o.dirY, o.dirY), Mul(way, way));
    SquaresGrow(way, 45.0);
  }

  lemma StaysOnCourse(p: Projectile, launched: seq<Projectile>, now: real, delta: real)
    requires OnCourse(p, launched, now) && delta >= 0.0
    ensures OnCourse(Fly(p, delta, now + delta), launched, now + delta)
  {
    var o := launched[p.id - 1];
    if p.active {
      var age := now - o.spawnTime;
      CourseExtends(o, p.x, p.y, age, delta);
      assert now + delta - o.spawnTime == age + delta;
    }
  }

  lemma AllStayOnCourse(ps: seq<Projectile>, flown: seq<Projectile>, launched: seq<Projectile>,
                        now: real, delta: real, later: real)
    requires forall i :: 0 <= i < |ps| ==> OnCourse(ps[i], launched, now)
    requires delta >= 0.0 && later == now + delta && flown == FlyAll(ps, delta, later)
    ensures forall i :: 0 <= i < |flown| ==> OnCourse(flown[i], launched, later)
  {
    FlyAllAt(ps, delta, later);
    forall i | 0 <= i < |flown| ensures OnCourse(flown[i], launched, later) {
      StaysOnCourse(ps[i], launched, now, delta);
    }
  }

  lemma FlightBegin(s: Session, delta: real)
    requires Flight(s) && delta >= 0.0
    ensures Flight(BeginTick(s, delta))
  {
    var s' := BeginTick(s, delta);
    AllStayOnCourse(s.projectiles, s'.projectiles, s.history.launched, s.elapsed, delta, s'.elapsed);
  }

  lemma FlightHit(s: Session, i: nat, target: string, tick: nat)
    requires Flight(s) && HitsInRange(s.history.trace, s.history.launched) && CanHit(s, i, target)
    ensures var s' := HitPlayer(s, i, target, tick);
      Flight(s') && HitsInRange(s'.history.trace, s'.history.launched)
  {
    var hit, death := TraceAfterHit(s, i, target, tick);
    var p := s.projectiles[i];
    assert OnCourse(p, s.history.launched, s.elapsed);
    var o := s.history.launched[p.id - 1];
    WithinRange(o, p.x, p.y, s.elapsed - o.spawnTime);
  }

  lemma FlightLaunch(s: Session, id: string, p: Projectile)
    requires Flight(s) && HitsInRange(s.history.trace, s.history.launched) && id in s.players
    requires p.id == |s.history.launched| + 1 && p.spawnTime == s.elapsed
    requires p.dirX * p.dirX + p.dirY * p.dirY == 1.0
    ensures var s' := Launch(s, id, p);
      Flight(s') && HitsInRange(s'.history.trace, s'.history.launched)
  {
    MoreLaunched(s.history.trace, s.history.launched, p);
    assert OnCourse(p, s.history.launched + [p], s.elapsed);
  }

  lemma FlightFewer(s: Session, s': Session)
    requires Flight(s) && s'.elapsed == s.elapsed && s'.history.launched == s.history.launched
    requires forall p :: p in s'.projectiles ==> p in s.projectiles
    ensures Flight(s')
  {
    forall i | 0 <= i < |s'.projectiles| ensures OnCourse(s'.projectiles[i], s'.history.launched, s'.elapsed) {
      assert s'.projectiles[i] in s.projectiles;
    }
  }

  ghost predicate Courses(s: Session) {
    Flight(s) && HitsInRange(s.history.trace, s.history.launched)
  }

  lemma CoursesCollide(s: Session, i: nat, tick: nat, order: seq<string>)
    requires Courses(s) && i < |s.projectiles| && forall id :: id in order ==> id in s.players
    ensures Courses(Collide(s, i, tick, order))
  {
    if s.projectiles[i].active {
      var scanned := Scan(s.players, order, s.projectiles[i], 0);
      ScanFindsPlayer(s.players, order, s.projectiles[i], 0);
      var counted := CountPairs(s, scanned.pairs);
      FlightFewer(s, counted);
      if scanned.target.Some? {
        FlightHit(counted, i, scanned.target.value, tick);
      }
    }
  }

  lemma {:induction false} CoursesResolve(s: Session, i: nat, tick: nat, order: seq<string>)
    requires Courses(s) && i <= |s.projectiles| && forall id :: id in order ==> id in s.players
    ensures Courses(Resolve(s, i, tick, order))
    decreases |s.projectiles| - i
  {
    if i < |s.projectiles| {
      CoursesCollide(s, i, tick, order);
      CoursesResolve(Collide(s, i, tick, order), i + 1, tick, order);
    }
  }

  lemma CoursesTick(s: Session, tick: nat, delta: real, order: seq<string>)
    requires Courses(s) && delta >= 0.0 && forall id :: id in order ==> id in s.players
    ensures Courses(Tick(s, tick, delta, order))
  {
    FlightBegin(s, delta);
    CoursesResolve(BeginTick(s, delta), 0, tick, order);
    var resolved := Resolve(BeginTick(s, delta), 0, tick, order);
    FilterMembers(resolved.projectiles, Live());
    FlightFewer(resolved, Sweep(resolved));
  }

  lemma CoursesShot(s: Session, id: string, input: MovementInput, roots: Roots)
    requires Courses(s) && Conservation(s) && id in s.players && roots.Of(input)
    ensures Courses(TrySpawn(s, id, input, roots))
  {
    if CanFire(s, id, input, roots) {
      FlightLaunch(s, id, Shot(s, id, input, roots));
    }
  }

  lemma CoursesInput(s: Session, id: string, input: MovementInput, delta: real, roots: Roots)
    requires Courses(s) && Conservation(s) && roots.Of(input)
    ensures Courses(ApplyInput(s, id, input, delta, roots))
  {
    if id in s.players && input.sequence >= s.players[id].state.lastSequence {
      FlightFewer(s, Steer(s, id, input, delta, roots));
      CoursesShot(Steer(s, id, input, delta, roots), id, input, roots);
    }
  }

  lemma CoursesStep(s: Session, op: Op)
    requires Courses(s) && Conservation(s) && Enabled(s, op)
    ensures Courses(Step(s, op))
  {
    match op
    case Join(id) => FlightFewer(s, UpsertPlayer(s, id));
    case Leave(id) =>
      FilterMembers(s.projectiles, NotOwnedBy(id));
      FlightFewer(s, RemovePlayer(s, id));
    case Input(id, input, delta, roots) => CoursesInput(s, id, input, delta, roots);
    case Elapse(tick, delta, order) => CoursesTick(s, tick, delta, order);
    case Consume => FlightFewer(s, ConsumeDeaths(s));
  }

  lemma ConservationOfRun(run: Run)
    requires Legal(run)
    ensures Conservation(Final(run))
  {
    EveryRun(run);
  }

  /** In every run each projectile is where straight flight puts it, and each recorded hit was within 1.5 s and 45 m. */
  lemma {:induction false} EveryCourse(run: Run)
    requires Legal(run)
    ensures Courses(Final(run))
  {
    if run.After? {
      EveryCourse(run.past);
      ConservationOfRun(run.past);
      CoursesStep(Final(run.past), run.op);
    }
  }
}
