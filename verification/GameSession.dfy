/** The in-place game session (game_session.cpp); every method is tied to the state machine of SessionModel. */
module GameSessions {
  import opened Seqs
  import opened Reals
  import opened Combat
  import opened Projectiles
  import opened SessionModel

  /** An iteration order of the hash map: any listing of its keys, each once. */
  ghost predicate Enumerates(order: seq<string>, ids: set<string>) {
    && (forall id :: id in order <==> id in ids)
    && (forall i, j :: 0 <= i < j < |order| ==> order[i] != order[j])
  }

  class GameSession {
    var elapsed: real
    var projectileCounter: nat
    const combatLog: CombatLog
    var projectiles: seq<Projectile>
    var pendingDeaths: seq<CombatEvent>
    var spawnedTotal: nat
    var hitsTotal: nat
    var deadTotal: nat
    var collisionsTotal: nat
    var players: map<string, PlayerRuntime>
    ghost var history: History

    ghost predicate Valid()
      reads this, combatLog
    {
      combatLog.Valid() && combatLog.capacity == LOG_CAPACITY
    }

    ghost function State(): Session
      reads this, combatLog
    {
      Session(elapsed, projectileCounter, combatLog.events, projectiles, pendingDeaths,
              spawnedTotal, hitsTotal, deadTotal, collisionsTotal, players, history)
    }

    constructor ()
      ensures Valid() && State() == EMPTY
      ensures fresh(combatLog)
    {
      elapsed, projectileCounter := 0.0, 0;
      combatLog := new CombatLog(LOG_CAPACITY);
      projectiles, pendingDeaths := [], [];
      spawnedTotal, hitsTotal, deadTotal, collisionsTotal := 0, 0, 0, 0;
      players := map[];
      history := EMPTY.history;
    }

    method UpsertPlayer(id: string)
      requires Valid()
      modifies this
      ensures Valid() && State() == SessionModel.UpsertPlayer(old(State()), id)
    {
      if id !in players {
        players := players[id := FRESH_RUNTIME];
      }
      var runtime := players[id];
      ghost var anew := runtime.state.playerId == "";
      if runtime.state.playerId == "" {
        var state := runtime.state.(playerId := id, x := 0.0, y := 0.0, lastSequence := 0,
        shotsFired := 0, hitsLanded := 0, deaths := 0);
        runtime := runtime.(state := state, shotsFired := 0, hitsLanded := 0, deaths := 0);
      }
      var health := runtime.health.Reset();
      runtime := runtime.(health := health,
      state := runtime.state.(health := health.current, isAlive := health.IsAlive()));
      runtime := runtime.(deathAnnounced := false, lastFireTime := None);
      players := players[id := runtime];
      history := history.(trace := Then(history.trace, Joined(id, anew, |history.launched|)));
    }

    method RemovePlayer(id: string)
      requires Valid()
      modifies this
      ensures Valid() && State() == SessionModel.RemovePlayer(old(State()), id)
    {
      players := players - {id};
      history := history.(purged := history.purged + Count(projectiles, OwnedBy(id)));
      projectiles := Filter(projectiles, NotOwnedBy(id));
    }

    method ApplyInput(id: string, input: MovementInput, delta: real, roots: Roots)
      requires Valid() && roots.Of(input)
      modifies this
      ensures Valid() && State() == SessionModel.ApplyInput(old(State()), id, input, delta, roots)
    {
      if id !in players {
        return;
      }
      var state := players[id].state;
      if input.sequence < state.lastSequence {
        return;
      }
      state := state.(lastSequence := input.sequence);
      state := Move(state, input, delta, roots.move);
      players := players[id := players[id].(state := state)];
      assert State() == Steer(old(State()), id, input, delta, roots);
      var _ := TrySpawnProjectile(id, input, roots);
    }

    static method Move(state: PlayerState, input: MovementInput, delta: real, root: real)
      returns (moved: PlayerState)
      ensures moved == Moved(state, input, delta, root)
    {
      moved := state;
      if state.isAlive {
        var dx, dy := 0.0, 0.0;
        if input.up { dy := dy - 1.0; }
        if input.down { dy := dy + 1.0; }
        if input.left { dx := dx - 1.0; }
        if input.right { dx := dx + 1.0; }
        assert dx == input.Dx() && dy == input.Dy();
        dx, dy := Scaled(dx, root), Scaled(dy, root);
        var distance := PLAYER_SPEED * delta;
        moved := state.(x := state.x + Mul(dx, distance), y := state.y + Mul(dy, distance));
      }
    }

    method TrySpawnProjectile(id: string, input: MovementInput, roots: Roots) returns (fired: bool)
      requires Valid() && id in players && roots.Of(input)
      modifies this
      ensures Valid() && State() == TrySpawn(old(State()), id, input, roots)
      ensures fired <==> CanFire(old(State()), id, input, roots)
    {
      var runtime := players[id];
      if !input.fire || !runtime.state.isAlive {
        return false;
      }
      if roots.aim < MIN_AIM {
        return false;
      }
      if CoolingDown(runtime.lastFireTime, elapsed) {
        return false;
      }
      ghost var shot := Shot(State(), id, input, roots);
      runtime := runtime.(lastFireTime := Some(elapsed));
      var dirX, dirY := input.mouseX / roots.aim, input.mouseY / roots.aim;
      var spawnX := runtime.state.x + dirX * SPAWN_OFFSET;
      var spawnY := runtime.state.y + dirY * SPAWN_OFFSET;
      Normalised(input.mouseX, input.mouseY, roots.aim);
      RootOfOne(roots.unit);
      projectileCounter := projectileCounter + 1;
      var made := Make(projectileCounter, runtime.state.playerId, spawnX, spawnY, dirX, dirY, elapsed, roots.unit);
      var projectile := made.value;
      assert projectile == shot;
      projectiles := projectiles + [projectile];
      spawnedTotal := spawnedTotal + 1;
      runtime := runtime.(shotsFired := runtime.shotsFired + 1);
      runtime := runtime.(state := runtime.state.(shotsFired := runtime.shotsFired));
      players := players[id := runtime];
      history := history.(launched := history.launched + [projectile]);
      return true;
    }

    method Tick(tick: nat, delta: real, order: seq<string>)
      requires Valid() && Enumerates(order, players.Keys)
      modifies this, combatLog
      ensures Valid() && State() == SessionModel.Tick(old(State()), tick, delta, order)
    {
      UpdateProjectiles(tick, delta, order);
    }

    method UpdateProjectiles(tick: nat, delta: real, order: seq<string>)
      requires Valid() && Enumerates(order, players.Keys)
      modifies this, combatLog
      ensures Valid() && State() == SessionModel.Tick(old(State()), tick, delta, order)
    {
      StartTick(delta);
      var pairsChecked := ResolveCollisions(tick, order);
      collisionsTotal := collisionsTotal + pairsChecked;
      projectiles := Filter(projectiles, Live());
    }

    method StartTick(delta: real)
      requires Valid()
      modifies this
      ensures Valid() && State() == BeginTick(old(State()), delta)
    {
      elapsed := elapsed + delta;
      history := history.(expired := history.expired + Count(projectiles, ExpiresAfter(delta, elapsed)));
      AdvanceProjectiles(delta);
    }

    /** The second loop of a tick. */
    method ResolveCollisions(tick: nat, order: seq<string>) returns (pairsChecked: nat)
      requires Valid() && forall id :: id in order ==> id in players
      modifies this, combatLog
      ensures Valid() && CountPairs(State(), pairsChecked) == Resolve(old(State()), 0, tick, order)
    {
      ghost var goal := Resolve(State(), 0, tick, order);
      pairsChecked := 0;
      assert CountPairs(State(), 0) == State();
      var i := 0;
      while i < |projectiles|
        invariant i <= |projectiles| && Valid()
        invariant forall id :: id in order ==> id in players
        invariant Resolve(CountPairs(State(), pairsChecked), i, tick, order) == goal
      {
        ghost var before := State();
        var pairs := StrikeFirst(i, tick, order);
        ResolveStep(before, State(), pairsChecked, pairs, i, tick, order);
        pairsChecked := pairsChecked + pairs;
        i := i + 1;
      }
    }

    /** The first loop of a tick: move every projectile, retire the expired ones. */
    method AdvanceProjectiles(delta: real)
      modifies this`projectiles
      ensures projectiles == FlyAll(old(projectiles), delta, elapsed)
    {
      var i := 0;
      while i < |projectiles|
        invariant i <= |projectiles| == |old(projectiles)|
        invariant forall j :: 0 <= j < i ==> projectiles[j] == Fly(old(projectiles)[j], delta, elapsed)
        invariant forall j :: i <= j < |projectiles| ==> projectiles[j] == old(projectiles)[j]
      {
        projectiles := projectiles[i := projectiles[i].Advance(delta)];
        if projectiles[i].IsExpired(elapsed) {
          projectiles := projectiles[i := projectiles[i].Deactivate()];
        }
        i := i + 1;
      }
      FlyAllAt(old(projectiles), delta, elapsed);
    }

    /** The body of the second loop: projectile `i` against all players, at most one hit. */
    method StrikeFirst(i: nat, tick: nat, order: seq<string>) returns (pairs: nat)
      requires Valid() && i < |projectiles|
      requires forall id :: id in order ==> id in players
      modifies this, combatLog
      ensures Valid() && CountPairs(State(), pairs) == Collide(old(State()), i, tick, order)
    {
      pairs := 0;
      if !projectiles[i].active {
        return;
      }
      var target;
      pairs, target := FindTarget(projectiles[i], order);
      if target.Some? {
        HitCommutes(State(), pairs, i, target.value, tick);
        ApplyHit(i, target.value, tick);
      }
    }

    /** The inner loop: box test, then circle test, stopping at the first hit. */
    method FindTarget(p: Projectile, order: seq<string>) returns (pairs: nat, target: Option<string>)
      requires forall id :: id in order ==> id in players
      ensures Scanned(pairs, target) == Scan(players, order, p, 0)
      ensures target.Some? ==> target.value in players
    {
      pairs := 0;
      ghost var all := Scan(players, order, p, 0);
      var k := 0;
      while k < |order|
        invariant k <= |order|
        invariant all == Scanned(pairs + Scan(players, order, p, k).pairs, Scan(players, order, p, k).target)
      {
        var state := players[order[k]].state;
        if state.isAlive && state.playerId != p.ownerId {
          pairs := pairs + 1;
          var dx, dy, radiusSum := p.x - state.x, p.y - state.y, RADIUS + PLAYER_RADIUS;
          BoxRejectsOnlyMisses(dx, dy, radiusSum);
          if !(Abs(dx) > radiusSum || Abs(dy) > radiusSum) && dx * dx + dy * dy <= radiusSum * radiusSum {
            return pairs, Some(order[k]);
          }
        }
        k := k + 1;
      }
      target := None;
    }

    method ApplyHit(i: nat, target: string, tick: nat)
      requires Valid() && i < |projectiles| && target in players
      modifies this, combatLog
      ensures Valid() && State() == HitPlayer(old(State()), i, target, tick)
    {
      var died := BookHit(i, target, tick);
      if died && !players[target].deathAnnounced {
        AnnounceDeath(i, target, tick);
      }
    }

    method BookHit(i: nat, target: string, tick: nat) returns (died: bool)
      requires Valid() && i < |projectiles| && target in players
      modifies this, combatLog
      ensures Valid() && State() == Strike(old(State()), i, target, tick)
      ensures died == old(players[target]).health.ApplyDamage(DAMAGE_PER_HIT).1
    {
      var p := projectiles[i];
      projectiles := projectiles[i := p.Deactivate()];
      var hit := CombatEvent(Hit, p.ownerId, players[target].state.playerId, p.id, DAMAGE_PER_HIT, tick);
      combatLog.Add(hit);
      hitsTotal := hitsTotal + 1;
      history := history.(trace := Then(history.trace, Struck(hit, p.x, p.y, elapsed)));

      var runtime := players[target];
      var (health, dead) := runtime.health.ApplyDamage(DAMAGE_PER_HIT);
      died := dead;
      runtime := runtime.(health := health);
      runtime := runtime.(state := runtime.state.(health := health.current, isAlive := health.IsAlive()));
      players := players[target := runtime];
      if p.ownerId in players {
        var shooter := players[p.ownerId];
        shooter := shooter.(hitsLanded := shooter.hitsLanded + 1);
        shooter := shooter.(state := shooter.state.(hitsLanded := shooter.hitsLanded));
        players := players[p.ownerId := shooter];
      }
    }

    method AnnounceDeath(i: nat, target: string, tick: nat)
      requires Valid() && i < |projectiles| && target in players
      modifies this, combatLog
      ensures Valid() && State() == Bury(old(State()), i, target, tick)
    {
      var p, runtime := projectiles[i], players[target];
      runtime := runtime.(deathAnnounced := true);
      var death := CombatEvent(Death, p.ownerId, runtime.state.playerId, p.id, 0, tick);
      pendingDeaths := pendingDeaths + [death];
      combatLog.Add(death);
      deadTotal := deadTotal + 1;
      runtime := runtime.(deaths := runtime.deaths + 1);
      runtime := runtime.(state := runtime.state.(deaths := runtime.deaths));
      players := players[target := runtime];
      history := history.(trace := Then(history.trace, Died(death)));
    }

    method Snapshot(order: seq<string>) returns (states: seq<PlayerState>)
      requires Enumerates(order, players.Keys)
      ensures |states| == |order| && forall k :: 0 <= k < |order| ==> states[k] == players[order[k]].state
    {
      states := [];
      for k := 0 to |order|
        invariant |states| == k && forall j :: 0 <= j < k ==> states[j] == players[order[j]].state
      {
        states := states + [players[order[k]].state];
      }
    }

    method ConsumeDeathEvents() returns (events: seq<CombatEvent>)
      requires Valid()
      modifies this
      ensures events == old(pendingDeaths)
      ensures Valid() && State() == ConsumeDeaths(old(State()))
    {
      events := pendingDeaths;
      pendingDeaths := [];
      history := history.(consumed := history.consumed + events);
    }
  }

  lemma HitCommutes(s: Session, pairs: nat, i: nat, target: string, tick: nat)
    requires i < |s.projectiles| && target in s.players
    ensures HitPlayer(CountPairs(s, pairs), i, target, tick) == CountPairs(HitPlayer(s, i, target, tick), pairs)
  {
  }

  /** Counting pairs locally and adding them at the end of the tick gives the same state as counting them at once. */
  lemma ResolveStep(s: Session, t: Session, pairs: nat, more: nat, i: nat, tick: nat, order: seq<string>)
    requires i < |s.projectiles| && forall id :: id in order ==> id in s.players
    requires CountPairs(t, more) == Collide(s, i, tick, order)
    ensures |t.projectiles| == |s.projectiles| && t.players.Keys == s.players.Keys
    ensures Resolve(CountPairs(s, pairs), i, tick, order) == Resolve(CountPairs(t, pairs + more), i + 1, tick, order)
  {
    var found := Scan(s.players, order, s.projectiles[i], 0);
    ScanFindsPlayer(s.players, order, s.projectiles[i], 0);
    if s.projectiles[i].active && found.target.Some? {
      HitCommutes(s, found.pairs, i, found.target.value, tick);
      HitCommutes(s, pairs + found.pairs, i, found.target.value, tick);
    }
    assert Collide(CountPairs(s, pairs), i, tick, order) == CountPairs(t, pairs + more);
  }

  /** A pair the box test rejects is also outside the circle. */
  lemma BoxRejectsOnlyMisses(dx: real, dy: real, reach: real)
    requires reach > 0.0
    ensures Abs(dx) > reach || Abs(dy) > reach ==> dx * dx + dy * dy > reach * reach
  {
  }
}
