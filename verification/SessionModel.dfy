/** The combat session as a state machine over values: what each step of game_session.cpp does to the state. */
module SessionModel {
  import opened Seqs
  import opened Reals
  import opened Combat
  import opened Projectiles

  const PLAYER_SPEED: real := 5.0
  const PLAYER_RADIUS: real := 0.5
  const FIRE_COOLDOWN: real := 0.1
  const SPAWN_OFFSET: real := 0.3
  const DAMAGE_PER_HIT: nat := 20
  const MAX_HEALTH: int := 100
  const MIN_AIM: real := 0.000001

  datatype MovementInput = MovementInput(
    sequence: nat, up: bool, down: bool, left: bool, right: bool, mouseX: real, mouseY: real, fire: bool)
  {
    function Dx(): real { (if right then 1.0 else 0.0) - (if left then 1.0 else 0.0) }
    function Dy(): real { (if down then 1.0 else 0.0) - (if up then 1.0 else 0.0) }
  }

  /** The three square roots one input takes: of the movement, of the aim, and of the normalised aim. */
  datatype Roots = Roots(move: real, aim: real, unit: real) {
    predicate Of(input: MovementInput) {
      && IsRoot(input.Dx() * input.Dx() + input.Dy() * input.Dy(), move)
      && IsRoot(input.mouseX * input.mouseX + input.mouseY * input.mouseY, aim)
      && (aim > 0.0 ==>
            IsRoot((input.mouseX / aim) * (input.mouseX / aim) + (input.mouseY / aim) * (input.mouseY / aim), unit))
    }
  }

  datatype PlayerState = PlayerState(
    playerId: string, x: real, y: real, lastSequence: nat, health: int, isAlive: bool,
    shotsFired: nat, hitsLanded: nat, deaths: nat)

  /** `lastFireTime` is `None` where the program stores the lowest double: never fired. */
  datatype PlayerRuntime = PlayerRuntime(
    state: PlayerState, health: Health, lastFireTime: Option<real>, deathAnnounced: bool,
    shotsFired: nat, hitsLanded: nat, deaths: nat)

  const FRESH_STATE: PlayerState := PlayerState("", 0.0, 0.0, 0, 100, true, 0, 0, 0)
  const FRESH_RUNTIME: PlayerRuntime :=
    PlayerRuntime(FRESH_STATE, Health(MAX_HEALTH, MAX_HEALTH), None, false, 0, 0, 0)

  /**
   * What has happened so far, newest last. A join remembers whether the entry is made anew (its counters start from
   * zero) and how many projectiles had been launched; a hit, where and when the projectile was.
   */
  datatype Mark =
    | Joined(id: string, anew: bool, launched: nat)
    | Struck(hit: CombatEvent, x: real, y: real, time: real)
    | Died(death: CombatEvent)
  datatype Trace = Start | Then(past: Trace, mark: Mark)

  /** Bookkeeping the program does not keep: it never influences a step. */
  datatype History = History(
    trace: Trace, launched: seq<Projectile>, expired: nat, purged: nat, consumed: seq<CombatEvent>)

  datatype Session = Session(
    elapsed: real, projectileCounter: nat, log: seq<CombatEvent>,
    projectiles: seq<Projectile>, pendingDeaths: seq<CombatEvent>,
    spawnedTotal: nat, hitsTotal: nat, deadTotal: nat, collisionsTotal: nat,
    players: map<string, PlayerRuntime>, history: History)

  const EMPTY: Session :=
    Session(0.0, 0, [], [], [], 0, 0, 0, 0, map[], History(Start, [], 0, 0, []))

  function Append(log: seq<CombatEvent>, event: CombatEvent): seq<CombatEvent> {
    Suffix(log + [event], LOG_CAPACITY)
  }

  // ----- joining and leaving -----

  function Reset(r: PlayerRuntime): PlayerRuntime {
    var health := r.health.Reset();
    r.(health := health,
       state := r.state.(health := health.current, isAlive := health.IsAlive()),
       deathAnnounced := false,
       lastFireTime := None)
  }

  function Initialise(r: PlayerRuntime, id: string): PlayerRuntime {
    if r.state.playerId != "" then r
    else
      r.(shotsFired := 0, hitsLanded := 0, deaths := 0,
         state := r.state.(playerId := id, x := 0.0, y := 0.0, lastSequence := 0,
                           shotsFired := 0, hitsLanded := 0, deaths := 0))
  }

  function UpsertPlayer(s: Session, id: string): Session {
    var found := if id in s.players then s.players[id] else FRESH_RUNTIME;
    s.(players := s.players[id := Reset(Initialise(found, id))],
       history := s.history.(trace := Then(s.history.trace,
                                           Joined(id, found.state.playerId == "", |s.history.launched|))))
  }

  function OwnedBy(id: string): Projectile -> bool {
    (p: Projectile) => p.active && p.ownerId == id
  }

  function NotOwnedBy(id: string): Projectile -> bool {
    (p: Projectile) => p.ownerId != id
  }

  ghost function RemovePlayer(s: Session, id: string): Session {
    s.(players := s.players - {id},
       projectiles := Filter(s.projectiles, NotOwnedBy(id)),
       history := s.history.(purged := s.history.purged + Count(s.projectiles, OwnedBy(id))))
  }

  // ----- input -----

  predicate CoolingDown(lastFireTime: Option<real>, now: real) {
    lastFireTime.Some? && now - lastFireTime.value < FIRE_COOLDOWN
  }

  /** Scaling one axis of the movement to unit length; a zero movement is left alone. */
  function Scaled(d: real, root: real): real { if root > 0.0 then d / root else d }

  function Moved(state: PlayerState, input: MovementInput, delta: real, root: real): PlayerState {
    if !state.isAlive then state
    else
      var distance := PLAYER_SPEED * delta;
      state.(x := state.x + Mul(Scaled(input.Dx(), root), distance),
             y := state.y + Mul(Scaled(input.Dy(), root), distance))
  }

  function Launch(s: Session, id: string, p: Projectile): Session
    requires id in s.players
  {
    var r := s.players[id];
    var fired := r.shotsFired + 1;
    s.(projectileCounter := s.projectileCounter + 1,
       projectiles := s.projectiles + [p],
       spawnedTotal := s.spawnedTotal + 1,
       players := s.players[id := r.(lastFireTime := Some(s.elapsed), shotsFired := fired,
                                     state := r.state.(shotsFired := fired))],
       history := s.history.(launched := s.history.launched + [p]))
  }

  predicate CanFire(s: Session, id: string, input: MovementInput, roots: Roots)
    requires id in s.players
  {
    var r := s.players[id];
    input.fire && r.state.isAlive && roots.aim >= MIN_AIM && !CoolingDown(r.lastFireTime, s.elapsed)
  }

  /** The projectile a shot creates; the constructor's refusal cannot happen because its direction is a unit vector. */
  function Shot(s: Session, id: string, input: MovementInput, roots: Roots): (p: Projectile)
    requires id in s.players && roots.Of(input) && roots.aim >= MIN_AIM
    ensures p.dirX * p.dirX + p.dirY * p.dirY == 1.0
    ensures p.active && p.spawnTime == s.elapsed && p.id == s.projectileCounter + 1
    ensures p.ownerId == s.players[id].state.playerId
  {
    var state := s.players[id].state;
    var dirX, dirY := input.mouseX / roots.aim, input.mouseY / roots.aim;
    Normalised(input.mouseX, input.mouseY, roots.aim);
    RootOfOne(roots.unit);
    Make(s.projectileCounter + 1, state.playerId, state.x + dirX * SPAWN_OFFSET, state.y + dirY * SPAWN_OFFSET,
         dirX, dirY, s.elapsed, roots.unit).value
  }

  function TrySpawn(s: Session, id: string, input: MovementInput, roots: Roots): Session
    requires id in s.players && roots.Of(input)
  {
    if CanFire(s, id, input, roots) then Launch(s, id, Shot(s, id, input, roots)) else s
  }

  function Steer(s: Session, id: string, input: MovementInput, delta: real, roots: Roots): Session
    requires id in s.players
  {
    var r := s.players[id];
    var heard := r.state.(lastSequence := input.sequence);
    s.(players := s.players[id := r.(state := Moved(heard, input, delta, roots.move))])
  }

  function ApplyInput(s: Session, id: string, input: MovementInput, delta: real, roots: Roots): Session
    requires roots.Of(input)
  {
    if id !in s.players || input.sequence < s.players[id].state.lastSequence then s
    else TrySpawn(Steer(s, id, input, delta, roots), id, input, roots)
  }

  // ----- the tick -----

  function Live(): Projectile -> bool {
    (p: Projectile) => p.active
  }

  function ExpiresAfter(delta: real, now: real): Projectile -> bool {
    (p: Projectile) => p.active && p.Advance(delta).IsExpired(now)
  }

  function Fly(p: Projectile, delta: real, now: real): Projectile {
    var q := p.Advance(delta);
    if q.IsExpired(now) then q.Deactivate() else q
  }

  function FlyAll(ps: seq<Projectile>, delta: real, now: real): seq<Projectile> {
    seq(|ps|, i requires 0 <= i < |ps| => Fly(ps[i], delta, now))
  }

  lemma FlyAllAt(ps: seq<Projectile>, delta: real, now: real)
    ensures |FlyAll(ps, delta, now)| == |ps|
    ensures forall i :: 0 <= i < |ps| ==> FlyAll(ps, delta, now)[i] == Fly(ps[i], delta, now)
  {
  }

  ghost function BeginTick(s: Session, delta: real): Session {
    var now := s.elapsed + delta;
    s.(elapsed := now,
       projectiles := FlyAll(s.projectiles, delta, now),
       history := s.history.(expired := s.history.expired + Count(s.projectiles, ExpiresAfter(delta, now))))
  }

  /** The circle test alone. The program's cheaper box test in front of it must not change any outcome. */
  predicate Touches(p: Projectile, state: PlayerState) {
    var dx, dy, reach := p.x - state.x, p.y - state.y, RADIUS + PLAYER_RADIUS;
    dx * dx + dy * dy <= reach * reach
  }

  predicate Considers(p: Projectile, state: PlayerState) {
    state.isAlive && state.playerId != p.ownerId
  }

  datatype Scanned = Scanned(pairs: nat, target: Option<string>)

  /** One projectile against the players from place `k` of the iteration order on, up to its first hit. */
  function Scan(players: map<string, PlayerRuntime>, order: seq<string>, p: Projectile, k: nat): Scanned
    requires k <= |order| && forall id :: id in order ==> id in players
    decreases |order| - k
  {
    if k == |order| then Scanned(0, None)
    else
      var state := players[order[k]].state;
      if !Considers(p, state) then Scan(players, order, p, k + 1)
      else if Touches(p, state) then Scanned(1, Some(order[k]))
      else
        var rest := Scan(players, order, p, k + 1);
        Scanned(rest.pairs + 1, rest.target)
  }

  function Wounded(r: PlayerRuntime): PlayerRuntime {
    var health := r.health.ApplyDamage(DAMAGE_PER_HIT).0;
    r.(health := health, state := r.state.(health := health.current, isAlive := health.IsAlive()))
  }

  function Credited(r: PlayerRuntime): PlayerRuntime {
    r.(hitsLanded := r.hitsLanded + 1, state := r.state.(hitsLanded := r.hitsLanded + 1))
  }

  function Announced(r: PlayerRuntime): PlayerRuntime {
    r.(deathAnnounced := true, deaths := r.deaths + 1, state := r.state.(deaths := r.deaths + 1))
  }

  function CreditShooter(players: map<string, PlayerRuntime>, id: string): map<string, PlayerRuntime> {
    if id in players then players[id := Credited(players[id])] else players
  }

  /** Projectile `i` hits `target`: the projectile dies, the hit is logged, health and credit are booked. */
  function Strike(s: Session, i: nat, target: string, tick: nat): Session
    requires i < |s.projectiles| && target in s.players
  {
    var p, victim := s.projectiles[i], s.players[target];
    var hit := CombatEvent(Hit, p.ownerId, victim.state.playerId, p.id, DAMAGE_PER_HIT, tick);
    s.(projectiles := s.projectiles[i := p.Deactivate()],
       log := Append(s.log, hit),
       hitsTotal := s.hitsTotal + 1,
       players := CreditShooter(s.players[target := Wounded(victim)], p.ownerId),
       history := s.history.(trace := Then(s.history.trace, Struck(hit, p.x, p.y, s.elapsed))))
  }

  /** The death that follows a fatal hit, announced once. */
  function Bury(s: Session, i: nat, target: string, tick: nat): Session
    requires i < |s.projectiles| && target in s.players
  {
    var p, victim := s.projectiles[i], s.players[target];
    var death := CombatEvent(Death, p.ownerId, victim.state.playerId, p.id, 0, tick);
    s.(log := Append(s.log, death),
       pendingDeaths := s.pendingDeaths + [death],
       deadTotal := s.deadTotal + 1,
       players := s.players[target := Announced(victim)],
       history := s.history.(trace := Then(s.history.trace, Died(death))))
  }

  /** Whether the next hit is fatal: what `ApplyDamage` returns, and no death announced yet. */
  predicate DiesNext(r: PlayerRuntime) {
    r.health.ApplyDamage(DAMAGE_PER_HIT).1 && !r.deathAnnounced
  }

  function HitPlayer(s: Session, i: nat, target: string, tick: nat): Session
    requires i < |s.projectiles| && target in s.players
  {
    var struck := Strike(s, i, target, tick);
    if DiesNext(s.players[target]) then Bury(struck, i, target, tick) else struck
  }

  function CountPairs(s: Session, pairs: nat): Session {
    s.(collisionsTotal := s.collisionsTotal + pairs)
  }

  function Collide(s: Session, i: nat, tick: nat, order: seq<string>): (t: Session)
    requires i < |s.projectiles| && forall id :: id in order ==> id in s.players
    ensures |t.projectiles| == |s.projectiles| && t.players.Keys == s.players.Keys
  {
    if !s.projectiles[i].active then s
    else
      var scanned := Scan(s.players, order, s.projectiles[i], 0);
      ScanFindsPlayer(s.players, order, s.projectiles[i], 0);
      var counted := CountPairs(s, scanned.pairs);
      if scanned.target.None? then counted else HitPlayer(counted, i, scanned.target.value, tick)
  }

  function Resolve(s: Session, i: nat, tick: nat, order: seq<string>): (t: Session)
    requires i <= |s.projectiles| && forall id :: id in order ==> id in s.players
    ensures t.players.Keys == s.players.Keys
    decreases |s.projectiles| - i
  {
    if i == |s.projectiles| then s else Resolve(Collide(s, i, tick, order), i + 1, tick, order)
  }

  function Sweep(s: Session): Session {
    s.(projectiles := Filter(s.projectiles, Live()))
  }

  ghost function Tick(s: Session, tick: nat, delta: real, order: seq<string>): Session
    requires forall id :: id in order ==> id in s.players
  {
    Sweep(Resolve(BeginTick(s, delta), 0, tick, order))
  }

  function ConsumeDeaths(s: Session): Session {
    s.(pendingDeaths := [], history := s.history.(consumed := s.history.consumed + s.pendingDeaths))
  }

  // ----- what a scan finds -----

  predicate Qualifies(p: Projectile, state: PlayerState) {
    Considers(p, state) && Touches(p, state)
  }

  /** The target of a scan is a living other player within reach, and no earlier one in the order was. */
  ghost predicate IsFirst(players: map<string, PlayerRuntime>, order: seq<string>, p: Projectile, k: nat, j: int)
    requires k <= |order| && forall id :: id in order ==> id in players
  {
    && k <= j < |order| && Qualifies(p, players[order[j]].state)
    && forall m :: k <= m < j ==> !Qualifies(p, players[order[m]].state)
  }

  lemma {:induction false} ScanFindsPlayer(players: map<string, PlayerRuntime>, order: seq<string>,
                                           p: Projectile, k: nat)
    requires k <= |order| && forall id :: id in order ==> id in players
    ensures var target := Scan(players, order, p, k).target;
      && (target.Some? ==>
            && target.value in order && Considers(p, players[target.value].state)
            && exists j :: IsFirst(players, order, p, k, j) && order[j] == target.value)
      && (target.None? ==> forall j :: k <= j < |order| ==> !Qualifies(p, players[order[j]].state))
    decreases |order| - k
  {
    if k < |order| {
      ScanFindsPlayer(players, order, p, k + 1);
      if Qualifies(p, players[order[k]].state) {
        assert IsFirst(players, order, p, k, k);
      } else {
        var target := Scan(players, order, p, k + 1).target;
        if target.Some? {
          var j :| IsFirst(players, order, p, k + 1, j) && order[j] == target.value;
          assert IsFirst(players, order, p, k, j);
        }
      }
    }
  }
}
