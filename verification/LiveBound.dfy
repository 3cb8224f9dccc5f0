/** How many projectiles one player can have in flight, and how many pairs a tick can examine. */
module LiveBound {
  import opened Seqs
  import opened Projectiles
  import opened SessionModel
  import opened GameSessions
  import opened SessionInvariants
  import opened SessionRuns
  import opened Trajectories

  const MAX_LIVE: nat := 15

  /** Joining resets the cooldown; it does no harm when every shot of `id` in flight left at least a cooldown ago. */
  ghost predicate Rested(s: Session, id: string) {
    forall i :: 0 <= i < |s.projectiles| && OwnedBy(id)(s.projectiles[i]) ==>
      s.projectiles[i].spawnTime + FIRE_COOLDOWN <= s.elapsed
  }

  ghost predicate RestedJoins(run: Run)
    requires Legal(run)
  {
    match run
    case Begin => true
    case After(past, op) => RestedJoins(past) && (op.Join? ==> Rested(Final(past), op.id))
  }

  /** Nobody absent has a shot in flight: first joins, and joins after leaving, are always rested. */
  lemma AbsentIsRested(s: Session, id: string)
    requires Roster(s) && id !in s.players
    ensures Rested(s, id)
  {
  }

  ghost predicate Rivals(p: Projectile, q: Projectile) {
    p.active && q.active && p.ownerId == q.ownerId && p.id < q.id
  }

  /** Shots of one player leave at least a cooldown apart. */
  ghost predicate Spacing(s: Session) {
    forall i, j ::
      0 <= i < |s.projectiles| && 0 <= j < |s.projectiles| && Rivals(s.projectiles[i], s.projectiles[j]) ==>
      s.projectiles[i].spawnTime + FIRE_COOLDOWN <= s.projectiles[j].spawnTime
  }

  /**
   * The shots are apart, and the next one of each player will be, by his last fire time or because his shots are old.
   */
  ghost predicate Cooldown(s: Session) {
    && Spacing(s)
    && (forall i :: 0 <= i < |s.projectiles| && s.projectiles[i].active ==>
          && s.projectiles[i].ownerId in s.players
          && var last := s.players[s.projectiles[i].ownerId].lastFireTime;
             || (last.Some? && s.projectiles[i].spawnTime <= last.value)
             || s.projectiles[i].spawnTime + FIRE_COOLDOWN <= s.elapsed)
    && (forall id :: id in s.players && s.players[id].lastFireTime.Some? ==>
          s.players[id].lastFireTime.value <= s.elapsed)
  }

  lemma CooldownUpsert(s: Session, id: string)
    requires Cooldown(s) && Rested(s, id)
    ensures Cooldown(UpsertPlayer(s, id))
  {
  }

  lemma CooldownFewer(s: Session, s': Session)
    requires Cooldown(s) && s'.elapsed >= s.elapsed
    requires forall p :: p in s'.projectiles ==> p in s.projectiles && (p.active ==> p.ownerId in s'.players)
    requires forall id :: id in s'.players ==>
      id in s.players && s'.players[id].lastFireTime == s.players[id].lastFireTime
    ensures Cooldown(s')
  {
  }

  /** Moving or retiring projectiles in place. */
  lemma CooldownInPlace(s: Session, s': Session)
    requires Cooldown(s) && s'.elapsed >= s.elapsed && |s'.projectiles| == |s.projectiles|
    requires forall i :: 0 <= i < |s.projectiles| ==>
      var p, q := s.projectiles[i], s'.projectiles[i];
      q.id == p.id && q.ownerId == p.ownerId && q.spawnTime == p.spawnTime && (q.active ==> p.active)
    requires s'.players.Keys == s.players.Keys
    requires forall id :: id in s.players ==> s'.players[id].lastFireTime == s.players[id].lastFireTime
    ensures Cooldown(s')
  {
  }

  lemma CooldownLaunch(s: Session, id: string, p: Projectile)
    requires Cooldown(s) && id in s.players && !CoolingDown(s.players[id].lastFireTime, s.elapsed)
    requires p.ownerId == id && p.spawnTime == s.elapsed
    requires forall i :: 0 <= i < |s.projectiles| ==> s.projectiles[i].id < p.id
    ensures Cooldown(Launch(s, id, p))
  {
  }

  lemma CooldownHit(s: Session, i: nat, target: string, tick: nat)
    requires Cooldown(s) && CanHit(s, i, target)
    ensures Cooldown(HitPlayer(s, i, target, tick))
  {
    var _, _ := TraceAfterHit(s, i, target, tick);
    FireTimesAfterHit(s, i, target, tick);
    CooldownInPlace(s, HitPlayer(s, i, target, tick));
  }

  lemma FireTimesAfterHit(s: Session, i: nat, target: string, tick: nat)
    requires i < |s.projectiles| && target in s.players
    ensures var players := HitPlayer(s, i, target, tick).players;
      && players.Keys == s.players.Keys
      && forall id :: id in s.players ==> players[id].lastFireTime == s.players[id].lastFireTime
  {
  }

  lemma CooldownCollide(s: Session, i: nat, tick: nat, order: seq<string>)
    requires Cooldown(s) && i < |s.projectiles| && forall id :: id in order ==> id in s.players
    ensures Cooldown(Collide(s, i, tick, order))
  {
    if s.projectiles[i].active {
      var scanned := Scan(s.players, order, s.projectiles[i], 0);
      ScanFindsPlayer(s.players, order, s.projectiles[i], 0);
      var counted := CountPairs(s, scanned.pairs);
      CooldownInPlace(s, counted);
      if scanned.target.Some? {
        CooldownHit(counted, i, scanned.target.value, tick);
      }
    }
  }

  lemma {:induction false} CooldownResolve(s: Session, i: nat, tick: nat, order: seq<string>)
    requires Cooldown(s) && i <= |s.projectiles| && forall id :: id in order ==> id in s.players
    ensures Cooldown(Resolve(s, i, tick, order))
    decreases |s.projectiles| - i
  {
    if i < |s.projectiles| {
      CooldownCollide(s, i, tick, order);
      CooldownResolve(Collide(s, i, tick, order), i + 1, tick, order);
    }
  }

  lemma CooldownBegin(s: Session, delta: real)
    requires Cooldown(s) && delta >= 0.0
    ensures Cooldown(BeginTick(s, delta))
  {
    FlyAllAt(s.projectiles, delta, s.elapsed + delta);
    CooldownInPlace(s, BeginTick(s, delta));
  }

  lemma CooldownTick(s: Session, tick: nat, delta: real, order: seq<string>)
    requires Cooldown(s) && delta >= 0.0 && forall id :: id in order ==> id in s.players
    ensures Cooldown(Tick(s, tick, delta, order))
  {
    var begun := BeginTick(s, delta);
    CooldownBegin(s, delta);
    CooldownResolve(begun, 0, tick, order);
    var resolved := Resolve(begun, 0, tick, order);
    FilterMembers(resolved.projectiles, Live());
    CooldownFewer(resolved, Sweep(resolved));
  }

  lemma CooldownInput(s: Session, id: string, input: MovementInput, delta: real, roots: Roots)
    requires Cooldown(s) && Inv(s) && roots.Of(input)
    ensures Cooldown(ApplyInput(s, id, input, delta, roots))
  {
    if id in s.players && input.sequence >= s.players[id].state.lastSequence {
      var moved := Steer(s, id, input, delta, roots);
      CooldownInPlace(s, moved);
      if CanFire(moved, id, input, roots) {
        assert Mirrored(s.players[id], id);
        CooldownLaunch(moved, id, Shot(moved, id, input, roots));
      }
    }
  }

  lemma CooldownRemove(s: Session, id: string)
    requires Cooldown(s)
    ensures Cooldown(RemovePlayer(s, id))
  {
    FilterMembers(s.projectiles, NotOwnedBy(id));
    CooldownFewer(s, RemovePlayer(s, id));
  }

  lemma {:induction false} EveryRestedRun(run: Run)
    requires Legal(run) && RestedJoins(run)
    ensures Cooldown(Final(run))
  {
    if run.After? {
      var s := Final(run.past);
      EveryRestedRun(run.past);
      EveryRun(run.past);
      match run.op
      case Join(id) => CooldownUpsert(s, id);
      case Leave(id) => CooldownRemove(s, id);
      case Input(id, input, delta, roots) => CooldownInput(s, id, input, delta, roots);
      case Elapse(tick, delta, order) => CooldownTick(s, tick, delta, order);
      case Consume => CooldownInPlace(s, ConsumeDeaths(s));
    }
  }

  // ----- counting -----

  /** `c` shots spaced by the cooldown, all after `floor`: the last one is more than `c - 1` cooldowns after it. */
  lemma {:induction false} LastOfMany(ps: seq<Projectile>, id: string, floor: real) returns (last: nat)
    requires forall i, j :: 0 <= i < j < |ps| && OwnedBy(id)(ps[i]) && OwnedBy(id)(ps[j]) ==>
      ps[i].spawnTime + FIRE_COOLDOWN <= ps[j].spawnTime
    requires forall i :: 0 <= i < |ps| && OwnedBy(id)(ps[i]) ==> ps[i].spawnTime > floor
    ensures Count(ps, OwnedBy(id)) > 0 ==>
      && last < |ps| && OwnedBy(id)(ps[last])
      && ps[last].spawnTime > floor + FIRE_COOLDOWN * ((Count(ps, OwnedBy(id)) - 1) as real)
  {
    last := 0;
    if ps != [] {
      var n := |ps| - 1;
      last := LastOfMany(ps[..n], id, floor);
      if OwnedBy(id)(ps[n]) {
        if Count(ps[..n], OwnedBy(id)) > 0 {
          assert OwnedBy(id)(ps[..n][last]);
        }
        last := n;
      }
    }
  }

  lemma Ages(s: Session)
    requires Flight(s)
    ensures forall i :: 0 <= i < |s.projectiles| && s.projectiles[i].active ==>
      s.elapsed - LIFETIME < s.projectiles[i].spawnTime <= s.elapsed
  {
  }

  lemma AtMostFifteen(s: Session, id: string)
    requires Cooldown(s) && Identity(s)
    requires forall i :: 0 <= i < |s.projectiles| && s.projectiles[i].active ==>
      s.elapsed - LIFETIME < s.projectiles[i].spawnTime <= s.elapsed
    ensures Count(s.projectiles, OwnedBy(id)) <= MAX_LIVE
  {
    forall i, j | 0 <= i < j < |s.projectiles| && OwnedBy(id)(s.projectiles[i]) && OwnedBy(id)(s.projectiles[j])
      ensures s.projectiles[i].spawnTime + FIRE_COOLDOWN <= s.projectiles[j].spawnTime
    {
      assert Rivals(s.projectiles[i], s.projectiles[j]);
    }
    var last := LastOfMany(s.projectiles, id, s.elapsed - LIFETIME);
  }

  /** The bound in one state: 15 a player, so 15 times the number of players. */
  lemma BoundedState(s: Session)
    requires Roster(s) && Identity(s) && Flight(s) && Cooldown(s)
    ensures forall id :: Count(s.projectiles, OwnedBy(id)) <= MAX_LIVE
    ensures Count(s.projectiles, Live()) <= MAX_LIVE * |s.players|
  {
    Ages(s);
    forall id ensures Count(s.projectiles, OwnedBy(id)) <= MAX_LIVE {
      AtMostFifteen(s, id);
    }
    LivePerPlayer(s.projectiles, s.players.Keys);
  }

  lemma {:induction false} LivePerPlayer(ps: seq<Projectile>, ids: set<string>)
    requires forall i :: 0 <= i < |ps| && ps[i].active ==> ps[i].ownerId in ids
    requires forall id :: id in ids ==> Count(ps, OwnedBy(id)) <= MAX_LIVE
    ensures Count(ps, Live()) <= MAX_LIVE * |ids|
    decreases |ids|
  {
    if ids == {} {
      CountNone(ps, Live());
    } else {
      var id :| id in ids;
      var qs := Filter(ps, NotOwnedBy(id));
      WithoutOwner(ps, qs, ids, id);
      PurgeCounts(ps, id);
      LivePerPlayer(qs, ids - {id});
    }
  }

  lemma WithoutOwner(ps: seq<Projectile>, qs: seq<Projectile>, ids: set<string>, id: string)
    requires qs == Filter(ps, NotOwnedBy(id))
    requires forall i :: 0 <= i < |ps| && ps[i].active ==> ps[i].ownerId in ids
    ensures forall i :: 0 <= i < |qs| && qs[i].active ==> qs[i].ownerId in ids - {id}
    ensures forall other :: other in ids - {id} ==> Count(qs, OwnedBy(other)) == Count(ps, OwnedBy(other))
  {
    FilterMembers(ps, NotOwnedBy(id));
    forall i | 0 <= i < |qs| && qs[i].active ensures qs[i].ownerId in ids - {id} {
      assert qs[i] in qs;
    }
    forall other | other in ids - {id} ensures Count(qs, OwnedBy(other)) == Count(ps, OwnedBy(other)) {
      CountFilter(ps, NotOwnedBy(id), OwnedBy(other));
    }
  }

  /** A scan examines each player at most once, and never the owner. */
  lemma {:induction false} ScanPairs(players: map<string, PlayerRuntime>, order: seq<string>, p: Projectile, k: nat)
    requires k <= |order| && forall id :: id in order ==> id in players && players[id].state.playerId == id
    ensures Scan(players, order, p, k).pairs <= |order| - k
    ensures p.ownerId in order[k..] ==> Scan(players, order, p, k).pairs < |order| - k
    decreases |order| - k
  {
    if k < |order| {
      ScanPairs(players, order, p, k + 1);
      assert order[k..] == [order[k]] + order[k + 1..];
    }
  }

  lemma {:induction false} EnumerationSize(order: seq<string>, ids: set<string>)
    requires Enumerates(order, ids)
    ensures |order| == |ids|
  {
    if order == [] {
      assert ids == {} by { assert forall id :: id !in ids; }
    } else {
      var last, init := order[|order| - 1], order[..|order| - 1];
      forall id ensures id in init <==> id in ids - {last} {
        assert id in order <==> id in init || id == last;
      }
      EnumerationSize(init, ids - {last});
    }
  }

  /** What counting pairs needs of a state: players are filed under their ids, owners are present. */
  ghost predicate Filed(s: Session, order: seq<string>) {
    && (forall id :: id in order <==> id in s.players)
    && (forall id :: id in s.players ==> s.players[id].state.playerId == id)
    && (forall i :: 0 <= i < |s.projectiles| && s.projectiles[i].active ==> s.projectiles[i].ownerId in s.players)
  }

  lemma FiledAfterHit(s: Session, i: nat, target: string, tick: nat, order: seq<string>)
    requires Filed(s, order) && i < |s.projectiles| && target in s.players
    ensures Filed(HitPlayer(s, i, target, tick), order)
  {
    var _, _ := TraceAfterHit(s, i, target, tick);
  }

  lemma CollidePairs(s: Session, i: nat, tick: nat, order: seq<string>)
    requires Filed(s, order) && i < |s.projectiles|
    ensures var t := Collide(s, i, tick, order);
      && Filed(t, order) && t.projectiles[i + 1..] == s.projectiles[i + 1..]
      && t.collisionsTotal <= s.collisionsTotal + (if s.projectiles[i].active then |order| - 1 else 0)
  {
    if s.projectiles[i].active {
      assert order[0..] == order;
      ScanPairs(s.players, order, s.projectiles[i], 0);
      ScanFindsPlayer(s.players, order, s.projectiles[i], 0);
      var scanned := Scan(s.players, order, s.projectiles[i], 0);
      if scanned.target.Some? {
        FiledAfterHit(CountPairs(s, scanned.pairs), i, scanned.target.value, tick, order);
      }
    }
  }

  /** `most` for each live projectile. */
  ghost function Owed(ps: seq<Projectile>, most: nat): nat {
    if ps == [] then 0 else (if ps[0].active then most else 0) + Owed(ps[1..], most)
  }

  lemma {:induction false} OwedIsProduct(ps: seq<Projectile>, most: nat)
    ensures Owed(ps, most) == Count(ps, Live()) * most
  {
    if ps != [] {
      CountFront(ps, Live());
      OwedIsProduct(ps[1..], most);
    }
  }

  /** How many others an owner meets. */
  function OthersThan(n: nat): nat { if n == 0 then 0 else n - 1 }

  lemma {:induction false} ResolvePairs(s: Session, i: nat, tick: nat, order: seq<string>)
    requires Filed(s, order) && i <= |s.projectiles|
    ensures Resolve(s, i, tick, order).collisionsTotal <=
      s.collisionsTotal + Owed(s.projectiles[i..], OthersThan(|order|))
    decreases |s.projectiles| - i
  {
    if i < |s.projectiles| {
      CollidePairs(s, i, tick, order);
      ResolvePairs(Collide(s, i, tick, order), i + 1, tick, order);
      assert s.projectiles[i..][1..] == s.projectiles[i + 1..];
    }
  }

  lemma {:induction false} CountAll(ps: seq<Projectile>)
    requires forall i :: 0 <= i < |ps| ==> ps[i].active
    ensures Count(ps, Live()) == |ps|
  {
    if ps != [] {
      CountAll(ps[..|ps| - 1]);
    }
  }

  /** At most 15 projectiles a player, all younger than 1.5 s, those of one player a cooldown apart. */
  ghost predicate ShotsBounded(s: Session) {
    && (forall id :: Count(s.projectiles, OwnedBy(id)) <= MAX_LIVE)
    && |s.projectiles| <= MAX_LIVE * |s.players|
    && Spacing(s)
    && (forall i :: 0 <= i < |s.projectiles| ==> s.elapsed - LIFETIME < s.projectiles[i].spawnTime <= s.elapsed)
  }

  lemma ShotsBoundedState(s: Session)
    requires Roster(s) && Identity(s) && Flight(s) && Cooldown(s) && AllLive(s)
    ensures ShotsBounded(s)
  {
    BoundedState(s);
    CountAll(s.projectiles);
    Ages(s);
  }

  lemma LiveProjectileBound(run: Run)
    requires Legal(run) && RestedJoins(run)
    ensures ShotsBounded(Final(run))
  {
    EveryRun(run);
    EveryCourse(run);
    EveryRestedRun(run);
    ShotsBoundedState(Final(run));
  }

  lemma FiledState(s: Session, order: seq<string>)
    requires Roster(s) && Enumerates(order, s.players.Keys)
    ensures Filed(s, order) && |order| == |s.players|
  {
    EnumerationSize(order, s.players.Keys);
    forall id | id in s.players ensures s.players[id].state.playerId == id {
      assert Mirrored(s.players[id], id);
    }
  }

  lemma BoundedBegin(s: Session, delta: real)
    requires Inv(s) && Flight(s) && Cooldown(s) && delta >= 0.0
    ensures Roster(BeginTick(s, delta))
    ensures Count(BeginTick(s, delta).projectiles, Live()) <= MAX_LIVE * |s.players|
  {
    InvBegin(s, delta);
    FlightBegin(s, delta);
    CooldownBegin(s, delta);
    BoundedState(BeginTick(s, delta));
  }

  lemma PairsOfTick(s: Session, tick: nat, delta: real, order: seq<string>)
    requires Roster(BeginTick(s, delta)) && Enumerates(order, s.players.Keys)
    ensures Tick(s, tick, delta, order).collisionsTotal - s.collisionsTotal
         <= Count(BeginTick(s, delta).projectiles, Live()) * OthersThan(|s.players|)
  {
    var begun := BeginTick(s, delta);
    FiledState(begun, order);
    ResolvePairs(begun, 0, tick, order);
    assert begun.projectiles[0..] == begun.projectiles;
    OwedIsProduct(begun.projectiles, OthersThan(|s.players|));
  }

  lemma ProductsGrow(a: nat, b: nat, c: nat)
    requires a <= b
    ensures a * c <= b * c
  {
  }

  /** `15 n (n - 1)` for `n` players present, and none for nobody. */
  ghost predicate PairsBounded(s: Session, t: Session) {
    t.collisionsTotal - s.collisionsTotal <= (MAX_LIVE * |s.players|) * OthersThan(|s.players|)
  }

  lemma PairsBoundedState(s: Session, tick: nat, delta: real, order: seq<string>)
    requires Inv(s) && Flight(s) && Cooldown(s) && delta >= 0.0 && Enumerates(order, s.players.Keys)
    ensures PairsBounded(s, Tick(s, tick, delta, order))
  {
    BoundedBegin(s, delta);
    PairsOfTick(s, tick, delta, order);
    ProductsGrow(Count(BeginTick(s, delta).projectiles, Live()), MAX_LIVE * |s.players|, OthersThan(|s.players|));
  }

  /** With `n` players present, a tick after rested joins examines at most `15 n (n - 1)` projectile-player pairs. */
  lemma PairsPerTick(run: Run, tick: nat, delta: real, order: seq<string>)
    requires Legal(run) && RestedJoins(run) && delta >= 0.0
    requires Enumerates(order, Final(run).players.Keys)
    ensures PairsBounded(Final(run), Tick(Final(run), tick, delta, order))
  {
    EveryRun(run);
    EveryCourse(run);
    EveryRestedRun(run);
    PairsBoundedState(Final(run), tick, delta, order);
  }

  // ----- exactly which joins are harmless -----

  /** Every first input after joining `id`, at the same instant, leaves the shots apart. */
  ghost predicate HarmlessJoin(s: Session, id: string) {
    forall input: MovementInput, roots: Roots :: roots.Of(input) ==>
      Spacing(ApplyInput(UpsertPlayer(s, id), id, input, 0.0, roots))
  }

  /** A shot fired right after joining is the newest projectile, stamped with the present. */
  lemma ShotAfterJoin(s: Session, id: string, input: MovementInput, roots: Roots)
    requires Roster(s) && Identity(s) && id != "" && roots.Of(input) && input.fire && roots.aim >= MIN_AIM
    requires id in s.players ==> input.sequence >= s.players[id].state.lastSequence
    ensures var n, t := |s.projectiles|, ApplyInput(UpsertPlayer(s, id), id, input, 0.0, roots);
      && |t.projectiles| == n + 1 && t.projectiles[..n] == s.projectiles
      && OwnedBy(id)(t.projectiles[n]) && t.projectiles[n].spawnTime == s.elapsed
      && forall i :: 0 <= i < n ==> s.projectiles[i].id < t.projectiles[n].id
  {
    if id in s.players {
      assert Mirrored(s.players[id], id);
    }
  }

  lemma UnrestedJoinHarms(s: Session, id: string)
    requires Roster(s) && Identity(s) && id != "" && HarmlessJoin(s, id)
    ensures Rested(s, id)
  {
    var input, roots := SomeShot(if id in s.players then s.players[id].state.lastSequence else 0);
    var n, t := |s.projectiles|, ApplyInput(UpsertPlayer(s, id), id, input, 0.0, roots);
    ShotAfterJoin(s, id, input, roots);
    assert Spacing(t);
    forall i | 0 <= i < n && OwnedBy(id)(s.projectiles[i])
      ensures s.projectiles[i].spawnTime + FIRE_COOLDOWN <= s.elapsed
    {
      assert t.projectiles[i] == s.projectiles[i];
      assert Rivals(t.projectiles[i], t.projectiles[n]);
    }
  }

  lemma RestedJoinIsHarmless(s: Session, id: string)
    requires Inv(s) && Cooldown(s) && id != "" && Rested(s, id)
    ensures HarmlessJoin(s, id)
  {
    CooldownUpsert(s, id);
    InvUpsert(s, id);
    forall input: MovementInput, roots: Roots | roots.Of(input)
      ensures Spacing(ApplyInput(UpsertPlayer(s, id), id, input, 0.0, roots))
    {
      CooldownInput(UpsertPlayer(s, id), id, input, 0.0, roots);
    }
  }

  ghost predicate JoinsExactlyWhenRested(s: Session) {
    forall id :: id != "" ==> (HarmlessJoin(s, id) <==> Rested(s, id))
  }

  lemma HarmlessExactly(s: Session)
    requires Inv(s) && Cooldown(s)
    ensures JoinsExactlyWhenRested(s)
  {
    forall id | id != "" ensures HarmlessJoin(s, id) <==> Rested(s, id) {
      if Rested(s, id) {
        RestedJoinIsHarmless(s, id);
      }
      if HarmlessJoin(s, id) {
        UnrestedJoinHarms(s, id);
      }
    }
  }

  /**
   * The exact condition: after any run of rested joins, one more join leaves every player's shots a cooldown apart,
   * whatever input follows at once, if and only if it is rested too.
   */
  lemma RestedIsExact(run: Run)
    requires Legal(run) && RestedJoins(run)
    ensures JoinsExactlyWhenRested(Final(run))
  {
    EveryRun(run);
    EveryRestedRun(run);
    HarmlessExactly(Final(run));
  }

  // ----- unrested joins lift the bound altogether -----

  /** `n` rounds of joining again and firing at once. */
  ghost function Burst(n: nat, id: string, input: MovementInput, roots: Roots): Run {
    if n == 0 then Begin
    else After(After(Burst(n - 1, id, input, roots), Join(id)), Input(id, input, 0.0, roots))
  }

  /** `n` projectiles in flight, all fired by `id` at time zero. */
  ghost predicate AllAtOnce(s: Session, n: nat, id: string, sequence: nat) {
    && |s.projectiles| == n && s.elapsed == 0.0
    && (forall i :: 0 <= i < n ==> s.projectiles[i].ownerId == id && s.projectiles[i].spawnTime == 0.0)
    && (id in s.players ==> s.players[id].state.lastSequence <= sequence)
  }

  lemma OneMore(s: Session, n: nat, id: string, input: MovementInput, roots: Roots)
    requires Roster(s) && AllAtOnce(s, n, id, input.sequence) && id != ""
    requires roots.Of(input) && input.fire && roots.aim >= MIN_AIM
    ensures AllAtOnce(ApplyInput(UpsertPlayer(s, id), id, input, 0.0, roots), n + 1, id, input.sequence)
  {
  }

  /** Joining again resets the cooldown, so `n` rejoins put `n` projectiles of one player in flight at one instant. */
  lemma {:induction false} RejoiningLiftsTheBound(n: nat, id: string, input: MovementInput, roots: Roots)
    requires id != "" && roots.Of(input) && input.fire && roots.aim >= MIN_AIM
    ensures Legal(Burst(n, id, input, roots))
    ensures AllAtOnce(Final(Burst(n, id, input, roots)), n, id, input.sequence)
  {
    if n > 0 {
      RejoiningLiftsTheBound(n - 1, id, input, roots);
      BurstExtends(Burst(n - 1, id, input, roots), n - 1, id, input, roots);
    }
  }

  lemma BurstExtends(run: Run, n: nat, id: string, input: MovementInput, roots: Roots)
    requires id != "" && roots.Of(input) && input.fire && roots.aim >= MIN_AIM
    requires Legal(run) && AllAtOnce(Final(run), n, id, input.sequence)
    ensures var longer := After(After(run, Join(id)), Input(id, input, 0.0, roots));
      Legal(longer) && AllAtOnce(Final(longer), n + 1, id, input.sequence)
  {
    RosterOfRun(run);
    OneMore(Final(run), n, id, input, roots);
    Extend(run, Join(id));
    Extend(After(run, Join(id)), Input(id, input, 0.0, roots));
  }

  lemma RosterOfRun(run: Run)
    requires Legal(run)
    ensures Roster(Final(run))
  {
    EveryRun(run);
  }

  lemma Extend(run: Run, op: Op)
    requires Legal(run) && Enabled(Final(run), op)
    ensures Legal(After(run, op)) && Final(After(run, op)) == Step(Final(run), op)
  {
  }
}
