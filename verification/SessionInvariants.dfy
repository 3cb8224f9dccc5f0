/** What every step of the combat session keeps. Each invariant has one lemma per kind of step. */
module SessionInvariants {
  import opened Seqs
  import opened MapSums
  import opened Combat
  import opened Projectiles
  import opened SessionModel

  // ----- reading the trace -----

  ghost function HitsSinceJoin(t: Trace, id: string): nat {
    match t
    case Start => 0
    case Then(past, Joined(j, _, _)) => if j == id then 0 else HitsSinceJoin(past, id)
    case Then(past, Struck(hit, _, _, _)) => HitsSinceJoin(past, id) + (if hit.targetId == id then 1 else 0)
    case Then(past, Died(_)) => HitsSinceJoin(past, id)
  }

  ghost function DeathsSinceJoin(t: Trace, id: string): nat {
    match t
    case Start => 0
    case Then(past, Joined(j, _, _)) => if j == id then 0 else DeathsSinceJoin(past, id)
    case Then(past, Struck(_, _, _, _)) => DeathsSinceJoin(past, id)
    case Then(past, Died(death)) => DeathsSinceJoin(past, id) + (if death.targetId == id then 1 else 0)
  }

  ghost function Events(t: Trace): seq<CombatEvent> {
    match t
    case Start => []
    case Then(past, Joined(_, _, _)) => Events(past)
    case Then(past, Struck(hit, _, _, _)) => Events(past) + [hit]
    case Then(past, Died(death)) => Events(past) + [death]
  }

  ghost function Deaths(t: Trace): seq<CombatEvent> {
    match t
    case Start => []
    case Then(past, Died(death)) => Deaths(past) + [death]
    case Then(past, _) => Deaths(past)
  }

  ghost function Joins(t: Trace): nat {
    match t
    case Start => 0
    case Then(past, Joined(_, _, _)) => Joins(past) + 1
    case Then(past, _) => Joins(past)
  }

  ghost function HitIds(t: Trace): set<nat> {
    match t
    case Start => {}
    case Then(past, Struck(hit, _, _, _)) => HitIds(past) + {hit.projectileId}
    case Then(past, _) => HitIds(past)
  }

  ghost function HitCount(t: Trace): nat {
    match t
    case Start => 0
    case Then(past, Struck(_, _, _, _)) => HitCount(past) + 1
    case Then(past, _) => HitCount(past)
  }

  /** A fatal hit and its death come together. */
  ghost predicate FollowsHit(past: Trace, death: CombatEvent) {
    && past.Then? && past.mark.Struck?
    && past.mark.hit.shooterId == death.shooterId && past.mark.hit.targetId == death.targetId
  }

  /** No projectile hits twice, none hits or kills its owner, a hit takes 20 points, and a death follows its hit. */
  ghost predicate SoundTrace(t: Trace) {
    match t
    case Start => true
    case Then(past, Struck(hit, _, _, _)) =>
      && hit.projectileId !in HitIds(past) && hit.shooterId != hit.targetId
      && hit.kind.Hit? && hit.damage == DAMAGE_PER_HIT && SoundTrace(past)
    case Then(past, Died(death)) =>
      death.kind.Death? && death.shooterId != death.targetId && FollowsHit(past, death) && SoundTrace(past)
    case Then(past, Joined(_, _, _)) => SoundTrace(past)
  }

  // ----- the invariants -----

  ghost predicate Mirrored(r: PlayerRuntime, id: string) {
    && r.state.playerId == id
    && r.state.health == r.health.current
    && r.state.isAlive == r.health.IsAlive()
    && r.state.shotsFired == r.shotsFired
    && r.state.hitsLanded == r.hitsLanded
    && r.state.deaths == r.deaths
    && r.health.max == MAX_HEALTH
  }

  /** The entries are filed under their own id, copies agree, and every projectile in flight has a present owner. */
  ghost predicate Roster(s: Session) {
    && (forall id :: id in s.players ==> Mirrored(s.players[id], id))
    && (forall i :: 0 <= i < |s.projectiles| && s.projectiles[i].active ==> s.projectiles[i].ownerId in s.players)
  }

  ghost predicate PlayerLedger(r: PlayerRuntime, t: Trace, id: string) {
    && r.health.current == MAX_HEALTH - DAMAGE_PER_HIT * HitsSinceJoin(t, id)
    && (r.deathAnnounced <==> r.health.current == 0)
  }

  /** At most five hits a life, and a death exactly when there were five. */
  ghost predicate LifeBounded(t: Trace, id: string) {
    && HitsSinceJoin(t, id) <= 5
    && DeathsSinceJoin(t, id) == (if HitsSinceJoin(t, id) == 5 then 1 else 0)
  }

  ghost predicate Ledger(s: Session) {
    var t := s.history.trace;
    && (forall id :: id in s.players ==> PlayerLedger(s.players[id], t, id))
    && (forall id :: LifeBounded(t, id))
    && s.history.consumed + s.pendingDeaths == Deaths(t)
    && s.deadTotal == |Deaths(t)|
    && s.log == Suffix(Events(t), LOG_CAPACITY)
  }

  ghost predicate Credit(s: Session) {
    forall id :: id in s.players ==>
      s.players[id].hitsLanded + Count(s.projectiles, OwnedBy(id)) <= s.players[id].shotsFired
  }

  ghost predicate Conservation(s: Session) {
    && s.spawnedTotal == Count(s.projectiles, Live()) + s.hitsTotal + s.history.expired + s.history.purged
    && s.hitsTotal == HitCount(s.history.trace)
    && s.spawnedTotal == s.projectileCounter == |s.history.launched|
  }

  /** Projectiles in flight carry ascending numbers already given out, none of which has hit before. */
  ghost predicate Numbered(ps: seq<Projectile>, counter: nat, t: Trace) {
    && (forall i, j :: 0 <= i < j < |ps| ==> ps[i].id < ps[j].id)
    && (forall i :: 0 <= i < |ps| ==> 1 <= ps[i].id <= counter)
    && (forall i :: 0 <= i < |ps| && ps[i].active ==> ps[i].id !in HitIds(t))
    && (forall n :: n in HitIds(t) ==> 1 <= n <= counter)
    && SoundTrace(t)
  }

  ghost predicate Identity(s: Session) {
    Numbered(s.projectiles, s.projectileCounter, s.history.trace)
  }

  /** One log entry for each 20 points of health still to lose, and one for the death. */
  function Reserve(): PlayerRuntime -> int {
    (r: PlayerRuntime) => r.health.current / DAMAGE_PER_HIT + (if r.health.IsAlive() then 1 else 0)
  }

  /** Events logged so far, plus those the present players can still cause, never exceed six for each join. */
  ghost predicate Budget(s: Session) {
    |Events(s.history.trace)| + Sum(s.players, Reserve()) <= 6 * Joins(s.history.trace)
  }

  ghost predicate Inv(s: Session) {
    Roster(s) && Ledger(s) && Credit(s) && Conservation(s) && Identity(s) && Budget(s)
  }

  ghost predicate CanHit(s: Session, i: nat, target: string) {
    && i < |s.projectiles| && s.projectiles[i].active
    && target in s.players && Considers(s.projectiles[i], s.players[target].state)
  }

  // ----- health, deaths and the log -----

  lemma LedgerUpsert(s: Session, id: string)
    requires Roster(s) && Ledger(s)
    ensures Roster(UpsertPlayer(s, id)) && Ledger(UpsertPlayer(s, id))
  {
    var s', t := UpsertPlayer(s, id), s.history.trace;
    forall other ensures LifeBounded(s'.history.trace, other) {
      assert LifeBounded(t, other);
    }
    forall other | other in s'.players ensures PlayerLedger(s'.players[other], s'.history.trace, other) {
      if other != id {
        assert PlayerLedger(s.players[other], t, other);
      }
    }
  }

  /** Steps that touch neither health nor events keep the ledger and the budget. */
  lemma LedgerFrame(s: Session, s': Session)
    requires Ledger(s) && Budget(s)
    requires s'.players.Keys == s.players.Keys
    requires forall id :: id in s.players ==>
      s'.players[id].health == s.players[id].health && s'.players[id].deathAnnounced == s.players[id].deathAnnounced
    requires s'.history.trace == s.history.trace && s'.log == s.log && s'.deadTotal == s.deadTotal
    requires s'.history.consumed + s'.pendingDeaths == s.history.consumed + s.pendingDeaths
    ensures Ledger(s') && Budget(s')
  {
    SumAgrees(s.players, s'.players, Reserve());
    forall id | id in s'.players ensures PlayerLedger(s'.players[id], s'.history.trace, id) {
      assert PlayerLedger(s.players[id], s.history.trace, id);
    }
  }

  lemma LedgerHit(s: Session, i: nat, target: string, tick: nat)
    requires Roster(s) && Ledger(s) && CanHit(s, i, target)
    ensures Roster(HitPlayer(s, i, target, tick))
    ensures Ledger(HitPlayer(s, i, target, tick))
    ensures DiesNext(s.players[target]) <==> s.players[target].health.current == DAMAGE_PER_HIT
  {
    var p, victim, t := s.projectiles[i], s.players[target], s.history.trace;
    assert PlayerLedger(victim, t, target) && LifeBounded(t, target);
    var struck := Strike(s, i, target, tick);
    var s' := HitPlayer(s, i, target, tick);
    var t' := s'.history.trace;
    forall id ensures LifeBounded(t', id) {
      assert LifeBounded(t, id);
    }
    forall id | id in s'.players ensures PlayerLedger(s'.players[id], t', id) && Mirrored(s'.players[id], id) {
      assert PlayerLedger(s.players[id], t, id) && Mirrored(s.players[id], id);
    }
    SuffixSnoc(Events(t), struck.history.trace.mark.hit, LOG_CAPACITY);
    if DiesNext(victim) {
      SuffixSnoc(Events(struck.history.trace), t'.mark.death, LOG_CAPACITY);
    }
  }

  // ----- credit -----

  /**
   * Joining keeps the credit exactly when the id is non-empty, or the empty id owns nothing in flight: the program
   * tells a new entry by its empty stored id, so the empty id is reset on every join, shots and hits included.
   */
  lemma CreditUpsert(s: Session, id: string)
    requires Roster(s) && Credit(s)
    ensures Credit(UpsertPlayer(s, id)) <==> id != "" || Count(s.projectiles, OwnedBy(id)) == 0
  {
    if id !in s.players {
      CountNone(s.projectiles, OwnedBy(id));
    } else {
      assert Mirrored(s.players[id], id);
    }
  }

  /** An input that fires, with its square roots: along the x axis, without moving. */
  lemma SomeShot(sequence: nat) returns (input: MovementInput, roots: Roots)
    ensures roots.Of(input) && input.fire && roots.aim >= MIN_AIM && input.sequence == sequence
  {
    input := MovementInput(sequence, false, false, false, false, 1.0, 0.0, true);
    roots := Roots(0.0, 1.0, 1.0);
  }

  ghost predicate OneShotOut(s: Session, id: string) {
    && s.players.Keys == {id} && Mirrored(s.players[id], id)
    && s.players[id].hitsLanded == 0 && s.players[id].shotsFired == 1
    && |s.projectiles| == 1 && OwnedBy(id)(s.projectiles[0])
  }

  lemma FirstShotFlies(joined: Session, id: string, input: MovementInput, roots: Roots)
    requires joined.players == map[id := Reset(Initialise(FRESH_RUNTIME, id))] && joined.projectiles == []
    requires roots.Of(input) && input.fire && roots.aim >= MIN_AIM
    ensures OneShotOut(ApplyInput(joined, id, input, 0.0, roots), id)
  {
    assert CanFire(Steer(joined, id, input, 0.0, roots), id, input, roots);
  }

  lemma OneShotIsCovered(s: Session, id: string)
    requires OneShotOut(s, id)
    ensures Roster(s) && Credit(s) && Count(s.projectiles, OwnedBy(id)) == 1
  {
    assert s.projectiles == [] + [s.projectiles[0]];
    CountSnoc([], s.projectiles[0], OwnedBy(id));
  }

  lemma JoinedAlone(id: string)
    ensures UpsertPlayer(EMPTY, id).players == map[id := Reset(Initialise(FRESH_RUNTIME, id))]
    ensures UpsertPlayer(EMPTY, id).projectiles == []
  {
  }

  /** The other half of `CreditUpsert` at work: join under the empty id, fire any shot, and join again. */
  lemma EmptyIdLosesCredit(input: MovementInput, roots: Roots)
    requires roots.Of(input) && input.fire && roots.aim >= MIN_AIM
    ensures var s := ApplyInput(UpsertPlayer(EMPTY, ""), "", input, 0.0, roots);
      Roster(s) && Credit(s) && !Credit(UpsertPlayer(s, ""))
  {
    JoinedAlone("");
    FirstShotFlies(UpsertPlayer(EMPTY, ""), "", input, roots);
    LosesCredit(ApplyInput(UpsertPlayer(EMPTY, ""), "", input, 0.0, roots));
  }

  lemma LosesCredit(s: Session)
    requires OneShotOut(s, "")
    ensures Roster(s) && Credit(s) && !Credit(UpsertPlayer(s, ""))
  {
    OneShotIsCovered(s, "");
    CreditUpsert(s, "");
  }

  lemma CreditRemove(s: Session, id: string)
    requires Roster(s) && Credit(s)
    ensures Roster(RemovePlayer(s, id)) && Credit(RemovePlayer(s, id))
    ensures Count(RemovePlayer(s, id).projectiles, OwnedBy(id)) == 0
    ensures var again := UpsertPlayer(RemovePlayer(s, id), id).players[id]; again.shotsFired == again.hitsLanded == 0
  {
    FilterMembers(s.projectiles, NotOwnedBy(id));
    var left := Filter(s.projectiles, NotOwnedBy(id));
    forall i | 0 <= i < |left| && left[i].active ensures left[i].ownerId in s.players && left[i].ownerId != id {
      assert left[i] in left;
    }
    forall other | other in s.players && other != id
      ensures Count(left, OwnedBy(other)) == Count(s.projectiles, OwnedBy(other))
    {
      CountFilter(s.projectiles, NotOwnedBy(id), OwnedBy(other));
    }
    CountNone(left, OwnedBy(id));
  }

  lemma CreditLaunch(s: Session, id: string, p: Projectile)
    requires Roster(s) && Credit(s) && id in s.players && p.ownerId == id
    ensures Roster(Launch(s, id, p)) && Credit(Launch(s, id, p))
  {
  }

  lemma CreditBegin(s: Session, delta: real)
    requires Credit(s)
    ensures Credit(BeginTick(s, delta))
  {
    forall id | id in s.players
      ensures Count(BeginTick(s, delta).projectiles, OwnedBy(id)) <= Count(s.projectiles, OwnedBy(id))
    {
      FlyCounts(s.projectiles, delta, s.elapsed + delta, id);
    }
  }

  lemma CreditSweep(s: Session)
    requires Credit(s)
    ensures Credit(Sweep(s))
  {
    forall id | id in s.players ensures Count(Sweep(s).projectiles, OwnedBy(id)) == Count(s.projectiles, OwnedBy(id)) {
      CountFilter(s.projectiles, Live(), OwnedBy(id));
    }
  }

  lemma CreditHit(s: Session, i: nat, target: string, tick: nat)
    requires Roster(s) && Credit(s) && CanHit(s, i, target)
    ensures Credit(HitPlayer(s, i, target, tick))
  {
    var s' := HitPlayer(s, i, target, tick);
    forall id | id in s.players
      ensures s'.players[id].hitsLanded + Count(s'.projectiles, OwnedBy(id)) <= s'.players[id].shotsFired
    {
      CountUpdate(s.projectiles, i, s.projectiles[i].Deactivate(), OwnedBy(id));
    }
  }

  /** The owner's own expiries. */
  function ExpiresFor(id: string, delta: real, now: real): Projectile -> bool {
    (p: Projectile) => p.ownerId == id && ExpiresAfter(delta, now)(p)
  }

  lemma {:induction false} FlyCounts(ps: seq<Projectile>, delta: real, now: real, id: string)
    ensures Count(FlyAll(ps, delta, now), Live()) + Count(ps, ExpiresAfter(delta, now)) == Count(ps, Live())
    ensures Count(FlyAll(ps, delta, now), OwnedBy(id)) + Count(ps, ExpiresFor(id, delta, now)) == Count(ps, OwnedBy(id))
  {
    if ps != [] {
      var n := |ps| - 1;
      FlyAllAt(ps, delta, now);
      FlyAllAt(ps[..n], delta, now);
      assert FlyAll(ps, delta, now)[..n] == FlyAll(ps[..n], delta, now);
      FlyCounts(ps[..n], delta, now, id);
    }
  }

  // ----- conservation and identity of projectiles -----

  lemma {:induction false} PurgeCounts(ps: seq<Projectile>, id: string)
    ensures Count(Filter(ps, NotOwnedBy(id)), Live()) + Count(ps, OwnedBy(id)) == Count(ps, Live())
  {
    if ps != [] {
      var n := |ps| - 1;
      PurgeCounts(ps[..n], id);
      CountSnoc(Filter(ps[..n], NotOwnedBy(id)), ps[n], Live());
      assert Filter(ps[..n], NotOwnedBy(id)) + [] == Filter(ps[..n], NotOwnedBy(id));
    }
  }

  lemma {:induction false} FilterIds(ps: seq<Projectile>, keep: Projectile -> bool)
    requires forall i, j :: 0 <= i < j < |ps| ==> ps[i].id < ps[j].id
    ensures forall i, j :: 0 <= i < j < |Filter(ps, keep)| ==> Filter(ps, keep)[i].id < Filter(ps, keep)[j].id
    ensures forall p :: p in Filter(ps, keep) <==> p in ps && keep(p)
  {
    FilterMembers(ps, keep);
    if ps != [] {
      var init, last := ps[..|ps| - 1], ps[|ps| - 1];
      FilterIds(init, keep);
      forall p | p in Filter(init, keep) ensures p.id < last.id {
        assert p in init;
      }
    }
  }

  lemma NumberedLaunch(ps: seq<Projectile>, counter: nat, t: Trace, p: Projectile)
    requires Numbered(ps, counter, t) && p.id == counter + 1
    ensures Numbered(ps + [p], counter + 1, t)
  {
  }

  lemma NumberedHit(ps: seq<Projectile>, counter: nat, t: Trace, i: nat, mark: Mark)
    requires Numbered(ps, counter, t) && i < |ps| && ps[i].active
    requires mark.Struck? && mark.hit.projectileId == ps[i].id && mark.hit.shooterId != mark.hit.targetId
    requires mark.hit.kind.Hit? && mark.hit.damage == DAMAGE_PER_HIT
    ensures Numbered(ps[i := ps[i].Deactivate()], counter, Then(t, mark))
  {
  }

  lemma NumberedFewer(ps: seq<Projectile>, qs: seq<Projectile>, counter: nat, t: Trace)
    requires Numbered(ps, counter, t)
    requires forall i, j :: 0 <= i < j < |qs| ==> qs[i].id < qs[j].id
    requires forall q :: q in qs ==> q in ps
    ensures Numbered(qs, counter, t)
  {
    forall i | 0 <= i < |qs| ensures 1 <= qs[i].id <= counter && (qs[i].active ==> qs[i].id !in HitIds(t)) {
      assert qs[i] in ps;
    }
  }

  lemma NumberedFlown(ps: seq<Projectile>, delta: real, now: real, counter: nat, t: Trace)
    requires Numbered(ps, counter, t)
    ensures Numbered(FlyAll(ps, delta, now), counter, t)
  {
  }

  /** A hit adds one mark to the trace, or two when it is fatal. */
  lemma TraceAfterHit(s: Session, i: nat, target: string, tick: nat) returns (hit: Mark, death: Mark)
    requires i < |s.projectiles| && target in s.players
    ensures hit.Struck? && hit.time == s.elapsed && hit.x == s.projectiles[i].x && hit.y == s.projectiles[i].y
    ensures hit.hit == CombatEvent(Hit, s.projectiles[i].ownerId, s.players[target].state.playerId,
                                   s.projectiles[i].id, DAMAGE_PER_HIT, tick)
    ensures death == Died(CombatEvent(Death, s.projectiles[i].ownerId, s.players[target].state.playerId,
                                      s.projectiles[i].id, 0, tick))
    ensures var s' := HitPlayer(s, i, target, tick);
      && s'.history == s.history.(trace := s'.history.trace)
      && s'.history.trace == (var struck := Then(s.history.trace, hit);
                              if DiesNext(s.players[target]) then Then(struck, death) else struck)
      && s'.projectiles == s.projectiles[i := s.projectiles[i].Deactivate()]
      && s'.projectileCounter == s.projectileCounter && s'.elapsed == s.elapsed
      && s'.spawnedTotal == s.spawnedTotal && s'.hitsTotal == s.hitsTotal + 1
  {
    hit := Strike(s, i, target, tick).history.trace.mark;
    death := Died(CombatEvent(Death, s.projectiles[i].ownerId, s.players[target].state.playerId,
                              s.projectiles[i].id, 0, tick));
  }

  lemma ConservationHit(s: Session, i: nat, target: string, tick: nat)
    requires Roster(s) && Conservation(s) && Identity(s) && CanHit(s, i, target)
    ensures Conservation(HitPlayer(s, i, target, tick)) && Identity(HitPlayer(s, i, target, tick))
  {
    CountUpdate(s.projectiles, i, s.projectiles[i].Deactivate(), Live());
    assert Mirrored(s.players[target], target);
    var hit, death := TraceAfterHit(s, i, target, tick);
    NumberedHit(s.projectiles, s.projectileCounter, s.history.trace, i, hit);
  }

  // ----- the event budget -----

  lemma BudgetHit(s: Session, i: nat, target: string, tick: nat)
    requires Roster(s) && Ledger(s) && Budget(s) && CanHit(s, i, target)
    ensures Budget(HitPlayer(s, i, target, tick))
  {
    ReserveHit(s, i, target, tick);
    var _, _ := TraceAfterHit(s, i, target, tick);
  }

  lemma ReserveHit(s: Session, i: nat, target: string, tick: nat)
    requires Roster(s) && Ledger(s) && CanHit(s, i, target)
    ensures Sum(HitPlayer(s, i, target, tick).players, Reserve())
         == Sum(s.players, Reserve()) - (if DiesNext(s.players[target]) then 2 else 1)
  {
    HealthAlternatives(s, target);
    HealthAfterHit(s, i, target, tick);
    ReserveAfterHit(s.players, HitPlayer(s, i, target, tick).players, target);
  }

  /** A living player stands at a multiple of 20 points, and no death of this life has been announced. */
  lemma HealthAlternatives(s: Session, id: string)
    requires Roster(s) && Ledger(s) && id in s.players && s.players[id].state.isAlive
    ensures s.players[id].health.current in {20, 40, 60, 80, 100} && !s.players[id].deathAnnounced
    ensures DiesNext(s.players[id]) <==> s.players[id].health.current == 20
  {
  }

  /** What a hit does to health: 20 points off the target, nothing off anybody else. */
  lemma HealthAfterHit(s: Session, i: nat, target: string, tick: nat)
    requires i < |s.projectiles| && target in s.players
    ensures var players := HitPlayer(s, i, target, tick).players;
      && players.Keys == s.players.Keys
      && players[target].health == s.players[target].health.ApplyDamage(DAMAGE_PER_HIT).0
      && forall id :: id in s.players && id != target ==> players[id].health == s.players[id].health
  {
  }

  /** One fewer hit to come, and no death to come after a fatal one. */
  lemma ReserveAfterHit(players: map<string, PlayerRuntime>, players': map<string, PlayerRuntime>, target: string)
    requires target in players && players'.Keys == players.Keys
    requires players[target].health.current in {20, 40, 60, 80, 100}
    requires players'[target].health == players[target].health.ApplyDamage(DAMAGE_PER_HIT).0
    requires forall id :: id in players && id != target ==> players'[id].health == players[id].health
    ensures Sum(players', Reserve()) ==
      Sum(players, Reserve()) - (if players[target].health.current == 20 then 2 else 1)
  {
    SumRemove(players, target, Reserve());
    SumRemove(players', target, Reserve());
    SumAgrees(players - {target}, players' - {target}, Reserve());
  }

  lemma BudgetUpsert(s: Session, id: string)
    requires Roster(s) && Ledger(s) && Budget(s)
    ensures Budget(UpsertPlayer(s, id))
  {
    var players := UpsertPlayer(s, id).players;
    assert players[id].health.current == MAX_HEALTH by {
      if id in s.players { assert Mirrored(s.players[id], id); }
    }
    SumUpdate(s.players, id, players[id], Reserve());
    ReserveNonNegative(s, id);
  }

  lemma ReserveNonNegative(s: Session, id: string)
    requires Ledger(s)
    ensures id in s.players ==> Reserve()(s.players[id]) >= 0
  {
    if id in s.players {
      assert PlayerLedger(s.players[id], s.history.trace, id) && LifeBounded(s.history.trace, id);
    }
  }

  lemma BudgetRemove(s: Session, id: string)
    requires Roster(s) && Ledger(s) && Budget(s)
    ensures Budget(RemovePlayer(s, id))
  {
    ReserveNonNegative(s, id);
    ReserveWithout(s.players, id);
  }

  lemma ReserveWithout(players: map<string, PlayerRuntime>, id: string)
    requires id in players ==> Reserve()(players[id]) >= 0
    ensures Sum(players - {id}, Reserve()) <= Sum(players, Reserve())
  {
    if id in players {
      SumRemove(players, id, Reserve());
    } else {
      assert players - {id} == players;
    }
  }

  // ----- every step keeps them all -----

  lemma InvUpsert(s: Session, id: string)
    requires Inv(s) && id != ""
    ensures Inv(UpsertPlayer(s, id))
  {
    LedgerUpsert(s, id);
    CreditUpsert(s, id);
    BudgetUpsert(s, id);
  }

  lemma InvRemove(s: Session, id: string)
    requires Inv(s)
    ensures Inv(RemovePlayer(s, id))
  {
    CreditRemove(s, id);
    BudgetRemove(s, id);
    PurgeCounts(s.projectiles, id);
    var s' := RemovePlayer(s, id);
    FilterIds(s.projectiles, NotOwnedBy(id));
    NumberedFewer(s.projectiles, s'.projectiles, s.projectileCounter, s.history.trace);
  }

  lemma InvSteer(s: Session, id: string, input: MovementInput, delta: real, roots: Roots)
    requires Inv(s) && id in s.players
    ensures Inv(Steer(s, id, input, delta, roots))
  {
    assert Mirrored(s.players[id], id);
    LedgerFrame(s, Steer(s, id, input, delta, roots));
  }

  lemma LedgerLaunch(s: Session, id: string, p: Projectile)
    requires Ledger(s) && Budget(s) && id in s.players
    ensures Ledger(Launch(s, id, p)) && Budget(Launch(s, id, p))
  {
    LedgerFrame(s, Launch(s, id, p));
  }

  lemma IdentityLaunch(s: Session, id: string, p: Projectile)
    requires Conservation(s) && Identity(s) && id in s.players && p.active && p.id == s.projectileCounter + 1
    ensures Conservation(Launch(s, id, p)) && Identity(Launch(s, id, p))
  {
    NumberedLaunch(s.projectiles, s.projectileCounter, s.history.trace, p);
    CountSnoc(s.projectiles, p, Live());
  }

  lemma InvLaunch(s: Session, id: string, p: Projectile)
    requires Inv(s) && id in s.players && p.ownerId == id && p.active && p.id == s.projectileCounter + 1
    ensures Inv(Launch(s, id, p))
  {
    CreditLaunch(s, id, p);
    IdentityLaunch(s, id, p);
    LedgerLaunch(s, id, p);
  }

  lemma RosterBegin(s: Session, delta: real)
    requires Roster(s)
    ensures Roster(BeginTick(s, delta))
  {
  }

  lemma InvBegin(s: Session, delta: real)
    requires Inv(s)
    ensures Inv(BeginTick(s, delta))
  {
    var now, s' := s.elapsed + delta, BeginTick(s, delta);
    FlyCounts(s.projectiles, delta, now, "");
    CreditBegin(s, delta);
    LedgerFrame(s, s');
    NumberedFlown(s.projectiles, delta, now, s.projectileCounter, s.history.trace);
    RosterBegin(s, delta);
  }

  lemma InvHit(s: Session, i: nat, target: string, tick: nat)
    requires Inv(s) && CanHit(s, i, target)
    ensures Inv(HitPlayer(s, i, target, tick))
  {
    LedgerHit(s, i, target, tick);
    CreditHit(s, i, target, tick);
    ConservationHit(s, i, target, tick);
    BudgetHit(s, i, target, tick);
  }

  lemma InvSweep(s: Session)
    requires Inv(s)
    ensures Inv(Sweep(s))
    ensures forall i :: 0 <= i < |Sweep(s).projectiles| ==> Sweep(s).projectiles[i].active
  {
    var s' := Sweep(s);
    FilterIds(s.projectiles, Live());
    CountFilter(s.projectiles, Live(), Live());
    CreditSweep(s);
    LedgerFrame(s, s');
    NumberedFewer(s.projectiles, s'.projectiles, s.projectileCounter, s.history.trace);
    forall i | 0 <= i < |s'.projectiles| ensures s'.projectiles[i] in s.projectiles && s'.projectiles[i].active {
      assert s'.projectiles[i] in s'.projectiles;
    }
  }

  lemma InvCollide(s: Session, i: nat, tick: nat, order: seq<string>)
    requires Inv(s) && i < |s.projectiles| && forall id :: id in order ==> id in s.players
    ensures Inv(Collide(s, i, tick, order))
  {
    if s.projectiles[i].active {
      var scanned := Scan(s.players, order, s.projectiles[i], 0);
      ScanFindsPlayer(s.players, order, s.projectiles[i], 0);
      var counted := CountPairs(s, scanned.pairs);
      assert Inv(counted);
      if scanned.target.Some? {
        InvHit(counted, i, scanned.target.value, tick);
      }
    }
  }
}
