/** What a tick does to each projectile, in metres: it expires, strikes a living player within 0.7 m, or flies on. */
module Collisions {
  import opened Seqs
  import opened Projectiles
  import opened SessionModel
  import opened GameSessions
  import opened SessionInvariants
  import opened SessionRuns

  /** Within the 0.2 m of a projectile and the 0.5 m of a player. */
  predicate Near(p: Projectile, state: PlayerState) {
    (p.x - state.x) * (p.x - state.x) + (p.y - state.y) * (p.y - state.y) <= 0.49
  }

  predicate Other(p: Projectile, state: PlayerState) {
    state.isAlive && state.playerId != p.ownerId
  }

  /** No living player but the owner is near. */
  ghost predicate Clear(p: Projectile, players: map<string, PlayerRuntime>) {
    forall id :: id in players && Other(p, players[id].state) ==> !Near(p, players[id].state)
  }

  lemma QualifiesExactly(p: Projectile, state: PlayerState)
    ensures Qualifies(p, state) <==> Other(p, state) && Near(p, state)
  {
  }

  /** The players a scan has to examine. */
  ghost function Candidate(players: map<string, PlayerRuntime>, p: Projectile): string -> bool {
    (id: string) => id in players && Other(p, players[id].state)
  }

  /** Who is hit, and how many pairs are counted: the candidates up to the one hit, or all of them. */
  ghost predicate ScannedExactly(players: map<string, PlayerRuntime>, order: seq<string>, p: Projectile,
                                 k: nat, found: Scanned)
    requires k <= |order| && forall id :: id in order ==> id in players
  {
    if found.target.None? then
      && (forall j :: k <= j < |order| && Other(p, players[order[j]].state) ==> !Near(p, players[order[j]].state))
      && found.pairs == Count(order[k..], Candidate(players, p))
    else
      exists j :: k <= j < |order| && HitAt(players, order, p, k, j, found)
  }

  ghost predicate HitAt(players: map<string, PlayerRuntime>, order: seq<string>, p: Projectile,
                        k: nat, j: nat, found: Scanned)
    requires k <= j < |order| && forall id :: id in order ==> id in players
  {
    && found.target == Some(order[j])
    && Other(p, players[order[j]].state) && Near(p, players[order[j]].state)
    && (forall m :: k <= m < j && Other(p, players[order[m]].state) ==> !Near(p, players[order[m]].state))
    && found.pairs == Count(order[k..j + 1], Candidate(players, p))
  }

  lemma {:induction false} ScanIsExact(players: map<string, PlayerRuntime>, order: seq<string>, p: Projectile, k: nat)
    requires k <= |order| && forall id :: id in order ==> id in players
    ensures ScannedExactly(players, order, p, k, Scan(players, order, p, k))
    decreases |order| - k
  {
    if k < |order| {
      var state, rest := players[order[k]].state, Scan(players, order, p, k + 1);
      QualifiesExactly(p, state);
      ScanIsExact(players, order, p, k + 1);
      if Qualifies(p, state) {
        CountFront(order[k..k + 1], Candidate(players, p));
        assert HitAt(players, order, p, k, k, Scan(players, order, p, k));
      } else if rest.target.None? {
        CountFront(order[k..], Candidate(players, p));
        assert order[k..][1..] == order[k + 1..];
      } else {
        var j :| k + 1 <= j < |order| && HitAt(players, order, p, k + 1, j, rest);
        CountFront(order[k..j + 1], Candidate(players, p));
        assert order[k..j + 1][1..] == order[k + 1..j + 1];
        assert HitAt(players, order, p, k, j, Scan(players, order, p, k));
      }
    }
  }

  // ----- a tick, turn by turn -----

  /** During a tick nobody moves, fires, is heard, comes or goes, and nobody comes back to life. */
  ghost predicate SamePlaces(before: map<string, PlayerRuntime>, after: map<string, PlayerRuntime>) {
    && after.Keys == before.Keys
    && forall id :: id in before ==> SamePlace(before[id], after[id])
  }

  ghost predicate SamePlace(r: PlayerRuntime, r': PlayerRuntime) {
    && r'.state.playerId == r.state.playerId && r'.state.x == r.state.x && r'.state.y == r.state.y
    && r'.state.lastSequence == r.state.lastSequence && r'.lastFireTime == r.lastFireTime
    && (r'.state.isAlive ==> r.state.isAlive)
  }

  /** The trace holds the hit of `p`, made where `p` is, on another living player within reach. */
  ghost predicate StruckBy(t: Trace, p: Projectile, players: map<string, PlayerRuntime>) {
    match t
    case Start => false
    case Then(past, Struck(hit, x, y, _)) =>
      || StruckBy(past, p, players)
      || (hit.projectileId == p.id && hit.shooterId == p.ownerId && x == p.x && y == p.y
          && hit.targetId in players && Other(p, players[hit.targetId].state) && Near(p, players[hit.targetId].state))
    case Then(past, _) => StruckBy(past, p, players)
  }

  ghost predicate Grown(t: Trace, t': Trace) {
    match t'
    case Start => t == t'
    case Then(past, _) => t == t' || Grown(t, past)
  }

  lemma {:induction false} StruckStays(t: Trace, t': Trace, p: Projectile, players: map<string, PlayerRuntime>)
    requires Grown(t, t') && StruckBy(t, p, players)
    ensures StruckBy(t', p, players)
  {
    if t != t' {
      StruckStays(t, t'.past, p, players);
    }
  }

  lemma PlaceAfterStrike(s: Session, i: nat, target: string, tick: nat, id: string)
    requires i < |s.projectiles| && target in s.players && id in s.players
    requires s.players[target].state.isAlive == s.players[target].health.IsAlive()
    ensures Strike(s, i, target, tick).players.Keys == s.players.Keys
    ensures SamePlace(s.players[id], Strike(s, i, target, tick).players[id])
  {
  }

  lemma PlacesAfterHit(s: Session, i: nat, target: string, tick: nat)
    requires i < |s.projectiles| && target in s.players
    requires s.players[target].state.isAlive == s.players[target].health.IsAlive()
    ensures SamePlaces(s.players, HitPlayer(s, i, target, tick).players)
  {
    var struck, t := Strike(s, i, target, tick), HitPlayer(s, i, target, tick);
    forall id | id in s.players ensures id in t.players && SamePlace(s.players[id], t.players[id]) {
      PlaceAfterStrike(s, i, target, tick, id);
      assert SamePlace(struck.players[id], t.players[id]);
    }
  }

  /** What the turn of projectile `i` makes of it. */
  ghost predicate Turned(p: Projectile, q: Projectile, t: Session, players: map<string, PlayerRuntime>) {
    if !p.active then q == p
    else if q.active then q == p && Clear(p, t.players)
    else q == p.Deactivate() && StruckBy(t.history.trace, p, players)
  }

  lemma CollideTurns(s: Session, i: nat, tick: nat, order: seq<string>)
    requires Roster(s) && i < |s.projectiles| && Enumerates(order, s.players.Keys)
    ensures var t := Collide(s, i, tick, order);
      && SamePlaces(s.players, t.players) && Grown(s.history.trace, t.history.trace)
      && t.elapsed == s.elapsed && t.projectiles == s.projectiles[i := t.projectiles[i]]
      && Turned(s.projectiles[i], t.projectiles[i], t, s.players)
  {
    var p := s.projectiles[i];
    if p.active {
      var scanned := Scan(s.players, order, p, 0);
      ScanFindsPlayer(s.players, order, p, 0);
      forall id | id in s.players ensures Qualifies(p, s.players[id].state) <==>
        Other(p, s.players[id].state) && Near(p, s.players[id].state)
      {
        QualifiesExactly(p, s.players[id].state);
      }
      if scanned.target.None? {
        assert Clear(p, s.players) by {
          forall id | id in s.players ensures !Qualifies(p, s.players[id].state) {
            assert id in order;
          }
        }
      } else {
        var target := scanned.target.value;
        assert Mirrored(s.players[target], target);
        PlacesAfterHit(CountPairs(s, scanned.pairs), i, target, tick);
        var hit, death := TraceAfterHit(CountPairs(s, scanned.pairs), i, target, tick);
        assert StruckBy(Then(s.history.trace, hit), p, s.players);
      }
    }
  }

  lemma RosterCollide(s: Session, i: nat, tick: nat, order: seq<string>)
    requires Inv(s) && i < |s.projectiles| && Enumerates(order, s.players.Keys)
    ensures Inv(Collide(s, i, tick, order)) && Collide(s, i, tick, order).players.Keys == s.players.Keys
  {
    InvCollide(s, i, tick, order);
  }

  /** What earlier turns have decided stays decided. */
  lemma TurnedStays(p: Projectile, q: Projectile, s: Session, t: Session, players: map<string, PlayerRuntime>)
    requires Turned(p, q, s, players)
    requires SamePlaces(s.players, t.players) && Grown(s.history.trace, t.history.trace)
    ensures Turned(p, q, t, players)
  {
    if p.active && !q.active {
      StruckStays(s.history.trace, t.history.trace, p, players);
    }
  }

  lemma {:induction false} GrownOn(a: Trace, b: Trace, c: Trace)
    requires Grown(a, b) && Grown(b, c)
    ensures Grown(a, c)
  {
    if b != c {
      GrownOn(a, b, c.past);
    }
  }

  /** A hit within reach of the players as they are was within reach of them as they were. */
  lemma {:induction false} StruckBefore(t: Trace, p: Projectile,
                                        before: map<string, PlayerRuntime>, after: map<string, PlayerRuntime>)
    requires SamePlaces(before, after) && StruckBy(t, p, after)
    ensures StruckBy(t, p, before)
  {
    if StruckBy(t.past, p, after) {
      StruckBefore(t.past, p, before, after);
    }
  }

  lemma TurnedBefore(p: Projectile, q: Projectile, t: Session,
                     before: map<string, PlayerRuntime>, after: map<string, PlayerRuntime>)
    requires SamePlaces(before, after) && Turned(p, q, t, after)
    ensures Turned(p, q, t, before)
  {
    if p.active && !q.active {
      StruckBefore(t.history.trace, p, before, after);
    }
  }

  ghost predicate AllTurned(s: Session, t: Session, i: nat) {
    && |t.projectiles| == |s.projectiles| && t.elapsed == s.elapsed
    && SamePlaces(s.players, t.players) && Grown(s.history.trace, t.history.trace)
    && (forall j :: 0 <= j < i && j < |s.projectiles| ==> t.projectiles[j] == s.projectiles[j])
    && (forall j :: i <= j < |s.projectiles| ==> Turned(s.projectiles[j], t.projectiles[j], t, s.players))
  }

  lemma TurnedFirst(s: Session, u: Session, t: Session, i: nat)
    requires i < |s.projectiles| && AllTurned(u, t, i + 1)
    requires SamePlaces(s.players, u.players) && Grown(s.history.trace, u.history.trace) && u.elapsed == s.elapsed
    requires |u.projectiles| == |s.projectiles| && u.projectiles == s.projectiles[i := u.projectiles[i]]
    requires Turned(s.projectiles[i], u.projectiles[i], u, s.players)
    ensures AllTurned(s, t, i)
  {
    GrownOn(s.history.trace, u.history.trace, t.history.trace);
    TurnedStays(s.projectiles[i], u.projectiles[i], u, t, s.players);
    forall j | i < j < |s.projectiles| ensures Turned(s.projectiles[j], t.projectiles[j], t, s.players) {
      TurnedBefore(s.projectiles[j], t.projectiles[j], t, s.players, u.players);
    }
  }

  lemma {:induction false} ResolveTurns(s: Session, i: nat, tick: nat, order: seq<string>)
    requires Inv(s) && i <= |s.projectiles| && Enumerates(order, s.players.Keys)
    ensures AllTurned(s, Resolve(s, i, tick, order), i)
    decreases |s.projectiles| - i
  {
    if i < |s.projectiles| {
      var u := Collide(s, i, tick, order);
      CollideTurns(s, i, tick, order);
      RosterCollide(s, i, tick, order);
      ResolveUnfolds(s, i, tick, order);
      ResolveTurns(u, i + 1, tick, order);
      TurnedFirst(s, u, Resolve(s, i, tick, order), i);
    }
  }

  // ----- the fates of a tick -----

  /** `p` after `delta` seconds of flight at 30 m/s. */
  function Onward(p: Projectile, delta: real): Projectile {
    p.(x := p.x + p.dirX * 30.0 * delta, y := p.y + p.dirY * 30.0 * delta)
  }

  ghost predicate Gone(id: nat, s: Session) {
    forall q :: q in s.projectiles ==> q.id != id
  }

  /**
   * After 1.5 s it is gone. Before that it has moved on in a straight line, and there it has struck a player who was
   * alive, within 0.7 m and not its owner; or it is still in flight and no such player is near.
   */
  ghost predicate Fate(p: Projectile, s: Session, t: Session, delta: real) {
    var q := Onward(p, delta);
    if t.elapsed - p.spawnTime >= 1.5 then Gone(p.id, t)
    else if q in t.projectiles then Clear(q, t.players)
    else Gone(p.id, t) && StruckBy(t.history.trace, q, s.players)
  }

  ghost predicate AllFates(s: Session, t: Session, delta: real) {
    && t.elapsed == s.elapsed + delta && SamePlaces(s.players, t.players)
    && (forall p :: p in s.projectiles ==> Fate(p, s, t, delta))
    && (forall q :: q in t.projectiles ==> exists p :: p in s.projectiles && q == Onward(p, delta))
  }

  lemma FlyIsOnward(p: Projectile, delta: real, now: real)
    requires p.active
    ensures Fly(p, delta, now) ==
      if now - p.spawnTime >= 1.5 then Onward(p, delta).Deactivate() else Onward(p, delta)
  {
    assert p.dirX * SPEED == p.dirX * 30.0 && p.dirY * SPEED == p.dirY * 30.0;
    assert p.Advance(delta) == Onward(p, delta);
  }

  /** The projectile at place `i` of the tick's end, before the sweep. */
  lemma FateOf(p: Projectile, q: Projectile, s: Session, begun: Session, t: Session, delta: real)
    requires p.active && begun.elapsed == t.elapsed == s.elapsed + delta && begun.players == s.players
    requires Turned(Fly(p, delta, begun.elapsed), q, t, begun.players)
    requires forall r :: r in t.projectiles && r.id == p.id ==> r == q
    requires q in t.projectiles
    ensures q.active ==> q == Onward(p, delta)
    ensures Fate(p, s, Sweep(t), delta)
  {
    FlyIsOnward(p, delta, begun.elapsed);
    FilterMembers(t.projectiles, Live());
  }

  lemma OnlyOne(ps: seq<Projectile>, i: nat, id: nat)
    requires i < |ps| && ps[i].id == id && forall j, k :: 0 <= j < k < |ps| ==> ps[j].id < ps[k].id
    ensures forall r :: r in ps && r.id == id ==> r == ps[i]
  {
  }

  lemma BeginIs(s: Session, delta: real)
    ensures var begun := BeginTick(s, delta);
      && begun.elapsed == s.elapsed + delta && begun.players == s.players && |begun.projectiles| == |s.projectiles|
      && forall i :: 0 <= i < |s.projectiles| ==> begun.projectiles[i] == Fly(s.projectiles[i], delta, begun.elapsed)
  {
    FlyAllAt(s.projectiles, delta, s.elapsed + delta);
  }

  lemma FatesAfter(s: Session, begun: Session, t: Session, delta: real)
    requires AllLive(s) && begun.elapsed == s.elapsed + delta && begun.players == s.players
    requires |begun.projectiles| == |s.projectiles| && AllTurned(begun, t, 0) && Identity(t)
    requires forall i :: 0 <= i < |s.projectiles| ==>
      begun.projectiles[i] == Fly(s.projectiles[i], delta, begun.elapsed)
    ensures AllFates(s, Sweep(t), delta)
  {
    FilterMembers(t.projectiles, Live());
    forall i | 0 <= i < |s.projectiles|
      ensures Fate(s.projectiles[i], s, Sweep(t), delta)
      ensures t.projectiles[i].active ==> t.projectiles[i] == Onward(s.projectiles[i], delta)
    {
      assert Turned(begun.projectiles[i], t.projectiles[i], t, begun.players);
      OnlyOne(t.projectiles, i, s.projectiles[i].id);
      FateOf(s.projectiles[i], t.projectiles[i], s, begun, t, delta);
    }
    forall q | q in Sweep(t).projectiles ensures exists p :: p in s.projectiles && q == Onward(p, delta) {
      var k :| 0 <= k < |t.projectiles| && t.projectiles[k] == q;
      assert s.projectiles[k] in s.projectiles;
    }
  }

  /** A tick from any reachable state decides the fate of each projectile, and leaves everybody where he stands. */
  lemma TickFates(s: Session, tick: nat, delta: real, order: seq<string>)
    requires Inv(s) && AllLive(s) && Enumerates(order, s.players.Keys)
    ensures AllFates(s, Tick(s, tick, delta, order), delta)
  {
    var begun := BeginTick(s, delta);
    BeginIs(s, delta);
    InvBegin(s, delta);
    ResolveTurns(begun, 0, tick, order);
    InvResolve(begun, 0, tick, order);
    FatesAfter(s, begun, Resolve(begun, 0, tick, order), delta);
  }

  /** The pairs of the turns from `i` on, each counted as `ScanIsExact` says for the players as that turn finds them. */
  ghost function PairsFrom(s: Session, i: nat, tick: nat, order: seq<string>): nat
    requires i <= |s.projectiles| && forall id :: id in order ==> id in s.players
    decreases |s.projectiles| - i
  {
    if i == |s.projectiles| then 0
    else
      (if s.projectiles[i].active then Scan(s.players, order, s.projectiles[i], 0).pairs else 0)
      + PairsFrom(Collide(s, i, tick, order), i + 1, tick, order)
  }

  lemma PairsOfTurn(s: Session, i: nat, tick: nat, order: seq<string>)
    requires i < |s.projectiles| && forall id :: id in order ==> id in s.players
    ensures Collide(s, i, tick, order).collisionsTotal == s.collisionsTotal +
      (if s.projectiles[i].active then Scan(s.players, order, s.projectiles[i], 0).pairs else 0)
  {
    if s.projectiles[i].active {
      ScanFindsPlayer(s.players, order, s.projectiles[i], 0);
    }
  }

  lemma {:induction false} PairsOfTurns(s: Session, i: nat, tick: nat, order: seq<string>)
    requires i <= |s.projectiles| && forall id :: id in order ==> id in s.players
    ensures Resolve(s, i, tick, order).collisionsTotal == s.collisionsTotal + PairsFrom(s, i, tick, order)
    decreases |s.projectiles| - i
  {
    if i < |s.projectiles| {
      PairsOfTurn(s, i, tick, order);
      PairsOfTurns(Collide(s, i, tick, order), i + 1, tick, order);
    }
  }

  /** A tick adds exactly the pairs of its turns to the total. */
  lemma TickCountsPairs(s: Session, tick: nat, delta: real, order: seq<string>)
    requires Enumerates(order, s.players.Keys)
    ensures BeginTick(s, delta).players == s.players
    ensures Tick(s, tick, delta, order).collisionsTotal ==
      s.collisionsTotal + PairsFrom(BeginTick(s, delta), 0, tick, order)
  {
    PairsOfTurns(BeginTick(s, delta), 0, tick, order);
  }

  ghost predicate AllClear(s: Session) {
    forall q :: q in s.projectiles ==> Clear(q, s.players)
  }

  lemma FatesLeaveClear(s: Session, t: Session, delta: real)
    requires AllFates(s, t, delta)
    ensures AllClear(t)
  {
    forall q | q in t.projectiles ensures Clear(q, t.players) {
      var p :| p in s.projectiles && q == Onward(p, delta);
      assert Fate(p, s, t, delta);
    }
  }

  /**
   * In every run each tick decides the fate of each projectile; so right after it none in flight is within 0.7 m of a
   * living player other than its owner.
   */
  lemma EveryTick(run: Run)
    requires Legal(run) && run.After? && run.op.Elapse?
    ensures AllFates(Final(run.past), Final(run), run.op.delta) && AllClear(Final(run))
  {
    EveryRun(run.past);
    TickFates(Final(run.past), run.op.tick, run.op.delta, run.op.order);
    FatesLeaveClear(Final(run.past), Final(run), run.op.delta);
  }
}
