/** What joining and each input do to a player, in metres and seconds (game_session.cpp). */
module Controls {
  import opened Seqs
  import opened Reals
  import opened Projectiles
  import opened SessionModel
  import opened SessionInvariants

  // ----- moving -----

  /**
   * The way `(dx, dy)` of one input: opposite keys cancel; one direction alone is walked at 5 m/s, right and down being
   * positive; two at once share that speed evenly.
   */
  ghost predicate Walks(input: MovementInput, delta: real, dx: real, dy: real) {
    var way := 5.0 * delta;
    if input.left == input.right && input.up == input.down then dx == dy == 0.0
    else if input.up == input.down then dx == (if input.right then way else -way) && dy == 0.0
    else if input.left == input.right then dx == 0.0 && dy == (if input.down then way else -way)
    else
      && dx * dx + dy * dy == way * way
      && Mul(if input.right then dx else -dx, way) >= 0.0
      && (if input.right then dx else -dx) == (if input.down then dy else -dy)
  }

  /** There is only one such way. */
  lemma OnlyOneWay(input: MovementInput, delta: real, dx: real, dy: real, ex: real, ey: real)
    requires Walks(input, delta, dx, dy) && Walks(input, delta, ex, ey)
    ensures dx == ex && dy == ey
  {
    if input.left != input.right && input.up != input.down {
      var way, u, v := 5.0 * delta, if input.right then dx else -dx, if input.right then ex else -ex;
      assert dx * dx == u * u && dy * dy == u * u && ex * ex == v * v && ey * ey == v * v;
      SameSquare(u, v, way);
    }
  }

  lemma EqualSquares(a: real, b: real)
    requires a >= 0.0 && b >= 0.0 && a * a == b * b
    ensures a == b
  {
    if a < b {
      SquaresGrow(a, b);
    } else if b < a {
      SquaresGrow(b, a);
    }
  }

  lemma SameSense(u: real, v: real, way: real)
    requires u == -v && Mul(u, way) >= 0.0 && Mul(v, way) >= 0.0 && way != 0.0
    ensures u == 0.0
  {
    assert Mul(u, way) == -Mul(v, way);
    if u != 0.0 {
      Positive(Abs(u), Abs(way));
    }
  }

  lemma SameSquare(u: real, v: real, way: real)
    requires u * u == v * v && u * u + u * u == way * way && Mul(u, way) >= 0.0 && Mul(v, way) >= 0.0
    ensures u == v
  {
    assert Abs(u) * Abs(u) == u * u && Abs(v) * Abs(v) == v * v;
    EqualSquares(Abs(u), Abs(v));
    if u == -v {
      if way == 0.0 {
        EqualSquares(Abs(u), 0.0);
      } else {
        SameSense(u, v, way);
      }
    }
  }

  lemma StraightScale(root: real)
    requires IsRoot(1.0, root)
    ensures Scaled(1.0, root) == 1.0 && Scaled(-1.0, root) == -1.0 && Scaled(0.0, root) == 0.0
  {
    RootOfOne(root);
  }

  lemma DiagonalScale(root: real)
    requires IsRoot(2.0, root)
    ensures Scaled(1.0, root) == 1.0 / root > 0.0 && Scaled(-1.0, root) == -(1.0 / root)
    ensures Mul(1.0 / root, 1.0 / root) == 0.5
  {
    assert root > 0.0;
    DivideBack(1.0, root);
    SquareOfProduct(1.0 / root, root);
    assert Mul(Mul(1.0 / root, 1.0 / root), 2.0) == 1.0;
    assert -1.0 / root == -(1.0 / root);
  }

  lemma ShareOfWay(c: real, way: real)
    requires Mul(c, c) == 0.5 && c > 0.0
    ensures Mul(c, way) * Mul(c, way) + Mul(c, way) * Mul(c, way) == way * way
    ensures Mul(Mul(c, way), way) >= 0.0 && Mul(-c, way) == -Mul(c, way)
  {
    SquareOfProduct(c, way);
    assert Mul(Mul(c, way), way) == Mul(c, Mul(way, way));
    if way != 0.0 {
      assert Mul(way, way) > 0.0;
      Positive(c, Mul(way, way));
    }
  }

  /** One direction, with its opposite and the other axis let alone. */
  lemma WalksStraight(input: MovementInput, delta: real, root: real)
    requires IsRoot(input.Dx() * input.Dx() + input.Dy() * input.Dy(), root)
    requires input.left == input.right || input.up == input.down
    ensures Walks(input, delta, Mul(Scaled(input.Dx(), root), 5.0 * delta), Mul(Scaled(input.Dy(), root), 5.0 * delta))
  {
    if input.left != input.right || input.up != input.down {
      StraightScale(root);
    }
  }

  lemma WalksDiagonally(input: MovementInput, delta: real, root: real)
    requires IsRoot(input.Dx() * input.Dx() + input.Dy() * input.Dy(), root)
    requires input.left != input.right && input.up != input.down
    ensures Walks(input, delta, Mul(Scaled(input.Dx(), root), 5.0 * delta), Mul(Scaled(input.Dy(), root), 5.0 * delta))
  {
    DiagonalScale(root);
    ShareOfWay(1.0 / root, 5.0 * delta);
  }

  /** The way of a living player is the one the keys ask for. */
  lemma MovedWalks(state: PlayerState, input: MovementInput, delta: real, roots: Roots)
    requires roots.Of(input) && state.isAlive
    ensures var moved := Moved(state, input, delta, roots.move);
      && moved == state.(x := moved.x, y := moved.y)
      && Walks(input, delta, moved.x - state.x, moved.y - state.y)
  {
    assert PLAYER_SPEED * delta == 5.0 * delta;
    if input.left == input.right || input.up == input.down {
      WalksStraight(input, delta, roots.move);
    } else {
      WalksDiagonally(input, delta, roots.move);
    }
  }

  // ----- shooting -----

  /** The shot leaves 0.3 m from the player, towards where the mouse points. */
  ghost predicate Aimed(p: Projectile, state: PlayerState, input: MovementInput, aim: real) {
    && p.dirX * p.dirX + p.dirY * p.dirY == 1.0
    && Mul(p.dirX, aim) == input.mouseX && Mul(p.dirY, aim) == input.mouseY
    && p.x == state.x + 0.3 * p.dirX && p.y == state.y + 0.3 * p.dirY
  }

  lemma ShotIsAimed(s: Session, id: string, input: MovementInput, roots: Roots)
    requires id in s.players && roots.Of(input) && roots.aim >= MIN_AIM
    ensures Aimed(Shot(s, id, input, roots), s.players[id].state, input, roots.aim)
  {
    Normalised(input.mouseX, input.mouseY, roots.aim);
    RootOfOne(roots.unit);
    DivideBack(input.mouseX, roots.aim);
    DivideBack(input.mouseY, roots.aim);
  }

  /** Fire is pressed by a living player, the mouse is not at the centre, and his last shot is 0.1 s ago. */
  ghost predicate Shoots(r: PlayerRuntime, input: MovementInput, aim: real, now: real) {
    && input.fire && r.state.isAlive && aim >= 0.000001
    && (r.lastFireTime.Some? ==> now - r.lastFireTime.value >= 0.1)
  }

  /** The new state of the player whose input it was, but for shots. */
  ghost predicate Steered(r: PlayerRuntime, r': PlayerRuntime, input: MovementInput, delta: real) {
    && r'.state.lastSequence == input.sequence
    && (if r.state.isAlive then Walks(input, delta, r'.state.x - r.state.x, r'.state.y - r.state.y)
        else r'.state.x == r.state.x && r'.state.y == r.state.y)
    && r'.health == r.health && r'.deathAnnounced == r.deathAnnounced && r'.deaths == r.deaths
    && r'.hitsLanded == r.hitsLanded && r'.state.isAlive == r.state.isAlive && r'.state.playerId == r.state.playerId
  }

  /** One projectile more, aimed from the new place, or none. */
  ghost predicate Fired(s: Session, t: Session, r: PlayerRuntime, r': PlayerRuntime,
                        input: MovementInput, aim: real)
  {
    var n := |s.projectiles|;
    if Shoots(r, input, aim, s.elapsed) then
      && |t.projectiles| == n + 1 && t.projectiles[..n] == s.projectiles
      && Aimed(t.projectiles[n], r'.state, input, aim)
      && t.projectiles[n].active && t.projectiles[n].ownerId == r.state.playerId
      && t.projectiles[n].spawnTime == s.elapsed
      && r'.shotsFired == r.shotsFired + 1 && r'.lastFireTime == Some(s.elapsed)
      && t.spawnedTotal == s.spawnedTotal + 1
    else
      && t.projectiles == s.projectiles && r'.shotsFired == r.shotsFired && r'.lastFireTime == r.lastFireTime
      && t.spawnedTotal == s.spawnedTotal
  }

  /** Everything but the player, his shots and their count. */
  ghost predicate RestUntouched(s: Session, t: Session, id: string) {
    && t.players.Keys == s.players.Keys && (forall other :: other in s.players && other != id ==>
         t.players[other] == s.players[other])
    && t.elapsed == s.elapsed && t.log == s.log && t.pendingDeaths == s.pendingDeaths
    && t.hitsTotal == s.hitsTotal && t.deadTotal == s.deadTotal && t.collisionsTotal == s.collisionsTotal
    && t.history.trace == s.history.trace
  }

  ghost predicate Obeyed(s: Session, t: Session, id: string, input: MovementInput, delta: real, aim: real)
    requires id in s.players
  {
    && RestUntouched(s, t, id)
    && Steered(s.players[id], t.players[id], input, delta)
    && Fired(s, t, s.players[id], t.players[id], input, aim)
  }

  /**
   * An input of an absent player, or one numbered below the last, changes nothing at all; any other steers, and then
   * fires from the new place or not.
   */
  lemma InputDoes(s: Session, id: string, input: MovementInput, delta: real, roots: Roots)
    requires roots.Of(input)
    ensures var t := ApplyInput(s, id, input, delta, roots);
      if id !in s.players || input.sequence < s.players[id].state.lastSequence then t == s
      else Obeyed(s, t, id, input, delta, roots.aim)
  {
    if id in s.players && input.sequence >= s.players[id].state.lastSequence {
      var steered := Steer(s, id, input, delta, roots);
      var heard := s.players[id].state.(lastSequence := input.sequence);
      if heard.isAlive {
        MovedWalks(heard, input, delta, roots);
      }
      if CanFire(steered, id, input, roots) {
        ShotIsAimed(steered, id, input, roots);
      }
    }
  }

  // ----- joining -----

  /** Full health and no cooldown; a player who is there keeps place, counters and numbering, another starts anew. */
  ghost predicate Entered(s: Session, t: Session, id: string) {
    && id in t.players
    && var r' := t.players[id];
       && r'.state.playerId == id
       && r'.health.current == r'.state.health == 100 && r'.state.isAlive
       && !r'.deathAnnounced && r'.lastFireTime.None?
       && (if id in s.players then
             && r'.state == s.players[id].state.(health := 100, isAlive := true)
             && r'.shotsFired == s.players[id].shotsFired && r'.hitsLanded == s.players[id].hitsLanded
             && r'.deaths == s.players[id].deaths
           else
             && r'.state == PlayerState(id, 0.0, 0.0, 0, 100, true, 0, 0, 0)
             && r'.shotsFired == r'.hitsLanded == r'.deaths == 0)
  }

  lemma JoinDoes(s: Session, id: string)
    requires Roster(s) && id != ""
    ensures var t := UpsertPlayer(s, id);
      && Entered(s, t, id) && t.players.Keys == s.players.Keys + {id}
      && (forall other :: other in s.players && other != id ==> t.players[other] == s.players[other])
      && t == s.(players := t.players, history := t.history)
  {
    if id in s.players {
      assert Mirrored(s.players[id], id);
    }
  }
}
