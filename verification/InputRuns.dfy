/** What a session remembers of a player's inputs, over whole runs: the last one heard, the last shot, and his pace. */
module InputRuns {
  import opened Seqs
  import opened Reals
  import opened SessionModel
  import opened SessionInvariants
  import opened SessionRuns
  import opened Collisions
  import opened Controls

  /** The highest number among the inputs of `id` since he entered, 0 before the first. */
  ghost function Heard(run: Run, id: string): nat
    requires Legal(run)
  {
    match run
    case Begin => 0
    case After(past, Join(j)) => if j == id && id !in Final(past).players then 0 else Heard(past, id)
    case After(past, Input(j, input, _, _)) =>
      if j == id && id in Final(past).players && input.sequence > Heard(past, id) then input.sequence
      else Heard(past, id)
    case After(past, _) => Heard(past, id)
  }

  /** When an input of `id` last launched a projectile since he joined. */
  ghost function LastShot(run: Run, id: string): Option<real>
    requires Legal(run)
  {
    match run
    case Begin => None
    case After(past, Join(j)) => if j == id then None else LastShot(past, id)
    case After(past, Input(j, _, _, _)) =>
      if j == id && Final(run).spawnedTotal > Final(past).spawnedTotal then Some(Final(past).elapsed)
      else LastShot(past, id)
    case After(past, _) => LastShot(past, id)
  }

  /** The seconds of movement in the inputs of `id` that counted, since he entered. */
  ghost function Walked(run: Run, id: string): real
    requires Legal(run)
  {
    match run
    case Begin => 0.0
    case After(past, Join(j)) => if j == id && id !in Final(past).players then 0.0 else Walked(past, id)
    case After(past, Input(j, input, delta, _)) =>
      if j == id && id in Final(past).players && input.sequence >= Heard(past, id) then Walked(past, id) + Abs(delta)
      else Walked(past, id)
    case After(past, _) => Walked(past, id)
  }

  // ----- the pace -----

  /** No farther than `reach` from where everybody enters. */
  ghost predicate Reaches(x: real, y: real, reach: real) {
    reach >= 0.0 && x * x + y * y <= reach * reach
  }

  lemma ProductBound(c: real, a: real, b: real)
    requires a >= 0.0 && b >= 0.0 && c * c <= Mul(a, b) * Mul(a, b)
    ensures c <= Mul(a, b)
  {
    assert Mul(a, b) >= 0.0;
    if c > Mul(a, b) {
      SquaresGrow(Mul(a, b), c);
    }
  }

  lemma ProductsKeepOrder(p: real, q: real, u: real, v: real)
    requires 0.0 <= p <= u && 0.0 <= q <= v
    ensures Mul(p, q) <= Mul(u, v)
  {
    assert Mul(u, v) - Mul(p, q) == Mul(u - p, v) + Mul(p, v - q);
    assert Mul(u - p, v) >= 0.0 && Mul(p, v - q) >= 0.0;
  }

  /** The scalar product of two ways is at most the product of their lengths. */
  lemma WaysMeet(x: real, y: real, dx: real, dy: real, a: real, b: real)
    requires Reaches(x, y, a) && Reaches(dx, dy, b)
    ensures x * dx + y * dy <= Mul(a, b)
  {
    var c, d := x * dx + y * dy, x * dy - y * dx;
    assert c * c + d * d == Mul(x * x + y * y, dx * dx + dy * dy);
    assert d * d >= 0.0 && x * x >= 0.0 && y * y >= 0.0 && dx * dx >= 0.0 && dy * dy >= 0.0;
    ProductsKeepOrder(x * x + y * y, dx * dx + dy * dy, a * a, b * b);
    assert Mul(a * a, b * b) == Mul(a, b) * Mul(a, b);
    ProductBound(c, a, b);
  }

  lemma ReachAdds(x: real, y: real, dx: real, dy: real, a: real, b: real)
    requires Reaches(x, y, a) && Reaches(dx, dy, b)
    ensures Reaches(x + dx, y + dy, a + b)
  {
    WaysMeet(x, y, dx, dy, a, b);
    assert (x + dx) * (x + dx) + (y + dy) * (y + dy) == (x * x + y * y) + (dx * dx + dy * dy) + 2.0 * (x * dx + y * dy);
    assert (a + b) * (a + b) == a * a + b * b + 2.0 * Mul(a, b);
  }

  lemma WayReaches(input: MovementInput, delta: real, dx: real, dy: real)
    requires Walks(input, delta, dx, dy)
    ensures Reaches(dx, dy, 5.0 * Abs(delta))
  {
    var way := 5.0 * delta;
    assert (5.0 * Abs(delta)) * (5.0 * Abs(delta)) == way * way;
    assert (-way) * (-way) == way * way >= 0.0;
  }

  // ----- every run -----

  ghost predicate Recalled(r: PlayerRuntime, heard: nat, last: Option<real>, walked: real) {
    && r.state.lastSequence == heard && r.lastFireTime == last
    && Reaches(r.state.x, r.state.y, 5.0 * walked)
  }

  ghost predicate AllRecalled(run: Run)
    requires Legal(run)
  {
    forall id :: id in Final(run).players ==>
      Recalled(Final(run).players[id], Heard(run, id), LastShot(run, id), Walked(run, id))
  }

  lemma RecalledAfterInput(s: Session, id: string, input: MovementInput, delta: real, roots: Roots,
                           heard: nat, last: Option<real>, walked: real)
    requires id in s.players && roots.Of(input) && Recalled(s.players[id], heard, last, walked)
    ensures var t := ApplyInput(s, id, input, delta, roots);
      && id in t.players && t.spawnedTotal >= s.spawnedTotal
      && Recalled(t.players[id], if input.sequence > heard then input.sequence else heard,
                  if t.spawnedTotal > s.spawnedTotal then Some(s.elapsed) else last,
                  if input.sequence >= heard then walked + Abs(delta) else walked)
  {
    InputDoes(s, id, input, delta, roots);
    var t := ApplyInput(s, id, input, delta, roots);
    if input.sequence >= heard {
      var r, r' := s.players[id].state, t.players[id].state;
      var dx, dy := r'.x - r.x, r'.y - r.y;
      if r.isAlive {
        WayReaches(input, delta, dx, dy);
      }
      assert Reaches(dx, dy, 5.0 * Abs(delta));
      ReachAdds(r.x, r.y, dx, dy, 5.0 * walked, 5.0 * Abs(delta));
      assert r.x + dx == r'.x && r.y + dy == r'.y && 5.0 * walked + 5.0 * Abs(delta) == 5.0 * (walked + Abs(delta));
    }
  }

  ghost predicate Remains(r: PlayerRuntime, r': PlayerRuntime) {
    && r'.state.lastSequence == r.state.lastSequence && r'.lastFireTime == r.lastFireTime
    && r'.state.x == r.state.x && r'.state.y == r.state.y
  }

  /** Only a player's own joining and own inputs move him, start his cooldown or count as heard. */
  lemma OthersRemain(run: Run, id: string)
    requires Legal(run) && run.After? && id in Final(run).players
    requires run.op.Join? || run.op.Input? ==> run.op.id != id
    ensures id in Final(run.past).players && Remains(Final(run.past).players[id], Final(run).players[id])
  {
    match run.op
    case Input(j, input, delta, roots) => InputDoes(Final(run.past), j, input, delta, roots);
    case Elapse(_, _, _) => EveryTick(run);
    case _ =>
  }

  lemma RecalledAfterJoin(s: Session, id: string, heard: nat, last: Option<real>, walked: real)
    requires Roster(s) && id != "" && (id in s.players ==> Recalled(s.players[id], heard, last, walked))
    ensures Recalled(UpsertPlayer(s, id).players[id], if id in s.players then heard else 0, None,
                     if id in s.players then walked else 0.0)
  {
    JoinDoes(s, id);
  }

  lemma RecallOne(run: Run, id: string)
    requires Legal(run) && run.After? && AllRecalled(run.past) && id in Final(run).players
    ensures Recalled(Final(run).players[id], Heard(run, id), LastShot(run, id), Walked(run, id))
  {
    var s, past := Final(run.past), run.past;
    if run.op.Join? && run.op.id == id {
      EveryRun(past);
      RecalledAfterJoin(s, id, Heard(past, id), LastShot(past, id), Walked(past, id));
    } else if run.op.Input? && run.op.id == id {
      InputDoes(s, id, run.op.input, run.op.delta, run.op.roots);
      RecalledAfterInput(s, id, run.op.input, run.op.delta, run.op.roots,
                         Heard(past, id), LastShot(past, id), Walked(past, id));
    } else {
      OthersRemain(run, id);
    }
  }

  lemma RecallStep(run: Run)
    requires Legal(run) && run.After? && AllRecalled(run.past)
    ensures AllRecalled(run)
  {
    forall id | id in Final(run).players
      ensures Recalled(Final(run).players[id], Heard(run, id), LastShot(run, id), Walked(run, id))
    {
      RecallOne(run, id);
    }
  }

  lemma {:induction false} EveryRecall(run: Run)
    requires Legal(run)
    ensures AllRecalled(run)
  {
    if run.After? {
      EveryRecall(run.past);
      RecallStep(run);
    }
  }

  // ----- what follows for the next input -----

  /** Only an input numbered at least as high as all before it since the player entered does anything. */
  ghost predicate Ignored(run: Run, id: string, input: MovementInput)
    requires Legal(run)
  {
    id !in Final(run).players || input.sequence < Heard(run, id)
  }

  /** Fire is pressed by a living player with the mouse off the centre, 0.1 s or more after his last shot, if any. */
  ghost predicate MayShoot(run: Run, id: string, input: MovementInput, aim: real)
    requires Legal(run)
  {
    && !Ignored(run, id, input)
    && input.fire && Final(run).players[id].state.isAlive && aim >= 0.000001
    && (LastShot(run, id).Some? ==> Final(run).elapsed - LastShot(run, id).value >= 0.1)
  }

  /**
   * After any run: an ignored input changes nothing at all; any other is obeyed; and a projectile is launched if and
   * only if the player may shoot. Nobody is ever farther from the entry than 5 m for each second of his inputs.
   */
  lemma EveryInput(run: Run, id: string, input: MovementInput, delta: real, roots: Roots)
    requires Legal(run) && roots.Of(input)
    ensures var s, t := Final(run), Final(After(run, Input(id, input, delta, roots)));
      && (Ignored(run, id, input) ==> t == s)
      && (!Ignored(run, id, input) ==> Obeyed(s, t, id, input, delta, roots.aim))
      && t.spawnedTotal == s.spawnedTotal + (if MayShoot(run, id, input, roots.aim) then 1 else 0)
      && (id in s.players ==> Reaches(s.players[id].state.x, s.players[id].state.y, 5.0 * Walked(run, id)))
  {
    EveryRecall(run);
    InputDoes(Final(run), id, input, delta, roots);
  }
}
