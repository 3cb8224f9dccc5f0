/** Runs of a session: any mix of joins, leaves, inputs, ticks and reads of the death queue, in any order. */
module SessionRuns {
  import opened Seqs
  import opened SessionModel
  import opened GameSessions
  import opened SessionInvariants

  datatype Op =
    | Join(id: string)
    | Leave(id: string)
    | Input(id: string, input: MovementInput, delta: real, roots: Roots)
    | Elapse(tick: nat, delta: real, order: seq<string>)
    | Consume
  datatype Run = Begin | After(past: Run, op: Op)

  /** Ids are non-empty, roots are roots, time does not run backwards, and a tick meets every player in some order. */
  ghost predicate Enabled(s: Session, op: Op) {
    match op
    case Join(id) => id != ""
    case Leave(_) => true
    case Input(_, input, _, roots) => roots.Of(input)
    case Elapse(_, delta, order) => delta >= 0.0 && Enumerates(order, s.players.Keys)
    case Consume => true
  }

  ghost function Step(s: Session, op: Op): Session
    requires Enabled(s, op)
  {
    match op
    case Join(id) => UpsertPlayer(s, id)
    case Leave(id) => RemovePlayer(s, id)
    case Input(id, input, delta, roots) => ApplyInput(s, id, input, delta, roots)
    case Elapse(tick, delta, order) => Tick(s, tick, delta, order)
    case Consume => ConsumeDeaths(s)
  }

  ghost predicate Legal(run: Run)
    decreases run, 0
  {
    match run
    case Begin => true
    case After(past, op) => Legal(past) && Enabled(Final(past), op)
  }

  ghost function Final(run: Run): Session
    requires Legal(run)
    decreases run, 1
  {
    match run
    case Begin => EMPTY
    case After(past, op) => Step(Final(past), op)
  }

  // ----- every step keeps the invariants -----

  ghost predicate AllLive(s: Session) {
    forall i :: 0 <= i < |s.projectiles| ==> s.projectiles[i].active
  }

  lemma ResolveUnfolds(s: Session, i: nat, tick: nat, order: seq<string>)
    requires i < |s.projectiles| && forall id :: id in order ==> id in s.players
    ensures var t := Collide(s, i, tick, order);
      |t.projectiles| == |s.projectiles| && (forall id :: id in order ==> id in t.players)
      && Resolve(s, i, tick, order) == Resolve(t, i + 1, tick, order)
  {
  }

  lemma {:induction false} InvResolve(s: Session, i: nat, tick: nat, order: seq<string>)
    requires Inv(s) && i <= |s.projectiles| && forall id :: id in order ==> id in s.players
    ensures Inv(Resolve(s, i, tick, order))
    decreases |s.projectiles| - i
  {
    if i < |s.projectiles| {
      ResolveUnfolds(s, i, tick, order);
      InvCollide(s, i, tick, order);
      InvResolve(Collide(s, i, tick, order), i + 1, tick, order);
    }
  }

  lemma InvTick(s: Session, tick: nat, delta: real, order: seq<string>)
    requires Inv(s) && forall id :: id in order ==> id in s.players
    ensures Inv(Tick(s, tick, delta, order)) && AllLive(Tick(s, tick, delta, order))
  {
    InvBegin(s, delta);
    InvResolve(BeginTick(s, delta), 0, tick, order);
    InvSweep(Resolve(BeginTick(s, delta), 0, tick, order));
  }

  lemma InvShot(s: Session, id: string, input: MovementInput, roots: Roots)
    requires Inv(s) && AllLive(s) && id in s.players && roots.Of(input)
    ensures Inv(TrySpawn(s, id, input, roots)) && AllLive(TrySpawn(s, id, input, roots))
  {
    if CanFire(s, id, input, roots) {
      assert Mirrored(s.players[id], id);
      InvLaunch(s, id, Shot(s, id, input, roots));
    }
  }

  lemma InvInput(s: Session, id: string, input: MovementInput, delta: real, roots: Roots)
    requires Inv(s) && AllLive(s) && roots.Of(input)
    ensures Inv(ApplyInput(s, id, input, delta, roots)) && AllLive(ApplyInput(s, id, input, delta, roots))
  {
    if id in s.players && input.sequence >= s.players[id].state.lastSequence {
      InvSteer(s, id, input, delta, roots);
      InvShot(Steer(s, id, input, delta, roots), id, input, roots);
    }
  }

  lemma AllLiveRemove(s: Session, id: string)
    requires AllLive(s)
    ensures AllLive(RemovePlayer(s, id))
  {
    FilterMembers(s.projectiles, NotOwnedBy(id));
    var left := Filter(s.projectiles, NotOwnedBy(id));
    forall i | 0 <= i < |left| ensures left[i].active {
      assert left[i] in left;
    }
  }

  lemma InvConsume(s: Session)
    requires Inv(s)
    ensures Inv(ConsumeDeaths(s))
  {
  }

  lemma InvStep(s: Session, op: Op)
    requires Inv(s) && AllLive(s) && Enabled(s, op)
    ensures Inv(Step(s, op)) && AllLive(Step(s, op))
  {
    match op
    case Join(id) => InvUpsert(s, id);
    case Leave(id) =>
      InvRemove(s, id);
      AllLiveRemove(s, id);
    case Input(id, input, delta, roots) => InvInput(s, id, input, delta, roots);
    case Elapse(tick, delta, order) => InvTick(s, tick, delta, order);
    case Consume => InvConsume(s);
  }

  ghost predicate Blank(s: Session) {
    var h := s.history;
    && s.players == map[] && s.projectiles == [] && s.log == [] && s.pendingDeaths == []
    && s.spawnedTotal == s.hitsTotal == s.deadTotal == s.projectileCounter == 0
    && h.trace.Start? && h.launched == [] && h.consumed == [] && h.expired == h.purged == 0
  }

  lemma LedgerAtStart(s: Session)
    requires Blank(s)
    ensures Ledger(s) && Budget(s)
  {
    forall id ensures LifeBounded(s.history.trace, id) {
      assert HitsSinceJoin(s.history.trace, id) == 0;
    }
  }

  lemma IdentityAtStart(s: Session)
    requires Blank(s)
    ensures Identity(s)
  {
    assert HitIds(s.history.trace) == {};
  }

  lemma InvAtStart(s: Session)
    requires Blank(s)
    ensures Inv(s) && AllLive(s)
  {
    LedgerAtStart(s);
    IdentityAtStart(s);
    assert Roster(s);
    assert Credit(s);
    assert Conservation(s);
  }

  /** Every state any run can reach satisfies all the invariants, and between steps every stored projectile is live. */
  lemma {:induction false} EveryRun(run: Run)
    requires Legal(run)
    ensures Inv(Final(run)) && AllLive(Final(run))
  {
    if run.Begin? {
      InvAtStart(EMPTY);
    } else {
      EveryRun(run.past);
      InvStep(Final(run.past), run.op);
    }
  }
}
