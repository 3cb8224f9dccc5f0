/** Exactly when a report tells the truth about every player: driver order, any joins and leaves, any log length. */
module ExactReports {
  import opened Seqs
  import opened Combat
  import opened SessionModel
  import opened GameSessions
  import opened SessionInvariants
  import opened SessionRuns
  import opened MatchStats
  import opened ExactStats

  // ----- the events of one player's entry and of his life -----

  /** The events since `id` last entered anew, when his counters were zero. */
  ghost function SinceEntry(t: Trace, id: string): seq<CombatEvent> {
    match t
    case Start => []
    case Then(past, Joined(j, anew, _)) => if j == id && anew then [] else SinceEntry(past, id)
    case Then(past, Struck(hit, _, _, _)) => SinceEntry(past, id) + [hit]
    case Then(past, Died(death)) => SinceEntry(past, id) + [death]
  }

  /** The events since `id` last joined, when his health was full. */
  ghost function SinceJoin(t: Trace, id: string): seq<CombatEvent> {
    match t
    case Start => []
    case Then(past, Joined(j, _, _)) => if j == id then [] else SinceJoin(past, id)
    case Then(past, Struck(hit, _, _, _)) => SinceJoin(past, id) + [hit]
    case Then(past, Died(death)) => SinceJoin(past, id) + [death]
  }

  ghost predicate Tail(u: seq<CombatEvent>, events: seq<CombatEvent>) {
    |u| <= |events| && events[|events| - |u|..] == u
  }

  lemma TailSnoc(u: seq<CombatEvent>, events: seq<CombatEvent>, e: CombatEvent)
    requires Tail(u, events)
    ensures Tail(u + [e], events + [e])
  {
    var n := |events| - |u|;
    assert (events + [e])[n..] == events[n..] + [e];
  }

  lemma {:induction false} SinceAreTails(t: Trace, id: string)
    ensures Tail(SinceEntry(t, id), Events(t)) && Tail(SinceJoin(t, id), Events(t))
  {
    if t.Then? {
      SinceAreTails(t.past, id);
      match t.mark
      case Joined(_, _, _) =>
      case Struck(hit, _, _, _) =>
        TailSnoc(SinceEntry(t.past, id), Events(t.past), hit);
        TailSnoc(SinceJoin(t.past, id), Events(t.past), hit);
      case Died(death) =>
        TailSnoc(SinceEntry(t.past, id), Events(t.past), death);
        TailSnoc(SinceJoin(t.past, id), Events(t.past), death);
    }
  }

  /** What the one tail of the events has before the other begins. */
  ghost function Surplus(u: seq<CombatEvent>, v: seq<CombatEvent>): seq<CombatEvent> {
    if |u| > |v| then u[..|u| - |v|] else []
  }

  lemma SurplusJoins(u: seq<CombatEvent>, v: seq<CombatEvent>, events: seq<CombatEvent>)
    requires Tail(u, events) && Tail(v, events)
    ensures Surplus(u, v) == [] || Surplus(v, u) == []
    ensures Surplus(u, v) + v == Surplus(v, u) + u
  {
    var longer, n := if |u| > |v| then u else v, if |u| > |v| then |v| else |u|;
    assert longer == longer[..|longer| - n] + longer[|longer| - n..];
  }

  // ----- tallies of concatenations -----

  lemma {:induction false} TalliesConcat(a: seq<CombatEvent>, b: seq<CombatEvent>, id: string)
    ensures Dealt(a + b, id) == Dealt(a, id) + Dealt(b, id)
    ensures Taken(a + b, id) == Taken(a, id) + Taken(b, id)
    ensures Kills(a + b, id) == Kills(a, id) + Kills(b, id)
  {
    if b == [] {
      assert a + b == a;
    } else {
      var n := |b| - 1;
      assert (a + b)[..|a| + n] == a + b[..n];
      TalliesConcat(a, b[..n], id);
    }
  }

  /** Two tails of one history differ in their tallies by what their surpluses count. */
  lemma TalliesOfTails(u: seq<CombatEvent>, v: seq<CombatEvent>, events: seq<CombatEvent>, id: string)
    requires Tail(u, events) && Tail(v, events)
    ensures var x, y := Surplus(u, v), Surplus(v, u);
      && (x == [] || y == [])
      && Dealt(x, id) + Dealt(v, id) == Dealt(y, id) + Dealt(u, id)
      && Taken(x, id) + Taken(v, id) == Taken(y, id) + Taken(u, id)
      && Kills(x, id) + Kills(v, id) == Kills(y, id) + Kills(u, id)
  {
    SurplusJoins(u, v, events);
    TalliesConcat(Surplus(u, v), v, id);
    TalliesConcat(Surplus(v, u), u, id);
  }

  ghost predicate HasHitBy(events: seq<CombatEvent>, id: string) {
    exists e :: e in events && e.kind.Hit? && e.shooterId == id
  }

  ghost predicate HasHitOn(events: seq<CombatEvent>, id: string) {
    exists e :: e in events && e.kind.Hit? && e.targetId == id
  }

  ghost predicate HasEventBy(events: seq<CombatEvent>, id: string) {
    exists e :: e in events && e.shooterId == id
  }

  ghost predicate Harmful(events: seq<CombatEvent>) {
    forall e :: e in events && e.kind.Hit? ==> e.damage == DAMAGE_PER_HIT
  }

  lemma MembersSnoc(init: seq<CombatEvent>, last: CombatEvent)
    ensures forall e :: e in init + [last] <==> e in init || e == last
  {
  }

  /** A tally is zero exactly when nothing is there to count. */
  lemma {:induction false} ZeroTallies(events: seq<CombatEvent>, id: string)
    requires Harmful(events)
    ensures Dealt(events, id) == 0 <==> !HasHitBy(events, id)
    ensures Taken(events, id) == 0 <==> !HasHitOn(events, id)
    ensures Dealt(events, id) == Kills(events, id) == 0 <==> !HasEventBy(events, id)
  {
    if events != [] {
      var init, last := events[..|events| - 1], events[|events| - 1];
      assert events == init + [last];
      MembersSnoc(init, last);
      ZeroTallies(init, id);
    }
  }

  // ----- a death comes with its hit -----

  ghost predicate Paired(events: seq<CombatEvent>) {
    if events == [] then true
    else
      var n := |events| - 1;
      && Paired(events[..n])
      && (events[n].kind.Death? ==>
            n > 0 && events[n - 1].kind.Hit? && events[n - 1].shooterId == events[n].shooterId)
  }

  lemma PairedSnoc(events: seq<CombatEvent>, e: CombatEvent)
    requires Paired(events)
    requires e.kind.Death? ==>
      events != [] && events[|events| - 1].kind.Hit? && events[|events| - 1].shooterId == e.shooterId
    ensures Paired(events + [e])
  {
    assert (events + [e])[..|events|] == events;
  }

  lemma {:induction false} EntryIsPaired(t: Trace, id: string)
    requires SoundTrace(t)
    ensures Paired(SinceEntry(t, id))
  {
    if t.Then? {
      EntryIsPaired(t.past, id);
      match t.mark
      case Struck(hit, _, _, _) => PairedSnoc(SinceEntry(t.past, id), hit);
      case Died(death) => PairedSnoc(SinceEntry(t.past, id), death);
      case Joined(_, _, _) =>
    }
  }

  lemma {:induction false} HitsAreHarmful(t: Trace)
    requires SoundTrace(t)
    ensures Harmful(Events(t))
  {
    if t.Then? {
      HitsAreHarmful(t.past);
    }
  }

  lemma {:induction false} PairedPrefix(events: seq<CombatEvent>, n: nat)
    requires Paired(events) && n <= |events|
    ensures Paired(events[..n])
  {
    if n < |events| {
      PairedPrefix(events[..|events| - 1], n);
      assert events[..|events| - 1][..n] == events[..n];
    } else {
      assert events[..n] == events;
    }
  }

  lemma {:induction false} NoHitNoKill(events: seq<CombatEvent>, id: string)
    requires Paired(events) && !HasHitBy(events, id)
    ensures Kills(events, id) == 0
  {
    if events != [] {
      var init, last := events[..|events| - 1], events[|events| - 1];
      assert events == init + [last];
      MembersSnoc(init, last);
      NoHitNoKill(init, id);
      if last.kind.Death? {
        assert events[|events| - 2] in events;
      }
    }
  }

  // ----- the counters are the events since entry and since joining -----

  ghost function Falls(events: seq<CombatEvent>, id: string): nat {
    if events == [] then 0
    else
      var e := events[|events| - 1];
      Falls(events[..|events| - 1], id) + (if e.kind.Death? && e.targetId == id then 1 else 0)
  }

  lemma FallsSnoc(events: seq<CombatEvent>, e: CombatEvent, id: string)
    ensures Falls(events + [e], id) == Falls(events, id) + (if e.kind.Death? && e.targetId == id then 1 else 0)
  {
    assert (events + [e])[..|events|] == events;
  }

  lemma {:induction false} FallsWhenFell(events: seq<CombatEvent>, id: string)
    ensures Falls(events, id) > 0 <==> Fell(events, id)
  {
    if events != [] {
      var init, last := events[..|events| - 1], events[|events| - 1];
      assert events == init + [last];
      MembersSnoc(init, last);
      FallsWhenFell(init, id);
    }
  }

  ghost predicate Counts(r: PlayerRuntime, events: seq<CombatEvent>, id: string) {
    Dealt(events, id) == DAMAGE_PER_HIT * r.hitsLanded && r.deaths == Falls(events, id)
  }

  ghost predicate EntryCounts(r: PlayerRuntime, t: Trace, id: string) {
    Counts(r, SinceEntry(t, id), id)
  }

  /** Hits landed and deaths count the events since entry; see `TakenSinceJoin` for health. */
  ghost predicate Accounted(s: Session) {
    forall id :: id in s.players ==> EntryCounts(s.players[id], s.history.trace, id)
  }

  lemma {:induction false} TakenIsHits(t: Trace, id: string)
    requires SoundTrace(t)
    ensures Taken(SinceJoin(t, id), id) == DAMAGE_PER_HIT * HitsSinceJoin(t, id)
  {
    if t.Then? {
      TakenIsHits(t.past, id);
    }
  }

  lemma TakenSinceJoin(s: Session, id: string)
    requires Ledger(s) && SoundTrace(s.history.trace) && id in s.players
    ensures Taken(SinceJoin(s.history.trace, id), id) == MAX_HEALTH - s.players[id].health.current
  {
    TakenIsHits(s.history.trace, id);
    assert PlayerLedger(s.players[id], s.history.trace, id);
  }

  ghost predicate EventsUpTo(s: Session, tick: nat) {
    forall e :: e in Events(s.history.trace) ==> e.tick <= tick
  }

  /** A death of this very tick: both players are here, and it is among the events of their present lives. */
  ghost predicate Recent(e: CombatEvent, s: Session, tick: nat) {
    && e.tick == tick && e.kind.Death?
    && e.shooterId in s.players && e.targetId in s.players
    && e in SinceEntry(s.history.trace, e.shooterId) && e in SinceEntry(s.history.trace, e.targetId)
  }

  ghost predicate PendingRecent(s: Session, tick: nat) {
    forall e :: e in s.pendingDeaths ==> Recent(e, s, tick)
  }

  ghost predicate EntersOnce(s: Session, id: string) {
    var t := s.history.trace;
    && |SinceJoin(t, id)| == |SinceEntry(t, id)|
    && !Named(Surplus(Events(t), SinceEntry(t, id)), id)
  }

  /** Nobody has left or joined twice: the events name present players only, each from his entry on only. */
  ghost predicate Untroubled(s: Session) {
    && (forall id :: Named(Events(s.history.trace), id) ==> id in s.players)
    && (forall id :: id in s.players ==> EntersOnce(s, id))
  }

  /** `driven`: ticks in order, deaths read after each; `calm`: joins once, no leaves. */
  ghost predicate Tracked(s: Session, tick: nat, driven: bool, calm: bool) {
    && Accounted(s)
    && (driven ==> EventsUpTo(s, tick) && PendingRecent(s, tick))
    && (calm ==> Untroubled(s))
  }

  // ----- what each step keeps -----

  lemma TrackedFrame(s: Session, s': Session, tick: nat, driven: bool, calm: bool)
    requires Tracked(s, tick, driven, calm)
    requires s'.history.trace == s.history.trace && s'.pendingDeaths == s.pendingDeaths
    requires s'.players.Keys == s.players.Keys
    requires forall id :: id in s.players ==>
      s'.players[id].hitsLanded == s.players[id].hitsLanded && s'.players[id].deaths == s.players[id].deaths
    ensures Tracked(s', tick, driven, calm)
  {
    forall id | id in s'.players ensures EntryCounts(s'.players[id], s'.history.trace, id) {
      assert EntryCounts(s.players[id], s.history.trace, id);
    }
    if driven {
      forall e | e in s'.pendingDeaths ensures Recent(e, s', tick) {
        assert Recent(e, s, tick);
      }
    }
    if calm {
      forall id | id in s'.players ensures EntersOnce(s', id) {
        assert EntersOnce(s, id);
      }
    }
  }

  /** What a hit does to one player's counters. */
  lemma CountersAfterHit(s: Session, i: nat, target: string, tick: nat, id: string)
    requires i < |s.projectiles| && target in s.players && id in s.players
    requires s.projectiles[i].ownerId in s.players && s.projectiles[i].ownerId != target
    ensures var r, r' := s.players[id], HitPlayer(s, i, target, tick).players[id];
      && r'.hitsLanded == r.hitsLanded + (if id == s.projectiles[i].ownerId then 1 else 0)
      && r'.deaths == r.deaths + (if id == target && DiesNext(r) then 1 else 0)
  {
  }

  /** A hit adds its event to everybody's events, or two when it is fatal. */
  lemma EventsAfterHit(s: Session, i: nat, target: string, tick: nat)
    returns (added: seq<CombatEvent>, hit: CombatEvent, death: CombatEvent)
    requires i < |s.projectiles| && target in s.players && s.players[target].state.playerId == target
    ensures hit == CombatEvent(Hit, s.projectiles[i].ownerId, target, s.projectiles[i].id, DAMAGE_PER_HIT, tick)
    ensures death == CombatEvent(Death, s.projectiles[i].ownerId, target, s.projectiles[i].id, 0, tick)
    ensures added == (if DiesNext(s.players[target]) then [hit, death] else [hit])
    ensures var s' := HitPlayer(s, i, target, tick);
      && s'.pendingDeaths == s.pendingDeaths + added[1..]
      && s'.players.Keys == s.players.Keys
      && AddsTo(s.history.trace, s'.history.trace, added)
  {
    var h, d := TraceAfterHit(s, i, target, tick);
    hit, death := h.hit, d.death;
    added := if DiesNext(s.players[target]) then [hit, death] else [hit];
    AddsMarks(s.history.trace, h, d);
  }

  ghost predicate AddsTo(t: Trace, t': Trace, added: seq<CombatEvent>) {
    && Events(t') == Events(t) + added
    && (forall id :: SinceEntry(t', id) == SinceEntry(t, id) + added)
    && (forall id :: SinceJoin(t', id) == SinceJoin(t, id) + added)
  }

  lemma AddsMarks(t: Trace, hit: Mark, death: Mark)
    requires hit.Struck? && death.Died?
    ensures AddsTo(t, Then(t, hit), [hit.hit]) && AddsTo(t, Then(Then(t, hit), death), [hit.hit, death.death])
  {
    forall events: seq<CombatEvent> ensures events + [hit.hit] + [death.death] == events + [hit.hit, death.death] {
    }
  }

  /** A hit, and the death that may come with it, in a player's own counts. */
  lemma CountsAdd(events: seq<CombatEvent>, added: seq<CombatEvent>, hit: CombatEvent, death: CombatEvent, id: string)
    requires hit.kind.Hit? && death.kind.Death? && hit.damage == DAMAGE_PER_HIT
    requires added == [hit] || added == [hit, death]
    ensures Dealt(events + added, id) == Dealt(events, id) + (if hit.shooterId == id then DAMAGE_PER_HIT else 0)
    ensures Falls(events + added, id) == Falls(events, id) + (if |added| == 2 && death.targetId == id then 1 else 0)
  {
    Snoc(events, hit, id);
    FallsSnoc(events, hit, id);
    Snoc(events + [hit], death, id);
    FallsSnoc(events + [hit], death, id);
    assert events + [hit] + [death] == events + [hit, death];
  }

  lemma CountsAfter(r: PlayerRuntime, r': PlayerRuntime, events: seq<CombatEvent>, id: string,
                    added: seq<CombatEvent>, hit: CombatEvent, death: CombatEvent)
    requires Counts(r, events, id)
    requires hit.kind.Hit? && death.kind.Death? && hit.damage == DAMAGE_PER_HIT
    requires added == [hit] || added == [hit, death]
    requires r'.hitsLanded == r.hitsLanded + (if id == hit.shooterId then 1 else 0)
    requires r'.deaths == r.deaths + (if |added| == 2 && id == death.targetId then 1 else 0)
    ensures Counts(r', events + added, id)
  {
    CountsAdd(events, added, hit, death, id);
  }

  /** Events added to the history of present players only keep everybody untroubled. */
  lemma UntroubledAdds(s: Session, s': Session, tick: nat, added: seq<CombatEvent>)
    requires Untroubled(s) && AddsEvents(s, s', tick, added)
    ensures Untroubled(s')
  {
    var events := Events(s.history.trace);
    forall id | Named(events + added, id) ensures id in s.players {
      var e :| e in events + added && (e.shooterId == id || e.targetId == id);
      assert e in events ==> Named(events, id);
    }
    forall id | id in s.players ensures EntersOnce(s', id) {
      assert EntersOnce(s, id);
      SinceAreTails(s.history.trace, id);
      var since := SinceEntry(s.history.trace, id);
      assert Surplus(events + added, since + added) == Surplus(events, since);
    }
  }

  lemma RecentAdds(e: CombatEvent, s: Session, s': Session, tick: nat, added: seq<CombatEvent>)
    requires s'.players.Keys == s.players.Keys && AddsTo(s.history.trace, s'.history.trace, added)
    requires Recent(e, s, tick) || (e in added && e.kind.Death? && e.tick == tick
                                    && e.shooterId in s.players && e.targetId in s.players)
    ensures Recent(e, s', tick)
  {
  }

  lemma AccountedHit(s: Session, i: nat, target: string, tick: nat)
    requires Roster(s) && Accounted(s) && CanHit(s, i, target)
    ensures Accounted(HitPlayer(s, i, target, tick))
  {
    assert Mirrored(s.players[target], target);
    var added, hit, death := EventsAfterHit(s, i, target, tick);
    var s' := HitPlayer(s, i, target, tick);
    forall id | id in s'.players ensures EntryCounts(s'.players[id], s'.history.trace, id) {
      CountersAfterHit(s, i, target, tick, id);
      assert EntryCounts(s.players[id], s.history.trace, id);
      CountsAfter(s.players[id], s'.players[id], SinceEntry(s.history.trace, id), id, added, hit, death);
    }
  }

  /** What a hit adds to the state is events of this tick between present players, and pending deaths among them. */
  ghost predicate AddsEvents(s: Session, s': Session, tick: nat, added: seq<CombatEvent>) {
    && s'.players.Keys == s.players.Keys && AddsTo(s.history.trace, s'.history.trace, added)
    && (forall e :: e in added ==> e.tick == tick && e.shooterId in s.players && e.targetId in s.players)
    && (forall e :: e in s'.pendingDeaths ==> e in s.pendingDeaths || (e in added && e.kind.Death?))
  }

  lemma HitAdds(s: Session, i: nat, target: string, tick: nat) returns (added: seq<CombatEvent>)
    requires Roster(s) && CanHit(s, i, target)
    ensures AddsEvents(s, HitPlayer(s, i, target, tick), tick, added)
  {
    assert Mirrored(s.players[target], target);
    var events, _, _ := EventsAfterHit(s, i, target, tick);
    added := events;
  }

  lemma PendingAdds(s: Session, s': Session, tick: nat, added: seq<CombatEvent>)
    requires EventsUpTo(s, tick) && PendingRecent(s, tick) && AddsEvents(s, s', tick, added)
    ensures EventsUpTo(s', tick) && PendingRecent(s', tick)
  {
    forall e | e in s'.pendingDeaths ensures Recent(e, s', tick) {
      RecentAdds(e, s, s', tick, added);
    }
  }

  lemma TrackedHit(s: Session, i: nat, target: string, tick: nat, driven: bool, calm: bool)
    requires Roster(s) && Tracked(s, tick, driven, calm) && CanHit(s, i, target)
    ensures Tracked(HitPlayer(s, i, target, tick), tick, driven, calm)
  {
    AccountedHit(s, i, target, tick);
    var added := HitAdds(s, i, target, tick);
    TrackedAdds(s, HitPlayer(s, i, target, tick), tick, added, driven, calm);
  }

  lemma TrackedAdds(s: Session, s': Session, tick: nat, added: seq<CombatEvent>, driven: bool, calm: bool)
    requires Tracked(s, tick, driven, calm) && AddsEvents(s, s', tick, added) && Accounted(s')
    ensures Tracked(s', tick, driven, calm)
  {
    if driven {
      PendingAdds(s, s', tick, added);
    }
    if calm {
      UntroubledAdds(s, s', tick, added);
    }
  }

  lemma TrackedCollide(s: Session, i: nat, tick: nat, order: seq<string>, driven: bool, calm: bool)
    requires Roster(s) && Tracked(s, tick, driven, calm)
    requires i < |s.projectiles| && forall id :: id in order ==> id in s.players
    ensures Tracked(Collide(s, i, tick, order), tick, driven, calm)
  {
    if s.projectiles[i].active {
      var scanned := Scan(s.players, order, s.projectiles[i], 0);
      ScanFindsPlayer(s.players, order, s.projectiles[i], 0);
      var counted := CountPairs(s, scanned.pairs);
      TrackedFrame(s, counted, tick, driven, calm);
      if scanned.target.Some? {
        TrackedHit(counted, i, scanned.target.value, tick, driven, calm);
      }
    }
  }

  lemma {:induction false} TrackedResolve(s: Session, i: nat, tick: nat, order: seq<string>, driven: bool, calm: bool)
    requires Inv(s) && Tracked(s, tick, driven, calm)
    requires i <= |s.projectiles| && forall id :: id in order ==> id in s.players
    ensures Tracked(Resolve(s, i, tick, order), tick, driven, calm)
    decreases |s.projectiles| - i
  {
    if i < |s.projectiles| {
      ResolveUnfolds(s, i, tick, order);
      TrackedCollide(s, i, tick, order, driven, calm);
      InvCollide(s, i, tick, order);
      TrackedResolve(Collide(s, i, tick, order), i + 1, tick, order, driven, calm);
    }
  }

  lemma TrackedTick(s: Session, tick: nat, delta: real, order: seq<string>, driven: bool, calm: bool)
    requires Inv(s) && Tracked(s, tick, driven, calm) && forall id :: id in order ==> id in s.players
    ensures Tracked(Tick(s, tick, delta, order), tick, driven, calm)
  {
    var begun := BeginTick(s, delta);
    InvBegin(s, delta);
    TrackedFrame(s, begun, tick, driven, calm);
    TrackedResolve(begun, 0, tick, order, driven, calm);
    TrackedFrame(Resolve(begun, 0, tick, order), Tick(s, tick, delta, order), tick, driven, calm);
  }

  lemma AccountedJoin(s: Session, id: string)
    requires Roster(s) && Accounted(s) && id != ""
    ensures Accounted(UpsertPlayer(s, id))
  {
    var s' := UpsertPlayer(s, id);
    if id in s.players {
      assert Mirrored(s.players[id], id);
    }
    forall other | other in s'.players ensures EntryCounts(s'.players[other], s'.history.trace, other) {
      if other in s.players {
        assert EntryCounts(s.players[other], s.history.trace, other);
      }
    }
  }

  lemma UntroubledJoin(s: Session, id: string)
    requires Untroubled(s) && id !in s.players
    ensures Untroubled(UpsertPlayer(s, id))
  {
    var s' := UpsertPlayer(s, id);
    forall other | other in s'.players ensures EntersOnce(s', other) {
      if other != id {
        assert EntersOnce(s, other);
      } else {
        assert Surplus(Events(s.history.trace), []) == Events(s.history.trace);
      }
    }
  }

  lemma AccountedLeave(s: Session, id: string)
    requires Accounted(s)
    ensures Accounted(RemovePlayer(s, id))
  {
    forall other | other in s.players - {id} ensures EntryCounts(s.players[other], s.history.trace, other) {
    }
  }

  // ----- runs -----

  ghost function LastTick(run: Run): nat {
    match run
    case Begin => 0
    case After(past, Elapse(tick, _, _)) => tick
    case After(past, _) => LastTick(past)
  }

  /** The driver's order: tick numbers do not go back, and the deaths of a tick are read before the next one. */
  ghost predicate Driven(run: Run)
    requires Legal(run)
  {
    match run
    case Begin => true
    case After(past, op) =>
      Driven(past) && (op.Elapse? ==> LastTick(past) <= op.tick && Final(past).pendingDeaths == [])
  }

  /** Each id joins once, and nobody leaves. */
  ghost predicate Calm(run: Run)
    requires Legal(run)
  {
    match run
    case Begin => true
    case After(past, op) => Calm(past) && !op.Leave? && (op.Join? ==> op.id !in Final(past).players)
  }

  /**
   * What every run keeps: the counters count; driver order keeps tick numbers in line; calm runs name nobody absent.
   */
  ghost predicate Kept(s: Session, tick: nat, driven: bool, calm: bool) {
    && Accounted(s)
    && (driven ==> EventsUpTo(s, tick))
    && (calm ==> Untroubled(s))
  }

  lemma KeptTick(s: Session, before: nat, tick: nat, delta: real, order: seq<string>, driven: bool, calm: bool)
    requires Inv(s) && Kept(s, before, driven, calm) && forall id :: id in order ==> id in s.players
    requires driven ==> before <= tick && s.pendingDeaths == []
    ensures Tracked(Tick(s, tick, delta, order), tick, driven, calm)
  {
    TrackedTick(s, tick, delta, order, driven, calm);
  }

  /** Steps that add no event and change no counter. */
  lemma KeptFrame(s: Session, s': Session, tick: nat, driven: bool, calm: bool)
    requires Kept(s, tick, driven, calm) && s'.history.trace == s.history.trace && s'.players.Keys == s.players.Keys
    requires forall id :: id in s.players ==>
      s'.players[id].hitsLanded == s.players[id].hitsLanded && s'.players[id].deaths == s.players[id].deaths
    ensures Kept(s', tick, driven, calm)
  {
    forall id | id in s'.players ensures EntryCounts(s'.players[id], s'.history.trace, id) {
      assert EntryCounts(s.players[id], s.history.trace, id);
    }
    if calm {
      forall id | id in s'.players ensures EntersOnce(s', id) {
        assert EntersOnce(s, id);
      }
    }
  }

  lemma KeptInput(s: Session, id: string, input: MovementInput, delta: real, roots: Roots,
                  tick: nat, driven: bool, calm: bool)
    requires Kept(s, tick, driven, calm) && roots.Of(input)
    ensures Kept(ApplyInput(s, id, input, delta, roots), tick, driven, calm)
  {
    KeptFrame(s, ApplyInput(s, id, input, delta, roots), tick, driven, calm);
  }

  lemma KeptStep(s: Session, op: Op, before: nat, tick: nat, driven: bool, calm: bool)
    requires Inv(s) && Kept(s, before, driven, calm) && Enabled(s, op)
    requires tick == if op.Elapse? then op.tick else before
    requires driven && op.Elapse? ==> before <= tick && s.pendingDeaths == []
    requires calm ==> !op.Leave? && (op.Join? ==> op.id !in s.players)
    ensures Kept(Step(s, op), tick, driven, calm)
  {
    match op
    case Join(id) =>
      AccountedJoin(s, id);
      if calm {
        UntroubledJoin(s, id);
      }
    case Leave(id) => AccountedLeave(s, id);
    case Input(id, input, delta, roots) => KeptInput(s, id, input, delta, roots, tick, driven, calm);
    case Elapse(_, delta, order) => KeptTick(s, before, tick, delta, order, driven, calm);
    case Consume => KeptFrame(s, ConsumeDeaths(s), tick, driven, calm);
  }

  lemma {:induction false} EveryRunCounts(run: Run)
    requires Legal(run)
    ensures Kept(Final(run), LastTick(run), Driven(run), Calm(run))
  {
    if run.Begin? {
      NothingYet(EMPTY);
    } else {
      EveryRun(run.past);
      EveryRunCounts(run.past);
      KeptStep(Final(run.past), run.op, LastTick(run.past), LastTick(run), Driven(run), Calm(run));
    }
  }

  lemma NothingYet(s: Session)
    requires Blank(s)
    ensures Kept(s, 0, true, true)
  {
  }

  // ----- the exact condition -----

  /** The line is the plain tally of a present player, no fix-up applied, and its numbers are those since his entry. */
  ghost predicate ExactLine(st: PlayerMatchStats, matchId: MatchId, s: Session) {
    && st.playerId in s.players
    && var r := s.players[st.playerId];
       && st.shotsFired == r.shotsFired && st.hitsLanded == r.hitsLanded && st.deaths == r.deaths
       && st.damageDealt == DAMAGE_PER_HIT * r.hitsLanded
       && st.damageTaken == MAX_HEALTH - r.health.current
       && st.kills == Kills(SinceEntry(s.history.trace, st.playerId), st.playerId)
       && st == Line(matchId, Tally(s.players, s.log, st.playerId))
  }

  ghost predicate ExactReport(result: MatchResult, s: Session) {
    && (forall id :: id in s.players ==> Listed(result.playerStats, id))
    && (forall st :: st in result.playerStats ==> ExactLine(st, result.matchId, s))
  }

  /**
   * What the log must be for one player: it has dropped no hit he landed since he entered and holds none of his doings
   * from before; it has dropped no hit he took since he last joined and holds none from before; and it holds a death of
   * his only if he has died since he entered.
   */
  ghost predicate CleanFor(s: Session, id: string)
    requires id in s.players
  {
    var entry, life := SinceEntry(s.history.trace, id), SinceJoin(s.history.trace, id);
    && !HasHitBy(Surplus(entry, s.log), id) && !HasEventBy(Surplus(s.log, entry), id)
    && !HasHitOn(Surplus(life, s.log), id) && !HasHitOn(Surplus(s.log, life), id)
    && (s.players[id].deaths == 0 ==> !Fell(s.log, id))
  }

  /** The log names present players only, and is clean for each of them. */
  ghost predicate CleanLog(s: Session) {
    && (forall id :: Named(s.log, id) ==> id in s.players)
    && (forall id :: id in s.players ==> CleanFor(s, id))
  }

  /** A state a report is made in. */
  ghost predicate Reportable(s: Session, tick: nat) {
    && Roster(s) && Ledger(s) && SoundTrace(s.history.trace)
    && LogComplete(s) && Accounted(s) && EventsUpTo(s, tick) && PendingRecent(s, tick)
  }

  lemma LogIsTail(s: Session)
    requires LogComplete(s)
    ensures Tail(s.log, Events(s.history.trace))
  {
  }

  lemma SurplusIsHarmful(u: seq<CombatEvent>, v: seq<CombatEvent>, events: seq<CombatEvent>)
    requires Tail(u, events) && Harmful(events)
    ensures Harmful(Surplus(u, v))
  {
    forall e | e in Surplus(u, v) ensures e in events {
      assert e in u;
      var k :| 0 <= k < |u| && u[k] == e;
      assert events[|events| - |u| + k] == e;
    }
  }

  /** Two tails tally alike exactly when neither has an event to count before the other begins. */
  lemma SameTallies(u: seq<CombatEvent>, v: seq<CombatEvent>, events: seq<CombatEvent>, id: string)
    requires Tail(u, events) && Tail(v, events) && Harmful(events)
    ensures Dealt(u, id) == Dealt(v, id) <==> !HasHitBy(Surplus(u, v), id) && !HasHitBy(Surplus(v, u), id)
    ensures Taken(u, id) == Taken(v, id) <==> !HasHitOn(Surplus(u, v), id) && !HasHitOn(Surplus(v, u), id)
  {
    TalliesOfTails(u, v, events, id);
    SurplusIsHarmful(u, v, events);
    SurplusIsHarmful(v, u, events);
    ZeroTallies(Surplus(u, v), id);
    ZeroTallies(Surplus(v, u), id);
  }

  lemma KillsOfTails(u: seq<CombatEvent>, v: seq<CombatEvent>, events: seq<CombatEvent>, id: string)
    requires Tail(u, events) && Tail(v, events) && Harmful(events) && Paired(v)
    requires !HasHitBy(Surplus(u, v), id) && !HasHitBy(Surplus(v, u), id)
    ensures Kills(u, id) == Kills(v, id) <==> !HasEventBy(Surplus(u, v), id)
  {
    TalliesOfTails(u, v, events, id);
    SurplusIsHarmful(u, v, events);
    ZeroTallies(Surplus(u, v), id);
    if |v| > |u| {
      PairedPrefix(v, |v| - |u|);
    }
    NoHitNoKill(Surplus(v, u), id);
  }

  lemma EventsIncludeHits(events: seq<CombatEvent>, id: string)
    ensures HasHitBy(events, id) ==> HasEventBy(events, id)
  {
  }

  /** The shooter's side: damage and kills of the log are those since entry just when the log is clean on this side. */
  lemma SameDoings(s: Session, id: string)
    requires SoundTrace(s.history.trace) && LogComplete(s)
    ensures var entry := SinceEntry(s.history.trace, id);
      Dealt(s.log, id) == Dealt(entry, id) && Kills(s.log, id) == Kills(entry, id)
      <==> !HasHitBy(Surplus(entry, s.log), id) && !HasEventBy(Surplus(s.log, entry), id)
  {
    var t, entry := s.history.trace, SinceEntry(s.history.trace, id);
    LogIsTail(s);
    SinceAreTails(t, id);
    HitsAreHarmful(t);
    EntryIsPaired(t, id);
    SameTallies(s.log, entry, Events(t), id);
    EventsIncludeHits(Surplus(s.log, entry), id);
    if !HasHitBy(Surplus(s.log, entry), id) && !HasHitBy(Surplus(entry, s.log), id) {
      KillsOfTails(s.log, entry, Events(t), id);
    }
  }

  lemma SameWounds(s: Session, id: string)
    requires SoundTrace(s.history.trace) && Ledger(s) && LogComplete(s) && id in s.players
    ensures var life := SinceJoin(s.history.trace, id);
      Taken(s.log, id) == MAX_HEALTH - s.players[id].health.current
      <==> !HasHitOn(Surplus(life, s.log), id) && !HasHitOn(Surplus(s.log, life), id)
  {
    LogIsTail(s);
    SinceAreTails(s.history.trace, id);
    HitsAreHarmful(s.history.trace);
    TakenSinceJoin(s, id);
    SameTallies(s.log, SinceJoin(s.history.trace, id), Events(s.history.trace), id);
  }

  ghost predicate TrueTally(s: Session, id: string)
    requires id in s.players
  {
    var tally, r := Tally(s.players, s.log, id), s.players[id];
    && tally.damageDealt == DAMAGE_PER_HIT * r.hitsLanded && tally.damageTaken == MAX_HEALTH - r.health.current
    && tally.kills == Kills(SinceEntry(s.history.trace, id), id) && tally.deaths == r.deaths
  }

  /** The tally of a present player is true exactly when the log is clean for him. */
  lemma TrueExactly(s: Session, id: string)
    requires Roster(s) && Ledger(s) && SoundTrace(s.history.trace) && LogComplete(s) && Accounted(s) && id in s.players
    ensures TrueTally(s, id) <==> CleanFor(s, id)
  {
    assert Mirrored(s.players[id], id) && EntryCounts(s.players[id], s.history.trace, id);
    SameDoings(s, id);
    SameWounds(s, id);
  }

  lemma {:induction false} DeathIsAKill(events: seq<CombatEvent>, e: CombatEvent)
    requires e in events && e.kind.Death?
    ensures Kills(events, e.shooterId) >= 1
  {
    var init, last := events[..|events| - 1], events[|events| - 1];
    if e != last {
      DeathIsAKill(init, e);
    }
  }

  /** When the tally is true, no fix-up fires: the winner has his kill and the loser his death. */
  lemma NoFixUp(s: Session, tick: nat, death: CombatEvent, id: string)
    requires Accounted(s) && Recent(death, s, tick) && id in s.players && TrueTally(s, id)
    ensures Settled(Tally(s.players, s.log, id), death) == Tally(s.players, s.log, id)
  {
    assert EntryCounts(s.players[id], s.history.trace, id);
    if id == death.shooterId {
      DeathIsAKill(SinceEntry(s.history.trace, id), death);
    }
    if id == death.targetId {
      assert Fell(SinceEntry(s.history.trace, id), id);
      FallsWhenFell(SinceEntry(s.history.trace, id), id);
    }
  }

  lemma LogInOrder(s: Session, tick: nat)
    requires LogComplete(s) && EventsUpTo(s, tick)
    ensures Filter(s.log, UpTo(tick)) == s.log
  {
    forall i | 0 <= i < |s.log| ensures s.log[i].tick <= tick {
      assert s.log[i] in Events(s.history.trace);
    }
    FilterKeepsAll(s.log, UpTo(tick));
  }

  lemma LineIsExact(s: Session, tick: nat, death: CombatEvent, id: string, matchId: MatchId)
    requires Reportable(s, tick) && death in s.pendingDeaths && id in s.players && CleanFor(s, id)
    ensures ExactLine(Line(matchId, Settled(Tally(s.players, s.log, id), death)), matchId, s)
  {
    assert Recent(death, s, tick) && Mirrored(s.players[id], id);
    TrueExactly(s, id);
    NoFixUp(s, tick, death, id);
  }

  ghost predicate Concerned(s: Session, death: CombatEvent, id: string) {
    Reported(s.players, s.log, death, id)
  }

  ghost function LineOf(s: Session, death: CombatEvent, matchId: MatchId, id: string): PlayerMatchStats {
    Line(matchId, Settled(Tally(s.players, s.log, id), death))
  }

  /** A report in driver order, read against the whole log. */
  ghost predicate ReadsLog(result: MatchResult, death: CombatEvent, s: Session) {
    && (forall st :: st in result.playerStats ==>
          Concerned(s, death, st.playerId) && st == LineOf(s, death, result.matchId, st.playerId))
    && (forall id :: Concerned(s, death, id) ==> LineOf(s, death, result.matchId, id) in result.playerStats)
  }

  lemma ReportReadsLog(s: Session, tick: nat, death: CombatEvent, result: MatchResult)
    requires LogComplete(s) && EventsUpTo(s, tick) && death.tick == tick
    requires IsReport(result, death, s.players, s.log)
    ensures ReadsLog(result, death, s)
  {
    LogInOrder(s, tick);
  }

  /** In a clean log everybody concerned is present. */
  lemma ConcernedArePresent(s: Session, tick: nat, death: CombatEvent, id: string)
    requires CleanLog(s) && Recent(death, s, tick)
    ensures Concerned(s, death, id) <==> id in s.players
  {
  }

  ghost predicate LinesExact(s: Session, death: CombatEvent, matchId: MatchId) {
    forall id :: Concerned(s, death, id) ==> ExactLine(LineOf(s, death, matchId, id), matchId, s)
  }

  /** The report is exact just when every line it must have is. */
  lemma ExactByLines(s: Session, death: CombatEvent, result: MatchResult)
    requires ReadsLog(result, death, s)
    ensures ExactReport(result, s) <==> LinesExact(s, death, result.matchId)
  {
    forall id | id in s.players ensures Listed(result.playerStats, id) {
      assert Concerned(s, death, id);
    }
    if ExactReport(result, s) {
      forall id | Concerned(s, death, id) ensures ExactLine(LineOf(s, death, result.matchId, id), result.matchId, s) {
      }
    }
  }

  lemma LinesExactIfClean(s: Session, tick: nat, death: CombatEvent, matchId: MatchId)
    requires Reportable(s, tick) && death in s.pendingDeaths && CleanLog(s)
    ensures LinesExact(s, death, matchId)
  {
    forall id | Concerned(s, death, id) ensures ExactLine(LineOf(s, death, matchId, id), matchId, s) {
      ConcernedArePresent(s, tick, death, id);
      LineIsExact(s, tick, death, id, matchId);
    }
  }

  lemma TrueIfExact(s: Session, death: CombatEvent, matchId: MatchId, id: string)
    requires LinesExact(s, death, matchId) && Concerned(s, death, id)
    ensures id in s.players && TrueTally(s, id)
  {
    assert ExactLine(LineOf(s, death, matchId, id), matchId, s);
  }

  lemma CleanIfLinesExact(s: Session, death: CombatEvent, matchId: MatchId)
    requires Roster(s) && Ledger(s) && SoundTrace(s.history.trace) && LogComplete(s) && Accounted(s)
    requires LinesExact(s, death, matchId)
    ensures CleanLog(s)
  {
    forall id | Named(s.log, id) ensures id in s.players {
      TrueIfExact(s, death, matchId, id);
    }
    forall id | id in s.players ensures CleanFor(s, id) {
      TrueIfExact(s, death, matchId, id);
      TrueExactly(s, id);
    }
  }

  /** In driver order a report tells the truth if and only if the log is clean. */
  lemma ExactExactly(s: Session, tick: nat, death: CombatEvent, result: MatchResult)
    requires Reportable(s, tick) && death in s.pendingDeaths
    requires IsReport(result, death, s.players, s.log)
    ensures ExactReport(result, s) <==> CleanLog(s)
  {
    assert Recent(death, s, tick);
    ReportReadsLog(s, tick, death, result);
    ExactByLines(s, death, result);
    if CleanLog(s) {
      LinesExactIfClean(s, tick, death, result.matchId);
    }
    if LinesExact(s, death, result.matchId) {
      CleanIfLinesExact(s, death, result.matchId);
    }
  }

  lemma ReportableTick(s: Session, before: nat, tick: nat, delta: real, order: seq<string>, calm: bool)
    requires Inv(s) && Kept(s, before, true, calm) && before <= tick && s.pendingDeaths == []
    requires forall id :: id in order ==> id in s.players
    ensures Reportable(Tick(s, tick, delta, order), tick)
    ensures calm ==> Untroubled(Tick(s, tick, delta, order))
  {
    KeptTick(s, before, tick, delta, order, true, calm);
    InvTick(s, tick, delta, order);
    LogOfState(Tick(s, tick, delta, order));
  }

  /** Every state a driven run reports in, with the tick just done and its deaths not yet read. */
  lemma EveryBroadcast(run: Run)
    requires Legal(run) && run.After? && run.op.Elapse? && Driven(run)
    ensures Reportable(Final(run), run.op.tick)
    ensures Calm(run) ==> Untroubled(Final(run))
  {
    EveryRun(run.past);
    EveryRunCounts(run.past);
    ReportableTick(Final(run.past), LastTick(run.past), run.op.tick, run.op.delta, run.op.order, Calm(run.past));
  }

  // ----- calm runs: nothing dropped is all it takes -----

  /** The oldest event is a hit: what drops out of the log first is damage. */
  lemma {:induction false} FirstIsHit(t: Trace)
    requires SoundTrace(t)
    ensures Events(t) != [] ==> Events(t)[0].kind.Hit?
  {
    if t.Then? {
      FirstIsHit(t.past);
      if t.mark.Died? {
        FirstIsHit(t.past.past);
      }
    }
  }

  lemma CleanWhileComplete(s: Session)
    requires Roster(s) && LogComplete(s) && Accounted(s) && Untroubled(s) && NothingDropped(s)
    ensures CleanLog(s)
  {
    forall id | id in s.players ensures CleanFor(s, id) {
      assert EntersOnce(s, id) && EntryCounts(s.players[id], s.history.trace, id);
      CleanOne(s, id);
    }
  }

  lemma CleanOne(s: Session, id: string)
    requires id in s.players && EntersOnce(s, id) && EntryCounts(s.players[id], s.history.trace, id)
    requires LogComplete(s) && NothingDropped(s)
    ensures CleanFor(s, id)
  {
    var t, entry := s.history.trace, SinceEntry(s.history.trace, id);
    SinceAreTails(t, id);
    assert s.log == Events(t);
    assert Events(t)[|Events(t)| - |entry|..] == SinceJoin(t, id) == entry;
    assert forall e :: e in Surplus(s.log, entry) ==> e.shooterId != id && e.targetId != id;
    FallsWhenFell(entry, id);
    if Fell(s.log, id) {
      var e :| e in s.log && e.kind.Death? && e.targetId == id;
      SurplusOrTail(s.log, entry, Events(t), e);
    }
  }

  lemma SurplusOrTail(u: seq<CombatEvent>, v: seq<CombatEvent>, events: seq<CombatEvent>, e: CombatEvent)
    requires Tail(u, events) && Tail(v, events) && e in u
    ensures e in Surplus(u, v) || e in v
  {
    SurplusJoins(u, v, events);
    assert e in Surplus(v, u) + u;
    assert e in Surplus(u, v) + v;
  }

  lemma FirstIsInSurplus(events: seq<CombatEvent>, u: seq<CombatEvent>)
    requires Tail(u, events)
    ensures |u| < |events| ==> Named(Surplus(events, u), events[0].shooterId)
  {
    if |u| < |events| {
      assert Surplus(events, u)[0] == events[0];
      assert events[0] in Surplus(events, u);
    }
  }

  lemma EntersFirst(s: Session, id: string)
    requires Untroubled(s) && Events(s.history.trace) != [] && Events(s.history.trace)[0].shooterId == id
    ensures id in s.players && SinceEntry(s.history.trace, id) == Events(s.history.trace)
  {
    var t := s.history.trace;
    assert Events(t)[0] in Events(t) && Named(Events(t), id);
    assert EntersOnce(s, id);
    SinceAreTails(t, id);
    FirstIsInSurplus(Events(t), SinceEntry(t, id));
  }

  lemma FirstHitIsSurplus(events: seq<CombatEvent>, log: seq<CombatEvent>)
    requires |log| < |events| && events[0].kind.Hit?
    ensures HasHitBy(Surplus(events, log), events[0].shooterId)
  {
    assert Surplus(events, log)[0] == events[0];
    assert events[0] in Surplus(events, log);
  }

  lemma DirtyOnceDropped(s: Session)
    requires SoundTrace(s.history.trace) && LogComplete(s) && Untroubled(s) && !NothingDropped(s)
    ensures !CleanLog(s)
  {
    var events := Events(s.history.trace);
    FirstIsHit(s.history.trace);
    EntersFirst(s, events[0].shooterId);
    FirstHitIsSurplus(events, s.log);
    assert !CleanFor(s, events[0].shooterId);
  }

  /** With each id joining once and nobody leaving, the log is clean if and only if it has dropped nothing. */
  lemma CleanIsComplete(s: Session)
    requires Roster(s) && SoundTrace(s.history.trace) && LogComplete(s) && Accounted(s) && Untroubled(s)
    ensures CleanLog(s) <==> NothingDropped(s)
  {
    if NothingDropped(s) {
      CleanWhileComplete(s);
    } else {
      DirtyOnceDropped(s);
    }
  }
}
