/** A queued player's request: how long it has waited and how far it will reach (match_request.cpp). */
module MatchRequests {

  const BASE_TOLERANCE: int := 100
  const TOLERANCE_STEP: int := 25
  const STEP_SECONDS: real := 5.0
  const NANOS: real := 1000000000.0
  const STEP_NANOS: int := 5000000000

  /** Time points are nanoseconds of the steady clock. */
  datatype MatchRequest = MatchRequest(playerId: string, elo: int, enqueuedAt: int, region: string) {
    function WaitSeconds(now: int): real {
      (now - enqueuedAt) as real / NANOS
    }

    /** Whole five-second steps waited, each worth 25 rating points; see `ToleranceFromSeconds`. */
    function CurrentTolerance(now: int): int {
      BASE_TOLERANCE + StepsWaited(now) * TOLERANCE_STEP
    }

    function StepsWaited(now: int): nat {
      if now > enqueuedAt then (now - enqueuedAt) / STEP_NANOS else 0
    }
  }

  predicate RegionsCompatible(a: MatchRequest, b: MatchRequest) {
    a.region == "any" || b.region == "any" || a.region == b.region
  }

  function Distance(a: MatchRequest, b: MatchRequest): nat {
    if a.elo < b.elo then b.elo - a.elo else a.elo - b.elo
  }

  /** Both sides reach the other, and the regions agree. */
  predicate Acceptable(a: MatchRequest, b: MatchRequest, now: int) {
    && RegionsCompatible(a, b)
    && Distance(a, b) <= a.CurrentTolerance(now)
    && Distance(a, b) <= b.CurrentTolerance(now)
  }

  /** The five-second steps after which a rating distance is within reach. */
  function StepsNeeded(distance: nat): nat {
    if distance <= BASE_TOLERANCE then 0 else (distance - BASE_TOLERANCE + TOLERANCE_STEP - 1) / TOLERANCE_STEP
  }

  /** The steps are the seconds waited, not below zero, over five, truncated. */
  lemma ToleranceFromSeconds(r: MatchRequest, now: int)
    ensures var waited := if r.WaitSeconds(now) > 0.0 then r.WaitSeconds(now) else 0.0;
      r.CurrentTolerance(now) == BASE_TOLERANCE + (waited / STEP_SECONDS).Floor * TOLERANCE_STEP
  {
    WholeSteps(if now > r.enqueuedAt then now - r.enqueuedAt else 0);
  }

  lemma WholeSteps(waited: nat)
    ensures (waited as real / NANOS / STEP_SECONDS).Floor == waited / STEP_NANOS
  {
    var steps, rest := waited / STEP_NANOS, waited % STEP_NANOS;
    assert waited == steps * STEP_NANOS + rest;
    var part := rest as real / (STEP_NANOS as real);
    assert waited as real / NANOS / STEP_SECONDS == steps as real + part;
    assert 0.0 <= part < 1.0;
  }

  /** A distance is within tolerance exactly from `StepsNeeded` five-second steps after enqueueing on. */
  lemma ReachesAfter(r: MatchRequest, now: int, distance: nat)
    ensures distance <= r.CurrentTolerance(now)
       <==> StepsNeeded(distance) == 0 || now >= r.enqueuedAt + StepsNeeded(distance) * STEP_NANOS
  {
    var needed, steps := StepsNeeded(distance), r.StepsWaited(now);
    assert distance <= BASE_TOLERANCE + steps * TOLERANCE_STEP <==> needed <= steps;
    assert now > r.enqueuedAt ==> (needed <= steps <==> needed * STEP_NANOS <= now - r.enqueuedAt);
  }

  /** A player waiting no less long reaches no less far. */
  lemma LongerWaitReachesFurther(a: MatchRequest, b: MatchRequest, now: int)
    requires a.enqueuedAt <= b.enqueuedAt
    ensures a.CurrentTolerance(now) >= b.CurrentTolerance(now)
  {
    assert a.StepsWaited(now) >= b.StepsWaited(now);
  }

  lemma AcceptableIsSymmetric(a: MatchRequest, b: MatchRequest, now: int)
    ensures Acceptable(a, b, now) <==> Acceptable(b, a, now)
  {
  }

  /**
   * Exactly when two requests can be paired: compatible regions, and each has waited the steps their distance needs.
   * So a compatible pair is within reach from the later enqueue time plus five seconds for each step on.
   */
  lemma AcceptableExactly(a: MatchRequest, b: MatchRequest, now: int)
    ensures Acceptable(a, b, now) <==>
      && RegionsCompatible(a, b)
      && var steps := StepsNeeded(Distance(a, b));
         steps == 0 || (now >= a.enqueuedAt + steps * STEP_NANOS && now >= b.enqueuedAt + steps * STEP_NANOS)
  {
    ReachesAfter(a, now, Distance(a, b));
    ReachesAfter(b, now, Distance(a, b));
  }

  /** Whoever would take `y` would take `x` too, when they have the same rating and region and `x` came no later. */
  lemma EarlierIsPreferred(x: MatchRequest, y: MatchRequest, z: MatchRequest, now: int)
    requires x.elo == y.elo && x.region == y.region && x.enqueuedAt <= y.enqueuedAt
    requires Acceptable(y, z, now)
    ensures Acceptable(x, z, now) && Acceptable(z, x, now)
  {
    LongerWaitReachesFurther(x, y, now);
  }

  /** The match's region: the common one, or the specific one when the other side takes any. */
  function ResolveRegion(a: MatchRequest, b: MatchRequest): (region: string)
    ensures RegionsCompatible(a, b) ==>
      (a.region == "any" || region == a.region) && (b.region == "any" || region == b.region)
    ensures region == a.region || region == b.region
  {
    if a.region == b.region then a.region
    else if a.region == "any" then b.region
    else if b.region == "any" then a.region
    else a.region
  }
}
