/** When ticks start, exactly, and what `Start` and `Stop` bring about, on top of the scheduler of game_loop.cpp. */
module LoopTimings {
  import opened GameLoops

  // ----- starting and stopping -----

  ghost predicate Runs(s: Loop, actions: seq<Action>)
    decreases |actions|
  {
    actions == [] || (Enabled(s, actions[0]) && Runs(Step(s, actions[0]), actions[1..]))
  }

  ghost function After(s: Loop, actions: seq<Action>): Loop
    requires Runs(s, actions)
    decreases |actions|
  {
    if actions == [] then s else After(Step(s, actions[0]), actions[1..])
  }

  /** The loop thread's own steps among the actions. */
  ghost function OwnSteps(actions: seq<Action>): nat {
    if actions == [] then 0 else (if actions[0].LoopStep? then 1 else 0) + OwnSteps(actions[1..])
  }

  /** On the way through the actions the loop comes to its end, and says so. */
  ghost predicate Ends(s: Loop, actions: seq<Action>)
    requires Runs(s, actions)
    decreases |actions|
  {
    (s.pc.Finished? && !s.running) || (actions != [] && Ends(Step(s, actions[0]), actions[1..]))
  }

  ghost function Starting(): seq<Action> {
    [CallStart, ControlStep, ControlStep, ControlStep]
  }

  ghost predicate FreshlyStarted(s: Loop) {
    && s.pc.ReadFirst? && s.running && !s.stopRequested && s.control.Ready?
    && s.durations == [] && s.ticks == 0
  }

  /** `Start` on a stopped loop makes a fresh thread, flag down and metrics cleared; else it does nothing. */
  lemma StartBegins(s: Loop)
    requires Handshake(s) && Enabled(s, CallStart)
    ensures s.running ==> Step(s, CallStart) == s
    ensures !s.running ==> Runs(s, Starting()) && FreshlyStarted(After(s, Starting()))
  {
    if !s.running {
      var a := Step(s, CallStart);
      var b := Step(a, ControlStep);
      var c := Step(b, ControlStep);
      var d := Step(c, ControlStep);
      assert Runs(d, []) && After(d, []) == d;
      assert Runs(c, [ControlStep]) && After(c, [ControlStep]) == d;
      assert [ControlStep, ControlStep][1..] == [ControlStep];
      assert Runs(b, [ControlStep, ControlStep]) && After(b, [ControlStep, ControlStep]) == d;
      assert [ControlStep, ControlStep, ControlStep][1..] == [ControlStep, ControlStep];
      assert Starting()[1..] == [ControlStep, ControlStep, ControlStep];
    }
  }

  /** `Join` waits for the thread to end, and then `Start` may make another. */
  lemma JoinMakesRoom(s: Loop)
    requires Handshake(s) && Enabled(s, CallJoin)
    ensures !s.running && Step(s, CallJoin).pc.Absent? && Enabled(Step(s, CallJoin), CallStart)
    ensures Step(s, CallJoin) == s.(pc := Absent)
  {
  }

  /** While the flag is up and the loop lives, nothing but its own steps moves it, and nothing takes the flag down. */
  lemma FlagStaysUp(s: Loop, a: Action)
    requires Handshake(s) && s.stopRequested && Alive(s.pc) && Enabled(s, a)
    ensures Handshake(Step(s, a)) && Step(s, a).stopRequested
    ensures !a.LoopStep? ==> Step(s, a).pc == s.pc
  {
    HandshakeStep(s, a);
  }

  lemma {:induction false} FlaggedLoopEnds(s: Loop, actions: seq<Action>)
    requires Handshake(s) && s.stopRequested && Alive(s.pc) && Runs(s, actions)
    ensures Ends(s, actions) || OwnSteps(actions) < StepsToStop(s.pc)
    decreases |actions|
  {
    StopTakesEffect(s);
    if actions != [] {
      var t := Step(s, actions[0]);
      FlagStaysUp(s, actions[0]);
      if Alive(t.pc) {
        FlaggedLoopEnds(t, actions[1..]);
      } else {
        assert Ends(t, actions[1..]);
      }
    }
  }

  /** Between the call of `Stop` and the moment it holds the mutex only the loop and time go on. */
  ghost predicate Stopping(s: Loop) {
    Handshake(s) && s.control.Flagging?
  }

  lemma {:induction false} StopWaits(s: Loop, before: seq<Action>)
    requires Stopping(s) && Runs(s, before) && ControlStep !in before
    ensures Stopping(After(s, before))
    decreases |before|
  {
    if before != [] {
      HandshakeStep(s, before[0]);
      assert before[0] in before;
      StopWaits(Step(s, before[0]), before[1..]);
    }
  }

  /**
   * `Stop` on a running loop: whatever happens until it has the mutex and whatever happens afterwards, the loop ends
   * before its eighth step from then on.
   */
  lemma StopEndsTheLoop(s: Loop, before: seq<Action>, after: seq<Action>)
    requires Handshake(s) && s.running && s.control.Ready?
    requires Runs(Step(s, CallStop), before) && ControlStep !in before
    requires var waiting := After(Step(s, CallStop), before);
      Enabled(waiting, ControlStep) && Runs(Step(waiting, ControlStep), after)
    ensures var stopped := Step(After(Step(s, CallStop), before), ControlStep);
      && stopped.stopRequested && stopped.control.Ready?
      && (Ends(stopped, after) || OwnSteps(after) < 8)
  {
    HandshakeStep(s, CallStop);
    StopWaits(Step(s, CallStop), before);
    var waiting := After(Step(s, CallStop), before);
    HandshakeStep(waiting, ControlStep);
    var stopped := Step(waiting, ControlStep);
    if Alive(stopped.pc) {
      StopTakesEffect(stopped);
      FlaggedLoopEnds(stopped, after);
    }
  }

  // ----- exact times -----

  /** Only waiting, up to the deadline, and the callbacks take time while the loop lives. */
  ghost predicate Prompt(s: Loop, a: Action) {
    a.Pass? && Alive(s.pc) ==>
      s.pc.ReadFirst? || s.pc.InCallback? || (s.pc.Waiting? && a.to <= s.pc.until)
  }

  ghost predicate PromptSchedule(schedule: Schedule)
    requires Possible(schedule)
  {
    match schedule
    case Initially(_) => true
    case Then(past, a) => PromptSchedule(past) && Prompt(Reached(past), a)
  }

  ghost function Max(a: real, b: real): real {
    if a >= b then a else b
  }

  /** The deadline after tick `k`: a period after its start, and two periods after the first. */
  ghost function NextDue(k: nat, start: real, target: real): real {
    if k == 0 then start + target + target else start + target
  }

  /**
   * Tick 0 starts with the loop, and each later tick at its deadline or, when the callback overran it, as soon as the
   * callback has returned.
   */
  ghost predicate OnTheDot(frames: seq<Frame>, returned: seq<real>, began: real, target: real) {
    && |returned| <= |frames| <= |returned| + 1
    && (frames != [] ==> frames[0].start == began)
    && forall k, l :: 0 <= k < l < |frames| && l == k + 1 ==>
         frames[l].start == Max(NextDue(k, frames[k].start, target), returned[k])
  }

  /** The deadline after the newest tick. */
  ghost function Due(s: Loop): real {
    var n := |s.frames|;
    if n == 0 then s.began else NextDue(n - 1, s.frames[n - 1].start, s.target)
  }

  /** When the newest callback to return did so. */
  ghost function Back(s: Loop): real {
    if s.returned == [] then s.began else s.returned[|s.returned| - 1]
  }

  /** The deadline is settled, and it is time for the next tick. */
  ghost predicate Starts(s: Loop, started: bool, due: real, back: real) {
    if started then s.clock == s.nextFrame == Max(due, back)
    else s.clock == s.began && s.nextFrame == s.began + s.target
  }

  /** After the callback the deadline is the newest tick's, and only the wait takes time. */
  ghost predicate Rests(s: Loop, started: bool, due: real, back: real) {
    started && s.nextFrame == due && back <= s.clock
  }

  /** Where each step finds the deadline and the clock, given those of the newest tick. */
  ghost predicate OnTime(s: Loop, started: bool, due: real, back: real) {
    match s.pc
    case CheckStop => s.stopRequested || Starts(s, started, due, back)
    case ReadStart => Starts(s, started, due, back)
    case LockForCallback(frame) => Starts(s, started, due, back) && frame.start == s.clock
    case InCallback(_) => started && s.nextFrame + s.target == due
    case RecordDuration(_) => Rests(s, started, due, back) && s.clock == back
    case ReadNow => Rests(s, started, due, back) && s.clock == back
    case EnterWait(duration) =>
      Rests(s, started, due, back) && s.clock == back && s.clock + duration == s.nextFrame && duration > 0.0
    case Waiting(until) => Rests(s, started, due, back) && s.clock <= until == s.nextFrame
    case Rebase => Rests(s, started, due, back) && s.clock == back && s.nextFrame <= s.clock
    case _ => true
  }

  ghost predicate Timely(s: Loop) {
    && OnTheDot(s.frames, s.returned, s.began, s.target)
    && (Under(s) ==> |s.frames| == |s.returned| + (if s.pc.InCallback? then 1 else 0))
    && OnTime(s, s.frames != [], Due(s), Back(s))
    && (s.pc.ReadFirst? || s.control.Spawning? || s.control.Unflagging? ==> s.frames == [] && s.returned == [])
  }

  /** The next tick starts when it may, so the record of ticks stays exact. */
  lemma TimelyCall(s: Loop)
    requires Handshake(s) && Timely(s) && s.pc.LockForCallback?
    ensures Timely(LoopMove(s))
  {
    var s', n := LoopMove(s), |s.frames|;
    assert OnTheDot(s'.frames, s'.returned, s.began, s.target) by {
      assert forall k :: 0 <= k < n ==> s'.frames[k] == s.frames[k];
    }
  }

  lemma TimelyReturn(s: Loop)
    requires Timely(s) && s.pc.InCallback?
    ensures Timely(LoopMove(s))
  {
    var s' := LoopMove(s);
    assert s'.returned[..|s.returned|] == s.returned;
    assert OnTheDot(s'.frames, s'.returned, s.began, s.target);
  }

  lemma OnTimeBetween(s: Loop, started: bool, due: real, back: real)
    requires OnTime(s, started, due, back) && Enabled(s, LoopStep)
    requires !s.pc.LockForCallback? && !s.pc.InCallback? && !s.pc.ReadFirst?
    ensures OnTime(LoopMove(s), started, due, back)
  {
  }

  /** The other steps leave the record of ticks as it is. */
  lemma RecordKept(s: Loop)
    requires Enabled(s, LoopStep) && !s.pc.LockForCallback? && !s.pc.InCallback?
    ensures var s' := LoopMove(s);
      && s'.frames == s.frames && s'.returned == s.returned && s'.target == s.target && s'.control == s.control
      && !s'.pc.ReadFirst? && !s'.pc.InCallback? && (Under(s') ==> Under(s) || s.pc.ReadFirst?)
      && (s.pc.ReadFirst? || s'.began == s.began)
  {
  }

  lemma TimelyFrame(s: Loop, s': Loop)
    requires Timely(s) && OnTime(s', s.frames != [], Due(s), Back(s))
    requires s'.frames == s.frames && s'.returned == s.returned && s'.target == s.target && s'.began == s.began
    requires Under(s') ==> |s.frames| == |s.returned| + (if s'.pc.InCallback? then 1 else 0)
    requires s'.pc.ReadFirst? || s'.control.Spawning? || s'.control.Unflagging? ==> s.frames == [] && s.returned == []
    ensures Timely(s')
  {
  }

  lemma TimelyBegin(s: Loop)
    requires Timely(s) && s.pc.ReadFirst?
    ensures Timely(LoopMove(s))
  {
  }

  lemma TimelyBetween(s: Loop)
    requires Timely(s) && Enabled(s, LoopStep)
    requires !s.pc.LockForCallback? && !s.pc.InCallback? && !s.pc.ReadFirst?
    ensures Timely(LoopMove(s))
  {
    RecordKept(s);
    OnTimeBetween(s, s.frames != [], Due(s), Back(s));
    TimelyFrame(s, LoopMove(s));
  }

  lemma TimelyMove(s: Loop)
    requires Handshake(s) && Timely(s) && Enabled(s, LoopStep)
    ensures Timely(LoopMove(s))
  {
    match s.pc
    case ReadFirst => TimelyBegin(s);
    case LockForCallback(_) => TimelyCall(s);
    case InCallback(_) => TimelyReturn(s);
    case _ => TimelyBetween(s);
  }

  lemma OnTimeOutside(s: Loop, s': Loop, started: bool, due: real, back: real)
    requires OnTime(s, started, due, back) && s'.pc == s.pc && (Alive(s.pc) && s.stopRequested ==> s'.stopRequested)
    requires s'.nextFrame == s.nextFrame && s'.began == s.began && s'.target == s.target
    requires s'.clock == s.clock
      || !Alive(s.pc) || s.pc.ReadFirst? || s.pc.InCallback? || (s.pc.Waiting? && s.clock <= s'.clock <= s.pc.until)
    ensures OnTime(s', started, due, back)
  {
  }

  lemma TimelyOutside(s: Loop, a: Action)
    requires Handshake(s) && Timely(s) && Enabled(s, a) && !a.LoopStep? && Prompt(s, a)
    ensures Timely(Step(s, a))
  {
    var s' := Step(s, a);
    if s'.pc == s.pc && s'.frames == s.frames && s'.returned == s.returned {
      OnTimeOutside(s, s', s.frames != [], Due(s), Back(s));
      TimelyFrame(s, s');
    }
  }

  lemma {:induction false} EveryPromptSchedule(schedule: Schedule)
    requires Possible(schedule) && PromptSchedule(schedule)
    ensures Timely(Reached(schedule))
  {
    if schedule.Then? {
      var s := Reached(schedule.past);
      EveryPromptSchedule(schedule.past);
      EverySchedule(schedule.past);
      if schedule.action.LoopStep? {
        TimelyMove(s);
      } else {
        TimelyOutside(s, schedule.action);
      }
    }
  }

  /** `n` periods after `t`, exactly. */
  ghost predicate Periods(t: real, n: nat, period: real, at: real) {
    at == t + n as real * period
  }

  /** Callback `k` is back by the deadline of the next tick. */
  ghost predicate InTime(frames: seq<Frame>, returned: seq<real>, target: real, k: nat) {
    k < |frames| && k < |returned| ==> returned[k] <= NextDue(k, frames[k].start, target)
  }

  lemma {:induction false} NoDrift(frames: seq<Frame>, returned: seq<real>, began: real, target: real, k: nat)
    requires OnTheDot(frames, returned, began, target) && 1 <= k < |frames|
    requires forall j :: 0 <= j < k ==> InTime(frames, returned, target, j)
    ensures Periods(began, k + 1, target, frames[k].start)
  {
    assert InTime(frames, returned, target, k - 1);
    if k > 1 {
      NoDrift(frames, returned, began, target, k - 1);
      assert (k + 1) as real * target == k as real * target + target;
    }
  }

  /**
   * In every prompt schedule each tick starts exactly when it is due; so while no callback overruns, tick k >= 1 starts
   * exactly k + 1 periods after the loop began.
   */
  lemma TicksAreOnTime(schedule: Schedule)
    requires Possible(schedule) && PromptSchedule(schedule)
    ensures var s := Reached(schedule);
      && OnTheDot(s.frames, s.returned, s.began, s.target)
      && forall k :: 1 <= k < |s.frames| && (forall j :: 0 <= j < k ==> InTime(s.frames, s.returned, s.target, j)) ==>
           Periods(s.began, k + 1, s.target, s.frames[k].start)
  {
    EveryPromptSchedule(schedule);
    var s := Reached(schedule);
    forall k | 1 <= k < |s.frames| && (forall j :: 0 <= j < k ==> InTime(s.frames, s.returned, s.target, j))
      ensures Periods(s.began, k + 1, s.target, s.frames[k].start)
    {
      NoDrift(s.frames, s.returned, s.began, s.target, k);
    }
  }
}
