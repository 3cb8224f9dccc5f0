/**
 * The tick scheduler (game_loop.cpp) as interleaved steps of two threads: the loop thread inside `Run`, and one
 * controller that calls `Start`, `Stop` and `Join` and joins a finished loop before starting another.
 */
module GameLoops {
  import opened Seqs

  const KEPT_DURATIONS: nat := 240

  /** What one iteration passes to the callback. */
  datatype Frame = Frame(tick: nat, deltaSeconds: real, start: real)

  /** Where the loop thread stands; each constructor is followed by one atomic step. */
  datatype LoopPc =
    | Absent
    | ReadFirst
    | CheckStop
    | ReadStart
    | LockForCallback(frame: Frame)
    | InCallback(frame: Frame)
    | RecordDuration(frame: Frame)
    | ReadNow
    | EnterWait(duration: real)
    | Waiting(until: real)
    | Rebase
    | Finished

  datatype ControlPc = Ready | Clearing | Unflagging | Spawning | Flagging

  /**
   * The last four fields are bookkeeping: when this loop began, its frames so far, when their callbacks returned, and
   * how many callbacks began under a set flag.
   */
  datatype Loop = Loop(
    target: real, clock: real,
    running: bool, stopRequested: bool, durations: seq<real>, ticks: nat,
    pc: LoopPc, previous: real, nextFrame: real, control: ControlPc,
    began: real, frames: seq<Frame>, returned: seq<real>, lateCalls: nat)

  ghost predicate IsInitial(s: Loop) {
    && s.target > 0.0
    && !s.running && !s.stopRequested && s.durations == [] && s.ticks == 0
    && s.pc.Absent? && s.control.Ready? && s.frames == [] && s.returned == [] && s.lateCalls == 0
  }

  datatype Action = Pass(to: real) | LoopStep | CallStart | CallStop | CallJoin | ControlStep

  ghost predicate Alive(pc: LoopPc) {
    !pc.Absent? && !pc.Finished?
  }

  /** Time does not run backwards; a wait ends by timeout or by the flag; the callback holds the mutex `Stop` needs. */
  ghost predicate Enabled(s: Loop, a: Action) {
    match a
    case Pass(to) => to >= s.clock
    case LoopStep => Alive(s.pc) && (s.pc.Waiting? ==> s.stopRequested || s.clock >= s.pc.until)
    case CallStart => s.control.Ready? && (s.running || s.pc.Absent?)
    case CallStop => s.control.Ready?
    case CallJoin => s.control.Ready? && !Alive(s.pc)
    case ControlStep => !s.control.Ready? && (s.control.Flagging? ==> !s.pc.InCallback?)
  }

  ghost function LoopMove(s: Loop): Loop
    requires Enabled(s, LoopStep)
  {
    match s.pc
    case ReadFirst => s.(previous := s.clock, nextFrame := s.clock + s.target, began := s.clock, pc := CheckStop)
    case CheckStop => if s.stopRequested then s.(running := false, pc := Finished) else s.(pc := ReadStart)
    case ReadStart => s.(pc := LockForCallback(Frame(s.ticks, s.clock - s.previous, s.clock)))
    case LockForCallback(frame) =>
      s.(frames := s.frames + [frame], lateCalls := s.lateCalls + (if s.stopRequested then 1 else 0),
         pc := InCallback(frame))
    case InCallback(frame) =>
      s.(previous := frame.start, nextFrame := s.nextFrame + s.target, returned := s.returned + [s.clock],
         pc := RecordDuration(frame))
    case RecordDuration(frame) =>
      var longer := s.durations + [frame.deltaSeconds];
      s.(durations := if |longer| > KEPT_DURATIONS then longer[1..] else longer, ticks := s.ticks + 1, pc := ReadNow)
    case ReadNow =>
      var sleep := s.nextFrame - s.clock;
      s.(pc := if sleep > 0.0 then EnterWait(sleep) else Rebase)
    case EnterWait(duration) => s.(pc := Waiting(s.clock + duration))
    case Waiting(_) => s.(pc := CheckStop)
    case Rebase => s.(nextFrame := s.clock, pc := CheckStop)
  }

  ghost function ControlMove(s: Loop): Loop
    requires Enabled(s, ControlStep)
  {
    match s.control
    case Clearing => s.(durations := [], ticks := 0, frames := [], returned := [], control := Unflagging)
    case Unflagging => s.(stopRequested := false, lateCalls := 0, control := Spawning)
    case Spawning => s.(pc := ReadFirst, control := Ready)
    case Flagging => s.(stopRequested := true, control := Ready)
  }

  ghost function Step(s: Loop, a: Action): Loop
    requires Enabled(s, a)
  {
    match a
    case Pass(to) => s.(clock := to)
    case LoopStep => LoopMove(s)
    case CallStart => if s.running then s else s.(running := true, control := Clearing)
    case CallStop => if s.running then s.(control := Flagging) else s
    case CallJoin => s.(pc := Absent)
    case ControlStep => ControlMove(s)
  }

  datatype Schedule = Initially(state: Loop) | Then(past: Schedule, action: Action)

  ghost predicate Possible(schedule: Schedule)
    decreases schedule, 0
  {
    match schedule
    case Initially(s) => IsInitial(s)
    case Then(past, a) => Possible(past) && Enabled(Reached(past), a)
  }

  ghost function Reached(schedule: Schedule): Loop
    requires Possible(schedule)
    decreases schedule, 1
  {
    match schedule
    case Initially(s) => s
    case Then(past, a) => Step(Reached(past), a)
  }

  // ----- the stop handshake -----

  /** The running flag tells whether a loop thread exists or is being made. */
  ghost predicate Flags(s: Loop) {
    && (Alive(s.pc) ==> s.running)
    && (s.running && (s.control.Ready? || s.control.Flagging?) ==> Alive(s.pc))
    && (s.control.Flagging? ==> !s.pc.Absent?)
    && (s.control.Clearing? || s.control.Unflagging? || s.control.Spawning? ==> s.pc.Absent? && s.running)
    && (s.control.Spawning? ==> !s.stopRequested && s.lateCalls == 0)
  }

  /**
   * Once past the check, at most one callback is still to begin, and none can begin twice under a set flag; the flag
   * does not go up while a callback runs.
   */
  ghost predicate Handshake(s: Loop) {
    && Flags(s)
    && s.lateCalls <= 1
    && (!s.stopRequested && Alive(s.pc) ==> s.lateCalls == 0)
    && (s.pc.ReadStart? || s.pc.LockForCallback? ==> s.lateCalls == 0)
    && (s.pc.InCallback? && s.stopRequested ==> s.lateCalls == 1)
  }

  lemma HandshakeStep(s: Loop, a: Action)
    requires Handshake(s) && Enabled(s, a)
    ensures Handshake(Step(s, a))
  {
  }

  /** Own steps a loop that has been told to stop may still take, with one callback at most among them. */
  ghost function StepsToStop(pc: LoopPc): nat {
    match pc
    case ReadFirst => 2
    case CheckStop => 1
    case ReadStart => 8
    case LockForCallback(_) => 7
    case InCallback(_) => 6
    case RecordDuration(_) => 5
    case ReadNow => 4
    case EnterWait(_) => 3
    case Waiting(_) => 2
    case Rebase => 2
    case _ => 0
  }

  /** A loop told to stop is never blocked, and each of its steps brings its end nearer: eight at most. */
  lemma StopTakesEffect(s: Loop)
    requires s.stopRequested && Alive(s.pc)
    ensures Enabled(s, LoopStep)
    ensures StepsToStop(LoopMove(s).pc) < StepsToStop(s.pc) <= 8
    ensures StepsToStop(LoopMove(s).pc) == 0 <==> LoopMove(s).pc.Finished?
  {
  }

  // ----- the kept durations -----

  ghost function Deltas(frames: seq<Frame>): seq<real> {
    seq(|frames|, i requires 0 <= i < |frames| => frames[i].deltaSeconds)
  }

  /** The frames whose durations have been recorded. */
  ghost function Recorded(s: Loop): seq<Frame> {
    if (s.pc.InCallback? || s.pc.RecordDuration?) && s.frames != [] then s.frames[..|s.frames| - 1] else s.frames
  }

  /** Frames are numbered from zero, and the metrics keep the last 240 durations. */
  ghost predicate Metrics(s: Loop) {
    && s.ticks == |Recorded(s)|
    && s.durations == Suffix(Deltas(Recorded(s)), KEPT_DURATIONS)
    && (forall k :: 0 <= k < |s.frames| ==> s.frames[k].tick == k)
    && (s.pc.LockForCallback? ==> s.pc.frame.tick == |s.frames|)
    && (s.pc.InCallback? || s.pc.RecordDuration? ==> s.frames != [] && s.frames[|s.frames| - 1] == s.pc.frame)
    && (s.pc.ReadFirst? || s.control.Spawning? || s.control.Unflagging? ==> s.frames == [])
  }

  lemma DeltasSnoc(frames: seq<Frame>)
    requires frames != []
    ensures var n := |frames| - 1; Deltas(frames) == Deltas(frames[..n]) + [frames[n].deltaSeconds]
  {
  }

  /** Pushing the newest duration and dropping the oldest beyond `kept` keeps the last `kept` of all. */
  lemma KeepsNewest(all: seq<real>, newest: real, kept: nat)
    ensures var longer := Suffix(all, kept) + [newest];
      (if |longer| > kept then longer[1..] else longer) == Suffix(all + [newest], kept)
  {
  }

  lemma RecordedGrows(s: Loop)
    requires Metrics(s) && s.pc.RecordDuration?
    ensures Recorded(LoopMove(s)) == s.frames == Recorded(s) + [s.pc.frame]
    ensures Deltas(s.frames) == Deltas(Recorded(s)) + [s.pc.frame.deltaSeconds]
  {
    DeltasSnoc(s.frames);
  }

  lemma MetricsCall(s: Loop)
    requires Handshake(s) && Metrics(s) && s.pc.LockForCallback?
    ensures Metrics(LoopMove(s))
  {
  }

  lemma MetricsMove(s: Loop)
    requires Metrics(s) && Enabled(s, LoopStep) && !s.pc.RecordDuration? && !s.pc.LockForCallback?
    ensures Metrics(LoopMove(s))
  {
    var s' := LoopMove(s);
    assert s'.frames == s.frames && s'.durations == s.durations && s'.ticks == s.ticks && s'.control == s.control;
    assert Recorded(s') == Recorded(s);
  }

  lemma MetricsOutside(s: Loop, a: Action)
    requires Handshake(s) && Metrics(s) && Enabled(s, a) && !a.LoopStep?
    ensures Metrics(Step(s, a))
  {
    var s' := Step(s, a);
    if !(a.ControlStep? && s.control.Clearing?) {
      assert s'.frames == s.frames && s'.durations == s.durations && s'.ticks == s.ticks;
      assert Recorded(s') == Recorded(s);
    }
  }

  lemma MetricsStep(s: Loop, a: Action)
    requires Handshake(s) && Metrics(s) && Enabled(s, a)
    ensures Metrics(Step(s, a))
  {
    if !a.LoopStep? {
      MetricsOutside(s, a);
    } else if s.pc.RecordDuration? {
      RecordedGrows(s);
      KeepsNewest(Deltas(Recorded(s)), s.pc.frame.deltaSeconds, KEPT_DURATIONS);
    } else if s.pc.LockForCallback? {
      MetricsCall(s);
    } else {
      MetricsMove(s);
    }
  }

  // ----- deadlines -----

  /** `n` periods after `t`. */
  ghost function Later(t: real, n: nat, period: real): real {
    if n == 0 then t else Later(t, n - 1, period) + period
  }

  lemma {:induction false} LaterIs(t: real, n: nat, period: real)
    ensures Later(t, n, period) == t + n as real * period
  {
    if n > 0 {
      LaterIs(t, n - 1, period);
      assert n as real * period == (n - 1) as real * period + period;
    }
  }

  /** Frame k, from the second on, starts at least k + 1 periods after the loop began. */
  ghost predicate OnSchedule(frames: seq<Frame>, began: real, target: real) {
    forall k :: 1 <= k < |frames| ==> frames[k].start >= Later(began, k + 1, target)
  }

  /** No catching up: any two frames are at most one period closer than their numbers are. */
  ghost predicate Spaced(frames: seq<Frame>, target: real) {
    forall j, k :: 0 <= j < k < |frames| ==> frames[k].start >= Later(frames[j].start, k - j - 1, target)
  }

  /** Each frame's duration is measured from the frame before it, the first from the loop's beginning. */
  ghost predicate Chained(frames: seq<Frame>, began: real) {
    && (frames != [] ==> frames[0].deltaSeconds == frames[0].start - began)
    && forall j, k :: 0 <= j < k < |frames| && k == j + 1 ==>
         frames[k].deltaSeconds == frames[k].start - frames[j].start
  }

  /**
   * The deadline keeps the schedule counted from each of the first `upto` frames, `passed` deadlines having gone by.
   */
  ghost predicate Due(next: real, frames: seq<Frame>, upto: int, passed: nat, target: real) {
    forall j :: 0 <= j < upto && j < |frames| && j < passed ==> next >= Later(frames[j].start, passed - 1 - j, target)
  }

  lemma DueAppend(next: real, frames: seq<Frame>, frame: Frame, target: real)
    requires Due(next, frames, |frames|, |frames|, target)
    ensures Due(next, frames + [frame], |frames|, |frames|, target)
  {
  }

  lemma DueAdvance(next: real, frames: seq<Frame>, target: real)
    requires frames != [] && Due(next, frames, |frames| - 1, |frames| - 1, target)
    ensures Due(next + target, frames, |frames| - 1, |frames|, target)
  {
  }

  /** A deadline not earlier, and past the newest frame, answers to that frame too. */
  lemma DueSettles(next: real, next': real, frames: seq<Frame>, target: real)
    requires frames != [] && Due(next, frames, |frames| - 1, |frames|, target)
    requires next' >= next && next' >= frames[|frames| - 1].start
    ensures Due(next', frames, |frames|, |frames|, target)
  {
  }

  lemma SpacedAppend(next: real, frames: seq<Frame>, frame: Frame, target: real)
    requires Spaced(frames, target) && Due(next, frames, |frames|, |frames|, target)
    requires frames != [] ==> frame.start >= next
    ensures Spaced(frames + [frame], target)
  {
  }

  lemma HistoryAppends(next: real, frames: seq<Frame>, frame: Frame, began: real, target: real)
    requires OnSchedule(frames, began, target) && Chained(frames, began)
    requires frames != [] ==> frame.start >= next && next >= Later(began, |frames| + 1, target)
    requires frame.deltaSeconds == frame.start - (if frames == [] then began else frames[|frames| - 1].start)
    ensures OnSchedule(frames + [frame], began, target) && Chained(frames + [frame], began)
  {
  }

  ghost predicate ClockAhead(s: Loop) {
    && s.clock >= s.began
    && (forall k :: 0 <= k < |s.frames| ==> s.frames[k].start <= s.clock)
    && (s.pc.LockForCallback? ==> s.pc.frame.start <= s.clock)
  }

  /** The callback's own frame is the newest one; before it, `previous` is the start of the newest. */
  ghost predicate Previous(s: Loop) {
    && (!s.pc.InCallback? ==> s.previous == if s.frames == [] then s.began else s.frames[|s.frames| - 1].start)
    && (s.pc.LockForCallback? ==> s.pc.frame.deltaSeconds == s.pc.frame.start - s.previous)
  }

  /** The deadline has passed where the next frame may start. */
  ghost predicate Waited(s: Loop) {
    && (s.pc.CheckStop? && s.frames != [] ==> s.stopRequested || s.clock >= s.nextFrame)
    && (s.pc.ReadStart? && s.frames != [] ==> s.clock >= s.nextFrame)
    && (s.pc.LockForCallback? && s.frames != [] ==> s.pc.frame.start >= s.nextFrame)
    && (s.pc.EnterWait? ==> s.clock + s.pc.duration >= s.nextFrame)
    && (s.pc.Waiting? ==> s.pc.until >= s.nextFrame)
    && (s.pc.Rebase? ==> s.clock >= s.nextFrame)
  }

  /** The newest frame is in the log, but the deadline does not answer to it yet. */
  ghost predicate Behind(pc: LoopPc) {
    pc.InCallback? || pc.RecordDuration? || pc.ReadNow? || pc.Rebase?
  }

  ghost predicate Deadline(s: Loop) {
    var n := |s.frames|;
    var passed := if s.pc.InCallback? then n - 1 else n;
    && (Behind(s.pc) ==> n > 0)
    && passed >= 0
    && s.nextFrame >= Later(s.began, passed + 1, s.target)
    && Due(s.nextFrame, s.frames, if Behind(s.pc) then n - 1 else n, passed, s.target)
  }

  ghost predicate Under(s: Loop) {
    Alive(s.pc) && !s.pc.ReadFirst?
  }

  ghost predicate History(s: Loop) {
    OnSchedule(s.frames, s.began, s.target) && Spaced(s.frames, s.target) && Chained(s.frames, s.began)
  }

  ghost predicate Paced(s: Loop) {
    && s.target > 0.0
    && History(s)
    && (Under(s) ==> ClockAhead(s) && Previous(s) && Waited(s) && Deadline(s))
  }

  lemma TimingMove(s: Loop)
    requires Metrics(s) && Under(s) && Enabled(s, LoopStep)
    requires ClockAhead(s) && Previous(s) && Waited(s) && Deadline(s)
    ensures ClockAhead(LoopMove(s)) && Previous(LoopMove(s)) && Waited(LoopMove(s))
  {
  }

  lemma DeadlineAfterCall(s: Loop)
    requires s.pc.LockForCallback? && Deadline(s)
    ensures Deadline(LoopMove(s))
  {
    DueAppend(s.nextFrame, s.frames, s.pc.frame, s.target);
  }

  lemma DeadlineAfterReturn(s: Loop)
    requires s.pc.InCallback? && Deadline(s)
    ensures Deadline(LoopMove(s))
  {
    DueAdvance(s.nextFrame, s.frames, s.target);
  }

  lemma DeadlineSettled(s: Loop)
    requires (s.pc.ReadNow? || s.pc.Rebase?) && ClockAhead(s) && Waited(s) && Deadline(s)
    ensures Deadline(LoopMove(s))
  {
    if s.pc.Rebase? {
      DueSettles(s.nextFrame, s.clock, s.frames, s.target);
    } else if s.nextFrame > s.clock {
      DueSettles(s.nextFrame, s.nextFrame, s.frames, s.target);
    }
  }

  lemma DeadlineMove(s: Loop)
    requires Under(s) && Enabled(s, LoopStep)
    requires ClockAhead(s) && Waited(s) && Deadline(s)
    ensures Deadline(LoopMove(s))
  {
    match s.pc
    case LockForCallback(_) => DeadlineAfterCall(s);
    case InCallback(_) => DeadlineAfterReturn(s);
    case ReadNow => DeadlineSettled(s);
    case Rebase => DeadlineSettled(s);
    case _ =>
  }

  lemma HistoryMove(s: Loop)
    requires Metrics(s) && History(s) && Alive(s.pc) && Enabled(s, LoopStep)
    requires Under(s) ==> Previous(s) && Waited(s) && Deadline(s)
    ensures History(LoopMove(s))
  {
    if s.pc.LockForCallback? {
      SpacedAppend(s.nextFrame, s.frames, s.pc.frame, s.target);
      HistoryAppends(s.nextFrame, s.frames, s.pc.frame, s.began, s.target);
    }
  }

  lemma PacedBegin(s: Loop)
    requires Metrics(s) && Paced(s) && s.pc.ReadFirst?
    ensures Paced(LoopMove(s))
  {
  }

  lemma PacedMove(s: Loop)
    requires Metrics(s) && Paced(s) && Enabled(s, LoopStep)
    ensures Paced(LoopMove(s))
  {
    if s.pc.ReadFirst? {
      PacedBegin(s);
    } else {
      HistoryMove(s);
      TimingMove(s);
      DeadlineMove(s);
    }
  }

  lemma PacedFrame(s: Loop, s': Loop)
    requires Paced(s) && s'.pc == s.pc && s'.target == s.target && s'.clock >= s.clock
    requires s'.previous == s.previous && s'.nextFrame == s.nextFrame && s'.began == s.began && s'.frames == s.frames
    requires Under(s) && s.stopRequested ==> s'.stopRequested
    ensures Paced(s')
  {
  }

  /** Neither time nor the controller's steps disturb a loop under way. */
  lemma PacedOutside(s: Loop, a: Action)
    requires Handshake(s) && Paced(s) && Enabled(s, a) && !a.LoopStep?
    ensures Paced(Step(s, a))
  {
    if !a.CallJoin? && !(a.ControlStep? && (s.control.Clearing? || s.control.Spawning?)) {
      PacedFrame(s, Step(s, a));
    }
  }

  lemma PacedStep(s: Loop, a: Action)
    requires Handshake(s) && Metrics(s) && Paced(s) && Enabled(s, a)
    ensures Paced(Step(s, a))
  {
    if a.LoopStep? {
      PacedMove(s);
    } else {
      PacedOutside(s, a);
    }
  }

  ghost predicate Sound(s: Loop) {
    Handshake(s) && Metrics(s) && Paced(s)
  }

  /** Every interleaving of the two threads keeps all of it. */
  lemma {:induction false} EverySchedule(schedule: Schedule)
    requires Possible(schedule)
    ensures Sound(Reached(schedule))
  {
    if schedule.Then? {
      EverySchedule(schedule.past);
      HandshakeStep(Reached(schedule.past), schedule.action);
      MetricsStep(Reached(schedule.past), schedule.action);
      PacedStep(Reached(schedule.past), schedule.action);
    }
  }

  /** `t` is at least `n` periods after `from`, in plain arithmetic. */
  ghost predicate Apart(from: real, t: real, n: nat, period: real) {
    t >= from + n as real * period
  }

  lemma LaterIsApart(from: real, t: real, n: nat, period: real)
    requires t >= Later(from, n, period)
    ensures Apart(from, t, n, period)
  {
    LaterIs(from, n, period);
  }

  ghost predicate NoTickEarly(frames: seq<Frame>, began: real, target: real) {
    forall k :: 1 <= k < |frames| ==> Apart(began, frames[k].start, k + 1, target)
  }

  ghost predicate NoBurst(frames: seq<Frame>, target: real) {
    forall j, k :: 0 <= j < k < |frames| ==> Apart(frames[j].start, frames[k].start, k - j - 1, target)
  }

  lemma OnScheduleIs(frames: seq<Frame>, began: real, target: real)
    requires OnSchedule(frames, began, target)
    ensures NoTickEarly(frames, began, target)
  {
    forall k | 1 <= k < |frames| ensures Apart(began, frames[k].start, k + 1, target) {
      LaterIsApart(began, frames[k].start, k + 1, target);
    }
  }

  lemma SpacedIs(frames: seq<Frame>, target: real)
    requires Spaced(frames, target)
    ensures NoBurst(frames, target)
  {
    forall j, k | 0 <= j < k < |frames| ensures Apart(frames[j].start, frames[k].start, k - j - 1, target) {
      LaterIsApart(frames[j].start, frames[k].start, k - j - 1, target);
    }
  }

  /** All durations while there are at most `most`, and then the last `most` of them, the newest at the end. */
  ghost predicate KeepsLast(kept: seq<real>, all: seq<real>, most: nat) {
    && |kept| == (if |all| < most then |all| else most)
    && forall j :: 0 <= j < |kept| ==> kept[j] == all[|all| - |kept| + j]
  }

  /**
   * Ticks numbered from 0 on or behind schedule, no burst, one late callback at most, no other under a set flag, the
   * newest 240 durations kept.
   */
  ghost predicate Promise(s: Loop) {
    && (forall k :: 0 <= k < |s.frames| ==> s.frames[k].tick == k)
    && NoTickEarly(s.frames, s.began, s.target) && NoBurst(s.frames, s.target) && Chained(s.frames, s.began)
    && s.lateCalls <= 1 && (s.pc.InCallback? && s.stopRequested ==> s.lateCalls == 1)
    && KeepsLast(s.durations, Deltas(Recorded(s)), 240)
  }

  lemma SoundKeepsPromise(s: Loop)
    requires Sound(s)
    ensures Promise(s)
  {
    OnScheduleIs(s.frames, s.began, s.target);
    SpacedIs(s.frames, s.target);
  }

  lemma SchedulerGuarantee(schedule: Schedule)
    requires Possible(schedule)
    ensures Promise(Reached(schedule))
  {
    EverySchedule(schedule);
    SoundKeepsPromise(Reached(schedule));
  }
}
