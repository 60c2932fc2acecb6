/**
 * `createWorker` (src/utils/worker.ts): a periodic runner whose closure
 * variables `isRunning` and `timer` guard against overlapping runs.
 *
 * The runtime is modelled by events: `start()` and `stop()` called by the
 * owner, a pending timer firing, `task` settling (normally or by throwing),
 * and a timer callback resuming after its `await run()` resolved. The pure
 * state machine `Step` says what each event does; `PeriodicWorker` is the
 * imperative object whose methods follow the source line by line and are
 * proved to agree with `Step`.
 */
module Worker {
  import opened Wrappers
  import Jitter

  /** `intervalMinutes * 60 * 1000`. */
  function BaseMs(intervalMinutes: int): int {
    intervalMinutes * 60 * 1000
  }

  /**
   * `Math.min(60000, Math.floor(baseMs * 0.1))`. `BaseMs` yields multiples of
   * 60000, for which `baseMs * 0.1` is exactly `baseMs / 10`.
   */
  function Cap(baseMs: int): int {
    var tenth := baseMs / 10;
    if tenth < 60000 then tenth else 60000
  }

  /** The constants `createWorker` fixes. */
  datatype WorkerConfig = WorkerConfig(baseMs: int, cap: int, runImmediately: bool)

  function Configure(intervalMinutes: int, runImmediately: bool): WorkerConfig {
    var baseMs := BaseMs(intervalMinutes);
    WorkerConfig(baseMs, Cap(baseMs), runImmediately)
  }

  /** The jitter cap is a tenth of the interval, and never more than a minute. */
  lemma CapOfInterval(intervalMinutes: int)
    requires intervalMinutes >= 0
    ensures Cap(BaseMs(intervalMinutes)) == if intervalMinutes >= 10 then 60000 else 6000 * intervalMinutes
  {
  }

  predicate DelayInRange(cfg: WorkerConfig, d: int) {
    && (cfg.cap > 0 ==> cfg.baseMs <= d <= cfg.baseMs + cfg.cap - 1)
    && (cfg.cap == 0 ==> d == cfg.baseMs)
  }

  /** `nextDelayMs()`: `baseMs + applyJitter(cap, "full")` with the draw `r`. */
  function NextDelay(cfg: WorkerConfig, r: real): (d: int)
    requires Jitter.IsDraw(r)
    ensures DelayInRange(cfg, d)
  {
    cfg.baseMs + Jitter.ApplyJitter(cfg.cap, Jitter.Full, r)
  }

  /** Who awaits `task` execution in progress. */
  datatype Launcher = ByStart | ByTimer(id: nat)

  /**
   * `isRunning` and `timer` are the closure variables. The rest is the
   * runtime: `armed` the pending timers with their delays, `nextTimer` the
   * next handle, `launcher` the caller awaiting `task` in progress,
   * `resuming` the timer callbacks whose `await run()` has resolved and that
   * will call `schedule()` next, and `inFlight` an instrumented count of task
   * executions in progress.
   */
  datatype WorkerState = WorkerState(
    isRunning: bool,
    timer: Option<nat>,
    armed: map<nat, int>,
    nextTimer: nat,
    launcher: Option<Launcher>,
    resuming: set<nat>,
    inFlight: int)

  function Initial(): WorkerState {
    WorkerState(false, None, map[], 0, None, {}, 0)
  }

  datatype Event =
    | Start(r: real)
    | TimerFires(id: nat)
    | TaskFinishes
    | TaskThrows
    | CallbackResumes(id: nat, r: real)
    | Stop

  /** Whether the event can happen in the state (an event that cannot happen changes nothing). */
  predicate Enabled(s: WorkerState, e: Event) {
    match e
    case Start(r) => Jitter.IsDraw(r)
    case TimerFires(id) => id in s.armed
    case TaskFinishes => s.isRunning
    case TaskThrows => s.isRunning
    case CallbackResumes(id, r) => id in s.resuming && Jitter.IsDraw(r)
    case Stop => true
  }

  /** `run()` up to its first await: nothing while a run is in progress, else `task` starts. */
  function Launch(s: WorkerState, who: Launcher): WorkerState {
    if s.isRunning then s
    else s.(isRunning := true, launcher := Some(who), inFlight := s.inFlight + 1)
  }

  /** `schedule()`: a new timer, stored in `timer`. */
  function Arm(cfg: WorkerConfig, s: WorkerState, r: real): WorkerState
    requires Jitter.IsDraw(r)
  {
    var id := s.nextTimer;
    s.(timer := Some(id), armed := s.armed[id := NextDelay(cfg, r)], nextTimer := id + 1)
  }

  /**
   * `task` settles and the `finally` clause resets `isRunning`. A timer
   * callback awaiting the run resumes only if `task` did not throw: a
   * rejection ends that callback before its `schedule()`.
   */
  function Settle(s: WorkerState, normally: bool): WorkerState {
    var resumed :=
      if normally && s.launcher.Some? && s.launcher.value.ByTimer?
      then s.resuming + {s.launcher.value.id}
      else s.resuming;
    s.(isRunning := false, launcher := None, inFlight := s.inFlight - 1, resuming := resumed)
  }

  /** `stop()`: clears and forgets the timer held in `timer`, if any. */
  function Disarm(s: WorkerState): WorkerState {
    if s.timer.Some? then s.(armed := s.armed - {s.timer.value}, timer := None) else s
  }

  function Step(cfg: WorkerConfig, s: WorkerState, e: Event): WorkerState {
    if !Enabled(s, e) then s
    else
      match e
      case Start(r) => Arm(cfg, if cfg.runImmediately then Launch(s, ByStart) else s, r)
      case TimerFires(id) =>
        var t := s.(armed := s.armed - {id});
        if t.isRunning then t.(resuming := t.resuming + {id}) else Launch(t, ByTimer(id))
      case TaskFinishes => Settle(s, true)
      case TaskThrows => Settle(s, false)
      case CallbackResumes(id, r) => Arm(cfg, s.(resuming := s.resuming - {id}), r)
      case Stop => Disarm(s)
  }

  function Steps(cfg: WorkerConfig, s: WorkerState, events: seq<Event>): WorkerState
    decreases |events|
  {
    if events == [] then s else Steps(cfg, Step(cfg, s, events[0]), events[1..])
  }

  /** The invariant every reachable state keeps. */
  predicate Inv(cfg: WorkerConfig, s: WorkerState) {
    && s.inFlight == (if s.isRunning then 1 else 0)
    && (s.launcher.Some? <==> s.isRunning)
    && (forall id :: id in s.armed ==> id < s.nextTimer && DelayInRange(cfg, s.armed[id]))
    && (s.timer.Some? ==> s.timer.value < s.nextTimer)
  }

  lemma InitialInv(cfg: WorkerConfig)
    ensures Inv(cfg, Initial())
  {
  }

  lemma StepKeepsInv(cfg: WorkerConfig, s: WorkerState, e: Event)
    requires Inv(cfg, s)
    ensures Inv(cfg, Step(cfg, s, e))
  {
  }

  lemma {:induction false} StepsKeepInv(cfg: WorkerConfig, s: WorkerState, events: seq<Event>)
    requires Inv(cfg, s)
    ensures Inv(cfg, Steps(cfg, s, events))
    decreases |events|
  {
    if events != [] {
      StepKeepsInv(cfg, s, events[0]);
      StepsKeepInv(cfg, Step(cfg, s, events[0]), events[1..]);
    }
  }

  /**
   * Single flight: whatever happens after `createWorker`, at most one
   * execution of `task` is in progress, and one is exactly when
   * `isRunning` is set.
   */
  lemma SingleFlight(cfg: WorkerConfig, events: seq<Event>)
    ensures 0 <= Steps(cfg, Initial(), events).inFlight <= 1
    ensures Steps(cfg, Initial(), events).isRunning <==> Steps(cfg, Initial(), events).inFlight == 1
  {
    InitialInv(cfg);
    StepsKeepInv(cfg, Initial(), events);
  }

  /** Every timer the worker has pending waits between `baseMs` and `baseMs + cap - 1`. */
  lemma ScheduledDelaysInRange(cfg: WorkerConfig, events: seq<Event>, id: nat)
    requires id in Steps(cfg, Initial(), events).armed
    ensures DelayInRange(cfg, Steps(cfg, Initial(), events).armed[id])
  {
    InitialInv(cfg);
    StepsKeepInv(cfg, Initial(), events);
  }

  /** A timer that fires during a run does not start a second execution. */
  lemma BusyTimerSkipsRun(cfg: WorkerConfig, s: WorkerState, id: nat)
    requires s.isRunning && id in s.armed
    ensures var t := Step(cfg, s, TimerFires(id));
      t.isRunning && t.inFlight == s.inFlight && t.launcher == s.launcher && id in t.resuming
  {
  }

  /**
   * `start()` runs `task` at once only with `runImmediately` (and only if no
   * run is in progress), and always arms a timer.
   */
  lemma StartBehaviour(cfg: WorkerConfig, s: WorkerState, r: real)
    requires Jitter.IsDraw(r)
    ensures var t := Step(cfg, s, Start(r));
      && t.timer == Some(s.nextTimer) && s.nextTimer in t.armed
      && (cfg.runImmediately && !s.isRunning ==> t.isRunning && t.launcher == Some(ByStart))
      && (!cfg.runImmediately ==> t.isRunning == s.isRunning && t.inFlight == s.inFlight)
  {
  }

  /** A timer firing on an idle worker runs `task`, whose normal completion re-arms the timer. */
  lemma TimerCycle(cfg: WorkerConfig, s: WorkerState, id: nat, r: real)
    requires !s.isRunning && id in s.armed && Jitter.IsDraw(r)
    ensures var s1 := Step(cfg, s, TimerFires(id));
      var s2 := Step(cfg, s1, TaskFinishes);
      var s3 := Step(cfg, s2, CallbackResumes(id, r));
      && s1.isRunning && s1.launcher == Some(ByTimer(id)) && id !in s1.armed
      && !s2.isRunning && id in s2.resuming
      && s3.timer == Some(s2.nextTimer) && s2.nextTimer in s3.armed && id !in s3.resuming
  {
  }

  /** `stop()` clears the pending timer; a second `stop()` changes nothing. */
  lemma StopIsIdempotent(cfg: WorkerConfig, s: WorkerState)
    ensures var t := Step(cfg, s, Stop);
      && t.timer == None
      && (s.timer.Some? ==> s.timer.value !in t.armed)
      && Step(cfg, t, Stop) == t
  {
  }

  /** `stop()` leaves a run in progress alone. */
  lemma StopDoesNotInterrupt(cfg: WorkerConfig, s: WorkerState)
    ensures var t := Step(cfg, s, Stop);
      t.isRunning == s.isRunning && t.inFlight == s.inFlight && t.launcher == s.launcher
      && t.resuming == s.resuming
  {
  }

  /**
   * `stop()` is not final: stopped while a timer callback awaits its run, the
   * worker re-arms a timer once that run completes.
   */
  lemma StopDuringCallbackRearms(intervalMinutes: int)
    ensures var cfg := Configure(intervalMinutes, false);
      var t := Steps(cfg, Initial(),
        [Start(0.0), TimerFires(0), Stop, TaskFinishes, CallbackResumes(0, 0.0)]);
      t.timer == Some(1) && 1 in t.armed
  {
    var cfg := Configure(intervalMinutes, false);
    var s1 := Step(cfg, Initial(), Start(0.0));
    var s2 := Step(cfg, s1, TimerFires(0));
    var s3 := Step(cfg, s2, Stop);
    var s4 := Step(cfg, s3, TaskFinishes);
    var s5 := Step(cfg, s4, CallbackResumes(0, 0.0));
    assert s2.launcher == Some(ByTimer(0));
    assert 0 in s4.resuming;
    assert Steps(cfg, s5, []) == s5;
  }

  /** Nothing is running, no timer is pending and no callback is about to re-arm. */
  predicate Quiescent(s: WorkerState) {
    !s.isRunning && s.armed == map[] && s.resuming == {}
  }

  predicate NoStart(events: seq<Event>) {
    forall i :: 0 <= i < |events| ==> !events[i].Start?
  }

  /** Without a new `start()`, a quiescent worker never runs its task again. */
  lemma {:induction false} QuiescentStaysQuiescent(cfg: WorkerConfig, s: WorkerState, events: seq<Event>)
    requires Quiescent(s) && NoStart(events)
    ensures Quiescent(Steps(cfg, s, events))
    decreases |events|
  {
    if events != [] {
      var t := Step(cfg, s, events[0]);
      assert Quiescent(t);
      assert NoStart(events[1..]);
      QuiescentStaysQuiescent(cfg, t, events[1..]);
    }
  }

  /**
   * A task that throws ends the timer chain: when the only activity is a run
   * launched by a timer callback, after `task` throws the worker never runs
   * `task` again unless `start()` is called.
   */
  lemma ThrowEndsChain(cfg: WorkerConfig, s: WorkerState, id: nat, events: seq<Event>)
    requires s.isRunning && s.launcher == Some(ByTimer(id))
    requires s.armed == map[] && s.resuming == {}
    requires NoStart(events)
    ensures Quiescent(Steps(cfg, Step(cfg, s, TaskThrows), events))
  {
    QuiescentStaysQuiescent(cfg, Step(cfg, s, TaskThrows), events);
  }

  /** The worker object returned by `createWorker(task, intervalMinutes, runImmediately)`. */
  class PeriodicWorker {
    const config: WorkerConfig
    var isRunning: bool
    var timer: Option<nat>
    var armed: map<nat, int>
    var nextTimer: nat
    var launcher: Option<Launcher>
    var resuming: set<nat>
    ghost var inFlight: int

    ghost function State(): WorkerState
      reads this
    {
      WorkerState(isRunning, timer, armed, nextTimer, launcher, resuming, inFlight)
    }

    ghost predicate Valid()
      reads this
    {
      Inv(config, State())
    }

    constructor (intervalMinutes: int, runImmediately: bool)
      ensures config == Configure(intervalMinutes, runImmediately)
      ensures State() == Initial() && Valid()
    {
      config := Configure(intervalMinutes, runImmediately);
      isRunning, timer, armed, nextTimer := false, None, map[], 0;
      launcher, resuming, inFlight := None, {}, 0;
    }

    /** `run()` up to its first await. */
    method Run(who: Launcher)
      modifies this
      ensures State() == Launch(old(State()), who)
      ensures isRunning
      ensures old(isRunning) ==> inFlight == old(inFlight) && launcher == old(launcher)
      ensures !old(isRunning) ==> inFlight == old(inFlight) + 1 && launcher == Some(who)
    {
      if isRunning {
        return;
      }
      isRunning := true;
      launcher := Some(who);
      inFlight := inFlight + 1;
    }

    /** `schedule()`: arms a new timer with a jittered delay and remembers it in `timer`. */
    method Schedule(r: real)
      requires Jitter.IsDraw(r)
      modifies this
      ensures State() == Arm(config, old(State()), r)
      ensures timer.Some? && timer.value in armed && DelayInRange(config, armed[timer.value])
      ensures forall id :: id in old(armed) && id != timer.value ==> id in armed && armed[id] == old(armed)[id]
    {
      var id := nextTimer;
      nextTimer := nextTimer + 1;
      armed := armed[id := NextDelay(config, r)];
      timer := Some(id);
    }

    method Start(r: real)
      requires Valid() && Jitter.IsDraw(r)
      modifies this
      ensures Valid()
      ensures State() == Step(config, old(State()), Event.Start(r))
    {
      if config.runImmediately {
        Run(ByStart);
      }
      Schedule(r);
      StepKeepsInv(config, old(State()), Event.Start(r));
    }

    /** The callback of timer `id` runs: `await run()`. */
    method TimerFires(id: nat)
      requires Valid() && id in armed
      modifies this
      ensures Valid()
      ensures State() == Step(config, old(State()), Event.TimerFires(id))
    {
      armed := armed - {id};
      if isRunning {
        resuming := resuming + {id};
      } else {
        Run(ByTimer(id));
      }
      StepKeepsInv(config, old(State()), Event.TimerFires(id));
    }

    /** `task` resolves; `finally` resets `isRunning`. */
    method TaskFinishes()
      requires Valid() && isRunning
      modifies this
      ensures Valid()
      ensures State() == Step(config, old(State()), Event.TaskFinishes)
    {
      if launcher.Some? && launcher.value.ByTimer? {
        resuming := resuming + {launcher.value.id};
      }
      isRunning := false;
      launcher := None;
      inFlight := inFlight - 1;
      StepKeepsInv(config, old(State()), Event.TaskFinishes);
    }

    /** `task` rejects; `finally` resets `isRunning` and the awaiting callback ends. */
    method TaskThrows()
      requires Valid() && isRunning
      modifies this
      ensures Valid()
      ensures State() == Step(config, old(State()), Event.TaskThrows)
    {
      isRunning := false;
      launcher := None;
      inFlight := inFlight - 1;
      StepKeepsInv(config, old(State()), Event.TaskThrows);
    }

    /** A callback whose `await run()` resolved goes on to `schedule()`. */
    method CallbackResumes(id: nat, r: real)
      requires Valid() && id in resuming && Jitter.IsDraw(r)
      modifies this
      ensures Valid()
      ensures State() == Step(config, old(State()), Event.CallbackResumes(id, r))
    {
      resuming := resuming - {id};
      Schedule(r);
      StepKeepsInv(config, old(State()), Event.CallbackResumes(id, r));
    }

    method Stop()
      requires Valid()
      modifies this
      ensures Valid()
      ensures State() == Step(config, old(State()), Event.Stop)
    {
      if timer.Some? {
        armed := armed - {timer.value};
        timer := None;
      }
      StepKeepsInv(config, old(State()), Event.Stop);
    }

    method IsRunning() returns (running: bool)
      requires Valid()
      ensures running == isRunning
      ensures running <==> inFlight == 1
    {
      running := isRunning;
    }
  }
}
