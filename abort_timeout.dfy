/**
 * `withAbortTimeout` (src/utils/abortTimeout.ts): every invocation makes a
 * fresh `AbortController`, arms a deadline timer that aborts it, runs the
 * wrapped operation with the controller's signal, and clears the timer on the
 * success path and on the failure path.
 *
 * The wrapped operation is `fn(signal, aborted, args)`: the outcome it
 * settles with, given the signal it was handed, whether that signal had fired
 * by then, and its arguments. `expires` says whether the deadline passes
 * before the operation settles.
 */
module AbortTimeout {
  import opened Wrappers

  /** `AbortController`; `aborted` is the state of its signal. */
  class AbortController {
    var aborted: bool

    constructor ()
      ensures !aborted
    {
      aborted := false;
    }

    method Abort()
      modifies this
      ensures aborted
    {
      aborted := true;
    }
  }

  /** What the runtime's timer table records, in order. */
  datatype TimerEvent = Armed(id: nat, ms: int) | Fired(id: nat) | Called(id: nat) | Cleared(id: nat)

  /** The runtime's timers: `setTimeout` arms one, `clearTimeout` disarms one. */
  class Timers {
    var pending: set<nat>
    var nextId: nat
    ghost var log: seq<TimerEvent>

    ghost predicate Valid()
      reads this
    {
      forall id :: id in pending ==> id < nextId
    }

    constructor ()
      ensures Valid() && pending == {} && log == []
    {
      pending, nextId, log := {}, 0, [];
    }

    /** `setTimeout(callback, ms)`: a new handle, armed. */
    method SetTimeout(ms: int) returns (id: nat)
      requires Valid()
      modifies this
      ensures Valid()
      ensures id !in old(pending) && pending == old(pending) + {id}
      ensures log == old(log) + [Armed(id, ms)]
    {
      id := nextId;
      pending := pending + {id};
      nextId := nextId + 1;
      log := log + [Armed(id, ms)];
    }

    /** The delay of a pending timer elapses: it leaves the table as its callback runs. */
    method Fire(id: nat)
      requires Valid() && id in pending
      modifies this
      ensures Valid()
      ensures pending == old(pending) - {id}
      ensures log == old(log) + [Fired(id)]
    {
      pending := pending - {id};
      log := log + [Fired(id)];
    }

    /** Marks, in the log, the point where the operation guarded by timer `id` starts. */
    ghost method NoteCall(id: nat)
      modifies this`log
      ensures log == old(log) + [Called(id)]
    {
      log := log + [Called(id)];
    }

    /** `clearTimeout(id)`; a timer that already fired is left alone. */
    method ClearTimeout(id: nat)
      requires Valid()
      modifies this
      ensures Valid()
      ensures pending == old(pending) - {id}
      ensures log == old(log) + [Cleared(id)]
    {
      pending := pending - {id};
      log := log + [Cleared(id)];
    }
  }

  /** One invocation of the function returned by `withAbortTimeout(fn, ms)`. */
  method WithAbortTimeout<A, R, E>(
    timers: Timers, fn: (AbortController, bool, A) -> Result<R, E>, ms: int, args: A, expires: bool)
    returns (result: Result<R, E>, ghost signal: AbortController, ghost timer: nat)
    requires timers.Valid()
    modifies timers
    ensures timers.Valid()
    ensures fresh(signal) && signal.aborted == expires
    ensures result == fn(signal, expires, args)
    ensures timer !in old(timers.pending)
    ensures timers.pending == old(timers.pending)
    ensures timers.log == old(timers.log) + [Armed(timer, ms)]
      + [Called(timer)] + (if expires then [Fired(timer)] else []) + [Cleared(timer)]
  {
    var controller := new AbortController();
    signal := controller;
    var handle := timers.SetTimeout(ms);
    timer := handle;
    timers.NoteCall(handle);
    // The deadline can only pass while the operation is pending.
    if expires {
      timers.Fire(handle);
      controller.Abort();
    }
    var outcome := fn(controller, controller.aborted, args);
    match outcome {
      case Ok(value) =>
        timers.ClearTimeout(handle);
        result := Ok(value);
      case Err(error) =>
        timers.ClearTimeout(handle);
        result := Err(error);
    }
  }
}
