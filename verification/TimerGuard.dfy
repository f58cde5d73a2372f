/** The recurring timer: a flag that lets one run proceed at a time, and the next timer it queues. */
module TimerGuard {
  import opened Primitives

  type TimerId = nat

  // `scheduled` are the timers the runtime will still fire; `cell` remembers the last one set.
  datatype Timer = Timer(running: bool, cell: Option<TimerId>, scheduled: set<TimerId>)

  // `setup_timer`, from an empty heap.
  function Setup(id: TimerId): Timer {
    Timer(false, Some(id), {id})
  }

  // A timer fires: its run starts, unless one is in progress.
  function Fire(t: Timer, id: TimerId): (r: (Timer, bool))
  {
    if id !in t.scheduled then (t, false)
    else if t.running then (t.(scheduled := t.scheduled - {id}), false)
    else (t.(scheduled := t.scheduled - {id}, running := true), true)
  }

  // `run_timer`: refused while a run is in progress, and otherwise cancels the queued timer.
  function Trigger(t: Timer): (r: (Timer, bool)) {
    if t.running then (t, false)
    else (Timer(true, None, if t.cell.Some? then t.scheduled - {t.cell.value} else t.scheduled), true)
  }

  // The end of a run queues the next timer and drops the guard.
  function Finish(t: Timer, next: TimerId): Timer {
    Timer(false, Some(next), t.scheduled + {next})
  }

  // Either a run is in progress and nothing is queued, or exactly the remembered timer is queued.
  ghost predicate Sound(t: Timer) {
    if t.running then t.scheduled == {} else t.cell.Some? && t.scheduled == {t.cell.value}
  }

  datatype TimerEvent = Fires(id: TimerId) | Triggered | Finishes(next: TimerId)

  // A run finishes only while one is in progress.
  function Step(t: Timer, e: TimerEvent): Timer {
    match e
    case Fires(id) => Fire(t, id).0
    case Triggered => Trigger(t).0
    case Finishes(next) => if t.running then Finish(t, next) else t
  }

  ghost function Run(t: Timer, events: seq<TimerEvent>): Timer {
    if events == [] then t else Step(Run(t, events[..|events| - 1]), events[|events| - 1])
  }

  // Over every run the timer neither stops nor doubles: there is always a run in progress or
  // exactly one timer queued, never both.
  lemma {:induction false} TimerStaysAlive(id: TimerId, events: seq<TimerEvent>)
    ensures Sound(Run(Setup(id), events))
  {
    if events != [] {
      TimerStaysAlive(id, events[..|events| - 1]);
    }
  }

  // The branch that skips a run because one is in progress is never taken by a firing timer.
  lemma FiringTimerAlwaysRuns(id: TimerId, events: seq<TimerEvent>, fired: TimerId)
    requires fired in Run(Setup(id), events).scheduled
    ensures Fire(Run(Setup(id), events), fired).1
  {
    TimerStaysAlive(id, events);
  }

  // A run is in progress from the timer that fires, or the trigger that finds none, until it ends; what
  // is queued then is the timer that the end queued.
  lemma RunningIff(t: Timer, e: TimerEvent)
    requires Sound(t)
    ensures Step(t, e).running <==> e.Triggered? || (e.Fires? && e.id in t.scheduled) || (t.running && !e.Finishes?)
    ensures e.Triggered? ==> (Trigger(t).1 <==> !t.running)
    ensures t.running && e.Finishes? ==> Step(t, e).scheduled == {e.next}
    ensures e.Fires? && e.id !in t.scheduled ==> Step(t, e) == t
  {
  }

  class TimerModule {
    var isTimerRunning: bool
    var timers: Option<TimerId>
    var scheduled: set<TimerId>

    ghost function Current(): Timer
      reads this
    {
      Timer(isTimerRunning, timers, scheduled)
    }

    constructor SetupTimer(id: TimerId)
      ensures Current() == Setup(id) && Sound(Current())
    {
      isTimerRunning, timers, scheduled := false, Some(id), {id};
    }

    // `TimerRunGuard::new`.
    method AcquireGuard() returns (acquired: bool)
      modifies this`isTimerRunning
      ensures acquired <==> !old(isTimerRunning)
      ensures isTimerRunning
    {
      acquired := !isTimerRunning;
      isTimerRunning := true;
    }

    method RunTimer() returns (started: bool)
      modifies this
      ensures (Current(), started) == Trigger(old(Current()))
      ensures old(Sound(Current())) ==> Sound(Current())
    {
      started := AcquireGuard();
      if started {
        if timers.Some? {
          scheduled := scheduled - {timers.value};
        }
        timers := None;
      }
    }

    method TimerFires(id: TimerId) returns (started: bool)
      requires id in scheduled
      modifies this
      ensures (Current(), started) == Fire(old(Current()), id)
      ensures old(Sound(Current())) ==> Sound(Current()) && started
    {
      scheduled := scheduled - {id};
      started := AcquireGuard();
    }

    // The end of `run_timer_and_queue_next`, followed by the drop of the guard.
    method QueueNext() returns (next: TimerId)
      requires isTimerRunning
      modifies this
      ensures next !in old(scheduled) && Current() == Finish(old(Current()), next)
      ensures old(Sound(Current())) ==> Sound(Current())
    {
      next := FreshId(scheduled);
      scheduled := scheduled + {next};
      timers := Some(next);
      isTimerRunning := false;
    }
  }
}
