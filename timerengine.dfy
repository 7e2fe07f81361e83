/**
 * The stopwatch engine behind each clock face (`useTimer`).
 *
 * The engine keeps an accumulated `time` in milliseconds and the wall-clock
 * instant `lastUpdate` at which that accumulator was last brought up to date.
 * Each callback of the one-second interval adds the wall-clock time elapsed
 * since `lastUpdate`, so the accounting is by elapsed time, not by the
 * number of callbacks.
 *
 * Every handler is modelled together with the effect that runs after it, as
 * one atomic step from one settled state to the next. A `Snapshot` is the
 * value of the engine's state; the functions `AfterStart`, `AfterStop`,
 * `AfterUpdate`, `AfterReset` and `AfterTick` give the settled state after
 * each step, and the class `Timer` performs the same steps field by field.
 * The wall clock is the parameter `now`; the interval timer is the flag
 * `intervalActive` together with the ghost instant `nextDue` before which
 * the scheduler does not call back.
 */
module TimerEngine {
  import opened Options
  import opened TimeFormat

  /** The period of the interval, in milliseconds. */
  const INTERVAL := 1000

  datatype RunState = Stopped | Running

  datatype Snapshot = Snapshot(
    time: int,
    lastUpdate: Option<int>,
    state: RunState,
    intervalActive: bool,
    nextDue: Option<int>)

  /** The state a freshly mounted engine starts in. */
  const Initial := Snapshot(0, None, Stopped, false, None)

  /** JavaScript's `!lastUpdate`: both `null` and the instant 0 are falsy. */
  predicate Unset(stamp: Option<int>)
  {
    stamp == None || stamp == Some(0)
  }

  /** The number `null` stands for in `now - lastUpdate`. */
  function StampValue(stamp: Option<int>): int
  {
    if stamp.Some? then stamp.value else 0
  }

  /**
   * The states the engine rests in between events: an interval exists exactly
   * while the engine runs, `lastUpdate` is set exactly while it runs, and the
   * next callback is due one interval after the last accounting.
   */
  predicate Settled(s: Snapshot)
  {
    && (s.intervalActive <==> s.state == Running)
    && (s.lastUpdate.Some? <==> s.state == Running)
    && (s.nextDue.Some? <==> s.intervalActive)
    && (s.state == Running ==> s.nextDue.value == s.lastUpdate.value + INTERVAL)
  }

  /** `startInterval`: stamp an unset `lastUpdate` and schedule the interval. */
  function WithInterval(s: Snapshot, now: int): (r: Snapshot)
    ensures r.intervalActive && r.nextDue == Some(now + INTERVAL) && r.lastUpdate.Some?
    ensures Unset(s.lastUpdate) ==> r.lastUpdate == Some(now)
    ensures !Unset(s.lastUpdate) ==> r.lastUpdate == s.lastUpdate
    ensures r.time == s.time && r.state == s.state
  {
    s.(lastUpdate := if Unset(s.lastUpdate) then Some(now) else s.lastUpdate,
       intervalActive := true,
       nextDue := Some(now + INTERVAL))
  }

  /** `clearInterval`. */
  function WithoutInterval(s: Snapshot): (r: Snapshot)
    ensures !r.intervalActive && r.nextDue == None
    ensures r.time == s.time && r.state == s.state && r.lastUpdate == s.lastUpdate
  {
    s.(intervalActive := false, nextDue := None)
  }

  /** The first half of the effect: a running engine without an interval gets one. */
  function RunningEffect(s: Snapshot, now: int): (r: Snapshot)
    ensures r.time == s.time && r.state == s.state
    ensures r.state == Running ==> r.intervalActive
    ensures s.intervalActive || s.state == Stopped ==> r == s
  {
    if s.state == Running && !s.intervalActive then WithInterval(s, now) else s
  }

  /** The second half of the effect: a stopped engine loses its interval. */
  function StoppedEffect(s: Snapshot): (r: Snapshot)
    ensures r.time == s.time && r.state == s.state && r.lastUpdate == s.lastUpdate
    ensures r.state == Stopped ==> !r.intervalActive
    ensures !s.intervalActive || s.state == Running ==> r == s
  {
    if s.state == Stopped && s.intervalActive then WithoutInterval(s) else s
  }

  /**
   * The effect that runs after a render: afterwards an interval exists exactly
   * while the engine runs, and in a settled state it changes nothing.
   */
  function Effect(s: Snapshot, now: int): (r: Snapshot)
    ensures r.time == s.time && r.state == s.state
    ensures r.intervalActive <==> r.state == Running
    ensures Settled(s) ==> r == s
  {
    StoppedEffect(RunningEffect(s, now))
  }

  /** The `start` handler followed by the effect. */
  function AfterStart(s: Snapshot, now: int): (r: Snapshot)
    ensures r.state == Running && r.intervalActive && r.time == s.time
    ensures r.lastUpdate == if !s.intervalActive && Unset(s.lastUpdate) then Some(now) else s.lastUpdate
    ensures s.intervalActive ==> r.nextDue == s.nextDue
    ensures Settled(s) && s.state == Stopped ==> r.lastUpdate == Some(now) && r.nextDue == Some(now + INTERVAL)
    ensures Settled(s) && s.state == Running ==> r == s
    ensures Settled(s) ==> Settled(r)
  {
    Effect(s.(state := Running), now)
  }

  /** The `stop` handler followed by the effect. */
  function AfterStop(s: Snapshot): (r: Snapshot)
    ensures r.state == Stopped && r.lastUpdate == None && !r.intervalActive && r.time == s.time
    ensures Settled(s) ==> Settled(r) && r.nextDue == None
  {
    StoppedEffect(s.(lastUpdate := None, state := Stopped))
  }

  /** The `update` handler, given the already converted `ms`, followed by the effect. */
  function AfterUpdate(s: Snapshot, ms: int): (r: Snapshot)
    ensures r.state == Stopped && r.lastUpdate == None && !r.intervalActive && r.time == ms
    ensures Settled(s) ==> Settled(r) && r.nextDue == None
  {
    StoppedEffect(s.(time := ms, lastUpdate := None, state := Stopped))
  }

  /**
   * The `reset` handler. The run state does not change, so no effect follows;
   * a running engine with an interval gets a fresh interval and is stamped
   * with the reset instant.
   */
  function AfterReset(s: Snapshot, now: int): (r: Snapshot)
    ensures r.time == 0 && r.state == s.state && r.intervalActive == s.intervalActive
    ensures s.state == Running && s.intervalActive ==> r.lastUpdate == Some(now) && r.nextDue == Some(now + INTERVAL)
    ensures !(s.state == Running && s.intervalActive) ==> r.lastUpdate == None && r.nextDue == s.nextDue
    ensures Settled(s) ==> Settled(r)
  {
    var cleared := s.(time := 0, lastUpdate := None);
    if s.state == Running && s.intervalActive then WithInterval(WithoutInterval(cleared), now) else cleared
  }

  /** One interval callback at wall-clock instant `now`. */
  function AfterTick(s: Snapshot, now: int): (r: Snapshot)
    ensures r.lastUpdate == Some(now) && r.nextDue == Some(now + INTERVAL)
    ensures r.state == s.state && r.intervalActive == s.intervalActive
    ensures Due(s, now) ==> Settled(r) && r.time - s.time == now - s.lastUpdate.value >= INTERVAL
  {
    s.(time := s.time + (now - StampValue(s.lastUpdate)), lastUpdate := Some(now), nextDue := Some(now + INTERVAL))
  }

  /** The scheduler may call back now: the engine runs and the interval is due. */
  predicate Due(s: Snapshot, now: int)
  {
    Settled(s) && s.state == Running && now >= s.nextDue.value
  }

  /** The callbacks at `instants`, in order. */
  function Ticks(s: Snapshot, instants: seq<int>): Snapshot
    decreases |instants|
  {
    if instants == [] then s else Ticks(AfterTick(s, instants[0]), instants[1..])
  }

  /** `instants` is a run of callbacks the scheduler can make, the first one due at `due`. */
  predicate Schedule(due: int, instants: seq<int>)
    decreases |instants|
  {
    instants == [] || (instants[0] >= due && Schedule(instants[0] + INTERVAL, instants[1..]))
  }

  /**
   * Whatever the number of callbacks, they account exactly the wall-clock
   * time that elapsed from the last accounting to the last callback, and the
   * accumulator never decreases.
   */
  lemma {:induction false} TicksAccountElapsed(s: Snapshot, instants: seq<int>)
    requires Settled(s) && s.state == Running && instants != []
    requires Schedule(s.nextDue.value, instants)
    ensures var r := Ticks(s, instants);
      && Settled(r) && r.state == Running
      && r.lastUpdate == Some(instants[|instants| - 1])
      && r.time == s.time + (instants[|instants| - 1] - s.lastUpdate.value)
      && r.time >= s.time + |instants| * INTERVAL
    decreases |instants|
  {
    var t := AfterTick(s, instants[0]);
    assert Due(s, instants[0]);
    if |instants| > 1 {
      TicksAccountElapsed(t, instants[1..]);
    }
  }

  /** Two runs of callbacks that end at the same instant account the same time. */
  lemma TickCountIrrelevant(s: Snapshot, a: seq<int>, b: seq<int>)
    requires Settled(s) && s.state == Running && a != [] && b != []
    requires Schedule(s.nextDue.value, a) && Schedule(s.nextDue.value, b)
    requires a[|a| - 1] == b[|b| - 1]
    ensures Ticks(s, a) == Ticks(s, b)
  {
    TicksAccountElapsed(s, a);
    TicksAccountElapsed(s, b);
  }

  /** Stopping twice is stopping once. */
  lemma StopIdempotent(s: Snapshot)
    ensures AfterStop(AfterStop(s)) == AfterStop(s)
  {
  }

  /** Starting a running engine again changes nothing: no second interval is created. */
  lemma StartIdempotent(s: Snapshot, first: int, second: int)
    ensures AfterStart(AfterStart(s, first), second) == AfterStart(s, first)
  {
  }

  /** An update is a stop that also replaces the accumulated time. */
  lemma UpdateIsStop(s: Snapshot, ms: int)
    ensures AfterUpdate(s, ms) == AfterStop(s).(time := ms)
  {
  }

  /**
   * After a reset at `now`, the first callback comes a full interval later,
   * and it accounts the time elapsed since the reset.
   */
  lemma ResetRestartsPhase(s: Snapshot, now: int, tick: int)
    requires Settled(s) && s.state == Running
    requires Due(AfterReset(s, now), tick)
    ensures tick >= now + INTERVAL
    ensures AfterTick(AfterReset(s, now), tick).time == tick - now
  {
  }

  /** The engine as the hook holds it. */
  class Timer {
    var time: int
    var lastUpdate: Option<int>
    var state: RunState
    var intervalActive: bool
    ghost var nextDue: Option<int>

    ghost function Model(): Snapshot
      reads this
    {
      Snapshot(time, lastUpdate, state, intervalActive, nextDue)
    }

    ghost predicate Valid()
      reads this
    {
      Settled(Model())
    }

    constructor ()
      ensures Valid() && Model() == Initial
    {
      time := 0;
      lastUpdate := None;
      state := Stopped;
      intervalActive := false;
      nextDue := None;
    }

    method Start(now: int)
      requires Valid()
      modifies this
      ensures Valid() && Model() == AfterStart(old(Model()), now)
    {
      state := Running;
      RunEffect(now);
    }

    method Stop()
      requires Valid()
      modifies this
      ensures Valid() && Model() == AfterStop(old(Model()))
    {
      lastUpdate := None;
      state := Stopped;
      EnsureIntervalCleared();
    }

    method Update(value: string)
      requires Valid() && ConvertValueToMilliseconds(value).Some?
      modifies this
      ensures Valid() && Model() == AfterUpdate(old(Model()), ConvertValueToMilliseconds(value).value)
    {
      var ms := ConvertValueToMilliseconds(value).value;
      time := ms;
      lastUpdate := None;
      state := Stopped;
      EnsureIntervalCleared();
    }

    method Reset(now: int)
      requires Valid()
      modifies this
      ensures Valid() && Model() == AfterReset(old(Model()), now)
    {
      time := 0;
      lastUpdate := None;
      if state == Running && intervalActive {
        ClearInterval();
        StartInterval(now);
      }
    }

    /** The interval callback; the scheduler calls it only once the interval is due. */
    method Tick(now: int)
      requires Valid() && Due(Model(), now)
      modifies this
      ensures Valid() && Model() == AfterTick(old(Model()), now)
    {
      var delta := now - StampValue(lastUpdate);
      time := time + delta;
      lastUpdate := Some(now);
      nextDue := Some(now + INTERVAL);
    }

    method RunEffect(now: int)
      modifies this
      ensures Model() == Effect(old(Model()), now)
    {
      EnsureIntervalRunning(now);
      EnsureIntervalCleared();
    }

    method EnsureIntervalRunning(now: int)
      modifies this
      ensures Model() == RunningEffect(old(Model()), now)
    {
      if state == Running && !intervalActive {
        StartInterval(now);
      }
    }

    method EnsureIntervalCleared()
      modifies this
      ensures Model() == StoppedEffect(old(Model()))
    {
      if state == Stopped && intervalActive {
        ClearInterval();
      }
    }

    method StartInterval(now: int)
      modifies this
      ensures Model() == WithInterval(old(Model()), now)
    {
      if Unset(lastUpdate) {
        lastUpdate := Some(now);
      }
      intervalActive := true;
      nextDue := Some(now + INTERVAL);
    }

    method ClearInterval()
      modifies this
      ensures Model() == WithoutInterval(old(Model()))
    {
      intervalActive := false;
      nextDue := None;
    }
  }
}
