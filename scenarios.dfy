/**
 * Whole runs of the engine and of the controller, driven by a simulated
 * clock: each method performs the calls of one scenario and states what the
 * clocks read at its end.
 */
module Scenarios {
  import opened Options
  import opened TimeFormat
  import opened TimeFormatFacts
  import opened TimerEngine
  import opened ClockController

  /**
   * Start at `t0`, callbacks at one and two seconds, stop at two and a half
   * seconds: only the time up to the last callback is accounted.
   */
  method StartTwoTicksStop(t0: int) returns (elapsed: int, state: RunState)
    ensures elapsed == 2000 && state == Stopped
  {
    var timer := new Timer();
    timer.Start(t0);
    timer.Tick(t0 + 1000);
    timer.Tick(t0 + 2000);
    timer.Stop();
    elapsed, state := timer.time, timer.state;
  }

  /** Setting a running clock to five seconds stops it at five seconds. */
  method UpdateWhileRunning(t0: int, t1: int) returns (elapsed: int, state: RunState)
    requires t1 >= t0 + INTERVAL
    ensures elapsed == 5000 && state == Stopped
  {
    var timer := new Timer();
    timer.Start(t0);
    timer.Tick(t1);
    FiveSeconds();
    timer.Update("00:00:05");
    elapsed, state := timer.time, timer.state;
  }

  /**
   * A reset of a running clock at `t` restarts the interval: the clock is
   * stamped with `t`, and the first callback, a full interval later, accounts
   * from `t`.
   */
  method ResetWhileRunning(t0: int, t: int, tick: int) returns (stamp: Option<int>, elapsed: int)
    requires tick >= t + INTERVAL
    ensures stamp == Some(t) && elapsed == tick - t
  {
    var timer := new Timer();
    timer.Start(t0);
    timer.Reset(t);
    assert timer.nextDue == Some(t + INTERVAL);
    stamp := timer.lastUpdate;
    timer.Tick(tick);
    elapsed := timer.time;
  }

  /** `Left` runs the left clock alone, whichever clock ran before. */
  method LeftAfterRight(t0: int, t1: int) returns (left: RunState, right: RunState)
    ensures left == Running && right == Stopped
  {
    var clocks := new DualClock();
    clocks.Right(t0);
    clocks.Left(t1);
    left, right := clocks.left.state, clocks.right.state;
  }

  /** "Reset All" zeroes a running and a stopped clock and leaves them running and stopped. */
  method ResetAllKeepsStates(t0: int, t1: int, t2: int) returns (left: RunState, right: RunState, total: int)
    requires t1 >= t0 + INTERVAL
    ensures left == Running && right == Stopped && total == 0
  {
    var clocks := new DualClock();
    clocks.Left(t0);
    clocks.TickLeft(t1);
    clocks.ResetAll(t2);
    left, right := clocks.left.state, clocks.right.state;
    total := clocks.left.time + clocks.right.time;
  }
}
