/**
 * The two-clock controller: the buttons of `App` acting on two engines.
 *
 * `Left` starts the first clock and stops the second, `Right` stops the
 * first and starts the second, "Stop All" stops both and "Reset All" resets
 * both. Editing a clock face joins its three fields with `:` and hands the
 * text to that clock's `update`. React applies the calls of one click as a
 * batch, so only the state after all of them counts; the two calls of a
 * click act on different engines, so the order does not matter either.
 *
 * `Clocks` is the value of both engines together, `Press...` gives the state
 * after each button, and the class `DualClock` performs the same calls on
 * two `Timer` objects. The invariant is that at most one clock runs.
 */
module ClockController {
  import opened Options
  import opened JsText
  import opened TimeFormat
  import opened TimeFormatFacts
  import opened TimerEngine

  datatype Clocks = Clocks(left: Snapshot, right: Snapshot)

  /** Both engines are settled and they do not run at the same time. */
  predicate Exclusive(c: Clocks)
  {
    Settled(c.left) && Settled(c.right) && !(c.left.state == Running && c.right.state == Running)
  }

  /** The same two clocks seen from the other side. */
  function Swap(c: Clocks): Clocks
  {
    Clocks(c.right, c.left)
  }

  /** The `Left` button: whatever ran before, only the left clock runs afterwards. */
  function PressLeft(c: Clocks, now: int): (r: Clocks)
    ensures r.left.state == Running && r.right.state == Stopped
    ensures r.left.time == c.left.time && r.right.time == c.right.time
    ensures Settled(c.left) && Settled(c.right) ==> Exclusive(r)
  {
    Clocks(AfterStart(c.left, now), AfterStop(c.right))
  }

  /** The `Right` button: whatever ran before, only the right clock runs afterwards. */
  function PressRight(c: Clocks, now: int): (r: Clocks)
    ensures r.left.state == Stopped && r.right.state == Running
    ensures r.left.time == c.left.time && r.right.time == c.right.time
    ensures Settled(c.left) && Settled(c.right) ==> Exclusive(r)
  {
    Clocks(AfterStop(c.left), AfterStart(c.right, now))
  }

  /** The "Stop All" button. */
  function PressStopAll(c: Clocks): (r: Clocks)
    ensures r.left.state == Stopped && r.right.state == Stopped
    ensures r.left.time == c.left.time && r.right.time == c.right.time
    ensures Settled(c.left) && Settled(c.right) ==> Exclusive(r)
  {
    Clocks(AfterStop(c.left), AfterStop(c.right))
  }

  /** The "Reset All" button: both clocks read zero and keep their run states. */
  function PressResetAll(c: Clocks, now: int): (r: Clocks)
    ensures r.left.time == 0 && r.right.time == 0
    ensures r.left.state == c.left.state && r.right.state == c.right.state
    ensures Exclusive(c) ==> Exclusive(r)
  {
    Clocks(AfterReset(c.left, now), AfterReset(c.right, now))
  }

  /** Editing the left clock face to the value `ms`; the right clock is untouched. */
  function EditLeft(c: Clocks, ms: int): (r: Clocks)
    ensures r.left.time == ms && r.left.state == Stopped && r.right == c.right
    ensures Exclusive(c) ==> Exclusive(r)
  {
    Clocks(AfterUpdate(c.left, ms), c.right)
  }

  /** Editing the right clock face to the value `ms`; the left clock is untouched. */
  function EditRight(c: Clocks, ms: int): (r: Clocks)
    ensures r.right.time == ms && r.right.state == Stopped && r.left == c.left
    ensures Exclusive(c) ==> Exclusive(r)
  {
    Clocks(c.left, AfterUpdate(c.right, ms))
  }

  /** What can happen to the pair of clocks: a click, an edit or an interval callback. */
  datatype Event =
    | LeftButton(now: int)
    | RightButton(now: int)
    | StopAllButton
    | ResetAllButton(now: int)
    | LeftEdit(ms: int)
    | RightEdit(ms: int)
    | LeftTick(now: int)
    | RightTick(now: int)

  /** One event; an edit or a callback of one clock leaves the other clock alone. */
  function Apply(c: Clocks, e: Event): (r: Clocks)
    ensures e.LeftEdit? || e.LeftTick? ==> r.right == c.right
    ensures e.RightEdit? || e.RightTick? ==> r.left == c.left
  {
    match e
    case LeftButton(now) => PressLeft(c, now)
    case RightButton(now) => PressRight(c, now)
    case StopAllButton => PressStopAll(c)
    case ResetAllButton(now) => PressResetAll(c, now)
    case LeftEdit(ms) => EditLeft(c, ms)
    case RightEdit(ms) => EditRight(c, ms)
    case LeftTick(now) => Clocks(AfterTick(c.left, now), c.right)
    case RightTick(now) => Clocks(c.left, AfterTick(c.right, now))
  }

  /** An interval callback happens only once that clock's interval is due. */
  predicate Possible(c: Clocks, e: Event)
  {
    match e
    case LeftTick(now) => Due(c.left, now)
    case RightTick(now) => Due(c.right, now)
    case _ => true
  }

  /** The events in order. */
  function Run(c: Clocks, events: seq<Event>): Clocks
    decreases |events|
  {
    if events == [] then c else Run(Apply(c, events[0]), events[1..])
  }

  predicate PossibleRun(c: Clocks, events: seq<Event>)
    decreases |events|
  {
    events == [] || (Possible(c, events[0]) && PossibleRun(Apply(c, events[0]), events[1..]))
  }

  /** One possible event keeps at most one clock running. */
  lemma ApplyKeepsExclusive(c: Clocks, e: Event)
    requires Exclusive(c) && Possible(c, e)
    ensures Exclusive(Apply(c, e))
  {
  }

  /** Whatever happens, the two clocks never run at the same time. */
  lemma {:induction false} RunKeepsExclusive(c: Clocks, events: seq<Event>)
    requires Exclusive(c) && PossibleRun(c, events)
    ensures Exclusive(Run(c, events))
    decreases |events|
  {
    if events != [] {
      ApplyKeepsExclusive(c, events[0]);
      RunKeepsExclusive(Apply(c, events[0]), events[1..]);
    }
  }

  /** Running two sequences of events one after the other is running them joined. */
  lemma {:induction false} RunConcat(c: Clocks, first: seq<Event>, second: seq<Event>)
    ensures Run(c, first + second) == Run(Run(c, first), second)
    decreases |first|
  {
    if first != [] {
      assert (first + second)[1..] == first[1..] + second;
      RunConcat(Apply(c, first[0]), first[1..], second);
    } else {
      assert first + second == second;
    }
  }

  /** `Right` is `Left` seen in a mirror. */
  lemma RightMirrorsLeft(c: Clocks, now: int)
    ensures PressRight(c, now) == Swap(PressLeft(Swap(c), now))
  {
  }

  /**
   * Opening the editor splits the displayed text into its three fields;
   * saving them unchanged sets the clock to the displayed whole seconds.
   */
  lemma UnchangedEditTruncates(ms: int)
    ensures var fields := Split(Formatted(ms), ':');
      && |fields| == 3
      && ConvertValueToMilliseconds(Join3(fields[0], fields[1], fields[2]))
         == Some(if ms < 0 then 0 else ms - ms % SECOND)
  {
    FormattedShape(ms);
    ParseFormatted(ms);
  }

  /** The two engines of the page. */
  class DualClock {
    const left: Timer
    const right: Timer

    ghost function Model(): Clocks
      reads left, right
    {
      Clocks(left.Model(), right.Model())
    }

    ghost predicate Valid()
      reads this, left, right
    {
      left != right && Exclusive(Model())
    }

    constructor ()
      ensures Valid() && fresh(left) && fresh(right)
      ensures Model() == Clocks(Initial, Initial)
    {
      left := new Timer();
      right := new Timer();
    }

    method Left(now: int)
      requires Valid()
      modifies left, right
      ensures Valid() && Model() == PressLeft(old(Model()), now)
    {
      left.Start(now);
      right.Stop();
    }

    method Right(now: int)
      requires Valid()
      modifies left, right
      ensures Valid() && Model() == PressRight(old(Model()), now)
    {
      left.Stop();
      right.Start(now);
    }

    method StopAll()
      requires Valid()
      modifies left, right
      ensures Valid() && Model() == PressStopAll(old(Model()))
    {
      left.Stop();
      right.Stop();
    }

    method ResetAll(now: int)
      requires Valid()
      modifies left, right
      ensures Valid() && Model() == PressResetAll(old(Model()), now)
    {
      left.Reset(now);
      right.Reset(now);
    }

    /** Saving the left clock's editor with the fields `hours`, `minutes` and `seconds`. */
    method SaveLeft(hours: string, minutes: string, seconds: string)
      requires Valid() && ConvertValueToMilliseconds(Join3(hours, minutes, seconds)).Some?
      modifies left
      ensures Valid()
      ensures Model() == EditLeft(old(Model()), ConvertValueToMilliseconds(Join3(hours, minutes, seconds)).value)
    {
      left.Update(Join3(hours, minutes, seconds));
    }

    /** Saving the right clock's editor with the fields `hours`, `minutes` and `seconds`. */
    method SaveRight(hours: string, minutes: string, seconds: string)
      requires Valid() && ConvertValueToMilliseconds(Join3(hours, minutes, seconds)).Some?
      modifies right
      ensures Valid()
      ensures Model() == EditRight(old(Model()), ConvertValueToMilliseconds(Join3(hours, minutes, seconds)).value)
    {
      right.Update(Join3(hours, minutes, seconds));
    }

    method TickLeft(now: int)
      requires Valid() && Due(left.Model(), now)
      modifies left
      ensures Valid() && Model() == Apply(old(Model()), LeftTick(now))
    {
      left.Tick(now);
    }

    method TickRight(now: int)
      requires Valid() && Due(right.Model(), now)
      modifies right
      ensures Valid() && Model() == Apply(old(Model()), RightTick(now))
    {
      right.Tick(now);
    }
  }
}
