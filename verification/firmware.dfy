/**
 The firmware as a sequence of input events: a falling edge on INT0 (the Mode
 button) or one iteration of the main loop with the port-B lines as sampled.
 Interrupt timing, the debounce wait and the display refresh are not events
 here; each event runs to completion before the next one. INT0 may in fact
 preempt a loop iteration, but it writes only `fMode`, which the loop reads and
 never writes, so an interrupted iteration equals the iteration followed by
 the Mode press. Every loop iteration is taken to see the latest `fMode`.
 */
module Firmware {
  import opened Uint8
  import opened Menu

  datatype Event = ModeEdge | LoopIteration(pins: Pins)

  function Step(s: State, e: Event): (r: State)
    ensures Valid(s) ==> Valid(r)
    ensures e.LoopIteration? ==> r.fMode == s.fMode
  {
    match e
    case ModeEdge => ModePressed(s)
    case LoopIteration(p) => Poll(s, p)
  }

  /** The state after the events, oldest first. */
  function Run(s: State, es: seq<Event>): (r: State)
    ensures Valid(s) ==> Valid(r)
    decreases |es|
  {
    if es == [] then s else Run(Step(s, es[0]), es[1..])
  }

  /** Number of Mode presses among the events. */
  function ModeCount(es: seq<Event>): nat
  {
    if es == [] then 0 else (if es[0].ModeEdge? then 1 else 0) + ModeCount(es[1..])
  }

  /** The display mode after n Mode presses starting from display mode f. */
  function AfterPresses(f: u8, n: nat): u8
  {
    if n == 0 then f
    else if (n % 2 == 1) == (f == TemperatureScreen) then MenuScreen
    else TemperatureScreen
  }

  /** The display mode depends only on how many times Mode was pressed. */
  lemma {:induction false} RunDisplayMode(s: State, es: seq<Event>)
    requires s.fMode <= MenuScreen
    ensures Run(s, es).fMode == AfterPresses(s.fMode, ModeCount(es))
    decreases |es|
  {
    if es != [] {
      var t := Step(s, es[0]);
      RunDisplayMode(t, es[1..]);
    }
  }

  /** From power-up: the splash until the first Mode press, then the
      temperature screen after an odd number of presses and the menu after an
      even one. */
  lemma DisplayModeFromPowerUp(es: seq<Event>)
    ensures ModeCount(es) == 0 ==> Run(Initial, es).fMode == Boot
    ensures ModeCount(es) > 0 && ModeCount(es) % 2 == 1 ==> Run(Initial, es).fMode == TemperatureScreen
    ensures ModeCount(es) > 0 && ModeCount(es) % 2 == 0 ==> Run(Initial, es).fMode == MenuScreen
  {
    RunDisplayMode(Initial, es);
  }

  /** Buttons pressed before the first Mode press change nothing at all. */
  lemma {:induction false} ButtonsIgnoredBeforeMenu(s: State, es: seq<Event>)
    requires s.fMode != MenuScreen
    requires ModeCount(es) == 0
    ensures Run(s, es) == s
    decreases |es|
  {
    if es != [] {
      assert es[0].LoopIteration?;
      ButtonsIgnoredBeforeMenu(s, es[1..]);
    }
  }

  /** A loop iteration interrupted by INT0 after it has read `fMode`: the
      iteration's writes land on top of the handler's new `fMode`. The outcome
      is the same as the iteration running first and the Mode press after it. */
  lemma PreemptedIterationIsSequential(s: State, p: Pins)
    ensures Poll(s, p).(fMode := ModePressed(s).fMode) == Run(s, [LoopIteration(p), ModeEdge])
  {
    var es := [LoopIteration(p), ModeEdge];
    assert es[1..] == [ModeEdge];
    assert Run(s, es) == Run(Poll(s, p), [ModeEdge]);
    assert Run(Poll(s, p), [ModeEdge]) == ModePressed(Poll(s, p));
  }

  /** Every state reachable from power-up satisfies the menu invariant. */
  lemma ReachableValid(es: seq<Event>)
    ensures Valid(Run(Initial, es))
  {
    InitialValid();
  }
}
