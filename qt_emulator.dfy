/** The Qt front end with three execution modes (main_emulator/main.py). NORMAL runs the
    emulator from a refresh timer; DEBUG runs it too, refreshing the debug views after every
    instruction; BREAK stops the timer so that the user steps forwards and backwards by hand.
    The application object owns the mode, the timer and the debug windows; the main window
    keeps its own copy of the mode and the count of hand steps since the last refresh. */
module EmulatorGui {
  import opened MachineSpecs
  import opened DataTypes
  import opened HostEffects

  datatype ExecutionMode = Normal | Debug | Break

  /** Everything the front end controls: the application's mode and remembered mode,
      whether the refresh timer runs, whether the debug windows are visible, the main
      window's mode and step counter, and the effects issued so far. */
  datatype Control = Control(
    mode: ExecutionMode,
    previousMode: Option<ExecutionMode>,
    timerRunning: bool,
    windowsVisible: bool,
    windowMode: ExecutionMode,
    counter: int,
    effects: seq<Effect>)

  /** The timer runs exactly outside BREAK, the debug windows show exactly outside
      NORMAL, the main window agrees with the application about the mode, and the step
      counter is a position within one refresh. */
  predicate Consistent(c: Control)
  {
    (c.timerRunning <==> c.mode != Break) &&
    (c.windowsVisible <==> c.mode != Normal) &&
    c.windowMode == c.mode &&
    0 <= c.counter < INSTRUCTIONS_PER_REFRESH
  }

  /** The state right after CHIP8App.__init__. */
  function Launch(): (c: Control)
    ensures Consistent(c)
    ensures c.mode == Normal && c.previousMode == None && c.timerRunning && !c.windowsVisible
  {
    Control(Normal, None, true, false, Normal, 0, [])
  }

  /** The mode toggle_break_mode leaves: BREAK goes back to the mode it interrupted
      (DEBUG if that was DEBUG, NORMAL otherwise), any other mode goes to BREAK. */
  function BreakModeToggled(c: Control): (r: Control)
    ensures r.previousMode == Some(c.mode)
    ensures r.mode == Break <==> c.mode != Break
    ensures c.mode == Break ==> (r.mode == Debug <==> c.previousMode == Some(Debug))
    ensures r.counter == c.counter && r.effects == c.effects
    ensures Consistent(c) ==> Consistent(r)
  {
    var mode := if c.mode == Break then (if c.previousMode == Some(Debug) then Debug else Normal)
                else Break;
    c.(mode := mode, previousMode := Some(c.mode), timerRunning := c.mode == Break,
       windowMode := mode, windowsVisible := mode != Normal)
  }

  /** The mode toggle_debug_mode leaves: DEBUG and BREAK go to NORMAL and start the timer,
      NORMAL goes to DEBUG and leaves the timer as it was. */
  function DebugModeToggled(c: Control): (r: Control)
    ensures r.previousMode == Some(c.mode)
    ensures r.mode == Normal <==> c.mode != Normal
    ensures r.mode != Break
    ensures c.mode == Normal ==> r.timerRunning == c.timerRunning
    ensures r.counter == c.counter && r.effects == c.effects
    ensures Consistent(c) ==> Consistent(r)
  {
    var leaving := c.mode == Debug || c.mode == Break;
    var mode := if leaving then Normal else Debug;
    c.(mode := mode, previousMode := Some(c.mode),
       timerRunning := if leaving then true else c.timerRunning,
       windowMode := mode, windowsVisible := mode != Normal)
  }

  /** The steps one refresh makes: silent ones in NORMAL, callback ones in DEBUG, none
      in BREAK (where the timer that calls refresh is stopped). */
  function RefreshSteps(mode: ExecutionMode, n: nat): seq<Effect>
  {
    match mode
    case Normal => Repeat(SilentStep, n)
    case Debug => Repeat(CallbackStep, n)
    case Break => []
  }

  function Refreshed(c: Control): Control
  {
    c.(effects := c.effects + RefreshSteps(c.mode, INSTRUCTIONS_PER_REFRESH) + [DecrementTimers, RefreshScreen])
  }

  /** debugger_go_forward on the main window's counter and the effect log. */
  function StepForward(counter: int, log: seq<Effect>): (r: (int, seq<Effect>))
    ensures 0 <= r.0 < INSTRUCTIONS_PER_REFRESH
  {
    var k := (counter + 1) % INSTRUCTIONS_PER_REFRESH;
    (k, log + [CallbackStep] + (if k == 0 then [DecrementTimers, RefreshScreen] else []))
  }

  /** debugger_go_back on the main window's counter and the effect log. */
  function StepBack(counter: int, log: seq<Effect>): (r: (int, seq<Effect>))
    ensures 0 <= r.0 < INSTRUCTIONS_PER_REFRESH
  {
    var k := (counter - 1) % INSTRUCTIONS_PER_REFRESH;
    (k, log + [Rewind] + (if k == 0 then [RefreshScreen] else []))
  }

  function SteppedForward(c: Control): Control
  {
    var (k, log) := StepForward(c.counter, c.effects);
    c.(counter := k, effects := log)
  }

  function SteppedBack(c: Control): Control
  {
    var (k, log) := StepBack(c.counter, c.effects);
    c.(counter := k, effects := log)
  }

  /** Leaving BREAK and entering it again (or the other way round) gives back the mode. */
  lemma ToggleBreakTwiceRestoresMode(c: Control)
    ensures BreakModeToggled(BreakModeToggled(c)).mode == c.mode
    ensures BreakModeToggled(BreakModeToggled(c)).previousMode ==
      Some(BreakModeToggled(c).mode)
  {
  }

  /** Toggling debug mode twice gives back NORMAL or DEBUG; from BREAK it ends in DEBUG. */
  lemma ToggleDebugTwice(c: Control)
    ensures c.mode != Break ==> DebugModeToggled(DebugModeToggled(c)).mode == c.mode
    ensures c.mode == Break ==> DebugModeToggled(DebugModeToggled(c)).mode == Debug
  {
  }

  /** One refresh makes INSTRUCTIONS_PER_REFRESH steps of the kind its mode calls for,
      then decrements the timers once and refreshes the screen once. */
  lemma RefreshCounts(c: Control)
    ensures var r := Refreshed(c).effects;
      Count(r, SilentStep) == Count(c.effects, SilentStep) + (if c.mode == Normal then 9 else 0) &&
      Count(r, CallbackStep) == Count(c.effects, CallbackStep) + (if c.mode == Debug then 9 else 0) &&
      Count(r, DecrementTimers) == Count(c.effects, DecrementTimers) + 1 &&
      Count(r, RefreshScreen) == Count(c.effects, RefreshScreen) + 1 &&
      Count(r, Rewind) == Count(c.effects, Rewind)
    ensures Consistent(c) ==> Consistent(Refreshed(c))
  {
    RefreshCountOf(c, SilentStep);
    RefreshCountOf(c, CallbackStep);
    RefreshCountOf(c, DecrementTimers);
    RefreshCountOf(c, RefreshScreen);
    RefreshCountOf(c, Rewind);
  }

  /** The count of one effect after a refresh: the steps of the mode, then one timer
      decrement and one screen refresh. */
  lemma RefreshCountOf(c: Control, e: Effect)
    ensures Count(Refreshed(c).effects, e) == Count(c.effects, e) +
      (if (c.mode == Normal && e == SilentStep) || (c.mode == Debug && e == CallbackStep)
       then 9 else 0) +
      (if e == DecrementTimers || e == RefreshScreen then 1 else 0)
  {
    var steps := RefreshSteps(c.mode, INSTRUCTIONS_PER_REFRESH);
    var tail := [DecrementTimers, RefreshScreen];
    CountAppend(c.effects, steps, e);
    CountAppend(c.effects + steps, tail, e);
    assert Refreshed(c).effects == c.effects + steps + tail;
    RefreshStepsCount(c.mode, e);
    TimerAndScreenCount(e);
  }

  lemma RefreshStepsCount(mode: ExecutionMode, e: Effect)
    ensures Count(RefreshSteps(mode, INSTRUCTIONS_PER_REFRESH), e) ==
      if (mode == Normal && e == SilentStep) || (mode == Debug && e == CallbackStep) then 9 else 0
  {
    RefreshTiming();
    match mode
    case Normal => RepeatCount(SilentStep, INSTRUCTIONS_PER_REFRESH);
    case Debug => RepeatCount(CallbackStep, INSTRUCTIONS_PER_REFRESH);
    case Break =>
  }

  lemma TimerAndScreenCount(e: Effect)
    ensures Count([DecrementTimers, RefreshScreen], e) ==
      if e == DecrementTimers || e == RefreshScreen then 1 else 0
  {
    assert [DecrementTimers, RefreshScreen][..1] == [DecrementTimers];
    assert [DecrementTimers][..0] == [];
  }

  lemma {:induction false} RepeatCount(e: Effect, n: nat)
    ensures Count(Repeat(e, n), e) == n
    ensures forall f :: f != e ==> Count(Repeat(e, n), f) == 0
    decreases n
  {
    if n > 0 {
      RepeatCount(e, n - 1);
      forall f {
        CountAppend(Repeat(e, n - 1), [e], f);
      }
    }
  }

  /** A step back undoes the counter change of a step forward. */
  lemma StepBackUndoesCounter(counter: int)
    requires 0 <= counter < INSTRUCTIONS_PER_REFRESH
    ensures StepBack(StepForward(counter, []).0, []).0 == counter
    ensures StepForward(StepBack(counter, []).0, []).0 == counter
  {
    RefreshTiming();
    assert (counter + 1) % INSTRUCTIONS_PER_REFRESH == if counter == 8 then 0 else counter + 1;
    assert (counter - 1) % INSTRUCTIONS_PER_REFRESH == if counter == 0 then 8 else counter - 1;
  }

  function GoForwardTimes(c: Control, n: nat): Control
    decreases n
  {
    if n == 0 then c else SteppedForward(GoForwardTimes(c, n - 1))
  }

  /** The count of one effect after a step forward: one callback step, and one timer
      decrement and one screen refresh when the counter wraps to 0. */
  lemma ForwardCountOf(c: Control, e: Effect)
    ensures var r := SteppedForward(c);
      Count(r.effects, e) == Count(c.effects, e) + (if e == CallbackStep then 1 else 0) +
        (if r.counter == 0 && (e == DecrementTimers || e == RefreshScreen) then 1 else 0)
  {
    var r := SteppedForward(c);
    var extra := if r.counter == 0 then [DecrementTimers, RefreshScreen] else [];
    assert r.effects == c.effects + [CallbackStep] + extra;
    CountAppend(c.effects, [CallbackStep], e);
    CountAppend(c.effects + [CallbackStep], extra, e);
    assert [CallbackStep][..0] == [];
    if r.counter == 0 {
      assert extra[..1] == [DecrementTimers];
      assert [DecrementTimers][..0] == [];
    }
  }

  /** Counting up by one modulo 9 wraps exactly at the multiples of 9. */
  lemma CounterStep(n: nat)
    requires n > 0
    ensures ((n - 1) % 9 + 1) % 9 == n % 9
    ensures n / 9 == (n - 1) / 9 + (if n % 9 == 0 then 1 else 0)
  {
  }

  /** Time flows by hand in BREAK: starting from a fresh refresh, n steps forward decrement
      the timers n / INSTRUCTIONS_PER_REFRESH times and leave the counter at the remainder. */
  lemma {:induction false} StepsForwardPaceTheTimers(c: Control, n: nat)
    requires c.counter == 0
    ensures GoForwardTimes(c, n).counter == n % INSTRUCTIONS_PER_REFRESH
    ensures Count(GoForwardTimes(c, n).effects, DecrementTimers) ==
      Count(c.effects, DecrementTimers) + n / INSTRUCTIONS_PER_REFRESH
    ensures Count(GoForwardTimes(c, n).effects, CallbackStep) == Count(c.effects, CallbackStep) + n
    decreases n
  {
    RefreshTiming();
    if n > 0 {
      StepsForwardPaceTheTimers(c, n - 1);
      var p := GoForwardTimes(c, n - 1);
      ForwardCountOf(p, DecrementTimers);
      ForwardCountOf(p, CallbackStep);
      CounterStep(n);
    }
  }

  /** The effect log the debugger and the machine share with both windows. */
  class Host {
    var effects: seq<Effect>

    constructor ()
      ensures effects == []
    {
      effects := [];
    }
  }

  /** CHIP8MainWindow: its copy of the mode and the steps made by hand since a refresh. */
  class MainWindow {
    var executionMode: ExecutionMode
    var insExecutedSinceRefresh: int
    const host: Host

    constructor (host: Host, mode: ExecutionMode)
      ensures this.host == host && executionMode == mode && insExecutedSinceRefresh == 0
    {
      this.host := host;
      executionMode := mode;
      insExecutedSinceRefresh := 0;
    }

    method SetExecutionMode(mode: ExecutionMode)
      modifies this
      ensures executionMode == mode && insExecutedSinceRefresh == old(insExecutedSinceRefresh)
    {
      executionMode := mode;
    }

    /** Step-by-step execution is only offered in BREAK; the source asserts it. */
    method DebuggerGoForward()
      requires executionMode == Break
      modifies this, host
      ensures (insExecutedSinceRefresh, host.effects) ==
        StepForward(old(insExecutedSinceRefresh), old(host.effects))
      ensures executionMode == old(executionMode)
    {
      RefreshTiming();
      ghost var r := StepForward(insExecutedSinceRefresh, host.effects);
      host.effects := host.effects + [CallbackStep];
      insExecutedSinceRefresh := insExecutedSinceRefresh + 1;
      insExecutedSinceRefresh := insExecutedSinceRefresh % INSTRUCTIONS_PER_REFRESH;
      assert insExecutedSinceRefresh == r.0;
      if insExecutedSinceRefresh == 0 {
        host.effects := host.effects + [DecrementTimers, RefreshScreen];
      }
      assert host.effects == r.1;
    }

    method DebuggerGoBack()
      requires executionMode == Break
      modifies this, host
      ensures (insExecutedSinceRefresh, host.effects) ==
        StepBack(old(insExecutedSinceRefresh), old(host.effects))
      ensures executionMode == old(executionMode)
    {
      RefreshTiming();
      ghost var r := StepBack(insExecutedSinceRefresh, host.effects);
      host.effects := host.effects + [Rewind];
      insExecutedSinceRefresh := insExecutedSinceRefresh - 1;
      insExecutedSinceRefresh := insExecutedSinceRefresh % INSTRUCTIONS_PER_REFRESH;
      assert insExecutedSinceRefresh == r.0;
      if insExecutedSinceRefresh == 0 {
        host.effects := host.effects + [RefreshScreen];
      }
      assert host.effects == r.1;
    }
  }

  /** CHIP8App: the execution mode, the refresh timer and the debug windows. */
  class App {
    var executionMode: ExecutionMode
    var previousExecutionMode: Option<ExecutionMode>
    var refreshTimerRunning: bool
    var debugWindowsVisible: bool
    const window: MainWindow
    const host: Host

    ghost function State(): Control
      reads this, window, host
    {
      Control(executionMode, previousExecutionMode, refreshTimerRunning, debugWindowsVisible,
              window.executionMode, window.insExecutedSinceRefresh, host.effects)
    }

    ghost predicate Valid()
      reads this, window, host
    {
      window.host == host && Consistent(State())
    }

    constructor ()
      ensures Valid() && State() == Launch()
    {
      previousExecutionMode := None;
      executionMode := Normal;
      var h := new Host();
      host := h;
      window := new MainWindow(h, Normal);
      refreshTimerRunning := true;
      debugWindowsVisible := false;
    }

    method Refresh()
      requires Valid()
      modifies host
      ensures Valid() && State() == Refreshed(old(State()))
    {
      for i := 0 to INSTRUCTIONS_PER_REFRESH
        invariant host.effects == old(host.effects) + RefreshSteps(executionMode, i)
      {
        if executionMode == Normal {
          host.effects := host.effects + [SilentStep];
        } else if executionMode == Debug {
          host.effects := host.effects + [CallbackStep];
        }
      }
      host.effects := host.effects + [DecrementTimers];
      host.effects := host.effects + [RefreshScreen];
    }

    method ToggleBreakMode()
      requires Valid()
      modifies this, window
      ensures Valid() && State() == BreakModeToggled(old(State()))
    {
      var previous := executionMode;
      if executionMode == Break {
        executionMode := if previousExecutionMode == Some(Debug) then Debug else Normal;
        refreshTimerRunning := true;
      } else {
        executionMode := Break;
        refreshTimerRunning := false;
      }
      previousExecutionMode := Some(previous);
      window.SetExecutionMode(executionMode);
      debugWindowsVisible := executionMode != Normal;
    }

    method ToggleDebugMode()
      requires Valid()
      modifies this, window
      ensures Valid() && State() == DebugModeToggled(old(State()))
    {
      var previous := executionMode;
      if executionMode == Debug || executionMode == Break {
        executionMode := Normal;
        refreshTimerRunning := true;
      } else {
        executionMode := Debug;
      }
      previousExecutionMode := Some(previous);
      window.SetExecutionMode(executionMode);
      debugWindowsVisible := executionMode != Normal;
    }
  }
}
