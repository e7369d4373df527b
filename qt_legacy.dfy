/** The older Qt front end (gui/main.py), with a single debug flag. Outside debug mode the
    refresh timer runs the emulator; in debug mode the timer stops and the step keys move
    the debugger forwards and backwards. The main window keeps its own copy of the flag. */
module LegacyGui {
  import opened MachineSpecs
  import opened Keys
  import opened HostEffects

  /** A key the main window receives: one the keyboard map sends to the CHIP-8 keypad,
      one of the two debugger step keys, or any other key. */
  datatype HostKey = Chip8Key(key: Key) | GoForwardKey | GoBackKey | OtherKey

  datatype Control = Control(
    debugMode: bool,
    timerRunning: bool,
    windowsVisible: bool,
    windowDebugMode: bool,
    counter: int,
    effects: seq<Effect>)

  /** The timer runs exactly outside debug mode, the debug windows show exactly in it, the
      main window's flag agrees with the application's, and the counter is a position
      within one refresh. */
  predicate Consistent(c: Control)
  {
    (c.timerRunning <==> !c.debugMode) &&
    (c.windowsVisible <==> c.debugMode) &&
    c.windowDebugMode == c.debugMode &&
    0 <= c.counter < INSTRUCTIONS_PER_REFRESH
  }

  /** The state right after CHIP8App.__init__: not debugging, timer running, no debug
      windows shown. */
  function Launch(): (c: Control)
    ensures Consistent(c) && !c.debugMode && c.timerRunning && c.effects == []
  {
    Control(false, true, false, false, 0, [])
  }

  function DebugModeToggled(c: Control): (r: Control)
    ensures r.debugMode == !c.debugMode
    ensures r.counter == c.counter && r.effects == c.effects
    ensures Consistent(c) ==> Consistent(r)
  {
    c.(debugMode := !c.debugMode, windowDebugMode := !c.debugMode,
       timerRunning := c.debugMode, windowsVisible := !c.debugMode)
  }

  /** refresh always makes INSTRUCTIONS_PER_REFRESH silent steps, then decrements the timers
      and refreshes the screen once. */
  function Refreshed(c: Control): Control
  {
    c.(effects := c.effects + Repeat(SilentStep, INSTRUCTIONS_PER_REFRESH) + [DecrementTimers, RefreshScreen])
  }

  /** debugger_go_forward: one callback step and a screen refresh; the timers are decremented
      each time the counter wraps to 0. */
  function StepForward(counter: int, log: seq<Effect>): (r: (int, seq<Effect>))
    ensures 0 <= r.0 < INSTRUCTIONS_PER_REFRESH
  {
    var k := (counter + 1) % INSTRUCTIONS_PER_REFRESH;
    (k, log + [CallbackStep, RefreshScreen] + (if k == 0 then [DecrementTimers] else []))
  }

  /** debugger_go_back: one rewind and a screen refresh; the counter steps back modulo
      INSTRUCTIONS_PER_REFRESH. */
  function StepBack(counter: int, log: seq<Effect>): (r: (int, seq<Effect>))
    ensures 0 <= r.0 < INSTRUCTIONS_PER_REFRESH
  {
    ((counter - 1) % INSTRUCTIONS_PER_REFRESH, log + [Rewind, RefreshScreen])
  }

  /** keyPressEvent: a keypad key is pressed on the machine's keyboard; the step keys act
      only while the main window is in debug mode. */
  function KeyPressed(c: Control, k: HostKey): Control
  {
    var c1 := if k.Chip8Key? then c.(effects := c.effects + [PressKey(k.key)]) else c;
    if !c1.windowDebugMode then c1
    else if k == GoForwardKey then
      var (n, log) := StepForward(c1.counter, c1.effects); c1.(counter := n, effects := log)
    else if k == GoBackKey then
      var (n, log) := StepBack(c1.counter, c1.effects); c1.(counter := n, effects := log)
    else c1
  }

  /** Toggling debug mode twice gives back the whole consistent state. */
  lemma ToggleTwiceRestores(c: Control)
    requires Consistent(c)
    ensures DebugModeToggled(DebugModeToggled(c)) == c
  {
  }

  /** Outside debug mode a key press never steps or rewinds the debugger: it at most presses
      a keypad key. */
  lemma StepKeysIgnoredOutsideDebugMode(c: Control, k: HostKey)
    requires !c.windowDebugMode
    ensures KeyPressed(c, k).counter == c.counter
    ensures KeyPressed(c, k).effects ==
      c.effects + (if k.Chip8Key? then [PressKey(k.key)] else [])
  {
  }

  /** In debug mode the step keys move the debugger: forward takes one step, back rewinds
      one; every key press keeps the state consistent. */
  lemma StepKeysActInDebugMode(c: Control)
    requires c.windowDebugMode
    ensures KeyPressed(c, GoForwardKey).effects[|c.effects|] == CallbackStep
    ensures KeyPressed(c, GoBackKey).effects[|c.effects|] == Rewind
    ensures forall k :: Consistent(c) ==> Consistent(KeyPressed(c, k))
  {
  }

  /** A step back undoes the counter change of a step forward, and the other way round. */
  lemma StepBackUndoesCounter(counter: int)
    requires 0 <= counter < INSTRUCTIONS_PER_REFRESH
    ensures StepBack(StepForward(counter, []).0, []).0 == counter
    ensures StepForward(StepBack(counter, []).0, []).0 == counter
  {
    RefreshTiming();
    assert (counter + 1) % INSTRUCTIONS_PER_REFRESH == if counter == 8 then 0 else counter + 1;
    assert (counter - 1) % INSTRUCTIONS_PER_REFRESH == if counter == 0 then 8 else counter - 1;
  }

  class Host {
    var effects: seq<Effect>

    constructor ()
      ensures effects == []
    {
      effects := [];
    }
  }

  /** CHIP8MainWindow: its copy of the debug flag and the steps made by hand since the
      timers were last decremented. */
  class MainWindow {
    var debugMode: bool
    var insExecutedSinceRefresh: int
    const host: Host

    constructor (host: Host, debugMode: bool)
      ensures this.host == host && this.debugMode == debugMode && insExecutedSinceRefresh == 0
    {
      this.host := host;
      this.debugMode := debugMode;
      insExecutedSinceRefresh := 0;
    }

    method SetDebugMode(mode: bool)
      modifies this
      ensures debugMode == mode && insExecutedSinceRefresh == old(insExecutedSinceRefresh)
    {
      debugMode := mode;
    }

    method DebuggerGoForward()
      modifies this, host
      ensures (insExecutedSinceRefresh, host.effects) ==
        StepForward(old(insExecutedSinceRefresh), old(host.effects))
      ensures debugMode == old(debugMode)
    {
      RefreshTiming();
      ghost var r := StepForward(insExecutedSinceRefresh, host.effects);
      host.effects := host.effects + [CallbackStep];
      host.effects := host.effects + [RefreshScreen];
      insExecutedSinceRefresh := insExecutedSinceRefresh + 1;
      insExecutedSinceRefresh := insExecutedSinceRefresh % INSTRUCTIONS_PER_REFRESH;
      assert insExecutedSinceRefresh == r.0;
      if insExecutedSinceRefresh == 0 {
        host.effects := host.effects + [DecrementTimers];
      }
      assert host.effects == r.1;
    }

    method DebuggerGoBack()
      modifies this, host
      ensures (insExecutedSinceRefresh, host.effects) ==
        StepBack(old(insExecutedSinceRefresh), old(host.effects))
      ensures debugMode == old(debugMode)
    {
      RefreshTiming();
      ghost var r := StepBack(insExecutedSinceRefresh, host.effects);
      host.effects := host.effects + [Rewind];
      host.effects := host.effects + [RefreshScreen];
      insExecutedSinceRefresh := insExecutedSinceRefresh - 1;
      insExecutedSinceRefresh := insExecutedSinceRefresh % INSTRUCTIONS_PER_REFRESH;
      assert insExecutedSinceRefresh == r.0;
      assert host.effects == r.1;
    }

    method KeyPressEvent(k: HostKey)
      modifies this, host
      ensures var c := KeyPressed(Control(false, false, false, old(debugMode),
                                          old(insExecutedSinceRefresh), old(host.effects)), k);
        insExecutedSinceRefresh == c.counter && host.effects == c.effects
      ensures debugMode == old(debugMode)
    {
      if k.Chip8Key? {
        host.effects := host.effects + [PressKey(k.key)];
      }
      if debugMode {
        if k == GoForwardKey {
          DebuggerGoForward();
        } else if k == GoBackKey {
          DebuggerGoBack();
        }
      }
    }
  }

  /** CHIP8App: the debug flag, the refresh timer and the debug windows. */
  class App {
    var debugMode: bool
    var refreshTimerRunning: bool
    var debugWindowsVisible: bool
    const window: MainWindow
    const host: Host

    ghost function State(): Control
      reads this, window, host
    {
      Control(debugMode, refreshTimerRunning, debugWindowsVisible,
              window.debugMode, window.insExecutedSinceRefresh, host.effects)
    }

    ghost predicate Valid()
      reads this, window, host
    {
      window.host == host && Consistent(State())
    }

    constructor ()
      ensures Valid() && State() == Launch()
    {
      var h := new Host();
      host := h;
      debugMode := false;
      window := new MainWindow(h, false);
      refreshTimerRunning := true;
      debugWindowsVisible := false;
    }

    method Refresh()
      requires Valid()
      modifies host
      ensures Valid() && State() == Refreshed(old(State()))
    {
      for i := 0 to INSTRUCTIONS_PER_REFRESH
        invariant host.effects == old(host.effects) + Repeat(SilentStep, i)
      {
        host.effects := host.effects + [SilentStep];
      }
      host.effects := host.effects + [DecrementTimers];
      host.effects := host.effects + [RefreshScreen];
    }

    method ToggleDebugMode()
      requires Valid()
      modifies this, window
      ensures Valid() && State() == DebugModeToggled(old(State()))
    {
      if debugMode {
        debugMode := false;
        window.SetDebugMode(false);
        refreshTimerRunning := true;
      } else {
        debugMode := true;
        window.SetDebugMode(true);
        refreshTimerRunning := false;
      }
      debugWindowsVisible := debugMode;
    }
  }
}
