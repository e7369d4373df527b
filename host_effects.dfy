/** What the front ends do to things outside the model (the emulator behind the
    Python bindings, the screen, the timers), recorded as a log of effects in order. */
module HostEffects {
  import opened Keys

  datatype Effect =
    | SilentStep              // Debugger.run_one_without_callback
    | CallbackStep            // Debugger.run_one, which also refreshes the debug views
    | Rewind                  // Debugger.go_back_one
    | DecrementTimers         // machine.decrement_timers(TIMER_DECREMENTS_PER_REFRESH)
    | RefreshScreen           // the game screen is redrawn from the frame buffer
    | PressKey(key: Key)      // machine.keyboard.set_key_pressed

  /** How many times an effect occurs in a log. */
  function Count(log: seq<Effect>, e: Effect): (n: nat)
    ensures n <= |log|
  {
    if log == [] then 0
    else Count(log[..|log| - 1], e) + (if log[|log| - 1] == e then 1 else 0)
  }

  lemma {:induction false} CountAppend(a: seq<Effect>, b: seq<Effect>, e: Effect)
    ensures Count(a + b, e) == Count(a, e) + Count(b, e)
    decreases |b|
  {
    if b == [] {
      assert a + b == a;
    } else {
      var b' := b[..|b| - 1];
      assert (a + b)[..|a + b| - 1] == a + b';
      CountAppend(a, b', e);
    }
  }

  /** n copies of one effect. */
  function Repeat(e: Effect, n: nat): (log: seq<Effect>)
    ensures |log| == n
    ensures forall i :: 0 <= i < n ==> log[i] == e
  {
    if n == 0 then [] else Repeat(e, n - 1) + [e]
  }
}
