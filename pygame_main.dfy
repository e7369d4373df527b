/** The pygame front end (Python-Frontend/CHIP8/main.py) and the host helper shared with the
    Qt front ends (PyCHIP8/host/helpers.py): the wall-clock rate limiter of the main loop and
    reading a ROM file into the program-area byte list. */
module PygameFrontEnd {
  import opened MachineSpecs
  import opened DataTypes
  import opened Chip8
  import opened Debuggers
  import opened Timing

  /** What one pass of the main loop reads and writes: the machine and the last limiter
      check time (ns), with two running totals the model keeps: the instructions executed
      and the refresh periods credited to decrement_timers. */
  datatype Loop = Loop(machine: MachineState, lastCheck: int, executed: nat, refreshesCredited: nat)

  /** n calls of run_one, whose results are ignored. */
  function RunTimes(m: MachineState, n: nat, step: Step): MachineState
    decreases n
  {
    if n == 0 then m else RunTimes(step(m).0, n - 1, step)
  }

  /** One pass of the main loop after the event: below one refresh period nothing happens;
      otherwise the check time moves to now and exactly refreshes * INSTRUCTIONS_PER_REFRESH
      steps run, whatever run_one reports. */
  function Tick(s: Loop, now: int, step: Step): Loop
  {
    var ms := TruncatedMilliseconds(now - s.lastCheck);
    if ms < MILLISECONDS_PER_REFRESH then s
    else
      var refreshes := RefreshesElapsed(ms);
      var n := refreshes * INSTRUCTIONS_PER_REFRESH;
      Loop(RunTimes(s.machine, n, step), now, s.executed + n, s.refreshesCredited + refreshes)
  }

  method LimiterPass(s: Loop, now: int, step: Step) returns (r: Loop)
    ensures r == Tick(s, now, step)
  {
    var millisElapsed := TruncatedMilliseconds(now - s.lastCheck);
    if millisElapsed < MILLISECONDS_PER_REFRESH {
      return s;
    }
    var refreshesElapsed := millisElapsed / MILLISECONDS_PER_REFRESH;
    var insElapsed := refreshesElapsed * INSTRUCTIONS_PER_REFRESH;
    var machine := s.machine;
    for i := 0 to insElapsed
      invariant RunTimes(s.machine, insElapsed, step) == RunTimes(machine, insElapsed - i, step)
    {
      var (next, _) := step(machine);
      machine := next;
    }
    r := Loop(machine, now, s.executed + insElapsed, s.refreshesCredited + refreshesElapsed);
  }

  /** Every pass of at least one period runs its whole batch and drops the remainder. */
  lemma PassRunsWholeBatch(s: Loop, now: int, step: Step)
    requires TruncatedMilliseconds(now - s.lastCheck) >= MILLISECONDS_PER_REFRESH
    ensures var ms := TruncatedMilliseconds(now - s.lastCheck);
      var r := Tick(s, now, step);
      r.lastCheck == now &&
      r.refreshesCredited == s.refreshesCredited + ms / 16 &&
      r.executed == s.executed + 9 * (ms / 16)
  {
    RefreshTiming();
  }

  function Ticks(s: Loop, nows: seq<int>, step: Step): Loop
    decreases |nows|
  {
    if nows == [] then s else Ticks(Tick(s, nows[0], step), nows[1..], step)
  }

  /** Over any sequence of passes exactly INSTRUCTIONS_PER_REFRESH instructions run per
      credited period, and the periods credited fit in the time between the first and the
      last check. */
  lemma {:induction false} NeverAheadOfClock(s: Loop, nows: seq<int>, step: Step)
    ensures var r := Ticks(s, nows, step);
      r.lastCheck >= s.lastCheck &&
      r.refreshesCredited >= s.refreshesCredited &&
      (r.refreshesCredited - s.refreshesCredited) * MILLISECONDS_PER_REFRESH <=
        TruncatedMilliseconds(r.lastCheck - s.lastCheck) &&
      r.executed - s.executed == INSTRUCTIONS_PER_REFRESH * (r.refreshesCredited - s.refreshesCredited)
    decreases |nows|
  {
    RefreshTiming();
    if nows != [] {
      var t := Tick(s, nows[0], step);
      NeverAheadOfClock(t, nows[1..], step);
      var r := Ticks(t, nows[1..], step);
      assert r == Ticks(s, nows, step);
      if t != s {
        PassRunsWholeBatch(s, nows[0], step);
        TruncationSuperadditive(t.lastCheck - s.lastCheck, r.lastCheck - t.lastCheck);
      }
    }
  }

  /** Python's IndexError, raised by a list assignment past the end. */
  datatype PyError = IndexError

  /** get_bytes: a list of MAX_NUM_INSTURCTIONS * INSTRUCTION_SIZE entries holding the file's
      bytes and zeros after them; a file longer than that raises IndexError. */
  method GetBytes(byteStr: seq<Byte>) returns (r: Result<seq<int>, PyError>)
    ensures r.Err? <==> |byteStr| > MAX_NUM_INSTRUCTIONS * INSTRUCTION_SIZE
    ensures r.Ok? ==> |r.value| == MAX_NUM_INSTRUCTIONS * INSTRUCTION_SIZE
    ensures r.Ok? ==> forall i :: 0 <= i < |byteStr| ==> r.value[i] == byteStr[i]
    ensures r.Ok? ==> forall i :: |byteStr| <= i < |r.value| ==> r.value[i] == 0
  {
    var insBytes := new int[MAX_NUM_INSTRUCTIONS * INSTRUCTION_SIZE](_ => 0);
    for i := 0 to |byteStr|
      invariant i <= insBytes.Length
      invariant forall k :: 0 <= k < i ==> insBytes[k] == byteStr[k]
      invariant forall k :: i <= k < insBytes.Length ==> insBytes[k] == 0
    {
      if i >= insBytes.Length {
        return Err(IndexError);
      }
      insBytes[i] := byteStr[i];
    }
    return Ok(insBytes[..]);
  }
}
