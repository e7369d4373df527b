/** The history debugger: before each step it pushes a snapshot of the machine state, and
    going back pops the most recent snapshot and loads it into the machine. The debugger
    holds its machine by value, so it works on its own copy. */
module Debuggers {
  import opened DataTypes
  import opened Chip8

  /** CHIP_8::run_one, whose code is not part of this model: the next machine state and
      whether the step succeeded. */
  type Step = MachineState -> (MachineState, bool)

  /** The debugger's machine and its snapshot stack (the top is the last element). */
  datatype Debug = Debug(machine: MachineState, states: seq<MachineState>)

  /** run_one: push the current state, then step. */
  function Advance(d: Debug, step: Step): (Debug, bool)
  {
    var (next, ok) := step(d.machine);
    (Debug(next, d.states + [d.machine]), ok)
  }

  /** go_back_one with the snapshot copied before it is popped: load it, and report
      whether older snapshots remain. */
  function Rewind(d: Debug): (Debug, bool)
    requires d.states != []
  {
    var top := d.states[|d.states| - 1];
    var rest := d.states[..|d.states| - 1];
    (Debug(top, rest), rest != [])
  }

  /** What go_back_one does as written: it keeps a reference to the top snapshot, pops
      it, and then loads through the reference. The reference names a stack slot that the
      pop has destroyed, so the load has no element to read. */
  function RewindAsWritten(d: Debug): Result<(Debug, bool), string>
    requires d.states != []
  {
    var topSlot := |d.states| - 1;
    var rest := d.states[..|d.states| - 1];
    // The reference still names slot topSlot, which after the pop is past the end of the
    // stack; Err stands for the read of that destroyed element.
    if topSlot < |rest| then Ok((Debug(rest[topSlot], rest), rest != []))
    else Err("load_state reads a snapshot destroyed by pop")
  }

  /** As written, going back never loads a snapshot: every call reads a destroyed one. */
  lemma RewindAsWrittenReadsDestroyedSnapshot(d: Debug)
    requires d.states != []
    ensures RewindAsWritten(d).Err?
  {
  }

  /** A debugger run: steps, then going back the same number of times. */
  function RunAll(d: Debug, steps: seq<Step>): Debug
    decreases |steps|
  {
    if steps == [] then d else RunAll(Advance(d, steps[0]).0, steps[1..])
  }

  function GoBack(d: Debug, n: nat): Debug
    requires n <= |d.states|
    decreases n
  {
    if n == 0 then d else GoBack(Rewind(d).0, n - 1)
  }

  /** Each run pushes exactly one snapshot, the state before the step, whatever the step
      reports; going back pops that snapshot and loads it. */
  lemma AdvanceThenRewind(d: Debug, step: Step)
    ensures var (after, _) := Advance(d, step);
      |after.states| == |d.states| + 1 &&
      after.states[|d.states|] == d.machine &&
      Rewind(after).0 == d
  {
    var (after, _) := Advance(d, step);
    assert after.states[..|after.states| - 1] == d.states;
  }

  /** go_back_one reports true exactly when snapshots remain after the pop. */
  lemma RewindReportsRemaining(d: Debug)
    requires d.states != []
    ensures var (after, more) := Rewind(d);
      |after.states| == |d.states| - 1 && (more <==> |d.states| > 1)
  {
  }

  lemma {:induction false} RunAllPushes(d: Debug, steps: seq<Step>)
    ensures |RunAll(d, steps).states| == |d.states| + |steps|
    ensures RunAll(d, steps).states[..|d.states|] == d.states
    decreases |steps|
  {
    if steps != [] {
      var d1 := Advance(d, steps[0]).0;
      RunAllPushes(d1, steps[1..]);
      assert d1.states[..|d.states|] == d.states;
    }
  }

  /** Taking N steps and then going back N times restores the machine and the history
      to what they were (the snapshots come off in LIFO order). */
  lemma {:induction false} RunsThenGoBacksRestore(d: Debug, steps: seq<Step>)
    ensures |RunAll(d, steps).states| == |d.states| + |steps|
    ensures GoBack(RunAll(d, steps), |steps|) == d
    decreases |steps|
  {
    RunAllPushes(d, steps);
    if steps != [] {
      var d1 := Advance(d, steps[0]).0;
      RunsThenGoBacksRestore(d1, steps[1..]);
      RunAllPushes(d1, steps[1..]);
      GoBackLast(RunAll(d1, steps[1..]), |steps| - 1);
      AdvanceThenRewind(d, steps[0]);
    }
  }

  /** Going back n + 1 times is going back n times and then once more. */
  lemma {:induction false} GoBackLast(d: Debug, n: nat)
    requires n < |d.states|
    ensures |GoBack(d, n).states| == |d.states| - n
    ensures GoBack(d, n + 1) == Rewind(GoBack(d, n)).0
    decreases n
  {
    if n > 0 {
      GoBackLast(Rewind(d).0, n - 1);
    }
  }

  /** A command a user of the debugger issues: a step, or a step back. */
  datatype Command = Run(step: Step) | Back

  function Runs(cmds: seq<Command>): nat
  {
    if cmds == [] then 0 else (if cmds[0].Run? then 1 else 0) + Runs(cmds[1..])
  }

  function Backs(cmds: seq<Command>): nat
  {
    if cmds == [] then 0 else (if cmds[0].Back? then 1 else 0) + Backs(cmds[1..])
  }

  /** Replays commands; a step back on an empty history is a caller error, so replaying
      stops there with None. */
  function Replay(d: Debug, cmds: seq<Command>): Option<Debug>
    decreases |cmds|
  {
    if cmds == [] then Some(d)
    else match cmds[0]
      case Run(step) => Replay(Advance(d, step).0, cmds[1..])
      case Back => if d.states == [] then None else Replay(Rewind(d).0, cmds[1..])
  }

  /** The history length is the number of steps taken minus the number of steps back. */
  lemma {:induction false} HistoryLength(d: Debug, cmds: seq<Command>)
    ensures Replay(d, cmds).Some? ==>
      |Replay(d, cmds).value.states| == |d.states| + Runs(cmds) - Backs(cmds)
    decreases |cmds|
  {
    if cmds != [] {
      match cmds[0]
      case Run(step) => HistoryLength(Advance(d, step).0, cmds[1..]);
      case Back => if d.states != [] { HistoryLength(Rewind(d).0, cmds[1..]); }
    }
  }

  /** The debugger object: its own copy of the machine state and the snapshot stack. */
  class Debugger {
    var machine: MachineState
    var states: seq<MachineState>

    /** Copies the machine it is given; the history starts empty. */
    constructor (m: MachineState)
      ensures machine == m && states == []
    {
      machine := m;
      states := [];
    }

    method RunOne(step: Step) returns (ok: bool)
      modifies this
      ensures (Debug(machine, states), ok) == Advance(old(Debug(machine, states)), step)
    {
      var currentState := machine;
      states := states + [currentState];
      var (next, result) := step(machine);
      machine := next;
      ok := result;
    }

    method GoBackOne() returns (more: bool)
      requires states != []
      modifies this
      ensures (Debug(machine, states), more) == Rewind(old(Debug(machine, states)))
    {
      var mostRecentState := states[|states| - 1];
      states := states[..|states| - 1];
      machine := mostRecentState;
      more := states != [];
    }
  }
}
