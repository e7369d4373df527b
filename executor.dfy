/** The executor: one method per instruction handler, each updating the machine's fields
    and arrays in place and proved to do what the function of the same name in Semantics
    says, or to throw that function's fault and change nothing. */
module Executors {
  import opened MachineSpecs
  import opened DataTypes
  import opened Chip8
  import opened Keys
  import opened Semantics

  /** How a handler ended: normally, or with the exception it threw. */
  datatype Status = Completed | Threw(fault: Fault)

  /** A handler's effect agrees with its specification: on success the new state is the
      specified one; on a fault the same fault is reported and the state is unchanged. */
  predicate Outcome(before: MachineState, after: MachineState, status: Status, spec: Result<MachineState, Fault>)
  {
    match spec
    case Ok(s) => status == Completed && after == s
    case Err(f) => status == Threw(f) && after == before
  }

  // ---- the draw loop's progress ----

  /** Sprite bit (i', j') has been visited before bit (i, j) in row-major order. */
  predicate Before(i': int, j': int, i: int, j: int)
  {
    i' < i || (i' == i && j' < j)
  }

  /** Cell (cx, cy) after the draw loop has visited every bit before (i, j). */
  function DrawnCell(fb0: seq<seq<Byte>>, sprite: seq<Byte>, x: int, y: int, i: int, j: int, cx: int, cy: int): Byte
    requires IsFrameBuffer(fb0) && 0 <= cx < FRAME_BUFFER_WIDTH && 0 <= cy < FRAME_BUFFER_HEIGHT
  {
    if Covered(sprite, x, y, cx, cy) &&
       Before((cy - y) % FRAME_BUFFER_HEIGHT, (cx - x) % FRAME_BUFFER_WIDTH, i, j)
    then ByteXor(fb0[cx][cy], 1) else fb0[cx][cy]
  }

  ghost predicate DrawnUpTo(fb: array2<Byte>, fb0: seq<seq<Byte>>, sprite: seq<Byte>, x: int, y: int, i: int, j: int)
    reads fb
    requires IsFrameBuffer(fb0)
  {
    fb.Length0 == FRAME_BUFFER_WIDTH && fb.Length1 == FRAME_BUFFER_HEIGHT &&
    forall cx, cy :: 0 <= cx < FRAME_BUFFER_WIDTH && 0 <= cy < FRAME_BUFFER_HEIGHT ==>
      fb[cx, cy] == DrawnCell(fb0, sprite, x, y, i, j, cx, cy)
  }

  /** Some set bit visited before (i, j) fell on a non-zero cell of the original frame. */
  predicate CollidedBefore(fb0: seq<seq<Byte>>, sprite: seq<Byte>, x: int, y: int, i: int, j: int)
    requires IsFrameBuffer(fb0)
  {
    exists i', j' :: 0 <= i' < |sprite| && 0 <= j' < BITS_PER_BYTE && Before(i', j', i, j) &&
      SpriteBit(sprite, i', j') && fb0[(x + j') % FRAME_BUFFER_WIDTH][(y + i') % FRAME_BUFFER_HEIGHT] != 0
  }

  lemma CollidedStep(fb0: seq<seq<Byte>>, sprite: seq<Byte>, x: int, y: int, i: int, j: int)
    requires IsFrameBuffer(fb0) && 0 <= i < |sprite| && 0 <= j < BITS_PER_BYTE
    ensures CollidedBefore(fb0, sprite, x, y, i, j + 1) <==>
      CollidedBefore(fb0, sprite, x, y, i, j) ||
      (SpriteBit(sprite, i, j) && fb0[(x + j) % FRAME_BUFFER_WIDTH][(y + i) % FRAME_BUFFER_HEIGHT] != 0)
  {
    if CollidedBefore(fb0, sprite, x, y, i, j + 1) {
      var i', j' :| 0 <= i' < |sprite| && 0 <= j' < BITS_PER_BYTE && Before(i', j', i, j + 1) &&
        SpriteBit(sprite, i', j') && fb0[(x + j') % FRAME_BUFFER_WIDTH][(y + i') % FRAME_BUFFER_HEIGHT] != 0;
      if !(i' == i && j' == j) {
        assert Before(i', j', i, j);
      }
    }
  }

  lemma CollidedRow(fb0: seq<seq<Byte>>, sprite: seq<Byte>, x: int, y: int, i: int)
    requires IsFrameBuffer(fb0)
    ensures CollidedBefore(fb0, sprite, x, y, i, BITS_PER_BYTE) <==> CollidedBefore(fb0, sprite, x, y, i + 1, 0)
  {
    if CollidedBefore(fb0, sprite, x, y, i + 1, 0) {
      var i', j' :| 0 <= i' < |sprite| && 0 <= j' < BITS_PER_BYTE && Before(i', j', i + 1, 0) &&
        SpriteBit(sprite, i', j') && fb0[(x + j') % FRAME_BUFFER_WIDTH][(y + i') % FRAME_BUFFER_HEIGHT] != 0;
      assert Before(i', j', i, BITS_PER_BYTE);
    }
  }

  lemma DrawnRow(fb0: seq<seq<Byte>>, sprite: seq<Byte>, x: int, y: int, i: int, cx: int, cy: int)
    requires IsFrameBuffer(fb0) && 0 <= cx < FRAME_BUFFER_WIDTH && 0 <= cy < FRAME_BUFFER_HEIGHT
    ensures DrawnCell(fb0, sprite, x, y, i, BITS_PER_BYTE, cx, cy) == DrawnCell(fb0, sprite, x, y, i + 1, 0, cx, cy)
  {
  }

  lemma DrawnAll(fb0: seq<seq<Byte>>, sprite: seq<Byte>, x: int, y: int, cx: int, cy: int)
    requires IsFrameBuffer(fb0) && 0 <= cx < FRAME_BUFFER_WIDTH && 0 <= cy < FRAME_BUFFER_HEIGHT
    ensures DrawnCell(fb0, sprite, x, y, |sprite|, 0, cx, cy) == DrawFrame(fb0, sprite, x, y)[cx][cy]
  {
  }

  /** What one step of the draw loop, at sprite bit (i, j), may rely on: the mask test is
      the sprite bit, the visited cell still holds its original value, and it is the only
      cell whose expected value changes. */
  lemma DrawBitStep(fb0: seq<seq<Byte>>, sprite: seq<Byte>, x: int, y: int, i: int, j: int, bits: Byte)
    requires IsFrameBuffer(fb0) && 0 <= i < |sprite| && i < FRAME_BUFFER_HEIGHT && 0 <= j < BITS_PER_BYTE
    requires bits == sprite[i]
    ensures Pow2(BITS_PER_BYTE - j - 1) < 256
    ensures ByteAnd(bits, Pow2(BITS_PER_BYTE - j - 1)) != 0 <==> SpriteBit(sprite, i, j)
    ensures var cx, cy := (x + j) % FRAME_BUFFER_WIDTH, (y + i) % FRAME_BUFFER_HEIGHT;
      DrawnCell(fb0, sprite, x, y, i, j, cx, cy) == fb0[cx][cy] &&
      DrawnCell(fb0, sprite, x, y, i, j + 1, cx, cy) ==
        (if SpriteBit(sprite, i, j) then ByteXor(fb0[cx][cy], 1) else fb0[cx][cy]) &&
      (forall cx', cy' ::
        (0 <= cx' < FRAME_BUFFER_WIDTH && 0 <= cy' < FRAME_BUFFER_HEIGHT && (cx' != cx || cy' != cy)) ==>
        DrawnCell(fb0, sprite, x, y, i, j + 1, cx', cy') == DrawnCell(fb0, sprite, x, y, i, j, cx', cy'))
    ensures forall v: Byte :: ByteXor(v, 0) == v
    ensures CollidedBefore(fb0, sprite, x, y, i, j + 1) <==>
      CollidedBefore(fb0, sprite, x, y, i, j) ||
      (SpriteBit(sprite, i, j) && fb0[(x + j) % FRAME_BUFFER_WIDTH][(y + i) % FRAME_BUFFER_HEIGHT] != 0)
  {
    Pow2Byte();
    AndPow2IsBitTest(bits, BITS_PER_BYTE - j - 1, BITS_PER_BYTE);
    DrawnCellStep(fb0, sprite, x, y, i, j);
    forall v: Byte
      ensures ByteXor(v, 0) == v
    {
      XorZeroIdentity(v, BITS_PER_BYTE);
    }
    CollidedStep(fb0, sprite, x, y, i, j);
  }

  /** Visiting bit (i, j) changes the expected value of its own cell only. */
  lemma DrawnCellStep(fb0: seq<seq<Byte>>, sprite: seq<Byte>, x: int, y: int, i: int, j: int)
    requires IsFrameBuffer(fb0) && 0 <= i < |sprite| && i < FRAME_BUFFER_HEIGHT && 0 <= j < BITS_PER_BYTE
    ensures var cx, cy := (x + j) % FRAME_BUFFER_WIDTH, (y + i) % FRAME_BUFFER_HEIGHT;
      DrawnCell(fb0, sprite, x, y, i, j, cx, cy) == fb0[cx][cy] &&
      DrawnCell(fb0, sprite, x, y, i, j + 1, cx, cy) ==
        (if SpriteBit(sprite, i, j) then ByteXor(fb0[cx][cy], 1) else fb0[cx][cy]) &&
      (forall cx', cy' ::
        (0 <= cx' < FRAME_BUFFER_WIDTH && 0 <= cy' < FRAME_BUFFER_HEIGHT && (cx' != cx || cy' != cy)) ==>
        DrawnCell(fb0, sprite, x, y, i, j + 1, cx', cy') == DrawnCell(fb0, sprite, x, y, i, j, cx', cy'))
  {
    var cx, cy := (x + j) % FRAME_BUFFER_WIDTH, (y + i) % FRAME_BUFFER_HEIGHT;
    VisitedCell(x, y, i, j, cx, cy);
    forall cx', cy' | 0 <= cx' < FRAME_BUFFER_WIDTH && 0 <= cy' < FRAME_BUFFER_HEIGHT && (cx' != cx || cy' != cy)
      ensures DrawnCell(fb0, sprite, x, y, i, j + 1, cx', cy') == DrawnCell(fb0, sprite, x, y, i, j, cx', cy')
    {
      VisitedCell(x, y, i, j, cx', cy');
    }
  }

  class Executor {
    const machine: Machine

    constructor (m: Machine)
      ensures machine == m
    {
      machine := m;
    }

    /** execute: dispatches on the instruction's category through the handler table. */
    method Execute(ins: Instruction, env: Env) returns (status: Status)
      requires machine.Valid()
      modifies machine, machine.memory, machine.registers, machine.stack, machine.frameBuffer
      ensures machine.Valid()
      ensures Outcome(old(machine.State()), machine.State(), status,
        Semantics.Execute(old(machine.State()), machine.keyboard.statuses, ins, env))
    {
      var p := ins.payload;
      match ins.category
      case 0x0 => status := Category0(p);
      case 0x1 => status := Jump(p);
      case 0x2 => status := SubroutineCall(p);
      case 0x3 => SkipIfVxEqNn(p); status := Completed;
      case 0x4 => SkipIfVxNeqNn(p); status := Completed;
      case 0x5 => status := SkipIfVxEqVy(p);
      case 0x6 => SetRegister(p); status := Completed;
      case 0x7 => IncRegByConst(p); status := Completed;
      case 0x8 => status := OperateAndAssign(p, env);
      case 0x9 => status := SkipIfVxNeqVy(p);
      case 0xA => SetIndexRegister(p); status := Completed;
      case 0xB => JumpWithOffset(p); status := Completed;
      case 0xC => SetRandom(p, env); status := Completed;
      case 0xD => status := Draw(p);
      case 0xE => status := SkipCondKey(p);
      case _ => status := CategoryF(p, env);
    }

    /** 00E0 clears the screen, 00EE returns; every other 0NNN (a machine call) throws. */
    method Category0(p: Payload) returns (status: Status)
      requires machine.Valid()
      modifies machine, machine.frameBuffer
      ensures machine.Valid()
      ensures Outcome(old(machine.State()), machine.State(), status, Semantics.Category0(old(machine.State()), p))
    {
      if p.x == 0x0 && p.y == 0xE && p.n == 0x0 {
        ClearScreen();
        status := Completed;
      } else if p.x == 0x0 && p.y == 0xE && p.n == 0xE {
        status := Return();
      } else {
        status := Threw(MachineCallUnsupported);
      }
    }

    /** Sets every frame-buffer cell to 0. */
    method ClearScreen()
      requires machine.Valid()
      modifies machine.frameBuffer
      ensures machine.State() == Semantics.ClearScreen(old(machine.State()))
    {
      ghost var before := machine.State();
      forall x, y | 0 <= x < FRAME_BUFFER_WIDTH && 0 <= y < FRAME_BUFFER_HEIGHT {
        machine.frameBuffer[x, y] := 0;
      }
      FrameOfPointwise(machine.frameBuffer, BlankFrameBuffer());
      assert machine.memory[..] == before.memory && machine.registers[..] == before.registers;
      assert machine.stack[..] == before.stack;
    }

    /** Pops the return address into pc; an empty stack throws. */
    method Return() returns (status: Status)
      requires machine.Valid()
      modifies machine
      ensures machine.Valid()
      ensures Outcome(old(machine.State()), machine.State(), status, Semantics.Return(old(machine.State())))
    {
      if machine.stackPointer == 0 {
        return Threw(NothingToReturnTo);
      }
      machine.stackPointer := machine.stackPointer - 1;
      machine.pc := machine.stack[machine.stackPointer];
      status := Completed;
    }

    method Jump(p: Payload) returns (status: Status)
      requires machine.Valid()
      modifies machine
      ensures machine.Valid()
      ensures Outcome(old(machine.State()), machine.State(), status, Semantics.Jump(old(machine.State()), p))
    {
      if p.nnn >= machine.memory.Length {
        return Threw(JumpOutOfRange);
      }
      machine.pc := p.nnn;
      status := Completed;
    }

    method SubroutineCall(p: Payload) returns (status: Status)
      requires machine.Valid()
      modifies machine, machine.stack
      ensures machine.Valid()
      ensures Outcome(old(machine.State()), machine.State(), status, Semantics.SubroutineCall(old(machine.State()), p))
    {
      if p.nnn >= machine.memory.Length {
        return Threw(SubroutineOutOfRange);
      }
      if machine.stackPointer >= machine.stack.Length {
        return Threw(CallLimitReached);
      }
      machine.stack[machine.stackPointer] := machine.pc;
      machine.stackPointer := machine.stackPointer + 1;
      machine.pc := p.nnn;
      status := Completed;
    }

    method SkipIfVxEqNn(p: Payload)
      requires machine.Valid()
      modifies machine
      ensures machine.Valid()
      ensures machine.State() == Semantics.SkipIfVxEqNn(old(machine.State()), p)
    {
      if machine.registers[p.x] == p.nn {
        machine.pc := ToDoubleByte(machine.pc + INSTRUCTION_SIZE);
      }
    }

    method SkipIfVxNeqNn(p: Payload)
      requires machine.Valid()
      modifies machine
      ensures machine.Valid()
      ensures machine.State() == Semantics.SkipIfVxNeqNn(old(machine.State()), p)
    {
      if machine.registers[p.x] != p.nn {
        machine.pc := ToDoubleByte(machine.pc + INSTRUCTION_SIZE);
      }
    }

    method SkipIfVxEqVy(p: Payload) returns (status: Status)
      requires machine.Valid()
      modifies machine
      ensures machine.Valid()
      ensures Outcome(old(machine.State()), machine.State(), status, Semantics.SkipIfVxEqVy(old(machine.State()), p))
    {
      if p.n != 0 {
        return Threw(BadFormat(0x5));
      }
      if machine.registers[p.x] == machine.registers[p.y] {
        machine.pc := ToDoubleByte(machine.pc + INSTRUCTION_SIZE);
      }
      status := Completed;
    }

    method SetRegister(p: Payload)
      requires machine.Valid()
      modifies machine.registers
      ensures machine.State() == Semantics.SetRegister(old(machine.State()), p)
    {
      machine.registers[p.x] := p.nn;
    }

    method IncRegByConst(p: Payload)
      requires machine.Valid()
      modifies machine.registers
      ensures machine.State() == Semantics.IncRegByConst(old(machine.State()), p)
    {
      machine.registers[p.x] := ToByte(machine.registers[p.x] + p.nn);
    }

    method OperateAndAssign(p: Payload, env: Env) returns (status: Status)
      requires machine.Valid()
      modifies machine.registers
      ensures Outcome(old(machine.State()), machine.State(), status, Semantics.OperateAndAssign(old(machine.State()), p, env))
    {
      var regs := machine.registers;
      var vx, vy := regs[p.x], regs[p.y];
      status := Completed;
      match p.n
      case 0x0 =>
        regs[p.x] := vy;
      case 0x1 =>
        AssignWithFlag(p.x, ByteOr(vx, vy), 0);
      case 0x2 =>
        AssignWithFlag(p.x, ByteAnd(vx, vy), 0);
      case 0x3 =>
        AssignWithFlag(p.x, ByteXor(vx, vy), 0);
      case 0x4 =>
        var sum: int := vx as int + vy;
        AssignWithFlag(p.x, ToByte(sum), if sum > 0xFF then 1 else 0);
      case 0x5 =>
        var diff: int := vx as int - vy;
        AssignWithFlag(p.x, ToByte(diff), if diff >= 0 then 1 else 0);
      case 0x6 =>
        var lsb := env.lsb(vy);
        AssignWithFlag(p.x, vy / 2, ToByte(lsb));
      case 0x7 =>
        var diff: int := vy as int - vx;
        AssignWithFlag(p.x, ToByte(diff), if diff >= 0 then 1 else 0);
      case 0xE =>
        var msb := env.msb(vy);
        AssignWithFlag(p.x, ToByte(vy as int * 2), ToByte(msb));
      case _ =>
        status := Threw(BadFormat(0x8));
    }

    /** VX := value, then VF := flag: when X is F the flag is what remains. */
    method AssignWithFlag(x: Nibble, value: Byte, flag: Byte)
      requires machine.Valid()
      modifies machine.registers
      ensures machine.State() == WithRegister(WithRegister(old(machine.State()), x, value), FLAG, flag)
    {
      machine.registers[x] := value;
      machine.registers[FLAG] := flag;
    }

    method SkipIfVxNeqVy(p: Payload) returns (status: Status)
      requires machine.Valid()
      modifies machine
      ensures machine.Valid()
      ensures Outcome(old(machine.State()), machine.State(), status, Semantics.SkipIfVxNeqVy(old(machine.State()), p))
    {
      if p.n != 0 {
        return Threw(BadFormat(0x9));
      }
      if machine.registers[p.x] != machine.registers[p.y] {
        machine.pc := ToDoubleByte(machine.pc + INSTRUCTION_SIZE);
      }
      status := Completed;
    }

    method SetIndexRegister(p: Payload)
      requires machine.Valid()
      modifies machine
      ensures machine.Valid()
      ensures machine.State() == Semantics.SetIndexRegister(old(machine.State()), p)
    {
      machine.indexRegister := p.nnn;
    }

    method JumpWithOffset(p: Payload)
      requires machine.Valid()
      modifies machine
      ensures machine.Valid()
      ensures machine.State() == Semantics.JumpWithOffset(old(machine.State()), p)
    {
      machine.pc := ToDoubleByte(machine.registers[0] + p.nnn);
    }

    /** VX := random & NN, where env.random stands for rand() % 256. */
    method SetRandom(p: Payload, env: Env)
      requires machine.Valid()
      modifies machine.registers
      ensures machine.State() == Semantics.SetRandom(old(machine.State()), p, env)
    {
      var random := env.random;
      machine.registers[p.x] := ByteAnd(random, p.nn);
    }

    /** DXYN: VF := 1 when some set sprite bit met a non-zero cell, else 0. Reading the
        sprite past the end of memory is a fault. */
    method Draw(p: Payload) returns (status: Status)
      requires machine.Valid()
      modifies machine.registers, machine.frameBuffer
      ensures Outcome(old(machine.State()), machine.State(), status, Semantics.Draw(old(machine.State()), p))
    {
      var x := machine.registers[p.x];
      var y := machine.registers[p.y];
      if p.n != 0 && machine.indexRegister + p.n > machine.memory.Length {
        return Threw(MemoryAccessOutOfRange);
      }
      ghost var sprite := if p.n == 0 then [] else machine.memory[machine.indexRegister .. machine.indexRegister + p.n];
      var vfFlagVal := ToggleSprite(x, y, p.n, sprite);
      machine.registers[FLAG] := vfFlagVal;
      status := Completed;
    }

    /** The loops of DXYN: for each sprite row i < N and bit j, a set bit XOR-toggles cell
        ((x + j) mod 64, (y + i) mod 32) and a clear bit XORs it with 0 (the outer loop here,
        the inner one in ToggleRow). The result is the VF value. */
    method ToggleSprite(x: Byte, y: Byte, n: Nibble, ghost sprite: seq<Byte>) returns (vfFlagVal: Byte)
      requires machine.Valid()
      requires n == 0 || machine.indexRegister + n <= MEMORY_SIZE
      requires sprite == if n == 0 then [] else machine.memory[machine.indexRegister .. machine.indexRegister + n]
      modifies machine.frameBuffer
      ensures IsFrameBuffer(old(FrameOf(machine.frameBuffer)))
      ensures FrameOf(machine.frameBuffer) == DrawFrame(old(FrameOf(machine.frameBuffer)), sprite, x, y)
      ensures vfFlagVal == if Collision(old(FrameOf(machine.frameBuffer)), sprite, x, y) then 1 else 0
    {
      ghost var fb0 := FrameOf(machine.frameBuffer);
      vfFlagVal := 0;
      var i := 0;
      while i < n
        invariant 0 <= i <= n
        invariant DrawnUpTo(machine.frameBuffer, fb0, sprite, x, y, i, 0)
        invariant vfFlagVal == if CollidedBefore(fb0, sprite, x, y, i, 0) then 1 else 0
      {
        var bits := machine.memory[machine.indexRegister + i];
        vfFlagVal := ToggleRow(x, y, i, bits, vfFlagVal, sprite, fb0);
        CollidedRow(fb0, sprite, x, y, i);
        i := i + 1;
      }
      forall cx, cy | 0 <= cx < FRAME_BUFFER_WIDTH && 0 <= cy < FRAME_BUFFER_HEIGHT
        ensures machine.frameBuffer[cx, cy] == DrawFrame(fb0, sprite, x, y)[cx][cy]
      {
        DrawnAll(fb0, sprite, x, y, cx, cy);
      }
      FrameOfPointwise(machine.frameBuffer, DrawFrame(fb0, sprite, x, y));
    }

    /** The inner loop of DXYN, over the eight bits of sprite row i. */
    method ToggleRow(x: Byte, y: Byte, i: int, bits: Byte, vfIn: Byte,
                     ghost sprite: seq<Byte>, ghost fb0: seq<seq<Byte>>) returns (vfFlagVal: Byte)
      requires machine.Valid() && IsFrameBuffer(fb0)
      requires 0 <= i < |sprite| && i < FRAME_BUFFER_HEIGHT && bits == sprite[i]
      requires DrawnUpTo(machine.frameBuffer, fb0, sprite, x, y, i, 0)
      requires vfIn == if CollidedBefore(fb0, sprite, x, y, i, 0) then 1 else 0
      modifies machine.frameBuffer
      ensures DrawnUpTo(machine.frameBuffer, fb0, sprite, x, y, i + 1, 0)
      ensures vfFlagVal == if CollidedBefore(fb0, sprite, x, y, i + 1, 0) then 1 else 0
    {
      vfFlagVal := vfIn;
      var j := 0;
      while j < BITS_PER_BYTE
        invariant 0 <= j <= BITS_PER_BYTE
        invariant DrawnUpTo(machine.frameBuffer, fb0, sprite, x, y, i, j)
        invariant vfFlagVal == if CollidedBefore(fb0, sprite, x, y, i, j) then 1 else 0
      {
        vfFlagVal := ToggleBit(x, y, i, j, bits, vfFlagVal, sprite, fb0);
        j := j + 1;
      }
      forall cx, cy | 0 <= cx < FRAME_BUFFER_WIDTH && 0 <= cy < FRAME_BUFFER_HEIGHT
        ensures DrawnCell(fb0, sprite, x, y, i, BITS_PER_BYTE, cx, cy) == DrawnCell(fb0, sprite, x, y, i + 1, 0, cx, cy)
      {
        DrawnRow(fb0, sprite, x, y, i, cx, cy);
      }
      CollidedRow(fb0, sprite, x, y, i);
    }

    /** The body of the inner loop of DXYN, for bit j of sprite row i: a clear bit XORs its
        cell with 0, a set bit records a collision with a lit cell and XORs the cell with 1. */
    method ToggleBit(x: Byte, y: Byte, i: int, j: int, bits: Byte, vfIn: Byte,
                     ghost sprite: seq<Byte>, ghost fb0: seq<seq<Byte>>) returns (vfFlagVal: Byte)
      requires machine.Valid() && IsFrameBuffer(fb0)
      requires 0 <= i < |sprite| && i < FRAME_BUFFER_HEIGHT && bits == sprite[i] && 0 <= j < BITS_PER_BYTE
      requires DrawnUpTo(machine.frameBuffer, fb0, sprite, x, y, i, j)
      requires vfIn == if CollidedBefore(fb0, sprite, x, y, i, j) then 1 else 0
      modifies machine.frameBuffer
      ensures DrawnUpTo(machine.frameBuffer, fb0, sprite, x, y, i, j + 1)
      ensures vfFlagVal == if CollidedBefore(fb0, sprite, x, y, i, j + 1) then 1 else 0
    {
      DrawBitStep(fb0, sprite, x, y, i, j, bits);
      vfFlagVal := vfIn;
      var bit := ByteAnd(bits, Pow2(BITS_PER_BYTE - j - 1));
      var cx := (x + j) % machine.frameBuffer.Length0;
      var cy := (y + i) % machine.frameBuffer.Length1;
      if bit == 0 {
        machine.frameBuffer[cx, cy] := ByteXor(machine.frameBuffer[cx, cy], 0);
      } else {
        if machine.frameBuffer[cx, cy] != 0 {
          vfFlagVal := 1;
        }
        machine.frameBuffer[cx, cy] := ByteXor(machine.frameBuffer[cx, cy], 1);
      }
    }

    /** EX9E skips when key VX is pressed, EXA1 when it is not; VX is cast to Key, and a
        key with no entry in the table throws. Any other NN throws. */
    method SkipCondKey(p: Payload) returns (status: Status)
      requires machine.Valid()
      modifies machine
      ensures machine.Valid()
      ensures Outcome(old(machine.State()), machine.State(), status,
        Semantics.SkipCondKey(old(machine.State()), machine.keyboard.statuses, p))
    {
      if p.nn == 0x9E || p.nn == 0xA1 {
        var key: Key := machine.registers[p.x];
        var pressed := machine.keyboard.IsKeyPressed(key);
        match pressed
        case Err(_) =>
          return Threw(KeyNotInTable(key));
        case Ok(isPressed) =>
          if (p.nn == 0x9E && isPressed) || (p.nn == 0xA1 && !isPressed) {
            machine.pc := ToDoubleByte(machine.pc + INSTRUCTION_SIZE);
          }
        status := Completed;
      } else {
        status := Threw(BadFormat(0xE));
      }
    }

    method CategoryF(p: Payload, env: Env) returns (status: Status)
      requires machine.Valid()
      modifies machine, machine.memory, machine.registers
      ensures machine.Valid()
      ensures Outcome(old(machine.State()), machine.State(), status,
        Semantics.CategoryF(old(machine.State()), machine.keyboard.statuses, p, env))
    {
      status := Completed;
      match p.nn
      case 0x07 =>
        machine.registers[p.x] := machine.delayTimer;
      case 0x0A =>
        WaitForKey(p.x);
      case 0x15 =>
        machine.delayTimer := machine.registers[p.x];
      case 0x18 =>
        machine.soundTimer := machine.registers[p.x];
      case 0x1E =>
        machine.indexRegister := ToDoubleByte(machine.indexRegister + machine.registers[p.x]);
      case 0x29 =>
        var num := machine.registers[p.x];
        machine.indexRegister := env.spriteStart(num);
      case 0x33 =>
        var digits := env.digits(machine.registers[p.x]);
        status := StoreDigits(digits);
      case 0x55 =>
        status := StoreRegisters(p.x);
      case 0x65 =>
        status := LoadRegisters(p.x);
      case _ =>
        status := Threw(BadFormat(0xF));
    }

    /** FX0A: sets is_blocked, then scans K0..KF; the first pressed key goes to VX and
        clears is_blocked. */
    method WaitForKey(x: Nibble)
      requires machine.Valid()
      modifies machine, machine.registers
      ensures machine.Valid()
      ensures machine.State() == Semantics.WaitForKey(old(machine.State()), machine.keyboard.statuses, x)
    {
      machine.isBlocked := true;
      var k := K0;
      while k <= KF
        invariant K0 <= k <= KF + 1
        invariant machine.Valid()
        invariant FirstPressedFrom(machine.keyboard.statuses, K0) == FirstPressedFrom(machine.keyboard.statuses, k)
        invariant machine.State() == old(machine.State()).(isBlocked := true)
      {
        var pressed := machine.keyboard.IsKeyPressed(k);
        if pressed.Ok? && pressed.value {
          machine.registers[x] := k;
          machine.isBlocked := false;
          return;
        }
        k := k + 1;
      }
    }

    /** FX33: writes the digits from I on, I unchanged. */
    method StoreDigits(digits: seq<int>) returns (status: Status)
      requires machine.Valid()
      modifies machine.memory
      ensures Outcome(old(machine.State()), machine.State(), status, Semantics.StoreDigits(old(machine.State()), digits))
    {
      if |digits| > 0 && machine.indexRegister + |digits| > machine.memory.Length {
        return Threw(MemoryAccessOutOfRange);
      }
      var i := 0;
      var sz := |digits|;
      while i < sz
        invariant 0 <= i <= sz
        invariant forall a :: 0 <= a < MEMORY_SIZE ==>
          machine.memory[a] == if machine.indexRegister <= a < machine.indexRegister + i
            then ToByte(digits[a - machine.indexRegister]) else old(machine.memory[a])
      {
        machine.memory[machine.indexRegister + i] := ToByte(digits[i]);
        i := i + 1;
      }
      status := Completed;
    }

    /** FX55: memory[I++] := Vi for i = 0..X. */
    method StoreRegisters(x: Nibble) returns (status: Status)
      requires machine.Valid()
      modifies machine, machine.memory
      ensures machine.Valid()
      ensures Outcome(old(machine.State()), machine.State(), status, Semantics.StoreRegisters(old(machine.State()), x))
    {
      if machine.indexRegister + x >= machine.memory.Length {
        return Threw(MemoryAccessOutOfRange);
      }
      ghost var start := machine.indexRegister;
      var i := 0;
      while i <= x
        invariant 0 <= i <= x + 1
        invariant machine.indexRegister == start + i
        invariant machine.State() == old(machine.State()).(memory := machine.memory[..], indexRegister := machine.indexRegister)
        invariant forall a :: 0 <= a < MEMORY_SIZE ==>
          machine.memory[a] == if start <= a < start + i then machine.registers[a - start] else old(machine.memory[a])
      {
        machine.memory[machine.indexRegister] := machine.registers[i];
        machine.indexRegister := machine.indexRegister + 1;
        i := i + 1;
      }
      status := Completed;
    }

    /** FX65: Vi := memory[I++] for i = 0..X. */
    method LoadRegisters(x: Nibble) returns (status: Status)
      requires machine.Valid()
      modifies machine, machine.registers
      ensures machine.Valid()
      ensures Outcome(old(machine.State()), machine.State(), status, Semantics.LoadRegisters(old(machine.State()), x))
    {
      if machine.indexRegister + x >= machine.memory.Length {
        return Threw(MemoryAccessOutOfRange);
      }
      ghost var start := machine.indexRegister;
      var i := 0;
      while i <= x
        invariant 0 <= i <= x + 1
        invariant machine.indexRegister == start + i
        invariant machine.State() == old(machine.State()).(registers := machine.registers[..], indexRegister := machine.indexRegister)
        invariant forall r :: 0 <= r < NUM_REGISTERS ==>
          machine.registers[r] == if r < i then machine.memory[start + r] else old(machine.registers[r])
      {
        machine.registers[i] := machine.memory[machine.indexRegister];
        machine.indexRegister := machine.indexRegister + 1;
        i := i + 1;
      }
      status := Completed;
    }
  }
}
