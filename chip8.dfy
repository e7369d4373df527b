/** The CHIP-8 machine: its state fields, the snapshot of them (Machine_state), its
    construction, and loading fonts and programs into memory. */
module Chip8 {
  import opened MachineSpecs
  import opened DataTypes
  import opened FontData
  import opened Helpers
  import Keys

  /** The operand fields of a decoded instruction. X, Y and N are nibbles and NN a byte;
      NNN is kept as a double_byte, so the executor's range checks on it are live. */
  datatype Payload = Payload(x: Nibble, y: Nibble, n: Nibble, nn: Byte, nnn: DoubleByte)

  /** A decoded instruction: its category (the first nibble) and its operands. */
  datatype Instruction = Instruction(category: Nibble, payload: Payload)

  /** Every state field of the machine except the keyboard: the Machine_state snapshot the
      debugger takes, and the value the executor's semantics work on. */
  datatype MachineState = MachineState(
    memory: seq<Byte>,
    registers: seq<Byte>,
    stack: seq<DoubleByte>,
    frameBuffer: seq<seq<Byte>>,
    pc: DoubleByte,
    indexRegister: DoubleByte,
    stackPointer: Byte,
    delayTimer: Byte,
    soundTimer: Byte,
    isBlocked: bool)

  /** The array sizes of CHIP-8.hpp, and a stack pointer that never passes the stack's end. */
  predicate WellFormed(s: MachineState)
  {
    |s.memory| == MEMORY_SIZE &&
    |s.registers| == NUM_REGISTERS &&
    |s.stack| == STACK_ENTRIES &&
    IsFrameBuffer(s.frameBuffer) &&
    s.stackPointer <= STACK_ENTRIES
  }

  /** Memory after load_fonts: glyph d's byte j at FONT_DATA_START_LOCATION + 5 * d + j. */
  function FontImage(mem: seq<Byte>, font: seq<seq<Byte>>): (r: seq<Byte>)
    requires |mem| == MEMORY_SIZE && IsFontTable(font)
    ensures |r| == MEMORY_SIZE
  {
    seq(|mem|, a requires 0 <= a < |mem| =>
      if FONT_DATA_START_LOCATION <= a < FONT_DATA_START_LOCATION + FONT_NUM_CHARS * FONT_CHAR_SIZE
      then font[(a - FONT_DATA_START_LOCATION) / FONT_CHAR_SIZE][(a - FONT_DATA_START_LOCATION) % FONT_CHAR_SIZE]
      else mem[a])
  }

  /** Memory after load_program as written: program word i, truncated to a byte, at
      PROGRAM_DATA_START_LOCATION + i. */
  function ProgramImage(mem: seq<Byte>, program: seq<InstructionWord>): (r: seq<Byte>)
    requires |mem| == MEMORY_SIZE && |program| == MAX_NUM_INSTRUCTIONS
    ensures |r| == MEMORY_SIZE
  {
    seq(|mem|, a requires 0 <= a < |mem| =>
      if PROGRAM_DATA_START_LOCATION <= a < PROGRAM_DATA_START_LOCATION + MAX_NUM_INSTRUCTIONS
      then program[a - PROGRAM_DATA_START_LOCATION] % 256
      else mem[a])
  }

  /** Memory after loading the program word by word: word i big-endian at
      PROGRAM_DATA_START_LOCATION + 2 * i. */
  function WordImage(mem: seq<Byte>, program: seq<InstructionWord>): (r: seq<Byte>)
    requires |mem| == MEMORY_SIZE && |program| == MAX_NUM_INSTRUCTIONS
    ensures |r| == MEMORY_SIZE
  {
    seq(|mem|, a requires 0 <= a < |mem| =>
      if PROGRAM_DATA_START_LOCATION <= a then
        var w := program[(a - PROGRAM_DATA_START_LOCATION) / INSTRUCTION_SIZE];
        if (a - PROGRAM_DATA_START_LOCATION) % INSTRUCTION_SIZE == 0 then w / 256 else w % 256
      else mem[a])
  }

  /** The machine right after construction; is_blocked is not initialised by the
      constructor, so it is whatever `blocked` is. */
  function InitialState(blocked: bool): MachineState
  {
    MachineState(
      FontImage(seq(MEMORY_SIZE, _ => 0), FONT_DATA),
      seq(NUM_REGISTERS, _ => 0),
      seq(STACK_ENTRIES, _ => 0),
      BlankFrameBuffer(),
      PROGRAM_DATA_START_LOCATION, 0, 0, 0, 0, blocked)
  }

  /** The frame buffer array as a sequence of columns. */
  ghost function FrameOf(fb: array2<Byte>): seq<seq<Byte>>
    reads fb
  {
    seq(fb.Length0, x reads fb requires 0 <= x < fb.Length0 =>
      seq(fb.Length1, y reads fb requires 0 <= y < fb.Length1 => fb[x, y]))
  }

  lemma FrameOfPointwise(fb: array2<Byte>, f: seq<seq<Byte>>)
    requires fb.Length0 == |f|
    requires forall x :: 0 <= x < |f| ==> |f[x]| == fb.Length1
    requires forall x, y :: 0 <= x < fb.Length0 && 0 <= y < fb.Length1 ==> fb[x, y] == f[x][y]
    ensures FrameOf(fb) == f
  {
    var g := FrameOf(fb);
    forall x | 0 <= x < |f|
      ensures g[x] == f[x]
    {
      assert |g[x]| == |f[x]|;
      forall y | 0 <= y < |f[x]|
        ensures g[x][y] == f[x][y]
      {
      }
    }
  }

  class Machine {
    const keyboard: Keys.Keyboard
    const memory: array<Byte>
    const registers: array<Byte>
    const stack: array<DoubleByte>
    const frameBuffer: array2<Byte>
    var pc: DoubleByte
    var indexRegister: DoubleByte
    var stackPointer: Byte
    var delayTimer: Byte
    var soundTimer: Byte
    var isBlocked: bool

    ghost predicate Valid()
      reads this, keyboard
    {
      memory.Length == MEMORY_SIZE &&
      registers.Length == NUM_REGISTERS &&
      stack.Length == STACK_ENTRIES &&
      frameBuffer.Length0 == FRAME_BUFFER_WIDTH &&
      frameBuffer.Length1 == FRAME_BUFFER_HEIGHT &&
      memory != registers &&
      stackPointer <= STACK_ENTRIES &&
      keyboard.Valid()
    }

    /** The snapshot of every state field except the keyboard. */
    ghost function State(): MachineState
      reads this, memory, registers, stack, frameBuffer
    {
      MachineState(memory[..], registers[..], stack[..], FrameOf(frameBuffer),
        pc, indexRegister, stackPointer, delayTimer, soundTimer, isBlocked)
    }

    lemma StateWellFormed()
      requires Valid()
      ensures WellFormed(State())
    {
    }

    /** Zeroes every field it initialises, sets pc to the program start, and loads the
        font table; the keyboard starts with K0..KF released. */
    constructor ()
      ensures Valid()
      ensures fresh(keyboard) && fresh(memory) && fresh(registers) && fresh(stack) && fresh(frameBuffer)
      ensures State() == InitialState(isBlocked)
      ensures forall k :: k in keyboard.statuses <==> Keys.K0 <= k <= Keys.KF
      ensures forall k :: k in keyboard.statuses ==> !keyboard.statuses[k]
    {
      keyboard := new Keys.Keyboard();
      memory := new Byte[MEMORY_SIZE](_ => 0);
      registers := new Byte[NUM_REGISTERS](_ => 0);
      stack := new DoubleByte[STACK_ENTRIES](_ => 0);
      frameBuffer := new Byte[FRAME_BUFFER_WIDTH, FRAME_BUFFER_HEIGHT]((_, _) => 0);
      pc := PROGRAM_DATA_START_LOCATION;
      indexRegister := 0;
      stackPointer := 0;
      delayTimer := 0;
      soundTimer := 0;
      new;
      FontShape();
      LoadFonts(FONT_DATA_START_LOCATION, FONT_DATA);
      FrameOfPointwise(frameBuffer, BlankFrameBuffer());
      assert memory[..] == FontImage(seq(MEMORY_SIZE, _ => 0), FONT_DATA);
    }

    /** Copies the glyph table into memory at FONT_DATA_START_LOCATION. The start_location
        argument is only checked against the memory size; the writes ignore it. */
    method LoadFonts(startLocation: DoubleByte, fontData: seq<seq<Byte>>)
      requires memory.Length == MEMORY_SIZE
      requires startLocation < MEMORY_SIZE
      requires IsFontTable(fontData)
      modifies memory
      ensures memory[..] == FontImage(old(memory[..]), fontData)
    {
      var i := 0;
      while i < FONT_NUM_CHARS
        invariant 0 <= i <= FONT_NUM_CHARS
        invariant forall a :: 0 <= a < MEMORY_SIZE ==> (memory[a] ==
          if FONT_DATA_START_LOCATION <= a < FONT_DATA_START_LOCATION + FONT_CHAR_SIZE * i
          then fontData[(a - FONT_DATA_START_LOCATION) / FONT_CHAR_SIZE][(a - FONT_DATA_START_LOCATION) % FONT_CHAR_SIZE]
          else old(memory[a]))
      {
        var j := 0;
        while j < FONT_CHAR_SIZE
          invariant 0 <= j <= FONT_CHAR_SIZE
          invariant forall a :: 0 <= a < MEMORY_SIZE ==> (memory[a] ==
            if FONT_DATA_START_LOCATION <= a < FONT_DATA_START_LOCATION + FONT_CHAR_SIZE * i + j
            then fontData[(a - FONT_DATA_START_LOCATION) / FONT_CHAR_SIZE][(a - FONT_DATA_START_LOCATION) % FONT_CHAR_SIZE]
            else old(memory[a]))
        {
          memory[FONT_DATA_START_LOCATION + FONT_CHAR_SIZE * i + j] := fontData[i][j];
          j := j + 1;
        }
        i := i + 1;
      }
    }

    /** load_program as written: each instruction word, truncated to a byte, goes to one
        memory cell from PROGRAM_DATA_START_LOCATION on. */
    method LoadProgram(program: seq<InstructionWord>)
      requires memory.Length == MEMORY_SIZE
      requires |program| == MAX_NUM_INSTRUCTIONS
      modifies memory
      ensures memory[..] == ProgramImage(old(memory[..]), program)
    {
      var i := 0;
      while i < MAX_NUM_INSTRUCTIONS
        invariant 0 <= i <= MAX_NUM_INSTRUCTIONS
        invariant forall a :: 0 <= a < MEMORY_SIZE ==> (memory[a] ==
          if PROGRAM_DATA_START_LOCATION <= a < PROGRAM_DATA_START_LOCATION + i
          then ToByte(program[a - PROGRAM_DATA_START_LOCATION])
          else old(memory[a]))
      {
        memory[i + PROGRAM_DATA_START_LOCATION] := ToByte(program[i]);
        i := i + 1;
      }
    }

    /** The program loader corrected: each instruction word is stored as its two bytes,
        high byte first, filling the whole program area. */
    method LoadProgramWords(program: seq<InstructionWord>)
      requires memory.Length == MEMORY_SIZE
      requires |program| == MAX_NUM_INSTRUCTIONS
      modifies memory
      ensures memory[..] == WordImage(old(memory[..]), program)
    {
      var i := 0;
      while i < MAX_NUM_INSTRUCTIONS
        invariant 0 <= i <= MAX_NUM_INSTRUCTIONS
        invariant forall a :: 0 <= a < MEMORY_SIZE ==> (memory[a] ==
          if PROGRAM_DATA_START_LOCATION <= a < PROGRAM_DATA_START_LOCATION + INSTRUCTION_SIZE * i
          then (var w := program[(a - PROGRAM_DATA_START_LOCATION) / INSTRUCTION_SIZE];
                if (a - PROGRAM_DATA_START_LOCATION) % INSTRUCTION_SIZE == 0 then w / 256 else w % 256)
          else old(memory[a]))
      {
        memory[PROGRAM_DATA_START_LOCATION + INSTRUCTION_SIZE * i] := program[i] / 256;
        memory[PROGRAM_DATA_START_LOCATION + INSTRUCTION_SIZE * i + 1] := program[i] % 256;
        i := i + 1;
      }
    }
  }

  /** load_fonts writes glyph d's byte j at FONT_DATA_START_LOCATION + 5 * d + j, whatever
      start location it is given, and leaves every other memory cell as it was. */
  lemma FontImagePlacesGlyphs(mem: seq<Byte>, font: seq<seq<Byte>>)
    requires |mem| == MEMORY_SIZE && IsFontTable(font)
    ensures var r := FontImage(mem, font);
      (forall d, j :: 0 <= d < FONT_NUM_CHARS && 0 <= j < FONT_CHAR_SIZE ==>
        r[FONT_DATA_START_LOCATION + FONT_CHAR_SIZE * d + j] == font[d][j]) &&
      (forall a :: (0 <= a < MEMORY_SIZE &&
        !(FONT_DATA_START_LOCATION <= a < FONT_DATA_START_LOCATION + FONT_NUM_CHARS * FONT_CHAR_SIZE)) ==>
        r[a] == mem[a])
  {
    var r := FontImage(mem, font);
    forall d, j | 0 <= d < FONT_NUM_CHARS && 0 <= j < FONT_CHAR_SIZE
      ensures r[FONT_DATA_START_LOCATION + FONT_CHAR_SIZE * d + j] == font[d][j]
    {
      var a := FONT_DATA_START_LOCATION + FONT_CHAR_SIZE * d + j;
      assert (a - FONT_DATA_START_LOCATION) / FONT_CHAR_SIZE == d;
      assert (a - FONT_DATA_START_LOCATION) % FONT_CHAR_SIZE == j;
    }
  }

  /** After construction glyph d's byte j is at FONT_DATA_START_LOCATION + 5 * d + j, and
      every other memory cell is 0. */
  lemma InitialMemoryHoldsFonts(blocked: bool)
    ensures var mem := InitialState(blocked).memory;
      |mem| == MEMORY_SIZE &&
      (forall d, j :: 0 <= d < FONT_NUM_CHARS && 0 <= j < FONT_CHAR_SIZE ==>
        mem[FONT_DATA_START_LOCATION + FONT_CHAR_SIZE * d + j] == FONT_DATA[d][j]) &&
      (forall a :: (0 <= a < MEMORY_SIZE &&
        !(FONT_DATA_START_LOCATION <= a < FONT_DATA_START_LOCATION + FONT_NUM_CHARS * FONT_CHAR_SIZE)) ==>
        mem[a] == 0)
  {
    FontShape();
    FontImagePlacesGlyphs(seq(MEMORY_SIZE, _ => 0), FONT_DATA);
  }

  /** The constructed machine is well formed: zeroed registers, stack, frame buffer,
      timers, pc at 0x200 and an empty stack. */
  lemma InitialStateWellFormed(blocked: bool)
    ensures WellFormed(InitialState(blocked))
    ensures InitialState(blocked).pc == 0x200
    ensures forall r :: 0 <= r < NUM_REGISTERS ==> InitialState(blocked).registers[r] == 0
  {
  }

  /** load_program leaves everything below the program area, fonts included, unchanged. */
  lemma ProgramImageKeepsLowMemory(mem: seq<Byte>, program: seq<InstructionWord>)
    requires |mem| == MEMORY_SIZE && |program| == MAX_NUM_INSTRUCTIONS
    ensures ProgramImage(mem, program)[..PROGRAM_DATA_START_LOCATION] == mem[..PROGRAM_DATA_START_LOCATION]
  {
  }

  /** As written, load_program loses each instruction's high byte: the program
      [0x00E0, 0x00E0, ...] reads back from the first two program bytes as 0xE0E0. */
  lemma ProgramImageLosesHighByte(mem: seq<Byte>)
    requires |mem| == MEMORY_SIZE
    ensures var program := seq(MAX_NUM_INSTRUCTIONS, _ => 0x00E0);
      var img := ProgramImage(mem, program);
      ConcatenateBytes(img[PROGRAM_DATA_START_LOCATION], img[PROGRAM_DATA_START_LOCATION + 1]) == 0xE0E0 &&
      program[0] != 0xE0E0
  {
    Pow2Byte();
  }

  /** Loading word by word, every instruction reads back as the word it came from, and
      everything below the program area is unchanged. */
  lemma WordImageRoundTrip(mem: seq<Byte>, program: seq<InstructionWord>, i: int)
    requires |mem| == MEMORY_SIZE && |program| == MAX_NUM_INSTRUCTIONS
    requires 0 <= i < MAX_NUM_INSTRUCTIONS
    ensures var img := WordImage(mem, program);
      ConcatenateBytes(img[PROGRAM_DATA_START_LOCATION + INSTRUCTION_SIZE * i],
                       img[PROGRAM_DATA_START_LOCATION + INSTRUCTION_SIZE * i + 1]) == program[i] &&
      img[..PROGRAM_DATA_START_LOCATION] == mem[..PROGRAM_DATA_START_LOCATION]
  {
    var img := WordImage(mem, program);
    var a := PROGRAM_DATA_START_LOCATION + INSTRUCTION_SIZE * i;
    assert (a - PROGRAM_DATA_START_LOCATION) / INSTRUCTION_SIZE == i;
    assert (a + 1 - PROGRAM_DATA_START_LOCATION) / INSTRUCTION_SIZE == i;
    assert img[a] == program[i] / 256 && img[a + 1] == program[i] % 256;
  }
}
