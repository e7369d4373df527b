/** What each instruction handler of the executor does, as a function from the machine
    state before to the state after, or to the exception the handler throws. The executor
    class proves each of its handler methods against the function of the same name here. */
module Semantics {
  import opened MachineSpecs
  import opened DataTypes
  import opened Chip8
  import opened Keys

  /** The exceptions the handlers throw, plus MemoryAccessOutOfRange, which stands for an
      out-of-bounds std::array access (undefined behaviour in the source). Every fault is
      raised before any state changes. */
  datatype Fault =
    | MachineCallUnsupported
    | JumpOutOfRange
    | SubroutineOutOfRange
    | CallLimitReached
    | NothingToReturnTo
    | BadFormat(category: Nibble)
    | KeyNotInTable(key: Key)
    | MemoryAccessOutOfRange

  /** The collaborators the handlers call but whose code is not part of this model: the
      value of rand() % 256, get_digits, get_sprite_start_location,
      get_least_significant_bit and get_most_significant_bit. */
  datatype Env = Env(
    random: Byte,
    digits: Byte -> seq<int>,
    spriteStart: Byte -> DoubleByte,
    lsb: Byte -> int,
    msb: Byte -> int)

  /** The flag register VF. */
  const FLAG: Nibble := 0xF

  function WithRegister(s: MachineState, x: Nibble, v: Byte): MachineState
    requires WellFormed(s)
  {
    s.(registers := s.registers[x := v])
  }

  /** pc += INSTRUCTION_SIZE on a double_byte. */
  function AdvancePc(s: MachineState): MachineState
  {
    s.(pc := ToDoubleByte(s.pc + INSTRUCTION_SIZE))
  }

  function SkipIf(s: MachineState, cond: bool): MachineState
  {
    if cond then AdvancePc(s) else s
  }

  // ---- category 0 ----

  function ClearScreen(s: MachineState): MachineState
  {
    s.(frameBuffer := BlankFrameBuffer())
  }

  function Return(s: MachineState): Result<MachineState, Fault>
    requires WellFormed(s)
  {
    if s.stackPointer == 0 then Err(NothingToReturnTo)
    else Ok(s.(stackPointer := s.stackPointer - 1, pc := s.stack[s.stackPointer - 1]))
  }

  function Category0(s: MachineState, p: Payload): Result<MachineState, Fault>
    requires WellFormed(s)
  {
    if p.x == 0x0 && p.y == 0xE && p.n == 0x0 then Ok(ClearScreen(s))
    else if p.x == 0x0 && p.y == 0xE && p.n == 0xE then Return(s)
    else Err(MachineCallUnsupported)
  }

  // ---- categories 1 to 7 ----

  function Jump(s: MachineState, p: Payload): Result<MachineState, Fault>
  {
    if p.nnn >= MEMORY_SIZE then Err(JumpOutOfRange) else Ok(s.(pc := p.nnn))
  }

  function SubroutineCall(s: MachineState, p: Payload): Result<MachineState, Fault>
    requires WellFormed(s)
  {
    if p.nnn >= MEMORY_SIZE then Err(SubroutineOutOfRange)
    else if s.stackPointer >= STACK_ENTRIES then Err(CallLimitReached)
    else Ok(s.(stack := s.stack[s.stackPointer := s.pc],
               stackPointer := s.stackPointer + 1,
               pc := p.nnn))
  }

  function SkipIfVxEqNn(s: MachineState, p: Payload): MachineState
    requires WellFormed(s)
  {
    SkipIf(s, s.registers[p.x] == p.nn)
  }

  function SkipIfVxNeqNn(s: MachineState, p: Payload): MachineState
    requires WellFormed(s)
  {
    SkipIf(s, s.registers[p.x] != p.nn)
  }

  function SkipIfVxEqVy(s: MachineState, p: Payload): Result<MachineState, Fault>
    requires WellFormed(s)
  {
    if p.n != 0 then Err(BadFormat(0x5))
    else Ok(SkipIf(s, s.registers[p.x] == s.registers[p.y]))
  }

  function SetRegister(s: MachineState, p: Payload): MachineState
    requires WellFormed(s)
  {
    WithRegister(s, p.x, p.nn)
  }

  function IncRegByConst(s: MachineState, p: Payload): MachineState
    requires WellFormed(s)
  {
    WithRegister(s, p.x, ToByte(s.registers[p.x] + p.nn))
  }

  // ---- category 8 ----

  /** VX is written first and VF last, so when X is F the flag is what remains. The
      arithmetic is on ints (the bytes are promoted), and storing into a register keeps
      the value modulo 256. */
  function OperateAndAssign(s: MachineState, p: Payload, env: Env): Result<MachineState, Fault>
    requires WellFormed(s)
  {
    var vx := s.registers[p.x];
    var vy := s.registers[p.y];
    match p.n
    case 0x0 => Ok(WithRegister(s, p.x, vy))
    case 0x1 => Ok(WithRegister(WithRegister(s, p.x, ByteOr(vx, vy)), FLAG, 0))
    case 0x2 => Ok(WithRegister(WithRegister(s, p.x, ByteAnd(vx, vy)), FLAG, 0))
    case 0x3 => Ok(WithRegister(WithRegister(s, p.x, ByteXor(vx, vy)), FLAG, 0))
    case 0x4 =>
      var sum: int := vx as int + vy;
      Ok(WithRegister(WithRegister(s, p.x, ToByte(sum)), FLAG, if sum > 0xFF then 1 else 0))
    case 0x5 =>
      var diff: int := vx as int - vy;
      Ok(WithRegister(WithRegister(s, p.x, ToByte(diff)), FLAG, if diff >= 0 then 1 else 0))
    case 0x6 => Ok(WithRegister(WithRegister(s, p.x, vy / 2), FLAG, ToByte(env.lsb(vy))))
    case 0x7 =>
      var diff: int := vy as int - vx;
      Ok(WithRegister(WithRegister(s, p.x, ToByte(diff)), FLAG, if diff >= 0 then 1 else 0))
    case 0xE => Ok(WithRegister(WithRegister(s, p.x, ToByte(vy as int * 2)), FLAG, ToByte(env.msb(vy))))
    case _ => Err(BadFormat(0x8))
  }

  // ---- categories 9 to D ----

  function SkipIfVxNeqVy(s: MachineState, p: Payload): Result<MachineState, Fault>
    requires WellFormed(s)
  {
    if p.n != 0 then Err(BadFormat(0x9))
    else Ok(SkipIf(s, s.registers[p.x] != s.registers[p.y]))
  }

  function SetIndexRegister(s: MachineState, p: Payload): MachineState
  {
    s.(indexRegister := p.nnn)
  }

  /** pc := V0 + NNN, with no range check; the sum is stored into a double_byte. */
  function JumpWithOffset(s: MachineState, p: Payload): MachineState
    requires WellFormed(s)
  {
    s.(pc := ToDoubleByte(s.registers[0] + p.nnn))
  }

  function SetRandom(s: MachineState, p: Payload, env: Env): MachineState
    requires WellFormed(s)
  {
    WithRegister(s, p.x, ByteAnd(env.random, p.nn))
  }

  /** Sprite row i, column j (0 is the leftmost pixel, the most significant bit). */
  predicate SpriteBit(sprite: seq<Byte>, i: int, j: int)
    requires 0 <= i < |sprite| && 0 <= j < BITS_PER_BYTE
  {
    BitSet(sprite[i], BITS_PER_BYTE - 1 - j)
  }

  /** Cell (cx, cy) lies under a set sprite bit when the sprite is drawn at (x, y) with
      wrap-around: it is row (cy - y) mod 32, column (cx - x) mod 64 of the sprite. */
  predicate Covered(sprite: seq<Byte>, x: int, y: int, cx: int, cy: int)
  {
    var i := (cy - y) % FRAME_BUFFER_HEIGHT;
    var j := (cx - x) % FRAME_BUFFER_WIDTH;
    i < |sprite| && j < BITS_PER_BYTE && SpriteBit(sprite, i, j)
  }

  /** The cell visited for sprite bit (i, j) is the one cell whose sprite coordinates are (i, j). */
  lemma VisitedCell(x: int, y: int, i: int, j: int, cx: int, cy: int)
    requires 0 <= i < FRAME_BUFFER_HEIGHT && 0 <= j < FRAME_BUFFER_WIDTH
    requires 0 <= cx < FRAME_BUFFER_WIDTH && 0 <= cy < FRAME_BUFFER_HEIGHT
    ensures ((cy - y) % FRAME_BUFFER_HEIGHT == i && (cx - x) % FRAME_BUFFER_WIDTH == j) <==>
      (cx == (x + j) % FRAME_BUFFER_WIDTH && cy == (y + i) % FRAME_BUFFER_HEIGHT)
  {
  }

  /** The frame after drawing: every covered cell is XOR-ed with 1, the others are kept. */
  function DrawFrame(fb: seq<seq<Byte>>, sprite: seq<Byte>, x: int, y: int): (r: seq<seq<Byte>>)
    requires IsFrameBuffer(fb)
    ensures IsFrameBuffer(r)
  {
    seq(FRAME_BUFFER_WIDTH, cx requires 0 <= cx < FRAME_BUFFER_WIDTH =>
      seq(FRAME_BUFFER_HEIGHT, cy requires 0 <= cy < FRAME_BUFFER_HEIGHT =>
        if Covered(sprite, x, y, cx, cy) then ByteXor(fb[cx][cy], 1) else fb[cx][cy]))
  }

  /** Some set sprite bit falls on a non-zero cell. */
  predicate Collision(fb: seq<seq<Byte>>, sprite: seq<Byte>, x: int, y: int)
    requires IsFrameBuffer(fb)
  {
    exists i, j :: 0 <= i < |sprite| && 0 <= j < BITS_PER_BYTE && SpriteBit(sprite, i, j) &&
      fb[(x + j) % FRAME_BUFFER_WIDTH][(y + i) % FRAME_BUFFER_HEIGHT] != 0
  }

  /** The N sprite rows at I; reading past the end of memory is a fault. */
  function SpriteAt(s: MachineState, n: Nibble): Result<seq<Byte>, Fault>
    requires WellFormed(s)
  {
    if n == 0 then Ok([])
    else if s.indexRegister + n > MEMORY_SIZE then Err(MemoryAccessOutOfRange)
    else Ok(s.memory[s.indexRegister .. s.indexRegister + n])
  }

  function Draw(s: MachineState, p: Payload): Result<MachineState, Fault>
    requires WellFormed(s)
  {
    var x := s.registers[p.x];
    var y := s.registers[p.y];
    match SpriteAt(s, p.n)
    case Err(f) => Err(f)
    case Ok(sprite) =>
      Ok(s.(frameBuffer := DrawFrame(s.frameBuffer, sprite, x, y),
            registers := s.registers[FLAG := if Collision(s.frameBuffer, sprite, x, y) then 1 else 0]))
  }

  // ---- category E ----

  /** The register value is cast to Key; a key with no entry in the table throws. */
  function SkipCondKey(s: MachineState, keys: map<Key, bool>, p: Payload): Result<MachineState, Fault>
    requires WellFormed(s)
  {
    var key: Key := s.registers[p.x];
    if p.nn == 0x9E || p.nn == 0xA1 then
      match Pressed(keys, key)
      case Err(_) => Err(KeyNotInTable(key))
      case Ok(pressed) => Ok(SkipIf(s, if p.nn == 0x9E then pressed else !pressed))
    else Err(BadFormat(0xE))
  }

  // ---- category F ----

  /** The first pressed key among k..KF, scanning upwards. */
  function FirstPressedFrom(keys: map<Key, bool>, k: Key): Option<Key>
    requires HasAllKeys(keys) && K0 <= k
    decreases KF + 1 - k
  {
    if k > KF then None
    else if keys[k] then Some(k)
    else FirstPressedFrom(keys, k + 1)
  }

  /** FX0A: blocks, then unblocks with VX := the lowest pressed key, if there is one. */
  function WaitForKey(s: MachineState, keys: map<Key, bool>, x: Nibble): MachineState
    requires WellFormed(s) && HasAllKeys(keys)
  {
    match FirstPressedFrom(keys, K0)
    case None => s.(isBlocked := true)
    case Some(k) =>
      FirstPressedInRange(keys, K0);
      s.(registers := s.registers[x := k], isBlocked := false)
  }

  lemma {:induction false} FirstPressedInRange(keys: map<Key, bool>, k: Key)
    requires HasAllKeys(keys) && K0 <= k
    ensures FirstPressedFrom(keys, k).Some? ==> k <= FirstPressedFrom(keys, k).value <= KF
    decreases KF + 1 - k
  {
    if k <= KF && !keys[k] {
      FirstPressedInRange(keys, k + 1);
    }
  }

  /** Memory with `bytes` written from address `at` on. */
  function Overwrite(mem: seq<Byte>, at: int, bytes: seq<Byte>): (r: seq<Byte>)
    requires 0 <= at && at + |bytes| <= |mem|
    ensures |r| == |mem|
    ensures forall a :: 0 <= a < |mem| ==> r[a] == if at <= a < at + |bytes| then bytes[a - at] else mem[a]
  {
    mem[..at] + bytes + mem[at + |bytes|..]
  }

  function DigitBytes(digits: seq<int>): (r: seq<Byte>)
    ensures |r| == |digits|
    ensures forall k :: 0 <= k < |digits| ==> r[k] == ToByte(digits[k])
  {
    if digits == [] then [] else [ToByte(digits[0])] + DigitBytes(digits[1..])
  }

  /** FX33: the digits go to memory from I on, each stored into a byte; I is unchanged. */
  function StoreDigits(s: MachineState, digits: seq<int>): Result<MachineState, Fault>
    requires WellFormed(s)
  {
    if |digits| > 0 && s.indexRegister + |digits| > MEMORY_SIZE then Err(MemoryAccessOutOfRange)
    else if |digits| == 0 then Ok(s)
    else Ok(s.(memory := Overwrite(s.memory, s.indexRegister, DigitBytes(digits))))
  }

  /** FX55: V0..VX go to memory[I..I+X], and I ends one past the last address written. */
  function StoreRegisters(s: MachineState, x: Nibble): Result<MachineState, Fault>
    requires WellFormed(s)
  {
    if s.indexRegister + x >= MEMORY_SIZE then Err(MemoryAccessOutOfRange)
    else Ok(s.(memory := Overwrite(s.memory, s.indexRegister, s.registers[..x + 1]),
               indexRegister := s.indexRegister + x + 1))
  }

  /** FX65: V0..VX are read from memory[I..I+X], and I ends one past the last address read. */
  function LoadRegisters(s: MachineState, x: Nibble): Result<MachineState, Fault>
    requires WellFormed(s)
  {
    if s.indexRegister + x >= MEMORY_SIZE then Err(MemoryAccessOutOfRange)
    else Ok(s.(registers := s.memory[s.indexRegister .. s.indexRegister + x + 1] + s.registers[x + 1..],
               indexRegister := s.indexRegister + x + 1))
  }

  function CategoryF(s: MachineState, keys: map<Key, bool>, p: Payload, env: Env): Result<MachineState, Fault>
    requires WellFormed(s) && HasAllKeys(keys)
  {
    var vx := s.registers[p.x];
    match p.nn
    case 0x07 => Ok(WithRegister(s, p.x, s.delayTimer))
    case 0x0A => Ok(WaitForKey(s, keys, p.x))
    case 0x15 => Ok(s.(delayTimer := vx))
    case 0x18 => Ok(s.(soundTimer := vx))
    case 0x1E => Ok(s.(indexRegister := ToDoubleByte(s.indexRegister + vx)))
    case 0x29 => Ok(s.(indexRegister := env.spriteStart(vx)))
    case 0x33 => StoreDigits(s, env.digits(vx))
    case 0x55 => StoreRegisters(s, p.x)
    case 0x65 => LoadRegisters(s, p.x)
    case _ => Err(BadFormat(0xF))
  }

  // ---- dispatch ----

  /** The sixteen-entry handler table indexed by the instruction's category. Every handler
      keeps the state well formed. */
  function Execute(s: MachineState, keys: map<Key, bool>, ins: Instruction, env: Env): (r: Result<MachineState, Fault>)
    requires WellFormed(s) && HasAllKeys(keys)
    ensures r.Ok? ==> WellFormed(r.value)
  {
    var p := ins.payload;
    match ins.category
    case 0x0 => Category0(s, p)
    case 0x1 => Jump(s, p)
    case 0x2 => SubroutineCall(s, p)
    case 0x3 => Ok(SkipIfVxEqNn(s, p))
    case 0x4 => Ok(SkipIfVxNeqNn(s, p))
    case 0x5 => SkipIfVxEqVy(s, p)
    case 0x6 => Ok(SetRegister(s, p))
    case 0x7 => Ok(IncRegByConst(s, p))
    case 0x8 => OperateAndAssign(s, p, env)
    case 0x9 => SkipIfVxNeqVy(s, p)
    case 0xA => Ok(SetIndexRegister(s, p))
    case 0xB => Ok(JumpWithOffset(s, p))
    case 0xC => Ok(SetRandom(s, p, env))
    case 0xD => Draw(s, p)
    case 0xE => SkipCondKey(s, keys, p)
    case _ => CategoryF(s, keys, p, env)
  }
}
