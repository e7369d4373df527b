/** Properties of the instruction semantics: what each handler promises about the
    registers, pc, stack, memory and frame buffer, and how handlers combine. */
module InstructionProperties {
  import opened MachineSpecs
  import opened DataTypes
  import opened Chip8
  import opened Keys
  import opened Semantics

  // ---- calls, returns and jumps ----

  /** 2NNN succeeds exactly when NNN is an address and the stack has room. It pushes the
      old pc and jumps; a following 00EE restores pc and the stack pointer, leaving only
      the pushed slot behind. */
  lemma CallThenReturn(s: MachineState, p: Payload)
    requires WellFormed(s)
    ensures SubroutineCall(s, p).Ok? <==> p.nnn < MEMORY_SIZE && s.stackPointer < STACK_ENTRIES
    ensures SubroutineCall(s, p).Ok? ==>
      var called := SubroutineCall(s, p).value;
      WellFormed(called) &&
      called.pc == p.nnn && called.stack[s.stackPointer] == s.pc &&
      Return(called) == Ok(s.(stack := called.stack))
  {
  }

  /** 00EE with an empty stack throws; otherwise it pops into pc. */
  lemma ReturnPops(s: MachineState)
    requires WellFormed(s)
    ensures Return(s).Err? <==> s.stackPointer == 0
    ensures Return(s).Ok? ==>
      Return(s).value.stackPointer == s.stackPointer - 1 &&
      Return(s).value.pc == s.stack[Return(s).value.stackPointer] &&
      Return(s).value == s.(pc := Return(s).value.pc, stackPointer := Return(s).value.stackPointer)
  {
  }

  /** 1NNN throws for NNN outside memory; otherwise pc lands inside memory and nothing
      else changes. */
  lemma JumpStaysInMemory(s: MachineState, p: Payload)
    ensures Jump(s, p).Err? <==> p.nnn >= MEMORY_SIZE
    ensures Jump(s, p).Ok? ==> Jump(s, p).value.pc < MEMORY_SIZE && Jump(s, p).value == s.(pc := p.nnn)
  {
  }

  /** BNNN changes pc only, to V0 + NNN modulo 2^16. For a 12-bit NNN the sum never wraps,
      and nothing checks it against the memory size. */
  lemma JumpWithOffsetTarget(s: MachineState, p: Payload)
    requires WellFormed(s)
    ensures var t := JumpWithOffset(s, p);
      t == s.(pc := t.pc) &&
      (t.pc - s.registers[0] - p.nnn) % 0x1_0000 == 0 &&
      (p.nnn < 0x1000 ==> t.pc == s.registers[0] + p.nnn) &&
      (p.nnn < 0x1000 ==> (t.pc >= MEMORY_SIZE <==> s.registers[0] + p.nnn >= MEMORY_SIZE))
  {
  }

  /** BNNN has no range check: V0 = 0xFF and NNN = 0xFFF leave pc at 0x10FE, past the end
      of memory. */
  lemma JumpWithOffsetUnchecked()
    ensures var s := InitialState(false);
      var t := JumpWithOffset(s.(registers := s.registers[0 := 0xFF]), Payload(0, 0, 0, 0, 0xFFF));
      t.pc == 0x10FE && t.pc >= MEMORY_SIZE
  {
  }

  // ---- skips ----

  /** The skip instructions (categories 3, 4, 5, 9 and E) change pc only, and only by
      INSTRUCTION_SIZE. */
  lemma SkipsChangeOnlyPc(s: MachineState, keys: map<Key, bool>, ins: Instruction, env: Env)
    requires WellFormed(s) && HasAllKeys(keys)
    requires ins.category in {0x3, 0x4, 0x5, 0x9, 0xE}
    ensures Execute(s, keys, ins, env).Ok? ==>
      var t := Execute(s, keys, ins, env).value;
      t == s.(pc := t.pc) && (t.pc == s.pc || t.pc == ToDoubleByte(s.pc + INSTRUCTION_SIZE))
  {
  }

  /** 3XNN skips exactly when VX == NN and 4XNN exactly when it does not: of the two, one
      advances pc and the other leaves the state alone. */
  lemma SkipOnNnComplementary(s: MachineState, p: Payload)
    requires WellFormed(s)
    ensures SkipIfVxEqNn(s, p) == AdvancePc(s) <==> s.registers[p.x] == p.nn
    ensures {SkipIfVxEqNn(s, p), SkipIfVxNeqNn(s, p)} == {s, AdvancePc(s)}
  {
    assert AdvancePc(s) != s;
  }

  /** 5XY0 and 9XY0 are complementary in the same way; with N != 0 both throw. */
  lemma SkipOnVyComplementary(s: MachineState, p: Payload)
    requires WellFormed(s)
    ensures SkipIfVxEqVy(s, p).Err? <==> p.n != 0
    ensures SkipIfVxNeqVy(s, p).Err? <==> p.n != 0
    ensures p.n == 0 ==>
      (SkipIfVxEqVy(s, p).value == AdvancePc(s) <==> s.registers[p.x] == s.registers[p.y]) &&
      {SkipIfVxEqVy(s, p).value, SkipIfVxNeqVy(s, p).value} == {s, AdvancePc(s)}
  {
    assert AdvancePc(s) != s;
  }

  /** EX9E skips exactly when key VX is pressed and EXA1 exactly when it is released; a
      key without an entry makes both throw, and any other NN throws. */
  lemma SkipOnKeyComplementary(s: MachineState, keys: map<Key, bool>, p: Payload, q: Payload)
    requires WellFormed(s)
    requires p.nn == 0x9E && q == p.(nn := 0xA1)
    ensures var key: Key := s.registers[p.x];
      if key in keys then
        SkipCondKey(s, keys, p).Ok? && SkipCondKey(s, keys, q).Ok? &&
        (SkipCondKey(s, keys, p).value == AdvancePc(s) <==> keys[key]) &&
        {SkipCondKey(s, keys, p).value, SkipCondKey(s, keys, q).value} == {s, AdvancePc(s)}
      else
        SkipCondKey(s, keys, p) == Err(KeyNotInTable(key)) && SkipCondKey(s, keys, q) == Err(KeyNotInTable(key))
    ensures forall nn: Byte :: nn != 0x9E && nn != 0xA1 ==> SkipCondKey(s, keys, p.(nn := nn)) == Err(BadFormat(0xE))
  {
    assert AdvancePc(s) != s;
  }

  // ---- registers ----

  /** 7XNN adds NN modulo 256 and, for X != F, leaves VF and every other register alone. */
  lemma AddConstWraps(s: MachineState, p: Payload)
    requires WellFormed(s)
    ensures var t := IncRegByConst(s, p);
      (t.registers[p.x] - s.registers[p.x] - p.nn) % 256 == 0 &&
      (forall r :: 0 <= r < NUM_REGISTERS && r != p.x ==> t.registers[r] == s.registers[r]) &&
      t == s.(registers := t.registers)
  {
  }

  /** CXNN leaves no bit set in VX that is clear in NN, whatever the random byte. */
  lemma RandomIsMasked(s: MachineState, p: Payload, env: Env, k: nat)
    requires WellFormed(s) && k < BITS_PER_BYTE
    ensures var vx := SetRandom(s, p, env).registers[p.x];
      vx <= p.nn && (BitSet(vx, k) ==> BitSet(p.nn, k))
  {
    Pow2Byte();
    AndBits(env.random, p.nn, BITS_PER_BYTE, k);
    AndIsWithinMask(env.random, p.nn, BITS_PER_BYTE);
  }

  /** 8XY1, 8XY2, 8XY3 compute OR, AND, XOR bit by bit and then clear VF. */
  lemma LogicOpsAreBitwise(s: MachineState, p: Payload, env: Env, k: nat)
    requires WellFormed(s) && p.n in {0x1, 0x2, 0x3} && p.x != FLAG && k < BITS_PER_BYTE
    ensures OperateAndAssign(s, p, env).Ok?
    ensures var t := OperateAndAssign(s, p, env).value;
      var a, b := s.registers[p.x], s.registers[p.y];
      t.registers[FLAG] == 0 &&
      (BitSet(t.registers[p.x], k) <==>
        if p.n == 0x1 then BitSet(a, k) || BitSet(b, k)
        else if p.n == 0x2 then BitSet(a, k) && BitSet(b, k)
        else BitSet(a, k) != BitSet(b, k))
  {
    Pow2Byte();
    var a, b := s.registers[p.x], s.registers[p.y];
    OrBits(a, b, BITS_PER_BYTE, k);
    AndBits(a, b, BITS_PER_BYTE, k);
    XorBits(a, b, BITS_PER_BYTE, k);
  }

  /** 8XY4: VX and VF together hold the full sum, VF being the carry out of bit 7. */
  lemma AddWithCarry(s: MachineState, p: Payload, env: Env)
    requires WellFormed(s) && p.n == 0x4 && p.x != FLAG
    ensures OperateAndAssign(s, p, env).Ok?
    ensures var t := OperateAndAssign(s, p, env).value;
      var a: int, b: int := s.registers[p.x], s.registers[p.y];
      t.registers[p.x] as int + t.registers[FLAG] as int * 256 == a + b &&
      (t.registers[FLAG] == 1 <==> a + b > 0xFF) &&
      (forall r :: 0 <= r < NUM_REGISTERS && r != p.x && r != FLAG ==> t.registers[r] == s.registers[r])
  {
  }

  /** 8XY5: VF is 1 exactly when VX >= VY (no borrow), and VX + 256 * borrow is the
      difference. */
  lemma SubtractWithBorrow(s: MachineState, p: Payload, env: Env)
    requires WellFormed(s) && p.n == 0x5 && p.x != FLAG
    ensures OperateAndAssign(s, p, env).Ok?
    ensures var t := OperateAndAssign(s, p, env).value;
      var a: int, b: int := s.registers[p.x], s.registers[p.y];
      (t.registers[FLAG] == 1 <==> a >= b) &&
      t.registers[p.x] as int == a - b + (1 - t.registers[FLAG] as int) * 256
  {
  }

  /** 8XY7: VF is 1 exactly when VY >= VX, and VX + 256 * borrow is VY - VX. */
  lemma ReverseSubtractWithBorrow(s: MachineState, p: Payload, env: Env)
    requires WellFormed(s) && p.n == 0x7 && p.x != FLAG
    ensures OperateAndAssign(s, p, env).Ok?
    ensures var t := OperateAndAssign(s, p, env).value;
      var a: int, b: int := s.registers[p.x], s.registers[p.y];
      (t.registers[FLAG] == 1 <==> b >= a) &&
      t.registers[p.x] as int == b - a + (1 - t.registers[FLAG] as int) * 256
  {
  }

  /** 8XY6 copies VY into VX and shifts right: when get_least_significant_bit returns bit 0,
      VX and VF together rebuild VY. */
  lemma ShiftRightRebuilds(s: MachineState, p: Payload, env: Env)
    requires WellFormed(s) && p.n == 0x6 && p.x != FLAG
    requires env.lsb(s.registers[p.y]) == s.registers[p.y] % 2
    ensures OperateAndAssign(s, p, env).Ok?
    ensures var t := OperateAndAssign(s, p, env).value;
      t.registers[p.x] as int * 2 + t.registers[FLAG] == s.registers[p.y]
  {
  }

  /** 8XYE copies VY into VX and shifts left: when get_most_significant_bit returns bit 7,
      VX and VF together hold 2 * VY. */
  lemma ShiftLeftRebuilds(s: MachineState, p: Payload, env: Env)
    requires WellFormed(s) && p.n == 0xE && p.x != FLAG
    requires env.msb(s.registers[p.y]) == s.registers[p.y] / 128
    ensures OperateAndAssign(s, p, env).Ok?
    ensures var t := OperateAndAssign(s, p, env).value;
      t.registers[p.x] as int + t.registers[FLAG] as int * 256 == s.registers[p.y] as int * 2
  {
  }

  /** VF is written after VX, so with X = F the flag is what VF ends up holding. */
  lemma FlagWrittenLast(s: MachineState, p: Payload, env: Env)
    requires WellFormed(s) && p.x == FLAG && p.n in {0x1, 0x2, 0x3, 0x4, 0x5, 0x7}
    ensures OperateAndAssign(s, p, env).Ok?
    ensures var vf := OperateAndAssign(s, p, env).value.registers[FLAG];
      var a: int, b: int := s.registers[FLAG], s.registers[p.y];
      vf == (if p.n in {0x1, 0x2, 0x3} then 0
             else if p.n == 0x4 then (if a + b > 0xFF then 1 else 0)
             else if p.n == 0x5 then (if a >= b then 1 else 0)
             else (if b >= a then 1 else 0))
  {
  }

  /** Category 8 throws exactly for the N values it has no case for. */
  lemma UnknownArithmeticThrows(s: MachineState, p: Payload, env: Env)
    requires WellFormed(s)
    ensures OperateAndAssign(s, p, env).Err? <==> p.n in {0x8, 0x9, 0xA, 0xB, 0xC, 0xD, 0xF}
    ensures OperateAndAssign(s, p, env).Err? ==> OperateAndAssign(s, p, env).error == BadFormat(0x8)
  {
  }

  // ---- category F ----

  /** The scan of FX0A finds the lowest pressed key at or above k, or none. */
  lemma {:induction false} FirstPressedIsLowest(keys: map<Key, bool>, k: Key)
    requires HasAllKeys(keys) && K0 <= k
    ensures FirstPressedFrom(keys, k).None? <==> forall m :: k <= m <= KF ==> !keys[m]
    ensures FirstPressedFrom(keys, k).Some? ==>
      var m := FirstPressedFrom(keys, k).value;
      k <= m <= KF && keys[m] && forall m' :: k <= m' < m ==> !keys[m']
    decreases KF + 1 - k
  {
    if k <= KF && !keys[k] {
      FirstPressedIsLowest(keys, k + 1);
    }
  }

  /** FX0A leaves the machine blocked exactly when no key is pressed; otherwise VX holds
      the lowest pressed key. */
  lemma WaitForKeyTakesLowestKey(s: MachineState, keys: map<Key, bool>, x: Nibble)
    requires WellFormed(s) && HasAllKeys(keys)
    ensures var t := WaitForKey(s, keys, x);
      (t.isBlocked <==> forall k :: K0 <= k <= KF ==> !keys[k]) &&
      (t.isBlocked ==> t == s.(isBlocked := true)) &&
      (!t.isBlocked ==>
        t.registers[x] <= KF && keys[t.registers[x]] && (forall k :: K0 <= k < t.registers[x] ==> !keys[k]) &&
        t == s.(registers := s.registers[x := t.registers[x]], isBlocked := false))
  {
    FirstPressedIsLowest(keys, K0);
  }

  /** Storing V0..VX with FX55 and loading them back from the same I with FX65 changes
      nothing: the registers come back as they were, and both leave I at I + X + 1. */
  lemma StoreThenLoadRoundTrip(s: MachineState, x: Nibble)
    requires WellFormed(s)
    ensures StoreRegisters(s, x).Ok? <==> s.indexRegister + x < MEMORY_SIZE
    ensures StoreRegisters(s, x).Ok? ==>
      var stored := StoreRegisters(s, x).value;
      WellFormed(stored) &&
      stored.indexRegister == s.indexRegister + x + 1 &&
      stored.registers == s.registers &&
      (forall a :: 0 <= a < MEMORY_SIZE && !(s.indexRegister <= a <= s.indexRegister + x) ==>
        stored.memory[a] == s.memory[a]) &&
      LoadRegisters(stored.(indexRegister := s.indexRegister), x) == Ok(stored)
  {
    if StoreRegisters(s, x).Ok? {
      var stored := StoreRegisters(s, x).value;
      var back := stored.(indexRegister := s.indexRegister);
      var regs := back.memory[back.indexRegister .. back.indexRegister + x + 1] + back.registers[x + 1..];
      assert regs == s.registers;
    }
  }

  /** FX65 loads V0..VX from memory[I..I+X], leaves the other registers and memory alone,
      and advances I past what it read. */
  lemma LoadRegistersReads(s: MachineState, x: Nibble)
    requires WellFormed(s)
    ensures LoadRegisters(s, x).Ok? <==> s.indexRegister + x < MEMORY_SIZE
    ensures LoadRegisters(s, x).Ok? ==>
      var t := LoadRegisters(s, x).value;
      WellFormed(t) &&
      (forall r :: 0 <= r <= x ==> t.registers[r] == s.memory[s.indexRegister + r]) &&
      (forall r :: x < r < NUM_REGISTERS ==> t.registers[r] == s.registers[r]) &&
      t.memory == s.memory && t.indexRegister == s.indexRegister + x + 1
  {
  }

  /** FX33 writes the digits at I..I+|digits|-1, each stored into a byte, and leaves I and
      the rest of memory unchanged. */
  lemma StoreDigitsWritesAtIndex(s: MachineState, digits: seq<int>)
    requires WellFormed(s)
    ensures StoreDigits(s, digits).Err? <==> |digits| > 0 && s.indexRegister + |digits| > MEMORY_SIZE
    ensures StoreDigits(s, digits).Ok? ==>
      var t := StoreDigits(s, digits).value;
      t.indexRegister == s.indexRegister && |t.memory| == MEMORY_SIZE &&
      (forall k :: 0 <= k < |digits| ==> t.memory[s.indexRegister + k] == ToByte(digits[k])) &&
      (forall a :: 0 <= a < MEMORY_SIZE && !(s.indexRegister <= a < s.indexRegister + |digits|) ==>
        t.memory[a] == s.memory[a]) &&
      t == s.(memory := t.memory)
  {
  }

  /** Category F throws exactly for the NN values it has no case for. */
  lemma UnknownCategoryFThrows(s: MachineState, keys: map<Key, bool>, p: Payload, env: Env)
    requires WellFormed(s) && HasAllKeys(keys)
    requires !(p.nn in {0x07, 0x0A, 0x15, 0x18, 0x1E, 0x29, 0x33, 0x55, 0x65})
    ensures CategoryF(s, keys, p, env) == Err(BadFormat(0xF))
  {
  }

  // ---- drawing ----

  /** The cell the source addresses for sprite bit (i, j), ((x + j) mod 64, (y + i) mod 32),
      is toggled exactly when that bit is set. */
  lemma DrawAddressesCell(fb: seq<seq<Byte>>, sprite: seq<Byte>, x: int, y: int, i: int, j: int)
    requires IsFrameBuffer(fb) && 0 <= i < |sprite| && i < FRAME_BUFFER_HEIGHT && 0 <= j < BITS_PER_BYTE
    ensures var cx, cy := (x + j) % FRAME_BUFFER_WIDTH, (y + i) % FRAME_BUFFER_HEIGHT;
      DrawFrame(fb, sprite, x, y)[cx][cy] == if SpriteBit(sprite, i, j) then ByteXor(fb[cx][cy], 1) else fb[cx][cy]
  {
    var cx, cy := (x + j) % FRAME_BUFFER_WIDTH, (y + i) % FRAME_BUFFER_HEIGHT;
    VisitedCell(x, y, i, j, cx, cy);
  }

  /** Every cell the draw changes lies under a set sprite bit. */
  lemma DrawChangesOnlySpriteCells(fb: seq<seq<Byte>>, sprite: seq<Byte>, x: int, y: int, cx: int, cy: int)
    requires IsFrameBuffer(fb) && 0 <= cx < FRAME_BUFFER_WIDTH && 0 <= cy < FRAME_BUFFER_HEIGHT
    requires DrawFrame(fb, sprite, x, y)[cx][cy] != fb[cx][cy]
    ensures exists i, j ::
      0 <= i < |sprite| && 0 <= j < BITS_PER_BYTE && SpriteBit(sprite, i, j) &&
      cx == (x + j) % FRAME_BUFFER_WIDTH && cy == (y + i) % FRAME_BUFFER_HEIGHT
  {
    DrawnCellValue(fb, sprite, x, y, cx, cy);
    CoveredCellIsVisited(sprite, x, y, cx, cy);
  }

  /** A covered cell is the one the source addresses for its sprite coordinates. */
  lemma CoveredCellIsVisited(sprite: seq<Byte>, x: int, y: int, cx: int, cy: int)
    requires 0 <= cx < FRAME_BUFFER_WIDTH && 0 <= cy < FRAME_BUFFER_HEIGHT
    requires Covered(sprite, x, y, cx, cy)
    ensures exists i, j ::
      0 <= i < |sprite| && 0 <= j < BITS_PER_BYTE && SpriteBit(sprite, i, j) &&
      cx == (x + j) % FRAME_BUFFER_WIDTH && cy == (y + i) % FRAME_BUFFER_HEIGHT
  {
    var i, j := (cy - y) % FRAME_BUFFER_HEIGHT, (cx - x) % FRAME_BUFFER_WIDTH;
    VisitedCell(x, y, i, j, cx, cy);
    assert SpriteBit(sprite, i, j);
  }

  lemma DrawnCellValue(fb: seq<seq<Byte>>, sprite: seq<Byte>, x: int, y: int, cx: int, cy: int)
    requires IsFrameBuffer(fb) && 0 <= cx < FRAME_BUFFER_WIDTH && 0 <= cy < FRAME_BUFFER_HEIGHT
    ensures DrawFrame(fb, sprite, x, y)[cx][cy] ==
      if Covered(sprite, x, y, cx, cy) then ByteXor(fb[cx][cy], 1) else fb[cx][cy]
  {
  }

  /** Drawing the same sprite at the same place twice restores the frame. */
  lemma DrawTwiceRestoresFrame(fb: seq<seq<Byte>>, sprite: seq<Byte>, x: int, y: int)
    requires IsFrameBuffer(fb)
    ensures DrawFrame(DrawFrame(fb, sprite, x, y), sprite, x, y) == fb
  {
    var once := DrawFrame(fb, sprite, x, y);
    var twice := DrawFrame(once, sprite, x, y);
    forall cx | 0 <= cx < FRAME_BUFFER_WIDTH
      ensures twice[cx] == fb[cx]
    {
      forall cy | 0 <= cy < FRAME_BUFFER_HEIGHT
        ensures twice[cx][cy] == fb[cx][cy]
      {
        ToggleTwice(fb[cx][cy]);
      }
    }
  }

  /** Every cell is 0 or 1. */
  predicate IsBinary(fb: seq<seq<Byte>>)
    requires IsFrameBuffer(fb)
  {
    forall cx, cy :: 0 <= cx < FRAME_BUFFER_WIDTH && 0 <= cy < FRAME_BUFFER_HEIGHT ==> fb[cx][cy] <= 1
  }

  lemma ToggleBit(v: Byte)
    requires v <= 1
    ensures ByteXor(v, 1) == 1 - v
  {
    Pow2Byte();
    XorOneFlipsLowBit(v, BITS_PER_BYTE);
  }

  /** On a frame of 0s and 1s, drawing keeps it so. */
  lemma DrawKeepsBinary(fb: seq<seq<Byte>>, sprite: seq<Byte>, x: int, y: int)
    requires IsFrameBuffer(fb) && IsBinary(fb)
    ensures IsBinary(DrawFrame(fb, sprite, x, y))
  {
    forall cx, cy | 0 <= cx < FRAME_BUFFER_WIDTH && 0 <= cy < FRAME_BUFFER_HEIGHT
      ensures DrawFrame(fb, sprite, x, y)[cx][cy] <= 1
    {
      ToggleBit(fb[cx][cy]);
    }
  }

  /** On a frame of 0s and 1s, VF's collision condition holds exactly when the draw turns
      some lit pixel off. */
  lemma CollisionIffPixelErased(fb: seq<seq<Byte>>, sprite: seq<Byte>, x: int, y: int)
    requires IsFrameBuffer(fb) && IsBinary(fb) && |sprite| <= FRAME_BUFFER_HEIGHT
    ensures Collision(fb, sprite, x, y) <==>
      exists cx, cy :: 0 <= cx < FRAME_BUFFER_WIDTH && 0 <= cy < FRAME_BUFFER_HEIGHT &&
        fb[cx][cy] == 1 && DrawFrame(fb, sprite, x, y)[cx][cy] == 0
  {
    var after := DrawFrame(fb, sprite, x, y);
    if Collision(fb, sprite, x, y) {
      var i, j :| 0 <= i < |sprite| && 0 <= j < BITS_PER_BYTE && SpriteBit(sprite, i, j) &&
        fb[(x + j) % FRAME_BUFFER_WIDTH][(y + i) % FRAME_BUFFER_HEIGHT] != 0;
      var cx, cy := (x + j) % FRAME_BUFFER_WIDTH, (y + i) % FRAME_BUFFER_HEIGHT;
      DrawAddressesCell(fb, sprite, x, y, i, j);
      ToggleBit(fb[cx][cy]);
      assert fb[cx][cy] == 1 && after[cx][cy] == 0;
    }
    if exists cx, cy :: 0 <= cx < FRAME_BUFFER_WIDTH && 0 <= cy < FRAME_BUFFER_HEIGHT &&
        fb[cx][cy] == 1 && after[cx][cy] == 0 {
      var cx, cy :| 0 <= cx < FRAME_BUFFER_WIDTH && 0 <= cy < FRAME_BUFFER_HEIGHT &&
        fb[cx][cy] == 1 && after[cx][cy] == 0;
      DrawChangesOnlySpriteCells(fb, sprite, x, y, cx, cy);
      var i, j :| 0 <= i < |sprite| && 0 <= j < BITS_PER_BYTE && SpriteBit(sprite, i, j) &&
        cx == (x + j) % FRAME_BUFFER_WIDTH && cy == (y + i) % FRAME_BUFFER_HEIGHT;
      assert fb[(x + j) % FRAME_BUFFER_WIDTH][(y + i) % FRAME_BUFFER_HEIGHT] != 0;
    }
  }

  /** Nothing collides on a cleared screen: a draw right after 00E0 leaves VF = 0. */
  lemma NoCollisionOnClearedScreen(s: MachineState, p: Payload)
    requires WellFormed(s)
    ensures var cleared := ClearScreen(s);
      WellFormed(cleared) &&
      (Draw(cleared, p).Ok? ==> Draw(cleared, p).value.registers[FLAG] == 0)
  {
  }

  /** DXYN executed twice with the same operands restores the screen, provided neither X
      nor Y is F (the first draw rewrites VF). */
  lemma DrawTwiceRestoresScreen(s: MachineState, p: Payload)
    requires WellFormed(s) && p.x != FLAG && p.y != FLAG
    ensures Draw(s, p).Ok? ==>
      WellFormed(Draw(s, p).value) &&
      Draw(Draw(s, p).value, p).Ok? &&
      Draw(Draw(s, p).value, p).value.frameBuffer == s.frameBuffer
  {
    if Draw(s, p).Ok? {
      var sprite := SpriteAt(s, p.n).value;
      DrawTwiceRestoresFrame(s.frameBuffer, sprite, s.registers[p.x], s.registers[p.y]);
    }
  }

  // ---- category 0, loads and timers ----

  /** 00E0 blanks every cell and changes nothing else; 00EE returns; any other 0NNN throws. */
  lemma Category0Dispatch(s: MachineState, p: Payload)
    requires WellFormed(s)
    ensures Category0(s, p).Err? ==>
      Category0(s, p) == Err(MachineCallUnsupported) || Category0(s, p) == Err(NothingToReturnTo)
    ensures (p.x == 0 && p.y == 0xE && p.n == 0) ==>
      Category0(s, p).Ok? &&
      Category0(s, p).value == s.(frameBuffer := Category0(s, p).value.frameBuffer) &&
      forall cx, cy :: 0 <= cx < FRAME_BUFFER_WIDTH && 0 <= cy < FRAME_BUFFER_HEIGHT ==>
        Category0(s, p).value.frameBuffer[cx][cy] == 0
    ensures (p.x == 0 && p.y == 0xE && p.n == 0xE) ==> Category0(s, p) == Return(s)
    ensures !(p.x == 0 && p.y == 0xE && (p.n == 0 || p.n == 0xE)) ==>
      Category0(s, p) == Err(MachineCallUnsupported)
  {
  }

  /** 6XNN sets VX to NN and ANNN sets I to NNN; nothing else changes. */
  lemma LoadsSetOneField(s: MachineState, p: Payload)
    requires WellFormed(s)
    ensures var t := SetRegister(s, p);
      t.registers[p.x] == p.nn &&
      (forall r :: 0 <= r < NUM_REGISTERS && r != p.x ==> t.registers[r] == s.registers[r]) &&
      t == s.(registers := t.registers)
    ensures SetIndexRegister(s, p) == s.(indexRegister := p.nnn)
  {
  }

  /** FX07 copies the delay timer into VX, FX15 and FX18 copy VX into the delay and sound
      timers, and FX1E adds VX to I modulo 65536, each changing nothing else; a value stored
      in the delay timer reads back unchanged. */
  lemma TimerAndIndexTransfers(s: MachineState, keys: map<Key, bool>, p: Payload, env: Env)
    requires WellFormed(s) && HasAllKeys(keys)
    ensures p.nn == 0x07 ==> CategoryF(s, keys, p, env) == Ok(s.(registers := s.registers[p.x := s.delayTimer]))
    ensures p.nn == 0x15 ==> CategoryF(s, keys, p, env) == Ok(s.(delayTimer := s.registers[p.x]))
    ensures p.nn == 0x18 ==> CategoryF(s, keys, p, env) == Ok(s.(soundTimer := s.registers[p.x]))
    ensures p.nn == 0x1E ==>
      CategoryF(s, keys, p, env).Ok? &&
      var t := CategoryF(s, keys, p, env).value;
      (t.indexRegister - s.indexRegister - s.registers[p.x]) % 65536 == 0 &&
      t == s.(indexRegister := t.indexRegister)
    // FX15 then FX07 on the same register reads back the value just stored and leaves the
    // registers as they were
    ensures p.nn == 0x15 ==>
      CategoryF(s, keys, p, env).Ok? &&
      CategoryF(CategoryF(s, keys, p, env).value, keys, p.(nn := 0x07), env)
        == Ok(s.(delayTimer := s.registers[p.x]))
  {
    if p.nn == 0x15 {
      var t := s.(delayTimer := s.registers[p.x]);
      assert CategoryF(s, keys, p, env) == Ok(t);
      assert t.registers[p.x := t.delayTimer] == s.registers;
    }
  }
}
