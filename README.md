# CHIP-8 emulator core, modelled in Dafny

This project models the core of a CHIP-8 emulator. The emulator is written in C++ and has
Python (Qt and pygame) and SFML front ends. The model covers three layers.

1. **The machine and its instruction semantics.**
   - The `CHIP_8` state has 4096 bytes of memory, sixteen byte registers, a sixteen-entry
     return stack, a 64 × 32 frame buffer indexed `[x][y]`, a 16-bit `pc` and index register,
     a byte stack pointer, byte delay and sound timers, and the `is_blocked` flag.
   - It is modelled as the class `Chip8.Machine`, with arrays for memory, registers, stack
     and frame buffer, plus the value `Chip8.MachineState` (the debugger's `Machine_state`
     snapshot).
   - Every handler of the executor is a method of `Executors.Executor`. Each one changes
     the machine in place and is proved against a pure function of the same name in
     `Semantics`. That function returns either the new state or the exception the handler
     throws, and the lemmas in `InstructionProperties` state what each instruction does.
   - Font loading, program loading, the keyboard status table and the bit helpers are
     modelled the same way.
   - The instruction set follows Cowgod's Chip-8 Technical Reference, section 3.1, and the
     font sprites follow section 2.4. Where the code differs from that reference, the model
     follows the code:
     - 8XY6 and 8XYE copy VY first;
     - 8XY1, 8XY2 and 8XY3 reset VF;
     - DXYN wraps around the screen instead of clipping.
2. **The history debugger.** It is an undo stack of full machine snapshots: push before
   each step, pop and restore on rewind.
3. **Execution control in the front ends.**
   - The two Qt applications: the NORMAL / DEBUG / BREAK mode machine and the older
     single debug flag, each with a step counter modulo `INSTRUCTIONS_PER_REFRESH`.
   - The wall-clock rate limiter of the SFML and pygame main loops.
   - SFML's frame-change detection and texture fill.
   - ROM padding.
   - Front-end effects (steps, rewinds, timer decrements, screen refreshes, key presses)
     are recorded in order in a log (`HostEffects.Effect`).

Bitwise operators on bytes are modelled arithmetically: `DataTypes.BitwiseOr`, `BitwiseAnd`
and `BitwiseXor` recurse over the bit width. Fixed-width wrap-around is written out
explicitly (`ToByte`, `ToDoubleByte`).

Neither rate limiter carries the sub-period remainder forward: both reset the last check
time to "now", so the remainder is dropped. `SfmlFrontEnd.RemainderIsLost` exhibits the
lost period. No instruction classifier exists in the modelled files; `Semantics.Execute`
dispatches on the category nibble as the executor's handler table does.

## Model

| member | source | states |
|---|---|---|
| MachineSpecs.NibblesPerByte | CHIP-8/machine-specs.hpp:5-7 | a byte holds two nibbles |
| MachineSpecs.ProgramAreaFillsMemory | CHIP-8/machine-specs.hpp:20-22 | MAX_NUM_INSTRUCTIONS is 1792, and two bytes per instruction from 0x200 end exactly at MEMORY_SIZE |
| MachineSpecs.StackEntries | CHIP-8/machine-specs.hpp:10-11 | the stack holds 32 / 2 = 16 return addresses |
| MachineSpecs.RefreshTiming | CHIP-8/machine-specs.hpp:24-30 | one refresh lasts 1000 / 60 = 16 ms by integer division (so 60 refreshes take under a second), and 540 / 60 = 9 instructions run per refresh |
| MachineSpecs.FontBelowProgram | CHIP-8/machine-specs.hpp:18-21 | the 80 font bytes from 0x50 end below the program start 0x200 |
| DataTypes.ToByte | CHIP-8/data-types.hpp:8 | storing into a byte keeps the value modulo 256, and keeps values already in 0..255 |
| DataTypes.ToDoubleByte | CHIP-8/data-types.hpp:9 | storing into a double_byte keeps the value modulo 65536, and keeps values already in range |
| DataTypes.BlankFrameBuffer | CHIP-8/data-types.hpp:12 | a 64-column by 32-row frame buffer whose every cell is 0 |
| DataTypes.OrBits | CHIP-8/executor.cpp:125 | bit k of a \| b is set iff bit k of a or of b is set |
| DataTypes.AndBits | CHIP-8/executor.cpp:129 | bit k of a & b is set iff bit k is set in both |
| DataTypes.XorBits | CHIP-8/executor.cpp:133 | bit k of a ^ b is set iff exactly one of a, b has it set |
| DataTypes.AndIsWithinMask | CHIP-8/executor.cpp:204 | a & mask is at most mask, and masking twice changes nothing |
| DataTypes.AndPow2IsBitTest | CHIP-8/executor.cpp:221 | bits & (1 << k) is non-zero exactly when bit k is set |
| DataTypes.XorZeroIdentity | CHIP-8/executor.cpp:224 | cell ^= 0 leaves the cell unchanged |
| DataTypes.ToggleTwice | CHIP-8/executor.cpp:231 | a byte XOR-ed with 1 twice is unchanged |
| FontData.FontShape | CHIP-8/font-data.hpp:13-50 | FONT_DATA has 16 glyphs of 5 bytes, the shape load_fonts asserts |
| FontData.GlyphsAreFourPixelsWide | CHIP-8/font-data.hpp:16-31 | every glyph byte has a zero low nibble |
| Helpers.ConcatenateBytes | CHIP-8/helpers.cpp:3-6 | the result's high byte is b1 and its low byte is b2 |
| Helpers.ConcatenateBytesInjective | CHIP-8/helpers.hpp:6-9 | different byte pairs give different double bytes |
| Helpers.GetNibblesInRange | CHIP-8/helpers.cpp:17-40 | the result (b >> 4·(3 − last)) & (16^(last − first + 1) − 1) equals (b >> 4·(3 − last)) mod 16^(last − first + 1), nibbles first..last of b, and is below that power |
| Helpers.NibbleMask | CHIP-8/helpers.cpp:34-38 | the mask loop ends with mask = 16^n for n nibbles to extract |
| DataTypes.AndLowMaskIsMod | CHIP-8/helpers.cpp:40 | v & (2^k − 1) is v mod 2^k, so masking with 16^n − 1 keeps the n low nibbles |
| Helpers.NibblesInRangeExample | CHIP-8/helpers.cpp:13-15 | nibbles 1 to 2 of 0xABCD are 0xBC |
| Helpers.NibblesInRangeFull | CHIP-8/helpers.cpp:17-40 | nibbles 0 to 3 of b are b itself |
| Helpers.NibblesRebuildDoubleByte | CHIP-8/helpers.cpp:17-40 | concatenating nibbles 0-1 and nibbles 2-3 rebuilds the double byte |
| Keys.Pressed | CHIP-8/keyboard.cpp:21-24 | is_key_pressed gives the key's status when the key is in the table and throws KeyAbsent otherwise |
| Keys.Keyboard.constructor | CHIP-8/keyboard.cpp:3-9 | exactly K0..KF are in the table, all released |
| Keys.Keyboard.SetKeyPressed | CHIP-8/keyboard.cpp:11-14 | the table afterwards is the old table with k set to true |
| Keys.Keyboard.SetKeyReleased | CHIP-8/keyboard.cpp:16-19 | the table afterwards is the old table with k set to false |
| Keys.Keyboard.IsKeyPressed | CHIP-8/keyboard.cpp:21-24 | the result is Pressed of the unchanged table |
| Keys.SetThenQuery | CHIP-8/keyboard.cpp:11-24 | after pressing k it reads pressed, after releasing k it reads released |
| Keys.SetterChangesOnlyItsKey | CHIP-8/keyboard.cpp:11-19 | setting k does not change what any other key reads |
| Keys.SetterIdempotent | CHIP-8/keyboard.cpp:11-19 | setting a key twice to the same status equals setting it once |
| Keys.NoneAbsentInitially | CHIP-8/keyboard.cpp:21-24 | on a freshly built table, querying NONE throws |
| Chip8.Machine.StateWellFormed | CHIP-8/CHIP-8.hpp:26-39 | a valid machine's snapshot has the array sizes of the header and a stack pointer within the stack |
| Chip8.Machine.constructor | CHIP-8/CHIP-8.cpp:5-11 | the machine is built zeroed, with pc at 0x200, fonts loaded, and is_blocked left as it happens to be |
| Chip8.Machine.LoadFonts | CHIP-8/CHIP-8.cpp:27-41 | memory becomes FontImage of the old memory; the start location argument plays no part |
| Chip8.FontImagePlacesGlyphs | CHIP-8/CHIP-8.cpp:33-40 | glyph d's byte j lands at 0x50 + 5d + j, and every other cell keeps its value |
| Chip8.InitialMemoryHoldsFonts | CHIP-8/CHIP-8.cpp:5-11 | after construction the glyphs are at 0x50 + 5d + j and all other memory is 0 |
| Chip8.InitialStateWellFormed | CHIP-8/CHIP-8.cpp:5-8 | the constructed state is well formed, pc is 0x200 and all registers are 0 |
| Chip8.Machine.LoadProgram | CHIP-8/CHIP-8.cpp:13-20 | as written: memory becomes ProgramImage, with word i truncated to a byte at 0x200 + i |
| Chip8.ProgramImageKeepsLowMemory | CHIP-8/CHIP-8.cpp:15-19 | loading a program leaves memory below 0x200, fonts included, unchanged |
| Chip8.ProgramImageLosesHighByte | CHIP-8/CHIP-8.cpp:13-20 | as written, a program of 0x00E0 words reads back from its first two bytes as 0xE0E0 |
| Chip8.Machine.LoadProgramWords | CHIP-8/CHIP-8.cpp:13-20 | corrected: memory becomes WordImage, with word i big-endian at 0x200 + 2i |
| Chip8.WordImageRoundTrip | CHIP-8/CHIP-8.cpp:13-20 | every word reads back from its two bytes as itself, and memory below 0x200 is unchanged |
| Semantics.Execute | CHIP-8/executor.cpp:18-34 | the 16-entry handler table, in opcode order; every successful instruction keeps the state well formed |
| Executors.Executor.Execute | CHIP-8/executor.cpp:31-34 | the machine ends in the state Semantics.Execute gives, or reports its fault with the machine unchanged |
| Executors.Executor.Category0 | CHIP-8/executor.cpp:36-50 | agrees with Semantics.Category0: 00E0 clears, 00EE returns, any other 0NNN throws with nothing changed |
| Executors.Executor.ClearScreen | CHIP-8/executor.cpp:332-335 | the frame buffer becomes all zeros and nothing else changes |
| Executors.Executor.Return | CHIP-8/executor.cpp:337-346 | agrees with Semantics.Return: it throws on an empty stack, otherwise pops into pc |
| Executors.Executor.Jump | CHIP-8/executor.cpp:52-60 | agrees with Semantics.Jump |
| Executors.Executor.SubroutineCall | CHIP-8/executor.cpp:62-76 | agrees with Semantics.SubroutineCall |
| Executors.Executor.SkipIfVxEqNn | CHIP-8/executor.cpp:78-84 | agrees with Semantics.SkipIfVxEqNn |
| Executors.Executor.SkipIfVxNeqNn | CHIP-8/executor.cpp:86-92 | agrees with Semantics.SkipIfVxNeqNn |
| Executors.Executor.SkipIfVxEqVy | CHIP-8/executor.cpp:94-105 | agrees with Semantics.SkipIfVxEqVy, including the throw when N ≠ 0 |
| Executors.Executor.SetRegister | CHIP-8/executor.cpp:107-110 | agrees with Semantics.SetRegister |
| Executors.Executor.IncRegByConst | CHIP-8/executor.cpp:112-115 | agrees with Semantics.IncRegByConst |
| Executors.Executor.OperateAndAssign | CHIP-8/executor.cpp:117-176 | agrees with Semantics.OperateAndAssign, VF written after VX |
| Executors.Executor.AssignWithFlag | CHIP-8/executor.cpp:125-126 | VX takes the result and VF the flag, in that order, so with X = F the flag wins; no other state changes |
| Executors.Executor.SkipIfVxNeqVy | CHIP-8/executor.cpp:178-189 | agrees with Semantics.SkipIfVxNeqVy, including the throw when N ≠ 0 |
| Executors.Executor.SetIndexRegister | CHIP-8/executor.cpp:191-194 | agrees with Semantics.SetIndexRegister |
| Executors.Executor.JumpWithOffset | CHIP-8/executor.cpp:196-199 | agrees with Semantics.JumpWithOffset |
| Executors.Executor.SetRandom | CHIP-8/executor.cpp:201-205 | agrees with Semantics.SetRandom for the given value of rand() |
| Executors.Executor.Draw | CHIP-8/executor.cpp:207-236 | agrees with Semantics.Draw: the frame buffer becomes DrawFrame and VF the collision bit |
| Executors.Executor.ToggleSprite | CHIP-8/executor.cpp:215-233 | the nested loop leaves the frame buffer equal to DrawFrame of the old one, and returns 1 iff some set sprite bit hit a lit cell |
| Executors.Executor.ToggleRow | CHIP-8/executor.cpp:219-232 | one sprite row: the cells of bits up to and including row i are toggled, and the flag records a collision so far |
| Executors.Executor.ToggleBit | CHIP-8/executor.cpp:221-231 | one sprite bit: its cell is XOR-ed with the bit, and the flag becomes 1 when a set bit meets a non-zero cell |
| Executors.Executor.SkipCondKey | CHIP-8/executor.cpp:238-263 | agrees with Semantics.SkipCondKey on the machine's keyboard table |
| Executors.Executor.CategoryF | CHIP-8/executor.cpp:265-330 | agrees with Semantics.CategoryF on the machine's keyboard table |
| Executors.Executor.WaitForKey | CHIP-8/executor.cpp:272-285 | agrees with Semantics.WaitForKey: it blocks, then takes the first pressed key from K0 |
| Executors.Executor.StoreDigits | CHIP-8/executor.cpp:301-309 | agrees with Semantics.StoreDigits |
| Executors.Executor.StoreRegisters | CHIP-8/executor.cpp:310-317 | agrees with Semantics.StoreRegisters |
| Executors.Executor.LoadRegisters | CHIP-8/executor.cpp:318-325 | agrees with Semantics.LoadRegisters |
| InstructionProperties.Category0Dispatch | CHIP-8/executor.cpp:36-50 | 00E0 zeroes every cell and changes nothing else; 00EE is a return; any other 0NNN throws "machine call unsupported" |
| InstructionProperties.CallThenReturn | CHIP-8/executor.cpp:62-76 | 2NNN succeeds iff NNN < 4096 and sp < 16; it pushes the old pc at stack[sp] and jumps; a following 00EE restores pc and sp |
| InstructionProperties.ReturnPops | CHIP-8/executor.cpp:337-346 | 00EE throws iff sp == 0; otherwise it decrements sp and sets pc to stack[sp], nothing else |
| InstructionProperties.JumpStaysInMemory | CHIP-8/executor.cpp:52-60 | 1NNN throws iff NNN ≥ 4096; otherwise only pc changes, to NNN |
| InstructionProperties.JumpWithOffsetTarget | CHIP-8/executor.cpp:196-199 | BNNN changes only pc, to V0 + NNN modulo 2^16; for a 12-bit NNN there is no wrap, and pc lies outside memory exactly when V0 + NNN ≥ 4096 |
| InstructionProperties.JumpWithOffsetUnchecked | CHIP-8/executor.cpp:196-199 | BNNN does no range check: V0 = 0xFF with NNN = 0xFFF puts pc at 0x10FE, outside memory |
| InstructionProperties.SkipsChangeOnlyPc | CHIP-8/executor.cpp:78-105 | every successful 3, 4, 5, 9 and E instruction changes only pc, and only by 0 or INSTRUCTION_SIZE |
| InstructionProperties.SkipOnNnComplementary | CHIP-8/executor.cpp:78-92 | 3XNN skips iff VX == NN, and 4XNN skips in exactly the other case |
| InstructionProperties.SkipOnVyComplementary | CHIP-8/executor.cpp:94-105 | 5XYN and 9XYN throw iff N ≠ 0; otherwise 5XY0 skips iff VX == VY and 9XY0 iff VX ≠ VY |
| InstructionProperties.SkipOnKeyComplementary | CHIP-8/executor.cpp:238-263 | EX9E skips iff key VX is pressed and EXA1 iff it is not; a VX with no table entry throws |
| InstructionProperties.LoadsSetOneField | CHIP-8/executor.cpp:107-110 | 6XNN sets VX to NN and ANNN sets I to NNN, and nothing else changes |
| InstructionProperties.AddConstWraps | CHIP-8/executor.cpp:112-115 | 7XNN adds NN to VX modulo 256 and leaves every other register, VF included, alone |
| InstructionProperties.RandomIsMasked | CHIP-8/executor.cpp:201-205 | CXNN leaves VX no larger than NN, with no bit outside NN |
| InstructionProperties.LogicOpsAreBitwise | CHIP-8/executor.cpp:124-135 | 8XY1, 8XY2 and 8XY3 compute bitwise OR, AND and XOR, then set VF to 0 |
| InstructionProperties.AddWithCarry | CHIP-8/executor.cpp:136-142 | 8XY4 leaves VX + 256·VF equal to the true sum, with VF = 1 iff the sum exceeds 255 |
| InstructionProperties.SubtractWithBorrow | CHIP-8/executor.cpp:143-149 | 8XY5 sets VF = 1 iff VX ≥ VY, and VX to the difference modulo 256 |
| InstructionProperties.ReverseSubtractWithBorrow | CHIP-8/executor.cpp:158-164 | 8XY7 sets VF = 1 iff VY ≥ VX, and VX to VY − VX modulo 256 |
| InstructionProperties.ShiftRightRebuilds | CHIP-8/executor.cpp:150-157 | 8XY6 copies VY and shifts right; 2·VX + VF rebuilds the original VY |
| InstructionProperties.ShiftLeftRebuilds | CHIP-8/executor.cpp:165-172 | 8XYE copies VY and shifts left; VX + 256·VF is twice the original VY |
| InstructionProperties.FlagWrittenLast | CHIP-8/executor.cpp:124-164 | with X = F, VF ends holding the flag, not the arithmetic result |
| InstructionProperties.UnknownArithmeticThrows | CHIP-8/executor.cpp:173-175 | 8XYN throws iff N is not one of 0-7 or E |
| InstructionProperties.WaitForKeyTakesLowestKey | CHIP-8/executor.cpp:272-285 | FX0A stays blocked with VX unchanged iff no key is pressed; otherwise VX becomes the lowest pressed key and is_blocked is cleared |
| InstructionProperties.FirstPressedIsLowest | CHIP-8/executor.cpp:275-283 | the key loop finds the lowest pressed key at or after its start, or none iff none is pressed |
| InstructionProperties.TimerAndIndexTransfers | CHIP-8/executor.cpp:269-294 | FX07 copies the delay timer into VX, FX15 and FX18 copy VX into the timers, each changing nothing else; FX1E adds VX to I modulo 65536 and changes nothing else; FX15 followed by FX07 on the same register reads back VX and leaves the registers unchanged |
| InstructionProperties.StoreDigitsWritesAtIndex | CHIP-8/executor.cpp:301-309 | FX33 writes the digits at I onward without moving I, and throws iff they would pass the end of memory |
| InstructionProperties.StoreThenLoadRoundTrip | CHIP-8/executor.cpp:310-325 | FX55 succeeds iff I + X < 4096, writes V0..VX to memory[I..I+X], leaves I = I + X + 1, and an FX65 from the same I reads the registers back |
| InstructionProperties.LoadRegistersReads | CHIP-8/executor.cpp:318-325 | FX65 loads V0..VX from memory[I..I+X], keeps the other registers and leaves I = I + X + 1 |
| InstructionProperties.UnknownCategoryFThrows | CHIP-8/executor.cpp:326-328 | an FX instruction with an unlisted NN throws |
| InstructionProperties.DrawAddressesCell | CHIP-8/executor.cpp:216-232 | set bit j of sprite row i toggles cell ((x + j) mod 64, (y + i) mod 32); a clear bit leaves it unchanged |
| InstructionProperties.DrawChangesOnlySpriteCells | CHIP-8/executor.cpp:216-232 | every cell DXYN changes lies under a set sprite bit |
| InstructionProperties.CoveredCellIsVisited | CHIP-8/executor.cpp:221-231 | a cell under a set sprite bit is the cell ((x + j) mod 64, (y + i) mod 32) for some set bit (i, j) |
| InstructionProperties.DrawTwiceRestoresFrame | CHIP-8/executor.cpp:216-232 | drawing the same sprite at the same place twice restores the frame |
| InstructionProperties.DrawKeepsBinary | CHIP-8/executor.cpp:224-231 | a frame of 0s and 1s stays one |
| InstructionProperties.CollisionIffPixelErased | CHIP-8/executor.cpp:227-235 | on a 0/1 frame, VF = 1 iff some lit cell was turned off |
| InstructionProperties.NoCollisionOnClearedScreen | CHIP-8/executor.cpp:207-236 | a draw right after 00E0 sets VF to 0 |
| InstructionProperties.DrawTwiceRestoresScreen | CHIP-8/executor.cpp:207-236 | DXYN twice with X, Y ≠ F succeeds and restores the screen |
| Debuggers.RewindAsWrittenReadsDestroyedSnapshot | CHIP-8/debugger.cpp:29-37 | as written, go_back_one loads a snapshot through a reference that the pop has just destroyed |
| Debuggers.AdvanceThenRewind | CHIP-8/debugger.cpp:10-36 | run_one pushes exactly one snapshot, the pre-step machine; a following go_back_one restores the machine and the history |
| Debuggers.RewindReportsRemaining | CHIP-8/debugger.cpp:29-37 | go_back_one shrinks the history by one and returns true iff it is still non-empty |
| Debuggers.RunAllPushes | CHIP-8/debugger.cpp:10-27 | n run_one calls add n snapshots and keep the older history as a prefix, whatever run_one reports |
| Debuggers.RunsThenGoBacksRestore | CHIP-8/debugger.cpp:10-37 | n run_one calls followed by n go_back_one calls give back the starting machine and history |
| Debuggers.GoBackLast | CHIP-8/debugger.cpp:29-37 | each further go_back_one removes one more snapshot |
| Debuggers.HistoryLength | CHIP-8/debugger.cpp:24-32 | history length = number of run_one calls − number of go_back_one calls |
| Debuggers.Debugger.constructor | CHIP-8/debugger.hpp:16-17 | the debugger holds its own copy of the machine and an empty history |
| Debuggers.Debugger.RunOne | CHIP-8/debugger.cpp:10-27 | the new machine, history and result are those of Advance |
| Debuggers.Debugger.GoBackOne | CHIP-8/debugger.cpp:29-37 | corrected: on a non-empty history, the new machine, history and result are those of Rewind |
| EmulatorGui.Launch | Python-Frontend/CHIP8/PyCHIP8/gui/main_emulator/main.py:19-44 | the app starts in NORMAL with no previous mode, the timer running and the debug windows hidden |
| EmulatorGui.BreakModeToggled | Python-Frontend/CHIP8/PyCHIP8/gui/main_emulator/main.py:62-77 | from BREAK it goes to DEBUG iff the previous mode was DEBUG (else NORMAL); from any other mode it goes to BREAK; the old mode is recorded; consistency is kept |
| EmulatorGui.DebugModeToggled | Python-Frontend/CHIP8/PyCHIP8/gui/main_emulator/main.py:79-92 | DEBUG and BREAK go to NORMAL, NORMAL goes to DEBUG with the timer left alone; the old mode is recorded; consistency is kept |
| EmulatorGui.StepForward | Python-Frontend/CHIP8/PyCHIP8/gui/main_emulator/main.py:115-124 | the counter stays in [0, 9) |
| EmulatorGui.StepBack | Python-Frontend/CHIP8/PyCHIP8/gui/main_emulator/main.py:126-134 | the counter stays in [0, 9) |
| EmulatorGui.ToggleBreakTwiceRestoresMode | Python-Frontend/CHIP8/PyCHIP8/gui/main_emulator/main.py:62-77 | toggling BREAK twice returns to the original mode |
| EmulatorGui.ToggleDebugTwice | Python-Frontend/CHIP8/PyCHIP8/gui/main_emulator/main.py:79-92 | toggling DEBUG twice returns to the original mode, except that BREAK comes back as DEBUG |
| EmulatorGui.RefreshCounts | Python-Frontend/CHIP8/PyCHIP8/gui/main_emulator/main.py:46-55 | refresh makes 9 silent steps in NORMAL or 9 callback steps in DEBUG, then one timer decrement and one screen refresh, and no rewind |
| EmulatorGui.RefreshCountOf | Python-Frontend/CHIP8/PyCHIP8/gui/main_emulator/main.py:46-55 | the same count, effect by effect |
| EmulatorGui.StepBackUndoesCounter | Python-Frontend/CHIP8/PyCHIP8/gui/main_emulator/main.py:115-134 | a step back undoes a step forward's counter change, and the other way round |
| EmulatorGui.ForwardCountOf | Python-Frontend/CHIP8/PyCHIP8/gui/main_emulator/main.py:115-124 | a step forward adds one callback step, plus a timer decrement and a screen refresh exactly when the counter wraps to 0 |
| EmulatorGui.StepsForwardPaceTheTimers | Python-Frontend/CHIP8/PyCHIP8/gui/main_emulator/main.py:115-124 | n steps forward from counter 0 leave the counter at n mod 9, with n callback steps and n / 9 timer decrements |
| EmulatorGui.MainWindow.SetExecutionMode | Python-Frontend/CHIP8/PyCHIP8/gui/main_emulator/main.py:112-113 | the window's mode becomes the given one and its counter is unchanged |
| EmulatorGui.MainWindow.DebuggerGoForward | Python-Frontend/CHIP8/PyCHIP8/gui/main_emulator/main.py:115-124 | requires BREAK; the counter and effect log become those of StepForward |
| EmulatorGui.MainWindow.DebuggerGoBack | Python-Frontend/CHIP8/PyCHIP8/gui/main_emulator/main.py:126-134 | requires BREAK; the counter and effect log become those of StepBack |
| EmulatorGui.App.constructor | Python-Frontend/CHIP8/PyCHIP8/gui/main_emulator/main.py:16-44 | the app's state is Launch() and is consistent |
| EmulatorGui.App.Refresh | Python-Frontend/CHIP8/PyCHIP8/gui/main_emulator/main.py:46-55 | the state becomes Refreshed of the old state, and stays consistent |
| EmulatorGui.App.ToggleBreakMode | Python-Frontend/CHIP8/PyCHIP8/gui/main_emulator/main.py:62-77 | the state becomes BreakModeToggled of the old state, and stays consistent |
| EmulatorGui.App.ToggleDebugMode | Python-Frontend/CHIP8/PyCHIP8/gui/main_emulator/main.py:79-92 | the state becomes DebugModeToggled of the old state, and stays consistent |
| LegacyGui.Launch | Python-Frontend/CHIP8/PyCHIP8/gui/main.py:21-51 | the app starts out of debug mode, with the timer running and no effects |
| LegacyGui.DebugModeToggled | Python-Frontend/CHIP8/PyCHIP8/gui/main.py:65-76 | the flag flips, the counter and log are kept, and consistency is kept: timer iff not debugging, windows iff debugging, window flag = app flag |
| LegacyGui.StepForward | Python-Frontend/CHIP8/PyCHIP8/gui/main.py:102-111 | the counter stays in [0, 9) |
| LegacyGui.StepBack | Python-Frontend/CHIP8/PyCHIP8/gui/main.py:113-120 | the counter stays in [0, 9), never negative |
| LegacyGui.ToggleTwiceRestores | Python-Frontend/CHIP8/PyCHIP8/gui/main.py:65-76 | toggling twice gives back the whole consistent state |
| LegacyGui.StepKeysIgnoredOutsideDebugMode | Python-Frontend/CHIP8/PyCHIP8/gui/main.py:122-130 | outside debug mode a key press only presses a keypad key; the counter is unchanged |
| LegacyGui.StepKeysActInDebugMode | Python-Frontend/CHIP8/PyCHIP8/gui/main.py:122-130 | in debug mode the forward key steps and the back key rewinds; every key press keeps the state consistent |
| LegacyGui.StepBackUndoesCounter | Python-Frontend/CHIP8/PyCHIP8/gui/main.py:102-120 | a step back undoes a step forward's counter change, and the other way round |
| LegacyGui.MainWindow.SetDebugMode | Python-Frontend/CHIP8/PyCHIP8/gui/main.py:99-100 | the window's flag becomes the given one and its counter is unchanged |
| LegacyGui.MainWindow.DebuggerGoForward | Python-Frontend/CHIP8/PyCHIP8/gui/main.py:102-111 | the counter and effect log become those of StepForward |
| LegacyGui.MainWindow.DebuggerGoBack | Python-Frontend/CHIP8/PyCHIP8/gui/main.py:113-120 | the counter and effect log become those of StepBack |
| LegacyGui.MainWindow.KeyPressEvent | Python-Frontend/CHIP8/PyCHIP8/gui/main.py:122-130 | the counter and effect log become those of KeyPressed, and the flag is unchanged |
| LegacyGui.App.constructor | Python-Frontend/CHIP8/PyCHIP8/gui/main.py:16-51 | the app's state is Launch() and is consistent |
| LegacyGui.App.Refresh | Python-Frontend/CHIP8/PyCHIP8/gui/main.py:53-58 | the log gains exactly 9 silent steps, one timer decrement and one screen refresh |
| LegacyGui.App.ToggleDebugMode | Python-Frontend/CHIP8/PyCHIP8/gui/main.py:65-76 | the state becomes DebugModeToggled of the old state, and stays consistent |
| Timing.TruncatedMilliseconds | Frontend-C++-SFML/main.cpp:117-118 | elapsed nanoseconds become whole milliseconds truncated toward zero, for negative durations as well (minus the milliseconds of the magnitude) |
| Timing.RefreshesElapsed | Frontend-C++-SFML/main.cpp:126 | at least one whole 16 ms period, and the greatest number that fits in the elapsed time |
| Timing.TruncationSuperadditive | Frontend-C++-SFML/main.cpp:117-124 | truncating two intervals separately never gives more milliseconds than truncating their sum |
| SfmlFrontEnd.RunWhileRunning | Frontend-C++-SFML/main.cpp:129-132 | at most n steps run; none once the ROM has stopped; fewer than n only if run_one reported a stop |
| SfmlFrontEnd.LimiterPass | Frontend-C++-SFML/main.cpp:115-135 | the loop computes Tick: the machine, check time, counts and running flag after one pass |
| SfmlFrontEnd.IdleBelowOneRefresh | Frontend-C++-SFML/main.cpp:115-123 | below 16 elapsed ms nothing runs and the check time is unchanged |
| SfmlFrontEnd.PassDropsRemainder | Frontend-C++-SFML/main.cpp:124-135 | otherwise the check time becomes now, ms / 16 periods are credited, and up to 9 × that many steps run (exactly that many while the ROM runs) |
| SfmlFrontEnd.StoppedRomRunsNothing | Frontend-C++-SFML/main.cpp:129-135 | once the ROM has stopped no instruction runs, but periods are still credited to the timers |
| SfmlFrontEnd.NeverAheadOfClock | Frontend-C++-SFML/main.cpp:115-135 | over any run of passes, the credited periods fit in the elapsed time, and at most 9 instructions run per period |
| SfmlFrontEnd.RemainderIsLost | Frontend-C++-SFML/main.cpp:124-126 | passes at 31 ms and 62 ms credit only 2 periods, though 62 ms hold 3 |
| SfmlFrontEnd.LongStallLosesDecrements | Frontend-C++-SFML/main.cpp:134-135 | the decrements passed are the owed count mod 256, and fewer than owed exactly when 256 or more are owed |
| SfmlFrontEnd.Screen.constructor | Frontend-C++-SFML/main.cpp:144 | the stored previous frame starts all zeros |
| SfmlFrontEnd.Screen.RedrawNecessary | Frontend-C++-SFML/main.cpp:142-161 | the result is true iff some cell differs from the stored frame, and afterwards the stored frame equals fb |
| SfmlFrontEnd.Screen.CopyColumn | Frontend-C++-SFML/main.cpp:149-157 | column x is copied, the other columns are untouched, and the result says whether column x differed |
| SfmlFrontEnd.Screen.RedrawIfNecessary | Frontend-C++-SFML/main.cpp:163-177 | the window is redrawn exactly when the frame changed |
| SfmlFrontEnd.RepeatedFrameNeedsNoRedraw | Frontend-C++-SFML/main.cpp:142-177 | a frame compared with itself has no changed cell, so a second redraw_if_necessary of the frame just stored leaves the redraw count unchanged |
| SfmlFrontEnd.OffsetDecodes | Frontend-C++-SFML/main.cpp:202 | the byte offset of channel c of pixel (x·S + j, y·S + i) decodes back to that screen row, column and channel |
| SfmlFrontEnd.PixelWindow | Frontend-C++-SFML/main.cpp:202 | a texture byte belongs to screen pixel (x·S + j, y·S + i) exactly when it lies in the four bytes at that pixel's offset |
| SfmlFrontEnd.EveryByteDecodes | Frontend-C++-SFML/main.cpp:187-208 | every byte of the pixel buffer belongs to exactly one cell, block position and channel |
| SfmlFrontEnd.TextureFillsBlocks | Frontend-C++-SFML/main.cpp:198-205 | cell (x, y) fills its S × S block with alpha 255 and RGB 0 if the cell is set, 255 otherwise |
| SfmlFrontEnd.TextureBuffer.LoadTextureFromFrameBuffer | Frontend-C++-SFML/main.cpp:179-215 | the nested loops leave the pixel buffer equal to Texture(fb) |
| SfmlFrontEnd.TextureBuffer.FillBlock | Frontend-C++-SFML/main.cpp:195-206 | the bytes of cell (x, y)'s block take their Texture values; all others are untouched |
| SfmlFrontEnd.TextureBuffer.WritePixel | Frontend-C++-SFML/main.cpp:202-204 | the four channels of one screen pixel take their Texture values; all others are untouched |
| SfmlFrontEnd.LoadProgramFromStream | Frontend-C++-SFML/main.cpp:217-233 | as written: the bytes are StreamImage, i.e. the ROM, then the EOF byte, then zeros |
| SfmlFrontEnd.StreamImageStoresEofByte | Frontend-C++-SFML/main.cpp:222-230 | as written, for a ROM shorter than the program area the byte after it is 0xFF, not the padding 0 |
| SfmlFrontEnd.LoadProgramFromStreamPadded | Frontend-C++-SFML/main.cpp:217-233 | corrected: the bytes are the ROM followed by zeros up to 3584 bytes |
| PygameFrontEnd.LimiterPass | Python-Frontend/CHIP8/main.py:66-80 | the loop computes Tick: below one period nothing happens, otherwise 9 × periods steps run |
| PygameFrontEnd.PassRunsWholeBatch | Python-Frontend/CHIP8/main.py:71-80 | a pass of at least one period sets the check time to now, credits ms / 16 periods and runs exactly 9 × that many steps, whatever run_one reports |
| PygameFrontEnd.NeverAheadOfClock | Python-Frontend/CHIP8/main.py:66-80 | over any run of passes, exactly 9 instructions run per credited period, and the periods fit in the elapsed time |
| PygameFrontEnd.GetBytes | Python-Frontend/CHIP8/PyCHIP8/host/helpers.py:13-21 | get_bytes, which Python-Frontend/CHIP8/main.py:96-104 repeats word for word: the result is 3584 entries, the file's bytes followed by zeros; a longer file raises IndexError |

## Left out

- Windows, textures, widgets, Qt timers, event loops, file dialogs and streams. Timers and
  windows are modelled as flags. Screen refreshes, timer decrements and steps are recorded
  in an effect log. A ROM is an input byte sequence.
- Reading the clock: the model takes the current time in nanoseconds as an input.
- Functions whose code is not part of this model are parameters. These are `rand()`,
  `get_digits`, `get_sprite_start_location`, `get_least_significant_bit` and
  `get_most_significant_bit` (the `Env` fields), and `CHIP_8::run_one` (a `Step` function).
  `load_state`, `decrement_timers`, `load_program_from_bytes` and the Python `Debugger`
  methods are effects in the log. `Machine_state` is built from the fields it is given in
  debugger.cpp.
- `CHIP_8::run` is defined with an empty body (CHIP-8/CHIP-8.cpp:22-25) and is not declared
  in CHIP-8.hpp; it does nothing, so the model has no counterpart.
- Instruction fetch and decoding (`get_current_instruction`, `make_instruction_from_bytes`)
  and `insert_instruction` are declared in CHIP-8.hpp but defined in none of the modelled
  files.
- Helpers.GetNibblesInRange: requires 0 <= first, while helpers.cpp:22 and 28-29 assert only
  last < 4 and 1 <= last - first + 1 <= 4. The helper's comment (helpers.cpp:9) numbers the
  nibbles 0 to 3, so a negative first is outside its documented use and is not modelled.
- Out-of-range `std::array` accesses (FX33, FX55, FX65 and DXYN past the end of memory) are
  undefined behaviour in C++. The model raises the fault `MemoryAccessOutOfRange` before any
  change.
- executor.hpp declares handlers named `category_1` … `category_E` that are never defined;
  the model follows the names in executor.cpp.
- The floating-point `MILLISECONDS_PER_INSTRUCTION` is not used by any modelled code.
- `TIMER_DECREMENTS_PER_REFRESH` is defined in none of the modelled files: the Python files
  import it from the compiled bindings, and Frontend-C++-SFML/main.cpp:134 uses a C++
  constant of that name.
- SfmlFrontEnd.LimiterPass: credits whole refresh periods (`refreshesCredited`) instead of
  timer decrements. The count owed is that number times `TIMER_DECREMENTS_PER_REFRESH`,
  whose value is not known here. It reaches the timers through the `byte times` parameter
  of `decrement_timers` (CHIP-8/CHIP-8.hpp:19). main.cpp:134-135 passes a `size_t`, so the
  count is reduced mod 256 (`SfmlFrontEnd.TimerDecrementsPassed`). A stall that owes 256 or
  more decrements therefore decrements the timers by the product mod 256
  (`SfmlFrontEnd.LongStallLosesDecrements`).
- PygameFrontEnd.LimiterPass: the same crediting, for the pygame loop. main.py:79-80 passes
  an unbounded Python int to the same `byte` parameter through bindings that are not part of
  this model, so what the timers receive after a long stall is not known here.
- Timing.TruncatedMilliseconds: Python computes the milliseconds through a float division
  by 1e6. Rounding of nanosecond counts above 2^53 is not modelled.
- The key-to-button tables (`KBD_TO_CHIP_8` and keyboard-data.hpp) are not modelled. A host
  key is either a keypad key, one of the two debugger step keys, or another key.
- The key handler of the newer Qt front end (main_emulator/main.py:136-144) is not modelled.
  Its gate `if self.execution_mode:` depends on the truth value of the `ExecutionMode`
  members, and the definition of `ExecutionMode` is not part of this model.
- Key release handlers (gui/main.py:132-134, the pygame and SFML event loops) are covered
  only through `Keys.Keyboard.SetKeyReleased`, which they call.
- `load_rom` in both Qt front ends is not modelled: it is a file dialog followed by
  `load_program_from_bytes`.
- The Python `run_one_without_callback` / `run_one` distinction is kept as two effects. The
  debug-view callbacks they trigger are not modelled.
- The debugger snapshot does not include the keyboard, just as `Machine_state` does not.
- SfmlFrontEnd.NeverAheadOfClock: states at most 9 instructions per credited period, not
  exactly 9. Once run_one reports a stop, the SFML loop runs no further instruction.

## Findings

| source | as written | input that shows it | evidently intended | confidence | as-written member | corrected member |
|---|---|---|---|---|---|---|
| CHIP-8/CHIP-8.cpp:13-20 | each 16-bit program word is stored into one byte at 0x200 + i, so its high byte is lost and only 1792 of the 3584 program bytes are written | a program of 1792 words 0x00E0: bytes 0x200 and 0x201 read back as 0xE0E0 | each word stored big-endian in two bytes at 0x200 + 2i | not executed; medium (the function may be meant for byte data) | Chip8.ProgramImageLosesHighByte | Chip8.WordImageRoundTrip |
| Frontend-C++-SFML/main.cpp:222-230 | the loop tests the stream before each read, so the read that hits end of file still stores `get()`'s EOF value, 0xFF, after the ROM | any ROM shorter than 3584 bytes, e.g. [0x00, 0xE0]: byte 2 becomes 0xFF | the bytes after the ROM stay 0, as `fill(0)` prepares them | not executed; high | SfmlFrontEnd.StreamImageStoresEofByte | SfmlFrontEnd.LoadProgramFromStreamPadded |
| CHIP-8/debugger.cpp:31-34 | `top()` is bound to a reference, then `pop()` destroys that snapshot before `load_state` reads it | any go_back_one on a non-empty history | copy the top snapshot before popping, then load the copy | not executed; high | Debuggers.RewindAsWrittenReadsDestroyedSnapshot | Debuggers.AdvanceThenRewind |
