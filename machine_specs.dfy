/** Sizes and timing of the CHIP-8 machine, with the constants derived from them.
    Every derived constant keeps the source's integer division. */
module MachineSpecs {

  const BITS_PER_BYTE := 8
  const BITS_PER_NIBBLE := 4
  const NIBBLES_PER_BYTE := BITS_PER_BYTE / BITS_PER_NIBBLE

  const MEMORY_SIZE := 4096           // bytes
  const STACK_SIZE := 32              // bytes
  const STACK_ENTRY_SIZE := 2         // bytes
  /** Number of return addresses the stack holds (the length of the stack array). */
  const STACK_ENTRIES := STACK_SIZE / STACK_ENTRY_SIZE

  const NUM_REGISTERS := 16

  const FRAME_BUFFER_WIDTH := 64      // pixels
  const FRAME_BUFFER_HEIGHT := 32     // pixels

  const FONT_DATA_START_LOCATION := 0x50

  const INSTRUCTION_SIZE := 2         // bytes
  const PROGRAM_DATA_START_LOCATION := 0x200
  const MAX_NUM_INSTRUCTIONS := (MEMORY_SIZE - PROGRAM_DATA_START_LOCATION) / INSTRUCTION_SIZE

  const MILLISECONDS_PER_SECOND := 1000
  const EXECUTION_SPEED := 540        // instructions per second
  const SCREEN_REFRESHES_PER_SECOND := 60
  const MILLISECONDS_PER_REFRESH := MILLISECONDS_PER_SECOND / SCREEN_REFRESHES_PER_SECOND
  const INSTRUCTIONS_PER_REFRESH := EXECUTION_SPEED / SCREEN_REFRESHES_PER_SECOND

  /** A byte holds two nibbles. */
  lemma NibblesPerByte()
    ensures NIBBLES_PER_BYTE == 2
  {
  }

  /** The program area starts at 0x200 and its instruction slots fill memory exactly. */
  lemma ProgramAreaFillsMemory()
    ensures MAX_NUM_INSTRUCTIONS == 1792
    ensures PROGRAM_DATA_START_LOCATION + MAX_NUM_INSTRUCTIONS * INSTRUCTION_SIZE == MEMORY_SIZE
  {
  }

  /** The stack holds sixteen 2-byte return addresses. */
  lemma StackEntries()
    ensures STACK_ENTRIES == 16
  {
  }

  /** One refresh lasts 16 ms (1000 / 60 rounded down) and runs 9 instructions. */
  lemma RefreshTiming()
    ensures MILLISECONDS_PER_REFRESH == 16
    ensures INSTRUCTIONS_PER_REFRESH == 9
    ensures MILLISECONDS_PER_REFRESH * SCREEN_REFRESHES_PER_SECOND < MILLISECONDS_PER_SECOND
  {
  }

  /** The sixteen 5-byte font glyphs lie entirely below the program area. */
  lemma FontBelowProgram()
    ensures FONT_DATA_START_LOCATION + 16 * 5 <= PROGRAM_DATA_START_LOCATION
  {
  }
}
