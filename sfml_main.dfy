/** The SFML front end (Frontend-C++-SFML/main.cpp): the wall-clock rate limiter of the main
    loop, the frame-change test that decides whether to redraw, the pixel buffer the frame is
    drawn into, and reading a ROM from a stream. */
module SfmlFrontEnd {
  import opened MachineSpecs
  import opened DataTypes
  import opened Chip8
  import opened Debuggers
  import opened Timing

  // ---------------------------------------------------------------------------------------
  // The rate limiter

  /** What one pass of the main loop reads and writes: the machine, the last limiter check
      time (ns), whether the ROM still runs, and two running totals the model keeps: the
      instructions executed and the refresh periods credited to decrement_timers (each
      period decrements the timers TIMER_DECREMENTS_PER_REFRESH times). */
  datatype Loop = Loop(machine: MachineState, lastCheck: int, romRunning: bool,
                       executed: nat, refreshesCredited: nat)

  /** Runs up to n steps while the ROM runs; the result is the machine, whether it still
      runs, and how many steps ran. */
  function RunWhileRunning(m: MachineState, running: bool, n: nat, step: Step): (r: (MachineState, bool, nat))
    ensures r.2 <= n
    ensures !running ==> r == (m, false, 0)
    ensures r.2 < n ==> !r.1
    decreases n
  {
    if !running || n == 0 then (m, running, 0)
    else
      var (next, ok) := step(m);
      var (last, stillRunning, count) := RunWhileRunning(next, ok, n - 1, step);
      (last, stillRunning, count + 1)
  }

  /** One pass of the main loop after the events: below one refresh period nothing happens;
      otherwise the check time moves to now (the remainder is dropped), up to
      refreshes * INSTRUCTIONS_PER_REFRESH steps run while the ROM runs, and the refreshes
      are credited to the timers whether or not the ROM runs. */
  function Tick(s: Loop, now: int, step: Step): Loop
  {
    var ms := TruncatedMilliseconds(now - s.lastCheck);
    if ms < MILLISECONDS_PER_REFRESH then s
    else
      var refreshes := RefreshesElapsed(ms);
      var (m, running, count) := RunWhileRunning(s.machine, s.romRunning, refreshes * INSTRUCTIONS_PER_REFRESH, step);
      Loop(m, now, running, s.executed + count, s.refreshesCredited + refreshes)
  }

  method LimiterPass(s: Loop, now: int, step: Step) returns (r: Loop)
    ensures r == Tick(s, now, step)
  {
    var millisecondsElapsed := TruncatedMilliseconds(now - s.lastCheck);
    if millisecondsElapsed < MILLISECONDS_PER_REFRESH {
      return s;
    }
    var refreshesElapsed := millisecondsElapsed / MILLISECONDS_PER_REFRESH;
    var nins := refreshesElapsed * INSTRUCTIONS_PER_REFRESH;
    var machine, romRunning, executed := s.machine, s.romRunning, s.executed;
    var i := 0;
    while romRunning && i < nins
      invariant 0 <= i <= nins
      invariant executed == s.executed + i
      invariant var (m, running, count) := RunWhileRunning(machine, romRunning, nins - i, step);
        RunWhileRunning(s.machine, s.romRunning, nins, step) == (m, running, count + i)
      decreases nins - i
    {
      var (next, ok) := step(machine);
      machine, romRunning := next, ok;
      executed := executed + 1;
      i := i + 1;
    }
    r := Loop(machine, now, romRunning, executed, s.refreshesCredited + refreshesElapsed);
  }

  /** Below one refresh period a pass changes nothing, not even the check time. */
  lemma IdleBelowOneRefresh(s: Loop, now: int, step: Step)
    requires TruncatedMilliseconds(now - s.lastCheck) < MILLISECONDS_PER_REFRESH
    ensures Tick(s, now, step) == s
  {
  }

  /** A pass of at least one period moves the check time to now, so the part of the
      elapsed time beyond whole periods is lost; it credits every whole period and runs at
      most INSTRUCTIONS_PER_REFRESH instructions per period, all of them while the ROM
      keeps running. */
  lemma PassDropsRemainder(s: Loop, now: int, step: Step)
    requires TruncatedMilliseconds(now - s.lastCheck) >= MILLISECONDS_PER_REFRESH
    ensures var ms := TruncatedMilliseconds(now - s.lastCheck);
      var r := Tick(s, now, step);
      r.lastCheck == now &&
      r.refreshesCredited == s.refreshesCredited + ms / 16 &&
      r.executed <= s.executed + 9 * (ms / 16) &&
      (r.romRunning ==> r.executed == s.executed + 9 * (ms / 16))
  {
    RefreshTiming();
  }

  /** Once run_one has reported failure no pass executes anything, yet the timers are
      still credited. */
  lemma StoppedRomRunsNothing(s: Loop, now: int, step: Step)
    requires !s.romRunning
    ensures var r := Tick(s, now, step);
      !r.romRunning && r.machine == s.machine && r.executed == s.executed &&
      (TruncatedMilliseconds(now - s.lastCheck) >= MILLISECONDS_PER_REFRESH ==>
         r.refreshesCredited > s.refreshesCredited)
  {
  }

  function Ticks(s: Loop, nows: seq<int>, step: Step): Loop
    decreases |nows|
  {
    if nows == [] then s else Ticks(Tick(s, nows[0], step), nows[1..], step)
  }

  /** Over any sequence of passes the emulator never runs ahead of the wall clock: the
      periods credited fit in the time between the first and the last check, and at most
      INSTRUCTIONS_PER_REFRESH instructions run per period. */
  lemma {:induction false} NeverAheadOfClock(s: Loop, nows: seq<int>, step: Step)
    ensures var r := Ticks(s, nows, step);
      r.lastCheck >= s.lastCheck &&
      r.refreshesCredited >= s.refreshesCredited &&
      (r.refreshesCredited - s.refreshesCredited) * MILLISECONDS_PER_REFRESH <=
        TruncatedMilliseconds(r.lastCheck - s.lastCheck) &&
      r.executed - s.executed <= INSTRUCTIONS_PER_REFRESH * (r.refreshesCredited - s.refreshesCredited)
    decreases |nows|
  {
    RefreshTiming();
    if nows != [] {
      var t := Tick(s, nows[0], step);
      NeverAheadOfClock(t, nows[1..], step);
      var r := Ticks(t, nows[1..], step);
      assert r == Ticks(s, nows, step);
      if t != s {
        var ms := TruncatedMilliseconds(nows[0] - s.lastCheck);
        assert ms >= 16;
        PassDropsRemainder(s, nows[0], step);
        TruncationSuperadditive(t.lastCheck - s.lastCheck, r.lastCheck - t.lastCheck);
      }
    }
  }

  /** The dropped remainder slows the emulation: two passes 31 ms apart credit one period
      each, although the 62 ms elapsed hold three. */
  lemma RemainderIsLost(s: Loop, step: Step)
    requires s.lastCheck == 0
    ensures Ticks(s, [31_000_000, 62_000_000], step).refreshesCredited == s.refreshesCredited + 2
    ensures TruncatedMilliseconds(62_000_000) / MILLISECONDS_PER_REFRESH == 3
  {
    RefreshTiming();
    var t := Tick(s, 31_000_000, step);
    assert t.refreshesCredited == s.refreshesCredited + 1;
    assert Tick(t, 62_000_000, step).refreshesCredited == t.refreshesCredited + 1;
    assert [31_000_000, 62_000_000][1..] == [62_000_000];
  }

  /** The argument decrement_timers receives after a pass that credited `refreshes` periods:
      the size_t product refreshes * TIMER_DECREMENTS_PER_REFRESH narrowed to its `byte times`
      parameter. */
  function TimerDecrementsPassed(refreshes: nat, decrementsPerRefresh: nat): (times: Byte)
  {
    ToByte(refreshes * decrementsPerRefresh)
  }

  /** A long stall loses timer decrements: the timers receive fewer decrements than the
      credited periods owe exactly when the owed count reaches 256. */
  lemma LongStallLosesDecrements(refreshes: nat, decrementsPerRefresh: nat)
    ensures TimerDecrementsPassed(refreshes, decrementsPerRefresh) < refreshes * decrementsPerRefresh
      <==> refreshes * decrementsPerRefresh >= 256
    ensures TimerDecrementsPassed(refreshes, decrementsPerRefresh)
      == (refreshes * decrementsPerRefresh) % 256
  {
    var owed := refreshes * decrementsPerRefresh;
    var times := TimerDecrementsPassed(refreshes, decrementsPerRefresh);
    assert times == owed % 256;
    if owed >= 256 {
      assert times < 256 <= owed;
    }
  }

  // ---------------------------------------------------------------------------------------
  // Redrawing only when the frame changed

  /** Some cell of fb differs from the cell of the previous frame. */
  ghost predicate FrameChanged(previous: seq<seq<Byte>>, fb: seq<seq<Byte>>)
    requires IsFrameBuffer(previous) && IsFrameBuffer(fb)
  {
    exists x, y :: 0 <= x < FRAME_BUFFER_WIDTH && 0 <= y < FRAME_BUFFER_HEIGHT &&
      previous[x][y] != fb[x][y]
  }

  /** RedrawIfNecessary leaves the stored frame equal to the frame it was given, so a
      second call with the same frame finds no change and does not redraw. */
  lemma RepeatedFrameNeedsNoRedraw(fb: seq<seq<Byte>>)
    requires IsFrameBuffer(fb)
    ensures !FrameChanged(fb, fb)
  {
  }

  /** The frame last drawn (the function-local static previous_fb of redraw_necessary,
      zero-initialised) and the number of times the window was redrawn. */
  class Screen {
    const previousFb: array2<Byte>
    var redraws: nat

    ghost predicate Valid()
      reads this
    {
      previousFb.Length0 == FRAME_BUFFER_WIDTH && previousFb.Length1 == FRAME_BUFFER_HEIGHT
    }

    constructor ()
      ensures Valid() && FrameOf(previousFb) == BlankFrameBuffer() && redraws == 0
    {
      previousFb := new Byte[FRAME_BUFFER_WIDTH, FRAME_BUFFER_HEIGHT]((x, y) => 0);
      redraws := 0;
      new;
      FrameOfPointwise(previousFb, BlankFrameBuffer());
    }

    /** redraw_necessary: reports whether some cell changed, and stores fb. */
    method RedrawNecessary(fb: seq<seq<Byte>>) returns (necessary: bool)
      requires Valid() && IsFrameBuffer(fb)
      modifies previousFb
      ensures necessary <==> FrameChanged(old(FrameOf(previousFb)), fb)
      ensures FrameOf(previousFb) == fb
    {
      ghost var before := FrameOf(previousFb);
      necessary := false;
      for x := 0 to FRAME_BUFFER_WIDTH
        invariant forall x', y :: 0 <= x' < x && 0 <= y < FRAME_BUFFER_HEIGHT ==> previousFb[x', y] == fb[x'][y]
        invariant forall x', y :: x <= x' < FRAME_BUFFER_WIDTH && 0 <= y < FRAME_BUFFER_HEIGHT ==>
          previousFb[x', y] == before[x'][y]
        invariant necessary <==>
          exists x', y :: 0 <= x' < x && 0 <= y < FRAME_BUFFER_HEIGHT && before[x'][y] != fb[x'][y]
      {
        var changed := CopyColumn(fb, x, before);
        necessary := necessary || changed;
      }
      FrameOfPointwise(previousFb, fb);
    }

    /** The inner loop of redraw_necessary over one column x. */
    method CopyColumn(fb: seq<seq<Byte>>, x: int, ghost before: seq<seq<Byte>>) returns (changed: bool)
      requires Valid() && IsFrameBuffer(fb) && IsFrameBuffer(before) && 0 <= x < FRAME_BUFFER_WIDTH
      requires forall y :: 0 <= y < FRAME_BUFFER_HEIGHT ==> previousFb[x, y] == before[x][y]
      modifies previousFb
      ensures forall y :: 0 <= y < FRAME_BUFFER_HEIGHT ==> previousFb[x, y] == fb[x][y]
      ensures forall x', y :: 0 <= x' < FRAME_BUFFER_WIDTH && x' != x && 0 <= y < FRAME_BUFFER_HEIGHT ==>
        previousFb[x', y] == old(previousFb[x', y])
      ensures changed <==> exists y :: 0 <= y < FRAME_BUFFER_HEIGHT && before[x][y] != fb[x][y]
    {
      changed := false;
      for y := 0 to FRAME_BUFFER_HEIGHT
        invariant forall y' :: 0 <= y' < y ==> previousFb[x, y'] == fb[x][y']
        invariant forall y' :: y <= y' < FRAME_BUFFER_HEIGHT ==> previousFb[x, y'] == before[x][y']
        invariant forall x', y' :: 0 <= x' < FRAME_BUFFER_WIDTH && x' != x && 0 <= y' < FRAME_BUFFER_HEIGHT ==>
          previousFb[x', y'] == old(previousFb[x', y'])
        invariant changed <==> exists y' :: 0 <= y' < y && before[x][y'] != fb[x][y']
      {
        if previousFb[x, y] != fb[x][y] {
          changed := true;
        }
        previousFb[x, y] := fb[x][y];
      }
    }

    /** redraw_if_necessary: the window is redrawn exactly when the frame changed. */
    method RedrawIfNecessary(fb: seq<seq<Byte>>)
      requires Valid() && IsFrameBuffer(fb)
      modifies this, previousFb
      ensures Valid() && FrameOf(previousFb) == fb
      ensures redraws == old(redraws) + (if FrameChanged(old(FrameOf(previousFb)), fb) then 1 else 0)
    {
      var necessary := RedrawNecessary(fb);
      if !necessary {
        return;
      }
      redraws := redraws + 1;
    }
  }

  // ---------------------------------------------------------------------------------------
  // The pixel buffer of load_texture_from_frame_buffer

  const NUM_CHANNELS := 4
  const OPAQUE := 255
  const BLACK := 0
  const WHITE := 255
  /** The template argument main instantiates load_texture_from_frame_buffer with. */
  const SCALING_FACTOR := 10
  const SCREEN_WIDTH := FRAME_BUFFER_WIDTH * SCALING_FACTOR
  const SCREEN_HEIGHT := FRAME_BUFFER_HEIGHT * SCALING_FACTOR
  const PIXEL_BYTES := SCREEN_WIDTH * SCREEN_HEIGHT * NUM_CHANNELS

  /** Where the four channel bytes of screen pixel (x * SCALING_FACTOR + j,
      y * SCALING_FACTOR + i) start. */
  function PixelOffset(x: nat, y: nat, i: nat, j: nat): nat
  {
    ((y * SCALING_FACTOR + i) * FRAME_BUFFER_WIDTH * SCALING_FACTOR + (x * SCALING_FACTOR + j)) * NUM_CHANNELS
  }

  /** The screen row and column of the pixel byte k belongs to. */
  function ScreenRow(k: nat): nat
  {
    (k / NUM_CHANNELS) / SCREEN_WIDTH
  }

  function ScreenColumn(k: nat): nat
  {
    (k / NUM_CHANNELS) % SCREEN_WIDTH
  }

  /** The byte a channel of a screen pixel showing cell (x, y) holds: channel 3 is alpha,
      always opaque; the colour channels are black for a set cell and white otherwise. */
  function PixelValue(fb: seq<seq<Byte>>, x: int, y: int, channel: int): Byte
    requires IsFrameBuffer(fb)
  {
    if channel == 3 then OPAQUE
    else if 0 <= x < FRAME_BUFFER_WIDTH && 0 <= y < FRAME_BUFFER_HEIGHT && fb[x][y] != 0 then BLACK
    else WHITE
  }

  /** The pixel buffer as a function of the frame: byte k shows the cell its screen column
      and row name once divided by the scale. */
  function Texture(fb: seq<seq<Byte>>): (t: seq<Byte>)
    requires IsFrameBuffer(fb)
    ensures |t| == PIXEL_BYTES
  {
    seq(PIXEL_BYTES, k requires 0 <= k < PIXEL_BYTES =>
      PixelValue(fb, ScreenColumn(k) / SCALING_FACTOR, ScreenRow(k) / SCALING_FACTOR, k % NUM_CHANNELS))
  }

  /** The offset of a block position decodes back to its cell, its position in the block
      and its channel. */
  lemma OffsetDecodes(x: nat, y: nat, i: nat, j: nat, channel: nat)
    requires x < FRAME_BUFFER_WIDTH && y < FRAME_BUFFER_HEIGHT
    requires i < SCALING_FACTOR && j < SCALING_FACTOR && channel < NUM_CHANNELS
    ensures var k := PixelOffset(x, y, i, j) + channel;
      k < PIXEL_BYTES &&
      ScreenRow(k) == y * SCALING_FACTOR + i && ScreenColumn(k) == x * SCALING_FACTOR + j &&
      k % NUM_CHANNELS == channel
  {
    var row := y * SCALING_FACTOR + i;
    var column := x * SCALING_FACTOR + j;
    var pixel := row * SCREEN_WIDTH + column;
    var k := pixel * NUM_CHANNELS + channel;
    assert k == PixelOffset(x, y, i, j) + channel;
    DivUnique(k, NUM_CHANNELS, pixel, channel);
    DivUnique(pixel, SCREEN_WIDTH, row, column);
    assert pixel < SCREEN_WIDTH * SCREEN_HEIGHT by {
      MulMonotone(SCREEN_WIDTH, row, SCREEN_HEIGHT - 1);
    }
  }

  /** Every byte of the pixel buffer is the channel byte of exactly the block position its
      screen row and column name. */
  lemma EveryByteDecodes(k: nat)
    requires k < PIXEL_BYTES
    ensures var row, column := ScreenRow(k), ScreenColumn(k);
      column / SCALING_FACTOR < FRAME_BUFFER_WIDTH && row / SCALING_FACTOR < FRAME_BUFFER_HEIGHT &&
      k == PixelOffset(column / SCALING_FACTOR, row / SCALING_FACTOR,
                       row % SCALING_FACTOR, column % SCALING_FACTOR) + k % NUM_CHANNELS
  {
    var pixel := k / NUM_CHANNELS;
    var row, column := ScreenRow(k), ScreenColumn(k);
    assert k == pixel * NUM_CHANNELS + k % NUM_CHANNELS;
    assert pixel == row * SCREEN_WIDTH + column;
    assert row == (row / SCALING_FACTOR) * SCALING_FACTOR + row % SCALING_FACTOR;
    assert column == (column / SCALING_FACTOR) * SCALING_FACTOR + column % SCALING_FACTOR;
  }

  /** Cell (x, y) of the frame fills the SCALING_FACTOR-square block of screen pixels at
      PixelOffset(x, y, i, j): opaque, black if the cell is set and white otherwise. */
  lemma TextureFillsBlocks(fb: seq<seq<Byte>>, x: nat, y: nat, i: nat, j: nat, channel: nat)
    requires IsFrameBuffer(fb)
    requires x < FRAME_BUFFER_WIDTH && y < FRAME_BUFFER_HEIGHT
    requires i < SCALING_FACTOR && j < SCALING_FACTOR && channel < NUM_CHANNELS
    ensures var k := PixelOffset(x, y, i, j) + channel;
      k < PIXEL_BYTES &&
      Texture(fb)[k] == (if channel == 3 then OPAQUE else if fb[x][y] != 0 then BLACK else WHITE)
  {
    OffsetDecodes(x, y, i, j, channel);
    var row := y * SCALING_FACTOR + i;
    var column := x * SCALING_FACTOR + j;
    DivUnique(row, SCALING_FACTOR, y, i);
    DivUnique(column, SCALING_FACTOR, x, j);
  }

  /** The cell byte k of the pixel buffer shows. */
  function CellOf(k: nat): (int, int)
  {
    (ScreenColumn(k) / SCALING_FACTOR, ScreenRow(k) / SCALING_FACTOR)
  }

  /** The function-local static pixel buffer of load_texture_from_frame_buffer. */
  class TextureBuffer {
    const pixels: array<Byte>

    ghost predicate Valid()
      reads this
    {
      pixels.Length == PIXEL_BYTES
    }

    constructor ()
      ensures Valid()
    {
      pixels := new Byte[PIXEL_BYTES];
    }

    /** load_texture_from_frame_buffer: fills the pixel buffer cell by cell. */
    method LoadTextureFromFrameBuffer(fb: seq<seq<Byte>>)
      requires Valid() && IsFrameBuffer(fb)
      modifies pixels
      ensures pixels[..] == Texture(fb)
    {
      for x := 0 to FRAME_BUFFER_WIDTH
        invariant forall k :: 0 <= k < PIXEL_BYTES && CellOf(k).0 < x ==> pixels[k] == Texture(fb)[k]
      {
        for y := 0 to FRAME_BUFFER_HEIGHT
          invariant forall k :: 0 <= k < PIXEL_BYTES && (CellOf(k).0 < x || (CellOf(k).0 == x && CellOf(k).1 < y)) ==>
            pixels[k] == Texture(fb)[k]
        {
          FillBlock(fb, x, y);
        }
      }
      forall k | 0 <= k < PIXEL_BYTES
        ensures pixels[k] == Texture(fb)[k]
      {
        EveryByteDecodes(k);
      }
    }

    /** The two inner loops: the block of screen pixels showing cell (x, y). */
    method FillBlock(fb: seq<seq<Byte>>, x: nat, y: nat)
      requires Valid() && IsFrameBuffer(fb) && x < FRAME_BUFFER_WIDTH && y < FRAME_BUFFER_HEIGHT
      modifies pixels
      ensures forall k :: 0 <= k < PIXEL_BYTES && CellOf(k) == (x, y) ==> pixels[k] == Texture(fb)[k]
      ensures forall k :: 0 <= k < PIXEL_BYTES && CellOf(k) != (x, y) ==> pixels[k] == old(pixels[k])
    {
      var isBlack := fb[x][y] != 0;
      var startx := x * SCALING_FACTOR;
      var starty := y * SCALING_FACTOR;
      for i := 0 to SCALING_FACTOR
        invariant forall k :: 0 <= k < PIXEL_BYTES && CellOf(k) == (x, y) && ScreenRow(k) < starty + i ==>
          pixels[k] == Texture(fb)[k]
        invariant forall k :: 0 <= k < PIXEL_BYTES && CellOf(k) != (x, y) ==> pixels[k] == old(pixels[k])
      {
        for j := 0 to SCALING_FACTOR
          invariant forall k :: (0 <= k < PIXEL_BYTES && CellOf(k) == (x, y) &&
                                 (ScreenRow(k) < starty + i ||
                                  (ScreenRow(k) == starty + i && ScreenColumn(k) < startx + j))) ==>
            pixels[k] == Texture(fb)[k]
          invariant forall k :: 0 <= k < PIXEL_BYTES && CellOf(k) != (x, y) ==> pixels[k] == old(pixels[k])
        {
          var pixelOffset := ((starty + i) * FRAME_BUFFER_WIDTH * SCALING_FACTOR + (startx + j)) * NUM_CHANNELS;
          WritePixel(fb, x, y, i, j, pixelOffset, isBlack);
        }
      }
    }

    /** The four channel writes of one screen pixel. */
    method WritePixel(fb: seq<seq<Byte>>, x: nat, y: nat, i: nat, j: nat, pixelOffset: nat, isBlack: bool)
      requires Valid() && IsFrameBuffer(fb) && x < FRAME_BUFFER_WIDTH && y < FRAME_BUFFER_HEIGHT
      requires i < SCALING_FACTOR && j < SCALING_FACTOR
      requires pixelOffset == PixelOffset(x, y, i, j) && isBlack == (fb[x][y] != 0)
      modifies pixels
      ensures forall k :: (0 <= k < PIXEL_BYTES && ScreenRow(k) == y * SCALING_FACTOR + i &&
                           ScreenColumn(k) == x * SCALING_FACTOR + j) ==>
        pixels[k] == Texture(fb)[k]
      ensures forall k :: (0 <= k < PIXEL_BYTES && (ScreenRow(k) != y * SCALING_FACTOR + i ||
                                                    ScreenColumn(k) != x * SCALING_FACTOR + j)) ==>
        pixels[k] == old(pixels[k])
    {
      OffsetDecodes(x, y, i, j, 3);
      pixels[pixelOffset + 3] := OPAQUE;
      var colour := if isBlack then BLACK else WHITE;
      pixels[pixelOffset + 2] := colour;
      pixels[pixelOffset + 1] := colour;
      pixels[pixelOffset + 0] := colour;
      forall k | 0 <= k < PIXEL_BYTES
        ensures (ScreenRow(k) == y * SCALING_FACTOR + i && ScreenColumn(k) == x * SCALING_FACTOR + j) ==>
          pixels[k] == Texture(fb)[k]
        ensures (ScreenRow(k) != y * SCALING_FACTOR + i || ScreenColumn(k) != x * SCALING_FACTOR + j) ==>
          pixels[k] == old(pixels[k])
      {
        PixelWindow(x, y, i, j, k);
        if pixelOffset <= k < pixelOffset + NUM_CHANNELS {
          TextureFillsBlocks(fb, x, y, i, j, k - pixelOffset);
        }
      }
    }
  }

  /** The bytes of one screen pixel are exactly the four at its offset. */
  lemma PixelWindow(x: nat, y: nat, i: nat, j: nat, k: nat)
    requires x < FRAME_BUFFER_WIDTH && y < FRAME_BUFFER_HEIGHT
    requires i < SCALING_FACTOR && j < SCALING_FACTOR && k < PIXEL_BYTES
    ensures (PixelOffset(x, y, i, j) <= k < PixelOffset(x, y, i, j) + NUM_CHANNELS) <==>
      (ScreenRow(k) == y * SCALING_FACTOR + i && ScreenColumn(k) == x * SCALING_FACTOR + j)
  {
    var offset := PixelOffset(x, y, i, j);
    if offset <= k < offset + NUM_CHANNELS {
      OffsetDecodes(x, y, i, j, k - offset);
    }
    if ScreenRow(k) == y * SCALING_FACTOR + i && ScreenColumn(k) == x * SCALING_FACTOR + j {
      EveryByteDecodes(k);
      DivUnique(ScreenRow(k), SCALING_FACTOR, y, i);
      DivUnique(ScreenColumn(k), SCALING_FACTOR, x, j);
    }
  }

  // ---------------------------------------------------------------------------------------
  // Reading a ROM from a stream

  /** istream::get() at the end of the stream returns EOF, which the byte slot stores as
      0xFF. */
  const EOF := -1

  /** What load_program_from_stream hands to load_program_from_bytes: nothing from a stream
      that failed to open; otherwise the ROM bytes, then the EOF marker in the slot after
      them if there is one, then zeros. Bytes beyond the program area are not read. */
  function StreamImage(rom: seq<Byte>, isOpen: bool): (image: seq<Byte>)
    ensures |image| == MAX_NUM_INSTRUCTIONS * INSTRUCTION_SIZE
  {
    seq(MAX_NUM_INSTRUCTIONS * INSTRUCTION_SIZE, i =>
      if !isOpen then 0
      else if 0 <= i < |rom| then rom[i]
      else if i == |rom| then ToByte(EOF)
      else 0)
  }

  /** The bytes of a ROM in the program area and zeros after them. */
  function PaddedImage(rom: seq<Byte>): (image: seq<Byte>)
    ensures |image| == MAX_NUM_INSTRUCTIONS * INSTRUCTION_SIZE
    ensures forall i :: 0 <= i < |image| ==> image[i] == (if i < |rom| then rom[i] else 0)
  {
    seq(MAX_NUM_INSTRUCTIONS * INSTRUCTION_SIZE, i => if 0 <= i < |rom| then rom[i] else 0)
  }

  /** load_program_from_stream as written: the stream is the ROM's bytes read in order;
      the loop stops at the first slot that finds the stream failed, and the read that meets
      the end of the stream still stores its result. */
  method LoadProgramFromStream(rom: seq<Byte>, isOpen: bool) returns (image: seq<Byte>)
    ensures image == StreamImage(rom, isOpen)
  {
    var bytes := new Byte[MAX_NUM_INSTRUCTIONS * INSTRUCTION_SIZE](_ => 0);
    var streamGood := isOpen;
    var position := 0;
    var i := 0;
    while i < bytes.Length
      invariant 0 <= i <= bytes.Length
      invariant streamGood ==> isOpen && position == i && i <= |rom|
      invariant !streamGood && isOpen ==> i == |rom| + 1 || (i == 0 && !isOpen)
      invariant !isOpen ==> !streamGood && i == 0
      invariant forall k :: 0 <= k < i ==> bytes[k] == StreamImage(rom, isOpen)[k]
      invariant forall k :: i <= k < bytes.Length ==> bytes[k] == 0
    {
      if !streamGood {
        break;
      }
      var got: int;
      if position < |rom| {
        got := rom[position];
        position := position + 1;
      } else {
        got := EOF;
        streamGood := false;
      }
      bytes[i] := ToByte(got);
      i := i + 1;
    }
    image := bytes[..];
  }

  /** As written, a ROM shorter than the program area leaves 0xFF, not 0, in the byte
      after its end. */
  lemma StreamImageStoresEofByte(rom: seq<Byte>)
    requires |rom| < MAX_NUM_INSTRUCTIONS * INSTRUCTION_SIZE
    ensures StreamImage(rom, true)[|rom|] == 0xFF
    ensures PaddedImage(rom)[|rom|] == 0
  {
  }

  /** load_program_from_stream storing only what a successful read returned: the bytes of
      the ROM, up to the size of the program area, and zeros after them. */
  method LoadProgramFromStreamPadded(rom: seq<Byte>, isOpen: bool) returns (image: seq<Byte>)
    ensures isOpen ==> image == PaddedImage(rom)
    ensures !isOpen ==> image == PaddedImage([])
  {
    var bytes := new Byte[MAX_NUM_INSTRUCTIONS * INSTRUCTION_SIZE](_ => 0);
    var streamGood := isOpen;
    var position := 0;
    var i := 0;
    ghost var source := if isOpen then rom else [];
    while i < bytes.Length
      invariant 0 <= i <= bytes.Length
      invariant streamGood ==> isOpen && position == i && i <= |rom|
      invariant !streamGood ==> i >= |source|
      invariant forall k :: 0 <= k < i ==> bytes[k] == PaddedImage(source)[k]
      invariant forall k :: i <= k < bytes.Length ==> bytes[k] == 0
    {
      if !streamGood {
        break;
      }
      if position < |rom| {
        bytes[i] := rom[position];
        position := position + 1;
      } else {
        streamGood := false;
      }
      i := i + 1;
    }
    image := bytes[..];
    assert forall k :: 0 <= k < |image| ==> image[k] == PaddedImage(source)[k];
  }
}
