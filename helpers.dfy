/** Bit helpers: joining two bytes into a double_byte and extracting a run of nibbles
    from a double_byte (nibbles numbered 0..3 from the most significant). */
module Helpers {
  import opened MachineSpecs
  import opened DataTypes

  const NIBBLES_PER_DOUBLE_BYTE := 2 * NIBBLES_PER_BYTE

  function Pow16(k: nat): (r: nat)
    ensures r >= 1
  {
    if k == 0 then 1 else 16 * Pow16(k - 1)
  }

  /** b1 << 8 | b2. The shifted b1 has no bit below 2^8 and b2 has none above, so the OR
      is the sum b1 * 256 + b2. The result's high byte is b1 and its low byte is b2. */
  function ConcatenateBytes(b1: Byte, b2: Byte): (r: DoubleByte)
    ensures r / 256 == b1 && r % 256 == b2
  {
    b1 * Pow2(BITS_PER_BYTE) + b2
  }

  /** Distinct byte pairs give distinct double_bytes. */
  lemma ConcatenateBytesInjective(a1: Byte, a2: Byte, b1: Byte, b2: Byte)
    requires ConcatenateBytes(a1, a2) == ConcatenateBytes(b1, b2)
    ensures a1 == b1 && a2 == b2
  {
  }

  /** What get_nibbles_in_range returns: b shifted right past the nibbles after `last`,
      keeping the last - first + 1 lowest nibbles. */
  function NibblesInRange(b: DoubleByte, first: int, last: int): nat
    requires 0 <= first <= last < NIBBLES_PER_DOUBLE_BYTE
  {
    (b / Pow2((NIBBLES_PER_DOUBLE_BYTE - last - 1) * BITS_PER_NIBBLE)) % Pow16(last - first + 1)
  }

  /** get_nibbles_in_range: the shift becomes a division by a power of two; the mask grows
      to 16^(last - first + 1) in the loop, and b & (mask - 1) keeps b modulo that power of
      two (DataTypes.AndLowMaskIsMod). */
  method GetNibblesInRange(b: DoubleByte, first: int, last: int) returns (r: DoubleByte)
    requires 0 <= first <= last < NIBBLES_PER_DOUBLE_BYTE
    ensures r == NibblesInRange(b, first, last)
    ensures r < Pow16(last - first + 1)
  {
    var shifted: nat := b / Pow2((NIBBLES_PER_DOUBLE_BYTE - last - 1) * BITS_PER_NIBBLE);
    var numNibblesToExtract := last - first + 1;
    assert NibblesInRange(b, first, last) == shifted % Pow16(numNibblesToExtract);
    var mask := NibbleMask(numNibblesToExtract);
    var lowMask: nat := mask - 1;
    assert shifted <= b by {
      DivAtMost(b, Pow2((NIBBLES_PER_DOUBLE_BYTE - last - 1) * BITS_PER_NIBBLE));
    }
    MaskKeepsLowNibbles(shifted, numNibblesToExtract);
    ModBelow(shifted, mask);
    assert lowMask == Pow16(numNibblesToExtract) - 1;
    r := BitwiseAnd(shifted, lowMask, 2 * BITS_PER_BYTE);
    assert r == shifted % mask;
  }

  /** The mask loop of get_nibbles_in_range: 1 << BITS_PER_NIBBLE, multiplied by it once
      for every further nibble. */
  method NibbleMask(numNibbles: int) returns (mask: nat)
    requires numNibbles >= 1
    ensures mask == Pow16(numNibbles)
  {
    mask := Pow2(BITS_PER_NIBBLE);
    var i := 1;
    while i < numNibbles
      invariant 1 <= i <= numNibbles
      invariant mask == Pow16(i)
    {
      mask := mask * Pow2(BITS_PER_NIBBLE);
      i := i + 1;
    }
  }

  /** For a 16-bit value and 1 to 4 nibbles, the mask 16^n - 1 fits in 16 bits and the
      AND with it is the remainder modulo 16^n. */
  lemma MaskKeepsLowNibbles(v: nat, n: nat)
    requires v < 0x1_0000 && 1 <= n <= NIBBLES_PER_DOUBLE_BYTE
    ensures Pow2(2 * BITS_PER_BYTE) == 0x1_0000 && Pow16(n) - 1 < 0x1_0000
    ensures BitwiseAnd(v, Pow16(n) - 1, 2 * BITS_PER_BYTE) == v % Pow16(n)
  {
    var width := 2 * BITS_PER_BYTE;
    assert Pow2(width) == 0x1_0000 by {
      Pow16IsPow2(4);
      assert Pow16(4) == 0x1_0000;
    }
    Pow16IsPow2(n);
    AndLowMaskIsMod(v, BITS_PER_NIBBLE * n, width);
  }

  lemma ModBelow(x: nat, d: nat)
    requires d >= 1
    ensures x % d < d
  {
  }

  lemma DivAtMost(x: nat, d: nat)
    requires d >= 1
    ensures x / d <= x
  {
    assert x == d * (x / d) + x % d;
    MulMonotone(x / d, 1, d);
  }

  lemma {:induction false} Pow16IsPow2(k: nat)
    ensures Pow16(k) == Pow2(BITS_PER_NIBBLE * k)
  {
    if k > 0 {
      Pow16IsPow2(k - 1);
      var n := BITS_PER_NIBBLE * (k - 1);
      assert Pow2(n + 4) == 2 * Pow2(n + 3) == 4 * Pow2(n + 2) == 8 * Pow2(n + 1) == 16 * Pow2(n);
    }
  }

  /** The example of the helper's own comment: nibbles 1..2 of 0xABCD are 0xBC. */
  lemma NibblesInRangeExample()
    ensures NibblesInRange(0xABCD, 1, 2) == 0xBC
  {
  }

  /** Asking for all four nibbles gives the value back unchanged. */
  lemma NibblesInRangeFull(b: DoubleByte)
    ensures NibblesInRange(b, 0, NIBBLES_PER_DOUBLE_BYTE - 1) == b
  {
  }

  /** Nibbles 0..1 are the high byte and nibbles 2..3 the low byte: concatenating them
      rebuilds the double_byte. */
  lemma NibblesRebuildDoubleByte(w: DoubleByte)
    ensures NibblesInRange(w, 0, 1) < 256 && NibblesInRange(w, 2, 3) < 256
    ensures ConcatenateBytes(NibblesInRange(w, 0, 1), NibblesInRange(w, 2, 3)) == w
  {
  }
}
