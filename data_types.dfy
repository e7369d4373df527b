/** The machine's value types (unsigned 8- and 16-bit integers), the conversions C++ performs
    when an int is stored into them, the frame-buffer shape, and the bitwise operators on
    bytes, written arithmetically (bit k of v is (v / 2^k) % 2). */
module DataTypes {
  import opened MachineSpecs

  datatype Option<T> = None | Some(value: T)

  datatype Result<T, E> = Ok(value: T) | Err(error: E)

  /** std::uint8_t */
  type Byte = b: int | 0 <= b < 256

  /** std::uint16_t */
  type DoubleByte = d: int | 0 <= d < 65536

  /** instruction_t is the same type as double_byte. */
  type InstructionWord = DoubleByte

  /** One hexadecimal digit (an instruction field X, Y or N, a category). */
  type Nibble = n: int | 0 <= n < 16

  /** Storing an int into a byte keeps it modulo 256 (C++ unsigned conversion). */
  function ToByte(x: int): (r: Byte)
    ensures (x - r) % 256 == 0
    ensures 0 <= x < 256 ==> r == x
  {
    x % 256
  }

  /** Storing an int into a double_byte keeps it modulo 65536. */
  function ToDoubleByte(x: int): (r: DoubleByte)
    ensures (x - r) % 65536 == 0
    ensures 0 <= x < 65536 ==> r == x
  {
    x % 65536
  }

  /** Frame_buffer is indexed [x][y]: FRAME_BUFFER_WIDTH columns of FRAME_BUFFER_HEIGHT cells. */
  predicate IsFrameBuffer(fb: seq<seq<Byte>>)
  {
    |fb| == FRAME_BUFFER_WIDTH &&
    forall x :: 0 <= x < |fb| ==> |fb[x]| == FRAME_BUFFER_HEIGHT
  }

  /** A value-initialised frame buffer: every cell 0. */
  function BlankFrameBuffer(): (fb: seq<seq<Byte>>)
    ensures IsFrameBuffer(fb)
    ensures forall x, y :: 0 <= x < FRAME_BUFFER_WIDTH && 0 <= y < FRAME_BUFFER_HEIGHT ==> fb[x][y] == 0
  {
    seq(FRAME_BUFFER_WIDTH, x => seq(FRAME_BUFFER_HEIGHT, y => 0))
  }

  function Pow2(k: nat): (r: nat)
    ensures r >= 1
  {
    if k == 0 then 1 else 2 * Pow2(k - 1)
  }

  /** Bit k of v, counting from the least significant bit. */
  predicate BitSet(v: nat, k: nat)
  {
    (v / Pow2(k)) % 2 == 1
  }

  /** a | b on width-bit values. */
  function BitwiseOr(a: nat, b: nat, width: nat): (r: nat)
    requires a < Pow2(width) && b < Pow2(width)
    ensures r < Pow2(width)
    decreases width
  {
    if width == 0 then 0
    else 2 * BitwiseOr(a / 2, b / 2, width - 1) + (if a % 2 == 1 || b % 2 == 1 then 1 else 0)
  }

  /** a & b on width-bit values. */
  function BitwiseAnd(a: nat, b: nat, width: nat): (r: nat)
    requires a < Pow2(width) && b < Pow2(width)
    ensures r < Pow2(width)
    decreases width
  {
    if width == 0 then 0
    else 2 * BitwiseAnd(a / 2, b / 2, width - 1) + (if a % 2 == 1 && b % 2 == 1 then 1 else 0)
  }

  /** a ^ b on width-bit values. */
  function BitwiseXor(a: nat, b: nat, width: nat): (r: nat)
    requires a < Pow2(width) && b < Pow2(width)
    ensures r < Pow2(width)
    decreases width
  {
    if width == 0 then 0
    else 2 * BitwiseXor(a / 2, b / 2, width - 1) + (if a % 2 != b % 2 then 1 else 0)
  }

  lemma Pow2Byte()
    ensures Pow2(BITS_PER_BYTE) == 256
  {
  }

  function ByteOr(a: Byte, b: Byte): Byte
  {
    Pow2Byte();
    BitwiseOr(a, b, BITS_PER_BYTE)
  }

  function ByteAnd(a: Byte, b: Byte): Byte
  {
    Pow2Byte();
    BitwiseAnd(a, b, BITS_PER_BYTE)
  }

  function ByteXor(a: Byte, b: Byte): Byte
  {
    Pow2Byte();
    BitwiseXor(a, b, BITS_PER_BYTE)
  }

  /** a & b keeps only bits of b: masking again with b changes nothing, and the result
      never exceeds b. */
  lemma {:induction false} AndIsWithinMask(a: nat, b: nat, width: nat)
    requires a < Pow2(width) && b < Pow2(width)
    ensures BitwiseAnd(BitwiseAnd(a, b, width), b, width) == BitwiseAnd(a, b, width)
    ensures BitwiseAnd(a, b, width) <= b
  {
    if width > 0 {
      AndIsWithinMask(a / 2, b / 2, width - 1);
      var r := BitwiseAnd(a, b, width);
      var h := BitwiseAnd(a / 2, b / 2, width - 1);
      assert r / 2 == h && r % 2 == (if a % 2 == 1 && b % 2 == 1 then 1 else 0);
    }
  }

  /** x ^ 1 flips bit 0 and nothing else. */
  lemma {:induction false} XorOneFlipsLowBit(v: nat, width: nat)
    requires width >= 1 && v < Pow2(width)
    ensures BitwiseXor(v, 1, width) == (if v % 2 == 0 then v + 1 else v - 1)
  {
    XorZeroIdentity(v / 2, width - 1);
  }

  lemma {:induction false} XorZeroIdentity(v: nat, width: nat)
    requires v < Pow2(width)
    ensures BitwiseXor(v, 0, width) == v
  {
    if width > 0 {
      XorZeroIdentity(v / 2, width - 1);
    }
  }

  /** Dividing by 2^k is halving, then dividing by 2^(k-1). */
  lemma DivPow2Step(v: nat, k: nat)
    requires k >= 1
    ensures v / Pow2(k) == (v / 2) / Pow2(k - 1)
  {
    var m := Pow2(k - 1);
    var q := (v / 2) / m;
    var rest := (v / 2) % m;
    assert v == 2 * (v / 2) + v % 2;
    assert v / 2 == m * q + rest;
    assert v == (2 * m) * q + (2 * rest + v % 2);
    assert 0 <= 2 * rest + v % 2 < 2 * m;
    DivUnique(v, 2 * m, q, 2 * rest + v % 2);
  }

  lemma DivUnique(v: nat, d: nat, q: nat, rest: nat)
    requires d > 0 && v == d * q + rest && rest < d
    ensures v / d == q
  {
    var q' := v / d;
    var r' := v % d;
    assert v == d * q' + r';
    if q' < q {
      assert d * q' + d <= d * q by { MulMonotone(d, q' + 1, q); }
    } else if q' > q {
      assert d * q + d <= d * q' by { MulMonotone(d, q + 1, q'); }
    }
  }

  lemma MulMonotone(d: nat, a: nat, b: nat)
    requires a <= b
    ensures d * a <= d * b
  {
  }

  lemma {:induction false} AndZero(v: nat, width: nat)
    requires v < Pow2(width)
    ensures BitwiseAnd(v, 0, width) == 0
  {
    if width > 0 {
      AndZero(v / 2, width - 1);
    }
  }

  /** Bit k of a & b is set exactly when bit k is set in both a and b. */
  lemma {:induction false} AndBits(a: nat, b: nat, width: nat, k: nat)
    requires a < Pow2(width) && b < Pow2(width) && k < width
    ensures BitSet(BitwiseAnd(a, b, width), k) <==> BitSet(a, k) && BitSet(b, k)
  {
    var r := BitwiseAnd(a, b, width);
    var h := BitwiseAnd(a / 2, b / 2, width - 1);
    assert r / 2 == h && r % 2 == (if a % 2 == 1 && b % 2 == 1 then 1 else 0);
    if k > 0 {
      AndBits(a / 2, b / 2, width - 1, k - 1);
      DivPow2Step(r, k);
      DivPow2Step(a, k);
      DivPow2Step(b, k);
    }
  }

  /** Masking with the single bit 2^k tests bit k: the result is 2^k when the bit is set
      and 0 otherwise. */
  lemma {:induction false} AndPow2IsBitTest(v: nat, k: nat, width: nat)
    requires v < Pow2(width) && k < width
    ensures Pow2(k) < Pow2(width)
    ensures BitwiseAnd(v, Pow2(k), width) == (if BitSet(v, k) then Pow2(k) else 0)
  {
    PowMonotone(k, width);
    if k == 0 {
      AndZero(v / 2, width - 1);
    } else {
      assert Pow2(k) / 2 == Pow2(k - 1) && Pow2(k) % 2 == 0;
      AndPow2IsBitTest(v / 2, k - 1, width - 1);
      DivPow2Step(v, k);
    }
  }

  /** Masking with 2^k - 1 keeps the k low bits: a & (2^k - 1) is a modulo 2^k. */
  lemma {:induction false} AndLowMaskIsMod(v: nat, k: nat, width: nat)
    requires v < Pow2(width) && k <= width
    ensures Pow2(k) - 1 < Pow2(width)
    ensures BitwiseAnd(v, Pow2(k) - 1, width) == v % Pow2(k)
    decreases width
  {
    assert Pow2(k) - 1 < Pow2(width) by {
      if k < width {
        PowMonotone(k, width);
      }
    }
    if k == 0 {
      AndLowMaskZero(v, width);
    } else {
      assert v / 2 < Pow2(width - 1);
      AndLowMaskIsMod(v / 2, k - 1, width - 1);
      AndLowMaskStep(v, k, width);
    }
  }

  lemma AndLowMaskZero(v: nat, width: nat)
    requires v < Pow2(width)
    ensures Pow2(0) - 1 == 0 < Pow2(width)
    ensures BitwiseAnd(v, Pow2(0) - 1, width) == v % Pow2(0)
  {
    AndZero(v, width);
  }

  /** The inductive step, with 2^k written as twice 2^(k-1). */
  lemma AndLowMaskStep(v: nat, k: nat, width: nat)
    requires 1 <= k <= width && v < Pow2(width) && Pow2(k) - 1 < Pow2(width)
    requires v / 2 < Pow2(width - 1) && Pow2(k - 1) - 1 < Pow2(width - 1)
    requires BitwiseAnd(v / 2, Pow2(k - 1) - 1, width - 1) == (v / 2) % Pow2(k - 1)
    ensures BitwiseAnd(v, Pow2(k) - 1, width) == v % Pow2(k)
  {
    var m := Pow2(k - 1);
    assert Pow2(k) == 2 * m;
    AndLowMaskHalves(v, m, width);
  }

  /** If the half keeps its remainder by m under the mask m - 1, the whole value keeps
      its remainder by 2m under the mask 2m - 1. */
  lemma AndLowMaskHalves(v: nat, m: nat, width: nat)
    requires width > 0 && m >= 1 && v < Pow2(width) && 2 * m - 1 < Pow2(width)
    requires v / 2 < Pow2(width - 1) && m - 1 < Pow2(width - 1)
    requires BitwiseAnd(v / 2, m - 1, width - 1) == (v / 2) % m
    ensures BitwiseAnd(v, 2 * m - 1, width) == v % (2 * m)
  {
    var mask := 2 * m - 1;
    assert mask / 2 == m - 1 && mask % 2 == 1;
    AndOddStep(v, mask, width);
    HalvingRemainder(v, m);
  }

  /** One step of the AND recursion with an odd mask. */
  lemma AndOddStep(v: nat, mask: nat, width: nat)
    requires width > 0 && v < Pow2(width) && mask < Pow2(width) && mask % 2 == 1
    ensures BitwiseAnd(v, mask, width) == 2 * BitwiseAnd(v / 2, mask / 2, width - 1) + v % 2
  {
  }

  /** The remainder by 2m is twice the remainder of the half by m, plus the low bit. */
  lemma HalvingRemainder(v: nat, m: nat)
    requires m > 0
    ensures v % (2 * m) == 2 * ((v / 2) % m) + v % 2
  {
    var q, rest := (v / 2) / m, (v / 2) % m;
    assert v == (2 * m) * q + (2 * rest + v % 2);
    DivUnique(v, 2 * m, q, 2 * rest + v % 2);
  }

  lemma {:induction false} PowMonotone(k: nat, width: nat)
    requires k < width
    ensures Pow2(k) < Pow2(width)
  {
    if k + 1 < width {
      PowMonotone(k, width - 1);
    }
  }

  /** Bit k of a | b is set exactly when bit k is set in a or in b. */
  lemma {:induction false} OrBits(a: nat, b: nat, width: nat, k: nat)
    requires a < Pow2(width) && b < Pow2(width) && k < width
    ensures BitSet(BitwiseOr(a, b, width), k) <==> BitSet(a, k) || BitSet(b, k)
  {
    var r := BitwiseOr(a, b, width);
    var h := BitwiseOr(a / 2, b / 2, width - 1);
    assert r / 2 == h && r % 2 == (if a % 2 == 1 || b % 2 == 1 then 1 else 0);
    if k > 0 {
      OrBits(a / 2, b / 2, width - 1, k - 1);
      DivPow2Step(r, k);
      DivPow2Step(a, k);
      DivPow2Step(b, k);
    }
  }

  /** Bit k of a ^ b is set exactly when bit k is set in one of a and b but not both. */
  lemma {:induction false} XorBits(a: nat, b: nat, width: nat, k: nat)
    requires a < Pow2(width) && b < Pow2(width) && k < width
    ensures BitSet(BitwiseXor(a, b, width), k) <==> BitSet(a, k) != BitSet(b, k)
  {
    var r := BitwiseXor(a, b, width);
    var h := BitwiseXor(a / 2, b / 2, width - 1);
    assert r / 2 == h && r % 2 == (if a % 2 != b % 2 then 1 else 0);
    if k > 0 {
      XorBits(a / 2, b / 2, width - 1, k - 1);
      DivPow2Step(r, k);
      DivPow2Step(a, k);
      DivPow2Step(b, k);
    }
  }

  /** Toggling the low bit twice gives the value back. */
  lemma XorOneTwice(v: nat, width: nat)
    requires width >= 1 && v < Pow2(width)
    ensures BitwiseXor(BitwiseXor(v, 1, width), 1, width) == v
  {
    XorOneFlipsLowBit(v, width);
    XorOneFlipsLowBit(BitwiseXor(v, 1, width), width);
  }

  lemma ToggleTwice(v: Byte)
    ensures ByteXor(ByteXor(v, 1), 1) == v
  {
    Pow2Byte();
    XorOneTwice(v, BITS_PER_BYTE);
  }
}
