/**
 * `ColorByte`: an RGB colour with one byte per channel, its packing into
 * the 24-bit pixel value the frame buffer stores, and the clamped channel
 * arithmetic.
 */
module Colors {

  type Byte = b: int | 0 <= b < 256

  datatype Color = Color(r: Byte, g: Byte, b: Byte)

  const Black := Color(0, 0, 0)
  const White := Color(255, 255, 255)
  const Red := Color(255, 0, 0)
  const Green := Color(0, 255, 0)
  const Blue := Color(0, 0, 255)

  /** The constructor from a byte array reads its first three entries. */
  function FromBytes(rgb: seq<Byte>): (c: Color)
    requires |rgb| >= 3
    ensures [c.r, c.g, c.b] == rgb[..3]
  {
    Color(rgb[0], rgb[1], rgb[2])
  }

  /**
   * `ByteUpperClamp` on a `uint`: values above 255 become 255.  The engine
   * only passes sums of two bytes, so the `uint` never wraps.
   */
  function ByteUpperClamp(a: nat): (r: Byte)
    ensures a <= 255 ==> r == a
    ensures a > 255 ==> r == 255
  {
    if a > 255 then 255 else a
  }

  /**
   * `ByteLowerClamp` on an `int`: negatives become 0; the final `(byte)`
   * cast keeps the low eight bits of anything above 255.
   */
  function ByteLowerClamp(a: int): (r: Byte)
    ensures a < 0 ==> r == 0
    ensures 0 <= a <= 255 ==> r == a
    ensures a > 255 ==> r == a % 256
  {
    if a < 0 then 0 else a % 256
  }

  /**
   * `ToUint`: red in bits 16-23, green in bits 8-15, blue in bits 0-7.  The
   * source ORs the shifted bytes together; the shifted fields do not
   * overlap, so this is their sum (`ShiftOrIsSum`).
   */
  function ToUint(c: Color): (u: nat)
    ensures u < 0x100_0000
    ensures u / 0x1_0000 == c.r && (u / 0x100) % 0x100 == c.g && u % 0x100 == c.b
  {
    PackedFields(c.r, c.g, c.b);
    c.r * 0x1_0000 + c.g * 0x100 + c.b
  }

  /** Three bytes packed at 16, 8 and 0 bits come back out by division and remainder. */
  lemma PackedFields(r: Byte, g: Byte, b: Byte)
    ensures r * 0x1_0000 + g * 0x100 + b < 0x100_0000
    ensures (r * 0x1_0000 + g * 0x100 + b) / 0x1_0000 == r
    ensures ((r * 0x1_0000 + g * 0x100 + b) / 0x100) % 0x100 == g
    ensures (r * 0x1_0000 + g * 0x100 + b) % 0x100 == b
  {
    var u := r * 0x1_0000 + g * 0x100 + b;
    DivModUnique(u, 0x1_0000, r, g * 0x100 + b);
    DivModUnique(u, 0x100, r * 0x100 + g, b);
    DivModUnique(r * 0x100 + g, 0x100, r, g);
  }

  /** Quotient and remainder are the only ones with the remainder in range. */
  lemma DivModUnique(u: int, d: int, q: int, rem: int)
    requires 0 < d && 0 <= rem < d && u == q * d + rem
    ensures u / d == q && u % d == rem
  {
    var q', rem' := u / d, u % d;
    assert u == q' * d + rem' && 0 <= rem' < d;
    SmallMultiple(q' - q, d, rem - rem');
  }

  /** A multiple of d strictly between -d and d is zero times d. */
  lemma SmallMultiple(k: int, d: int, x: int)
    requires 0 < d && x == k * d && -d < x < d
    ensures k == 0
  {
    if k > 0 {
      MultipleAtLeast(k, d);
    } else if k < 0 {
      MultipleAtLeast(-k, d);
    }
  }

  lemma MultipleAtLeast(k: int, d: int)
    requires 0 < k && 0 < d
    ensures k * d >= d
  {
  }

  /** On byte-sized fields, shift-and-OR packing is the same as shift-and-add. */
  lemma ShiftOrIsSum(r: bv32, g: bv32, b: bv32)
    requires r < 0x100 && g < 0x100 && b < 0x100
    ensures (r << 16) | (g << 8) | b == r * 0x1_0000 + g * 0x100 + b
  {
  }

  /** Distinct colours pack to distinct pixel values. */
  lemma ToUintInjective(c1: Color, c2: Color)
    ensures ToUint(c1) == ToUint(c2) <==> c1 == c2
  {
  }

  /** `+`: channelwise sum, saturating at 255. */
  function Add(c1: Color, c2: Color): Color {
    Color(ByteUpperClamp(c1.r + c2.r), ByteUpperClamp(c1.g + c2.g), ByteUpperClamp(c1.b + c2.b))
  }

  function Min(a: int, b: int): int { if a <= b then a else b }

  /** Each channel of a sum is the smaller of 255 and the exact sum. */
  lemma AddSaturates(c1: Color, c2: Color)
    ensures Add(c1, c2).r == Min(255, c1.r + c2.r)
    ensures Add(c1, c2).g == Min(255, c1.g + c2.g)
    ensures Add(c1, c2).b == Min(255, c1.b + c2.b)
  {
  }

  /** Addition is commutative, black is its unit and white absorbs everything. */
  lemma AddLaws(c1: Color, c2: Color)
    ensures Add(c1, c2) == Add(c2, c1)
    ensures Add(c1, Black) == c1
    ensures Add(c1, White) == White
  {
  }

  /**
   * `-` as the source writes it: every channel is `ByteLowerClamp(c1 - c1)`,
   * so the second operand is never read.
   */
  function SubAsWritten(c1: Color, c2: Color): Color {
    Color(ByteLowerClamp(c1.r - c1.r), ByteLowerClamp(c1.g - c1.g), ByteLowerClamp(c1.b - c1.b))
  }

  /** Whatever the operands, the subtraction as written yields black. */
  lemma SubAsWrittenIsBlack(c1: Color, c2: Color)
    ensures SubAsWritten(c1, c2) == Black
  {
  }

  /** White minus black should be white; as written it is black. */
  lemma SubAsWrittenCounterexample()
    ensures SubAsWritten(White, Black) != White
  {
    SubAsWrittenIsBlack(White, Black);
  }

  /** `-` as intended: channelwise difference, clamped at 0. */
  function Sub(c1: Color, c2: Color): (c: Color)
    ensures c.r == (if c1.r < c2.r then 0 else c1.r - c2.r)
    ensures c.g == (if c1.g < c2.g then 0 else c1.g - c2.g)
    ensures c.b == (if c1.b < c2.b then 0 else c1.b - c2.b)
  {
    Color(ByteLowerClamp(c1.r - c2.r), ByteLowerClamp(c1.g - c2.g), ByteLowerClamp(c1.b - c2.b))
  }

  /** Subtraction undoes an addition that did not saturate, and black is its right unit. */
  lemma SubUndoesAdd(c1: Color, c2: Color)
    requires c1.r + c2.r <= 255 && c1.g + c2.g <= 255 && c1.b + c2.b <= 255
    ensures Sub(Add(c1, c2), c2) == c1
    ensures Sub(c1, Black) == c1 && Sub(c1, c1) == Black
  {
  }

  /** `==`: all three channels equal. */
  predicate Equal(c1: Color, c2: Color) {
    c1.r == c2.r && c1.g == c2.g && c1.b == c2.b
  }

  /** `!=`: the negation of `==`. */
  predicate NotEqual(c1: Color, c2: Color) {
    !Equal(c1, c2)
  }

  /** Channel equality is exactly value equality, and `!=` its complement. */
  lemma EqualityIsValueEquality(c1: Color, c2: Color)
    ensures Equal(c1, c2) <==> c1 == c2
    ensures NotEqual(c1, c2) <==> c1 != c2
    ensures Equal(c1, c2) <==> ToUint(c1) == ToUint(c2)
  {
    if ToUint(c1) == ToUint(c2) {
      ToUintInjective(c1, c2);
    }
  }
}
