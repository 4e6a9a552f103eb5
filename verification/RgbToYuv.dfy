/** The arithmetic of the RGB converters: unsigned 32-bit words against the exact floor formulas. */
module RgbToYuv {
  import opened Bits
  import Division

  datatype Rgb = Rgb(r: Byte, g: Byte, b: Byte)

  // The formulas, over the integers; `/` rounds down.

  /** The 8-bit ranges are those of section 2.5.3 of ITU-R BT.601-7. */
  function Luma(p: Rgb): (y: Byte)
    ensures 16 <= y <= 235
  {
    (66 * p.r + 129 * p.g + 25 * p.b + 128) / 256 + 16
  }

  function Cb(p: Rgb): (u: Byte)
    ensures 16 <= u <= 240
  {
    (-38 * p.r - 74 * p.g + 112 * p.b + 128) / 256 + 128
  }

  function Cr(p: Rgb): (v: Byte)
    ensures 16 <= v <= 240
  {
    (112 * p.r - 94 * p.g - 18 * p.b + 128) / 256 + 128
  }

  /** The ranges are tight. */
  lemma RangesAttained()
    ensures Luma(Rgb(0, 0, 0)) == 16 && Luma(Rgb(255, 255, 255)) == 235
    ensures Cb(Rgb(255, 255, 0)) == 16 && Cb(Rgb(0, 0, 255)) == 240
    ensures Cr(Rgb(0, 255, 255)) == 16 && Cr(Rgb(255, 0, 0)) == 240
  {
  }

  /** The three primaries. */
  lemma Primaries()
    ensures Luma(Rgb(255, 0, 0)) == 82 && Luma(Rgb(0, 255, 0)) == 144 && Luma(Rgb(0, 0, 255)) == 41
    ensures Cb(Rgb(255, 0, 0)) == 90 && Cb(Rgb(0, 255, 0)) == 54 && Cb(Rgb(0, 0, 255)) == 240
    ensures Cr(Rgb(255, 0, 0)) == 240 && Cr(Rgb(0, 255, 0)) == 34 && Cr(Rgb(0, 0, 255)) == 110
  {
  }

  /**
   The formulas are less than one step away from those of section 2.5 of ITU-R BT.601-7: luma is 0.299 R + 0.587 G +
   0.114 B, scaled to 219 steps; the differences B - Y and R - Y are divided by 1.772 and 1.402, and scaled to 224.
   */
  lemma CloseToTheStandard(p: Rgb)
    ensures var y := 299 * p.r + 587 * p.g + 114 * p.b;
            && -255000 < (Luma(p) - 16) * 255000 - 219 * y < 255000
            && -451860 < (Cb(p) - 128) * 451860 - 224 * (1000 * p.b - y) < 451860
            && -357510 < (Cr(p) - 128) * 357510 - 224 * (1000 * p.r - y) < 357510
  {
  }

  lemma GreyHasNoChroma(p: Rgb)
    requires p.r == p.g == p.b
    ensures Cb(p) == 128 && Cr(p) == 128
  {
  }

  // The computation: every operation wraps around, and the shift is logical.

  function Add(a: nat, b: nat): nat {
    Wrap(a + b)
  }

  function Sub(a: nat, b: nat): nat {
    Wrap(a - b)
  }

  function Mul(a: int, b: nat): nat {
    Wrap(Wrap(a) * b)
  }

  function LumaWord(r: nat, g: nat, b: nat): nat {
    Add(Shr(Add(Add(Add(Mul(66, r), Mul(129, g)), Mul(25, b)), 128), 8), 16)
  }

  function CbWord(r: nat, g: nat, b: nat): nat {
    Add(Shr(Add(Add(Sub(Mul(-38, r), Mul(74, g)), Mul(112, b)), 128), 8), 128)
  }

  function CrWord(r: nat, g: nat, b: nat): nat {
    Add(Shr(Add(Sub(Sub(Mul(112, r), Mul(94, g)), Mul(18, b)), 128), 8), 128)
  }

  /** The store of a word through a byte pointer. */
  function LowByte(w: nat): Byte {
    w % 256
  }

  lemma WrapIs(x: int) returns (k: int)
    ensures Wrap(x) == x + WORD * k
  {
    k := -(x / WORD);
  }

  lemma AddWraps(a: int, b: int)
    ensures Add(Wrap(a), Wrap(b)) == Wrap(a + b) && Add(Wrap(a), 128) == Wrap(a + 128)
  {
    hide Wrap;
    var k := WrapIs(a);
    var l := WrapIs(b);
    WrapMultiple(a + b, k + l);
    WrapMultiple(a + 128, k);
  }

  lemma SubWraps(a: int, b: int)
    ensures Sub(Wrap(a), Wrap(b)) == Wrap(a - b)
  {
    hide Wrap;
    var k := WrapIs(a);
    var l := WrapIs(b);
    WrapMultiple(a - b, k - l);
  }

  lemma MulSmall(a: int, b: nat)
    requires -256 < a < 256 && b < 256
    ensures Mul(a, b) == Wrap(a * b)
  {
    if a < 0 {
      assert Wrap(a) == a + WORD;
      assert (a + WORD) * b == a * b + WORD * b;
      WrapMultiple(a * b, b);
    }
  }

  lemma WrapMultiple(x: int, k: int)
    ensures Wrap(x + WORD * k) == Wrap(x)
  {
  }

  lemma HighBytesDrop(x: nat)
    requires x < 256
    ensures LowByte(x) == x && LowByte(x + 0x100_0000) == x
  {
  }

  lemma WrapSigned(s: int)
    requires -0x1_0000_0000 < s < 0x1_0000_0000
    ensures Wrap(s) == if s < 0 then s + WORD else s
  {
  }

  lemma ShiftedWord(s: int)
    requires -0x1_0000 < s < 0x1_0000
    ensures Shr(Wrap(s), 8) == s / 256 + if s < 0 then 0x100_0000 else 0
  {
    hide Shr, Wrap;
    WrapSigned(s);
    Eight(Wrap(s));
    var q, r, high := s / 256, s % 256, if s < 0 then 0x100_0000 else 0;
    Division.Divides(s, 256);
    Division.DivMod(q + high, 256, r);
  }

  /** Shifting, biasing and truncating the wrapped sum rounds down, for negative sums too. */
  lemma ShiftRoundsDown(s: int, bias: nat)
    requires -0x1_0000 < s < 0x1_0000 && 0 <= s / 256 + bias < 256 && bias < 256
    ensures LowByte(Add(Shr(Wrap(s), 8), bias)) == s / 256 + bias
  {
    hide Shr, LowByte;
    ShiftedWord(s);
    HighBytesDrop(s / 256 + bias);
  }

  lemma LumaExact(p: Rgb)
    ensures LowByte(LumaWord(p.r, p.g, p.b)) == Luma(p)
  {
    hide Wrap, Shr, LowByte, Add, Mul;
    var r, g, b := 66 * p.r, 129 * p.g, 25 * p.b;
    MulSmall(66, p.r);
    MulSmall(129, p.g);
    MulSmall(25, p.b);
    AddWraps(r, g);
    AddWraps(r + g, b);
    AddWraps(r + g + b, 0);
    ShiftRoundsDown(r + g + b + 128, 16);
  }

  lemma CbExact(p: Rgb)
    ensures LowByte(CbWord(p.r, p.g, p.b)) == Cb(p)
  {
    hide Wrap, Shr, LowByte, Add, Sub, Mul;
    var r, g, b := -38 * p.r, 74 * p.g, 112 * p.b;
    MulSmall(-38, p.r);
    MulSmall(74, p.g);
    MulSmall(112, p.b);
    SubWraps(r, g);
    AddWraps(r - g, b);
    AddWraps(r - g + b, 0);
    ShiftRoundsDown(r - g + b + 128, 128);
  }

  lemma CrExact(p: Rgb)
    ensures LowByte(CrWord(p.r, p.g, p.b)) == Cr(p)
  {
    hide Wrap, Shr, LowByte, Add, Sub, Mul;
    var r, g, b := 112 * p.r, 94 * p.g, 18 * p.b;
    MulSmall(112, p.r);
    MulSmall(94, p.g);
    MulSmall(18, p.b);
    SubWraps(r, g);
    SubWraps(r - g, b);
    AddWraps(r - g - b, 0);
    ShiftRoundsDown(r - g - b + 128, 128);
  }

  // Taking the channels out of a pixel.

  datatype Extraction =
    | Rgb565Shifted   // the planar converter: mask, then one shift to the high bits of a byte
    | Rgb565Scaled    // the semi-planar converter: shift to the low bits, then multiply
    | Argb8888

  function Red(how: Extraction, tmp: nat): nat {
    match how
    case Rgb565Shifted => Shr(And(tmp, 0xF800), 8)
    case Rgb565Scaled => Shr(And(tmp, 0xF800), 11) * 8
    case Argb8888 => Shr(And(tmp, 0xFF_0000), 16)
  }

  function Green(how: Extraction, tmp: nat): nat {
    match how
    case Rgb565Shifted => Shr(And(tmp, 0x7E0), 3)
    case Rgb565Scaled => Shr(And(tmp, 0x7E0), 5) * 4
    case Argb8888 => Shr(And(tmp, 0xFF00), 8)
  }

  function Blue(how: Extraction, tmp: nat): nat {
    match how
    case Rgb565Shifted => Shl(And(tmp, 0x1F), 3)
    case Rgb565Scaled => And(tmp, 0x1F) * 8
    case Argb8888 => And(tmp, 0xFF)
  }

  /** The pixel a word stands for: 5, 6 and 5 bits moved to the top of a byte, or three bytes. */
  function Pixel(how: Extraction, tmp: nat): Rgb {
    if how.Argb8888? then Rgb(tmp / 0x1_0000 % 256, tmp / 256 % 256, tmp % 256)
    else Rgb(8 * (tmp / 2048 % 32), 4 * (tmp / 32 % 64), 8 * (tmp % 32))
  }

  /** What is packed into a word comes out of it. */
  lemma PixelOfPacked(r: nat, g: nat, b: nat, how: Extraction)
    requires r < 32 && g < 64 && b < 32 && !how.Argb8888?
    ensures Pixel(how, 2048 * r + 32 * g + b) == Rgb(8 * r, 4 * g, 8 * b)
  {
    Field(r, 2048, 32 * g + b, 0, 32);
    Field(64 * r + g, 32, b, r, 64);
    Field(2048 * r + 32 * g + b, 1, 0, 64 * r + g, 32);
  }

  /** One field of a word: above `low`, and below what is cut off. */
  lemma Field(x: nat, d: nat, low: nat, above: nat, m: nat)
    requires low < d && above * m <= x < above * m + m
    ensures (x * d + low) / d == x && x % m == x - above * m
  {
    Division.DivMod(x, d, low);
    Division.DivMod(above, m, x - above * m);
  }

  lemma PixelOfBytes(a: Byte, r: Byte, g: Byte, b: Byte)
    ensures Pixel(Argb8888, 0x100_0000 * a + 0x1_0000 * r + 0x100 * g + b) == Rgb(r, g, b)
  {
    var x := 0x100 * a + r;
    var y := 0x100 * x + g;
    Field(x, 0x1_0000, 0x100 * g + b, a, 0x100);
    Field(y, 0x100, b, x, 0x100);
    Field(0x100 * y + b, 1, 0, y, 0x100);
  }

  lemma {:induction false} ShrShl(z: nat, a: nat, b: nat)
    ensures Shr(Shl(z, a + b), a) == Shl(z, b)
    decreases a
  {
    if a > 0 {
      assert Shl(z, a + b) / 2 == Shl(z, a - 1 + b);
      ShrShl(z, a - 1, b);
    }
  }

  lemma Fields565(x: nat)
    ensures And(x, 0xF800) == Shl(x / 2048 % 32, 11) && And(x, 0x7E0) == Shl(x / 32 % 64, 5)
  {
    hide And, Shr;
    Eight(31);
    Eight(x);
    Three(x / 256);
    ShrAdd(x, 8, 3);
    Shl4(31);
    ShlAdd(31, 8, 3);
    Eight(248);
    AndField(x, 31, 11);
    Five(x / 2048);
    assert x / 256 / 8 == x / 2048;
    AndField(x, 63, 5);
    Shl4(63);
    assert Shl(63, 5) == 2 * Shl(63, 4);
    Five(x);
    Five(x / 32);
  }

  lemma Fields8888(x: nat)
    ensures And(x, 0xFF_0000) == Shl(x / 0x1_0000 % 256, 16) && And(x, 0xFF00) == Shl(x / 256 % 256, 8)
  {
    hide And, Shr;
    Eight(255);
    Eight(x);
    Eight(x / 256);
    AndField(x, 255, 8);
    ShlAdd(255, 8, 8);
    Eight(0xFF00);
    ShrAdd(x, 8, 8);
    AndField(x, 255, 16);
    Eight(x / 0x1_0000);
    assert x / 256 / 256 == x / 0x1_0000;
  }

  /** Both ways to take an RGB565 pixel apart, and the masks of ARGB8888, give the pixel. */
  lemma ChannelsOfPixel(how: Extraction, tmp: nat)
    ensures Red(how, tmp) == Pixel(how, tmp).r && Green(how, tmp) == Pixel(how, tmp).g
    ensures Blue(how, tmp) == Pixel(how, tmp).b
  {
    hide And, Shr, Shl;
    if how.Argb8888? {
      Fields8888(tmp);
      Eight(tmp);
      ShrShl(tmp / 0x1_0000 % 256, 16, 0);
      ShrShl(tmp / 256 % 256, 8, 0);
      ShlZero(tmp / 0x1_0000 % 256);
      ShlZero(tmp / 256 % 256);
    } else {
      var r, g := tmp / 2048 % 32, tmp / 32 % 64;
      Fields565(tmp);
      Five(tmp);
      ShrShl(r, 8, 3);
      ShrShl(r, 11, 0);
      ShrShl(g, 3, 2);
      ShrShl(g, 5, 0);
      ShlZero(r);
      ShlZero(g);
      Shl4(r);
      Shl4(And(tmp, 0x1F));
    }
  }

  lemma ShlZero(z: nat)
    ensures Shl(z, 0) == z && Shl(z, 2) == 4 * z
  {
    assert Shl(z, 1) == 2 * z;
  }
}
