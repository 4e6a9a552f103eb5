/** Shifts and masks of unsigned 32-bit words, written on naturals. */
module Bits {
  import Division

  const WORD: nat := 0x1_0000_0000

  type Byte = b: int | 0 <= b < 256

  function And(a: nat, b: nat): nat {
    if a == 0 || b == 0 then 0
    else 2 * And(a / 2, b / 2) + if a % 2 == 1 && b % 2 == 1 then 1 else 0
  }

  function Or(a: nat, b: nat): nat {
    if a == 0 then b
    else if b == 0 then a
    else 2 * Or(a / 2, b / 2) + if a % 2 == 1 || b % 2 == 1 then 1 else 0
  }

  /** `a << k`, before the register drops the high bits. */
  function Shl(a: nat, k: nat): nat {
    if k == 0 then a else 2 * Shl(a, k - 1)
  }

  /** `a >> k` of an unsigned word. */
  function Shr(a: nat, k: nat): nat {
    if k == 0 then a else Shr(a / 2, k - 1)
  }

  /** What a 32-bit register keeps of an unsigned result. */
  function Wrap(a: int): (w: nat)
    ensures w < WORD
  {
    a % WORD
  }

  /** `~m` of a 32-bit word. */
  function Not(m: nat): nat
    requires m < WORD
  {
    WORD - 1 - m
  }

  /** `x & ~m`, for a mask of a few low bits. */
  function ClearBits(x: nat, m: nat): nat
    requires m < 256
  {
    And(x, Not(m))
  }

  /** The word with the `k` lowest bits set. */
  function Ones(k: nat): nat {
    if k == 0 then 0 else 2 * Ones(k - 1) + 1
  }

  /** The `k` lowest bits of `x`. */
  function Low(x: nat, k: nat): nat {
    if k == 0 then 0 else 2 * Low(x / 2, k - 1) + x % 2
  }

  lemma {:induction false} AndOnes(x: nat, k: nat)
    ensures And(x, Ones(k)) == Low(x, k)
    decreases k
  {
    if k > 0 {
      AndOnes(x / 2, k - 1);
      assert Ones(k) / 2 == Ones(k - 1);
      if x == 0 {
        AndOnes(0, k - 1);
        LowZero(k);
      }
    }
  }

  lemma LowZero(k: nat)
    ensures Low(0, k) == 0
  {
  }

  /** A mask with `k` low zero bits selects from the word shifted right by `k`. */
  lemma {:induction false} AndField(x: nat, m: nat, k: nat)
    ensures And(x, Shl(m, k)) == Shl(And(Shr(x, k), m), k)
    decreases k
  {
    if k > 0 {
      AndField(x / 2, m, k - 1);
      assert Shl(m, k) / 2 == Shl(m, k - 1);
      if x == 0 {
        assert And(x, Shl(m, k)) == 0 == And(x / 2, Shl(m, k - 1));
      }
    }
  }

  lemma {:induction false} AndAll(x: nat, k: nat)
    requires x <= Ones(k)
    ensures And(x, Ones(k)) == x
    decreases k
  {
    if x > 0 {
      assert Ones(k) / 2 == Ones(k - 1);
      AndAll(x / 2, k - 1);
    }
  }

  lemma {:induction false} ShrOnes(x: nat, n: nat, k: nat)
    requires k <= n && x <= Ones(n)
    ensures Shr(x, k) <= Ones(n - k)
    decreases k
  {
    if k > 0 {
      assert x / 2 <= Ones(n - 1);
      ShrOnes(x / 2, n - 1, k - 1);
    }
  }

  /** `x & mask`, for a mask of ones above `k` zeros, clears the low bits of a word. */
  lemma AndHigh(x: nat, k: nat)
    requires x < WORD && k <= 32
    ensures And(x, Shl(Ones(32 - k), k)) == Shl(Shr(x, k), k)
  {
    Ones32();
    AndField(x, Ones(32 - k), k);
    ShrOnes(x, 32, k);
    AndAll(Shr(x, k), 32 - k);
  }

  /** Or-ing disjoint bit fields is addition. */
  lemma {:induction false} OrDisjoint(t: nat, k: nat, o: nat)
    requires o <= Ones(k)
    ensures Or(Shl(t, k), o) == Shl(t, k) + o
    decreases k
  {
    if k > 0 && Shl(t, k) > 0 && o > 0 {
      assert Shl(t, k) / 2 == Shl(t, k - 1);
      OrDisjoint(t, k - 1, o / 2);
    }
  }

  lemma {:induction false} ShrAdd(x: nat, a: nat, b: nat)
    ensures Shr(x, a + b) == Shr(Shr(x, a), b)
    decreases a
  {
    if a > 0 {
      ShrAdd(x / 2, a - 1, b);
    }
  }

  // The masks and shifts the sources use.

  lemma Two(x: nat)
    ensures Shr(x, 2) == x / 4 && Low(x, 2) == x % 4
  {
    assert Shr(x, 2) == Shr(x / 2, 1) == Shr(x / 2 / 2, 0);
    assert Low(x / 2 / 2, 0) == 0;
    assert Low(x, 2) == 2 * Low(x / 2, 1) + x % 2;
  }

  lemma Three(x: nat)
    ensures Ones(3) == 7 && Shr(x, 3) == x / 8 && And(x, 7) == x % 8
  {
    assert Ones(1) == 1 && Ones(2) == 3;
    AndOnes(x, 3);
    Two(x / 2);
    assert Shr(x, 3) == Shr(x / 2, 2);
    assert Low(x, 3) == 2 * Low(x / 2, 2) + x % 2;
  }

  lemma Four(x: nat)
    ensures Ones(4) == 15 && Shr(x, 4) == x / 16 && And(x, 15) == x % 16
  {
    AndOnes(x, 4);
    Three(x / 2);
    AndOnes(x / 2, 3);
    assert Shr(x, 4) == Shr(x / 2, 3);
    assert Low(x, 4) == 2 * Low(x / 2, 3) + x % 2;
  }

  lemma Shl4(t: nat)
    ensures Shl(t, 3) == 8 * t && Shl(t, 4) == 16 * t
  {
    assert Shl(t, 0) == t;
    assert Shl(t, 1) == 2 * t;
    assert Shl(t, 2) == 4 * t;
  }

  lemma {:induction false} ShlAdd(t: nat, a: nat, b: nat)
    ensures Shl(t, a + b) == Shl(Shl(t, b), a)
    decreases a
  {
    if a > 0 {
      ShlAdd(t, a - 1, b);
    }
  }

  lemma Eight(x: nat)
    ensures Ones(7) == 127 && Ones(8) == 255 && Shl(x, 7) == 128 * x && Shl(x, 8) == 256 * x
    ensures Shr(x, 8) == x / 256 && And(x, 255) == x % 256
  {
    Four(x);
    Four(x / 16);
    ShrAdd(x, 4, 4);
    Shl4(x);
    Shl4(16 * x);
    ShlAdd(x, 4, 4);
    ShlAdd(x, 3, 4);
    assert Ones(5) == 31 && Ones(6) == 63;
    AndOnes(x, 8);
    AndOnes(x, 4);
    AndOnes(x / 16, 4);
    LowAdd(x, 4, 4);
    Shl4(Low(x / 16, 4));
  }

  lemma {:induction false} LowAdd(x: nat, a: nat, b: nat)
    ensures Low(x, a + b) == Shl(Low(Shr(x, a), b), a) + Low(x, a)
    decreases a
  {
    if a > 0 {
      LowAdd(x / 2, a - 1, b);
    }
  }

  lemma {:induction false} OnesAdd(a: nat, b: nat)
    ensures Ones(a + b) == Shl(Ones(b), a) + Ones(a)
    decreases a
  {
    if a > 0 {
      OnesAdd(a - 1, b);
    }
  }

  lemma Ones32()
    ensures Ones(32) == WORD - 1
  {
    Eight(255);
    Eight(0xFFFF);
    Eight(0xFF_FFFF);
    OnesAdd(8, 8);
    OnesAdd(8, 16);
    OnesAdd(8, 24);
  }

  /** `x & ~0xF` rounds a word down to a multiple of 16, and `x & ~0x7` to a multiple of 8. */
  lemma ClearLow(x: nat)
    requires x < WORD
    ensures ClearBits(x, 0xF) == x / 16 * 16
    ensures ClearBits(x, 0x7) == x / 8 * 8
  {
    Ones32();
    Four(x);
    Three(x);
    OnesAdd(4, 28);
    AndHigh(x, 4);
    Shl4(Shr(x, 4));
    OnesAdd(3, 29);
    AndHigh(x, 3);
    Shl4(Shr(x, 3));
  }

  lemma One(x: nat)
    ensures Shr(x, 1) == x / 2
  {
    assert Shr(x / 2, 0) == x / 2;
  }

  lemma OnesSmall()
    ensures Ones(4) == 15 && Ones(5) == 31 && Ones(6) == 63 && Ones(7) == 127
  {
    assert Ones(1) == 1 && Ones(2) == 3 && Ones(3) == 7;
  }

  lemma LowNext(x: nat, k: nat)
    ensures Low(x, k + 1) == 2 * Low(x / 2, k) + x % 2
  {
  }

  lemma HalfMod(x: nat)
    ensures x % 32 == 2 * (x / 2 % 16) + x % 2
    ensures x % 64 == 2 * (x / 2 % 32) + x % 2
    ensures x % 128 == 2 * (x / 2 % 64) + x % 2
  {
    var q, r := x / 2, x % 2;
    Division.DivMod(q / 16, 32, 2 * (q % 16) + r);
    Division.DivMod(q / 32, 64, 2 * (q % 32) + r);
    Division.DivMod(q / 64, 128, 2 * (q % 64) + r);
  }

  lemma LowFive(x: nat)
    ensures Low(x, 5) == x % 32
  {
    hide And, Low, Shr;
    LowNext(x, 4);
    OnesSmall();
    AndOnes(x / 2, 4);
    Four(x / 2);
    HalfMod(x);
  }

  lemma LowSix(x: nat)
    ensures Low(x, 6) == x % 64
  {
    hide Low;
    LowNext(x, 5);
    LowFive(x / 2);
    HalfMod(x);
  }

  lemma Five(x: nat)
    ensures Shr(x, 5) == x / 32 && And(x, 0x1F) == x % 32 && And(x, 0x3F) == x % 64
  {
    hide And, Low, Shr;
    OnesSmall();
    AndOnes(x, 5);
    AndOnes(x, 6);
    LowFive(x);
    LowSix(x);
    Four(x);
    ShrAdd(x, 4, 1);
    One(x / 16);
  }

  lemma Seven(x: nat)
    ensures And(x, 0x7F) == x % 128
  {
    hide And, Low;
    OnesSmall();
    AndOnes(x, 7);
    LowNext(x, 6);
    LowSix(x / 2);
    HalfMod(x);
  }
}
