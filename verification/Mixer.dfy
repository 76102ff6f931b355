/** The 64-bit mixer, on unbounded integers with masks and on wrapping machine words. */
module Mixer {
  import opened Modular

  const TWO64: nat := 0x1_0000_0000_0000_0000

  /** An unsigned 64-bit machine word. */
  type Word = x: int | 0 <= x < TWO64

  const GOLDEN: Word := 0x9E37_79B9_7F4A_7C15
  const MIX_A: Word := 0xBF58_476D_1CE4_E5B9
  const MIX_B: Word := 0x94D0_49BB_1331_11EB

  // ---------------------------------------------------------------- bits

  /** `a >> k` on a non-negative integer. */
  function Shr(a: nat, k: nat): nat
    decreases k
  {
    if k == 0 then a else Shr(a / 2, k - 1)
  }

  /** `a ^ b` on non-negative integers of any size. */
  function Xor(a: nat, b: nat): nat
    decreases a + b
  {
    if a == 0 && b == 0 then 0 else (a + b) % 2 + 2 * Xor(a / 2, b / 2)
  }

  lemma XorHalf(a: nat, b: nat)
    ensures Xor(a, b) / 2 == Xor(a / 2, b / 2) && Xor(a, b) % 2 == (a + b) % 2
  {
  }

  lemma {:induction false} XorZero(b: nat)
    ensures Xor(0, b) == b && Xor(b, 0) == b
  {
    if b != 0 { XorZero(b / 2); }
  }

  lemma XorUnfold(a: nat, b: nat)
    ensures Xor(a, b) == (a + b) % 2 + 2 * Xor(a / 2, b / 2)
  {
  }

  lemma {:induction false} XorCancel(a: nat, b: nat)
    ensures Xor(Xor(a, b), b) == a
    decreases a + b
  {
    hide Xor;
    if a == 0 && b == 0 {
      XorZero(0);
    } else {
      var x, h := Xor(a, b), Xor(a / 2, b / 2);
      XorUnfold(a, b);
      assert x / 2 == h && x % 2 == (a + b) % 2;
      XorCancel(a / 2, b / 2);
      XorUnfold(x, b);
      assert (x + b) % 2 == a % 2;
    }
  }

  lemma {:induction false} XorShr(a: nat, b: nat, k: nat)
    ensures Shr(Xor(a, b), k) == Xor(Shr(a, k), Shr(b, k))
    decreases k
  {
    if k > 0 {
      XorHalf(a, b);
      XorShr(a / 2, b / 2, k - 1);
    }
  }

  function Pow2(k: nat): (r: nat)
    ensures r >= 1
  {
    if k == 0 then 1 else 2 * Pow2(k - 1)
  }

  lemma {:induction false} XorBound(a: nat, b: nat, k: nat)
    requires a < Pow2(k) && b < Pow2(k)
    ensures Xor(a, b) < Pow2(k)
    decreases k
  {
    if k > 0 && (a != 0 || b != 0) { XorBound(a / 2, b / 2, k - 1); }
  }

  lemma {:induction false} ShrSmaller(a: nat, k: nat)
    ensures Shr(a, k) <= a
    ensures a > 0 && k > 0 ==> Shr(a, k) < a
    decreases k
  {
    if k > 0 { ShrSmaller(a / 2, k - 1); }
  }

  lemma Pow64()
    ensures Pow2(64) == TWO64
  {
    assert Pow2(8) == 256;
    assert Pow2(16) == 256 * Pow2(8);
    assert Pow2(24) == 256 * Pow2(16);
    assert Pow2(32) == 256 * Pow2(24);
    assert Pow2(40) == 256 * Pow2(32);
    assert Pow2(48) == 256 * Pow2(40);
    assert Pow2(56) == 256 * Pow2(48);
    assert Pow2(64) == 256 * Pow2(56);
  }

  // ---------------------------------------------------------------- word operations

  function Wrap(x: int): Word { x % TWO64 }

  function WordXor(a: Word, b: Word): Word {
    Pow64();
    XorBound(a, b, 64);
    Xor(a, b)
  }

  function XorShift(x: Word, k: nat): Word {
    ShrSmaller(x, k);
    WordXor(x, Shr(x, k))
  }

  /** The native mixer: every operation wraps at 64 bits. */
  function MixWord(value: Word): Word {
    var v1 := Wrap(value + GOLDEN);
    var v2 := Wrap(XorShift(v1, 30) * MIX_A);
    var v3 := Wrap(XorShift(v2, 27) * MIX_B);
    XorShift(v3, 31)
  }

  /** The portable mixer: unbounded integers, masked where the source masks. */
  function MixMasked(value: int): nat {
    var v1: nat := (value + GOLDEN) % TWO64;
    var v2: nat := (Xor(v1, Shr(v1, 30)) * MIX_A) % TWO64;
    var v3: nat := (Xor(v2, Shr(v2, 27)) * MIX_B) % TWO64;
    Xor(v3, Shr(v3, 31)) % TWO64
  }

  /** Masking an unbounded integer before or after the first addition is the same, so the two agree. */
  lemma MixersAgree(value: int)
    ensures MixMasked(value) == MixWord(Wrap(value))
  {
    hide Xor, Shr;
    ModSum(value, GOLDEN, TWO64);
    var v1 := Wrap(value + GOLDEN);
    assert v1 == Wrap(Wrap(value) + GOLDEN);
    XorShiftIsXor(v1, 30);
    var v2 := Wrap(XorShift(v1, 30) * MIX_A);
    XorShiftIsXor(v2, 27);
    var v3 := Wrap(XorShift(v2, 27) * MIX_B);
    XorShiftIsXor(v3, 31);
    SmallResidue(XorShift(v3, 31), TWO64);
  }

  /** A right shift divides by a power of two. */
  lemma {:induction false} ShrIsDivision(a: nat, k: nat)
    ensures Shr(a, k) == a / Pow2(k)
    decreases k
  {
    if k > 0 {
      ShrIsDivision(a / 2, k - 1);
      HalfThenRest(a, Pow2(k - 1));
    }
  }

  lemma HalfThenRest(a: nat, p: nat)
    requires p >= 1
    ensures a / 2 / p == a / (2 * p)
  {
    var h, q, r := a / 2, a / 2 / p, a / 2 % p;
    assert h == q * p + r;
    assert a == q * (2 * p) + (2 * r + a % 2);
    DivisionIsUnique(a, 2 * p, q, 2 * r + a % 2);
  }

  /** The mixer in powers of two: shifts by 30, 27 and 31 bits around the two multiplications. */
  lemma MixFormula(value: Word)
    ensures var a: nat := (value + 0x9E37_79B9_7F4A_7C15) % 0x1_0000_0000_0000_0000;
      var b: nat := Xor(a, a / 0x4000_0000) * 0xBF58_476D_1CE4_E5B9 % 0x1_0000_0000_0000_0000;
      var c: nat := Xor(b, b / 0x800_0000) * 0x94D0_49BB_1331_11EB % 0x1_0000_0000_0000_0000;
      MixWord(value) == Xor(c, c / 0x8000_0000)
  {
    hide Xor, Shr, Pow2, XorShift;
    ShiftPowers();
    var a: nat := (value + GOLDEN) % TWO64;
    XorShiftIsXor(a, 30);
    ShrIsDivision(a, 30);
    var b: nat := Xor(a, a / 0x4000_0000) * MIX_A % TWO64;
    XorShiftIsXor(b, 27);
    ShrIsDivision(b, 27);
    var c: nat := Xor(b, b / 0x800_0000) * MIX_B % TWO64;
    XorShiftIsXor(c, 31);
    ShrIsDivision(c, 31);
  }

  lemma ShiftPowers()
    ensures Pow2(27) == 0x800_0000 && Pow2(30) == 0x4000_0000 && Pow2(31) == 0x8000_0000
  {
    assert Pow2(9) == 512;
    assert Pow2(18) == 512 * Pow2(9);
    assert Pow2(27) == 512 * Pow2(18);
    assert Pow2(30) == 8 * Pow2(27);
  }

  lemma XorShiftIsXor(x: Word, k: nat)
    ensures XorShift(x, k) == Xor(x, Shr(x, k))
  {
  }

  // ---------------------------------------------------------------- the mixer is a bijection

  function Unshift(y: nat, k: nat): nat
    requires k >= 1
    decreases y
  {
    if y == 0 then 0
    else
      ShrSmaller(y, k);
      Xor(y, Unshift(Shr(y, k), k))
  }

  lemma {:induction false} UnshiftShift(x: nat, k: nat)
    requires k >= 1
    ensures Unshift(Xor(x, Shr(x, k)), k) == x
    decreases x
  {
    var h := Shr(x, k);
    var y := Xor(x, h);
    ShrSmaller(x, k);
    XorShr(x, h, k);
    XorCancel(x, h);
    if x != 0 {
      UnshiftShift(h, k);
      XorZero(h);
    }
  }

  lemma {:induction false} ShiftUnshift(y: nat, k: nat)
    requires k >= 1
    ensures Xor(Unshift(y, k), Shr(Unshift(y, k), k)) == y
    decreases y
  {
    if y != 0 {
      ShrSmaller(y, k);
      var u := Unshift(Shr(y, k), k);
      ShiftUnshift(Shr(y, k), k);
      XorShr(y, u, k);
      XorCancel(u, Shr(u, k));
      XorCancel(y, u);
    } else {
      ShrSmaller(0, k);
    }
  }

  lemma {:induction false} UnshiftBound(y: nat, k: nat, n: nat)
    requires k >= 1 && y < Pow2(n)
    ensures Unshift(y, k) < Pow2(n)
    decreases y
  {
    if y != 0 {
      ShrSmaller(y, k);
      UnshiftBound(Shr(y, k), k, n);
      XorBound(y, Unshift(Shr(y, k), k), n);
    }
  }

  const INVERSE_A: Word := 0x96DE_1B17_3F11_9089
  const INVERSE_B: Word := 0x3196_42B2_D24D_8EC3

  /** Multiplying by an inverse undoes a wrapping multiplication. */
  lemma MulInverse(x: Word, m: Word, inverse: Word)
    requires (m * inverse) % TWO64 == 1
    ensures Wrap(Wrap(x * m) * inverse) == x
  {
    ModProduct(x * m, inverse, TWO64);
    var q := m * inverse / TWO64;
    assert m * inverse == q * TWO64 + 1;
    assert (x * m) * inverse == x * (m * inverse);
    assert x * (q * TWO64 + 1) == (x * q) * TWO64 + x;
    assert q >= 0 && x * q >= 0;
    AddMultiple(x * q, x, TWO64);
    SmallResidue(x, TWO64);
  }

  function UnshiftWord(y: Word, k: nat): Word
    requires k >= 1
  {
    Pow64();
    UnshiftBound(y, k, 64);
    Unshift(y, k)
  }

  function Unmix(y: Word): Word {
    var v3 := UnshiftWord(y, 31);
    var v2 := UnshiftWord(Wrap(v3 * INVERSE_B), 27);
    var v1 := UnshiftWord(Wrap(v2 * INVERSE_A), 30);
    Wrap(v1 - GOLDEN)
  }

  lemma ShiftCancel(x: Word, k: nat)
    requires k >= 1
    ensures UnshiftWord(XorShift(x, k), k) == x && XorShift(UnshiftWord(x, k), k) == x
  {
    UnshiftShift(x, k);
    ShiftUnshift(x, k);
  }

  lemma AddCancel(x: Word)
    ensures Wrap(Wrap(x + GOLDEN) - GOLDEN) == x && Wrap(Wrap(x - GOLDEN) + GOLDEN) == x
  {
    ModSum(x + GOLDEN, 0 - GOLDEN, TWO64);
    ModSum(x - GOLDEN, GOLDEN, TWO64);
    SmallResidue(x, TWO64);
  }

  lemma UnmixMix(x: Word)
    ensures Unmix(MixWord(x)) == x
  {
    hide XorShift, UnshiftWord, Wrap;
    var v1 := Wrap(x + GOLDEN);
    var v2 := Wrap(XorShift(v1, 30) * MIX_A);
    var v3 := Wrap(XorShift(v2, 27) * MIX_B);
    ShiftCancel(v1, 30);
    ShiftCancel(v2, 27);
    ShiftCancel(v3, 31);
    assert (MIX_A * INVERSE_A) % TWO64 == 1 && (MIX_B * INVERSE_B) % TWO64 == 1;
    MulInverse(XorShift(v1, 30), MIX_A, INVERSE_A);
    MulInverse(XorShift(v2, 27), MIX_B, INVERSE_B);
    AddCancel(x);
  }

  lemma MixUnmix(y: Word)
    ensures MixWord(Unmix(y)) == y
  {
    hide XorShift, UnshiftWord, Wrap;
    var v3 := UnshiftWord(y, 31);
    var v2 := UnshiftWord(Wrap(v3 * INVERSE_B), 27);
    var v1 := UnshiftWord(Wrap(v2 * INVERSE_A), 30);
    ShiftCancel(y, 31);
    ShiftCancel(Wrap(v3 * INVERSE_B), 27);
    ShiftCancel(Wrap(v2 * INVERSE_A), 30);
    assert (INVERSE_A * MIX_A) % TWO64 == 1 && (INVERSE_B * MIX_B) % TWO64 == 1;
    MulInverse(v3, INVERSE_B, MIX_B);
    MulInverse(v2, INVERSE_A, MIX_A);
    AddCancel(v1);
  }

  /** No two keys collide and every word is reached. */
  lemma MixIsBijective(x: Word, y: Word)
    ensures MixWord(x) == MixWord(y) ==> x == y
    ensures exists key: Word :: MixWord(key) == y
  {
    UnmixMix(x);
    UnmixMix(y);
    MixUnmix(y);
  }
}
