/** What a 64-bit word is worth as a number, and how numeric facts about addresses (alignment, bounds,
    sums) become facts about bits. */
module Words {
  import opened Geometry

  function Half(w: bv64): bv64 {
    w >> 1
  }

  function Digit(w: bv64): (d: nat)
    ensures d < 2
  {
    if w & 1 != 0 then 1 else 0
  }

  /** The number a word stands for, by its binary digits. */
  function Val(w: bv64): nat
    decreases w
  {
    if w == 0 then 0 else Digit(w) + 2 * Val(Half(w))
  }

  function Or(x: bv64, y: bv64): bv64 {
    x | y
  }

  /** All bits of the mask are clear. */
  predicate Clear(w: bv64, m: bv64) {
    w & m == 0
  }

  /** No bits outside the mask are set. */
  predicate Only(w: bv64, m: bv64) {
    w & m == w
  }

  /** One more low bit. */
  function Up(m: bv64): bv64 {
    (m << 1) | 1
  }

  /** The word whose lowest `n` bits are set. */
  function LowMask(n: nat): bv64 {
    if n == 0 then 0 else Up(LowMask(n - 1))
  }

  // ---- One digit -----------------------------------------------------------------------------

  lemma ValStep(w: bv64)
    ensures Val(w) == Digit(w) + 2 * Val(Half(w))
  {
  }

  lemma OrHalf(x: bv64, y: bv64)
    ensures Half(Or(x, y)) == Or(Half(x), Half(y))
  {
  }

  lemma ClearHalf(x: bv64, y: bv64)
    requires Clear(x, y)
    ensures Clear(Half(x), Half(y))
  {
  }

  lemma OrDigit(x: bv64, y: bv64)
    requires Clear(x, y)
    ensures Digit(Or(x, y)) == Digit(x) + Digit(y)
  {
    assert (x | y) & 1 == (x & 1) | (y & 1);
    assert !(x & 1 != 0 && y & 1 != 0);
  }

  lemma ClearUp(w: bv64, m: bv64)
    requires Digit(w) == 0 && Clear(Half(w), m)
    ensures Clear(w, Up(m))
  {
  }

  lemma OnlyUp(w: bv64, m: bv64)
    requires Only(Half(w), m)
    ensures Only(w, Up(m))
  {
  }

  lemma OnlyHalf(w: bv64, m: bv64)
    requires Only(w, Up(m))
    ensures Only(Half(w), m)
  {
  }

  lemma OnlyNone(w: bv64)
    requires Only(w, LowMask(0))
    ensures w == 0 && Or(w, w) == 0
  {
  }

  lemma AllBits(w: bv64)
    ensures Only(w, LowMask(64))
  {
    Masks();
  }

  lemma NoMask(w: bv64)
    ensures Clear(w, 0) && Only(0, w)
  {
  }

  lemma HalfZero(w: bv64)
    requires Digit(w) == 0 && Half(w) == 0
    ensures w == 0
  {
  }

  // ---- Sums, alignment and bounds ------------------------------------------------------------

  lemma {:induction false} ValOrTo(x: bv64, y: bv64, k: nat)
    requires Clear(x, y) && Only(x, LowMask(k)) && Only(y, LowMask(k))
    ensures Val(Or(x, y)) == Val(x) + Val(y)
    decreases k
  {
    hide Digit, Or, Half, Clear, Only, Val, Up;
    if k == 0 {
      OnlyNone(x);
      OnlyNone(y);
      ValNone();
    } else {
      OrHalf(x, y);
      ClearHalf(x, y);
      OrDigit(x, y);
      ValStep(Or(x, y));
      ValStep(x);
      ValStep(y);
      OnlyHalf(x, LowMask(k - 1));
      OnlyHalf(y, LowMask(k - 1));
      ValOrTo(Half(x), Half(y), k - 1);
    }
  }

  /** Words without a common bit add up. */
  lemma ValOr(x: bv64, y: bv64)
    requires Clear(x, y)
    ensures Val(Or(x, y)) == Val(x) + Val(y)
  {
    hide Or, Clear, Only, Val, LowMask;
    AllBits(x);
    AllBits(y);
    ValOrTo(x, y, 64);
  }

  lemma HalfMultiple(d: nat, v: nat, p: nat)
    requires d < 2 && p > 0 && (d + 2 * v) % (2 * p) == 0
    ensures d == 0 && v % p == 0
  {
    var q := (d + 2 * v) / (2 * p);
    assert d + 2 * v == q * (2 * p) == 2 * (q * p);
    assert v == q * p;
    MulDivides(q, p);
  }

  /** The low bits of a multiple of a power of two are clear. */
  lemma {:induction false} Aligned(w: bv64, n: nat)
    requires Val(w) % Pow2(n) == 0
    ensures Clear(w, LowMask(n))
    decreases n
  {
    hide Val, Digit, Half, Clear, Up;
    if n == 0 {
      NoMask(w);
    } else {
      ValStep(w);
      HalfMultiple(Digit(w), Val(Half(w)), Pow2(n - 1));
      Aligned(Half(w), n - 1);
      ClearUp(w, LowMask(n - 1));
    }
  }

  lemma {:induction false} ValZeroTo(w: bv64, k: nat)
    requires Val(w) == 0 && Only(w, LowMask(k))
    ensures w == 0
    decreases k
  {
    hide Digit, Half, Val, Only, Up;
    if k == 0 {
      OnlyNone(w);
    } else {
      ValStep(w);
      OnlyHalf(w, LowMask(k - 1));
      ValZeroTo(Half(w), k - 1);
      HalfZero(w);
    }
  }

  /** A word worth less than a power of two has only low bits. */
  lemma {:induction false} Bounded(w: bv64, n: nat)
    requires Val(w) < Pow2(n)
    ensures Only(w, LowMask(n))
    decreases n
  {
    hide Val, Digit, Half, Only, Up;
    if n == 0 {
      AllBits(w);
      ValZeroTo(w, 64);
      NoMask(LowMask(0));
    } else {
      ValStep(w);
      Bounded(Half(w), n - 1);
      OnlyUp(w, LowMask(n - 1));
    }
  }

  lemma Masks()
    ensures LowMask(12) == 0xFFF && LowMask(21) == 0x1F_FFFF && LowMask(30) == 0x3FFF_FFFF
    ensures LowMask(48) == 0xFFFF_FFFF_FFFF && LowMask(64) == 0xFFFF_FFFF_FFFF_FFFF
  {
    assert LowMask(3) == 0x7;
    assert LowMask(6) == 0x3F;
    assert LowMask(9) == 0x1FF;
    assert LowMask(12) == 0xFFF;
    assert LowMask(15) == 0x7FFF;
    assert LowMask(18) == 0x3_FFFF;
    assert LowMask(21) == 0x1F_FFFF;
    assert LowMask(24) == 0xFF_FFFF;
    assert LowMask(27) == 0x7FF_FFFF;
    assert LowMask(30) == 0x3FFF_FFFF;
    assert LowMask(33) == 0x1_FFFF_FFFF;
    assert LowMask(36) == 0xF_FFFF_FFFF;
    assert LowMask(39) == 0x7F_FFFF_FFFF;
    assert LowMask(42) == 0x3FF_FFFF_FFFF;
    assert LowMask(45) == 0x1FFF_FFFF_FFFF;
    assert LowMask(48) == 0xFFFF_FFFF_FFFF;
    assert LowMask(51) == 0x7_FFFF_FFFF_FFFF;
    assert LowMask(54) == 0x3F_FFFF_FFFF_FFFF;
    assert LowMask(57) == 0x1FF_FFFF_FFFF_FFFF;
    assert LowMask(60) == 0xFFF_FFFF_FFFF_FFFF;
    assert LowMask(63) == 0x7FFF_FFFF_FFFF_FFFF;
  }

  // ---- Every number that fits has a word -----------------------------------------------------

  function Push(w: bv64, d: bool): bv64 {
    (w << 1) | (if d then 1 else 0)
  }

  function Word(n: nat): bv64 {
    if n == 0 then 0 else Push(Word(n / 2), n % 2 == 1)
  }

  lemma {:induction false} NotFull(k: nat)
    requires k <= 48
    ensures LowMask(k) != 0xFFFF_FFFF_FFFF_FFFF
    decreases 48 - k
  {
    if k == 48 { Masks(); } else { NotFull(k + 1); }
  }

  predicate Ones(m: bv64) {
    m & (m + 1) == 0
  }

  lemma {:induction false} LowOnes(k: nat)
    ensures Ones(LowMask(k))
  {
    if k > 0 {
      LowOnes(k - 1);
      OnesUp(LowMask(k - 1));
    }
  }

  lemma OnesUp(m: bv64)
    requires Ones(m)
    ensures Ones(Up(m))
  {
  }

  lemma TopClear(m: bv64, w: bv64)
    requires Ones(m) && m != 0xFFFF_FFFF_FFFF_FFFF && Only(w, m)
    ensures (w << 1) >> 1 == w
  {
  }

  lemma Pushed(m: bv64, w: bv64, d: bool)
    requires Ones(m) && m != 0xFFFF_FFFF_FFFF_FFFF && Only(w, m)
    ensures Half(Push(w, d)) == w && Digit(Push(w, d)) == if d then 1 else 0
  {
    TopClear(m, w);
  }

  lemma HalfBound(n: nat, k: nat)
    requires 0 < n < Pow2(k)
    ensures k > 0 && n / 2 < Pow2(k - 1)
  {
  }

  lemma {:induction false} WordVal(n: nat, k: nat)
    requires n < Pow2(k) && k <= 48
    ensures Val(Word(n)) == n
    decreases k
  {
    hide LowMask, Pow2, Val, Half, Digit, Push, Ones, Only;
    if n == 0 {
      ValNone();
    } else {
      HalfBound(n, k);
      WordVal(n / 2, k - 1);
      Bounded(Word(n / 2), k - 1);
      LowOnes(k - 1);
      NotFull(k - 1);
      Pushed(LowMask(k - 1), Word(n / 2), n % 2 == 1);
      ValStep(Word(n));
    }
  }

  lemma ValNone()
    ensures Val(0) == 0
  {
  }
}
