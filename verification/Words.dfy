// Machine words as bounded integers, with C's bitwise operators defined bit by bit and the laws
// that turn masks and shifts into arithmetic.
module Words {
  import opened Common

  type u8 = x: int | 0 <= x < 0x100
  type u32 = x: int | 0 <= x < W32
  type u64 = x: int | 0 <= x < W64

  // C's `x & y`.
  function And(x: nat, y: nat): nat {
    if x == 0 || y == 0 then 0 else 2 * And(x / 2, y / 2) + (if x % 2 == 1 && y % 2 == 1 then 1 else 0)
  }

  // C's `x | y`.
  function Or(x: nat, y: nat): nat {
    if x == 0 && y == 0 then 0 else 2 * Or(x / 2, y / 2) + (if x % 2 == 1 || y % 2 == 1 then 1 else 0)
  }

  // C's `x ^ y`.
  function Xor(x: nat, y: nat): nat {
    if x == 0 && y == 0 then 0 else 2 * Xor(x / 2, y / 2) + (if x % 2 != y % 2 then 1 else 0)
  }

  function Pow2(k: nat): (p: nat)
    ensures p > 0
  {
    if k == 0 then 1 else 2 * Pow2(k - 1)
  }

  // The word whose low k bits are those of l and whose other bits are h.
  function Glue(h: nat, k: nat, l: nat): nat {
    if k == 0 then h else 2 * Glue(h, k - 1, l / 2) + l % 2
  }

  lemma {:induction false} GlueIs(h: nat, k: nat, l: nat)
    requires l < Pow2(k)
    ensures Glue(h, k, l) == h * Pow2(k) + l
  {
    if k > 0 {
      GlueIs(h, k - 1, l / 2);
      Doubled(h, Pow2(k - 1));
    }
  }

  lemma Doubled(h: nat, p: nat)
    ensures h * (2 * p) == 2 * (h * p)
  {
  }

  lemma AndHalf(x: nat, y: nat)
    ensures And(x, y) == 2 * And(x / 2, y / 2) + (if x % 2 == 1 && y % 2 == 1 then 1 else 0)
  {
  }

  lemma OrHalf(x: nat, y: nat)
    ensures Or(x, y) == 2 * Or(x / 2, y / 2) + (if x % 2 == 1 || y % 2 == 1 then 1 else 0)
  {
  }

  lemma XorHalf(x: nat, y: nat)
    ensures Xor(x, y) == 2 * Xor(x / 2, y / 2) + (if x % 2 != y % 2 then 1 else 0)
  {
  }

  lemma GlueHalf(h: nat, k: nat, l: nat)
    requires k > 0
    ensures Glue(h, k, l) / 2 == Glue(h, k - 1, l / 2) && Glue(h, k, l) % 2 == l % 2
  {
  }

  lemma HalfBelow(k: nat, x: nat)
    requires k > 0
    ensures x < Pow2(k) <==> x / 2 < Pow2(k - 1)
  {
  }

  // The bitwise operators act on the two parts of a word separately.
  lemma {:induction false} GlueAnd(xh: nat, yh: nat, k: nat, xl: nat, yl: nat)
    requires xl < Pow2(k) && yl < Pow2(k)
    ensures And(Glue(xh, k, xl), Glue(yh, k, yl)) == Glue(And(xh, yh), k, And(xl, yl))
    ensures And(xl, yl) < Pow2(k)
  {
    if k > 0 {
      hide *;
      HalfBelow(k, xl); HalfBelow(k, yl); HalfBelow(k, And(xl, yl));
      GlueAnd(xh, yh, k - 1, xl / 2, yl / 2);
      GlueHalf(xh, k, xl); GlueHalf(yh, k, yl); GlueHalf(And(xh, yh), k, And(xl, yl));
      AndHalf(Glue(xh, k, xl), Glue(yh, k, yl));
      AndHalf(xl, yl);
    }
  }

  lemma {:induction false} GlueOr(xh: nat, yh: nat, k: nat, xl: nat, yl: nat)
    requires xl < Pow2(k) && yl < Pow2(k)
    ensures Or(Glue(xh, k, xl), Glue(yh, k, yl)) == Glue(Or(xh, yh), k, Or(xl, yl))
    ensures Or(xl, yl) < Pow2(k)
  {
    if k > 0 {
      hide *;
      HalfBelow(k, xl); HalfBelow(k, yl); HalfBelow(k, Or(xl, yl));
      GlueOr(xh, yh, k - 1, xl / 2, yl / 2);
      GlueHalf(xh, k, xl); GlueHalf(yh, k, yl); GlueHalf(Or(xh, yh), k, Or(xl, yl));
      OrHalf(Glue(xh, k, xl), Glue(yh, k, yl));
      OrHalf(xl, yl);
    }
  }

  lemma {:induction false} XorBelow(k: nat, x: nat, y: nat)
    requires x < Pow2(k) && y < Pow2(k)
    ensures Xor(x, y) < Pow2(k)
  {
    if k > 0 {
      XorBelow(k - 1, x / 2, y / 2);
      XorHalf(x, y);
    }
  }

  lemma {:induction false} AndOnes(x: nat, k: nat)
    requires x < Pow2(k)
    ensures And(x, Pow2(k) - 1) == x
  {
    if k > 0 {
      AndOnes(x / 2, k - 1);
      AndHalf(x, Pow2(k) - 1);
      assert (Pow2(k) - 1) / 2 == Pow2(k - 1) - 1;
    }
  }

  // Masking with hi * 2^k + lo masks the two parts of the word.
  lemma AndSplit(k: nat, p: nat, x: nat, xh: nat, xl: nat, y: nat, hi: nat, lo: nat)
    requires p == Pow2(k) && xl < p && lo < p
    requires x == xh * p + xl && y == hi * p + lo
    ensures And(x, y) == And(xh, hi) * p + And(xl, lo)
  {
    hide *;
    GlueIs(xh, k, xl);
    GlueIs(hi, k, lo);
    GlueAnd(xh, hi, k, xl, lo);
    GlueIs(And(xh, hi), k, And(xl, lo));
  }

  // A mask of k ones keeps the low k bits.
  lemma AndMask(k: nat, p: nat, x: nat, xh: nat, xl: nat)
    requires p == Pow2(k) && xl < p && x == xh * p + xl
    ensures And(x, p - 1) == xl
  {
    hide *;
    AndSplit(k, p, x, xh, xl, p - 1, 0, p - 1);
    AndOnes(xl, k);
    AndZero(xh);
  }

  // Or-ing words whose bits do not overlap adds them.
  lemma OrDisjoint(k: nat, p: nat, x: nat, xh: nat, y: nat)
    requires p == Pow2(k) && y < p && x == xh * p
    ensures Or(x, y) == x + y && Or(y, x) == x + y
  {
    hide *;
    GlueIs(xh, k, 0);
    GlueIs(0, k, y);
    GlueOr(xh, 0, k, 0, y);
    OrZero(xh);
    OrZero(y);
    GlueIs(xh, k, y);
    OrSymmetric(x, y);
  }

  lemma {:induction false} OrSymmetric(x: nat, y: nat)
    ensures Or(x, y) == Or(y, x)
  {
    if x != 0 || y != 0 { OrSymmetric(x / 2, y / 2); }
  }

  lemma {:induction false} OrZero(x: nat)
    ensures Or(x, 0) == x && Or(0, x) == x
  {
    if x > 0 { OrZero(x / 2); }
  }

  lemma AndZero(x: nat)
    ensures And(x, 0) == 0 && And(0, x) == 0
  {
  }

  // Exclusive or undoes itself.
  lemma {:induction false} XorTwice(x: nat, y: nat)
    ensures Xor(Xor(x, y), y) == x
  {
    if x == 0 && y == 0 {
    } else {
      hide *;
      XorTwice(x / 2, y / 2);
      XorHalf(x, y);
      XorHalf(Xor(x, y), y);
    }
  }

  // Equal words are exactly those whose exclusive or is zero.
  lemma {:induction false} XorZero(x: nat, y: nat)
    ensures Xor(x, y) == 0 <==> x == y
  {
    if x == 0 && y == 0 {
    } else {
      XorZero(x / 2, y / 2);
      XorHalf(x, y);
    }
  }

  lemma MulMono(d: nat, a: int, b: int)
    requires a <= b
    ensures d * a <= d * b
  {
    assert d * (b - a) >= 0;
  }

  lemma {:induction false} Pow2Add(a: nat, b: nat)
    ensures Pow2(a + b) == Pow2(a) * Pow2(b)
  {
    if a > 0 { Pow2Add(a - 1, b); }
  }

  lemma Powers()
    ensures Pow2(1) == 2 && Pow2(2) == 4 && Pow2(6) == 0x40 && Pow2(8) == 0x100
    ensures Pow2(12) == 0x1000 && Pow2(14) == 0x4000
    ensures Pow2(18) == 0x4_0000 && Pow2(20) == 0x10_0000 && Pow2(23) == 0x80_0000
    ensures Pow2(24) == 0x100_0000 && Pow2(26) == 0x400_0000 && Pow2(28) == 0x1000_0000 && Pow2(32) == W32
  {
  }
}
