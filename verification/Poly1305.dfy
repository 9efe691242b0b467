// The Poly1305 authenticator of LWCrypto.c: five 26-bit limbs, delayed carries and a branch-free
// final reduction, proved equal to the arithmetic modulo 2^130 - 5 of section 2.5 of RFC 7539.
module Poly1305 {
  import opened Common
  import opened Words
  import opened Bytes

  // ------------------------------------------------------------ specification

  const P: nat := 0x3_ffff_ffff_ffff_ffff_ffff_ffff_ffff_fffb

  // The clamped multiplier: the first half of the key.
  function R(key: seq<u8>): nat
    requires |key| == 32
  {
    And(LE(key[..16]), 0x0fff_fffc_0fff_fffc_0fff_fffc_0fff_ffff)
  }

  // The pad: the second half of the key.
  function S(key: seq<u8>): nat
    requires |key| == 32
  {
    LE(key[16..])
  }

  // One block: append a one byte, add, multiply, reduce.
  function Step(a: nat, r: nat, block: seq<u8>): nat {
    ((a + LE(block + [1])) * r) % P
  }

  // The accumulator after all 16-byte blocks; the last block may be shorter.
  function Acc(a: nat, r: nat, data: seq<u8>): nat
    decreases |data|
  {
    if data == [] then a
    else if |data| <= 16 then Step(a, r, data)
    else Acc(Step(a, r, data[..16]), r, data[16..])
  }

  // The tag of section 2.5 as a number.
  function Tag(key: seq<u8>, data: seq<u8>): nat
    requires |key| == 32
  {
    (Acc(0, R(key), data) + S(key)) % 0x1_0000_0000_0000_0000_0000_0000_0000_0000
  }

  // -------------------------------------------------------------------- limbs

  const B26: int := 0x400_0000
  const B52: int := 0x10_0000_0000_0000
  const B78: int := 0x4000_0000_0000_0000_0000
  const B104: int := 0x1_0000_0000_0000_0000_0000_0000_00

  function Value(h: seq<int>): int
    requires |h| == 5
  {
    h[0] + h[1] * B26 + h[2] * B52 + h[3] * B78 + h[4] * B104
  }

  // The state between blocks: only limb 1 may exceed 26 bits, and only slightly.
  predicate Carried(h: seq<int>) {
    && |h| == 5
    && 0 <= h[0] < B26 && 0 <= h[1] < B26 + 0x40
    && 0 <= h[2] < B26 && 0 <= h[3] < B26 && 0 <= h[4] < B26
  }

  // `x & 0x03ffffff`
  function Low26(x: u32): (r: u32)
    ensures r == x % B26
  {
    Powers();
    AndMask(26, B26, x, x / B26, x % B26);
    And(x, 0x03ff_ffff)
  }

  // `(x >> 26) | (y << 6)` in 32 bits.
  function Funnel6(x: u32, y: u32): (r: u32)
    ensures r == x / B26 + (y % B26) * 0x40
  {
    Powers();
    var lo, hi := y % B26, y / B26;
    assert y * 0x40 == lo * 0x40 + W32 * hi;
    assert y * 0x40 % W32 == lo * 0x40;
    OrDisjoint(6, 0x40, lo * 0x40, lo, x / B26);
    Or(x / B26, y * 0x40 % W32)
  }

  // `(x >> 20) | (y << 12)` in 32 bits.
  function Funnel12(x: u32, y: u32): (r: u32)
    ensures r == x / 0x10_0000 + (y % 0x10_0000) * 0x1000
  {
    Powers();
    var lo, hi := y % 0x10_0000, y / 0x10_0000;
    assert y * 0x1000 == lo * 0x1000 + W32 * hi;
    assert y * 0x1000 % W32 == lo * 0x1000;
    OrDisjoint(12, 0x1000, lo * 0x1000, lo, x / 0x10_0000);
    Or(x / 0x10_0000, y * 0x1000 % W32)
  }

  // `(x >> 14) | (y << 18)` in 32 bits.
  function Funnel18(x: u32, y: u32): (r: u32)
    ensures r == x / 0x4000 + (y % 0x4000) * 0x4_0000
  {
    Powers();
    var lo, hi := y % 0x4000, y / 0x4000;
    assert y * 0x4_0000 == lo * 0x4_0000 + W32 * hi;
    assert y * 0x4_0000 % W32 == lo * 0x4_0000;
    OrDisjoint(18, 0x4_0000, lo * 0x4_0000, lo, x / 0x4000);
    Or(x / 0x4000, y * 0x4_0000 % W32)
  }

  // ------------------------------------------------------------ bytes to limbs

  const W96: int := 0x1_0000_0000_0000_0000_0000_0000
  const W128: int := 0x1_0000_0000_0000_0000_0000_0000_0000_0000

  lemma FourWords(b: seq<u8>)
    requires |b| == 16
    ensures LE(b) == Word(b[..4]) + W32 * Word(b[4..8]) + W64 * Word(b[8..12]) + W96 * Word(b[12..])
  {
    TakeWord(b);
    TakeWord(b[4..]);
    TakeWord(b[8..]);
    assert b[4..][..4] == b[4..8] && b[4..][4..] == b[8..];
    assert b[8..][..4] == b[8..12] && b[8..][4..] == b[12..];
  }

  // The bit fields of the four words that the clamp and the limbs cut out.
  datatype Fields = Fields(a0: nat, a1: nat, a2: nat, b0: nat, b1: nat, b2: nat, b3: nat, b4: nat,
                           c0: nat, c1: nat, c2: nat, c3: nat, c4: nat, d0: nat, d1: nat, d2: nat, d3: nat, d4: nat)
  {
    ghost predicate Fit() {
      && a0 < B26 && a1 < 4 && a2 < 0x10
      && b0 < 4 && b1 < 0x4_0000 && b2 < 0x40 && b3 < 4 && b4 < 0x10
      && c0 < 4 && c1 < 0x1000 && c2 < 0x40 && c3 < 0x100 && c4 < 0x10
      && d0 < 4 && d1 < 0x40 && d2 < 0x40 && d3 < 0x4000 && d4 < 0x10
    }

    function T0(): nat { a0 + 0x400_0000 * a1 + 0x1000_0000 * a2 }
    function T1(): nat { b0 + 4 * b1 + 0x10_0000 * b2 + 0x400_0000 * b3 + 0x1000_0000 * b4 }
    function T2(): nat { c0 + 4 * c1 + 0x4000 * c2 + 0x10_0000 * c3 + 0x1000_0000 * c4 }
    function T3(): nat { d0 + 4 * d1 + 0x100 * d2 + 0x4000 * d3 + 0x1000_0000 * d4 }
  }

  lemma CutFields(t0: u32, t1: u32, t2: u32, t3: u32) returns (f: Fields)
    ensures f.Fit() && f.T0() == t0 && f.T1() == t1 && f.T2() == t2 && f.T3() == t3
  {
    var a0, y := Divide(t0, B26);
    var a1, a2 := Divide(y, 4);
    var b0, b1, b2, b3, b4 := CutFive(t1, 0x4_0000, 0x40, 4);
    var c0, c1, c2, c3, c4 := CutFive(t2, 0x1000, 0x40, 0x100);
    var d0, d1, d2, d3, d4 := CutFive(t3, 0x40, 0x40, 0x4000);
    f := Fields(a0, a1, a2, b0, b1, b2, b3, b4, c0, c1, c2, c3, c4, d0, d1, d2, d3, d4);
  }

  lemma Divide(t: nat, m: nat) returns (lo: nat, hi: nat)
    requires m > 0
    ensures t == lo + m * hi && lo < m
  {
    lo, hi := t % m, t / m;
  }

  // Five consecutive bit fields of a word, of 4, m1, m2, m3 and 16 values.
  lemma CutFive(t: u32, m1: nat, m2: nat, m3: nat) returns (x0: nat, x1: nat, x2: nat, x3: nat, x4: nat)
    requires (m1 == 0x4_0000 && m2 == 0x40 && m3 == 4) || (m1 == 0x1000 && m2 == 0x40 && m3 == 0x100)
          || (m1 == 0x40 && m2 == 0x40 && m3 == 0x4000)
    ensures x0 < 4 && x1 < m1 && x2 < m2 && x3 < m3 && x4 < 0x10
    ensures t == x0 + 4 * x1 + (4 * m1) * x2 + (0x100 * m1) * x3 + 0x1000_0000 * x4
  {
    var y1, y2, y3;
    x0, y1 := Divide(t, 4);
    if m1 == 0x4_0000 {
      x1, y2 := Divide(y1, 0x4_0000);
      x2, y3 := Divide(y2, 0x40);
      x3, x4 := Divide(y3, 4);
    } else if m1 == 0x1000 {
      x1, y2 := Divide(y1, 0x1000);
      x2, y3 := Divide(y2, 0x40);
      x3, x4 := Divide(y3, 0x100);
    } else {
      x1, y2 := Divide(y1, 0x40);
      x2, y3 := Divide(y2, 0x40);
      x3, x4 := Divide(y3, 0x4000);
    }
  }

  // The block's limbs, cut as the code cuts them.
  function BlockLimbs(t0: u32, t1: u32, t2: u32, t3: u32): (h: seq<u32>)
    ensures |h| == 5 && (forall i :: 0 <= i < 4 ==> h[i] < B26) && h[4] < 0x100_0000
  {
    [Low26(t0), Low26(Funnel6(t0, t1)), Low26(Funnel12(t1, t2)), Low26(Funnel18(t2, t3)), t3 / 0x100]
  }

  lemma FunnelFields(f: Fields, t0: u32, t1: u32, t2: u32, t3: u32)
    requires f.Fit() && f.T0() == t0 && f.T1() == t1 && f.T2() == t2 && f.T3() == t3
    ensures Funnel6(t0, t1) == f.a1 + 4 * f.a2 + 0x40 * f.b0 + 0x100 * f.b1 + B26 * f.b2
    ensures Funnel12(t1, t2) ==
      f.b2 + 0x40 * f.b3 + 0x100 * f.b4 + 0x1000 * f.c0 + 0x4000 * f.c1 + B26 * f.c2
    ensures Funnel18(t2, t3) ==
      f.c2 + 0x40 * f.c3 + 0x4000 * f.c4 + 0x4_0000 * f.d0 + 0x10_0000 * f.d1 + B26 * f.d2
    ensures t3 / 0x100 == f.d2 + 0x40 * f.d3 + 0x10_0000 * f.d4
  {
    assert t0 / B26 == f.a1 + 4 * f.a2;
    assert t1 % B26 == f.b0 + 4 * f.b1 + 0x10_0000 * f.b2;
    assert t1 / 0x10_0000 == f.b2 + 0x40 * f.b3 + 0x100 * f.b4;
    assert t2 % 0x10_0000 == f.c0 + 4 * f.c1 + 0x4000 * f.c2;
    assert t2 / 0x4000 == f.c2 + 0x40 * f.c3 + 0x4000 * f.c4;
    assert t3 % 0x4000 == f.d0 + 4 * f.d1 + 0x100 * f.d2;
  }

  // The limbs cut from four words carry the same value.
  lemma LimbsOfWords(t0: u32, t1: u32, t2: u32, t3: u32)
    ensures Value(BlockLimbs(t0, t1, t2, t3)) == t0 + W32 * t1 + W64 * t2 + W96 * t3
  {
    var f := CutFields(t0, t1, t2, t3);
    FunnelFields(f, t0, t1, t2, t3);
    var l1 := f.a1 + 4 * f.a2 + 0x40 * f.b0 + 0x100 * f.b1;
    var l2 := f.b2 + 0x40 * f.b3 + 0x100 * f.b4 + 0x1000 * f.c0 + 0x4000 * f.c1;
    var l3 := f.c2 + 0x40 * f.c3 + 0x4000 * f.c4 + 0x4_0000 * f.d0 + 0x10_0000 * f.d1;
    LowLimb(t0, f.a0, f.a1 + 4 * f.a2);
    LowLimb(Funnel6(t0, t1), l1, f.b2);
    LowLimb(Funnel12(t1, t2), l2, f.c2);
    LowLimb(Funnel18(t2, t3), l3, f.d2);
    SumOfLimbs(f, BlockLimbs(t0, t1, t2, t3));
  }

  lemma SumOfLimbs(f: Fields, h: seq<int>)
    requires |h| == 5 && h[0] == f.a0
    requires h[1] == f.a1 + 4 * f.a2 + 0x40 * f.b0 + 0x100 * f.b1
    requires h[2] == f.b2 + 0x40 * f.b3 + 0x100 * f.b4 + 0x1000 * f.c0 + 0x4000 * f.c1
    requires h[3] == f.c2 + 0x40 * f.c3 + 0x4000 * f.c4 + 0x4_0000 * f.d0 + 0x10_0000 * f.d1
    requires h[4] == f.d2 + 0x40 * f.d3 + 0x10_0000 * f.d4
    ensures Value(h) == f.T0() + W32 * f.T1() + W64 * f.T2() + W96 * f.T3()
  {
  }

  lemma LowLimb(x: u32, lo: nat, hi: nat)
    requires lo < B26 && x == lo + B26 * hi
    ensures Low26(x) == lo
  {
  }

  // The multiplier's limbs, masked as the code masks them.
  function ClampedLimbs(t0: u32, t1: u32, t2: u32, t3: u32): (r: seq<nat>)
  {
    [Low26(t0), And(Funnel6(t0, t1), 0x03ff_ff03), And(Funnel12(t1, t2), 0x03ff_c0ff),
     And(Funnel18(t2, t3), 0x03f0_3fff), And(t3 / 0x100, 0x000f_ffff)]
  }

  lemma MaskFields(f: Fields, t0: u32, t1: u32, t2: u32, t3: u32)
    requires f.Fit() && f.T0() == t0 && f.T1() == t1 && f.T2() == t2 && f.T3() == t3
    ensures var r := ClampedLimbs(t0, t1, t2, t3);
      && |r| == 5 && r[0] == f.a0 && r[1] == f.a1 + 0x100 * f.b1
      && r[2] == f.b2 + 0x40 * f.b3 + 0x4000 * f.c1
      && r[3] == f.c2 + 0x40 * f.c3 + 0x10_0000 * f.d1 && r[4] == f.d2 + 0x40 * f.d3
  {
    hide And, Low26, Funnel6, Funnel12, Funnel18;
    FunnelFields(f, t0, t1, t2, t3);
    var x1, x2, x3, x4 := Funnel6(t0, t1), Funnel12(t1, t2), Funnel18(t2, t3), t3 / 0x100;
    MaskLimbs(f, x1, x2, x3, x4);
    LowLimb(t0, f.a0, f.a1 + 4 * f.a2);
  }

  lemma MaskLimbs(f: Fields, x1: nat, x2: nat, x3: nat, x4: nat)
    requires f.Fit()
    requires x1 == f.a1 + 4 * f.a2 + 0x40 * f.b0 + 0x100 * f.b1 + B26 * f.b2
    requires x2 == f.b2 + 0x40 * f.b3 + 0x100 * f.b4 + 0x1000 * f.c0 + 0x4000 * f.c1 + B26 * f.c2
    requires x3 == f.c2 + 0x40 * f.c3 + 0x4000 * f.c4 + 0x4_0000 * f.d0 + 0x10_0000 * f.d1 + B26 * f.d2
    requires x4 == f.d2 + 0x40 * f.d3 + 0x10_0000 * f.d4
    ensures And(x1, 0x03ff_ff03) == f.a1 + 0x100 * f.b1
    ensures And(x2, 0x03ff_c0ff) == f.b2 + 0x40 * f.b3 + 0x4000 * f.c1
    ensures And(x3, 0x03f0_3fff) == f.c2 + 0x40 * f.c3 + 0x10_0000 * f.d1
    ensures And(x4, 0x000f_ffff) == f.d2 + 0x40 * f.d3
  {
    hide And, Pow2;
    MaskTwo(8, 0x100, 18, 0x4_0000, 2, 4, x1, f.b2, f.b1, f.a2 + 0x10 * f.b0, f.a1, 0x03ff_ff03);
    MaskTwo(14, 0x4000, 12, 0x1000, 8, 0x100, x2, f.c2, f.c1, f.b4 + 0x10 * f.c0, f.b2 + 0x40 * f.b3, 0x03ff_c0ff);
    MaskTwo(20, 0x10_0000, 6, 0x40, 14, 0x4000, x3, f.d2, f.d1, f.c4 + 0x10 * f.d0, f.c2 + 0x40 * f.c3, 0x03f0_3fff);
    Powers();
    AndMask(20, 0x10_0000, x4, f.d4, f.d2 + 0x40 * f.d3);
  }

  // A mask of m ones above bit k and j ones at the bottom keeps those two fields.
  lemma MaskTwo(k: nat, p: nat, m: nat, pm: nat, j: nat, pj: nat, x: nat, a: nat, b: nat, c: nat, d: nat, mask: nat)
    requires k in {8, 14, 20} && p == (if k == 8 then 0x100 else if k == 14 then 0x4000 else 0x10_0000)
    requires m in {18, 12, 6} && pm == (if m == 18 then 0x4_0000 else if m == 12 then 0x1000 else 0x40)
    requires j in {2, 8, 14} && pj == (if j == 2 then 4 else if j == 8 then 0x100 else 0x4000)
    requires b < pm && d < pj && c * pj + d < p && pj <= p
    requires x == (a * pm + b) * p + (c * pj + d) && mask == (pm - 1) * p + (pj - 1)
    ensures And(x, mask) == b * p + d
  {
    hide *;
    Powers();
    AndSplit(k, p, x, a * pm + b, c * pj + d, mask, pm - 1, pj - 1);
    AndMask(m, pm, a * pm + b, a, b);
    AndMask(j, pj, c * pj + d, c, d);
  }

  lemma TailMask(t: u32, lo: nat, mid: nat, hi: nat)
    requires t == lo + 4 * mid + 0x1000_0000 * hi && lo < 4 && mid < B26
    ensures And(t, 0x0fff_fffc) == 4 * mid
    ensures And(t, 0x0fff_ffff) == lo + 4 * mid
  {
    hide And, Pow2;
    Powers();
    AndSplit(2, 4, t, mid + B26 * hi, lo, 0x0fff_fffc, 0x03ff_ffff, 0);
    AndMask(26, B26, mid + B26 * hi, hi, mid);
    AndZero(lo);
    AndMask(28, 0x1000_0000, t, hi, lo + 4 * mid);
  }

  // The code's masks on limbs are the clamp of the whole 128-bit multiplier.
  lemma ClampedIsR(key: seq<u8>)
    requires |key| == 32
    ensures var r := ClampedLimbs(Word(key[..4]), Word(key[4..8]), Word(key[8..12]), Word(key[12..16]));
      && Value(r) == R(key)
      && (forall i :: 0 <= i < 4 ==> r[i] < B26) && r[4] < 0x10_0000
  {
    var t0, t1, t2, t3 := Word(key[..4]), Word(key[4..8]), Word(key[8..12]), Word(key[12..16]);
    var b := key[..16];
    assert b[..4] == key[..4] && b[4..8] == key[4..8] && b[8..12] == key[8..12] && b[12..] == key[12..16];
    FourWords(b);
    ClampedValue(LE(b), t0, t1, t2, t3);
  }

  lemma ClampedValue(x: nat, t0: u32, t1: u32, t2: u32, t3: u32)
    requires x == t0 + W32 * t1 + W64 * t2 + W96 * t3
    ensures var r := ClampedLimbs(t0, t1, t2, t3);
      && Value(r) == And(x, 0x0fff_fffc_0fff_fffc_0fff_fffc_0fff_ffff)
      && (forall i :: 0 <= i < 4 ==> r[i] < B26) && r[4] < 0x10_0000
  {
    hide And, Low26, Funnel6, Funnel12, Funnel18, ClampedLimbs;
    MaskWords(x, t0, t1, t2, t3);
    var f := CutFields(t0, t1, t2, t3);
    MaskFields(f, t0, t1, t2, t3);
    TailMask(t0, f.a0 % 4, f.a0 / 4 + 0x100_0000 * f.a1, f.a2);
    TailMask(t1, f.b0, f.b1 + 0x4_0000 * f.b2 + 0x100_0000 * f.b3, f.b4);
    TailMask(t2, f.c0, f.c1 + 0x1000 * f.c2 + 0x4_0000 * f.c3, f.c4);
    TailMask(t3, f.d0, f.d1 + 0x40 * f.d2 + 0x1000 * f.d3, f.d4);
  }

  lemma MaskWords(x: nat, t0: u32, t1: u32, t2: u32, t3: u32)
    requires x == t0 + W32 * t1 + W64 * t2 + W96 * t3
    ensures And(x, 0x0fff_fffc_0fff_fffc_0fff_fffc_0fff_ffff) ==
      And(t0, 0x0fff_ffff) + W32 * And(t1, 0x0fff_fffc) + W64 * And(t2, 0x0fff_fffc) + W96 * And(t3, 0x0fff_fffc)
  {
    Powers();
    var x1 := t1 + W32 * t2 + W64 * t3;
    var x2 := t2 + W32 * t3;
    AndSplit(32, W32, x, x1, t0, 0x0fff_fffc_0fff_fffc_0fff_fffc_0fff_ffff,
      0x0fff_fffc_0fff_fffc_0fff_fffc, 0x0fff_ffff);
    AndSplit(32, W32, x1, x2, t1, 0x0fff_fffc_0fff_fffc_0fff_fffc, 0x0fff_fffc_0fff_fffc, 0x0fff_fffc);
    AndSplit(32, W32, x2, t3, t2, 0x0fff_fffc_0fff_fffc, 0x0fff_fffc, 0x0fff_fffc);
  }

  // ------------------------------------------------ one block: h = (h + x) * r

  lemma Row(x: int, r: seq<int>)
    requires |r| == 5
    ensures x * Value(r) == x * r[0] + B26 * (x * r[1]) + B52 * (x * r[2]) + B78 * (x * r[3]) + B104 * (x * r[4])
  {
  }

  // Schoolbook multiplication with the high half folded back times five.
  function Folded(h: seq<int>, r: seq<int>): (d: seq<int>)
    requires |h| == 5 && |r| == 5
    ensures |d| == 5
  {
    [h[0] * r[0] + h[1] * r[4] * 5 + h[2] * r[3] * 5 + h[3] * r[2] * 5 + h[4] * r[1] * 5,
     h[0] * r[1] + h[1] * r[0] + h[2] * r[4] * 5 + h[3] * r[3] * 5 + h[4] * r[2] * 5,
     h[0] * r[2] + h[1] * r[1] + h[2] * r[0] + h[3] * r[4] * 5 + h[4] * r[3] * 5,
     h[0] * r[3] + h[1] * r[2] + h[2] * r[1] + h[3] * r[0] + h[4] * r[4] * 5,
     h[0] * r[4] + h[1] * r[3] + h[2] * r[2] + h[3] * r[1] + h[4] * r[0]]
  }

  lemma FoldedIsProduct(h: seq<int>, r: seq<int>)
    requires |h| == 5 && |r| == 5
    ensures Value(Folded(h, r)) % P == (Value(h) * Value(r)) % P
  {
    var v := Value(r);
    Row(h[0], r); Row(h[1], r); Row(h[2], r); Row(h[3], r); Row(h[4], r);
    var q := (h[1] * r[4] + h[2] * r[3] + h[3] * r[2] + h[4] * r[1])
      + (h[2] * r[4] + h[3] * r[3] + h[4] * r[2]) * B26 + (h[3] * r[4] + h[4] * r[3]) * B52 + (h[4] * r[4]) * B78;
    assert Value(h) * v == h[0] * v + B26 * (h[1] * v) + B52 * (h[2] * v) + B78 * (h[3] * v) + B104 * (h[4] * v);
    assert Value(h) * v == Value(Folded(h, r)) + q * P;
    ModPlus(Value(Folded(h, r)), q);
  }

  lemma ModPlus(x: int, q: int)
    ensures (x + q * P) % P == x % P
  {
  }

  lemma Bound(a: int, m: int, b: int, n: int)
    requires 0 <= a <= m && 0 <= b <= n
    ensures 0 <= a * b <= m * n
  {
    assert a * b <= a * n;
    assert a * n <= m * n;
  }

  // Limbs ready to be multiplied: nothing above 27 bits and a little.
  predicate Loaded(h: seq<int>) {
    && |h| == 5 && 0 <= h[0] <= 0x800_0040 && 0 <= h[1] <= 0x800_0040 && 0 <= h[2] <= 0x800_0040
    && 0 <= h[3] <= 0x800_0040 && 0 <= h[4] <= 0x800_0040
  }

  predicate Multiplier(r: seq<int>) {
    |r| == 5 && (forall i :: 0 <= i < 4 ==> 0 <= r[i] < B26) && 0 <= r[4] < 0x10_0000
  }

  lemma ProductBound(h: seq<int>, r: seq<int>, i: nat, j: nat)
    requires Loaded(h) && Multiplier(r) && i < 5 && j < 5
    ensures 0 <= h[i] * r[j] <= 0x800_0040 * (if j == 4 then 0x10_0000 else B26)
  {
    Bound(h[i], 0x800_0040, r[j], if j == 4 then 0x10_0000 else B26);
  }

  lemma FoldedBounds(h: seq<int>, r: seq<int>)
    requires Loaded(h) && Multiplier(r)
    ensures var d := Folded(h, r);
      && (forall i :: 0 <= i < 4 ==> 0 <= d[i] < 0x280_0000_0000_0000)
      && 0 <= d[4] < 0x90_0000_0000_0000
  {
    ProductBound(h, r, 0, 0); ProductBound(h, r, 0, 1); ProductBound(h, r, 0, 2); ProductBound(h, r, 0, 3);
    ProductBound(h, r, 0, 4); ProductBound(h, r, 1, 0); ProductBound(h, r, 1, 1); ProductBound(h, r, 1, 2);
    ProductBound(h, r, 1, 3); ProductBound(h, r, 1, 4); ProductBound(h, r, 2, 0); ProductBound(h, r, 2, 1);
    ProductBound(h, r, 2, 2); ProductBound(h, r, 2, 3); ProductBound(h, r, 2, 4); ProductBound(h, r, 3, 0);
    ProductBound(h, r, 3, 1); ProductBound(h, r, 3, 2); ProductBound(h, r, 3, 3); ProductBound(h, r, 3, 4);
    ProductBound(h, r, 4, 0); ProductBound(h, r, 4, 1); ProductBound(h, r, 4, 2); ProductBound(h, r, 4, 3);
    ProductBound(h, r, 4, 4);
  }

  // `(uint32_t)x`
  function Trunc32(x: u64): u32 { x % W32 }

  // h *= r, then a partial reduction; no product overflows and no truncated carry loses a bit.
  method MultiplyReduce(h: array<u32>, r: seq<u32>)
    requires h.Length == 5 && Loaded(h[..]) && Multiplier(r)
    modifies h
    ensures Carried(h[..])
    ensures Value(h[..]) % P == (Value(old(h[..])) * Value(r)) % P
  {
    ghost var was := h[..];
    FoldedBounds(was, r);
    FoldedIsProduct(was, r);
    var d := Folded(h[..], r);
    Reduce(h, d[0], d[1], d[2], d[3], d[4]);
    assert d == [d[0], d[1], d[2], d[3], d[4]];
  }

  // `x & 0x03ffffff` and `x >> 26`
  method Split(x: u64) returns (lo: u32, hi: u64)
    ensures lo < B26 && x == lo + B26 * hi
    ensures x < 0x400_0000_0000_0000 ==> Trunc32(hi) == hi
  {
    lo, hi := x % B26, x / B26;
  }

  // Carrying c0 .. c3 upward and c4 * 5 around to the bottom, then once more out of limb 0.
  lemma CarryValue(l0: int, c0: int, l1: int, c1: int, l2: int, c2: int, l3: int, c3: int, l4: int, c4: int,
                   m0: int, k: int, d: seq<int>, h: seq<int>)
    requires l0 + c4 * 5 == m0 + B26 * k
    requires |d| == 5 && d[0] == l0 + B26 * c0 && d[1] == l1 + B26 * c1 - c0 && d[2] == l2 + B26 * c2 - c1
    requires d[3] == l3 + B26 * c3 - c2 && d[4] == l4 + B26 * c4 - c3
    requires |h| == 5 && h[0] == m0 && h[1] == l1 + k && h[2] == l2 && h[3] == l3 && h[4] == l4
    ensures Value(h) % P == Value(d) % P
  {
    ModPlus(Value([m0, l1 + k, l2, l3, l4]), c4);
  }

  method Reduce(h: array<u32>, d0': u64, d1': u64, d2': u64, d3': u64, d4': u64)
    requires h.Length == 5
    requires d0' < 0x280_0000_0000_0000 && d1' < 0x280_0000_0000_0000 && d2' < 0x280_0000_0000_0000
    requires d3' < 0x280_0000_0000_0000 && d4' < 0x90_0000_0000_0000
    modifies h
    ensures Carried(h[..])
    ensures Value(h[..]) % P == Value([d0', d1', d2', d3', d4']) % P
  {
    hide Value;
    var l0, c0 := Split(d0');
    var d1: u64 := d1' + Trunc32(c0);
    var l1, c1 := Split(d1);
    var d2: u64 := d2' + Trunc32(c1);
    var l2, c2 := Split(d2);
    var d3: u64 := d3' + Trunc32(c2);
    var l3, c3 := Split(d3);
    var d4: u64 := d4' + Trunc32(c3);
    var l4, c4 := Split(d4);
    h[2], h[3], h[4] := l2, l3, l4;
    h[0] := l0 + Trunc32(c4) * 5;
    var m, k := Split(h[0]);
    h[1] := l1 + k;
    h[0] := m;
    CarryValue(l0, c0, l1, c1, l2, c2, l3, c3, l4, c4, m, k, [d0', d1', d2', d3', d4'], h[..]);
  }

  // h += x, with the block's padding bit on top when the block is full.
  method AddBlock(h: array<u32>, x: seq<u8>, full: bool)
    requires h.Length == 5 && Carried(h[..]) && |x| == 16
    modifies h
    ensures Loaded(h[..])
    ensures Value(h[..]) == Value(old(h[..])) + LE(x) + (if full then W128 else 0)
  {
    hide LE, Word, BlockLimbs, Or;
    var t0, t1, t2, t3 := Word(x[..4]), Word(x[4..8]), Word(x[8..12]), Word(x[12..]);
    var l := BlockLimbs(t0, t1, t2, t3);
    var top: u32 := if full then 0x100_0000 else 0;
    FourWords(x);
    LimbsOfWords(t0, t1, t2, t3);
    assert Or(l[4], top) == l[4] + top by {
      Powers();
      OrDisjoint(24, 0x100_0000, top, if full then 1 else 0, l[4]);
    }
    ghost var was := h[..];
    h[0], h[1], h[2], h[3] := h[0] + l[0], h[1] + l[1], h[2] + l[2], h[3] + l[3];
    h[4] := h[4] + Or(l[4], top);
    AddLimbs(was, l, top, h[..]);
  }

  lemma AddLimbs(was: seq<int>, l: seq<int>, top: int, h: seq<int>)
    requires |was| == 5 && |l| == 5 && |h| == 5
    requires h[0] == was[0] + l[0] && h[1] == was[1] + l[1] && h[2] == was[2] + l[2] && h[3] == was[3] + l[3]
    requires h[4] == was[4] + l[4] + top
    ensures Value(h) == Value(was) + Value(l) + top * B104
  {
  }

  // ----------------------------------------------------------------- finishing

  predicate Full26(h: seq<int>) {
    && |h| == 5 && 0 <= h[0] < B26 && 0 <= h[1] < B26 && 0 <= h[2] < B26 && 0 <= h[3] < B26 && 0 <= h[4] < B26
  }

  // Carries h completely. The last carry, out of limb 0 into limb 1, is not masked, yet limb 1
  // stays below 26 bits: limb 0 can only overflow when limb 1 had overflowed itself and is small by
  // then.
  method CarryFully(h: array<u32>)
    requires h.Length == 5 && Carried(h[..])
    modifies h
    ensures Full26(h[..])
    ensures Value(h[..]) % P == Value(old(h[..])) % P
  {
    ghost var was := h[..];
    var l1, c1 := Split(h[1]);
    h[1], h[2] := l1, h[2] + c1;
    var l2, c2 := Split(h[2]);
    h[2], h[3] := l2, h[3] + c2;
    var l3, c3 := Split(h[3]);
    h[3], h[4] := l3, h[4] + c3;
    var l4, c4 := Split(h[4]);
    h[4], h[0] := l4, h[0] + c4 * 5;
    var l0, k := Split(h[0]);
    h[0], h[1] := l0, h[1] + k;
    assert c4 > 0 ==> l1 < 0x40;
    CarryValue(was[0], 0, l1, c1, l2, c2, l3, c3, l4, c4, l0, k, was, h[..]);
  }

  // Picks a where the mask b is zero and t where it is all ones.
  lemma Select(a: u32, t: u32, b: u32)
    requires b == 0 || b == W32 - 1
    ensures Or(And(a, W32 - 1 - b), And(t, b)) == if b == 0 then a else t
  {
    Powers();
    AndMask(32, W32, a, 0, a);
    AndMask(32, W32, t, 0, t);
    AndZero(a);
    AndZero(t);
    OrZero(a);
    OrZero(t);
  }

  // Subtracts the modulus unless h is already below it, without branching.
  method SubtractModulus(h: array<u32>)
    requires h.Length == 5 && Full26(h[..])
    modifies h
    ensures Full26(h[..])
    ensures Value(h[..]) == Value(old(h[..])) % P
  {
    hide Value;
    ghost var was := h[..];
    var t0, c0 := Split(h[0] + 5);
    var t1, c1 := Split(h[1] + c0);
    var t2, c2 := Split(h[2] + c1);
    var t3, c3 := Split(h[3] + c2);
    var t4: u32 := (h[4] + c3 - B26) % W32;
    var b: u32 := (t4 / 0x8000_0000 - 1) % W32;
    ghost var t := [t0 as int, t1, t2, t3, h[4] + c3 - B26];
    MinusModulus(was, c0, c1, c2, c3, t);
    assert b == if Value(was) < P then 0 else W32 - 1;
    SelectLimbs(h, t0, t1, t2, t3, t4, b);
    assert h[..] == if Value(was) < P then was else t;
  }

  method SelectLimbs(h: array<u32>, t0: u32, t1: u32, t2: u32, t3: u32, t4: u32, b: u32)
    requires h.Length == 5 && (b == 0 || b == W32 - 1)
    modifies h
    ensures h[..] == if b == 0 then old(h[..]) else [t0, t1, t2, t3, t4]
  {
    Select(h[0], t0, b); Select(h[1], t1, b); Select(h[2], t2, b); Select(h[3], t3, b); Select(h[4], t4, b);
    h[0] := Or(And(h[0], W32 - 1 - b), And(t0, b));
    h[1] := Or(And(h[1], W32 - 1 - b), And(t1, b));
    h[2] := Or(And(h[2], W32 - 1 - b), And(t2, b));
    h[3] := Or(And(h[3], W32 - 1 - b), And(t3, b));
    h[4] := Or(And(h[4], W32 - 1 - b), And(t4, b));
  }

  // h + 5 - 2^130 limb by limb: its top limb is negative exactly when h is below the modulus.
  lemma MinusModulus(h: seq<int>, c0: int, c1: int, c2: int, c3: int, t: seq<int>)
    requires Full26(h) && |t| == 5 && (forall i :: 0 <= i < 4 ==> 0 <= t[i] < B26)
    requires h[0] + 5 == t[0] + B26 * c0 && h[1] + c0 == t[1] + B26 * c1
    requires h[2] + c1 == t[2] + B26 * c2 && h[3] + c2 == t[3] + B26 * c3 && t[4] == h[4] + c3 - B26
    ensures Value(t) == Value(h) - P
    ensures Value(h) < P <==> t[4] < 0
    ensures Value(h) < P ==> Value(h) % P == Value(h)
    ensures Value(h) >= P ==> Value(h) % P == Value(t) && Full26(t)
  {
  }

  function WordsValue(w: seq<int>): int
    requires |w| == 4
  {
    w[0] + W32 * w[1] + W64 * w[2] + W96 * w[3]
  }

  lemma Field26(x: u32, y: u32, yl: nat, yh: nat)
    requires x < B26 && y == yl + 0x40 * yh && yl < 0x40
    ensures y * 0x400_0000 % W32 == yl * 0x400_0000 && x / 1 < 0x400_0000 && x / 1 + yl * 0x400_0000 < W32
  {
    assert y * 0x400_0000 == yl * 0x400_0000 + W32 * yh;
    var q, r := x / 1, x % 1;
    assert x == 1 * q + r;
  }

  lemma Field20(x: u32, y: u32, yl: nat, yh: nat)
    requires x < B26 && y == yl + 0x1000 * yh && yl < 0x1000
    ensures y * 0x10_0000 % W32 == yl * 0x10_0000 && x / 0x40 < 0x10_0000 && x / 0x40 + yl * 0x10_0000 < W32
  {
    assert y * 0x10_0000 == yl * 0x10_0000 + W32 * yh;
    var q, r := x / 0x40, x % 0x40;
    assert x == 0x40 * q + r;
  }

  lemma Field14(x: u32, y: u32, yl: nat, yh: nat)
    requires x < B26 && y == yl + 0x4_0000 * yh && yl < 0x4_0000
    ensures y * 0x4000 % W32 == yl * 0x4000 && x / 0x1000 < 0x4000 && x / 0x1000 + yl * 0x4000 < W32
  {
    assert y * 0x4000 == yl * 0x4000 + W32 * yh;
    var q, r := x / 0x1000, x % 0x1000;
    assert x == 0x1000 * q + r;
  }

  lemma Field8(x: u32, y: u32, yl: nat, yh: nat)
    requires x < B26 && y == yl + 0x100_0000 * yh && yl < 0x100_0000
    ensures y * 0x100 % W32 == yl * 0x100 && x / 0x4_0000 < 0x100 && x / 0x4_0000 + yl * 0x100 < W32
  {
    assert y * 0x100 == yl * 0x100 + W32 * yh;
    var q, r := x / 0x4_0000, x % 0x4_0000;
    assert x == 0x4_0000 * q + r;
  }

  lemma HighField(x: u32, m: nat, y: u32, k: nat, s: nat) returns (xh: nat, yl: nat, yh: nat)
    requires x < B26 && y < B26
    requires (m == 1 && k == 26 && s == 0x40) || (m == 0x40 && k == 20 && s == 0x1000)
          || (m == 0x1000 && k == 14 && s == 0x4_0000) || (m == 0x4_0000 && k == 8 && s == 0x100_0000)
    ensures xh == x / m && y == yl + s * yh && yl < s
    ensures y * Pow2(k) % W32 == yl * Pow2(k) && Or(xh, y * Pow2(k) % W32) == xh + yl * Pow2(k)
    ensures xh + yl * Pow2(k) < W32
  {
    hide Or, Pow2;
    Powers();
    xh := x / m;
    yl, yh := Divide(y, s);
    if m == 1 {
      Field26(x, y, yl, yh);
    } else if m == 0x40 {
      Field20(x, y, yl, yh);
    } else if m == 0x1000 {
      Field14(x, y, yl, yh);
    } else {
      Field8(x, y, yl, yh);
    }
    OrDisjoint(k, Pow2(k), yl * Pow2(k), yl, xh);
  }

  // h %= 2^128: packs five 26-bit limbs into four 32-bit words.
  method Pack(h: array<u32>)
    requires h.Length == 5 && Full26(h[..])
    modifies h
    ensures WordsValue(h[..4]) == Value(old(h[..])) % W128
  {
    hide Or;
    ghost var was := h[..];
    Powers();
    var x0, l0, u0 := HighField(h[0], 1, h[1], 26, 0x40);
    var x1, l1, u1 := HighField(h[1], 0x40, h[2], 20, 0x1000);
    var x2, l2, u2 := HighField(h[2], 0x1000, h[3], 14, 0x4_0000);
    var x3, l3, u3 := HighField(h[3], 0x4_0000, h[4], 8, 0x100_0000);
    h[0] := Or(h[0], h[1] * 0x400_0000 % W32);
    h[1] := Or(h[1] / 0x40, h[2] * 0x10_0000 % W32);
    h[2] := Or(h[2] / 0x1000, h[3] * 0x4000 % W32);
    h[3] := Or(h[3] / 0x4_0000, h[4] * 0x100 % W32);
    PackedValue(was, l0, l1, l2, l3, u0, u1, u2, u3, h[..4]);
  }

  lemma PackedValue(was: seq<int>, l0: nat, l1: nat, l2: nat, l3: nat, u0: nat, u1: nat, u2: nat, u3: nat, w: seq<int>)
    requires Full26(was) && |w| == 4 && l0 < 0x40 && l1 < 0x1000 && l2 < 0x4_0000 && l3 < 0x100_0000
    requires was[1] == l0 + 0x40 * u0 && was[2] == l1 + 0x1000 * u1 && was[3] == l2 + 0x4_0000 * u2
    requires was[4] == l3 + 0x100_0000 * u3
    requires w[0] == was[0] + l0 * 0x400_0000 && w[1] == u0 + l1 * 0x10_0000
    requires w[2] == u1 + l2 * 0x4000 && w[3] == u2 + l3 * 0x100
    ensures WordsValue(w) == Value(was) % W128
  {
    assert Value(was) == WordsValue(w) + W128 * u3;
  }

  // mac = (h + pad) % 2^128
  method AddPad(h: array<u32>, pad: seq<u8>)
    requires h.Length == 5 && |pad| == 16
    modifies h
    ensures WordsValue(h[..4]) == (WordsValue(old(h[..4])) + LE(pad)) % W128
  {
    ghost var was := h[..4];
    FourWords(pad);
    var p0, p1, p2, p3 := Word(pad[..4]), Word(pad[4..8]), Word(pad[8..12]), Word(pad[12..]);
    var d0: u64 := h[0] as int + p0;
    var w0, c0 := Split32(d0);
    var d1: u64 := h[1] as int + p1 + c0;
    var w1, c1 := Split32(d1);
    var d2: u64 := h[2] as int + p2 + c1;
    var w2, c2 := Split32(d2);
    var d3: u64 := h[3] as int + p3 + c2;
    var w3, c3 := Split32(d3);
    h[0], h[1], h[2], h[3] := w0, w1, w2, w3;
    PaddedValue(was, [p0, p1, p2, p3], c0, c1, c2, c3, h[..4]);
  }

  // `(uint32_t)x` and `x >> 32`
  method Split32(x: u64) returns (lo: u32, hi: u32)
    ensures x == lo + W32 * hi
  {
    lo, hi := x % W32, x / W32;
  }

  lemma PaddedValue(was: seq<int>, p: seq<int>, c0: nat, c1: nat, c2: nat, c3: nat, w: seq<int>)
    requires |was| == 4 && |p| == 4 && |w| == 4 && forall i :: 0 <= i < 4 ==> 0 <= w[i] < W32
    requires was[0] + p[0] == w[0] + W32 * c0 && was[1] + p[1] + c0 == w[1] + W32 * c1
    requires was[2] + p[2] + c1 == w[2] + W32 * c2 && was[3] + p[3] + c2 == w[3] + W32 * c3
    ensures WordsValue(w) == (WordsValue(was) + WordsValue(p)) % W128
  {
    assert WordsValue(was) + WordsValue(p) == WordsValue(w) + W128 * c3;
  }

  // ------------------------------------------------------------ the whole pass

  lemma TwoTo128()
    ensures Pow2(128) == W128
  {
    Powers();
    Pow2Add(32, 32);
    Pow2Add(64, 64);
  }

  // The block starting at i, padded to 16 bytes; a short block carries its own one bit.
  function PaddedBlock(data: seq<u8>, i: nat): (x: seq<u8>)
    requires i < |data|
    ensures |x| == 16
    ensures LE(x) + (if i + 16 <= |data| then W128 else 0) ==
      LE((if i + 16 <= |data| then data[i..i + 16] else data[i..]) + [1])
  {
    if i + 16 <= |data| then
      LEAppendOne(data[i..i + 16]);
      TwoTo128();
      data[i..i + 16]
    else
      var b := data[i..] + [1];
      LEZeros(b, 16 - |b|);
      b + seq(16 - |b|, _ => 0)
  }

  lemma StepApart(v: int, m: int, q: int, n: int, r: int)
    requires v == m + q * P
    ensures (v + n) * r == (m + n) * r + (q * r) * P
  {
    assert (q * P) * r == (q * r) * P;
  }

  // Absorbs the block at i.
  method Absorb(h: array<u32>, r: seq<u32>, data: seq<u8>, i: nat)
    requires h.Length == 5 && Carried(h[..]) && Multiplier(r) && i < |data|
    modifies h
    ensures Carried(h[..])
    ensures Value(h[..]) % P ==
      Step(Value(old(h[..])) % P, Value(r), if i + 16 <= |data| then data[i..i + 16] else data[i..])
  {
    hide LE, PaddedBlock, Value;
    ghost var v := Value(h[..]);
    var x := PaddedBlock(data, i);
    AddBlock(h, x, i + 16 <= |data|);
    MultiplyReduce(h, r);
    ghost var n := LE((if i + 16 <= |data| then data[i..i + 16] else data[i..]) + [1]);
    StepApart(v, v % P, v / P, n, Value(r));
    ModPlus((v % P + n) * Value(r), v / P * Value(r));
  }

  // Absorbs `data` and, on the last call, finishes the tag. Calls that are not the last leave an
  // accumulator that later calls continue from.
  method Compress(h: array<u32>, key: seq<u8>, data: seq<u8>, final: bool)
    requires h.Length == 5 && Carried(h[..]) && |key| == 32
    modifies h
    ensures !final ==> Carried(h[..]) && Value(h[..]) % P == Acc(Value(old(h[..])) % P, R(key), data)
    ensures final ==> WordsValue(h[..4]) == (Acc(Value(old(h[..])) % P, R(key), data) + S(key)) % W128
  {
    hide LE, R, S, And, Word, Low26, Funnel6, Funnel12, Funnel18, Step, WordsValue, Value;
    ClampedIsR(key);
    var r := ClampedLimbs(Word(key[..4]), Word(key[4..8]), Word(key[8..12]), Word(key[12..16]));
    ghost var acc := Acc(Value(h[..]) % P, R(key), data);
    var i := 0;
    while i < |data|
      invariant 0 <= i && Carried(h[..])
      invariant acc == Acc(Value(h[..]) % P, R(key), data[if i < |data| then i else |data|..])
      decreases |data| - i
    {
      AccStep(Value(h[..]) % P, R(key), data, i);
      Absorb(h, r, data, i);
      i := i + 16;
    }
    assert acc == Value(h[..]) % P;
    if final { Finish(h, key, acc); }
  }

  // The last call's tail: full reduction, packing and the pad.
  method Finish(h: array<u32>, key: seq<u8>, ghost acc: nat)
    requires h.Length == 5 && Carried(h[..]) && |key| == 32 && acc == Value(h[..]) % P
    modifies h
    ensures WordsValue(h[..4]) == (acc + S(key)) % W128
  {
    hide LE, WordsValue, Value;
    CarryFully(h);
    SubtractModulus(h);
    Pack(h);
    AddPad(h, key[16..]);
    PadAfterPack(acc, S(key));
  }

  lemma PadAfterPack(a: nat, s: nat)
    ensures (a % W128 + s) % W128 == (a + s) % W128
  {
  }

  lemma AccStep(a: nat, r: nat, data: seq<u8>, i: nat)
    requires i < |data|
    ensures Acc(a, r, data[i..]) ==
      Acc(Step(a, r, if i + 16 <= |data| then data[i..i + 16] else data[i..]), r,
        data[if i + 16 < |data| then i + 16 else |data|..])
  {
    if i + 16 < |data| {
      assert data[i..][..16] == data[i..i + 16] && data[i..][16..] == data[i + 16..];
    } else if i + 16 == |data| {
      assert data[i..i + 16] == data[i..];
    }
  }

  lemma TagBytes(w: seq<u32>)
    requires |w| == 4
    ensures LE(WordBytes(w[0]) + WordBytes(w[1]) + WordBytes(w[2]) + WordBytes(w[3])) == WordsValue(w)
  {
    var b := WordBytes(w[0]) + WordBytes(w[1]) + WordBytes(w[2]) + WordBytes(w[3]);
    assert b[..4] == WordBytes(w[0]) && b[4..8] == WordBytes(w[1]);
    assert b[8..12] == WordBytes(w[2]) && b[12..] == WordBytes(w[3]);
    FourWords(b);
  }

  // The one-shot authenticator: the tag is the one of section 2.5 of RFC 7539.
  method Authenticate(key: seq<u8>, data: seq<u8>) returns (mac: seq<u8>)
    requires |key| == 32
    ensures |mac| == 16 && LE(mac) == Tag(key, data)
  {
    hide LE, Acc, R, S, WordsValue, WordBytes;
    var h := new u32[5](_ => 0);
    Compress(h, key, data, true);
    TagBytes(h[..4]);
    mac := WordBytes(h[0]) + WordBytes(h[1]) + WordBytes(h[2]) + WordBytes(h[3]);
  }

  // Absorbing a block-aligned prefix first and the rest later is absorbing everything at once.
  lemma {:induction false} AccSplit(a: nat, r: nat, x: seq<u8>, y: seq<u8>)
    requires |x| % 16 == 0
    ensures Acc(a, r, x + y) == Acc(Acc(a, r, x), r, y)
    decreases |x|
  {
    if x == [] {
      assert x + y == y;
    } else if y == [] {
      assert x + y == x;
    } else {
      assert (x + y)[..16] == x[..16] && (x + y)[16..] == x[16..] + y;
      AccSplit(Step(a, r, x[..16]), r, x[16..], y);
      if |x| == 16 { assert x[..16] == x && x[16..] == []; }
    }
  }
}
