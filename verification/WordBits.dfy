// Bit-vector words and the numbers they stand for: sums, exclusive ors and rotations of one are
// those of the other.
module WordBits {
  import opened Common
  import opened Words

  lemma FromBytes(a: bv8, b: bv8, c: bv8, d: bv8)
    ensures (((d as bv32) << 24) | ((c as bv32) << 16) | ((b as bv32) << 8) | (a as bv32)) as nat
            == a as nat + 0x100 * b as nat + 0x1_0000 * c as nat + 0x100_0000 * d as nat
  {
  }

  lemma ToBytes(x: bv32) returns (a: bv8, b: bv8, c: bv8, d: bv8)
    ensures x == ((d as bv32) << 24) | ((c as bv32) << 16) | ((b as bv32) << 8) | (a as bv32)
  {
    a, b, c, d := (x & 0xff) as bv8, ((x >> 8) & 0xff) as bv8, ((x >> 16) & 0xff) as bv8, (x >> 24) as bv8;
  }

  lemma XorOfBytes(a: bv8, b: bv8, c: bv8, d: bv8, e: bv8, f: bv8, g: bv8, h: bv8)
    ensures (((d as bv32) << 24) | ((c as bv32) << 16) | ((b as bv32) << 8) | (a as bv32))
            ^ (((h as bv32) << 24) | ((g as bv32) << 16) | ((f as bv32) << 8) | (e as bv32))
            == (((d ^ h) as bv32) << 24) | (((c ^ g) as bv32) << 16) | (((b ^ f) as bv32) << 8) | ((a ^ e) as bv32)
  {
  }

  // The number a word stands for, and the operations on words, as functions so that they can be hidden.
  function Value8(x: bv8): (n: nat) ensures n < 0x100 { x as nat }

  function Value32(x: bv32): (n: nat) ensures n < W32 { x as nat }

  function Xored8(x: bv8, y: bv8): bv8 { x ^ y }

  function Halved(x: bv8): bv8 { x >> 1 }

  function Plus(x: bv32, y: bv32): bv32 { x + y }

  lemma HalvedIs(x: bv8)
    ensures Value8(Halved(x)) == Value8(x) / 2
  {
  }

  lemma Odd(x: bv8)
    ensures (x & 1) as nat == x as nat % 2
  {
  }

  lemma XorParts(x: bv8, y: bv8)
    ensures (x ^ y) >> 1 == (x >> 1) ^ (y >> 1) && (x ^ y) & 1 == (x & 1) ^ (y & 1)
    ensures (x & 1) ^ (y & 1) == if x & 1 == y & 1 then 0 else 1
  {
  }

  lemma Xored8Is(x: bv8, y: bv8)
    ensures Value8(Xored8(x, y)) % 2 == if Value8(x) % 2 != Value8(y) % 2 then 1 else 0
    ensures Value8(Xored8(x, y)) / 2 == Value8(Xored8(Halved(x), Halved(y)))
  {
    Odd(x);
    Odd(y);
    Odd(x ^ y);
    XorParts(x, y);
    HalvedIs(x ^ y);
  }

  lemma {:induction false} XorBytes(x: bv8, y: bv8, n: nat)
    requires Value8(x) < Pow2(n) && Value8(y) < Pow2(n)
    ensures Xor(Value8(x), Value8(y)) == Value8(Xored8(x, y))
    decreases n
  {
    hide Xor, Pow2, Value8, Xored8, Halved;
    if n == 0 {
      NoBits(x, y);
    } else {
      HalvedIs(x);
      HalvedIs(y);
      HalfBelow(n, Value8(x));
      HalfBelow(n, Value8(y));
      Xored8Is(x, y);
      XorBytes(Halved(x), Halved(y), n - 1);
      XorHalf(Value8(x), Value8(y));
    }
  }

  lemma NoBits(x: bv8, y: bv8)
    requires Value8(x) < Pow2(0) && Value8(y) < Pow2(0)
    ensures Xor(Value8(x), Value8(y)) == Value8(Xored8(x, y))
  {
    assert Pow2(0) == 1;
    assert x == 0 && y == 0;
  }

  lemma AddWide(x: bv32, y: bv32)
    ensures ((x as bv33) + (y as bv33)) as nat == x as nat + y as nat
  {
  }

  lemma CarrySplit(c: bv1, l: bv32)
    ensures (((c as bv33) << 32) | (l as bv33)) as nat == W32 * c as nat + l as nat
  {
  }

  lemma AddParts(x: bv32, y: bv32) returns (c: bv1)
    ensures (x as bv33) + (y as bv33) == ((c as bv33) << 32) | ((x + y) as bv33)
  {
    c := (((x as bv33) + (y as bv33)) >> 32) as bv1;
  }

  lemma PlusCarries(x: bv32, y: bv32) returns (c: nat)
    ensures Value32(x) + Value32(y) == W32 * c + Value32(Plus(x, y))
  {
    AddWide(x, y);
    var k := AddParts(x, y);
    CarrySplit(k, x + y);
    c := k as nat;
  }

  lemma PlusIs(x: bv32, y: bv32)
    ensures Value32(Plus(x, y)) == (Value32(x) + Value32(y)) % W32
  {
    hide Value32, Plus;
    var c := PlusCarries(x, y);
  }

  function Xored32(x: bv32, y: bv32): bv32 { x ^ y }

  lemma {:induction false} GlueXor(xh: nat, yh: nat, k: nat, xl: nat, yl: nat)
    requires xl < Pow2(k) && yl < Pow2(k)
    ensures Xor(Glue(xh, k, xl), Glue(yh, k, yl)) == Glue(Xor(xh, yh), k, Xor(xl, yl))
    ensures Xor(xl, yl) < Pow2(k)
  {
    if k > 0 {
      hide *;
      HalfBelow(k, xl);
      HalfBelow(k, yl);
      HalfBelow(k, Xor(xl, yl));
      GlueXor(xh, yh, k - 1, xl / 2, yl / 2);
      GlueHalf(xh, k, xl);
      GlueHalf(yh, k, yl);
      GlueHalf(Xor(xh, yh), k, Xor(xl, yl));
      XorHalf(Glue(xh, k, xl), Glue(yh, k, yl));
      XorHalf(xl, yl);
    }
  }

  // Exclusive or acts on the lowest byte and on the rest separately.
  lemma XorLowByte(xh: nat, xl: nat, yh: nat, yl: nat)
    requires xl < 0x100 && yl < 0x100
    ensures Xor(0x100 * xh + xl, 0x100 * yh + yl) == 0x100 * Xor(xh, yh) + Xor(xl, yl)
  {
    hide Xor, Glue, Pow2;
    Powers();
    GlueIs(xh, 8, xl);
    GlueIs(yh, 8, yl);
    GlueXor(xh, yh, 8, xl, yl);
    GlueIs(Xor(xh, yh), 8, Xor(xl, yl));
  }

  lemma InBytes(x: bv32) returns (a: bv8, b: bv8, c: bv8, d: bv8)
    ensures x == ((d as bv32) << 24) | ((c as bv32) << 16) | ((b as bv32) << 8) | (a as bv32)
    ensures Value32(x) == Value8(a) + 0x100 * (Value8(b) + 0x100 * (Value8(c) + 0x100 * Value8(d)))
  {
    a, b, c, d := ToBytes(x);
    FromBytes(a, b, c, d);
  }

  lemma XoredInBytes(a: bv8, b: bv8, c: bv8, d: bv8, e: bv8, f: bv8, g: bv8, h: bv8, x: bv32, y: bv32)
    requires x == ((d as bv32) << 24) | ((c as bv32) << 16) | ((b as bv32) << 8) | (a as bv32)
    requires y == ((h as bv32) << 24) | ((g as bv32) << 16) | ((f as bv32) << 8) | (e as bv32)
    ensures Value32(Xored32(x, y))
            == Value8(Xored8(a, e))
               + 0x100 * (Value8(Xored8(b, f)) + 0x100 * (Value8(Xored8(c, g)) + 0x100 * Value8(Xored8(d, h))))
  {
    XorOfBytes(a, b, c, d, e, f, g, h);
    FromBytes(a ^ e, b ^ f, c ^ g, d ^ h);
  }

  lemma Xored32Is(x: bv32, y: bv32)
    ensures Value32(Xored32(x, y)) == Xor(Value32(x), Value32(y))
  {
    hide Xor, Value8, Value32, Xored8, Xored32;
    var a, b, c, d := InBytes(x);
    var e, f, g, h := InBytes(y);
    XoredInBytes(a, b, c, d, e, f, g, h, x, y);
    Powers();
    XorBytes(a, e, 8);
    XorBytes(b, f, 8);
    XorBytes(c, g, 8);
    XorBytes(d, h, 8);
    var xd, yd := Value8(d), Value8(h);
    var xc, yc := Value8(c) + 0x100 * xd, Value8(g) + 0x100 * yd;
    var xb, yb := Value8(b) + 0x100 * xc, Value8(f) + 0x100 * yc;
    XorLowByte(xd, Value8(c), yd, Value8(g));
    XorLowByte(xc, Value8(b), yc, Value8(f));
    XorLowByte(xb, Value8(a), yb, Value8(e));
  }

  function By7(x: bv32): bv32 { (x << 7) | (x >> 25) }

  function By8(x: bv32): bv32 { (x << 8) | (x >> 24) }

  function By12(x: bv32): bv32 { (x << 12) | (x >> 20) }

  function By16(x: bv32): bv32 { (x << 16) | (x >> 16) }

  lemma Turn16(h: bv16, l: bv16)
    ensures var x := ((h as bv32) << 16) | (l as bv32); (x << 16) | (x >> 16) == ((l as bv32) << 16) | (h as bv32)
    ensures (((h as bv32) << 16) | (l as bv32)) as nat == 0x1_0000 * h as nat + l as nat
    ensures (((l as bv32) << 16) | (h as bv32)) as nat == 0x1_0000 * l as nat + h as nat
  {
  }

  lemma Turn12(h: bv12, l: bv20)
    ensures var x := ((h as bv32) << 20) | (l as bv32); (x << 12) | (x >> 20) == ((l as bv32) << 12) | (h as bv32)
    ensures (((h as bv32) << 20) | (l as bv32)) as nat == 0x10_0000 * h as nat + l as nat
    ensures (((l as bv32) << 12) | (h as bv32)) as nat == 0x1000 * l as nat + h as nat
  {
  }

  lemma Turn8(h: bv8, l: bv24)
    ensures var x := ((h as bv32) << 24) | (l as bv32); (x << 8) | (x >> 24) == ((l as bv32) << 8) | (h as bv32)
    ensures (((h as bv32) << 24) | (l as bv32)) as nat == 0x100_0000 * h as nat + l as nat
    ensures (((l as bv32) << 8) | (h as bv32)) as nat == 0x100 * l as nat + h as nat
  {
  }

  lemma Turn7(h: bv7, l: bv25)
    ensures var x := ((h as bv32) << 25) | (l as bv32); (x << 7) | (x >> 25) == ((l as bv32) << 7) | (h as bv32)
    ensures (((h as bv32) << 25) | (l as bv32)) as nat == 0x200_0000 * h as nat + l as nat
    ensures (((l as bv32) << 7) | (h as bv32)) as nat == 0x80 * l as nat + h as nat
  {
  }

  lemma Parted7(x: bv32) returns (h: bv7, l: bv25)
    ensures x == ((h as bv32) << 25) | (l as bv32)
  {
    h, l := (x >> 25) as bv7, (x & 0x1ff_ffff) as bv25;
  }

  lemma Valued7(x: bv32, h: bv7, l: bv25)
    requires x == ((h as bv32) << 25) | (l as bv32)
    ensures h as nat < 0x80 && l as nat < 0x200_0000
    ensures Value32(x) == 0x200_0000 * h as nat + l as nat && Value32(By7(x)) == 0x80 * l as nat + h as nat
  {
    Turn7(h, l);
  }

  lemma Parted8(x: bv32) returns (h: bv8, l: bv24)
    ensures x == ((h as bv32) << 24) | (l as bv32)
  {
    h, l := (x >> 24) as bv8, (x & 0xff_ffff) as bv24;
  }

  lemma Valued8(x: bv32, h: bv8, l: bv24)
    requires x == ((h as bv32) << 24) | (l as bv32)
    ensures h as nat < 0x100 && l as nat < 0x100_0000
    ensures Value32(x) == 0x100_0000 * h as nat + l as nat && Value32(By8(x)) == 0x100 * l as nat + h as nat
  {
    Turn8(h, l);
  }

  lemma Parted12(x: bv32) returns (h: bv12, l: bv20)
    ensures x == ((h as bv32) << 20) | (l as bv32)
  {
    h, l := (x >> 20) as bv12, (x & 0xf_ffff) as bv20;
  }

  lemma Valued12(x: bv32, h: bv12, l: bv20)
    requires x == ((h as bv32) << 20) | (l as bv32)
    ensures h as nat < 0x1000 && l as nat < 0x10_0000
    ensures Value32(x) == 0x10_0000 * h as nat + l as nat && Value32(By12(x)) == 0x1000 * l as nat + h as nat
  {
    Turn12(h, l);
  }

  lemma Parted16(x: bv32) returns (h: bv16, l: bv16)
    ensures x == ((h as bv32) << 16) | (l as bv32)
  {
    h, l := (x >> 16) as bv16, (x & 0xffff) as bv16;
  }

  lemma Valued16(x: bv32, h: bv16, l: bv16)
    requires x == ((h as bv32) << 16) | (l as bv32)
    ensures h as nat < 0x1_0000 && l as nat < 0x1_0000
    ensures Value32(x) == 0x1_0000 * h as nat + l as nat && Value32(By16(x)) == 0x1_0000 * l as nat + h as nat
  {
    Turn16(h, l);
  }

  // A rotation exchanges the high and the low part.
  lemma Rotated7(x: bv32) returns (h: nat, l: nat)
    ensures h < 0x80 && l < 0x200_0000 && Value32(x) == 0x200_0000 * h + l && Value32(By7(x)) == 0x80 * l + h
  {
    hide Value32, By7, By8, By12, By16;
    var a, b := Parted7(x);
    Valued7(x, a, b);
    h, l := a as nat, b as nat;
  }

  lemma Rotated8(x: bv32) returns (h: nat, l: nat)
    ensures h < 0x100 && l < 0x100_0000 && Value32(x) == 0x100_0000 * h + l && Value32(By8(x)) == 0x100 * l + h
  {
    hide Value32, By7, By8, By12, By16;
    var a, b := Parted8(x);
    Valued8(x, a, b);
    h, l := a as nat, b as nat;
  }

  lemma Rotated12(x: bv32) returns (h: nat, l: nat)
    ensures h < 0x1000 && l < 0x10_0000 && Value32(x) == 0x10_0000 * h + l && Value32(By12(x)) == 0x1000 * l + h
  {
    hide Value32, By7, By8, By12, By16;
    var a, b := Parted12(x);
    Valued12(x, a, b);
    h, l := a as nat, b as nat;
  }

  lemma Rotated16(x: bv32) returns (h: nat, l: nat)
    ensures h < 0x1_0000 && l < 0x1_0000 && Value32(x) == 0x1_0000 * h + l && Value32(By16(x)) == 0x1_0000 * l + h
  {
    hide Value32, By7, By8, By12, By16;
    var a, b := Parted16(x);
    Valued16(x, a, b);
    h, l := a as nat, b as nat;
  }
}
