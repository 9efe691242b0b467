// The substitution tables of LWBIP38Key.c: one undoes the other, and the first is what section 5.1.1
// of FIPS 197 defines by arithmetic in GF(2^8).
module Sbox {
  // A byte, with exclusive or as addition and `Times2` as multiplication by x in GF(2^8).
  datatype Byte = Byte(v: bv8)

  function Xor(x: Byte, y: Byte): Byte { Byte(x.v ^ y.v) }

  // The `xt` macro.
  function Times2(x: Byte): Byte { Byte((x.v << 1) ^ (((x.v >> 7) & 1) * 0x1b)) }

  // `(r >> 1) ^ ((r & 1)*0x8d)`
  function Half(x: Byte): Byte { Byte((x.v >> 1) ^ ((x.v & 1) * 0x8d)) }

  lemma HalfTimes2(x: Byte)
    ensures Half(Times2(x)) == x
  {
  }

  lemma Linear(x: Byte, y: Byte)
    ensures Times2(Xor(x, y)) == Xor(Times2(x), Times2(y))
  {
  }

  lemma XorTwice(x: Byte, y: Byte)
    ensures Xor(Xor(x, y), y) == x
  {
  }

  // -------------------------------------------------------------------- s-boxes

  // Sixteen rows of sixteen entries.
  type Table = seq<seq<int>>

  const SBOX: Table := [
    [0x63, 0x7c, 0x77, 0x7b, 0xf2, 0x6b, 0x6f, 0xc5, 0x30, 0x01, 0x67, 0x2b, 0xfe, 0xd7, 0xab, 0x76],
    [0xca, 0x82, 0xc9, 0x7d, 0xfa, 0x59, 0x47, 0xf0, 0xad, 0xd4, 0xa2, 0xaf, 0x9c, 0xa4, 0x72, 0xc0],
    [0xb7, 0xfd, 0x93, 0x26, 0x36, 0x3f, 0xf7, 0xcc, 0x34, 0xa5, 0xe5, 0xf1, 0x71, 0xd8, 0x31, 0x15],
    [0x04, 0xc7, 0x23, 0xc3, 0x18, 0x96, 0x05, 0x9a, 0x07, 0x12, 0x80, 0xe2, 0xeb, 0x27, 0xb2, 0x75],
    [0x09, 0x83, 0x2c, 0x1a, 0x1b, 0x6e, 0x5a, 0xa0, 0x52, 0x3b, 0xd6, 0xb3, 0x29, 0xe3, 0x2f, 0x84],
    [0x53, 0xd1, 0x00, 0xed, 0x20, 0xfc, 0xb1, 0x5b, 0x6a, 0xcb, 0xbe, 0x39, 0x4a, 0x4c, 0x58, 0xcf],
    [0xd0, 0xef, 0xaa, 0xfb, 0x43, 0x4d, 0x33, 0x85, 0x45, 0xf9, 0x02, 0x7f, 0x50, 0x3c, 0x9f, 0xa8],
    [0x51, 0xa3, 0x40, 0x8f, 0x92, 0x9d, 0x38, 0xf5, 0xbc, 0xb6, 0xda, 0x21, 0x10, 0xff, 0xf3, 0xd2],
    [0xcd, 0x0c, 0x13, 0xec, 0x5f, 0x97, 0x44, 0x17, 0xc4, 0xa7, 0x7e, 0x3d, 0x64, 0x5d, 0x19, 0x73],
    [0x60, 0x81, 0x4f, 0xdc, 0x22, 0x2a, 0x90, 0x88, 0x46, 0xee, 0xb8, 0x14, 0xde, 0x5e, 0x0b, 0xdb],
    [0xe0, 0x32, 0x3a, 0x0a, 0x49, 0x06, 0x24, 0x5c, 0xc2, 0xd3, 0xac, 0x62, 0x91, 0x95, 0xe4, 0x79],
    [0xe7, 0xc8, 0x37, 0x6d, 0x8d, 0xd5, 0x4e, 0xa9, 0x6c, 0x56, 0xf4, 0xea, 0x65, 0x7a, 0xae, 0x08],
    [0xba, 0x78, 0x25, 0x2e, 0x1c, 0xa6, 0xb4, 0xc6, 0xe8, 0xdd, 0x74, 0x1f, 0x4b, 0xbd, 0x8b, 0x8a],
    [0x70, 0x3e, 0xb5, 0x66, 0x48, 0x03, 0xf6, 0x0e, 0x61, 0x35, 0x57, 0xb9, 0x86, 0xc1, 0x1d, 0x9e],
    [0xe1, 0xf8, 0x98, 0x11, 0x69, 0xd9, 0x8e, 0x94, 0x9b, 0x1e, 0x87, 0xe9, 0xce, 0x55, 0x28, 0xdf],
    [0x8c, 0xa1, 0x89, 0x0d, 0xbf, 0xe6, 0x42, 0x68, 0x41, 0x99, 0x2d, 0x0f, 0xb0, 0x54, 0xbb, 0x16]]

  const SBOXI: Table := [
    [0x52, 0x09, 0x6a, 0xd5, 0x30, 0x36, 0xa5, 0x38, 0xbf, 0x40, 0xa3, 0x9e, 0x81, 0xf3, 0xd7, 0xfb],
    [0x7c, 0xe3, 0x39, 0x82, 0x9b, 0x2f, 0xff, 0x87, 0x34, 0x8e, 0x43, 0x44, 0xc4, 0xde, 0xe9, 0xcb],
    [0x54, 0x7b, 0x94, 0x32, 0xa6, 0xc2, 0x23, 0x3d, 0xee, 0x4c, 0x95, 0x0b, 0x42, 0xfa, 0xc3, 0x4e],
    [0x08, 0x2e, 0xa1, 0x66, 0x28, 0xd9, 0x24, 0xb2, 0x76, 0x5b, 0xa2, 0x49, 0x6d, 0x8b, 0xd1, 0x25],
    [0x72, 0xf8, 0xf6, 0x64, 0x86, 0x68, 0x98, 0x16, 0xd4, 0xa4, 0x5c, 0xcc, 0x5d, 0x65, 0xb6, 0x92],
    [0x6c, 0x70, 0x48, 0x50, 0xfd, 0xed, 0xb9, 0xda, 0x5e, 0x15, 0x46, 0x57, 0xa7, 0x8d, 0x9d, 0x84],
    [0x90, 0xd8, 0xab, 0x00, 0x8c, 0xbc, 0xd3, 0x0a, 0xf7, 0xe4, 0x58, 0x05, 0xb8, 0xb3, 0x45, 0x06],
    [0xd0, 0x2c, 0x1e, 0x8f, 0xca, 0x3f, 0x0f, 0x02, 0xc1, 0xaf, 0xbd, 0x03, 0x01, 0x13, 0x8a, 0x6b],
    [0x3a, 0x91, 0x11, 0x41, 0x4f, 0x67, 0xdc, 0xea, 0x97, 0xf2, 0xcf, 0xce, 0xf0, 0xb4, 0xe6, 0x73],
    [0x96, 0xac, 0x74, 0x22, 0xe7, 0xad, 0x35, 0x85, 0xe2, 0xf9, 0x37, 0xe8, 0x1c, 0x75, 0xdf, 0x6e],
    [0x47, 0xf1, 0x1a, 0x71, 0x1d, 0x29, 0xc5, 0x89, 0x6f, 0xb7, 0x62, 0x0e, 0xaa, 0x18, 0xbe, 0x1b],
    [0xfc, 0x56, 0x3e, 0x4b, 0xc6, 0xd2, 0x79, 0x20, 0x9a, 0xdb, 0xc0, 0xfe, 0x78, 0xcd, 0x5a, 0xf4],
    [0x1f, 0xdd, 0xa8, 0x33, 0x88, 0x07, 0xc7, 0x31, 0xb1, 0x12, 0x10, 0x59, 0x27, 0x80, 0xec, 0x5f],
    [0x60, 0x51, 0x7f, 0xa9, 0x19, 0xb5, 0x4a, 0x0d, 0x2d, 0xe5, 0x7a, 0x9f, 0x93, 0xc9, 0x9c, 0xef],
    [0xa0, 0xe0, 0x3b, 0x4d, 0xae, 0x2a, 0xf5, 0xb0, 0xc8, 0xeb, 0xbb, 0x3c, 0x83, 0x53, 0x99, 0x61],
    [0x17, 0x2b, 0x04, 0x7e, 0xba, 0x77, 0xd6, 0x26, 0xe1, 0x69, 0x14, 0x63, 0x55, 0x21, 0x0c, 0x7d]]

  function Cell(t: Table, r: int, c: int): int {
    if 0 <= r < |t| && 0 <= c < |t[r]| then t[r][c] else -1
  }

  // Entry 16 r + c of the inverse table undoes that entry of the table.
  ghost predicate Undone(r: int, c: int) {
    var v := Cell(SBOX, r, c);
    0 <= v < 0x100 && Cell(SBOXI, v / 16, v % 16) == 16 * r + c
  }

  // the table, a row at a time
  lemma Row0(c: int) requires 0 <= c < 16 ensures Undone(0, c) {}
  lemma Row1(c: int) requires 0 <= c < 16 ensures Undone(1, c) {}
  lemma Row2(c: int) requires 0 <= c < 16 ensures Undone(2, c) {}
  lemma Row3(c: int) requires 0 <= c < 16 ensures Undone(3, c) {}
  lemma Row4(c: int) requires 0 <= c < 16 ensures Undone(4, c) {}
  lemma Row5(c: int) requires 0 <= c < 16 ensures Undone(5, c) {}
  lemma Row6(c: int) requires 0 <= c < 16 ensures Undone(6, c) {}
  lemma Row7(c: int) requires 0 <= c < 16 ensures Undone(7, c) {}
  lemma Row8(c: int) requires 0 <= c < 16 ensures Undone(8, c) {}
  lemma Row9(c: int) requires 0 <= c < 16 ensures Undone(9, c) {}
  lemma Row10(c: int) requires 0 <= c < 16 ensures Undone(10, c) {}
  lemma Row11(c: int) requires 0 <= c < 16 ensures Undone(11, c) {}
  lemma Row12(c: int) requires 0 <= c < 16 ensures Undone(12, c) {}
  lemma Row13(c: int) requires 0 <= c < 16 ensures Undone(13, c) {}
  lemma Row14(c: int) requires 0 <= c < 16 ensures Undone(14, c) {}
  lemma Row15(c: int) requires 0 <= c < 16 ensures Undone(15, c) {}

  lemma AllUndone(r: int, c: int)
    requires 0 <= r < 16 && 0 <= c < 16
    ensures Undone(r, c)
  {
    hide Undone;
    if r < 8 {
      if r == 0 { Row0(c); } else if r == 1 { Row1(c); } else if r == 2 { Row2(c); } else if r == 3 { Row3(c); }
      else if r == 4 { Row4(c); } else if r == 5 { Row5(c); } else if r == 6 { Row6(c); } else { Row7(c); }
    } else {
      if r == 8 { Row8(c); } else if r == 9 { Row9(c); } else if r == 10 { Row10(c); } else if r == 11 { Row11(c); }
      else if r == 12 { Row12(c); } else if r == 13 { Row13(c); } else if r == 14 { Row14(c); } else { Row15(c); }
    }
  }

  function ToInt(x: Byte): (i: int)
    ensures 0 <= i < 0x100
  {
    x.v as int
  }

  function FromInt(i: int): Byte { if 0 <= i < 0x100 then Byte(i as bv8) else Byte(0) }

  lemma IntRoundTrip(x: Byte)
    ensures FromInt(ToInt(x)) == x
  {
  }

  lemma ByteRoundTrip(i: int)
    requires 0 <= i < 0x100
    ensures ToInt(FromInt(i)) == i
  {
    CastRoundTrip(i);
  }

  lemma CastRoundTrip(i: int)
    requires 0 <= i < 0x100
    ensures (i as bv8) as int == i
  {
    if i < 0x10 {
    } else if i < 0x20 {
    } else if i < 0x40 {
    }
  }

  // `sbox[x]`
  function Sub(x: Byte): Byte { FromInt(Cell(SBOX, ToInt(x) / 16, ToInt(x) % 16)) }

  // `sboxi[x]`
  function Unsub(x: Byte): Byte { FromInt(Cell(SBOXI, ToInt(x) / 16, ToInt(x) % 16)) }

  lemma UnsubSub(x: Byte)
    ensures Unsub(Sub(x)) == x
  {
    hide Cell, ToInt, FromInt;
    var i := ToInt(x);
    AllUndone(i / 16, i % 16);
    IntRoundTrip(x);
    ByteRoundTrip(Cell(SBOX, i / 16, i % 16));
  }

  // ------------------------------------------------------- the field, section 4.2

  function Bit(x: Byte, y: Byte, m: bv8): Byte { if y.v & m != 0 then x else Byte(0) }

  function Horner(x: Byte, y: Byte, m: bv8, high: Byte): Byte { Xor(Bit(x, y, m), Times2(high)) }

  // The product in GF(2^8): the bits of y, highest first, say when to add x before doubling.
  function Times(x: Byte, y: Byte): Byte {
    Horner(x, y, 0x01, Horner(x, y, 0x02, Horner(x, y, 0x04, Horner(x, y, 0x08,
      Horner(x, y, 0x10, Horner(x, y, 0x20, Horner(x, y, 0x40, Bit(x, y, 0x80))))))))
  }

  const ZERO := Byte(0)
  const ONE := Byte(1)

  predicate Inverse(x: Byte, y: Byte) { if x == ZERO then y == ZERO else Times(x, y) == ONE }

  // Section 5.1.1: bit i of the result is the sum of bits i, i + 4, i + 5, i + 6 and i + 7 of y and
  // bit i of 0x63.
  function Affine(y: Byte): Byte {
    Byte(y.v ^ y.v.RotateLeft(1) ^ y.v.RotateLeft(2) ^ y.v.RotateLeft(3) ^ y.v.RotateLeft(4) ^ 0x63)
  }

  // Multiplying by y is a sum of doublings, so it respects sums and doubling.
  lemma HornerOfXor(a: Byte, b: Byte, y: Byte, m: bv8, h: Byte, k: Byte)
    ensures Horner(Xor(a, b), y, m, Xor(h, k)) == Xor(Horner(a, y, m, h), Horner(b, y, m, k))
  {
    hide Times2, Xor;
    Linear(h, k);
    BitOfXor(a, b, y, m);
    Swap(Bit(a, y, m), Bit(b, y, m), Times2(h), Times2(k));
  }

  lemma BitOfXor(a: Byte, b: Byte, y: Byte, m: bv8)
    ensures Bit(Xor(a, b), y, m) == Xor(Bit(a, y, m), Bit(b, y, m))
  {
  }

  lemma Swap(a: Byte, b: Byte, c: Byte, d: Byte)
    ensures Xor(Xor(a, b), Xor(c, d)) == Xor(Xor(a, c), Xor(b, d))
  {
  }

  lemma HornerOfDouble(x: Byte, y: Byte, m: bv8, h: Byte)
    ensures Horner(Times2(x), y, m, Times2(h)) == Times2(Horner(x, y, m, h))
  {
    DoubleBit(x, y, m);
    hide Times2, Xor, Bit;
    Linear(Bit(x, y, m), Times2(h));
  }

  lemma DoubleBit(x: Byte, y: Byte, m: bv8)
    ensures Bit(Times2(x), y, m) == Times2(Bit(x, y, m))
  {
  }

  lemma TimesOfXor(a: Byte, b: Byte, y: Byte)
    ensures Times(Xor(a, b), y) == Xor(Times(a, y), Times(b, y))
  {
    BitOfXor(a, b, y, 0x80);
    hide Times2, Xor, Bit, Horner;
    var h, k := Bit(a, y, 0x80), Bit(b, y, 0x80);
    HornerOfXor(a, b, y, 0x40, h, k);
    h, k := Horner(a, y, 0x40, h), Horner(b, y, 0x40, k);
    HornerOfXor(a, b, y, 0x20, h, k);
    h, k := Horner(a, y, 0x20, h), Horner(b, y, 0x20, k);
    HornerOfXor(a, b, y, 0x10, h, k);
    h, k := Horner(a, y, 0x10, h), Horner(b, y, 0x10, k);
    HornerOfXor(a, b, y, 0x08, h, k);
    h, k := Horner(a, y, 0x08, h), Horner(b, y, 0x08, k);
    HornerOfXor(a, b, y, 0x04, h, k);
    h, k := Horner(a, y, 0x04, h), Horner(b, y, 0x04, k);
    HornerOfXor(a, b, y, 0x02, h, k);
    h, k := Horner(a, y, 0x02, h), Horner(b, y, 0x02, k);
    HornerOfXor(a, b, y, 0x01, h, k);
  }

  lemma TimesOfDouble(x: Byte, y: Byte)
    ensures Times(Times2(x), y) == Times2(Times(x, y))
  {
    DoubleBit(x, y, 0x80);
    hide Times2, Xor, Bit, Horner;
    var h := Bit(x, y, 0x80);
    HornerOfDouble(x, y, 0x40, h);
    h := Horner(x, y, 0x40, h);
    HornerOfDouble(x, y, 0x20, h);
    h := Horner(x, y, 0x20, h);
    HornerOfDouble(x, y, 0x10, h);
    h := Horner(x, y, 0x10, h);
    HornerOfDouble(x, y, 0x08, h);
    h := Horner(x, y, 0x08, h);
    HornerOfDouble(x, y, 0x04, h);
    h := Horner(x, y, 0x04, h);
    HornerOfDouble(x, y, 0x02, h);
    h := Horner(x, y, 0x02, h);
    HornerOfDouble(x, y, 0x01, h);
  }

  lemma HornerOfTimes(x: Byte, y: Byte, z: Byte, m: bv8, h: Byte)
    ensures Horner(Times(x, z), y, m, Times(h, z)) == Times(Horner(x, y, m, h), z)
  {
    BitOfTimes(x, y, z, m);
    hide Times, Times2, Xor, Bit;
    TimesOfXor(Bit(x, y, m), Times2(h), z);
    TimesOfDouble(h, z);
  }

  lemma BitOfTimes(x: Byte, y: Byte, z: Byte, m: bv8)
    ensures Bit(Times(x, z), y, m) == Times(Bit(x, y, m), z)
  {
    ZeroTimes(z);
    hide Times;
  }

  lemma ZeroTimes(z: Byte)
    ensures Times(ZERO, z) == ZERO
  {
  }

  // Multiplying by y and by z, in either order.
  lemma TimesCommute(x: Byte, y: Byte, z: Byte)
    ensures Times(Times(x, z), y) == Times(Times(x, y), z)
  {
    BitOfTimes(x, y, z, 0x80);
    TimesUnfold(x, y);
    TimesUnfold(Times(x, z), y);
    hide Times, Times2, Xor, Bit, Horner;
    var h := Bit(x, y, 0x80);
    HornerOfTimes(x, y, z, 0x40, h);
    h := Horner(x, y, 0x40, h);
    HornerOfTimes(x, y, z, 0x20, h);
    h := Horner(x, y, 0x20, h);
    HornerOfTimes(x, y, z, 0x10, h);
    h := Horner(x, y, 0x10, h);
    HornerOfTimes(x, y, z, 0x08, h);
    h := Horner(x, y, 0x08, h);
    HornerOfTimes(x, y, z, 0x04, h);
    h := Horner(x, y, 0x04, h);
    HornerOfTimes(x, y, z, 0x02, h);
    h := Horner(x, y, 0x02, h);
    HornerOfTimes(x, y, z, 0x01, h);
  }

  lemma TimesUnfold(x: Byte, y: Byte)
    ensures Times(x, y)
            == Horner(x, y, 0x01, Horner(x, y, 0x02, Horner(x, y, 0x04, Horner(x, y, 0x08,
                 Horner(x, y, 0x10, Horner(x, y, 0x20, Horner(x, y, 0x40, Bit(x, y, 0x80))))))))
  {
    hide Times2, Xor, Bit, Horner;
  }

  lemma OneTimes(y: Byte)
    ensures Times(ONE, y) == y
  {
    TopBits(y);
    BottomBits(y);
    hide Times2, Xor, Bit, Horner;
  }

  lemma TopBits(y: Byte)
    ensures Bit(ONE, y, 0x80) == Byte(y.v >> 7)
    ensures Horner(ONE, y, 0x40, Byte(y.v >> 7)) == Byte(y.v >> 6)
    ensures Horner(ONE, y, 0x20, Byte(y.v >> 6)) == Byte(y.v >> 5)
    ensures Horner(ONE, y, 0x10, Byte(y.v >> 5)) == Byte(y.v >> 4)
  {
  }

  lemma BottomBits(y: Byte)
    ensures Horner(ONE, y, 0x08, Byte(y.v >> 4)) == Byte(y.v >> 3)
    ensures Horner(ONE, y, 0x04, Byte(y.v >> 3)) == Byte(y.v >> 2)
    ensures Horner(ONE, y, 0x02, Byte(y.v >> 2)) == Byte(y.v >> 1)
    ensures Horner(ONE, y, 0x01, Byte(y.v >> 1)) == y
  {
  }

  lemma InverseIsUnique(x: Byte, y: Byte, z: Byte)
    requires Inverse(x, y) && Inverse(x, z)
    ensures y == z
  {
    hide Times;
    if x != ZERO {
      TimesCommute(x, y, z);
      OneTimes(y);
      OneTimes(z);
    }
  }

  // ----------------------------------------- the table by arithmetic, half a row at a time

  // The inverse of x is i, and the affine transformation takes it to s.
  predicate Entry(x: int, i: int, s: int) {
    Inverse(FromInt(x), FromInt(i)) && Affine(FromInt(i)) == FromInt(s)
  }

  ghost predicate HasEntry(x: int, s: int) {
    exists i :: Entry(x, i, s)
  }

  lemma At(x: int, i: int, s: int)
    requires Entry(x, i, s)
    ensures HasEntry(x, s)
  {
  }

  ghost predicate ByArithmetic(r: int, c: int) {
    HasEntry(16 * r + c, Cell(SBOX, r, c))
  }

  lemma Low0a()
    ensures HasEntry(0x00, 0x63) && HasEntry(0x01, 0x7c) && HasEntry(0x02, 0x77) && HasEntry(0x03, 0x7b)
  {
    hide HasEntry;
    At(0x00, 0x00, 0x63); At(0x01, 0x01, 0x7c); At(0x02, 0x8d, 0x77); At(0x03, 0xf6, 0x7b);
  }

  lemma Low0b()
    ensures HasEntry(0x04, 0xf2) && HasEntry(0x05, 0x6b) && HasEntry(0x06, 0x6f) && HasEntry(0x07, 0xc5)
  {
    hide HasEntry;
    At(0x04, 0xcb, 0xf2); At(0x05, 0x52, 0x6b); At(0x06, 0x7b, 0x6f); At(0x07, 0xd1, 0xc5);
  }

  lemma High0a()
    ensures HasEntry(0x08, 0x30) && HasEntry(0x09, 0x01) && HasEntry(0x0a, 0x67) && HasEntry(0x0b, 0x2b)
  {
    hide HasEntry;
    At(0x08, 0xe8, 0x30); At(0x09, 0x4f, 0x01); At(0x0a, 0x29, 0x67); At(0x0b, 0xc0, 0x2b);
  }

  lemma High0b()
    ensures HasEntry(0x0c, 0xfe) && HasEntry(0x0d, 0xd7) && HasEntry(0x0e, 0xab) && HasEntry(0x0f, 0x76)
  {
    hide HasEntry;
    At(0x0c, 0xb0, 0xfe); At(0x0d, 0xe1, 0xd7); At(0x0e, 0xe5, 0xab); At(0x0f, 0xc7, 0x76);
  }

  lemma Low1()
    ensures HasEntry(0x10, 0xca) && HasEntry(0x11, 0x82) && HasEntry(0x12, 0xc9) && HasEntry(0x13, 0x7d)
    ensures HasEntry(0x14, 0xfa) && HasEntry(0x15, 0x59) && HasEntry(0x16, 0x47) && HasEntry(0x17, 0xf0)
  {
    hide HasEntry;
    At(0x10, 0x74, 0xca); At(0x11, 0xb4, 0x82); At(0x12, 0xaa, 0xc9); At(0x13, 0x4b, 0x7d);
    At(0x14, 0x99, 0xfa); At(0x15, 0x2b, 0x59); At(0x16, 0x60, 0x47); At(0x17, 0x5f, 0xf0);
  }

  lemma High1()
    ensures HasEntry(0x18, 0xad) && HasEntry(0x19, 0xd4) && HasEntry(0x1a, 0xa2) && HasEntry(0x1b, 0xaf)
    ensures HasEntry(0x1c, 0x9c) && HasEntry(0x1d, 0xa4) && HasEntry(0x1e, 0x72) && HasEntry(0x1f, 0xc0)
  {
    hide HasEntry;
    At(0x18, 0x58, 0xad); At(0x19, 0x3f, 0xd4); At(0x1a, 0xfd, 0xa2); At(0x1b, 0xcc, 0xaf);
    At(0x1c, 0xff, 0x9c); At(0x1d, 0x40, 0xa4); At(0x1e, 0xee, 0x72); At(0x1f, 0xb2, 0xc0);
  }

  lemma Low2()
    ensures HasEntry(0x20, 0xb7) && HasEntry(0x21, 0xfd) && HasEntry(0x22, 0x93) && HasEntry(0x23, 0x26)
    ensures HasEntry(0x24, 0x36) && HasEntry(0x25, 0x3f) && HasEntry(0x26, 0xf7) && HasEntry(0x27, 0xcc)
  {
    hide HasEntry;
    At(0x20, 0x3a, 0xb7); At(0x21, 0x6e, 0xfd); At(0x22, 0x5a, 0x93); At(0x23, 0xf1, 0x26);
    At(0x24, 0x55, 0x36); At(0x25, 0x4d, 0x3f); At(0x26, 0xa8, 0xf7); At(0x27, 0xc9, 0xcc);
  }

  lemma High2()
    ensures HasEntry(0x28, 0x34) && HasEntry(0x29, 0xa5) && HasEntry(0x2a, 0xe5) && HasEntry(0x2b, 0xf1)
    ensures HasEntry(0x2c, 0x71) && HasEntry(0x2d, 0xd8) && HasEntry(0x2e, 0x31) && HasEntry(0x2f, 0x15)
  {
    hide HasEntry;
    At(0x28, 0xc1, 0x34); At(0x29, 0x0a, 0xa5); At(0x2a, 0x98, 0xe5); At(0x2b, 0x15, 0xf1);
    At(0x2c, 0x30, 0x71); At(0x2d, 0x44, 0xd8); At(0x2e, 0xa2, 0x31); At(0x2f, 0xc2, 0x15);
  }

  lemma Low3()
    ensures HasEntry(0x30, 0x04) && HasEntry(0x31, 0xc7) && HasEntry(0x32, 0x23) && HasEntry(0x33, 0xc3)
    ensures HasEntry(0x34, 0x18) && HasEntry(0x35, 0x96) && HasEntry(0x36, 0x05) && HasEntry(0x37, 0x9a)
  {
    hide HasEntry;
    At(0x30, 0x2c, 0x04); At(0x31, 0x45, 0xc7); At(0x32, 0x92, 0x23); At(0x33, 0x6c, 0xc3);
    At(0x34, 0xf3, 0x18); At(0x35, 0x39, 0x96); At(0x36, 0x66, 0x05); At(0x37, 0x42, 0x9a);
  }

  lemma High3()
    ensures HasEntry(0x38, 0x07) && HasEntry(0x39, 0x12) && HasEntry(0x3a, 0x80) && HasEntry(0x3b, 0xe2)
    ensures HasEntry(0x3c, 0xeb) && HasEntry(0x3d, 0x27) && HasEntry(0x3e, 0xb2) && HasEntry(0x3f, 0x75)
  {
    hide HasEntry;
    At(0x38, 0xf2, 0x07); At(0x39, 0x35, 0x12); At(0x3a, 0x20, 0x80); At(0x3b, 0x6f, 0xe2);
    At(0x3c, 0x77, 0xeb); At(0x3d, 0xbb, 0x27); At(0x3e, 0x59, 0xb2); At(0x3f, 0x19, 0x75);
  }

  lemma Low4()
    ensures HasEntry(0x40, 0x09) && HasEntry(0x41, 0x83) && HasEntry(0x42, 0x2c) && HasEntry(0x43, 0x1a)
    ensures HasEntry(0x44, 0x1b) && HasEntry(0x45, 0x6e) && HasEntry(0x46, 0x5a) && HasEntry(0x47, 0xa0)
  {
    hide HasEntry;
    At(0x40, 0x1d, 0x09); At(0x41, 0xfe, 0x83); At(0x42, 0x37, 0x2c); At(0x43, 0x67, 0x1a);
    At(0x44, 0x2d, 0x1b); At(0x45, 0x31, 0x6e); At(0x46, 0xf5, 0x5a); At(0x47, 0x69, 0xa0);
  }

  lemma High4()
    ensures HasEntry(0x48, 0x52) && HasEntry(0x49, 0x3b) && HasEntry(0x4a, 0xd6) && HasEntry(0x4b, 0xb3)
    ensures HasEntry(0x4c, 0x29) && HasEntry(0x4d, 0xe3) && HasEntry(0x4e, 0x2f) && HasEntry(0x4f, 0x84)
  {
    hide HasEntry;
    At(0x48, 0xa7, 0x52); At(0x49, 0x64, 0x3b); At(0x4a, 0xab, 0xd6); At(0x4b, 0x13, 0xb3);
    At(0x4c, 0x54, 0x29); At(0x4d, 0x25, 0xe3); At(0x4e, 0xe9, 0x2f); At(0x4f, 0x09, 0x84);
  }

  lemma Low5()
    ensures HasEntry(0x50, 0x53) && HasEntry(0x51, 0xd1) && HasEntry(0x52, 0x00) && HasEntry(0x53, 0xed)
    ensures HasEntry(0x54, 0x20) && HasEntry(0x55, 0xfc) && HasEntry(0x56, 0xb1) && HasEntry(0x57, 0x5b)
  {
    hide HasEntry;
    At(0x50, 0xed, 0x53); At(0x51, 0x5c, 0xd1); At(0x52, 0x05, 0x00); At(0x53, 0xca, 0xed);
    At(0x54, 0x4c, 0x20); At(0x55, 0x24, 0xfc); At(0x56, 0x87, 0xb1); At(0x57, 0xbf, 0x5b);
  }

  lemma High5()
    ensures HasEntry(0x58, 0x6a) && HasEntry(0x59, 0xcb) && HasEntry(0x5a, 0xbe) && HasEntry(0x5b, 0x39)
    ensures HasEntry(0x5c, 0x4a) && HasEntry(0x5d, 0x4c) && HasEntry(0x5e, 0x58) && HasEntry(0x5f, 0xcf)
  {
    hide HasEntry;
    At(0x58, 0x18, 0x6a); At(0x59, 0x3e, 0xcb); At(0x5a, 0x22, 0xbe); At(0x5b, 0xf0, 0x39);
    At(0x5c, 0x51, 0x4a); At(0x5d, 0xec, 0x4c); At(0x5e, 0x61, 0x58); At(0x5f, 0x17, 0xcf);
  }

  lemma Low6()
    ensures HasEntry(0x60, 0xd0) && HasEntry(0x61, 0xef) && HasEntry(0x62, 0xaa) && HasEntry(0x63, 0xfb)
    ensures HasEntry(0x64, 0x43) && HasEntry(0x65, 0x4d) && HasEntry(0x66, 0x33) && HasEntry(0x67, 0x85)
  {
    hide HasEntry;
    At(0x60, 0x16, 0xd0); At(0x61, 0x5e, 0xef); At(0x62, 0xaf, 0xaa); At(0x63, 0xd3, 0xfb);
    At(0x64, 0x49, 0x43); At(0x65, 0xa6, 0x4d); At(0x66, 0x36, 0x33); At(0x67, 0x43, 0x85);
  }

  lemma High6()
    ensures HasEntry(0x68, 0x45) && HasEntry(0x69, 0xf9) && HasEntry(0x6a, 0x02) && HasEntry(0x6b, 0x7f)
    ensures HasEntry(0x6c, 0x50) && HasEntry(0x6d, 0x3c) && HasEntry(0x6e, 0x9f) && HasEntry(0x6f, 0xa8)
  {
    hide HasEntry;
    At(0x68, 0xf4, 0x45); At(0x69, 0x47, 0xf9); At(0x6a, 0x91, 0x02); At(0x6b, 0xdf, 0x7f);
    At(0x6c, 0x33, 0x50); At(0x6d, 0x93, 0x3c); At(0x6e, 0x21, 0x9f); At(0x6f, 0x3b, 0xa8);
  }

  lemma Low7()
    ensures HasEntry(0x70, 0x51) && HasEntry(0x71, 0xa3) && HasEntry(0x72, 0x40) && HasEntry(0x73, 0x8f)
    ensures HasEntry(0x74, 0x92) && HasEntry(0x75, 0x9d) && HasEntry(0x76, 0x38) && HasEntry(0x77, 0xf5)
  {
    hide HasEntry;
    At(0x70, 0x79, 0x51); At(0x71, 0xb7, 0xa3); At(0x72, 0x97, 0x40); At(0x73, 0x85, 0x8f);
    At(0x74, 0x10, 0x92); At(0x75, 0xb5, 0x9d); At(0x76, 0xba, 0x38); At(0x77, 0x3c, 0xf5);
  }

  lemma High7()
    ensures HasEntry(0x78, 0xbc) && HasEntry(0x79, 0xb6) && HasEntry(0x7a, 0xda) && HasEntry(0x7b, 0x21)
    ensures HasEntry(0x7c, 0x10) && HasEntry(0x7d, 0xff) && HasEntry(0x7e, 0xf3) && HasEntry(0x7f, 0xd2)
  {
    hide HasEntry;
    At(0x78, 0xb6, 0xbc); At(0x79, 0x70, 0xb6); At(0x7a, 0xd0, 0xda); At(0x7b, 0x06, 0x21);
    At(0x7c, 0xa1, 0x10); At(0x7d, 0xfa, 0xff); At(0x7e, 0x81, 0xf3); At(0x7f, 0x82, 0xd2);
  }

  lemma Low8()
    ensures HasEntry(0x80, 0xcd) && HasEntry(0x81, 0x0c) && HasEntry(0x82, 0x13) && HasEntry(0x83, 0xec)
    ensures HasEntry(0x84, 0x5f) && HasEntry(0x85, 0x97) && HasEntry(0x86, 0x44) && HasEntry(0x87, 0x17)
  {
    hide HasEntry;
    At(0x80, 0x83, 0xcd); At(0x81, 0x7e, 0x0c); At(0x82, 0x7f, 0x13); At(0x83, 0x80, 0xec);
    At(0x84, 0x96, 0x5f); At(0x85, 0x73, 0x97); At(0x86, 0xbe, 0x44); At(0x87, 0x56, 0x17);
  }

  lemma High8()
    ensures HasEntry(0x88, 0xc4) && HasEntry(0x89, 0xa7) && HasEntry(0x8a, 0x7e) && HasEntry(0x8b, 0x3d)
    ensures HasEntry(0x8c, 0x64) && HasEntry(0x8d, 0x5d) && HasEntry(0x8e, 0x19) && HasEntry(0x8f, 0x73)
  {
    hide HasEntry;
    At(0x88, 0x9b, 0xc4); At(0x89, 0x9e, 0xa7); At(0x8a, 0x95, 0x7e); At(0x8b, 0xd9, 0x3d);
    At(0x8c, 0xf7, 0x64); At(0x8d, 0x02, 0x5d); At(0x8e, 0xb9, 0x19); At(0x8f, 0xa4, 0x73);
  }

  lemma Low9()
    ensures HasEntry(0x90, 0x60) && HasEntry(0x91, 0x81) && HasEntry(0x92, 0x4f) && HasEntry(0x93, 0xdc)
    ensures HasEntry(0x94, 0x22) && HasEntry(0x95, 0x2a) && HasEntry(0x96, 0x90) && HasEntry(0x97, 0x88)
  {
    hide HasEntry;
    At(0x90, 0xde, 0x60); At(0x91, 0x6a, 0x81); At(0x92, 0x32, 0x4f); At(0x93, 0x6d, 0xdc);
    At(0x94, 0xd8, 0x22); At(0x95, 0x8a, 0x2a); At(0x96, 0x84, 0x90); At(0x97, 0x72, 0x88);
  }

  lemma High9()
    ensures HasEntry(0x98, 0x46) && HasEntry(0x99, 0xee) && HasEntry(0x9a, 0xb8) && HasEntry(0x9b, 0x14)
    ensures HasEntry(0x9c, 0xde) && HasEntry(0x9d, 0x5e) && HasEntry(0x9e, 0x0b) && HasEntry(0x9f, 0xdb)
  {
    hide HasEntry;
    At(0x98, 0x2a, 0x46); At(0x99, 0x14, 0xee); At(0x9a, 0x9f, 0xb8); At(0x9b, 0x88, 0x14);
    At(0x9c, 0xf9, 0xde); At(0x9d, 0xdc, 0x5e); At(0x9e, 0x89, 0x0b); At(0x9f, 0x9a, 0xdb);
  }

  lemma Low10()
    ensures HasEntry(0xa0, 0xe0) && HasEntry(0xa1, 0x32) && HasEntry(0xa2, 0x3a) && HasEntry(0xa3, 0x0a)
    ensures HasEntry(0xa4, 0x49) && HasEntry(0xa5, 0x06) && HasEntry(0xa6, 0x24) && HasEntry(0xa7, 0x5c)
  {
    hide HasEntry;
    At(0xa0, 0xfb, 0xe0); At(0xa1, 0x7c, 0x32); At(0xa2, 0x2e, 0x3a); At(0xa3, 0xc3, 0x0a);
    At(0xa4, 0x8f, 0x49); At(0xa5, 0xb8, 0x06); At(0xa6, 0x65, 0x24); At(0xa7, 0x48, 0x5c);
  }

  lemma High10()
    ensures HasEntry(0xa8, 0xc2) && HasEntry(0xa9, 0xd3) && HasEntry(0xaa, 0xac) && HasEntry(0xab, 0x62)
    ensures HasEntry(0xac, 0x91) && HasEntry(0xad, 0x95) && HasEntry(0xae, 0xe4) && HasEntry(0xaf, 0x79)
  {
    hide HasEntry;
    At(0xa8, 0x26, 0xc2); At(0xa9, 0xc8, 0xd3); At(0xaa, 0x12, 0xac); At(0xab, 0x4a, 0x62);
    At(0xac, 0xce, 0x91); At(0xad, 0xe7, 0x95); At(0xae, 0xd2, 0xe4); At(0xaf, 0x62, 0x79);
  }

  lemma Low11()
    ensures HasEntry(0xb0, 0xe7) && HasEntry(0xb1, 0xc8) && HasEntry(0xb2, 0x37) && HasEntry(0xb3, 0x6d)
    ensures HasEntry(0xb4, 0x8d) && HasEntry(0xb5, 0xd5) && HasEntry(0xb6, 0x4e) && HasEntry(0xb7, 0xa9)
  {
    hide HasEntry;
    At(0xb0, 0x0c, 0xe7); At(0xb1, 0xe0, 0xc8); At(0xb2, 0x1f, 0x37); At(0xb3, 0xef, 0x6d);
    At(0xb4, 0x11, 0x8d); At(0xb5, 0x75, 0xd5); At(0xb6, 0x78, 0x4e); At(0xb7, 0x71, 0xa9);
  }

  lemma High11()
    ensures HasEntry(0xb8, 0x6c) && HasEntry(0xb9, 0x56) && HasEntry(0xba, 0xf4) && HasEntry(0xbb, 0xea)
    ensures HasEntry(0xbc, 0x65) && HasEntry(0xbd, 0x7a) && HasEntry(0xbe, 0xae) && HasEntry(0xbf, 0x08)
  {
    hide HasEntry;
    At(0xb8, 0xa5, 0x6c); At(0xb9, 0x8e, 0x56); At(0xba, 0x76, 0xf4); At(0xbb, 0x3d, 0xea);
    At(0xbc, 0xbd, 0x65); At(0xbd, 0xbc, 0x7a); At(0xbe, 0x86, 0xae); At(0xbf, 0x57, 0x08);
  }

  lemma Low12()
    ensures HasEntry(0xc0, 0xba) && HasEntry(0xc1, 0x78) && HasEntry(0xc2, 0x25) && HasEntry(0xc3, 0x2e)
    ensures HasEntry(0xc4, 0x1c) && HasEntry(0xc5, 0xa6) && HasEntry(0xc6, 0xb4) && HasEntry(0xc7, 0xc6)
  {
    hide HasEntry;
    At(0xc0, 0x0b, 0xba); At(0xc1, 0x28, 0x78); At(0xc2, 0x2f, 0x25); At(0xc3, 0xa3, 0x2e);
    At(0xc4, 0xda, 0x1c); At(0xc5, 0xd4, 0xa6); At(0xc6, 0xe4, 0xb4); At(0xc7, 0x0f, 0xc6);
  }

  lemma High12()
    ensures HasEntry(0xc8, 0xe8) && HasEntry(0xc9, 0xdd) && HasEntry(0xca, 0x74) && HasEntry(0xcb, 0x1f)
    ensures HasEntry(0xcc, 0x4b) && HasEntry(0xcd, 0xbd) && HasEntry(0xce, 0x8b) && HasEntry(0xcf, 0x8a)
  {
    hide HasEntry;
    At(0xc8, 0xa9, 0xe8); At(0xc9, 0x27, 0xdd); At(0xca, 0x53, 0x74); At(0xcb, 0x04, 0x1f);
    At(0xcc, 0x1b, 0x4b); At(0xcd, 0xfc, 0xbd); At(0xce, 0xac, 0x8b); At(0xcf, 0xe6, 0x8a);
  }

  lemma Low13()
    ensures HasEntry(0xd0, 0x70) && HasEntry(0xd1, 0x3e) && HasEntry(0xd2, 0xb5) && HasEntry(0xd3, 0x66)
    ensures HasEntry(0xd4, 0x48) && HasEntry(0xd5, 0x03) && HasEntry(0xd6, 0xf6) && HasEntry(0xd7, 0x0e)
  {
    hide HasEntry;
    At(0xd0, 0x7a, 0x70); At(0xd1, 0x07, 0x3e); At(0xd2, 0xae, 0xb5); At(0xd3, 0x63, 0x66);
    At(0xd4, 0xc5, 0x48); At(0xd5, 0xdb, 0x03); At(0xd6, 0xe2, 0xf6); At(0xd7, 0xea, 0x0e);
  }

  lemma High13()
    ensures HasEntry(0xd8, 0x61) && HasEntry(0xd9, 0x35) && HasEntry(0xda, 0x57) && HasEntry(0xdb, 0xb9)
    ensures HasEntry(0xdc, 0x86) && HasEntry(0xdd, 0xc1) && HasEntry(0xde, 0x1d) && HasEntry(0xdf, 0x9e)
  {
    hide HasEntry;
    At(0xd8, 0x94, 0x61); At(0xd9, 0x8b, 0x35); At(0xda, 0xc4, 0x57); At(0xdb, 0xd5, 0xb9);
    At(0xdc, 0x9d, 0x86); At(0xdd, 0xf8, 0xc1); At(0xde, 0x90, 0x1d); At(0xdf, 0x6b, 0x9e);
  }

  lemma Low14()
    ensures HasEntry(0xe0, 0xe1) && HasEntry(0xe1, 0xf8) && HasEntry(0xe2, 0x98) && HasEntry(0xe3, 0x11)
    ensures HasEntry(0xe4, 0x69) && HasEntry(0xe5, 0xd9) && HasEntry(0xe6, 0x8e) && HasEntry(0xe7, 0x94)
  {
    hide HasEntry;
    At(0xe0, 0xb1, 0xe1); At(0xe1, 0x0d, 0xf8); At(0xe2, 0xd6, 0x98); At(0xe3, 0xeb, 0x11);
    At(0xe4, 0xc6, 0x69); At(0xe5, 0x0e, 0xd9); At(0xe6, 0xcf, 0x8e); At(0xe7, 0xad, 0x94);
  }

  lemma High14()
    ensures HasEntry(0xe8, 0x9b) && HasEntry(0xe9, 0x1e) && HasEntry(0xea, 0x87) && HasEntry(0xeb, 0xe9)
    ensures HasEntry(0xec, 0xce) && HasEntry(0xed, 0x55) && HasEntry(0xee, 0x28) && HasEntry(0xef, 0xdf)
  {
    hide HasEntry;
    At(0xe8, 0x08, 0x9b); At(0xe9, 0x4e, 0x1e); At(0xea, 0xd7, 0x87); At(0xeb, 0xe3, 0xe9);
    At(0xec, 0x5d, 0xce); At(0xed, 0x50, 0x55); At(0xee, 0x1e, 0x28); At(0xef, 0xb3, 0xdf);
  }

  lemma Low15()
    ensures HasEntry(0xf0, 0x8c) && HasEntry(0xf1, 0xa1) && HasEntry(0xf2, 0x89) && HasEntry(0xf3, 0x0d)
    ensures HasEntry(0xf4, 0xbf) && HasEntry(0xf5, 0xe6) && HasEntry(0xf6, 0x42) && HasEntry(0xf7, 0x68)
  {
    hide HasEntry;
    At(0xf0, 0x5b, 0x8c); At(0xf1, 0x23, 0xa1); At(0xf2, 0x38, 0x89); At(0xf3, 0x34, 0x0d);
    At(0xf4, 0x68, 0xbf); At(0xf5, 0x46, 0xe6); At(0xf6, 0x03, 0x42); At(0xf7, 0x8c, 0x68);
  }

  lemma High15()
    ensures HasEntry(0xf8, 0x41) && HasEntry(0xf9, 0x99) && HasEntry(0xfa, 0x2d) && HasEntry(0xfb, 0x0f)
    ensures HasEntry(0xfc, 0xb0) && HasEntry(0xfd, 0x54) && HasEntry(0xfe, 0xbb) && HasEntry(0xff, 0x16)
  {
    hide HasEntry;
    At(0xf8, 0xdd, 0x41); At(0xf9, 0x9c, 0x99); At(0xfa, 0x7d, 0x2d); At(0xfb, 0xa0, 0x0f);
    At(0xfc, 0xcd, 0xb0); At(0xfd, 0x1a, 0x54); At(0xfe, 0x41, 0xbb); At(0xff, 0x1c, 0x16);
  }

  lemma Arithmetic0(c: int)
    requires 0 <= c < 16
    ensures ByArithmetic(0, c)
  {
    hide HasEntry;
    Low0a(); Low0b(); High0a(); High0b();
  }

  lemma Arithmetic1(c: int)
    requires 0 <= c < 16
    ensures ByArithmetic(1, c)
  {
    hide HasEntry;
    Low1(); High1();
  }

  lemma Arithmetic2(c: int)
    requires 0 <= c < 16
    ensures ByArithmetic(2, c)
  {
    hide HasEntry;
    Low2(); High2();
  }

  lemma Arithmetic3(c: int)
    requires 0 <= c < 16
    ensures ByArithmetic(3, c)
  {
    hide HasEntry;
    Low3(); High3();
  }

  lemma Arithmetic4(c: int)
    requires 0 <= c < 16
    ensures ByArithmetic(4, c)
  {
    hide HasEntry;
    Low4(); High4();
  }

  lemma Arithmetic5(c: int)
    requires 0 <= c < 16
    ensures ByArithmetic(5, c)
  {
    hide HasEntry;
    Low5(); High5();
  }

  lemma Arithmetic6(c: int)
    requires 0 <= c < 16
    ensures ByArithmetic(6, c)
  {
    hide HasEntry;
    Low6(); High6();
  }

  lemma Arithmetic7(c: int)
    requires 0 <= c < 16
    ensures ByArithmetic(7, c)
  {
    hide HasEntry;
    Low7(); High7();
  }

  lemma Arithmetic8(c: int)
    requires 0 <= c < 16
    ensures ByArithmetic(8, c)
  {
    hide HasEntry;
    Low8(); High8();
  }

  lemma Arithmetic9(c: int)
    requires 0 <= c < 16
    ensures ByArithmetic(9, c)
  {
    hide HasEntry;
    Low9(); High9();
  }

  lemma Arithmetic10(c: int)
    requires 0 <= c < 16
    ensures ByArithmetic(10, c)
  {
    hide HasEntry;
    Low10(); High10();
  }

  lemma Arithmetic11(c: int)
    requires 0 <= c < 16
    ensures ByArithmetic(11, c)
  {
    hide HasEntry;
    Low11(); High11();
  }

  lemma Arithmetic12(c: int)
    requires 0 <= c < 16
    ensures ByArithmetic(12, c)
  {
    hide HasEntry;
    Low12(); High12();
  }

  lemma Arithmetic13(c: int)
    requires 0 <= c < 16
    ensures ByArithmetic(13, c)
  {
    hide HasEntry;
    Low13(); High13();
  }

  lemma Arithmetic14(c: int)
    requires 0 <= c < 16
    ensures ByArithmetic(14, c)
  {
    hide HasEntry;
    Low14(); High14();
  }

  lemma Arithmetic15(c: int)
    requires 0 <= c < 16
    ensures ByArithmetic(15, c)
  {
    hide HasEntry;
    Low15(); High15();
  }

  lemma AllByArithmetic(r: int, c: int)
    requires 0 <= r < 16 && 0 <= c < 16
    ensures ByArithmetic(r, c)
  {
    hide ByArithmetic;
    if r < 8 {
      if r == 0 { Arithmetic0(c); } else if r == 1 { Arithmetic1(c); } else if r == 2 { Arithmetic2(c); }
      else if r == 3 { Arithmetic3(c); } else if r == 4 { Arithmetic4(c); } else if r == 5 { Arithmetic5(c); }
      else if r == 6 { Arithmetic6(c); } else { Arithmetic7(c); }
    } else {
      if r == 8 { Arithmetic8(c); } else if r == 9 { Arithmetic9(c); } else if r == 10 { Arithmetic10(c); }
      else if r == 11 { Arithmetic11(c); } else if r == 12 { Arithmetic12(c); } else if r == 13 { Arithmetic13(c); }
      else if r == 14 { Arithmetic14(c); } else { Arithmetic15(c); }
    }
  }

  // Section 5.1.1: the table holds the affine transformation of the multiplicative inverse, with
  // zero for its own inverse.
  lemma SubIsFips(x: Byte)
    ensures exists y :: Inverse(x, y) && Sub(x) == Affine(y)
    ensures forall y :: Inverse(x, y) ==> Sub(x) == Affine(y)
  {
    hide Cell, ToInt, FromInt, Inverse, Affine;
    var i := ToInt(x);
    AllByArithmetic(i / 16, i % 16);
    IntRoundTrip(x);
    var k :| Entry(16 * (i / 16) + i % 16, k, Cell(SBOX, i / 16, i % 16));
    assert Inverse(x, FromInt(k)) && Sub(x) == Affine(FromInt(k));
    forall y | Inverse(x, y) ensures Sub(x) == Affine(y) {
      InverseIsUnique(x, y, FromInt(k));
    }
  }
}
