// The AES-256 of LWBIP38Key.c: encryption and decryption of one block in place, with the key
// schedule expanded, and for decryption un-expanded, on the fly; proved against sections 5.1 to 5.3
// of FIPS 197.
module Aes {
  import opened Sbox

  // ------------------------------------------------------------------- columns

  function Xor4(a: Byte, b: Byte, c: Byte, d: Byte): Byte { Xor(Xor(Xor(a, b), c), d) }

  // One byte of a mixed column as the code computes it, from the column's sum e.
  function Mixed(a: Byte, b: Byte, e: Byte): Byte { Xor(a, Xor(e, Times2(Xor(a, b)))) }

  // Section 5.1.3: 2 a + 3 b + c + d.
  function FipsMixed(a: Byte, b: Byte, c: Byte, d: Byte): Byte {
    Xor4(Times2(a), Xor(Times2(b), b), c, d)
  }

  // Section 5.3.3: 14 a + 11 b + 13 c + 9 d.
  function FipsUnmixed(a: Byte, b: Byte, c: Byte, d: Byte): Byte {
    Xor4(Xor(Times8(a), Xor(Times4(a), Times2(a))), Xor(Times8(b), Xor(Times2(b), b)),
      Xor(Times8(c), Xor(Times4(c), c)), Xor(Times8(d), d))
  }

  // A sum of four sums is the sum of the parts.
  lemma SumPairs(a: Byte, b: Byte, c: Byte, d: Byte, p: Byte, q: Byte, r: Byte, s: Byte)
    ensures Xor4(Xor(a, p), Xor(b, q), Xor(c, r), Xor(d, s)) == Xor(Xor4(a, b, c, d), Xor4(p, q, r, s))
  {
    hide Xor;
    Swap(a, p, b, q);
    Swap(Xor(a, b), Xor(p, q), c, r);
    Swap(Xor(Xor(a, b), c), Xor(Xor(p, q), r), d, s);
  }

  function Times4(x: Byte): Byte { Times2(Times2(x)) }

  function Times8(x: Byte): Byte { Times2(Times4(x)) }

  // One byte of an unmixed column as the code computes it; f stands for the code's f or g.
  function Unmixing(e: Byte, a: Byte, c: Byte): Byte {
    Xor(e, Times4(Xor(Xor(Times2(e), a), c)))
  }

  lemma MixedIsFips(a: Byte, b: Byte, c: Byte, d: Byte)
    ensures Mixed(a, b, Xor4(a, b, c, d)) == FipsMixed(a, b, c, d)
  {
    hide Times2;
    Linear(a, b);
    MixedSum(a, b, c, d, Times2(a), Times2(b));
  }

  lemma MixedSum(a: Byte, b: Byte, c: Byte, d: Byte, p: Byte, q: Byte)
    ensures Xor(a, Xor(Xor4(a, b, c, d), Xor(p, q))) == Xor4(p, Xor(q, b), c, d)
  {
  }

  lemma Linear4(a: Byte, b: Byte, c: Byte, d: Byte)
    ensures Times2(Xor4(a, b, c, d)) == Xor4(Times2(a), Times2(b), Times2(c), Times2(d))
  {
    hide Times2, Xor;
    Linear(a, b);
    Linear(Xor(a, b), c);
    Linear(Xor(Xor(a, b), c), d);
  }

  // Doubling sums of neighbours: (a + b) + (b + c) is a + c.
  lemma Fold(a: Byte, b: Byte, c: Byte)
    ensures Xor(Times2(Xor(a, b)), Times2(Xor(b, c))) == Times2(Xor(a, c))
  {
    hide Times2;
    Linear(Xor(a, b), Xor(b, c));
    assert Xor(Xor(a, b), Xor(b, c)) == Xor(a, c);
  }

  lemma UnmixedIsFips(a: Byte, b: Byte, c: Byte, d: Byte)
    ensures Mixed(a, b, Unmixing(Xor4(a, b, c, d), a, c)) == FipsUnmixed(a, b, c, d)
  {
    hide Times2, Times4, Times8, Xor;
    var e := Xor4(a, b, c, d);
    UnmixingExpanded(a, b, c, d);
    Linear(a, b);
    UnmixedSum(a, b, c, d, Times2(a), Times2(b), Times4(a), Times4(c), Times8(a), Times8(b), Times8(c), Times8(d));
  }

  lemma UnmixingExpanded(a: Byte, b: Byte, c: Byte, d: Byte)
    ensures Unmixing(Xor4(a, b, c, d), a, c) ==
      Xor(Xor4(a, b, c, d), Xor(Xor(Xor4(Times8(a), Times8(b), Times8(c), Times8(d)), Times4(a)), Times4(c)))
  {
    hide Times2, Xor;
    var e2 := Times2(Xor4(a, b, c, d));
    Linear4(a, b, c, d);
    Linear4(Times2(a), Times2(b), Times2(c), Times2(d));
    Linear4(Times4(a), Times4(b), Times4(c), Times4(d));
    Linear(Xor(e2, a), c);
    Linear(e2, a);
    Linear(Xor(Times2(e2), Times2(a)), Times2(c));
    Linear(Times2(e2), Times2(a));
  }

  lemma UnmixedSum(a: Byte, b: Byte, c: Byte, d: Byte, a2: Byte, b2: Byte, a4: Byte, c4: Byte,
                   a8: Byte, b8: Byte, c8: Byte, d8: Byte)
    ensures Xor(a, Xor(Xor(Xor4(a, b, c, d), Xor(Xor(Xor4(a8, b8, c8, d8), a4), c4)), Xor(a2, b2))) ==
      Xor4(Xor(a8, Xor(a4, a2)), Xor(b8, Xor(b2, b)), Xor(c8, Xor(c4, c)), Xor(d8, d))
  {
    hide Xor;
    SumPairs(a8, b8, c8, d8, Xor(a4, a2), Xor(b2, b), Xor(c4, c), d);
    LowTerms(b, c, d, a2, b2, a4, c4);
    Gather(a, Xor4(a, b, c, d), Xor4(a8, b8, c8, d8), a4, c4, Xor(a2, b2));
    DropFirst(a, b, c, d);
  }

  lemma LowTerms(b: Byte, c: Byte, d: Byte, a2: Byte, b2: Byte, a4: Byte, c4: Byte)
    ensures Xor4(Xor(a4, a2), Xor(b2, b), Xor(c4, c), d) ==
      Xor(Xor(Xor(a4, c4), Xor(a2, b2)), Xor(Xor(b, c), d))
  {
    hide Xor;
    Swap(a4, a2, c4, c);
    Regroup4(Xor(a4, a2), Xor(b2, b), Xor(c4, c), d);
    Collect(Xor(a4, c4), a2, c, b2, b, d);
  }

  lemma Regroup4(x: Byte, y: Byte, z: Byte, d: Byte)
    ensures Xor4(x, y, z, d) == Xor(Xor(Xor(x, z), y), d)
  {
  }

  lemma Collect(x: Byte, a2: Byte, c: Byte, b2: Byte, b: Byte, d: Byte)
    ensures Xor(Xor(Xor(x, Xor(a2, c)), Xor(b2, b)), d) == Xor(Xor(x, Xor(a2, b2)), Xor(Xor(b, c), d))
  {
    var y := Xor(Xor(a2, c), Xor(b2, b));
    assert y == Xor(Xor(a2, b2), Xor(b, c));
    hide Xor;
    Assoc(x, Xor(a2, c), Xor(b2, b));
    Assoc(x, Xor(a2, b2), Xor(b, c));
    Assoc(Xor(x, Xor(a2, b2)), Xor(b, c), d);
  }

  lemma Assoc(x: Byte, y: Byte, z: Byte)
    ensures Xor(Xor(x, y), z) == Xor(x, Xor(y, z))
  {
  }

  lemma Gather(a: Byte, e: Byte, e8: Byte, a4: Byte, c4: Byte, y: Byte)
    ensures Xor(a, Xor(Xor(e, Xor(Xor(e8, a4), c4)), y)) == Xor(e8, Xor(Xor(Xor(a4, c4), y), Xor(a, e)))
  {
    Assoc(e8, a4, c4);
    var x := Xor(a4, c4);
    assert Xor(a, Xor(Xor(e, Xor(e8, x)), y)) == Xor(e8, Xor(Xor(x, y), Xor(a, e)));
  }

  lemma DropFirst(a: Byte, b: Byte, c: Byte, d: Byte)
    ensures Xor(a, Xor4(a, b, c, d)) == Xor(Xor(b, c), d)
  {
  }

  // Unmixing a mixed column gives the column back.
  lemma UnmixMix(a: Byte, b: Byte, c: Byte, d: Byte)
    ensures var e := Xor4(a, b, c, d);
      var m0, m1, m2, m3 := Mixed(a, b, e), Mixed(b, c, e), Mixed(c, d, e), Mixed(d, a, e);
      Mixed(m0, m1, Unmixing(Xor4(m0, m1, m2, m3), m0, m2)) == a
  {
    hide Times2, Times4, Xor;
    var e := Xor4(a, b, c, d);
    var p, q, r, s := Times2(Xor(a, b)), Times2(Xor(b, c)), Times2(Xor(c, d)), Times2(Xor(d, a));
    var m0, m1, m2, m3 := Mixed(a, b, e), Mixed(b, c, e), Mixed(c, d, e), Mixed(d, a, e);
    RingSum(a, b, c, d);
    SumKept(a, b, c, d, e, p, q, r, s);
    OppositeSum(a, b, c, d);
    NeighbourSum(a, b, c, d);
    var x4 := Times4(Xor(a, c));
    LastStep(a, e, p, x4);
  }

  lemma RingSum(a: Byte, b: Byte, c: Byte, d: Byte)
    ensures Xor4(Times2(Xor(a, b)), Times2(Xor(b, c)), Times2(Xor(c, d)), Times2(Xor(d, a))) == Byte(0)
  {
    hide Times2;
    Fold(a, b, c);
    Fold(c, d, a);
    assert Xor(c, a) == Xor(a, c);
    ZeroSum(Times2(Xor(a, b)), Times2(Xor(b, c)), Times2(Xor(c, d)), Times2(Xor(d, a)));
  }

  lemma ZeroSum(p: Byte, q: Byte, r: Byte, s: Byte)
    requires Xor(p, q) == Xor(r, s)
    ensures Xor4(p, q, r, s) == Byte(0)
  {
  }

  // Mixing keeps the sum of a column.
  lemma SumKept(a: Byte, b: Byte, c: Byte, d: Byte, e: Byte, p: Byte, q: Byte, r: Byte, s: Byte)
    requires e == Xor4(a, b, c, d) && Xor4(p, q, r, s) == Byte(0)
    ensures Xor4(Xor(a, Xor(e, p)), Xor(b, Xor(e, q)), Xor(c, Xor(e, r)), Xor(d, Xor(e, s))) == e
  {
    hide Xor;
    SumPairs(a, b, c, d, Xor(e, p), Xor(e, q), Xor(e, r), Xor(e, s));
    SumPairs(e, e, e, e, p, q, r, s);
    FourTimes(e);
  }

  lemma FourTimes(e: Byte)
    ensures Xor4(e, e, e, e) == Byte(0) && Xor(e, Xor(Byte(0), Byte(0))) == e
  {
  }

  // m0 + m2 + 2 e is a + c.
  lemma OppositeSum(a: Byte, b: Byte, c: Byte, d: Byte)
    ensures var e := Xor4(a, b, c, d);
      Xor(Xor(Times2(e), Mixed(a, b, e)), Mixed(c, d, e)) == Xor(a, c)
  {
    hide Times2, Xor;
    var e := Xor4(a, b, c, d);
    Linear(Xor(a, b), Xor(c, d));
    Regroup(a, b, c, d);
    OppositeAtoms(a, c, e, Times2(Xor(a, b)), Times2(Xor(c, d)));
  }

  lemma Regroup(a: Byte, b: Byte, c: Byte, d: Byte)
    ensures Xor4(a, b, c, d) == Xor(Xor(a, b), Xor(c, d))
  {
  }

  lemma OppositeAtoms(a: Byte, c: Byte, e: Byte, p: Byte, r: Byte)
    ensures Xor(Xor(Xor(p, r), Xor(a, Xor(e, p))), Xor(c, Xor(e, r))) == Xor(a, c)
  {
  }

  // 2 (m0 + m1) is 2 (a + b) + 4 (a + c).
  lemma NeighbourSum(a: Byte, b: Byte, c: Byte, d: Byte)
    ensures var e := Xor4(a, b, c, d);
      Times2(Xor(Mixed(a, b, e), Mixed(b, c, e))) == Xor(Times2(Xor(a, b)), Times4(Xor(a, c)))
  {
    hide Times2, Xor;
    var e := Xor4(a, b, c, d);
    Fold(a, b, c);
    NeighbourAtoms(a, b, e, Times2(Xor(a, b)), Times2(Xor(b, c)));
    Linear(Xor(a, b), Times2(Xor(a, c)));
  }

  lemma NeighbourAtoms(a: Byte, b: Byte, e: Byte, p: Byte, q: Byte)
    ensures Xor(Xor(a, Xor(e, p)), Xor(b, Xor(e, q))) == Xor(Xor(a, b), Xor(p, q))
  {
  }

  lemma LastStep(a: Byte, e: Byte, p: Byte, x4: Byte)
    ensures Xor(Xor(a, Xor(e, p)), Xor(Xor(e, x4), Xor(p, x4))) == a
  {
  }

  // ----------------------------------------------------- the state, 16 bytes

  type State = s: seq<Byte> | |s| == 16 witness seq(16, _ => Byte(0))
  type Key = k: seq<Byte> | |k| == 32 witness seq(32, _ => Byte(0))

  function SubBytes(s: State): State { seq(16, i requires 0 <= i < 16 => Sub(s[i])) }

  function UnsubBytes(s: State): State { seq(16, i requires 0 <= i < 16 => Unsub(s[i])) }

  // Section 5.1.2: row r of the column-major state moves r places to the left.
  function ShiftRows(s: State): State {
    [s[0], s[5], s[10], s[15], s[4], s[9], s[14], s[3], s[8], s[13], s[2], s[7], s[12], s[1], s[6], s[11]]
  }

  function UnshiftRows(s: State): State {
    [s[0], s[13], s[10], s[7], s[4], s[1], s[14], s[11], s[8], s[5], s[2], s[15], s[12], s[9], s[6], s[3]]
  }

  function MixColumn(a: Byte, b: Byte, c: Byte, d: Byte): (t: seq<Byte>)
    ensures |t| == 4
  {
    [FipsMixed(a, b, c, d), FipsMixed(b, c, d, a), FipsMixed(c, d, a, b), FipsMixed(d, a, b, c)]
  }

  function UnmixColumn(a: Byte, b: Byte, c: Byte, d: Byte): (t: seq<Byte>)
    ensures |t| == 4
  {
    [FipsUnmixed(a, b, c, d), FipsUnmixed(b, c, d, a), FipsUnmixed(c, d, a, b), FipsUnmixed(d, a, b, c)]
  }

  // Section 5.1.3, column by column.
  function MixColumns(s: State): State {
    MixColumn(s[0], s[1], s[2], s[3]) + MixColumn(s[4], s[5], s[6], s[7])
    + MixColumn(s[8], s[9], s[10], s[11]) + MixColumn(s[12], s[13], s[14], s[15])
  }

  // Section 5.3.3, column by column.
  function UnmixColumns(s: State): State {
    UnmixColumn(s[0], s[1], s[2], s[3]) + UnmixColumn(s[4], s[5], s[6], s[7])
    + UnmixColumn(s[8], s[9], s[10], s[11]) + UnmixColumn(s[12], s[13], s[14], s[15])
  }

  function AddRoundKey(s: State, k: seq<Byte>): State
    requires |k| == 16
  {
    seq(16, i requires 0 <= i < 16 => Xor(s[i], k[i]))
  }

  lemma AddTwice(s: State, k: seq<Byte>)
    requires |k| == 16
    ensures AddRoundKey(AddRoundKey(s, k), k) == s
  {
    hide Xor;
    forall i | 0 <= i < 16 ensures AddRoundKey(AddRoundKey(s, k), k)[i] == s[i] { XorTwice(s[i], k[i]); }
  }

  lemma UnsubSubBytes(s: State)
    ensures UnsubBytes(SubBytes(s)) == s
  {
    hide Sub, Unsub;
    forall i | 0 <= i < 16 ensures UnsubBytes(SubBytes(s))[i] == s[i] { UnsubSub(s[i]); }
  }

  // The state is filled column by column, so byte (r, c) is number r + 4 c; row r moves r places.
  lemma ShiftIsFips(s: State, r: nat, c: nat)
    requires r < 4 && c < 4
    ensures ShiftRows(s)[r + 4 * c] == s[r + 4 * ((c + r) % 4)]
    ensures UnshiftRows(s)[r + 4 * ((c + r) % 4)] == s[r + 4 * c]
  {
    if r == 0 {
    } else if r == 1 {
    } else if r == 2 {
    }
  }

  // Mixing and unmixing an example column.
  lemma MixExample()
    ensures MixColumn(Byte(0xdb), Byte(0x13), Byte(0x53), Byte(0x45))
            == [Byte(0x8e), Byte(0x4d), Byte(0xa1), Byte(0xbc)]
    ensures UnmixColumn(Byte(0x8e), Byte(0x4d), Byte(0xa1), Byte(0xbc))
            == [Byte(0xdb), Byte(0x13), Byte(0x53), Byte(0x45)]
  {
  }

  lemma UnshiftShift(s: State)
    ensures UnshiftRows(ShiftRows(s)) == s
  {
  }

  lemma UnmixMixColumn(a: Byte, b: Byte, c: Byte, d: Byte)
    ensures var t := MixColumn(a, b, c, d); UnmixColumn(t[0], t[1], t[2], t[3]) == [a, b, c, d]
  {
    hide FipsMixed, FipsUnmixed;
    UnmixMixFips(a, b, c, d);
    UnmixMixFips(b, c, d, a);
    UnmixMixFips(c, d, a, b);
    UnmixMixFips(d, a, b, c);
  }

  lemma UnmixMixColumns(s: State)
    ensures UnmixColumns(MixColumns(s)) == s
  {
    hide MixColumn, UnmixColumn;
    UnmixMixColumn(s[0], s[1], s[2], s[3]);
    UnmixMixColumn(s[4], s[5], s[6], s[7]);
    UnmixMixColumn(s[8], s[9], s[10], s[11]);
    UnmixMixColumn(s[12], s[13], s[14], s[15]);
  }

  lemma UnmixMixFips(a: Byte, b: Byte, c: Byte, d: Byte)
    ensures FipsUnmixed(FipsMixed(a, b, c, d), FipsMixed(b, c, d, a), FipsMixed(c, d, a, b), FipsMixed(d, a, b, c)) == a
  {
    hide FipsMixed, FipsUnmixed, Mixed, Unmixing, Xor4;
    UnmixMix(a, b, c, d);
    Rotations(a, b, c, d);
    MixedIsFips(a, b, c, d);
    MixedIsFips(b, c, d, a);
    MixedIsFips(c, d, a, b);
    MixedIsFips(d, a, b, c);
    UnmixedIsFips(FipsMixed(a, b, c, d), FipsMixed(b, c, d, a), FipsMixed(c, d, a, b), FipsMixed(d, a, b, c));
  }

  lemma Rotations(a: Byte, b: Byte, c: Byte, d: Byte)
    ensures Xor4(a, b, c, d) == Xor4(b, c, d, a) == Xor4(c, d, a, b) == Xor4(d, a, b, c)
  {
    Rotate(a, b, c, d);
    Rotate(b, c, d, a);
    Rotate(c, d, a, b);
  }

  lemma Rotate(a: Byte, b: Byte, c: Byte, d: Byte)
    ensures Xor4(a, b, c, d) == Xor4(b, c, d, a)
  {
  }

  // -------------------------------------------------------------- key schedule

  type Word = w: seq<Byte> | |w| == 4 witness [Byte(0), Byte(0), Byte(0), Byte(0)]

  function XorWord(u: Word, v: Word): Word { [Xor(u[0], v[0]), Xor(u[1], v[1]), Xor(u[2], v[2]), Xor(u[3], v[3])] }

  function SubWord(u: Word): Word { [Sub(u[0]), Sub(u[1]), Sub(u[2]), Sub(u[3])] }

  function RotWord(u: Word): Word { [u[1], u[2], u[3], u[0]] }

  // The word with r added to its first byte.
  function AddConstant(u: Word, r: Byte): Word { [Xor(u[0], r), u[1], u[2], u[3]] }

  function Rcon(n: nat): Byte { if n == 0 then Byte(1) else Times2(Rcon(n - 1)) }

  // The round constants of section 5.2, as far as an eight-word key uses them.
  lemma ConstantsAre()
    ensures Rcon(0) == Byte(0x01) && Rcon(1) == Byte(0x02) && Rcon(2) == Byte(0x04) && Rcon(3) == Byte(0x08)
    ensures Rcon(4) == Byte(0x10) && Rcon(5) == Byte(0x20) && Rcon(6) == Byte(0x40)
  {
  }

  // A word moves one byte to the left, cyclically.
  lemma RotWordIs(u: Word, k: nat)
    requires k < 4
    ensures RotWord(u)[k] == u[(k + 1) % 4]
  {
    if k == 0 {
    } else if k == 1 {
    } else if k == 2 {
    }
  }

  // Section 5.2 with eight-word keys: word i of the expanded key.
  function Expanded(key: Key, i: nat): Word {
    if i < 8 then key[4 * i..4 * i + 4]
    else
      var temp := Expanded(key, i - 1);
      var t := if i % 8 == 0 then AddConstant(SubWord(RotWord(temp)), Rcon(i / 8 - 1))
               else if i % 8 == 4 then SubWord(temp) else temp;
      XorWord(Expanded(key, i - 8), t)
  }

  function WordAt(k: Key, j: nat): Word
    requires j < 8
  {
    k[4 * j..4 * j + 4]
  }

  function Join(w0: Word, w1: Word, w2: Word, w3: Word, w4: Word, w5: Word, w6: Word, w7: Word): Key {
    w0 + w1 + w2 + w3 + w4 + w5 + w6 + w7
  }

  lemma JoinWords(w0: Word, w1: Word, w2: Word, w3: Word, w4: Word, w5: Word, w6: Word, w7: Word)
    ensures var k := Join(w0, w1, w2, w3, w4, w5, w6, w7);
      && WordAt(k, 0) == w0 && WordAt(k, 1) == w1 && WordAt(k, 2) == w2 && WordAt(k, 3) == w3
      && WordAt(k, 4) == w4 && WordAt(k, 5) == w5 && WordAt(k, 6) == w6 && WordAt(k, 7) == w7
  {
  }

  lemma WordsJoin(k: Key)
    ensures k == Join(WordAt(k, 0), WordAt(k, 1), WordAt(k, 2), WordAt(k, 3),
                      WordAt(k, 4), WordAt(k, 5), WordAt(k, 6), WordAt(k, 7))
  {
  }

  // The next eight words, computed from the current eight.
  function Expand(k: Key, r: Byte): Key {
    var w0 := XorWord(WordAt(k, 0), AddConstant(SubWord(RotWord(WordAt(k, 7))), r));
    var w1 := XorWord(WordAt(k, 1), w0);
    var w2 := XorWord(WordAt(k, 2), w1);
    var w3 := XorWord(WordAt(k, 3), w2);
    var w4 := XorWord(WordAt(k, 4), SubWord(w3));
    var w5 := XorWord(WordAt(k, 5), w4);
    var w6 := XorWord(WordAt(k, 6), w5);
    Join(w0, w1, w2, w3, w4, w5, w6, XorWord(WordAt(k, 7), w6))
  }

  // The previous eight words, computed from the current eight.
  function Unexpand(k: Key, r: Byte): Key {
    var w7 := XorWord(WordAt(k, 7), WordAt(k, 6));
    var w6 := XorWord(WordAt(k, 6), WordAt(k, 5));
    var w5 := XorWord(WordAt(k, 5), WordAt(k, 4));
    var w4 := XorWord(WordAt(k, 4), SubWord(WordAt(k, 3)));
    var w3 := XorWord(WordAt(k, 3), WordAt(k, 2));
    var w2 := XorWord(WordAt(k, 2), WordAt(k, 1));
    var w1 := XorWord(WordAt(k, 1), WordAt(k, 0));
    Join(XorWord(WordAt(k, 0), AddConstant(SubWord(RotWord(w7)), r)), w1, w2, w3, w4, w5, w6, w7)
  }

  lemma XorWordTwice(u: Word, v: Word)
    ensures XorWord(XorWord(u, v), v) == u
  {
    hide Xor;
    XorTwice(u[0], v[0]);
    XorTwice(u[1], v[1]);
    XorTwice(u[2], v[2]);
    XorTwice(u[3], v[3]);
  }

  // One step back undoes one step forward.
  lemma UnexpandExpand(k: Key, r: Byte)
    ensures Unexpand(Expand(k, r), r) == k
  {
    hide XorWord, SubWord, RotWord, AddConstant, WordAt, Join;
    var w0 := XorWord(WordAt(k, 0), AddConstant(SubWord(RotWord(WordAt(k, 7))), r));
    var w1 := XorWord(WordAt(k, 1), w0);
    var w2 := XorWord(WordAt(k, 2), w1);
    var w3 := XorWord(WordAt(k, 3), w2);
    var w4 := XorWord(WordAt(k, 4), SubWord(w3));
    var w5 := XorWord(WordAt(k, 5), w4);
    var w6 := XorWord(WordAt(k, 6), w5);
    var w7 := XorWord(WordAt(k, 7), w6);
    JoinWords(w0, w1, w2, w3, w4, w5, w6, w7);
    XorWordTwice(WordAt(k, 0), AddConstant(SubWord(RotWord(WordAt(k, 7))), r));
    XorWordTwice(WordAt(k, 1), w0);
    XorWordTwice(WordAt(k, 2), w1);
    XorWordTwice(WordAt(k, 3), w2);
    XorWordTwice(WordAt(k, 4), SubWord(w3));
    XorWordTwice(WordAt(k, 5), w4);
    XorWordTwice(WordAt(k, 6), w5);
    XorWordTwice(WordAt(k, 7), w6);
    WordsJoin(k);
  }

  // The key buffer after n expansions.
  function KeyAt(key: Key, n: nat): Key {
    if n == 0 then key else Expand(KeyAt(key, n - 1), Rcon(n - 1))
  }

  // The key buffer after n expansions holds words 8 n to 8 n + 7 of the standard's schedule.
  lemma {:induction false} KeyAtIsSchedule(key: Key, n: nat, j: nat)
    requires j < 8
    ensures WordAt(KeyAt(key, n), j) == Expanded(key, 8 * n + j)
    decreases n, j
  {
    hide Expand, Expanded, XorWord, SubWord, RotWord, AddConstant, WordAt, Rcon;
    if n == 0 {
      FirstWords(key, j);
    } else {
      var k := KeyAt(key, n - 1);
      ExpandWord(k, Rcon(n - 1), j);
      ScheduleStep(key, n, j);
      KeyAtIsSchedule(key, n - 1, j);
      if j > 0 { KeyAtIsSchedule(key, n, j - 1); } else { KeyAtIsSchedule(key, n - 1, 7); }
    }
  }

  lemma FirstWords(key: Key, j: nat)
    requires j < 8
    ensures WordAt(key, j) == Expanded(key, j)
  {
  }

  lemma ScheduleStep(key: Key, n: nat, j: nat)
    requires j < 8 && n > 0
    ensures Expanded(key, 8 * n + j) == XorWord(Expanded(key, 8 * (n - 1) + j),
      if j == 0 then AddConstant(SubWord(RotWord(Expanded(key, 8 * (n - 1) + 7))), Rcon(n - 1))
      else if j == 4 then SubWord(Expanded(key, 8 * n + 3))
      else Expanded(key, 8 * n + (j - 1)))
  {
    hide XorWord, SubWord, RotWord, AddConstant, Rcon;
    var i := 8 * n + j;
    assert i % 8 == j && i / 8 == n;
  }

  lemma ExpandWord(k: Key, r: Byte, j: nat)
    requires j < 8
    ensures WordAt(Expand(k, r), j) == XorWord(WordAt(k, j),
      if j == 0 then AddConstant(SubWord(RotWord(WordAt(k, 7))), r)
      else if j == 4 then SubWord(WordAt(Expand(k, r), 3))
      else WordAt(Expand(k, r), j - 1))
  {
    hide XorWord, SubWord, RotWord, AddConstant, WordAt, Join;
    var w0 := XorWord(WordAt(k, 0), AddConstant(SubWord(RotWord(WordAt(k, 7))), r));
    var w1 := XorWord(WordAt(k, 1), w0);
    var w2 := XorWord(WordAt(k, 2), w1);
    var w3 := XorWord(WordAt(k, 3), w2);
    var w4 := XorWord(WordAt(k, 4), SubWord(w3));
    var w5 := XorWord(WordAt(k, 5), w4);
    var w6 := XorWord(WordAt(k, 6), w5);
    JoinWords(w0, w1, w2, w3, w4, w5, w6, XorWord(WordAt(k, 7), w6));
  }

  // The round key of round i: half of the key buffer after i / 2 expansions.
  function RoundKey(key: Key, i: nat): (k: seq<Byte>)
    ensures |k| == 16
  {
    if i % 2 == 0 then KeyAt(key, i / 2)[..16] else KeyAt(key, i / 2)[16..]
  }

  // Round key i is the standard's words 4 i to 4 i + 3.
  lemma RoundKeyIsSchedule(key: Key, i: nat)
    ensures RoundKey(key, i) ==
      Expanded(key, 4 * i) + Expanded(key, 4 * i + 1) + Expanded(key, 4 * i + 2) + Expanded(key, 4 * i + 3)
  {
    hide Expanded, KeyAt;
    var n, j := i / 2, 4 * (i % 2);
    assert 4 * i == 8 * n + j;
    KeyAtIsSchedule(key, n, j);
    KeyAtIsSchedule(key, n, j + 1);
    KeyAtIsSchedule(key, n, j + 2);
    KeyAtIsSchedule(key, n, j + 3);
    var k := KeyAt(key, n);
    assert WordAt(k, 0) + WordAt(k, 1) + WordAt(k, 2) + WordAt(k, 3) == k[..16];
    assert WordAt(k, 4) + WordAt(k, 5) + WordAt(k, 6) + WordAt(k, 7) == k[16..];
  }

  // -------------------------------------------------------------------- cipher

  // The state after n of the 14 rounds; the last round does not mix columns.
  function Rounds(key: Key, s: State, n: nat): State {
    if n == 0 then s
    else
      var t := ShiftRows(SubBytes(AddRoundKey(Rounds(key, s, n - 1), RoundKey(key, n - 1))));
      if n < 14 then MixColumns(t) else t
  }

  // Section 5.1: 14 rounds and a final round key.
  function Cipher(key: Key, s: State): State { AddRoundKey(Rounds(key, s, 14), RoundKey(key, 14)) }

  // The state after n of the 14 inverse rounds.
  function InverseRounds(key: Key, s: State, n: nat): State
    requires n <= 14
  {
    if n == 0 then s
    else
      var t := AddRoundKey(InverseRounds(key, s, n - 1), RoundKey(key, 15 - n));
      UnsubBytes(UnshiftRows(if n > 1 then UnmixColumns(t) else t))
  }

  // Section 5.3.
  function InverseCipher(key: Key, s: State): State {
    AddRoundKey(InverseRounds(key, s, 14), RoundKey(key, 0))
  }

  // After n inverse rounds the state is what it was before the last n substitutions.
  lemma {:induction false} RoundsUndone(key: Key, s: State, n: nat)
    requires n <= 14
    ensures InverseRounds(key, Cipher(key, s), n) == AddRoundKey(Rounds(key, s, 14 - n), RoundKey(key, 14 - n))
  {
    if n > 0 {
      hide *;
      RoundsUndone(key, s, n - 1);
      var a := OneMoreRound(key, s, 14 - n);
      OneMoreInverse(key, Cipher(key, s), n);
      AddTwice(Rounds(key, s, 15 - n), RoundKey(key, 15 - n));
      UnmixMixColumns(ShiftRows(SubBytes(a)));
      UnshiftShift(SubBytes(a));
      UnsubSubBytes(a);
    } else {
      hide AddRoundKey, Rounds, RoundKey;
    }
  }

  lemma OneMoreRound(key: Key, s: State, n: nat) returns (a: State)
    requires n < 14
    ensures a == AddRoundKey(Rounds(key, s, n), RoundKey(key, n))
    ensures Rounds(key, s, n + 1) ==
            if n < 13 then MixColumns(ShiftRows(SubBytes(a))) else ShiftRows(SubBytes(a))
  {
    hide AddRoundKey, SubBytes, ShiftRows, MixColumns, RoundKey;
    a := AddRoundKey(Rounds(key, s, n), RoundKey(key, n));
  }

  lemma OneMoreInverse(key: Key, s: State, n: nat)
    requires 0 < n <= 14
    ensures InverseRounds(key, s, n) ==
            var t := AddRoundKey(InverseRounds(key, s, n - 1), RoundKey(key, 15 - n));
            UnsubBytes(UnshiftRows(if n > 1 then UnmixColumns(t) else t))
  {
    hide AddRoundKey, UnsubBytes, UnshiftRows, UnmixColumns, RoundKey;
  }

  // Decryption undoes encryption, for every key and block.
  lemma InverseCipherCipher(key: Key, s: State)
    ensures InverseCipher(key, Cipher(key, s)) == s
  {
    hide AddRoundKey, RoundKey;
    RoundsUndone(key, s, 14);
    AddTwice(s, RoundKey(key, 0));
  }

  // ---------------------------------------------------------- in-place methods

  // XORs half of the key buffer into the state.
  method AddKeyInPlace(x: array<Byte>, k: array<Byte>, off: nat)
    requires x.Length == 16 && k.Length == 32 && off <= 16 && x != k
    modifies x
    ensures x[..] == AddRoundKey(old(x[..]), k[off..off + 16])
  {
    hide Xor;
    var j := 0;
    while j < 16
      invariant 0 <= j <= 16
      invariant forall i :: 0 <= i < j ==> x[i] == Xor(old(x[i]), k[off + i])
      invariant forall i :: j <= i < 16 ==> x[i] == old(x[i])
    {
      x[j] := Xor(x[j], k[off + j]);
      j := j + 1;
    }
  }

  method SubInPlace(x: array<Byte>)
    requires x.Length == 16
    modifies x
    ensures x[..] == SubBytes(old(x[..]))
  {
    hide Sub;
    var j := 0;
    while j < 16
      invariant 0 <= j <= 16
      invariant forall i :: 0 <= i < j ==> x[i] == Sub(old(x[i]))
      invariant forall i :: j <= i < 16 ==> x[i] == old(x[i])
    {
      x[j] := Sub(x[j]);
      j := j + 1;
    }
  }

  method UnsubInPlace(x: array<Byte>)
    requires x.Length == 16
    modifies x
    ensures x[..] == UnsubBytes(old(x[..]))
  {
    hide Unsub;
    var j := 0;
    while j < 16
      invariant 0 <= j <= 16
      invariant forall i :: 0 <= i < j ==> x[i] == Unsub(old(x[i]))
      invariant forall i :: j <= i < 16 ==> x[i] == old(x[i])
    {
      x[j] := Unsub(x[j]);
      j := j + 1;
    }
  }

  // Moves byte b to a, c to b, d to c and a to d.
  method Cycle(x: array<Byte>, a: nat, b: nat, c: nat, d: nat)
    requires x.Length == 16 && a < 16 && b < 16 && c < 16 && d < 16
    requires a != b && a != c && a != d && b != c && b != d && c != d
    modifies x
    ensures x[..] == old(x[..])[a := old(x[b])][b := old(x[c])][c := old(x[d])][d := old(x[a])]
  {
    var t := x[a];
    x[a] := x[b];
    x[b] := x[c];
    x[c] := x[d];
    x[d] := t;
  }

  method Exchange(x: array<Byte>, a: nat, b: nat)
    requires x.Length == 16 && a < 16 && b < 16
    modifies x
    ensures x[..] == old(x[..])[a := old(x[b])][b := old(x[a])]
  {
    var t := x[a];
    x[a] := x[b];
    x[b] := t;
  }

  method ShiftInPlace(x: array<Byte>)
    requires x.Length == 16
    modifies x
    ensures x[..] == ShiftRows(old(x[..]))
  {
    Cycle(x, 1, 5, 9, 13);
    Exchange(x, 10, 2);
    Cycle(x, 3, 15, 11, 7);
    Exchange(x, 14, 6);
  }

  method UnshiftInPlace(x: array<Byte>)
    requires x.Length == 16
    modifies x
    ensures x[..] == UnshiftRows(old(x[..]))
  {
    Cycle(x, 1, 13, 9, 5);
    Exchange(x, 2, 10);
    Cycle(x, 3, 7, 11, 15);
    Exchange(x, 6, 14);
  }

  // Mixes the column that starts at j.
  method MixColumnInPlace(x: array<Byte>, j: nat)
    requires x.Length == 16 && j <= 12
    modifies x
    ensures x[..] == old(x[..j]) + old(MixColumn(x[j], x[j + 1], x[j + 2], x[j + 3])) + old(x[j + 4..])
  {
    hide Xor, Times2, FipsMixed, Xor4;
    var a, b, c, d := x[j], x[j + 1], x[j + 2], x[j + 3];
    var e := Xor4(a, b, c, d);
    MixedIsFips(a, b, c, d);
    MixedIsFips(b, c, d, a);
    MixedIsFips(c, d, a, b);
    MixedIsFips(d, a, b, c);
    Rotations(a, b, c, d);
    x[j] := Xor(x[j], Xor(e, Times2(Xor(a, b))));
    x[j + 1] := Xor(x[j + 1], Xor(e, Times2(Xor(b, c))));
    x[j + 2] := Xor(x[j + 2], Xor(e, Times2(Xor(c, d))));
    x[j + 3] := Xor(x[j + 3], Xor(e, Times2(Xor(d, a))));
  }

  method MixInPlace(x: array<Byte>)
    requires x.Length == 16
    modifies x
    ensures x[..] == MixColumns(old(x[..]))
  {
    hide MixColumn;
    ghost var s := x[..];
    var j := 0;
    while j < 16
      invariant j in {0, 4, 8, 12, 16}
      invariant x[..j] == MixColumns(s)[..j] && x[j..] == s[j..]
    {
      assert x[j] == s[j] && x[j + 1] == s[j + 1] && x[j + 2] == s[j + 2] && x[j + 3] == s[j + 3];
      MixColumnInPlace(x, j);
      j := j + 4;
    }
  }

  // Unmixes the column that starts at j.
  method UnmixColumnInPlace(x: array<Byte>, j: nat)
    requires x.Length == 16 && j <= 12
    modifies x
    ensures x[..] == old(x[..j]) + old(UnmixColumn(x[j], x[j + 1], x[j + 2], x[j + 3])) + old(x[j + 4..])
  {
    hide Xor, Times2, Times4, FipsUnmixed, Xor4;
    var a, b, c, d := x[j], x[j + 1], x[j + 2], x[j + 3];
    var e := Xor4(a, b, c, d);
    var h := Times2(e);
    var f := Xor(e, Times4(Xor(Xor(h, a), c)));
    var g := Xor(e, Times4(Xor(Xor(h, b), d)));
    Rotations(a, b, c, d);
    UnmixingSwaps(e, a, c);
    UnmixingSwaps(e, b, d);
    UnmixedIsFips(a, b, c, d);
    UnmixedIsFips(b, c, d, a);
    UnmixedIsFips(c, d, a, b);
    UnmixedIsFips(d, a, b, c);
    x[j] := Xor(x[j], Xor(f, Times2(Xor(a, b))));
    x[j + 1] := Xor(x[j + 1], Xor(g, Times2(Xor(b, c))));
    x[j + 2] := Xor(x[j + 2], Xor(f, Times2(Xor(c, d))));
    x[j + 3] := Xor(x[j + 3], Xor(g, Times2(Xor(d, a))));
  }

  lemma UnmixingSwaps(e: Byte, a: Byte, c: Byte)
    ensures Unmixing(e, a, c) == Unmixing(e, c, a)
  {
    hide Times2, Times4;
    assert Xor(Xor(Times2(e), a), c) == Xor(Xor(Times2(e), c), a);
  }

  method UnmixInPlace(x: array<Byte>)
    requires x.Length == 16
    modifies x
    ensures x[..] == UnmixColumns(old(x[..]))
  {
    hide UnmixColumn;
    ghost var s := x[..];
    var j := 0;
    while j < 16
      invariant j in {0, 4, 8, 12, 16}
      invariant x[..j] == UnmixColumns(s)[..j] && x[j..] == s[j..]
    {
      assert x[j] == s[j] && x[j + 1] == s[j + 1] && x[j + 2] == s[j + 2] && x[j + 3] == s[j + 3];
      UnmixColumnInPlace(x, j);
      j := j + 4;
    }
  }

  // The buffer's words.
  lemma WordsOfBuffer(s: Key, t: Key, j: nat, w: Word)
    requires j < 8 && t[..4 * j] == s[..4 * j] && t[4 * j + 4..] == s[4 * j + 4..] && t[4 * j..4 * j + 4] == w
    ensures WordAt(t, j) == w
    ensures forall i :: 0 <= i < 8 && i != j ==> WordAt(t, i) == WordAt(s, i)
  {
    forall i | 0 <= i < 8 && i != j ensures WordAt(t, i) == WordAt(s, i) {
      if i < j {
        assert t[4 * i..4 * i + 4] == t[..4 * j][4 * i..4 * i + 4];
      } else {
        var m := 4 * j + 4;
        assert t[4 * i..4 * i + 4] == t[m..][4 * i - m..4 * i + 4 - m];
        assert s[4 * i..4 * i + 4] == s[m..][4 * i - m..4 * i + 4 - m];
      }
    }
  }

  // `k[j] ^= u[0], ..., k[j+3] ^= u[3]` on word j / 4.
  method XorIntoWord(k: array<Byte>, j: nat, u: Word)
    requires k.Length == 32 && j < 8
    modifies k
    ensures WordAt(k[..], j) == XorWord(old(WordAt(k[..], j)), u)
    ensures forall i :: 0 <= i < 8 && i != j ==> WordAt(k[..], i) == old(WordAt(k[..], i))
  {
    hide Xor;
    ghost var s := k[..];
    var o := 4 * j;
    k[o] := Xor(k[o], u[0]);
    k[o + 1] := Xor(k[o + 1], u[1]);
    k[o + 2] := Xor(k[o + 2], u[2]);
    k[o + 3] := Xor(k[o + 3], u[3]);
    WordsOfBuffer(s, k[..], j, XorWord(WordAt(s, j), u));
  }

  method ReadWord(k: array<Byte>, j: nat) returns (w: Word)
    requires k.Length == 32 && j < 8
    ensures w == WordAt(k[..], j)
  {
    w := [k[4 * j], k[4 * j + 1], k[4 * j + 2], k[4 * j + 3]];
  }

  // The key buffer moves one step forward in the schedule.
  method ExpandInPlace(k: array<Byte>, r: Byte)
    requires k.Length == 32
    modifies k
    ensures k[..] == Expand(old(k[..]), r)
  {
    hide XorWord, SubWord, RotWord, AddConstant, WordAt;
    ghost var s: Key := k[..];
    var w := ReadWord(k, 7);
    XorIntoWord(k, 0, AddConstant(SubWord(RotWord(w)), r));
    w := ReadWord(k, 0); XorIntoWord(k, 1, w);
    w := ReadWord(k, 1); XorIntoWord(k, 2, w);
    w := ReadWord(k, 2); XorIntoWord(k, 3, w);
    w := ReadWord(k, 3); XorIntoWord(k, 4, SubWord(w));
    w := ReadWord(k, 4); XorIntoWord(k, 5, w);
    w := ReadWord(k, 5); XorIntoWord(k, 6, w);
    w := ReadWord(k, 6); XorIntoWord(k, 7, w);
    WordsJoin(k[..]);
  }

  // The key buffer moves one step back.
  method UnexpandInPlace(k: array<Byte>, r: Byte)
    requires k.Length == 32
    modifies k
    ensures k[..] == Unexpand(old(k[..]), r)
  {
    hide XorWord, SubWord, RotWord, AddConstant, WordAt;
    ghost var s: Key := k[..];
    var w := ReadWord(k, 6); XorIntoWord(k, 7, w);
    w := ReadWord(k, 5); XorIntoWord(k, 6, w);
    w := ReadWord(k, 4); XorIntoWord(k, 5, w);
    w := ReadWord(k, 3); XorIntoWord(k, 4, SubWord(w));
    w := ReadWord(k, 2); XorIntoWord(k, 3, w);
    w := ReadWord(k, 1); XorIntoWord(k, 2, w);
    w := ReadWord(k, 0); XorIntoWord(k, 1, w);
    w := ReadWord(k, 7);
    XorIntoWord(k, 0, AddConstant(SubWord(RotWord(w)), r));
    WordsJoin(k[..]);
  }

  // Encrypts one block in place.
  method Encrypt(key32: Key, buf16: array<Byte>)
    requires buf16.Length == 16
    modifies buf16
    ensures buf16[..] == Cipher(key32, old(buf16[..]))
  {
    hide Expand, AddRoundKey, SubBytes, ShiftRows, MixColumns, Times2;
    var x := new Byte[16](i requires 0 <= i < 16 reads buf16 => buf16[i]);
    var k := new Byte[32](i requires 0 <= i < 32 => key32[i]);
    ghost var s: State := buf16[..];
    assert x[..] == s && k[..] == key32;
    var r := Byte(1);
    var i := 0;
    while i < 14
      invariant 0 <= i <= 14 && buf16[..] == s
      invariant x[..] == Rounds(key32, s, i) && k[..] == KeyAt(key32, i / 2) && r == Rcon(i / 2)
    {
      AddKeyInPlace(x, k, i % 2 * 16);
      assert k[i % 2 * 16..i % 2 * 16 + 16] == RoundKey(key32, i);
      SubInPlace(x);
      ShiftInPlace(x);
      if i < 13 { MixInPlace(x); }
      if i % 2 != 0 {
        ExpandInPlace(k, r);
        r := Times2(r);
      }
      i := i + 1;
    }
    AddKeyInPlace(x, k, 0);
    assert k[0..16] == RoundKey(key32, 14);
    CopyBlock(x, buf16);
  }

  method CopyBlock(x: array<Byte>, out: array<Byte>)
    requires x.Length == out.Length == 16 && x != out
    modifies out
    ensures out[..] == x[..]
  {
    forall i | 0 <= i < 16 { out[i] := x[i]; }
  }

  // Round i of decryption; after an even round the key buffer steps back.
  method DecryptRound(x: array<Byte>, k: array<Byte>, ghost key32: Key, i: nat, r: Byte) returns (r': Byte)
    requires x.Length == 16 && k.Length == 32 && x != k && i < 14
    requires k[..] == KeyAt(key32, (14 - i) / 2) && r == Rcon((14 - i) / 2)
    modifies x, k
    ensures var t := AddRoundKey(old(x[..]), RoundKey(key32, 14 - i));
      x[..] == UnsubBytes(UnshiftRows(if i > 0 then UnmixColumns(t) else t))
    ensures k[..] == KeyAt(key32, (13 - i) / 2) && r' == Rcon((13 - i) / 2)
  {
    hide Expand, Unexpand, AddRoundKey, UnsubBytes, UnshiftRows, UnmixColumns, Times2, Half;
    var off := i % 2 * 16;
    assert (14 - i) % 2 == i % 2;
    assert k[off..off + 16] == RoundKey(key32, 14 - i);
    AddKeyInPlace(x, k, off);
    if i > 0 { UnmixInPlace(x); }
    UnshiftInPlace(x);
    UnsubInPlace(x);
    r' := r;
    if i % 2 == 0 {
      ghost var n := (14 - i) / 2 - 1;
      assert n == (13 - i) / 2;
      HalfTimes2(Rcon(n));
      UnexpandExpand(KeyAt(key32, n), Rcon(n));
      r' := Half(r);
      UnexpandInPlace(k, r');
    }
  }

  // Decrypts one block in place: the key buffer runs forward seven steps, then back.
  method Decrypt(key32: Key, buf16: array<Byte>)
    requires buf16.Length == 16
    modifies buf16
    ensures buf16[..] == InverseCipher(key32, old(buf16[..]))
  {
    hide Expand, AddRoundKey, UnsubBytes, UnshiftRows, UnmixColumns, Times2;
    var x := new Byte[16](i requires 0 <= i < 16 reads buf16 => buf16[i]);
    var k := new Byte[32](i requires 0 <= i < 32 => key32[i]);
    ghost var s: State := buf16[..];
    assert x[..] == s && k[..] == key32;
    var r := Byte(1);
    var i := 0;
    while i < 7
      invariant 0 <= i <= 7 && buf16[..] == s && x[..] == s
      invariant k[..] == KeyAt(key32, i) && r == Rcon(i)
    {
      ExpandInPlace(k, r);
      r := Times2(r);
      i := i + 1;
    }
    i := 0;
    while i < 14
      invariant 0 <= i <= 14 && buf16[..] == s
      invariant x[..] == InverseRounds(key32, s, i)
      invariant k[..] == KeyAt(key32, (14 - i) / 2) && r == Rcon((14 - i) / 2)
    {
      r := DecryptRound(x, k, key32, i, r);
      i := i + 1;
    }
    AddKeyInPlace(x, k, 0);
    assert k[0..16] == RoundKey(key32, 0);
    CopyBlock(x, buf16);
  }
}
