// The ChaCha20 block function by bit vectors, and what it yields for the zero key.
module ChaChaAnswer {
  import opened Common
  import opened Words
  import opened Bytes
  import opened Aead
  import opened WordBits

  lemma SevenBits()
    ensures Pow2(7) == 0x80 && Pow2(16) == 0x1_0000
  {
  }

  lemma Rol7(v: u32, h: nat, l: nat)
    requires h < 0x80 && l < 0x200_0000 && v == 0x200_0000 * h + l
    ensures Rol32(v, 7) == 0x80 * l + h
  {
    hide Or, Pow2;
    Powers();
    SevenBits();
    OrDisjoint(7, 0x80, l * 0x80, l, h);
    assert v * 0x80 == W32 * h + l * 0x80;
  }

  lemma Rol8(v: u32, h: nat, l: nat)
    requires h < 0x100 && l < 0x100_0000 && v == 0x100_0000 * h + l
    ensures Rol32(v, 8) == 0x100 * l + h
  {
    hide Or, Pow2;
    Powers();
    SevenBits();
    OrDisjoint(8, 0x100, l * 0x100, l, h);
    assert v * 0x100 == W32 * h + l * 0x100;
  }

  lemma Rol12(v: u32, h: nat, l: nat)
    requires h < 0x1000 && l < 0x10_0000 && v == 0x10_0000 * h + l
    ensures Rol32(v, 12) == 0x1000 * l + h
  {
    hide Or, Pow2;
    Powers();
    SevenBits();
    OrDisjoint(12, 0x1000, l * 0x1000, l, h);
    assert v * 0x1000 == W32 * h + l * 0x1000;
  }

  lemma Rol16(v: u32, h: nat, l: nat)
    requires h < 0x1_0000 && l < 0x1_0000 && v == 0x1_0000 * h + l
    ensures Rol32(v, 16) == 0x1_0000 * l + h
  {
    hide Or, Pow2;
    Powers();
    SevenBits();
    OrDisjoint(16, 0x1_0000, l * 0x1_0000, l, h);
    assert v * 0x1_0000 == W32 * h + l * 0x1_0000;
  }

  lemma By7Is(x: bv32)
    ensures Value32(By7(x)) == Rol32(Value32(x), 7)
  {
    hide Value32, By7, Rol32;
    var h, l := Rotated7(x);
    Rol7(Value32(x), h, l);
  }

  lemma By8Is(x: bv32)
    ensures Value32(By8(x)) == Rol32(Value32(x), 8)
  {
    hide Value32, By8, Rol32;
    var h, l := Rotated8(x);
    Rol8(Value32(x), h, l);
  }

  lemma By12Is(x: bv32)
    ensures Value32(By12(x)) == Rol32(Value32(x), 12)
  {
    hide Value32, By12, Rol32;
    var h, l := Rotated12(x);
    Rol12(Value32(x), h, l);
  }

  lemma By16Is(x: bv32)
    ensures Value32(By16(x)) == Rol32(Value32(x), 16)
  {
    hide Value32, By16, Rol32;
    var h, l := Rotated16(x);
    Rol16(Value32(x), h, l);
  }

  // ----- the quarter round -----

  datatype Quad = Quad(a: bv32, b: bv32, c: bv32, d: bv32)

  function Turned(q: Quad): Quad {
    var a1 := Plus(q.a, q.b);
    var d1 := By16(Xored32(q.d, a1));
    var c1 := Plus(q.c, d1);
    var b1 := By12(Xored32(q.b, c1));
    var a2 := Plus(a1, b1);
    var d2 := By8(Xored32(d1, a2));
    var c2 := Plus(c1, d2);
    Quad(a2, By7(Xored32(b1, c2)), c2, d2)
  }

  // The example of section 2.1.1 of RFC 7539.
  lemma QuarterRoundExample()
    ensures Turned(Quad(0x11111111, 0x01020304, 0x9b8d6f43, 0x01234567))
            == Quad(0xea2a92f4, 0xcb1cf8ce, 0x4581472e, 0x5881c4bb)
  {
  }

  ghost predicate FirstHalfIs(a: bv32, b: bv32, c: bv32, d: bv32) {
    hide Plus, By16, By12, Xored32, Value32, Rol32, Xor;
    var a1 := Plus(a, b);
    var d1 := By16(Xored32(d, a1));
    var c1 := Plus(c, d1);
    && Value32(a1) == Add32(Value32(a), Value32(b))
    && Value32(d1) == Rol32(Xor32(Value32(d), Value32(a1)), 16)
    && Value32(c1) == Add32(Value32(c), Value32(d1))
    && Value32(By12(Xored32(b, c1))) == Rol32(Xor32(Value32(b), Value32(c1)), 12)
  }

  lemma FirstHalf(a: bv32, b: bv32, c: bv32, d: bv32)
    ensures FirstHalfIs(a, b, c, d)
  {
    hide Plus, By16, By12, Xored32, Value32, Rol32, Xor;
    PlusIs(a, b);
    Xored32Is(d, Plus(a, b));
    By16Is(Xored32(d, Plus(a, b)));
    var d1 := By16(Xored32(d, Plus(a, b)));
    PlusIs(c, d1);
    Xored32Is(b, Plus(c, d1));
    By12Is(Xored32(b, Plus(c, d1)));
  }

  ghost predicate SecondHalfIs(a: bv32, b: bv32, c: bv32, d: bv32) {
    hide Plus, By8, By7, Xored32, Value32, Rol32, Xor;
    var a1 := Plus(a, b);
    var d1 := By8(Xored32(d, a1));
    var c1 := Plus(c, d1);
    && Value32(a1) == Add32(Value32(a), Value32(b))
    && Value32(d1) == Rol32(Xor32(Value32(d), Value32(a1)), 8)
    && Value32(c1) == Add32(Value32(c), Value32(d1))
    && Value32(By7(Xored32(b, c1))) == Rol32(Xor32(Value32(b), Value32(c1)), 7)
  }

  lemma SecondHalf(a: bv32, b: bv32, c: bv32, d: bv32)
    ensures SecondHalfIs(a, b, c, d)
  {
    hide Plus, By8, By7, Xored32, Value32, Rol32, Xor;
    PlusIs(a, b);
    Xored32Is(d, Plus(a, b));
    By8Is(Xored32(d, Plus(a, b)));
    var d1 := By8(Xored32(d, Plus(a, b)));
    PlusIs(c, d1);
    Xored32Is(b, Plus(c, d1));
    By7Is(Xored32(b, Plus(c, d1)));
  }

  ghost predicate Holds(x: State, a: nat, b: nat, c: nat, d: nat, q: Quad)
    requires a < 4 <= b < 8 <= c < 12 <= d < 16
  {
    x[a] == Value32(q.a) && x[b] == Value32(q.b) && x[c] == Value32(q.c) && x[d] == Value32(q.d)
  }

  // The quarter round turns four words of the state and leaves the others.
  lemma QuarterRoundIs(x: State, a: nat, b: nat, c: nat, d: nat, q: Quad)
    requires a < 4 <= b < 8 <= c < 12 <= d < 16 && Holds(x, a, b, c, d, q)
    ensures Holds(QuarterRound(x, a, b, c, d), a, b, c, d, Turned(q))
    ensures forall i :: 0 <= i < 16 && i != a && i != b && i != c && i != d ==> QuarterRound(x, a, b, c, d)[i] == x[i]
  {
    hide Plus, By16, By12, By8, By7, Xored32, Value32, Rol32, Xor32, Add32;
    FirstHalf(q.a, q.b, q.c, q.d);
    var a1 := Plus(q.a, q.b);
    var d1 := By16(Xored32(q.d, a1));
    var c1 := Plus(q.c, d1);
    SecondHalf(a1, By12(Xored32(q.b, c1)), c1, d1);
  }

  // ----- the double round -----

  // The state by columns: the words of column i are words i, 4 + i, 8 + i and 12 + i.
  datatype Grid = Grid(c0: Quad, c1: Quad, c2: Quad, c3: Quad)

  ghost predicate Valued(x: State, g: Grid) {
    && Holds(x, 0, 4, 8, 12, g.c0) && Holds(x, 1, 5, 9, 13, g.c1)
    && Holds(x, 2, 6, 10, 14, g.c2) && Holds(x, 3, 7, 11, 15, g.c3)
  }

  function Each(g: Grid): Grid {
    Grid(Turned(g.c0), Turned(g.c1), Turned(g.c2), Turned(g.c3))
  }

  // Row r moves r columns to the left, which makes columns of the diagonals; and back.
  function Shifted(g: Grid): Grid {
    Grid(Quad(g.c0.a, g.c1.b, g.c2.c, g.c3.d), Quad(g.c1.a, g.c2.b, g.c3.c, g.c0.d),
         Quad(g.c2.a, g.c3.b, g.c0.c, g.c1.d), Quad(g.c3.a, g.c0.b, g.c1.c, g.c2.d))
  }

  function Unshifted(g: Grid): Grid {
    Grid(Quad(g.c0.a, g.c3.b, g.c2.c, g.c1.d), Quad(g.c1.a, g.c0.b, g.c3.c, g.c2.d),
         Quad(g.c2.a, g.c1.b, g.c0.c, g.c3.d), Quad(g.c3.a, g.c2.b, g.c1.c, g.c0.d))
  }

  function Doubled(g: Grid): Grid {
    Unshifted(Each(Shifted(Each(g))))
  }

  lemma ColumnRound(x: State, g: Grid) returns (y: State)
    requires Valued(x, g)
    ensures Valued(y, Each(g))
    ensures y == QuarterRound(QuarterRound(QuarterRound(QuarterRound(x, 0, 4, 8, 12), 1, 5, 9, 13), 2, 6, 10, 14),
                              3, 7, 11, 15)
  {
    hide Turned, Value32, QuarterRound;
    y := x;
    QuarterRoundIs(y, 0, 4, 8, 12, g.c0);
    y := QuarterRound(y, 0, 4, 8, 12);
    QuarterRoundIs(y, 1, 5, 9, 13, g.c1);
    y := QuarterRound(y, 1, 5, 9, 13);
    QuarterRoundIs(y, 2, 6, 10, 14, g.c2);
    y := QuarterRound(y, 2, 6, 10, 14);
    QuarterRoundIs(y, 3, 7, 11, 15, g.c3);
    y := QuarterRound(y, 3, 7, 11, 15);
  }

  // The diagonals are one column further with each row.
  ghost predicate OnDiagonals(x: State, g: Grid) {
    && Holds(x, 0, 5, 10, 15, g.c0) && Holds(x, 1, 6, 11, 12, g.c1)
    && Holds(x, 2, 7, 8, 13, g.c2) && Holds(x, 3, 4, 9, 14, g.c3)
  }

  lemma DiagonalRound(x: State, g: Grid) returns (y: State)
    requires OnDiagonals(x, g)
    ensures OnDiagonals(y, Each(g))
    ensures y == QuarterRound(QuarterRound(QuarterRound(QuarterRound(x, 0, 5, 10, 15), 1, 6, 11, 12), 2, 7, 8, 13),
                              3, 4, 9, 14)
  {
    hide Turned, Value32, QuarterRound;
    y := x;
    QuarterRoundIs(y, 0, 5, 10, 15, g.c0);
    y := QuarterRound(y, 0, 5, 10, 15);
    QuarterRoundIs(y, 1, 6, 11, 12, g.c1);
    y := QuarterRound(y, 1, 6, 11, 12);
    QuarterRoundIs(y, 2, 7, 8, 13, g.c2);
    y := QuarterRound(y, 2, 7, 8, 13);
    QuarterRoundIs(y, 3, 4, 9, 14, g.c3);
    y := QuarterRound(y, 3, 4, 9, 14);
  }

  lemma ShiftedIs(x: State, g: Grid)
    ensures Valued(x, g) ==> OnDiagonals(x, Shifted(g))
    ensures OnDiagonals(x, g) ==> Valued(x, Unshifted(g))
  {
    hide Value32;
  }

  // A double round turns the four columns, and then the four diagonals.
  lemma DoubleRoundIs(x: State, g: Grid)
    requires Valued(x, g)
    ensures Valued(DoubleRound(x), Doubled(g))
  {
    hide Valued, OnDiagonals, Each, Shifted, Unshifted, QuarterRound;
    var y := ColumnRound(x, g);
    ShiftedIs(y, Each(g));
    var z := DiagonalRound(y, Shifted(Each(g)));
    ShiftedIs(z, Each(Shifted(Each(g))));
  }

  // ----- the zero key -----

  // The state before each of the ten double rounds, and at the end.
  const G0 := Grid(
    Quad(0x61707865, 0x00000000, 0x00000000, 0x00000000), Quad(0x3320646e, 0x00000000, 0x00000000, 0x00000000),
    Quad(0x79622d32, 0x00000000, 0x00000000, 0x00000000), Quad(0x6b206574, 0x00000000, 0x00000000, 0x00000000))
  const G1 := Grid(
    Quad(0xe45fd249, 0x2a3bf673, 0x538dca0e, 0x6bbf8b09), Quad(0x1bb820a6, 0x86bf4098, 0x0c439641, 0xc33013d6),
    Quad(0xe31a88ea, 0x460b500a, 0x00fa16bc, 0xbb9f9849), Quad(0xe667a9fe, 0xfa169886, 0x8a08812a, 0x87c62165))
  const G2 := Grid(
    Quad(0xb20e0da6, 0x28bfa54e, 0x69727d19, 0x601c8a8d), Quad(0x21219e43, 0x0e8a389f, 0x12e796ec, 0x18cf3767),
    Quad(0x79c69196, 0x7919a4b4, 0xd1875d88, 0x60d10ebc), Quad(0x8eb9d107, 0x323f2639, 0x602bb1ec, 0x17aa36ca))
  const G3 := Grid(
    Quad(0x0287a2a1, 0x9276b821, 0xd7b18523, 0x5c427a5f), Quad(0xd2dc39ef, 0x37ccb7a7, 0xa0952ff2, 0x1d928d7b),
    Quad(0xf2ecf51e, 0x1fe6c459, 0x131f6ff5, 0xf4d2b4da), Quad(0xc3876afe, 0xe5f95617, 0x6f38a9cc, 0x1a640884))
  const G4 := Grid(
    Quad(0xce7e87d9, 0xc30e842c, 0x72e14c98, 0xa3424a31), Quad(0xa31ffb1b, 0x3b7f9ace, 0x416f21b9, 0x01b086da),
    Quad(0x6f562e4d, 0x88e11b18, 0x6753449f, 0xb8fd7b38), Quad(0x3684a3ab, 0x1e1a71ef, 0x19566d45, 0x42fe0c0e))
  const G5 := Grid(
    Quad(0x4e03490c, 0x50b4761b, 0x4f9f9d79, 0xb1f55cb5), Quad(0x97eebef9, 0xea7c9cf0, 0x44f52393, 0x05110aed),
    Quad(0xf682bb04, 0xb3a3e583, 0xabbfaf66, 0x561c5907), Quad(0x2f47e3b0, 0xe5bad8a8, 0x5efd347a, 0xd41d25b4))
  const G6 := Grid(
    Quad(0x092a7c36, 0xbbc32904, 0x79f86405, 0x2c9f623a), Quad(0x20d8f099, 0x1474e049, 0xc0e37ad2, 0x1969dea0),
    Quad(0x996bf24f, 0xa589007e, 0x3428e82c, 0x2fe80b61), Quad(0x6a62c0eb, 0x5f15ae2e, 0x798cfaac, 0xbe261341))
  const G7 := Grid(
    Quad(0x6ddf4b98, 0xdda3ea19, 0x46d58770, 0xaf4ad6e3), Quad(0x5fde0110, 0x46da35f5, 0xc0c8e4e6, 0xe6947902),
    Quad(0xd9ddb632, 0x31fb36ca, 0xba4b1657, 0x2681e5bb), Quad(0x7418250b, 0x70e56323, 0xc4702b5e, 0x28344e52))
  const G8 := Grid(
    Quad(0xf6eb4385, 0x71db97dd, 0x9e5243f3, 0x6b96a006), Quad(0x0f5070cf, 0x60cd994d, 0x16d0ee25, 0x477a37f7),
    Quad(0x824ac4d4, 0xad805036, 0x82e92b96, 0xd244fa8c), Quad(0xff026184, 0x89d591ce, 0xd0da8654, 0xb24c5c63))
  const G9 := Grid(
    Quad(0x0a49d0bb, 0x7c188159, 0x5b48a341, 0xc5d89a0b), Quad(0xfd73bfeb, 0x390f8b4d, 0x0861dff7, 0x9df1402c),
    Quad(0xc24392d4, 0x0a23271f, 0x5d33cdbb, 0xb08ab5e0), Quad(0xe110766d, 0x0e051682, 0x17d4372d, 0x85488580))
  const G10 := Grid(
    Quad(0x4c704011, 0xb819d2bd, 0x7c5941da, 0xf4b8436a), Quad(0x5d1d8d32, 0x1aed8da0, 0x8d485751, 0x1ca11815),
    Quad(0x6c08300e, 0xccef36a8, 0x3fe02477, 0x69b687c3), Quad(0xbd9d20df, 0xc70d778b, 0x374ad8b8, 0x8665eeb2))

  lemma Round0(x: State)
    requires Valued(x, G0)
    ensures Valued(DoubleRound(x), G1)
  {
    assert Doubled(G0) == G1;
    hide DoubleRound, Valued, Doubled;
    DoubleRoundIs(x, G0);
  }

  lemma Round1(x: State)
    requires Valued(x, G1)
    ensures Valued(DoubleRound(x), G2)
  {
    assert Doubled(G1) == G2;
    hide DoubleRound, Valued, Doubled;
    DoubleRoundIs(x, G1);
  }

  lemma Round2(x: State)
    requires Valued(x, G2)
    ensures Valued(DoubleRound(x), G3)
  {
    assert Doubled(G2) == G3;
    hide DoubleRound, Valued, Doubled;
    DoubleRoundIs(x, G2);
  }

  lemma Round3(x: State)
    requires Valued(x, G3)
    ensures Valued(DoubleRound(x), G4)
  {
    assert Doubled(G3) == G4;
    hide DoubleRound, Valued, Doubled;
    DoubleRoundIs(x, G3);
  }

  lemma Round4(x: State)
    requires Valued(x, G4)
    ensures Valued(DoubleRound(x), G5)
  {
    assert Doubled(G4) == G5;
    hide DoubleRound, Valued, Doubled;
    DoubleRoundIs(x, G4);
  }

  lemma Round5(x: State)
    requires Valued(x, G5)
    ensures Valued(DoubleRound(x), G6)
  {
    assert Doubled(G5) == G6;
    hide DoubleRound, Valued, Doubled;
    DoubleRoundIs(x, G5);
  }

  lemma Round6(x: State)
    requires Valued(x, G6)
    ensures Valued(DoubleRound(x), G7)
  {
    assert Doubled(G6) == G7;
    hide DoubleRound, Valued, Doubled;
    DoubleRoundIs(x, G6);
  }

  lemma Round7(x: State)
    requires Valued(x, G7)
    ensures Valued(DoubleRound(x), G8)
  {
    assert Doubled(G7) == G8;
    hide DoubleRound, Valued, Doubled;
    DoubleRoundIs(x, G7);
  }

  lemma Round8(x: State)
    requires Valued(x, G8)
    ensures Valued(DoubleRound(x), G9)
  {
    assert Doubled(G8) == G9;
    hide DoubleRound, Valued, Doubled;
    DoubleRoundIs(x, G8);
  }

  lemma Round9(x: State)
    requires Valued(x, G9)
    ensures Valued(DoubleRound(x), G10)
  {
    assert Doubled(G9) == G10;
    hide DoubleRound, Valued, Doubled;
    DoubleRoundIs(x, G9);
  }

  lemma TenRounds(x: State)
    requires Valued(x, G0)
    ensures Valued(Rounds(x, 10), G10)
  {
    hide Valued, DoubleRound, Rounds;
    RoundsStep(x);
    Round0(x);
    Round1(Rounds(x, 1));
    Round2(Rounds(x, 2));
    Round3(Rounds(x, 3));
    Round4(Rounds(x, 4));
    Round5(Rounds(x, 5));
    Round6(Rounds(x, 6));
    Round7(Rounds(x, 7));
    Round8(Rounds(x, 8));
    Round9(Rounds(x, 9));
  }

  lemma RoundsStep(x: State)
    ensures Rounds(x, 0) == x && forall n: nat :: Rounds(x, n + 1) == DoubleRound(Rounds(x, n))
  {
  }

  lemma {:induction false} ZeroWords(b: seq<u8>, n: nat)
    requires |b| == 4 * n && forall i :: 0 <= i < |b| ==> b[i] == 0
    ensures |WordsOf(b)| == n && forall i :: 0 <= i < n ==> WordsOf(b)[i] == 0
  {
    if n > 0 {
      ZeroWords(b[4..], n - 1);
      assert LE(b[..4]) == 0 by {
        assert b[..4] == [0, 0, 0, 0];
        assert Word([0, 0, 0, 0]) == 0;
      }
    }
  }

  // The words that come out: each word of the last state and of the first one together.
  const OUT: seq<u32> := [
    0xade0b876, 0x903df1a0, 0xe56a5d40, 0x28bd8653, 0xb819d2bd, 0x1aed8da0, 0xccef36a8, 0xc70d778b,
    0x7c5941da, 0x8d485751, 0x3fe02477, 0x374ad8b8, 0xf4b8436a, 0x1ca11815, 0x69b687c3, 0x8665eeb2]

  function WordOf(g: Grid, i: nat): bv32
    requires i < 16
  {
    var q := if i % 4 == 0 then g.c0 else if i % 4 == 1 then g.c1 else if i % 4 == 2 then g.c2 else g.c3;
    if i < 4 then q.a else if i < 8 then q.b else if i < 12 then q.c else q.d
  }

  lemma SumsAre(i: nat)
    requires i < 16
    ensures Value32(Plus(WordOf(G0, i), WordOf(G10, i))) == OUT[i]
  {
  }

  const KEYSTREAM: seq<seq<u8>> := [
    [0x76, 0xb8, 0xe0, 0xad], [0xa0, 0xf1, 0x3d, 0x90], [0x40, 0x5d, 0x6a, 0xe5], [0x53, 0x86, 0xbd, 0x28],
    [0xbd, 0xd2, 0x19, 0xb8], [0xa0, 0x8d, 0xed, 0x1a], [0xa8, 0x36, 0xef, 0xcc], [0x8b, 0x77, 0x0d, 0xc7],
    [0xda, 0x41, 0x59, 0x7c], [0x51, 0x57, 0x48, 0x8d], [0x77, 0x24, 0xe0, 0x3f], [0xb8, 0xd8, 0x4a, 0x37],
    [0x6a, 0x43, 0xb8, 0xf4], [0x15, 0x18, 0xa1, 0x1c], [0xc3, 0x87, 0xb6, 0x69], [0xb2, 0xee, 0x65, 0x86]]

  lemma RowIs(i: nat)
    requires i < 16
    ensures WordBytes(OUT[i]) == KEYSTREAM[i]
  {
    hide WordBytes;
    RowValue(i);
    BytesAre(OUT[i], KEYSTREAM[i]);
  }

  lemma RowValue(i: nat)
    requires i < 16
    ensures var b := KEYSTREAM[i];
            && |b| == 4
            && OUT[i] == b[0] as int + 0x100 * b[1] as int + 0x1_0000 * b[2] as int + 0x100_0000 * b[3] as int
  {
  }

  // Four bytes with the value of a word are its bytes.
  lemma BytesAre(w: u32, b: seq<u8>)
    requires |b| == 4 && w == b[0] as int + 0x100 * b[1] as int + 0x1_0000 * b[2] as int + 0x100_0000 * b[3] as int
    ensures WordBytes(w) == b
  {
    var w1 := b[1] as int + 0x100 * b[2] as int + 0x1_0000 * b[3] as int;
    var w2 := b[2] as int + 0x100 * b[3] as int;
    assert w == 0x100 * w1 + b[0] as int && w1 == 0x100 * w2 + b[1] as int;
    assert w % 0x100 == b[0] as int && w / 0x100 == w1;
    assert w1 % 0x100 == b[1] as int && w == 0x1_0000 * w2 + (0x100 * b[1] as int + b[0] as int);
    assert w / 0x1_0000 == w2 && w2 % 0x100 == b[2] as int;
    assert w / 0x100_0000 == b[3] as int;
  }

  lemma {:induction false} BytesOfAt(w: seq<u32>, i: nat)
    requires i < |w|
    ensures BytesOf(w)[4 * i..4 * i + 4] == WordBytes(w[i])
  {
    hide WordBytes;
    if i > 0 {
      BytesOfAt(w[1..], i - 1);
      assert BytesOf(w)[4 * i..4 * i + 4] == BytesOf(w[1..])[4 * (i - 1)..4 * (i - 1) + 4];
    }
  }

  // The key stream block of the zero key for nonce and counter zero.
  lemma ZeroKeyBlock(key: seq<u8>, nonce: seq<u8>)
    requires |key| == 32 && |nonce| == 12
    requires (forall i :: 0 <= i < 32 ==> key[i] == 0) && (forall i :: 0 <= i < 12 ==> nonce[i] == 0)
    ensures forall i :: 0 <= i < 16 ==> Block(key, 0, nonce)[4 * i..4 * i + 4] == KEYSTREAM[i]
  {
    hide Rounds, WordsOf, BytesOf, Plus, Value32, Add32, Valued, DoubleRound;
    ZeroWords(key, 8);
    ZeroWords(nonce, 3);
    var s: State := SIGMA + WordsOf(key) + [0] + WordsOf(nonce);
    FirstState(s);
    TenRounds(s);
    var x := Rounds(s, 10);
    forall i | 0 <= i < 16 ensures Add32(s[i], x[i]) == OUT[i] {
      WordsAdded(s, x, i);
    }
    assert seq(16, i requires 0 <= i < 16 => Add32(s[i], x[i])) == OUT;
    forall i | 0 <= i < 16 ensures BytesOf(OUT)[4 * i..4 * i + 4] == KEYSTREAM[i] {
      BytesOfAt(OUT, i);
      RowIs(i);
    }
  }

  // Sixty-four zero bytes are encrypted to the key stream itself.
  lemma ZeroKeyStream(key: seq<u8>, iv: seq<u8>, data: seq<u8>, i: nat)
    requires |key| == 32 && |iv| == 8 && |data| == 64 && i < 64
    requires forall k :: 0 <= k < 32 ==> key[k] == 0
    requires (forall k :: 0 <= k < 8 ==> iv[k] == 0) && forall k :: 0 <= k < 64 ==> data[k] == 0
    ensures |KEYSTREAM[i / 4]| == 4 && Stream(key, iv, 0, data)[i] == KEYSTREAM[i / 4][i % 4]
  {
    hide Block, KEYSTREAM, Xor, WordBytes;
    BytesAre(0, [0, 0, 0, 0]);
    var nonce := WordBytes(0) + iv;
    ZeroKeyBlock(key, nonce);
    RowIs(i / 4);
    XorWithZero(KeystreamByte(key, iv, 0, i));
    assert Block(key, 0, nonce)[4 * (i / 4)..4 * (i / 4) + 4][i % 4] == Block(key, 0, nonce)[i];
  }

  lemma FirstState(s: State)
    requires s[..4] == SIGMA && forall i :: 4 <= i < 16 ==> s[i] == 0
    ensures Valued(s, G0)
  {
    assert s[0] == SIGMA[0] && s[1] == SIGMA[1] && s[2] == SIGMA[2] && s[3] == SIGMA[3];
  }

  lemma ValuedAt(x: State, g: Grid, i: nat)
    requires Valued(x, g) && i < 16
    ensures x[i] == Value32(WordOf(g, i))
  {
    hide Value32;
  }

  lemma WordsAdded(s: State, x: State, i: nat)
    requires Valued(s, G0) && Valued(x, G10) && i < 16
    ensures Add32(s[i], x[i]) == OUT[i]
  {
    hide Plus, Value32, WordOf;
    ValuedAt(s, G0, i);
    ValuedAt(x, G10, i);
    PlusIs(WordOf(G0, i), WordOf(G10, i));
    SumsAre(i);
  }
}
