// An address the repository's own tests encode and decode, and an example of BIP 173 that uses every
// symbol, derived from the definitions the code is proved against.
module Bech32Answer {
  import opened Common
  import opened Radix
  import opened Regroup
  import opened Bech32Sum
  import opened Bech32

  // ----- the checksum of a row of symbols -----

  function Tapped(x: bv32, bit: bv32, g: bv32): bv32 {
    if x & bit != 0 then g else 0
  }

  // One step of the checksum, spelled out.
  function Fed(chk: bv32, c: nat): bv32
    requires c < 32
  {
    FedWord(chk, c as bv32)
  }

  function FedWord(chk: bv32, w: bv32): bv32 {
    X(X(X(X(X(X(Left(chk), Tapped(chk, 0x2000000, 0x3b6a57b2)), Tapped(chk, 0x4000000, 0x26508e6d)),
            Tapped(chk, 0x8000000, 0x1ea119fa)), Tapped(chk, 0x10000000, 0x3d4233dd)),
        Tapped(chk, 0x20000000, 0x2a1462b3)), w)
  }

  lemma TappedIs(x: bv32, g: bv32)
    ensures Tap(x, 25, g) == Tapped(x, 0x2000000, g) && Tap(x, 26, g) == Tapped(x, 0x4000000, g)
    ensures Tap(x, 27, g) == Tapped(x, 0x8000000, g) && Tap(x, 28, g) == Tapped(x, 0x10000000, g)
    ensures Tap(x, 29, g) == Tapped(x, 0x20000000, g)
  {
  }

  lemma FedWordIs(chk: bv32, w: bv32)
    ensures X(Polymod(chk), w) == FedWord(chk, w)
  {
    hide Tap, Tapped, Left, X;
    TappedIs(chk, 0x3b6a57b2);
    TappedIs(chk, 0x26508e6d);
    TappedIs(chk, 0x1ea119fa);
    TappedIs(chk, 0x3d4233dd);
    TappedIs(chk, 0x2a1462b3);
  }

  lemma FedIs(chk: bv32, c: nat)
    requires c < 32
    ensures X(Polymod(chk), Bech32Sum.Word(c)) == Fed(chk, c)
  {
    hide X, Polymod, FedWord;
    FedWordIs(chk, Bech32Sum.Word(c));
  }

  lemma NothingFed(chk: bv32)
    ensures Feed(chk, []) == chk
  {
  }

  lemma FeedMore(chk: bv32, s: seq<nat>, c: nat) returns (t: seq<nat>)
    requires Proper(32, s) && c < 32
    ensures t == s + [c] && Proper(32, t) && Feed(chk, t) == Fed(Feed(chk, s), c)
  {
    FedIs(Feed(chk, s), c);
    hide Polymod, Bech32Sum.Word, X, Fed;
    t := s + [c];
    assert t[..|t| - 1] == s;
  }

  lemma FeedRow5(chk: bv32, a: nat, b: nat, c: nat, d: nat, e: nat)
    requires a < 32 && b < 32 && c < 32 && d < 32 && e < 32
    ensures Feed(chk, [a, b, c, d, e])
            == Fed(Fed(Fed(Fed(Fed(chk, a), b), c), d), e)
  {
    hide Feed, Fed;
    var x := FeedMore(chk, [], a);
    NothingFed(chk);
    x := FeedMore(chk, x, b);
    x := FeedMore(chk, x, c);
    x := FeedMore(chk, x, d);
    x := FeedMore(chk, x, e);
    assert x == [a, b, c, d, e];
  }

  lemma FeedRow6(chk: bv32, a: nat, b: nat, c: nat, d: nat, e: nat, f: nat)
    requires a < 32 && b < 32 && c < 32 && d < 32 && e < 32 && f < 32
    ensures Feed(chk, [a, b, c, d, e, f])
            == Fed(Fed(Fed(Fed(Fed(Fed(chk, a), b), c), d), e), f)
  {
    hide Feed, Fed;
    var x := FeedMore(chk, [], a);
    NothingFed(chk);
    x := FeedMore(chk, x, b);
    x := FeedMore(chk, x, c);
    x := FeedMore(chk, x, d);
    x := FeedMore(chk, x, e);
    x := FeedMore(chk, x, f);
    assert x == [a, b, c, d, e, f];
  }

  lemma FeedRow8(chk: bv32, a: nat, b: nat, c: nat, d: nat, e: nat, f: nat, g: nat, h: nat)
    requires a < 32 && b < 32 && c < 32 && d < 32 && e < 32 && f < 32 && g < 32 && h < 32
    ensures Feed(chk, [a, b, c, d, e, f, g, h])
            == Fed(Fed(Fed(Fed(Fed(Fed(Fed(Fed(chk, a), b), c), d), e), f), g), h)
  {
    hide Feed, Fed;
    var x := FeedMore(chk, [], a);
    NothingFed(chk);
    x := FeedMore(chk, x, b);
    x := FeedMore(chk, x, c);
    x := FeedMore(chk, x, d);
    x := FeedMore(chk, x, e);
    x := FeedMore(chk, x, f);
    x := FeedMore(chk, x, g);
    x := FeedMore(chk, x, h);
    assert x == [a, b, c, d, e, f, g, h];
  }

  // ----- reading a row of characters -----

  lemma NothingRead()
    ensures Read("") == Some([])
  {
  }

  lemma ReadMore(s: string, t: seq<nat>, c: char) returns (u: string, v: seq<nat>)
    requires Read(s) == Some(t) && SymbolOf(c) < 32
    ensures u == s + [c] && v == t + [SymbolOf(c)] && Read(u) == Some(v)
  {
    hide SymbolOf;
    u, v := s + [c], t + [SymbolOf(c)];
    assert u[..|u| - 1] == s;
  }

  lemma ReadRow6(a: char, b: char, c: char, d: char, e: char, f: char)
    requires SymbolOf(a) < 32 && SymbolOf(b) < 32 && SymbolOf(c) < 32 && SymbolOf(d) < 32
    requires SymbolOf(e) < 32 && SymbolOf(f) < 32
    ensures Read([a, b, c, d, e, f])
            == Some([SymbolOf(a), SymbolOf(b), SymbolOf(c), SymbolOf(d),
                     SymbolOf(e), SymbolOf(f)])
  {
    hide SymbolOf, Read;
    NothingRead();
    var u, v := ReadMore("", [], a);
    u, v := ReadMore(u, v, b);
    u, v := ReadMore(u, v, c);
    u, v := ReadMore(u, v, d);
    u, v := ReadMore(u, v, e);
    u, v := ReadMore(u, v, f);
    assert u == [a, b, c, d, e, f];
    assert v == [SymbolOf(a), SymbolOf(b), SymbolOf(c), SymbolOf(d),
                 SymbolOf(e), SymbolOf(f)];
  }

  lemma ReadRow8(a: char, b: char, c: char, d: char, e: char, f: char, g: char, h: char)
    requires SymbolOf(a) < 32 && SymbolOf(b) < 32 && SymbolOf(c) < 32 && SymbolOf(d) < 32
    requires SymbolOf(e) < 32 && SymbolOf(f) < 32 && SymbolOf(g) < 32 && SymbolOf(h) < 32
    ensures Read([a, b, c, d, e, f, g, h])
            == Some([SymbolOf(a), SymbolOf(b), SymbolOf(c), SymbolOf(d),
                     SymbolOf(e), SymbolOf(f), SymbolOf(g), SymbolOf(h)])
  {
    hide SymbolOf, Read;
    NothingRead();
    var u, v := ReadMore("", [], a);
    u, v := ReadMore(u, v, b);
    u, v := ReadMore(u, v, c);
    u, v := ReadMore(u, v, d);
    u, v := ReadMore(u, v, e);
    u, v := ReadMore(u, v, f);
    u, v := ReadMore(u, v, g);
    u, v := ReadMore(u, v, h);
    assert u == [a, b, c, d, e, f, g, h];
    assert v == [SymbolOf(a), SymbolOf(b), SymbolOf(c), SymbolOf(d),
                 SymbolOf(e), SymbolOf(f), SymbolOf(g), SymbolOf(h)];
  }

  lemma {:induction false} ReadConcat(a: string, b: string)
    requires Read(a).Some? && Read(b).Some?
    ensures Read(a + b) == Some(Read(a).value + Read(b).value)
  {
    hide SymbolOf;
    if b == "" {
      assert a + b == a && Read(a).value + [] == Read(a).value;
    } else {
      assert (a + b)[..|a + b| - 1] == a + b[..|b| - 1];
      ReadConcat(a, b[..|b| - 1]);
      assert Read(a).value + Read(b).value
             == Read(a).value + Read(b[..|b| - 1]).value + [SymbolOf(b[|b| - 1])];
    }
  }

  // ----- every symbol once -----

  lemma HighRow()
    ensures Feed(0x00000001, [3, 3, 3, 3, 3, 3, 0, 1]) == 0x3dc7154c
  {
    hide Feed;
    assert FedWord(0x00000001, 3) == 0x00000023 && FedWord(0x00000023, 3) == 0x00000463;
    assert FedWord(0x00000463, 3) == 0x00008c63 && FedWord(0x00008c63, 3) == 0x00118c63;
    assert FedWord(0x00118c63, 3) == 0x02318c63 && FedWord(0x02318c63, 3) == 0x3d5bdbd1;
    assert FedWord(0x3d5bdbd1, 0) == 0x04dcbcd9 && FedWord(0x04dcbcd9, 1) == 0x3dc7154c;
    hide FedWord;
    FeedRow8(0x00000001, 3, 3, 3, 3, 3, 3, 0, 1);
  }

  lemma LowRow()
    ensures Feed(0x3dc7154c, [2, 3, 4, 5, 6]) == 0x3be80e6a
  {
    hide Feed;
    assert FedWord(0x3dc7154c, 2) == 0x17456f7b && FedWord(0x17456f7b, 3) == 0x08d50561;
    assert FedWord(0x08d50561, 4) == 0x0401b5de && FedWord(0x0401b5de, 5) == 0x266635a8;
    assert FedWord(0x266635a8, 6) == 0x3be80e6a;
    hide FedWord;
    FeedRow5(0x3dc7154c, 2, 3, 4, 5, 6);
  }

  lemma SymbolRow0()
    ensures Feed(0x3be80e6a, [0, 1, 2, 3, 4, 5, 6, 7]) == 0x11e88668
  {
    hide Feed;
    assert FedWord(0x3be80e6a, 0) == 0x0f9cd266 && FedWord(0x0f9cd266, 1) == 0x30018ce4;
    assert FedWord(0x30018ce4, 2) == 0x1767cdec && FedWord(0x1767cdec, 3) == 0x0c815781;
    assert FedWord(0x0c815781, 4) == 0x28db67b3 && FedWord(0x28db67b3, 5) == 0x2fd98d2c;
    assert FedWord(0x2fd98d2c, 6) == 0x12be0710 && FedWord(0x12be0710, 7) == 0x11e88668;
    hide FedWord;
    FeedRow8(0x3be80e6a, 0, 1, 2, 3, 4, 5, 6, 7);
  }

  lemma SymbolRow1()
    ensures Feed(0x11e88668, [8, 9, 10, 11, 12, 13, 14, 15]) == 0x31223f8a
  {
    hide Feed;
    assert FedWord(0x11e88668, 8) == 0x0052fed5 && FedWord(0x0052fed5, 9) == 0x0a5fdaa9;
    assert FedWord(0x0a5fdaa9, 10) == 0x2e301b62 && FedWord(0x2e301b62, 11) == 0x2f8ccedd;
    assert FedWord(0x2f8ccedd, 12) == 0x1816793a && FedWord(0x1816793a, 13) == 0x212c0d6a;
    assert FedWord(0x212c0d6a, 14) == 0x0f95cffd && FedWord(0x0f95cffd, 15) == 0x31223f8a;
    hide FedWord;
    FeedRow8(0x11e88668, 8, 9, 10, 11, 12, 13, 14, 15);
  }

  lemma SymbolRow2()
    ensures Feed(0x31223f8a, [16, 17, 18, 19, 20, 21, 22, 23]) == 0x297c48e0
  {
    hide Feed;
    assert FedWord(0x31223f8a, 16) == 0x3311a03e && FedWord(0x3311a03e, 17) == 0x0e08010d;
    assert FedWord(0x0e08010d, 18) == 0x029be197 && FedWord(0x029be197, 19) == 0x28166541;
    assert FedWord(0x28166541, 20) == 0x3679d37d && FedWord(0x3679d37d, 21) == 0x0556e704;
    assert FedWord(0x0556e704, 22) == 0x0c8c6efb && FedWord(0x0c8c6efb, 23) == 0x297c48e0;
    hide FedWord;
    FeedRow8(0x31223f8a, 16, 17, 18, 19, 20, 21, 22, 23);
  }

  lemma SymbolRow3()
    ensures Feed(0x297c48e0, [24, 25, 26, 27, 28, 29, 30, 31]) == 0x1a0d3656
  {
    hide Feed;
    assert FedWord(0x297c48e0, 24) == 0x1b3c6751 && FedWord(0x1b3c6751, 25) == 0x3f0597ac;
    assert FedWord(0x3f0597ac, 26) == 0x347f64d1 && FedWord(0x347f64d1, 27) == 0x3eea4538;
    assert FedWord(0x3eea4538, 28) == 0x09853657 && FedWord(0x09853657, 29) == 0x2e07d307;
    assert FedWord(0x2e07d307, 30) == 0x2975c268 && FedWord(0x2975c268, 31) == 0x1a0d3656;
    hide FedWord;
    FeedRow8(0x297c48e0, 24, 25, 26, 27, 28, 29, 30, 31);
  }

  lemma SumRow()
    ensures Feed(0x1a0d3656, [27, 0, 0, 0, 6, 14]) == 0x00000001
  {
    hide Feed;
    assert FedWord(0x1a0d3656, 27) == 0x192fb74e && FedWord(0x192fb74e, 0) == 0x0615c3e7;
    assert FedWord(0x0615c3e7, 0) == 0x1f82a53f && FedWord(0x1f82a53f, 0) == 0x0e8d5418;
    assert FedWord(0x0e8d5418, 6) == 0x12314323 && FedWord(0x12314323, 14) == 0x00000001;
    hide FedWord;
    FeedRow6(0x1a0d3656, 27, 0, 0, 0, 6, 14);
  }

  lemma CharRow0()
    ensures Read("qpzry9x8") == Some([0, 1, 2, 3, 4, 5, 6, 7])
  {
    assert SymbolOf('q') == 0 && SymbolOf('p') == 1 && SymbolOf('z') == 2 && SymbolOf('r') == 3;
    assert SymbolOf('y') == 4 && SymbolOf('9') == 5 && SymbolOf('x') == 6 && SymbolOf('8') == 7;
    hide SymbolOf, Read;
    ReadRow8('q', 'p', 'z', 'r', 'y', '9', 'x', '8');
    assert "qpzry9x8" == ['q', 'p', 'z', 'r', 'y', '9', 'x', '8'];
  }

  lemma CharRow1()
    ensures Read("gf2tvdw0") == Some([8, 9, 10, 11, 12, 13, 14, 15])
  {
    assert SymbolOf('g') == 8 && SymbolOf('f') == 9 && SymbolOf('2') == 10 && SymbolOf('t') == 11;
    assert SymbolOf('v') == 12 && SymbolOf('d') == 13 && SymbolOf('w') == 14 && SymbolOf('0') == 15;
    hide SymbolOf, Read;
    ReadRow8('g', 'f', '2', 't', 'v', 'd', 'w', '0');
    assert "gf2tvdw0" == ['g', 'f', '2', 't', 'v', 'd', 'w', '0'];
  }

  lemma CharRow2()
    ensures Read("s3jn54kh") == Some([16, 17, 18, 19, 20, 21, 22, 23])
  {
    assert SymbolOf('s') == 16 && SymbolOf('3') == 17 && SymbolOf('j') == 18 && SymbolOf('n') == 19;
    assert SymbolOf('5') == 20 && SymbolOf('4') == 21 && SymbolOf('k') == 22 && SymbolOf('h') == 23;
    hide SymbolOf, Read;
    ReadRow8('s', '3', 'j', 'n', '5', '4', 'k', 'h');
    assert "s3jn54kh" == ['s', '3', 'j', 'n', '5', '4', 'k', 'h'];
  }

  lemma CharRow3()
    ensures Read("ce6mua7l") == Some([24, 25, 26, 27, 28, 29, 30, 31])
  {
    assert SymbolOf('c') == 24 && SymbolOf('e') == 25 && SymbolOf('6') == 26 && SymbolOf('m') == 27;
    assert SymbolOf('u') == 28 && SymbolOf('a') == 29 && SymbolOf('7') == 30 && SymbolOf('l') == 31;
    hide SymbolOf, Read;
    ReadRow8('c', 'e', '6', 'm', 'u', 'a', '7', 'l');
    assert "ce6mua7l" == ['c', 'e', '6', 'm', 'u', 'a', '7', 'l'];
  }

  lemma SumChars()
    ensures Read("mqqqxw") == Some([27, 0, 0, 0, 6, 14])
  {
    assert SymbolOf('m') == 27 && SymbolOf('q') == 0 && SymbolOf('q') == 0 && SymbolOf('q') == 0;
    assert SymbolOf('x') == 6 && SymbolOf('w') == 14;
    hide SymbolOf, Read;
    ReadRow6('m', 'q', 'q', 'q', 'x', 'w');
    assert "mqqqxw" == ['m', 'q', 'q', 'q', 'x', 'w'];
  }

  lemma ExampleHead()
    ensures Expanded("abcdef") == [3, 3, 3, 3, 3, 3, 0, 1] + [2, 3, 4, 5, 6]
  {
    ExpandedSix('a', 'b', 'c', 'd', 'e', 'f');
    assert "abcdef" == ['a', 'b', 'c', 'd', 'e', 'f'];
  }

  lemma ExpandedSix(a: char, b: char, c: char, d: char, e: char, f: char)
    requires Visible(a) && Visible(b) && Visible(c) && Visible(d) && Visible(e) && Visible(f)
    ensures Printable([a, b, c, d, e, f])
    ensures Expanded([a, b, c, d, e, f])
            == [a as int / 32, b as int / 32, c as int / 32, d as int / 32, e as int / 32, f as int / 32, 0]
               + [a as int % 32, b as int % 32, c as int % 32, d as int % 32, e as int % 32, f as int % 32]
  {
    hide Highs, Lows;
    NoParts();
    var s := PartsMore([], a);
    s := PartsMore(s, b);
    s := PartsMore(s, c);
    s := PartsMore(s, d);
    s := PartsMore(s, e);
    s := PartsMore(s, f);
    assert s == [a, b, c, d, e, f];
  }

  predicate Visible(c: char) {
    33 as char <= c <= 126 as char
  }

  lemma NoParts()
    ensures Highs([]) == [] && Lows([]) == []
  {
  }

  lemma PartsMore(s: string, c: char) returns (u: string)
    requires Printable(s) && Visible(c)
    ensures u == s + [c] && Printable(u)
    ensures Highs(u) == Highs(s) + [c as int / 32] && Lows(u) == Lows(s) + [c as int % 32]
  {
    u := s + [c];
    assert u[..|s|] == s;
  }

  lemma Associate(a: seq<nat>, b: seq<nat>, c: seq<nat>)
    ensures a + (b + c) == a + b + c
  {
  }

  // Rows fed one after another.
  lemma FeedRows(a: seq<nat>, b: seq<nat>, c: seq<nat>, d: seq<nat>, e: seq<nat>, f: seq<nat>, g: seq<nat>)
    requires Proper(32, a) && Proper(32, b) && Proper(32, c) && Proper(32, d) && Proper(32, e) && Proper(32, f)
    requires Proper(32, g)
    ensures Feed(1, (a + b) + (c + d + e + f + g))
            == Feed(Feed(Feed(Feed(Feed(Feed(Feed(1, a), b), c), d), e), f), g)
  {
    hide Feed;
    FeedConcat(1, a, b);
    FeedConcat(1, a + b, c);
    FeedConcat(1, a + b + c, d);
    FeedConcat(1, a + b + c + d, e);
    FeedConcat(1, a + b + c + d + e, f);
    FeedConcat(1, a + b + c + d + e + f, g);
    Associate(a + b, c + d + e + f, g);
    Associate(a + b, c + d + e, f);
    Associate(a + b, c + d, e);
    Associate(a + b, c, d);
  }

  function AllSymbols(): seq<nat> {
    [0, 1, 2, 3, 4, 5, 6, 7] + [8, 9, 10, 11, 12, 13, 14, 15] + [16, 17, 18, 19, 20, 21, 22, 23]
    + [24, 25, 26, 27, 28, 29, 30, 31] + [27, 0, 0, 0, 6, 14]
  }

  // An example of BIP 173 whose data are all 32 symbols in order: its checksum is right.
  lemma AllSymbolsCheck()
    ensures Proper(32, AllSymbols()) && Checks(Expanded("abcdef"), AllSymbols())
  {
    hide Feed, Expanded, Proper;
    ExampleHead();
    HighRow();
    LowRow();
    SymbolRow0();
    SymbolRow1();
    SymbolRow2();
    SymbolRow3();
    SumRow();
    AllProper();
    FeedRows([3, 3, 3, 3, 3, 3, 0, 1], [2, 3, 4, 5, 6], [0, 1, 2, 3, 4, 5, 6, 7], [8, 9, 10, 11, 12, 13, 14, 15],
             [16, 17, 18, 19, 20, 21, 22, 23], [24, 25, 26, 27, 28, 29, 30, 31], [27, 0, 0, 0, 6, 14]);
  }

  lemma AllProper()
    ensures Proper(32, AllSymbols()) && forall k :: 0 <= k < 32 ==> AllSymbols()[k] == k
    ensures Proper(32, [3, 3, 3, 3, 3, 3, 0, 1]) && Proper(32, [2, 3, 4, 5, 6])
    ensures Proper(32, [0, 1, 2, 3, 4, 5, 6, 7]) && Proper(32, [8, 9, 10, 11, 12, 13, 14, 15])
    ensures Proper(32, [16, 17, 18, 19, 20, 21, 22, 23]) && Proper(32, [24, 25, 26, 27, 28, 29, 30, 31])
    ensures Proper(32, [27, 0, 0, 0, 6, 14])
  {
  }

  lemma AllSymbolsRead()
    ensures Read("qpzry9x8" + "gf2tvdw0" + "s3jn54kh" + "ce6mua7l" + "mqqqxw") == Some(AllSymbols())
  {
    hide Read;
    CharRow0();
    CharRow1();
    CharRow2();
    CharRow3();
    SumChars();
    ReadConcat("qpzry9x8", "gf2tvdw0");
    ReadConcat("qpzry9x8" + "gf2tvdw0", "s3jn54kh");
    ReadConcat("qpzry9x8" + "gf2tvdw0" + "s3jn54kh", "ce6mua7l");
    ReadConcat("qpzry9x8" + "gf2tvdw0" + "s3jn54kh" + "ce6mua7l", "mqqqxw");
  }

  // ----- an address -----

  // The witness program of a public key hash, and the symbols that carry it.
  function KeyHash(): seq<nat> {
    [0x75, 0x1e, 0x76, 0xe8, 0x19] + [0x91, 0x96, 0xd4, 0x54, 0x94]
    + [0x1c, 0x45, 0xd1, 0xb3, 0xa3] + [0x23, 0xf1, 0x43, 0x3b, 0xd6]
  }

  function KeySymbols(): seq<nat> {
    [14, 20, 15, 7, 13, 26, 0, 25] + [18, 6, 11, 13, 8, 21, 4, 20]
    + [3, 17, 2, 29, 3, 12, 29, 3] + [4, 15, 24, 20, 6, 14, 30, 22]
  }

  lemma Group0()
    ensures Value(32, [14, 20, 15, 7, 13, 26, 0, 25]) == Value(256, [0x75, 0x1e, 0x76, 0xe8, 0x19])
  {
    EightFives(14, 20, 15, 7, 13, 26, 0, 25);
    FiveBytes(0x75, 0x1e, 0x76, 0xe8, 0x19);
  }

  lemma Group1()
    ensures Value(32, [18, 6, 11, 13, 8, 21, 4, 20]) == Value(256, [0x91, 0x96, 0xd4, 0x54, 0x94])
  {
    EightFives(18, 6, 11, 13, 8, 21, 4, 20);
    FiveBytes(0x91, 0x96, 0xd4, 0x54, 0x94);
  }

  lemma Group2()
    ensures Value(32, [3, 17, 2, 29, 3, 12, 29, 3]) == Value(256, [0x1c, 0x45, 0xd1, 0xb3, 0xa3])
  {
    EightFives(3, 17, 2, 29, 3, 12, 29, 3);
    FiveBytes(0x1c, 0x45, 0xd1, 0xb3, 0xa3);
  }

  lemma Group3()
    ensures Value(32, [4, 15, 24, 20, 6, 14, 30, 22]) == Value(256, [0x23, 0xf1, 0x43, 0x3b, 0xd6])
  {
    EightFives(4, 15, 24, 20, 6, 14, 30, 22);
    FiveBytes(0x23, 0xf1, 0x43, 0x3b, 0xd6);
  }

  lemma EightFives(a: nat, b: nat, c: nat, d: nat, e: nat, f: nat, g: nat, h: nat)
    ensures Value(32, [a, b, c, d, e, f, g, h])
            == ((((((a * 32 + b) * 32 + c) * 32 + d) * 32 + e) * 32 + f) * 32 + g) * 32 + h
  {
    hide Value;
    NoValue(32);
    var s := ValueMore(32, [], a);
    s := ValueMore(32, s, b);
    s := ValueMore(32, s, c);
    s := ValueMore(32, s, d);
    s := ValueMore(32, s, e);
    s := ValueMore(32, s, f);
    s := ValueMore(32, s, g);
    s := ValueMore(32, s, h);
    assert s == [a, b, c, d, e, f, g, h];
  }

  lemma FiveBytes(a: nat, b: nat, c: nat, d: nat, e: nat)
    ensures Value(256, [a, b, c, d, e])
            == (((a * 256 + b) * 256 + c) * 256 + d) * 256 + e
  {
    hide Value;
    NoValue(256);
    var s := ValueMore(256, [], a);
    s := ValueMore(256, s, b);
    s := ValueMore(256, s, c);
    s := ValueMore(256, s, d);
    s := ValueMore(256, s, e);
    assert s == [a, b, c, d, e];
  }

  lemma NoValue(base: nat)
    ensures Value(base, []) == 0
  {
  }

  lemma ValueMore(base: nat, s: seq<nat>, c: nat) returns (t: seq<nat>)
    ensures t == s + [c] && Value(base, t) == Value(base, s) * base + c
  {
    t := s + [c];
    assert t[..|t| - 1] == s;
  }

  // Eight symbols are as much as five bytes.
  lemma FortyBits()
    ensures Pow(32, 8) == 0x100_0000_0000 && Pow(256, 5) == 0x100_0000_0000
  {
    assert Pow(32, 4) == 0x10_0000 && Pow(32, 8) == 32 * (32 * (32 * (32 * Pow(32, 4))));
    assert Pow(256, 3) == 0x100_0000 && Pow(256, 5) == 256 * (256 * Pow(256, 3));
  }

  lemma Appended(s: seq<nat>, b: seq<nat>, r: seq<nat>, c: seq<nat>)
    requires Value(32, s) == Value(256, b) && Value(32, r) == Value(256, c) && |r| == 8 && |c| == 5
    ensures Value(32, s + r) == Value(256, b + c)
  {
    hide Value, Pow;
    FortyBits();
    ValueConcat(32, s, r);
    ValueConcat(256, b, c);
  }

  lemma SameValue()
    ensures Value(32, KeySymbols()) == Value(256, KeyHash())
  {
    hide Value;
    Group0();
    Group1();
    Group2();
    Group3();
    Appended([14, 20, 15, 7, 13, 26, 0, 25], [0x75, 0x1e, 0x76, 0xe8, 0x19],
             [18, 6, 11, 13, 8, 21, 4, 20], [0x91, 0x96, 0xd4, 0x54, 0x94]);
    Appended([14, 20, 15, 7, 13, 26, 0, 25] + [18, 6, 11, 13, 8, 21, 4, 20],
             [0x75, 0x1e, 0x76, 0xe8, 0x19] + [0x91, 0x96, 0xd4, 0x54, 0x94],
             [3, 17, 2, 29, 3, 12, 29, 3], [0x1c, 0x45, 0xd1, 0xb3, 0xa3]);
    Appended([14, 20, 15, 7, 13, 26, 0, 25] + [18, 6, 11, 13, 8, 21, 4, 20] + [3, 17, 2, 29, 3, 12, 29, 3],
             [0x75, 0x1e, 0x76, 0xe8, 0x19] + [0x91, 0x96, 0xd4, 0x54, 0x94]
             + [0x1c, 0x45, 0xd1, 0xb3, 0xa3],
             [4, 15, 24, 20, 6, 14, 30, 22], [0x23, 0xf1, 0x43, 0x3b, 0xd6]);
  }

  lemma KeyFives()
    ensures Proper(256, KeyHash()) && |KeyHash()| == 20 && ToFives(KeyHash()) == KeySymbols()
  {
    assert |KeySymbols()| == 32 && Proper(32, KeySymbols());
    hide Value, Fives;
    SameValue();
    FivesOfValue(KeySymbols());
  }

  lemma NetRow()
    ensures Feed(0x00000001, [3, 3, 0, 2, 3]) == 0x02318043
  {
    hide Feed;
    assert FedWord(0x00000001, 3) == 0x00000023 && FedWord(0x00000023, 3) == 0x00000463;
    assert FedWord(0x00000463, 0) == 0x00008c60 && FedWord(0x00008c60, 2) == 0x00118c02;
    assert FedWord(0x00118c02, 3) == 0x02318043;
    hide FedWord;
    FeedRow5(0x00000001, 3, 3, 0, 2, 3);
  }

  lemma VersionRow()
    ensures Feed(0x02318043, [0]) == 0x3d5a5fd2
  {
    hide Feed;
    assert FedWord(0x02318043, 0) == 0x3d5a5fd2;
    hide FedWord;
    FeedRow1(0x02318043, 0);
  }

  lemma KeyRow0()
    ensures Feed(0x3d5a5fd2, [14, 20, 15, 7, 13, 26, 0, 25]) == 0x2b1bcbce
  {
    hide Feed;
    assert FedWord(0x3d5a5fd2, 14) == 0x04ec3cb7 && FedWord(0x04ec3cb7, 20) == 0x3bd71899;
    assert FedWord(0x3bd71899, 15) == 0x087e0c09 && FedWord(0x087e0c09, 7) == 0x116098dd;
    assert FedWord(0x116098dd, 13) == 0x11512870 && FedWord(0x11512870, 26) == 0x17673dc7;
    assert FedWord(0x17673dc7, 0) == 0x0c9f52e2 && FedWord(0x0c9f52e2, 25) == 0x2b1bcbce;
    hide FedWord;
    FeedRow8(0x3d5a5fd2, 14, 20, 15, 7, 13, 26, 0, 25);
  }

  lemma KeyRow1()
    ensures Feed(0x2b1bcbce, [18, 6, 11, 13, 8, 21, 4, 20]) == 0x23a1ff4b
  {
    hide Feed;
    assert FedWord(0x2b1bcbce, 18) == 0x2ca65529 && FedWord(0x2ca65529, 6) == 0x062f5002;
    assert FedWord(0x062f5002, 11) == 0x18d0d994 && FedWord(0x18d0d994, 13) == 0x39f818aa;
    assert FedWord(0x39f818aa, 8) == 0x36f45ddc && FedWord(0x36f45ddc, 21) == 0x14e73324;
    assert FedWord(0x14e73324, 4) == 0x07f4d934 && FedWord(0x07f4d934, 20) == 0x23a1ff4b;
    hide FedWord;
    FeedRow8(0x2b1bcbce, 18, 6, 11, 13, 8, 21, 4, 20);
  }

  lemma KeyRow2()
    ensures Feed(0x23a1ff4b, [3, 17, 2, 29, 3, 12, 29, 3]) == 0x2a387174
  {
    hide Feed;
    assert FedWord(0x23a1ff4b, 3) == 0x2541dc62 && FedWord(0x2541dc62, 17) == 0x247f608f;
    assert FedWord(0x247f608f, 2) == 0x03a8fd3c && FedWord(0x03a8fd3c, 29) == 0x0e75f02f;
    assert FedWord(0x0e75f02f, 3) == 0x0d25c5c6 && FedWord(0x0d25c5c6, 12) == 0x1c492f5b;
    assert FedWord(0x1c492f5b, 29) == 0x0c964f37 && FedWord(0x0c964f37, 3) == 0x2a387174;
    hide FedWord;
    FeedRow8(0x23a1ff4b, 3, 17, 2, 29, 3, 12, 29, 3);
  }

  lemma KeyRow3()
    ensures Feed(0x2a387174, [4, 15, 24, 20, 6, 14, 30, 22]) == 0x0979c4ed
  {
    hide Feed;
    assert FedWord(0x2a387174, 4) == 0x08d1027f && FedWord(0x08d1027f, 15) == 0x04815615;
    assert FedWord(0x04815615, 24) == 0x367a4cd5 && FedWord(0x367a4cd5, 20) == 0x05251205;
    assert FedWord(0x05251205, 6) == 0x02f2cecb && FedWord(0x02f2cecb, 14) == 0x25338edc;
    assert FedWord(0x25338edc, 30) == 0x2a353740 && FedWord(0x2a353740, 22) == 0x0979c4ed;
    hide FedWord;
    FeedRow8(0x2a387174, 4, 15, 24, 20, 6, 14, 30, 22);
  }

  lemma KeySumRow()
    ensures Feed(0x0979c4ed, [12, 7, 9, 17, 11, 21]) == 0x00000001
  {
    hide Feed;
    assert FedWord(0x0979c4ed, 12) == 0x31998456 && FedWord(0x31998456, 7) == 0x2466dba9;
    assert FedWord(0x2466dba9, 9) == 0x009f99f7 && FedWord(0x009f99f7, 17) == 0x13f33ef1;
    assert FedWord(0x13f33ef1, 11) == 0x384fba44 && FedWord(0x384fba44, 21) == 0x00000001;
    hide FedWord;
    FeedRow6(0x0979c4ed, 12, 7, 9, 17, 11, 21);
  }

  lemma FeedRow1(chk: bv32, a: nat)
    requires a < 32
    ensures Feed(chk, [a])
            == Fed(chk, a)
  {
    hide Feed, Fed;
    var x := FeedMore(chk, [], a);
    NothingFed(chk);
    assert x == [a];
  }

  lemma KeyChars0()
    ensures Read("w508d6qe") == Some([14, 20, 15, 7, 13, 26, 0, 25])
  {
    assert SymbolOf('w') == 14 && SymbolOf('5') == 20 && SymbolOf('0') == 15 && SymbolOf('8') == 7;
    assert SymbolOf('d') == 13 && SymbolOf('6') == 26 && SymbolOf('q') == 0 && SymbolOf('e') == 25;
    hide SymbolOf, Read;
    ReadRow8('w', '5', '0', '8', 'd', '6', 'q', 'e');
    assert "w508d6qe" == ['w', '5', '0', '8', 'd', '6', 'q', 'e'];
  }

  lemma KeyChars1()
    ensures Read("jxtdg4y5") == Some([18, 6, 11, 13, 8, 21, 4, 20])
  {
    assert SymbolOf('j') == 18 && SymbolOf('x') == 6 && SymbolOf('t') == 11 && SymbolOf('d') == 13;
    assert SymbolOf('g') == 8 && SymbolOf('4') == 21 && SymbolOf('y') == 4 && SymbolOf('5') == 20;
    hide SymbolOf, Read;
    ReadRow8('j', 'x', 't', 'd', 'g', '4', 'y', '5');
    assert "jxtdg4y5" == ['j', 'x', 't', 'd', 'g', '4', 'y', '5'];
  }

  lemma KeyChars2()
    ensures Read("r3zarvar") == Some([3, 17, 2, 29, 3, 12, 29, 3])
  {
    assert SymbolOf('r') == 3 && SymbolOf('3') == 17 && SymbolOf('z') == 2 && SymbolOf('a') == 29;
    assert SymbolOf('r') == 3 && SymbolOf('v') == 12 && SymbolOf('a') == 29 && SymbolOf('r') == 3;
    hide SymbolOf, Read;
    ReadRow8('r', '3', 'z', 'a', 'r', 'v', 'a', 'r');
    assert "r3zarvar" == ['r', '3', 'z', 'a', 'r', 'v', 'a', 'r'];
  }

  lemma KeyChars3()
    ensures Read("y0c5xw7k") == Some([4, 15, 24, 20, 6, 14, 30, 22])
  {
    assert SymbolOf('y') == 4 && SymbolOf('0') == 15 && SymbolOf('c') == 24 && SymbolOf('5') == 20;
    assert SymbolOf('x') == 6 && SymbolOf('w') == 14 && SymbolOf('7') == 30 && SymbolOf('k') == 22;
    hide SymbolOf, Read;
    ReadRow8('y', '0', 'c', '5', 'x', 'w', '7', 'k');
    assert "y0c5xw7k" == ['y', '0', 'c', '5', 'x', 'w', '7', 'k'];
  }

  lemma KeySumChars()
    ensures Read("v8f3t4") == Some([12, 7, 9, 17, 11, 21])
  {
    assert SymbolOf('v') == 12 && SymbolOf('8') == 7 && SymbolOf('f') == 9 && SymbolOf('3') == 17;
    assert SymbolOf('t') == 11 && SymbolOf('4') == 21;
    hide SymbolOf, Read;
    ReadRow6('v', '8', 'f', '3', 't', '4');
    assert "v8f3t4" == ['v', '8', 'f', '3', 't', '4'];
  }

  lemma NetHead()
    ensures Printable("bc") && Expanded("bc") == [3, 3, 0, 2, 3]
  {
    hide Highs, Lows;
    NoParts();
    var s := PartsMore([], 'b');
    s := PartsMore(s, 'c');
    assert s == "bc";
  }

  function AddressSymbols(): seq<nat> {
    [0] + KeySymbols() + [12, 7, 9, 17, 11, 21]
  }

  lemma AddressProper()
    ensures Proper(32, AddressSymbols()) && Proper(32, KeySymbols())
    ensures Proper(32, [3, 3, 0, 2, 3]) && Proper(32, [0]) && Proper(32, [12, 7, 9, 17, 11, 21])
    ensures Proper(32, [14, 20, 15, 7, 13, 26, 0, 25]) && Proper(32, [18, 6, 11, 13, 8, 21, 4, 20])
    ensures Proper(32, [3, 17, 2, 29, 3, 12, 29, 3]) && Proper(32, [4, 15, 24, 20, 6, 14, 30, 22])
  {
  }

  lemma AddressChecks()
    ensures Printable("bc") && Proper(32, AddressSymbols()) && Checks(Expanded("bc"), AddressSymbols())
  {
    AddressProper();
    hide Feed, Expanded, Proper;
    NetHead();
    NetRow();
    VersionRow();
    KeyRow0();
    KeyRow1();
    KeyRow2();
    KeyRow3();
    KeySumRow();
    FeedParts([3, 3, 0, 2, 3], [0], KeySymbols(), [12, 7, 9, 17, 11, 21]);
    hide AddressSymbols;
    FeedFour(Feed(Feed(1, [3, 3, 0, 2, 3]), [0]),
             [14, 20, 15, 7, 13, 26, 0, 25], [18, 6, 11, 13, 8, 21, 4, 20],
             [3, 17, 2, 29, 3, 12, 29, 3], [4, 15, 24, 20, 6, 14, 30, 22]);
  }

  lemma FeedParts(h: seq<nat>, v: seq<nat>, k: seq<nat>, s: seq<nat>)
    requires Proper(32, h) && Proper(32, v) && Proper(32, k) && Proper(32, s)
    ensures Proper(32, h + (v + k + s)) && Feed(1, h + (v + k + s)) == Feed(Feed(Feed(Feed(1, h), v), k), s)
  {
    hide Feed;
    FeedConcat(1, h, v);
    FeedConcat(1, h + v, k);
    FeedConcat(1, h + v + k, s);
    Associate(h, v + k, s);
    Associate(h, v, k);
  }

  lemma FeedFour(chk: bv32, a: seq<nat>, b: seq<nat>, c: seq<nat>, d: seq<nat>)
    requires Proper(32, a) && Proper(32, b) && Proper(32, c) && Proper(32, d)
    ensures Proper(32, a + b + c + d) && Feed(chk, a + b + c + d) == Feed(Feed(Feed(Feed(chk, a), b), c), d)
  {
    hide Feed, Proper;
    ProperConcat(a, b);
    ProperConcat(a + b, c);
    ProperConcat(a + b + c, d);
    FeedConcat(chk, a, b);
    FeedConcat(chk, a + b, c);
    FeedConcat(chk, a + b + c, d);
  }

  lemma ProperConcat(a: seq<nat>, b: seq<nat>)
    requires Proper(32, a) && Proper(32, b)
    ensures Proper(32, a + b)
  {
  }

  lemma AddressReads()
    ensures Read("q" + ("w508d6qe" + "jxtdg4y5" + "r3zarvar" + "y0c5xw7k") + "v8f3t4") == Some(AddressSymbols())
  {
    var u, v := ReadMore("", [], 'q');
    assert SymbolOf('q') == 0 && u == "q" && v == [0];
    hide Read, SymbolOf;
    KeyChars0();
    KeyChars1();
    KeyChars2();
    KeyChars3();
    KeySumChars();
    var k := "w508d6qe" + "jxtdg4y5" + "r3zarvar" + "y0c5xw7k";
    ReadConcat("w508d6qe", "jxtdg4y5");
    ReadConcat("w508d6qe" + "jxtdg4y5", "r3zarvar");
    ReadConcat("w508d6qe" + "jxtdg4y5" + "r3zarvar", "y0c5xw7k");
    ReadConcat("q", k);
    ReadConcat("q" + k, "v8f3t4");
  }

  // Encoding the key hash with version 0 for main net gives just the address the tests name.
  lemma AddressAnswer()
    ensures ProgramOk(Program(0, KeyHash())) && Printable("bc")
    ensures EncodedText("bc", Program(0, KeyHash()))
            == "bc" + "1" + ("q" + ("w508d6qe" + "jxtdg4y5" + "r3zarvar" + "y0c5xw7k") + "v8f3t4")
  {
    hide ToFives, Text, Sealed, Checks, Expanded, Read, KeyHash, KeySymbols;
    KeyFives();
    AddressReads();
    AddressChecks();
    var s := "q" + ("w508d6qe" + "jxtdg4y5" + "r3zarvar" + "y0c5xw7k") + "v8f3t4";
    TextRead(s);
    var t := AddressSymbols();
    SealDecides(Expanded("bc"), t);
    assert t[..|t| - 6] == [0] + KeySymbols();
  }
}
