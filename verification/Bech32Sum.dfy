// The checksum of bech32: a linear code over 5-bit symbols.
module Bech32Sum {
  import opened Radix

  function X(a: bv32, b: bv32): bv32 {
    a ^ b
  }

  function Left(a: bv32): bv32 {
    (a & 0x1ffffff) << 5
  }

  // The generator g, if bit k of x is set.
  function Tap(x: bv32, k: nat, g: bv32): bv32
    requires 25 <= k < 30
  {
    if Bit(x, k) then g else 0
  }

  predicate Bit(x: bv32, k: nat)
    requires 25 <= k < 30
  {
    if k == 25 then (x >> 25) & 1 == 1 else if k == 26 then (x >> 26) & 1 == 1 else if k == 27 then (x >> 27) & 1 == 1
    else if k == 28 then (x >> 28) & 1 == 1 else (x >> 29) & 1 == 1
  }

  function Polymod(x: bv32): bv32 {
    X(X(X(X(X(Left(x), Tap(x, 25, 0x3b6a57b2)), Tap(x, 26, 0x26508e6d)), Tap(x, 27, 0x1ea119fa)),
        Tap(x, 28, 0x3d4233dd)), Tap(x, 29, 0x2a1462b3))
  }

  lemma LeftLinear(x: bv32, y: bv32)
    ensures Left(X(x, y)) == X(Left(x), Left(y))
  {
  }

  lemma BitLinear(x: bv32, y: bv32, k: nat)
    requires 25 <= k < 30
    ensures Bit(X(x, y), k) <==> Bit(x, k) != Bit(y, k)
  {
    if k == 25 {
    } else if k == 26 {
    } else if k == 27 {
    } else if k == 28 {
    }
  }

  lemma TapLinear(x: bv32, y: bv32, k: nat, g: bv32)
    requires 25 <= k < 30
    ensures Tap(X(x, y), k, g) == X(Tap(x, k, g), Tap(y, k, g))
  {
    hide Bit, X;
    BitLinear(x, y, k);
    XorFacts(g);
    XorFacts(0);
  }

  lemma XorFacts(g: bv32)
    ensures X(g, 0) == g && X(0, g) == g && X(g, g) == 0
  {
  }

  lemma Commute(a: bv32, b: bv32)
    ensures X(a, b) == X(b, a)
  {
  }

  lemma Rearrange(a: bv32, b: bv32, c: bv32)
    ensures X(X(a, b), c) == X(a, X(b, c))
  {
  }

  lemma Exchange(a: bv32, b: bv32, c: bv32, d: bv32)
    ensures X(X(a, b), X(c, d)) == X(X(a, c), X(b, d))
  {
    hide X;
    Rearrange(a, b, X(c, d));
    Rearrange(b, c, d);
    Commute(b, c);
    Rearrange(c, b, d);
    Rearrange(a, c, X(b, d));
  }

  lemma PolymodLinear(x: bv32, y: bv32)
    ensures Polymod(X(x, y)) == X(Polymod(x), Polymod(y))
  {
    hide X, Left, Tap;
    LeftLinear(x, y);
    TapLinear(x, y, 25, 0x3b6a57b2);
    TapLinear(x, y, 26, 0x26508e6d);
    TapLinear(x, y, 27, 0x1ea119fa);
    TapLinear(x, y, 28, 0x3d4233dd);
    TapLinear(x, y, 29, 0x2a1462b3);
    var a0, b0 := Left(x), Left(y);
    Exchange(a0, b0, Tap(x, 25, 0x3b6a57b2), Tap(y, 25, 0x3b6a57b2));
    var a1, b1 := X(a0, Tap(x, 25, 0x3b6a57b2)), X(b0, Tap(y, 25, 0x3b6a57b2));
    Exchange(a1, b1, Tap(x, 26, 0x26508e6d), Tap(y, 26, 0x26508e6d));
    var a2, b2 := X(a1, Tap(x, 26, 0x26508e6d)), X(b1, Tap(y, 26, 0x26508e6d));
    Exchange(a2, b2, Tap(x, 27, 0x1ea119fa), Tap(y, 27, 0x1ea119fa));
    var a3, b3 := X(a2, Tap(x, 27, 0x1ea119fa)), X(b2, Tap(y, 27, 0x1ea119fa));
    Exchange(a3, b3, Tap(x, 28, 0x3d4233dd), Tap(y, 28, 0x3d4233dd));
    var a4, b4 := X(a3, Tap(x, 28, 0x3d4233dd)), X(b3, Tap(y, 28, 0x3d4233dd));
    Exchange(a4, b4, Tap(x, 29, 0x2a1462b3), Tap(y, 29, 0x2a1462b3));
  }

  lemma PolymodSmall(x: bv32)
    requires x < 0x2000000
    ensures Polymod(x) == Left(x)
  {
  }

  lemma PolymodBound(x: bv32)
    ensures Polymod(x) < 0x40000000
  {
  }

  function Word(c: nat): (w: bv32)
    requires c < 32
    ensures w < 32
  {
    c as bv32
  }

  function Feed(chk: bv32, s: seq<nat>): bv32
    requires Proper(32, s)
  {
    if s == [] then chk else X(Polymod(Feed(chk, s[..|s| - 1])), Word(s[|s| - 1]))
  }

  lemma {:induction false} FeedConcat(chk: bv32, a: seq<nat>, b: seq<nat>)
    requires Proper(32, a) && Proper(32, b)
    ensures Feed(chk, a + b) == Feed(Feed(chk, a), b)
  {
    if b == [] {
      assert a + b == a;
    } else {
      assert (a + b)[..|a + b| - 1] == a + b[..|b| - 1];
      FeedConcat(chk, a, b[..|b| - 1]);
    }
  }

  function Shifted(chk: bv32, n: nat): bv32 {
    if n == 0 then chk else Polymod(Shifted(chk, n - 1))
  }

  // The symbols as one word, the first in the highest bits.
  function Packed(s: seq<nat>): bv32
    requires Proper(32, s)
  {
    if s == [] then 0 else X(Left(Packed(s[..|s| - 1])), Word(s[|s| - 1]))
  }

  lemma AppendBits(y: bv32, w: bv32)
    requires w < 32
    ensures y < 1 ==> X(Left(y), w) < 0x20
    ensures y < 0x20 ==> X(Left(y), w) < 0x400
    ensures y < 0x400 ==> X(Left(y), w) < 0x8000
    ensures y < 0x8000 ==> X(Left(y), w) < 0x100000
    ensures y < 0x100000 ==> X(Left(y), w) < 0x2000000
    ensures y < 0x2000000 ==> X(Left(y), w) < 0x40000000
  {
  }

  predicate FitsIn(n: nat, w: bv32) {
    if n == 0 then w < 1 else if n == 1 then w < 0x20 else if n == 2 then w < 0x400 else if n == 3 then w < 0x8000
    else if n == 4 then w < 0x100000 else if n == 5 then w < 0x2000000 else if n == 6 then w < 0x40000000 else true
  }

  lemma {:induction false} PackedFits(s: seq<nat>)
    requires Proper(32, s) && |s| <= 6
    ensures FitsIn(|s|, Packed(s))
  {
    if s != [] {
      PackedFits(s[..|s| - 1]);
      AppendBits(Packed(s[..|s| - 1]), Word(s[|s| - 1]));
    }
  }

  // Up to six symbols do not interact: they are added to the shifted state as they stand.
  lemma {:induction false} FeedIsAffine(chk: bv32, s: seq<nat>)
    requires Proper(32, s) && |s| <= 6
    ensures Feed(chk, s) == X(Shifted(chk, |s|), Packed(s))
  {
    hide Polymod, Word, X, Left, FitsIn;
    if s == [] {
      XorFacts(chk);
    } else {
      var front, w := s[..|s| - 1], Word(s[|s| - 1]);
      FeedIsAffine(chk, front);
      PackedFits(front);
      SmallEnough(|front|, Packed(front));
      PolymodLinear(Shifted(chk, |front|), Packed(front));
      PolymodSmall(Packed(front));
      Rearrange(Polymod(Shifted(chk, |front|)), Left(Packed(front)), w);
    }
  }

  lemma SmallEnough(n: nat, w: bv32)
    requires n < 6 && FitsIn(n, w)
    ensures w < 0x2000000
  {
  }

  // The six symbols that hold a 30-bit word, highest bits first.
  function Unpacked(w: bv32): (s: seq<nat>)
    ensures |s| == 6 && Proper(32, s)
  {
    [Number(F0(w)), Number(F1(w)), Number(F2(w)), Number(F3(w)), Number(F4(w)), Number(F5(w))]
  }

  function F0(w: bv32): (c: bv32) ensures c < 32 { (w >> 25) & 0x1f }
  function F1(w: bv32): (c: bv32) ensures c < 32 { (w >> 20) & 0x1f }
  function F2(w: bv32): (c: bv32) ensures c < 32 { (w >> 15) & 0x1f }
  function F3(w: bv32): (c: bv32) ensures c < 32 { (w >> 10) & 0x1f }
  function F4(w: bv32): (c: bv32) ensures c < 32 { (w >> 5) & 0x1f }
  function F5(w: bv32): (c: bv32) ensures c < 32 { w & 0x1f }

  function Number(w: bv32): (c: nat)
    requires w < 32
    ensures c < 32 && Word(c) == w
  {
    w as nat
  }

  lemma NumberOfWord(c: nat)
    requires c < 32
    ensures Number(Word(c)) == c
  {
    if c < 16 {
      BackLow(c);
    } else {
      BackHigh(c);
    }
  }

  lemma BackLow(c: nat)
    requires c < 16
    ensures (c as bv32) as nat == c
  {
    if c < 4 {
    } else if c < 8 {
    } else if c < 12 {
    }
  }

  lemma BackHigh(c: nat)
    requires 16 <= c < 32
    ensures (c as bv32) as nat == c
  {
    if c < 20 {
    } else if c < 24 {
    } else if c < 28 {
    }
  }

  // The symbols that bring the state to 1.
  function Checksum(chk: bv32): (s: seq<nat>)
    ensures |s| == 6 && Proper(32, s)
  {
    Unpacked(X(Shifted(chk, 6), 1))
  }

  lemma PackUnpacked(w: bv32)
    requires w < 0x40000000
    ensures Packed(Unpacked(w)) == w
  {
    hide X, Left, Word, Number, F0, F1, F2, F3, F4, F5;
    PackedSix(Unpacked(w));
    SixFields(w);
  }

  lemma PackedSix(s: seq<nat>)
    requires |s| == 6 && Proper(32, s)
    ensures Packed(s) == X(Left(X(Left(X(Left(X(Left(X(Left(X(Left(0), Word(s[0]))), Word(s[1]))), Word(s[2]))),
                                       Word(s[3]))), Word(s[4]))), Word(s[5]))
  {
    hide X, Left, Word;
    assert s[..5][..4] == s[..4] && s[..4][..3] == s[..3] && s[..3][..2] == s[..2];
    assert s[..2][..1] == s[..1] && s[..1][..0] == [];
    assert Packed(s[..1]) == X(Left(Packed([])), Word(s[0]));
    assert Packed(s[..2]) == X(Left(Packed(s[..1])), Word(s[1]));
    assert Packed(s[..3]) == X(Left(Packed(s[..2])), Word(s[2]));
    assert Packed(s[..4]) == X(Left(Packed(s[..3])), Word(s[3]));
    assert Packed(s[..5]) == X(Left(Packed(s[..4])), Word(s[4]));
  }

  lemma SixFields(w: bv32)
    requires w < 0x40000000
    ensures X(Left(X(Left(X(Left(X(Left(X(Left(X(Left(0), F0(w))), F1(w))), F2(w))), F3(w))), F4(w))), F5(w)) == w
  {
  }

  lemma UnpackPacked(s: seq<nat>)
    requires |s| == 6 && Proper(32, s)
    ensures Unpacked(Packed(s)) == s
  {
    hide X, Left, Word, Number, F0, F1, F2, F3, F4, F5, Packed;
    PackedSix(s);
    FieldsOfSix(Word(s[0]), Word(s[1]), Word(s[2]), Word(s[3]), Word(s[4]), Word(s[5]));
    NumberOfWord(s[0]);
    NumberOfWord(s[1]);
    NumberOfWord(s[2]);
    NumberOfWord(s[3]);
    NumberOfWord(s[4]);
    NumberOfWord(s[5]);
  }

  lemma FieldsOfSix(a: bv32, b: bv32, c: bv32, d: bv32, e: bv32, f: bv32)
    requires a < 32 && b < 32 && c < 32 && d < 32 && e < 32 && f < 32
    ensures var w := X(Left(X(Left(X(Left(X(Left(X(Left(X(Left(0), a)), b)), c)), d)), e)), f);
            F0(w) == a && F1(w) == b && F2(w) == c && F3(w) == d && F4(w) == e && F5(w) == f
  {
  }

  lemma ShiftedBound(chk: bv32)
    ensures Shifted(chk, 6) < 0x40000000 && X(Shifted(chk, 6), 1) < 0x40000000
  {
    PolymodBound(Shifted(chk, 5));
  }

  // Six symbols bring the state to 1 exactly when they are the checksum.
  lemma ChecksumIsUnique(chk: bv32, s: seq<nat>)
    requires Proper(32, s) && |s| == 6
    ensures Feed(chk, s) == 1 <==> s == Checksum(chk)
  {
    hide X, Unpacked, Packed, Feed, Shifted;
    FeedIsAffine(chk, s);
    ShiftedBound(chk);
    PackUnpacked(X(Shifted(chk, 6), 1));
    UnpackPacked(s);
    var a, b := Shifted(chk, 6), Packed(s);
    XorFacts(a);
    XorFacts(b);
    XorFacts(1);
    Rearrange(a, a, b);
    Rearrange(a, a, 1);
  }

  function ChecksumFor(head: seq<nat>, d: seq<nat>): (t: seq<nat>)
    requires Proper(32, head) && Proper(32, d)
    ensures |t| == 6 && Proper(32, t)
  {
    hide Checksum, Feed;
    Checksum(Feed(1, head + d))
  }

  // Data symbols followed by the checksum that head and they call for.
  function Sealed(head: seq<nat>, d: seq<nat>): (t: seq<nat>)
    requires Proper(32, head) && Proper(32, d)
    ensures |t| == |d| + 6 && Proper(32, t)
  {
    hide ChecksumFor;
    d + ChecksumFor(head, d)
  }

  // The whole code word brings the state to 1.
  predicate Checks(head: seq<nat>, t: seq<nat>)
    requires Proper(32, head) && Proper(32, t)
  {
    Feed(1, head + t) == 1
  }

  lemma SplitsAt(t: seq<nat>, n: nat)
    requires n <= |t|
    ensures t == t[..n] + t[n..]
  {
  }

  lemma SealedKeeps(head: seq<nat>, d: seq<nat>)
    requires Proper(32, head) && Proper(32, d)
    ensures Sealed(head, d)[..|d|] == d && Sealed(head, d)[|d|..] == Checksum(Feed(1, head + d))
  {
    hide Checksum, Feed;
  }

  // The state reaches 1 exactly on sealed symbols.
  lemma SealDecides(head: seq<nat>, t: seq<nat>)
    requires Proper(32, head) && Proper(32, t) && |t| >= 6
    ensures Checks(head, t) <==> t == Sealed(head, t[..|t| - 6])
  {
    hide Feed, Checksum, Sealed;
    var n := |t| - 6;
    SealedKeeps(head, t[..n]);
    assert head + t == (head + t[..n]) + t[n..];
    FeedConcat(1, head + t[..n], t[n..]);
    ChecksumIsUnique(Feed(1, head + t[..n]), t[n..]);
    SplitsAt(t, n);
    SplitsAt(Sealed(head, t[..n]), n);
  }
}
