// Tags the repository's own tests expect, and the constants of section 2.5 of RFC 7539, derived from
// the definitions the code is proved against.
module PolyAnswer {
  import opened Common
  import opened Words
  import opened Bytes
  import opened Poly1305

  lemma ModulusIs()
    ensures P == Pow2(130) - 5
  {
    Powers();
    Pow2Add(32, 32);
    Pow2Add(64, 64);
    Pow2Add(128, 2);
  }

  // The clamp of section 2.5 of RFC 7539: four bytes lose their top four bits, three their bottom two.
  function ClampedByte(b: u8, i: nat): u8 {
    if i in {3, 7, 11, 15} then b % 16 else if i in {4, 8, 12} then b / 4 * 4 else b
  }

  const MASK: seq<u8> := [
    0xff, 0xff, 0xff, 0x0f, 0xfc, 0xff, 0xff, 0x0f, 0xfc, 0xff, 0xff, 0x0f, 0xfc, 0xff, 0xff, 0x0f]

  lemma ClampIs(key: seq<u8>)
    requires |key| == 32
    ensures R(key) == LE(seq(16, i requires 0 <= i < 16 => ClampedByte(key[i], i)))
  {
    var b, c := key[..16], seq(16, i requires 0 <= i < 16 => ClampedByte(key[i], i));
    forall i | 0 <= i < 16 ensures And(b[i], MASK[i]) == c[i] {
      MaskedByte(b[i], i);
    }
    hide LE;
    AndBytes(b, MASK, c);
    MaskIs();
  }

  lemma MaskIs()
    ensures LE(MASK) == 0x0fff_fffc_0fff_fffc_0fff_fffc_0fff_ffff
  {
    hide LE, Word;
    MaskWords();
    FourWords(MASK);
    assert MASK[..4] == [0xff, 0xff, 0xff, 0x0f];
    assert MASK[4..8] == [0xfc, 0xff, 0xff, 0x0f];
    assert MASK[8..12] == [0xfc, 0xff, 0xff, 0x0f];
    assert MASK[12..] == [0xfc, 0xff, 0xff, 0x0f];
  }

  lemma MaskWords()
    ensures Word([0xff, 0xff, 0xff, 0x0f]) == 0x0fff_ffff && Word([0xfc, 0xff, 0xff, 0x0f]) == 0x0fff_fffc
  {
    hide LE;
  }

  lemma MaskedByte(b: u8, i: nat)
    requires i < 16
    ensures And(b, MASK[i]) == ClampedByte(b, i)
  {
    hide And, Pow2;
    Powers();
    PowerFour();
    if i in {3, 7, 11, 15} {
      AndMask(4, 16, b, b / 16, b % 16);
    } else if i in {4, 8, 12} {
      AndSplit(2, 4, b, b / 4, b % 4, 0xfc, 0x3f, 0);
      AndMask(6, 0x40, b / 4, 0, b / 4);
      AndZero(b % 4);
    } else {
      AndMask(8, 0x100, b, 0, b);
    }
  }

  lemma PowerFour()
    ensures Pow2(4) == 16
  {
  }

  lemma {:induction false} AndBytes(a: seq<u8>, m: seq<u8>, c: seq<u8>)
    requires |a| == |m| == |c| && forall i :: 0 <= i < |a| ==> And(a[i], m[i]) == c[i]
    ensures And(LE(a), LE(m)) == LE(c)
  {
    hide And, Pow2;
    if a == [] {
      AndZero(0);
    } else {
      Powers();
      AndBytes(a[1..], m[1..], c[1..]);
      AndSplit(8, 0x100, LE(a), LE(a[1..]), a[0], LE(m), LE(m[1..]), m[0]);
    }
  }

  // A byte and then n bytes that are all the same.
  function Then(first: u8, n: nat, rest: u8): (b: seq<u8>)
    ensures |b| == n + 1
  {
    [first] + seq(n, _ => rest)
  }

  lemma {:induction false} LEOnes(n: nat)
    ensures LE(seq(n, _ => 0xff as u8)) == Pow2(8 * n) - 1
  {
    var b := seq(n, _ => 0xff as u8);
    if n > 0 {
      LEOnes(n - 1);
      assert b[1..] == seq(n - 1, _ => 0xff as u8);
      LEAppendStep(n - 1);
    }
  }

  lemma LEZero(n: nat)
    ensures LE(seq(n, _ => 0 as u8)) == 0
  {
    LEZeros([], n);
    assert [] + seq(n, _ => 0 as u8) == seq(n, _ => 0 as u8);
  }

  // A whole block of one byte and fifteen equal ones, with the one appended.
  lemma BlockIs(first: u8, rest: u8)
    requires rest in {0, 0xff}
    ensures LE(Then(first, 15, rest) + [1]) == W128 + first + (if rest == 0 then 0 else W128 - 0x100)
  {
    hide Pow2;
    var b := Then(first, 15, rest);
    assert b[1..] == seq(15, _ => rest);
    LEAppendOne(b);
    LEOnes(15);
    LEZero(15);
    Sizes();
  }

  lemma Sizes()
    ensures Pow2(128) == W128 && Pow2(120) * 0x100 == W128
  {
    Powers();
    Pow2Add(32, 32);
    Pow2Add(64, 64);
    Pow2Add(120, 8);
  }

  // A key whose first half is r, a single byte, and whose second half is s.
  function SmallKey(r: u8, s: u8): (key: seq<u8>)
    ensures |key| == 32
  {
    Then(r, 15, 0) + seq(16, _ => s)
  }

  lemma SmallKeyIs(r: u8, s: u8)
    requires r in {1, 2} && s in {0, 0xff}
    ensures R(SmallKey(r, s)) == r && S(SmallKey(r, s)) == if s == 0 then 0 else W128 - 1
  {
    hide Pow2;
    var key := SmallKey(r, s);
    assert key[..16] == Then(r, 15, 0) && Then(r, 15, 0)[1..] == seq(15, _ => 0 as u8);
    assert key[16..] == seq(16, _ => s);
    LEZero(15);
    LEZero(16);
    LEOnes(16);
    Sizes();
    assert LE(key[..16]) == r;
    SmallAnd();
  }

  lemma SmallAnd()
    ensures And(1, 0x0fff_fffc_0fff_fffc_0fff_fffc_0fff_ffff) == 1
    ensures And(2, 0x0fff_fffc_0fff_fffc_0fff_fffc_0fff_ffff) == 2
  {
  }

  // Messages of one block: the product passes the modulus once, or the pad the last carry.
  lemma TagsOfOneBlock()
    ensures Tag(SmallKey(2, 0), Then(0xff, 15, 0xff)) == 3
    ensures Tag(SmallKey(2, 0xff), Then(2, 15, 0)) == 3
    ensures Tag(SmallKey(2, 0), Then(0xfd, 15, 0xff)) == W128 - 6
  {
    hide R, S, LE;
    SmallKeyIs(2, 0);
    SmallKeyIs(2, 0xff);
    BlockIs(0xff, 0xff);
    BlockIs(2, 0);
    BlockIs(0xfd, 0xff);
    OneBlock(2, Then(0xff, 15, 0xff));
    OneBlock(2, Then(2, 15, 0));
    OneBlock(2, Then(0xfd, 15, 0xff));
  }

  lemma OneBlock(r: nat, b: seq<u8>)
    requires |b| == 16
    ensures Acc(0, r, b) == LE(b + [1]) * r % P
  {
  }

  // A message of three blocks whose sum passes the modulus.
  lemma TagOfThreeBlocks()
    ensures Tag(SmallKey(1, 0), Then(0xff, 15, 0xff) + Then(0xf0, 15, 0xff) + Then(0x11, 15, 0)) == 5
  {
    hide R, S, LE;
    var a, b, c := Then(0xff, 15, 0xff), Then(0xf0, 15, 0xff), Then(0x11, 15, 0);
    SmallKeyIs(1, 0);
    BlockIs(0xff, 0xff);
    BlockIs(0xf0, 0xff);
    BlockIs(0x11, 0);
    var d := a + b + c;
    assert d[..16] == a && d[16..] == b + c && (b + c)[..16] == b && (b + c)[16..] == c;
    assert Acc(0, 1, d) == Acc(Step(0, 1, a), 1, b + c);
    assert Acc(Step(0, 1, a), 1, b + c) == Acc(Step(Step(0, 1, a), 1, b), 1, c);
  }
}
