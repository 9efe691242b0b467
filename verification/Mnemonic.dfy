// Mnemonic phrases: data and part of its digest as groups of eleven bits, each group a word.
module Mnemonic {
  import opened Radix
  import opened Words
  import opened BitStrings

  const WORDLIST_COUNT: nat := 2048

  type Hash = seq<nat> -> seq<nat>

  ghost predicate IsDigest(hash: Hash) {
    forall d :: |hash(d)| == 32 && Proper(256, hash(d))
  }

  // Data of the supported lengths.
  predicate Supported(data: seq<nat>) {
    Proper(256, data) && |data| % 4 == 0 && 4 <= |data| <= 32
  }

  // ----- words of data -----

  // The big-endian word at a byte position.
  function WordAt(buf: seq<nat>, p: nat): nat
    requires p + 4 <= |buf|
  {
    ((buf[p] * 256 + buf[p + 1]) * 256 + buf[p + 2]) * 256 + buf[p + 3]
  }

  lemma WordBits(buf: seq<nat>, p: nat)
    requires p + 4 <= |buf| && Proper(256, buf)
    ensures 8 * p + 32 <= 8 * |buf| && Bits(32, WordAt(buf, p)) == AllBits(8, buf)[8 * p..8 * p + 32]
  {
    hide Bits, AllBits;
    Groups(8, buf, p, p + 4);
    FourGroups(buf[p..p + 4]);
    var two := buf[p] * 256 + buf[p + 1];
    var three := two * 256 + buf[p + 2];
    AppendGroup(8, buf[p], buf[p + 1]);
    AppendGroup(16, two, buf[p + 2]);
    AppendGroup(24, three, buf[p + 3]);
  }

  lemma FourGroups(s: seq<nat>)
    requires |s| == 4
    ensures AllBits(8, s) == Bits(8, s[0]) + Bits(8, s[1]) + Bits(8, s[2]) + Bits(8, s[3])
  {
    hide Bits;
    assert s[..3][..2] == s[..2] && s[..2][..1] == s[..1] && s[..1][..0] == [];
    assert AllBits(8, s[..1]) == AllBits(8, []) + Bits(8, s[0]);
    assert AllBits(8, s[..2]) == AllBits(8, s[..1]) + Bits(8, s[1]);
    assert AllBits(8, s[..3]) == AllBits(8, s[..2]) + Bits(8, s[2]);
  }

  lemma AppendGroup(n: nat, hi: nat, lo: nat)
    requires lo < 256
    ensures Bits(n + 8, hi * 256 + lo) == Bits(n, hi) + Bits(8, lo)
  {
    var v := hi * 256 + lo;
    EightHalves(v);
    ShrDrops(n + 8, v, 8);
    LastBits(n + 8, v, 8);
    KeepEight(v);
    assert v % 256 == lo && v / 256 == hi;
    var b := Bits(n + 8, v);
    assert b == b[..n] + b[n..];
  }

  lemma EightHalves(v: nat)
    ensures Shr(v, 8) == v / 256
  {
    hide Shr;
    OneHalf(v, 8);
    OneHalf(v / 2, 7);
    OneHalf(v / 4, 6);
    OneHalf(v / 8, 5);
    OneHalf(v / 16, 4);
    OneHalf(v / 32, 3);
    OneHalf(v / 64, 2);
    OneHalf(v / 128, 1);
    NoHalf(v / 256);
  }

  lemma OneHalf(v: nat, m: nat)
    requires m > 0
    ensures Shr(v, m) == Shr(v / 2, m - 1)
  {
  }

  lemma NoHalf(v: nat)
    ensures Shr(v, 0) == v
  {
  }

  // The i-th group of eleven bits, taken from the word that contains it.
  function IndexAt(buf: seq<nat>, i: nat): (x: nat)
    requires i * 11 / 8 + 4 <= |buf|
    ensures x < 2048
  {
    Shr(WordAt(buf, i * 11 / 8), 32 - (11 + i * 11 % 8)) % WORDLIST_COUNT
  }

  lemma SliceSlice(b: seq<bool>, lo: nat, hi: nat, i: nat, j: nat)
    requires lo <= hi <= |b| && i <= j <= hi - lo
    ensures b[lo..hi][i..j] == b[lo + i..lo + j]
  {
    var x, y := b[lo..hi][i..j], b[lo + i..lo + j];
    forall k | 0 <= k < j - i ensures x[k] == y[k] {
      assert x[k] == b[lo..hi][i + k] == b[lo + i + k];
    }
  }

  lemma SliceTo(b: seq<bool>, n: nat, m: nat)
    requires n <= m <= |b|
    ensures b[..m] == b[..n] + b[n..m]
  {
  }

  lemma IndexBits(buf: seq<nat>, i: nat)
    requires Proper(256, buf) && i * 11 / 8 + 4 <= |buf|
    ensures 11 * i + 11 <= 8 * |buf| && Bits(11, IndexAt(buf, i)) == AllBits(8, buf)[11 * i..11 * i + 11]
  {
    hide Bits, AllBits, Shr, WordAt;
    var p, o := i * 11 / 8, i * 11 % 8;
    WordBits(buf, p);
    Window(32, WordAt(buf, p), 21 - o, 11);
    KeepEleven(Shr(WordAt(buf, p), 21 - o));
    var bits := AllBits(8, buf);
    assert 11 * i == 8 * p + o;
    SliceSlice(bits, 8 * p, 8 * p + 32, o, o + 11);
  }

  function WithDigest(hash: Hash, data: seq<nat>): seq<nat> {
    data + hash(data)
  }

  // The indices of the words: as many groups as the data and one bit in 32 of digest fill.
  function Indices(hash: Hash, data: seq<nat>, n: nat): (idx: seq<nat>)
    requires |hash(data)| == 32 && Supported(data) && n <= |data| * 3 / 4
    ensures |idx| == n && Proper(2048, idx)
  {
    if n == 0 then [] else Indices(hash, data, n - 1) + [IndexAt(WithDigest(hash, data), n - 1)]
  }

  lemma {:induction false} IndicesBits(hash: Hash, data: seq<nat>, n: nat)
    requires IsDigest(hash) && Supported(data) && n <= |data| * 3 / 4
    ensures 11 * n <= 8 * |WithDigest(hash, data)|
    ensures AllBits(11, Indices(hash, data, n)) == AllBits(8, WithDigest(hash, data))[..11 * n]
  {
    hide Bits, IndexAt, AllBits;
    NoGroups(8);
    NoGroups(11);
    if n > 0 {
      var buf := WithDigest(hash, data);
      IndicesBits(hash, data, n - 1);
      IndexBits(buf, n - 1);
      OneMoreGroup(11, Indices(hash, data, n - 1), IndexAt(buf, n - 1));
      SliceTo(AllBits(8, buf), 11 * (n - 1), 11 * n);
    }
  }

  // ----- data of words -----

  // The i-th byte, taken from the two words that contain it.
  function ByteAt(idx: seq<nat>, i: nat): (b: nat)
    requires i * 8 / 11 < |idx|
    ensures b < 256
  {
    var k := i * 8 / 11;
    var x, y := idx[k], if k + 1 < |idx| then idx[k + 1] else 0;
    Shr(x * WORDLIST_COUNT + y, (k + 2) * 11 - (i + 1) * 8) % 256
  }

  lemma AppendEleven(n: nat, hi: nat, lo: nat)
    requires lo < 2048
    ensures Bits(n + 11, hi * 2048 + lo) == Bits(n, hi) + Bits(11, lo)
  {
    hide Bits, Shr;
    var v := hi * 2048 + lo;
    EightHalves(v);
    ShrEleven(v);
    ShrDrops(n + 11, v, 11);
    LastBits(n + 11, v, 11);
    KeepEleven(v);
    var b := Bits(n + 11, v);
    assert b == b[..n] + b[n..];
  }

  lemma ShrEleven(v: nat)
    ensures Shr(v, 11) == v / 2048
  {
    hide Shr;
    OneHalf(v, 11);
    OneHalf(v / 2, 10);
    OneHalf(v / 4, 9);
    EightHalves(v / 8);
  }

  // The bits of the words, followed by eleven zeros for the last byte to run into.
  function Stretched(idx: seq<nat>): seq<bool> {
    AllBits(11, idx + [0])
  }

  lemma ByteBits(idx: seq<nat>, i: nat)
    requires Proper(2048, idx) && i * 8 / 11 < |idx|
    ensures 8 * i + 8 <= |Stretched(idx)| && Bits(8, ByteAt(idx, i)) == Stretched(idx)[8 * i..8 * i + 8]
  {
    hide Bits, AllBits, Shr;
    var k := i * 8 / 11;
    var s := idx + [0];
    var x, y := s[k], s[k + 1];
    var m := (k + 2) * 11 - (i + 1) * 8;
    AppendEleven(11, x, y);
    Window(22, x * 2048 + y, m, 8);
    KeepEight(Shr(x * 2048 + y, m));
    Groups(11, s, k, k + 2);
    TwoGroups(s[k..k + 2]);
    var bits := AllBits(11, s);
    SliceSlice(bits, 11 * k, 11 * (k + 2), 22 - m - 8, 22 - m);
  }

  lemma TwoGroups(s: seq<nat>)
    requires |s| == 2
    ensures AllBits(11, s) == Bits(11, s[0]) + Bits(11, s[1])
  {
    hide Bits;
    assert s[..1][..0] == [];
    assert AllBits(11, s[..1]) == AllBits(11, []) + Bits(11, s[0]);
  }

  function BytesOf(idx: seq<nat>, n: nat): (b: seq<nat>)
    requires n <= (|idx| * 11 + 7) / 8
    ensures |b| == n && Proper(256, b)
  {
    if n == 0 then [] else BytesOf(idx, n - 1) + [ByteAt(idx, n - 1)]
  }

  lemma {:induction false} BytesBits(idx: seq<nat>, n: nat)
    requires Proper(2048, idx) && n <= (|idx| * 11 + 7) / 8
    ensures 8 * n <= |Stretched(idx)| && AllBits(8, BytesOf(idx, n)) == Stretched(idx)[..8 * n]
  {
    hide Bits, ByteAt, Stretched, AllBits;
    NoGroups(8);
    NoGroups(11);
    StretchedLength(idx);
    if n > 0 {
      BytesBits(idx, n - 1);
      ByteBits(idx, n - 1);
      OneMoreGroup(8, BytesOf(idx, n - 1), ByteAt(idx, n - 1));
      SliceTo(Stretched(idx), 8 * (n - 1), 8 * n);
    }
  }

  lemma StretchedLength(idx: seq<nat>)
    ensures |Stretched(idx)| == 11 * |idx| + 11
    ensures Stretched(idx)[..11 * |idx|] == AllBits(11, idx)
  {
    hide AllBits;
    AllBitsConcat(11, idx, [0]);
  }

  // ----- indices and data -----

  // A number of words that a supported length of data makes.
  predicate Whole(idx: seq<nat>) {
    Proper(2048, idx) && |idx| % 3 == 0 && 3 <= |idx| <= 24
  }

  function DataOf(idx: seq<nat>): (data: seq<nat>)
    requires Whole(idx)
    ensures Supported(data) && |data| * 3 / 4 == |idx|
  {
    BytesOf(idx, |idx| * 4 / 3)
  }

  // The bits after the data are the first bits of its digest.
  predicate ChecksumOk(hash: Hash, idx: seq<nat>)
    requires Whole(idx) && |hash(DataOf(idx))| == 32
  {
    Shr(ByteAt(idx, |idx| * 4 / 3), 8 - |idx| / 3) == Shr(hash(DataOf(idx))[0], 8 - |idx| / 3)
  }

  lemma {:induction false} ShrBelow(v: nat, m: nat, n: nat)
    requires v < Pow2(n + m)
    ensures Shr(v, m) < Pow2(n)
  {
    if m > 0 {
      ShrBelow(v / 2, m - 1, n);
    }
  }

  // Shifted bytes agree exactly when their first bits do.
  lemma SameTop(a: nat, b: nat, n: nat)
    requires a < 256 && b < 256 && n <= 8
    ensures Shr(a, 8 - n) == Shr(b, 8 - n) <==> Bits(8, a)[..n] == Bits(8, b)[..n]
  {
    hide Bits, Shr;
    Powers();
    ShrDrops(8, a, 8 - n);
    ShrDrops(8, b, 8 - n);
    ShrBelow(a, 8 - n, n);
    ShrBelow(b, 8 - n, n);
    if Bits(8, a)[..n] == Bits(8, b)[..n] {
      BitsInjective(n, Shr(a, 8 - n), Shr(b, 8 - n));
    }
  }

  // The bits of the words are the data's bits and then the checksum bits.
  lemma WordBitsSplit(idx: seq<nat>)
    requires Whole(idx)
    ensures var n := |idx| / 3;
            && AllBits(11, idx)[..32 * n] == AllBits(8, DataOf(idx))
            && AllBits(11, idx)[32 * n..33 * n] == Bits(8, ByteAt(idx, 4 * n))[..n]
  {
    hide Bits, AllBits, ByteAt, Stretched, BytesOf;
    var n := |idx| / 3;
    StretchedLength(idx);
    BytesBits(idx, 4 * n);
    ByteBits(idx, 4 * n);
    SliceTake(Stretched(idx), 33 * n, 32 * n);
    SliceMiddle(Stretched(idx), 33 * n, 32 * n, n);
  }

  lemma SliceTake(b: seq<bool>, n: nat, m: nat)
    requires m <= n <= |b|
    ensures b[..n][..m] == b[..m]
  {
  }

  lemma SliceMiddle(b: seq<bool>, n: nat, m: nat, k: nat)
    requires n == m + k && k <= 8 && m + 8 <= |b| && n <= |b|
    ensures b[..n][m..n] == b[m..m + 8][..k]
  {
  }

  // The bits of data and digest, as far as the words go.
  lemma DigestBitsSplit(hash: Hash, data: seq<nat>)
    requires IsDigest(hash) && Supported(data)
    ensures var n := |data| / 4; var bits := AllBits(8, WithDigest(hash, data));
            && |bits| == 32 * n + 256 && bits[..32 * n] == AllBits(8, data)
            && bits[32 * n..33 * n] == Bits(8, hash(data)[0])[..n]
  {
    hide Bits, AllBits;
    var n, d := |data| / 4, hash(data);
    AllBitsConcat(8, data, d);
    Groups(8, d, 0, 1);
    OneGroup(8, d, 0);
    SliceInside(AllBits(8, data), AllBits(8, d), n);
  }

  lemma SliceInside(a: seq<bool>, b: seq<bool>, k: nat)
    requires k <= 8 <= |b|
    ensures (a + b)[..|a|] == a && (a + b)[|a|..|a| + k] == b[0..8][..k]
  {
  }

  // Words stand for data exactly when they are the words of that data.
  lemma WordsOfData(hash: Hash, idx: seq<nat>)
    requires IsDigest(hash) && Whole(idx)
    ensures ChecksumOk(hash, idx) <==> idx == Indices(hash, DataOf(idx), |idx|)
  {
    hide Bits, AllBits, ByteAt, BytesOf, Shr, Indices, WithDigest, ChecksumOk, DataOf;
    var data := DataOf(idx);
    ChecksumComparesBits(hash, idx);
    IndicesBits(hash, data, |idx|);
    Eleven();
    if ChecksumOk(hash, idx) {
      AllBitsInjective(11, idx, Indices(hash, data, |idx|));
    }
  }

  lemma ChecksumComparesBits(hash: Hash, idx: seq<nat>)
    requires IsDigest(hash) && Whole(idx)
    ensures 11 * |idx| <= |AllBits(8, WithDigest(hash, DataOf(idx)))|
    ensures ChecksumOk(hash, idx) <==> AllBits(11, idx) == AllBits(8, WithDigest(hash, DataOf(idx)))[..11 * |idx|]
  {
    hide Bits, AllBits, ByteAt, DataOf, Shr, WithDigest;
    var n, data := |idx| / 3, DataOf(idx);
    WordBitsSplit(idx);
    DigestBitsSplit(hash, data);
    SameTop(ByteAt(idx, 4 * n), hash(data)[0], n);
    SamePrefix(AllBits(11, idx), AllBits(8, WithDigest(hash, data)), 32 * n);
  }

  lemma SamePrefix(a: seq<bool>, b: seq<bool>, n: nat)
    requires n <= |a| <= |b| && a[..n] == b[..n]
    ensures a == b[..|a|] <==> a[n..] == b[n..|a|]
  {
    assert a == a[..n] + a[n..];
    assert b[..|a|] == b[..n] + b[n..|a|];
  }

  lemma Eleven()
    ensures Pow2(11) == 2048
  {
    hide Pow2;
    Powers();
    Pow2Add(8, 2);
    Pow2Add(10, 1);
  }

  // The words of data stand for it.
  lemma DataOfWords(hash: Hash, data: seq<nat>)
    requires IsDigest(hash) && Supported(data)
    ensures var idx := Indices(hash, data, |data| * 3 / 4); Whole(idx) && DataOf(idx) == data && ChecksumOk(hash, idx)
  {
    hide Bits, AllBits, ByteAt, BytesOf, Shr, WithDigest, Indices, ChecksumOk;
    var idx := Indices(hash, data, |data| * 3 / 4);
    var n := |data| / 4;
    IndicesBits(hash, data, |idx|);
    WordBitsSplit(idx);
    DigestBitsSplit(hash, data);
    SliceTake(AllBits(8, WithDigest(hash, data)), 33 * n, 32 * n);
    EightBits();
    AllBitsInjective(8, data, DataOf(idx));
    WordsOfData(hash, idx);
  }

  lemma EightBits()
    ensures Pow2(8) == 256
  {
    hide Pow2;
    Powers();
  }
}
