// Byte strings and the little-endian numbers they stand for.
module Bytes {
  import opened Common
  import opened Words

  // Little-endian value of a byte string.
  function LE(b: seq<u8>): nat {
    if b == [] then 0 else b[0] + 0x100 * LE(b[1..])
  }

  // Little-endian word of four bytes (`le32`).
  function Word(b: seq<u8>): (w: u32)
    requires |b| == 4
    ensures w == LE(b)
  {
    assert b[1..][1..] == b[2..] && b[2..][1..] == b[3..] && b[3..][1..] == [] && LE([]) == 0;
    assert LE(b[3..]) == b[3] as int;
    assert LE(b[2..]) == b[2] as int + 0x100 * b[3] as int;
    assert LE(b[1..]) == b[1] as int + 0x100 * b[2] as int + 0x1_0000 * b[3] as int;
    b[0] as int + 0x100 * b[1] as int + 0x1_0000 * b[2] as int + 0x100_0000 * b[3] as int
  }

  lemma TakeWord(b: seq<u8>)
    requires |b| >= 4
    ensures LE(b) == Word(b[..4]) + W32 * LE(b[4..])
  {
    assert b[1..][1..] == b[2..] && b[2..][1..] == b[3..] && b[3..][1..] == b[4..];
  }

  function WordBytes(w: u32): (b: seq<u8>)
    ensures |b| == 4 && LE(b) == w
  {
    var b := [w % 0x100, w / 0x100 % 0x100, w / 0x1_0000 % 0x100, w / 0x100_0000];
    FourBytes(w);
    assert w == Word(b);
    b
  }

  lemma FourBytes(w: nat)
    ensures w == w % 0x100 + 0x100 * (w / 0x100 % 0x100) + 0x1_0000 * (w / 0x1_0000 % 0x100)
                 + 0x100_0000 * (w / 0x100_0000)
  {
    assert w / 0x100 / 0x100 == w / 0x1_0000 && w / 0x1_0000 / 0x100 == w / 0x100_0000;
  }

  // The n low bytes of v, least significant first.
  function ToBytes(v: nat, n: nat): (b: seq<u8>)
    ensures |b| == n
  {
    if n == 0 then [] else [v % 0x100] + ToBytes(v / 0x100, n - 1)
  }

  lemma {:induction false} LEZeros(b: seq<u8>, n: nat)
    ensures LE(b + seq(n, _ => 0)) == LE(b)
  {
    var z := seq(n, _ => 0 as u8);
    if b == [] {
      assert b + z == z;
      if n > 0 {
        assert z[1..] == [] + seq(n - 1, _ => 0);
        LEZeros([], n - 1);
      }
    } else {
      assert (b + z)[1..] == b[1..] + z;
      LEZeros(b[1..], n);
    }
  }

  lemma {:induction false} LEAppendOne(b: seq<u8>)
    ensures LE(b + [1]) == LE(b) + Pow2(8 * |b|)
  {
    if b == [] {
      assert b + [1] == [1];
    } else {
      assert (b + [1])[1..] == b[1..] + [1];
      LEAppendOne(b[1..]);
      var k := 8 * |b[1..]|;
      assert Pow2(k + 8) == 0x100 * Pow2(k) by {
        assert Pow2(k + 8) == 2 * Pow2(k + 7) && Pow2(k + 7) == 2 * Pow2(k + 6) && Pow2(k + 6) == 2 * Pow2(k + 5);
        assert Pow2(k + 5) == 2 * Pow2(k + 4) && Pow2(k + 4) == 2 * Pow2(k + 3) && Pow2(k + 3) == 2 * Pow2(k + 2);
        assert Pow2(k + 2) == 2 * Pow2(k + 1) && Pow2(k + 1) == 2 * Pow2(k);
      }
    }
  }

  lemma {:induction false} BytesOfValue(b: seq<u8>)
    ensures ToBytes(LE(b), |b|) == b
  {
    if b != [] {
      assert LE(b) % 0x100 == b[0] && LE(b) / 0x100 == LE(b[1..]);
      BytesOfValue(b[1..]);
    }
  }

  lemma LEInjective(a: seq<u8>, b: seq<u8>)
    requires |a| == |b| && LE(a) == LE(b)
    ensures a == b
  {
    BytesOfValue(a);
    BytesOfValue(b);
  }

  lemma {:induction false} LEBound(b: seq<u8>)
    ensures LE(b) < Pow2(8 * |b|)
  {
    if b != [] {
      LEBound(b[1..]);
      LEAppendStep(|b[1..]|);
    }
  }

  lemma LEAppendStep(n: nat)
    ensures Pow2(8 * n + 8) == 0x100 * Pow2(8 * n)
  {
    Powers();
    Pow2Add(8 * n, 8);
  }

  lemma {:induction false} LEConcat(a: seq<u8>, b: seq<u8>)
    ensures LE(a + b) == LE(a) + Pow2(8 * |a|) * LE(b)
  {
    if a == [] {
      assert a + b == b;
    } else {
      assert (a + b)[1..] == a[1..] + b;
      LEConcat(a[1..], b);
      LEAppendStep(|a[1..]|);
      assert 0x100 * (Pow2(8 * |a[1..]|) * LE(b)) == Pow2(8 * |a|) * LE(b);
    }
  }
}
