// Strings of bits, most significant first, and the groups of bits that shifts and masks pick out.
module BitStrings {
  import opened Radix
  import opened Words

  function Shr(v: nat, m: nat): nat {
    if m == 0 then v else Shr(v / 2, m - 1)
  }

  // The low n bits of v.
  function Bits(n: nat, v: nat): (b: seq<bool>)
    ensures |b| == n
  {
    if n == 0 then [] else Bits(n - 1, v / 2) + [v % 2 == 1]
  }

  function Number(b: seq<bool>): nat {
    if b == [] then 0 else 2 * Number(b[..|b| - 1]) + (if b[|b| - 1] then 1 else 0)
  }

  lemma {:induction false} NumberOfBits(n: nat, v: nat)
    requires v < Pow2(n)
    ensures Number(Bits(n, v)) == v
  {
    if n > 0 {
      NumberOfBits(n - 1, v / 2);
      assert Bits(n, v)[..n - 1] == Bits(n - 1, v / 2);
    }
  }

  lemma BitsInjective(n: nat, a: nat, b: nat)
    requires a < Pow2(n) && b < Pow2(n) && Bits(n, a) == Bits(n, b)
    ensures a == b
  {
    NumberOfBits(n, a);
    NumberOfBits(n, b);
  }

  // A right shift drops bits at the end.
  lemma {:induction false} ShrDrops(n: nat, v: nat, m: nat)
    requires m <= n
    ensures Bits(n, v)[..n - m] == Bits(n - m, Shr(v, m))
  {
    if m > 0 {
      ShrDrops(n - 1, v / 2, m - 1);
      assert Bits(n, v)[..n - m] == Bits(n - 1, v / 2)[..n - m];
    }
  }

  // Fewer bits of the same number are its last bits.
  lemma {:induction false} LastBits(n: nat, v: nat, m: nat)
    requires m <= n
    ensures Bits(n, v)[n - m..] == Bits(m, v)
  {
    if m > 0 {
      LastBits(n - 1, v / 2, m - 1);
      assert Bits(n, v)[n - m..] == Bits(n - 1, v / 2)[n - m..] + [v % 2 == 1];
    }
  }

  // Shifting right by m and keeping k bits picks out the k bits before the last m.
  lemma Window(n: nat, v: nat, m: nat, k: nat)
    requires m + k <= n
    ensures Bits(k, Shr(v, m)) == Bits(n, v)[n - m - k..n - m]
  {
    ShrDrops(n, v, m);
    LastBits(n - m, Shr(v, m), k);
    assert Bits(n, v)[..n - m][n - m - k..] == Bits(n, v)[n - m - k..n - m];
  }

  // Whole multiples of 2^n do not touch the low n bits.
  lemma {:induction false} KeepLow(n: nat, q: nat, r: nat)
    ensures Bits(n, Pow2(n) * q + r) == Bits(n, r)
  {
    if n > 0 {
      var x := Pow2(n - 1) * q;
      assert Pow2(n) * q == 2 * x;
      assert (2 * x + r) / 2 == x + r / 2 && (2 * x + r) % 2 == r % 2;
      KeepLow(n - 1, q, r / 2);
    }
  }

  lemma KeepEight(v: nat)
    ensures Bits(8, v % 256) == Bits(8, v)
  {
    hide Bits;
    Powers();
    KeepLow(8, v / 256, v % 256);
  }

  lemma KeepEleven(v: nat)
    ensures Bits(11, v % 2048) == Bits(11, v)
  {
    hide Bits, Pow2;
    assert Pow2(11) == 2048 by {
      hide Bits;
      Powers();
      Pow2Add(8, 2);
      Pow2Add(10, 1);
    }
    KeepLow(11, v / 2048, v % 2048);
  }

  // The groups of a sequence, w bits each.
  function AllBits(w: nat, s: seq<nat>): (b: seq<bool>)
    ensures |b| == w * |s|
  {
    if s == [] then [] else AllBits(w, s[..|s| - 1]) + Bits(w, s[|s| - 1])
  }

  lemma NoGroups(w: nat)
    ensures AllBits(w, []) == []
  {
  }

  lemma OneMoreGroup(w: nat, s: seq<nat>, x: nat)
    ensures AllBits(w, s + [x]) == AllBits(w, s) + Bits(w, x)
  {
    hide Bits;
    assert (s + [x])[..|s|] == s;
  }

  lemma {:induction false} AllBitsConcat(w: nat, a: seq<nat>, b: seq<nat>)
    ensures AllBits(w, a + b) == AllBits(w, a) + AllBits(w, b)
  {
    hide AllBits, Bits;
    NoGroups(w);
    if b == [] {
      assert a + b == a;
    } else {
      var front, last := b[..|b| - 1], b[|b| - 1];
      AllBitsConcat(w, a, front);
      OneMoreGroup(w, front, last);
      OneMoreGroup(w, a + front, last);
      assert b == front + [last] && a + b == (a + front) + [last];
      Associate(AllBits(w, a), AllBits(w, front), Bits(w, last));
    }
  }

  lemma Associate(a: seq<bool>, b: seq<bool>, c: seq<bool>)
    ensures (a + b) + c == a + (b + c)
  {
  }

  lemma GroupLength(w: nat, a: nat, b: nat)
    requires a <= b
    ensures w * a <= w * b && w * b - w * a == w * (b - a)
  {
  }

  // A stretch of whole groups.
  lemma Groups(w: nat, s: seq<nat>, i: nat, j: nat)
    requires i <= j <= |s|
    ensures 0 <= w * i <= w * j <= |AllBits(w, s)| && AllBits(w, s)[w * i..w * j] == AllBits(w, s[i..j])
  {
    hide AllBits;
    GroupLength(w, 0, i);
    GroupLength(w, i, j);
    GroupLength(w, j, |s|);
    AllBitsConcat(w, s[..i], s[i..j] + s[j..]);
    AllBitsConcat(w, s[i..j], s[j..]);
    assert s == s[..i] + (s[i..j] + s[j..]);
    Middle(AllBits(w, s[..i]), AllBits(w, s[i..j]), AllBits(w, s[j..]));
  }

  lemma Middle(a: seq<bool>, m: seq<bool>, b: seq<bool>)
    ensures (a + (m + b))[|a|..|a| + |m|] == m
  {
  }

  lemma {:induction false} AllBitsInjective(w: nat, a: seq<nat>, b: seq<nat>)
    requires |a| == |b| && AllBits(w, a) == AllBits(w, b)
    requires Proper(Pow2(w), a) && Proper(Pow2(w), b)
    ensures a == b
  {
    if a != [] {
      hide AllBits, Bits;
      var fa, fb, x, y := a[..|a| - 1], b[..|b| - 1], a[|a| - 1], b[|b| - 1];
      assert a == fa + [x] && b == fb + [y];
      OneMoreGroup(w, fa, x);
      OneMoreGroup(w, fb, y);
      SameParts(AllBits(w, fa), Bits(w, x), AllBits(w, fb), Bits(w, y));
      AllBitsInjective(w, fa, fb);
      BitsInjective(w, x, y);
    }
  }

  lemma SameParts(a: seq<bool>, x: seq<bool>, b: seq<bool>, y: seq<bool>)
    requires a + x == b + y && |x| == |y|
    ensures a == b && x == y
  {
    assert a == (a + x)[..|a|] && b == (b + y)[..|b|];
    assert x == (a + x)[|a|..] && y == (b + y)[|b|..];
  }

  lemma OneGroup(w: nat, s: seq<nat>, i: nat)
    requires i < |s|
    ensures AllBits(w, s[i..i + 1]) == Bits(w, s[i])
  {
    assert s[i..i + 1] == [s[i]];
    assert [s[i]][..0] == [];
    assert AllBits(w, []) == [];
  }
}
