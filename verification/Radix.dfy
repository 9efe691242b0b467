// Numbers written in a base, most significant digit first, and the in-place multiply-and-add that
// both directions of base-58 conversion repeat.
module Radix {
  import opened Common


  // The two bases in use.
  predicate IsBase(b: nat) {
    b == 58 || b == 256
  }

  function Div(b: nat, v: nat): nat
    requires IsBase(b)
  {
    if b == 58 then v / 58 else v / 256
  }

  function Mod(b: nat, v: nat): (r: nat)
    requires IsBase(b)
    ensures r < b
  {
    if b == 58 then v % 58 else v % 256
  }

  lemma DivMod(b: nat, v: nat)
    requires IsBase(b)
    ensures v == b * Div(b, v) + Mod(b, v)
    ensures v > 0 ==> Div(b, v) < v
    ensures Div(b, v) == 0 ==> Mod(b, v) == v
  {
    if b == 58 {
      assert v == 58 * (v / 58) + v % 58;
    } else {
      assert v == 256 * (v / 256) + v % 256;
    }
  }

  function Pow(b: nat, n: nat): nat {
    if n == 0 then 1 else b * Pow(b, n - 1)
  }

  predicate Proper(base: nat, ds: seq<nat>) {
    forall k :: 0 <= k < |ds| ==> ds[k] < base
  }

  function Value(base: nat, ds: seq<nat>): nat {
    if ds == [] then 0 else base * Value(base, ds[..|ds| - 1]) + ds[|ds| - 1]
  }

  // The digits of v with no leading zero.
  function Digits(base: nat, v: nat): seq<nat>
    requires IsBase(base)
    decreases v
  {
    if v == 0 then [] else DivMod(base, v); Digits(base, Div(base, v)) + [Mod(base, v)]
  }

  function Zeros(n: nat): (z: seq<nat>)
    ensures |z| == n
  {
    seq(n, _ => 0)
  }

  // How many leading zeros there are, and what follows them.
  function LeadingZeros(ds: seq<nat>): (n: nat)
    ensures n <= |ds|
  {
    if ds == [] || ds[0] != 0 then 0 else 1 + LeadingZeros(ds[1..])
  }

  lemma {:induction false} SplitZeros(ds: seq<nat>)
    ensures ds == Zeros(LeadingZeros(ds)) + ds[LeadingZeros(ds)..]
    ensures LeadingZeros(ds) < |ds| ==> ds[LeadingZeros(ds)] != 0
  {
    if ds != [] && ds[0] == 0 {
      var tail := ds[1..];
      SplitZeros(tail);
      assert Zeros(LeadingZeros(ds)) == [0] + Zeros(LeadingZeros(tail));
      assert tail[LeadingZeros(tail)..] == ds[LeadingZeros(ds)..];
      assert ds == [0] + tail;
    }
  }

  lemma {:induction false} ZerosThen(n: nat, ds: seq<nat>)
    requires ds == [] || ds[0] != 0
    ensures LeadingZeros(Zeros(n) + ds) == n && (Zeros(n) + ds)[n..] == ds
  {
    if n == 0 {
      assert Zeros(0) + ds == ds;
    } else {
      assert (Zeros(n) + ds)[1..] == Zeros(n - 1) + ds;
      ZerosThen(n - 1, ds);
    }
  }

  lemma {:induction false} ValueZeros(base: nat, n: nat, ds: seq<nat>)
    ensures Value(base, Zeros(n) + ds) == Value(base, ds)
  {
    if ds == [] {
      assert Zeros(n) + ds == Zeros(n);
      ValueOfZeros(base, n);
    } else {
      assert (Zeros(n) + ds)[..n + |ds| - 1] == Zeros(n) + ds[..|ds| - 1];
      ValueZeros(base, n, ds[..|ds| - 1]);
    }
  }

  lemma {:induction false} ValueOfZeros(base: nat, n: nat)
    ensures Value(base, Zeros(n)) == 0
  {
    if n > 0 {
      assert Zeros(n)[..n - 1] == Zeros(n - 1);
      ValueOfZeros(base, n - 1);
    }
  }

  lemma {:induction false} ValueBelow(base: nat, ds: seq<nat>)
    requires Proper(base, ds)
    ensures Value(base, ds) < Pow(base, |ds|)
  {
    if ds != [] {
      var front, last := ds[..|ds| - 1], ds[|ds| - 1];
      assert ds == front + [last];
      ValueBelow(base, front);
      Below(base, Value(base, front), Pow(base, |front|), last);
    }
  }

  lemma Below(base: nat, x: nat, p: nat, d: nat)
    requires x < p && d < base
    ensures base * x + d < base * p
  {
    assert base * (x + 1) <= base * p;
  }

  // Reading back the digits of a number gives the number.
  lemma {:induction false} ValueOfDigits(base: nat, v: nat)
    requires IsBase(base)
    ensures Value(base, Digits(base, v)) == v && Proper(base, Digits(base, v))
    ensures if v == 0 then Digits(base, v) == [] else Digits(base, v) != [] && Digits(base, v)[0] != 0
    decreases v
  {
    if v > 0 {
      DivMod(base, v);
      ValueOfDigits(base, Div(base, v));
      var ds := Digits(base, Div(base, v));
      assert (ds + [Mod(base, v)])[..|ds|] == ds;
      if Div(base, v) == 0 {
        assert ds == [];
      }
    }
  }

  // Writing out the value of proper digits without a leading zero gives those digits.
  lemma {:induction false} DigitsOfValue(base: nat, ds: seq<nat>)
    requires IsBase(base) && Proper(base, ds) && (ds == [] || ds[0] != 0)
    ensures Digits(base, Value(base, ds)) == ds
  {
    hide Digits, Div, Mod;
    NoDigits(base);
    if ds != [] {
      var front, last := ds[..|ds| - 1], ds[|ds| - 1];
      assert ds == front + [last];
      DigitsOfValue(base, front);
      DigitsStep(base, Value(base, front), last);
      if front != [] {
        Positive(base, front);
      }
    }
  }

  lemma NoDigits(base: nat)
    requires IsBase(base)
    ensures Digits(base, 0) == []
  {
  }

  lemma DigitsStep(base: nat, x: nat, d: nat)
    requires IsBase(base) && d < base && (x > 0 || d > 0)
    ensures Digits(base, base * x + d) == Digits(base, x) + [d]
  {
    hide Div, Mod;
    QuotientOf(base, x, d);
    DivMod(base, base * x + d);
    assert base * x + d > 0;
  }

  lemma QuotientOf(base: nat, x: nat, d: nat)
    requires IsBase(base) && d < base
    ensures Div(base, base * x + d) == x && Mod(base, base * x + d) == d
    ensures x > 0 || d > 0 ==> base * x + d > 0
  {
    if base == 58 {
      assert (58 * x + d) / 58 == x;
    } else {
      assert (256 * x + d) / 256 == x;
    }
  }

  lemma {:induction false} Positive(base: nat, ds: seq<nat>)
    requires IsBase(base) && ds != [] && ds[0] != 0
    ensures Value(base, ds) > 0
  {
    if |ds| > 1 {
      Positive(base, ds[..|ds| - 1]);
      assert base * Value(base, ds[..|ds| - 1]) >= base;
    }
  }

  // Dropping the leading zeros of proper digits leaves the digits of their value.
  lemma StrippedAreDigits(base: nat, ds: seq<nat>)
    requires IsBase(base) && Proper(base, ds)
    ensures ds[LeadingZeros(ds)..] == Digits(base, Value(base, ds))
  {
    var n := LeadingZeros(ds);
    SplitZeros(ds);
    ValueZeros(base, n, ds[n..]);
    DigitsOfValue(base, ds[n..]);
  }

  // ----- multiply and add in place -----

  // Value of the digits from j on.
  lemma {:induction false} ValueConcat(base: nat, a: seq<nat>, b: seq<nat>)
    ensures Value(base, a + b) == Value(base, a) * Pow(base, |b|) + Value(base, b)
  {
    if b == [] {
      assert a + b == a;
    } else {
      var front, last := b[..|b| - 1], b[|b| - 1];
      assert (a + b)[..|a + b| - 1] == a + front;
      ValueConcat(base, a, front);
      Spread(base, Value(base, a), Pow(base, |front|), Value(base, front), last);
    }
  }

  lemma Spread(base: nat, x: nat, p: nat, y: nat, d: nat)
    ensures base * (x * p + y) + d == x * (base * p) + (base * y + d)
  {
  }

  // One position: the digits from j - 1 on, and the carry, still account for the product.
  lemma MulAddStep(base: nat, factor: nat, digit: nat, tail: seq<nat>, done: seq<nat>, carry: nat, carry0: nat)
    requires IsBase(base) && |done| == |tail|
    requires Value(base, done) + carry * Pow(base, |done|) == factor * Value(base, tail) + carry0
    ensures var sum := carry + digit * factor;
            Value(base, [Mod(base, sum)] + done) + Div(base, sum) * Pow(base, |done| + 1)
            == factor * Value(base, [digit] + tail) + carry0
  {
    hide Value, Div, Mod;
    var sum, p := carry + digit * factor, Pow(base, |done|);
    ValueConcat(base, [digit], tail);
    ValueConcat(base, [Mod(base, sum)], done);
    One(base, digit);
    One(base, Mod(base, sum));
    DivMod(base, sum);
    Regroup(Mod(base, sum), Div(base, sum), base, p, carry, digit, factor, Value(base, done), Value(base, tail),
            carry0);
  }

  lemma One(base: nat, d: nat)
    ensures Value(base, [d]) == d
  {
    assert [d][..0] == [];
    assert Value(base, []) == 0;
  }

  lemma Regroup(r: nat, q: nat, base: nat, p: nat, carry: nat, digit: nat, factor: nat, done: nat, tail: nat,
                carry0: nat)
    requires carry + digit * factor == base * q + r
    requires done + carry * p == factor * tail + carry0
    ensures (r * p + done) + q * (base * p) == factor * (digit * p + tail) + carry0
  {
    assert (carry + digit * factor) * p == (base * q + r) * p;
    assert (base * q + r) * p == q * (base * p) + r * p;
    assert (carry + digit * factor) * p == carry * p + factor * (digit * p);
    assert factor * (digit * p + tail) == factor * (digit * p) + factor * tail;
  }

  // From the last digit to the first: each is multiplied by factor and takes the carry. If the
  // product fits in the buffer, nothing is carried out of it.
  method MulAdd(buf: array<nat>, base: nat, factor: nat, carry0: nat)
    requires IsBase(base) && 1 < factor <= 256 && carry0 < 256 && Proper(base, buf[..])
    requires factor * Value(base, buf[..]) + carry0 < Pow(base, buf.Length)
    modifies buf
    ensures Proper(base, buf[..])
    ensures Value(base, buf[..]) == factor * Value(base, old(buf[..])) + carry0
  {
    hide Value, Pow;
    var carry: nat := carry0;
    var j := buf.Length;
    ghost var was := buf[..];
    Nothing(base);
    assert buf[j..] == [] && was[j..] == [];
    while j > 0
      invariant 0 <= j <= buf.Length && carry < 0x1_0000
      invariant buf[..j] == was[..j] && Proper(base, buf[j..])
      invariant Value(base, buf[j..]) + carry * Pow(base, buf.Length - j) == factor * Value(base, was[j..]) + carry0
    {
      MulAddStep(base, factor, was[j - 1], was[j..], buf[j..], carry, carry0);
      assert was[j - 1..] == [was[j - 1]] + was[j..];
      ghost var done := buf[j..];
      CarryBound(base, factor, was[j - 1], carry);
      carry := carry + buf[j - 1] * factor;
      assert carry < W32;
      buf[j - 1] := Mod(base, carry);
      carry := Div(base, carry);
      j := j - 1;
      assert buf[j..] == [buf[j]] + done;
    }
    assert buf[0..] == buf[..] && was[0..] == was;
    NoCarryOut(carry, Pow(base, buf.Length), Value(base, buf[..]), factor * Value(base, was) + carry0);
  }

  lemma Nothing(base: nat)
    ensures Value(base, []) == 0 && Pow(base, 0) == 1
  {
  }

  lemma Times(a: nat, b: nat)
    requires a < 256 && b <= 256
    ensures a * b <= 0xff00
  {
    assert a * b <= 255 * b;
  }

  lemma CarryBound(base: nat, factor: nat, digit: nat, carry: nat)
    requires IsBase(base) && 1 < factor <= 256 && digit < base && carry < 0x1_0000
    ensures carry + digit * factor < 0x2_0000 && Div(base, carry + digit * factor) < 0x1_0000
  {
    Times(digit, factor);
  }

  lemma NoCarryOut(carry: nat, p: nat, v: nat, total: nat)
    requires v + carry * p == total < p
    ensures carry == 0 && v == total
  {
    assert carry == 0 || carry * p >= p;
  }
}
