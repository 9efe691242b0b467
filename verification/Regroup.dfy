// Turning 8-bit groups into 5-bit groups and back, seen as keeping one number.
module Regroup {
  import opened Words
  import opened Radix
  import BitStrings

  // Shifts by at most a byte, and the bits a right shift drops.
  function Shl(v: nat, n: nat): nat
    requires n <= 8
  {
    match n
    case 0 => v
    case 1 => v * 2
    case 2 => v * 4
    case 3 => v * 8
    case 4 => v * 16
    case 5 => v * 32
    case 6 => v * 64
    case 7 => v * 128
    case _ => v * 256
  }

  function Shr(v: nat, n: nat): nat
    requires n <= 8
  {
    match n
    case 0 => v
    case 1 => v / 2
    case 2 => v / 4
    case 3 => v / 8
    case 4 => v / 16
    case 5 => v / 32
    case 6 => v / 64
    case 7 => v / 128
    case _ => v / 256
  }

  function Low(v: nat, n: nat): nat
    requires n <= 8
  {
    match n
    case 0 => 0
    case 1 => v % 2
    case 2 => v % 4
    case 3 => v % 8
    case 4 => v % 16
    case 5 => v % 32
    case 6 => v % 64
    case 7 => v % 128
    case _ => v % 256
  }

  lemma SmallPow2()
    ensures Pow2(0) == 1 && Pow2(1) == 2 && Pow2(2) == 4 && Pow2(3) == 8 && Pow2(4) == 16
    ensures Pow2(5) == 32 && Pow2(6) == 64 && Pow2(7) == 128 && Pow2(8) == 256
  {
  }

  lemma ShlIs(v: nat, n: nat)
    requires n <= 8
    ensures Shl(v, n) == v * Pow2(n)
  {
    hide Pow2;
    SmallPow2();
  }

  // For these shifts the general right shift.
  lemma ShrIs(v: nat, n: nat)
    requires n <= 8
    ensures Shr(v, n) == BitStrings.Shr(v, n)
  {
    if n > 0 {
      assert BitStrings.Shr(v, n) == BitStrings.Shr(v / 2, n - 1);
      ShrIs(v / 2, n - 1);
      HalfFirst(v, n);
    }
  }

  lemma HalfFirst(v: nat, n: nat)
    requires 0 < n <= 8
    ensures Shr(v, n) == Shr(v / 2, n - 1)
  {
    if n == 1 {
    } else if n == 2 {
    } else if n == 3 {
    } else if n == 4 {
    } else if n == 5 {
    } else if n == 6 {
    } else if n == 7 {
    }
  }

  lemma BackAgain(v: nat, n: nat)
    requires n <= 8
    ensures Shr(Shl(v, n), n) == v && Low(Shl(v, n), n) == 0
    ensures v == Shl(Shr(v, n), n) + Low(v, n)
  {
    if n == 0 {
    } else if n == 1 {
    } else if n == 2 {
    } else if n == 3 {
    } else if n == 4 {
    } else if n == 5 {
    } else if n == 6 {
    } else if n == 7 {
    }
  }

  // ----- digits of a given count -----

  function Fives(v: nat, n: nat): (s: seq<nat>)
    ensures |s| == n && Proper(32, s)
  {
    if n == 0 then [] else Fives(v / 32, n - 1) + [v % 32]
  }

  function Eights(v: nat, n: nat): (s: seq<nat>)
    ensures |s| == n && Proper(256, s)
  {
    if n == 0 then [] else Eights(v / 256, n - 1) + [v % 256]
  }

  lemma {:induction false} FivesOfValue(s: seq<nat>)
    requires Proper(32, s)
    ensures Fives(Value(32, s), |s|) == s
  {
    if s != [] {
      assert s == s[..|s| - 1] + [s[|s| - 1]];
      FivesOfValue(s[..|s| - 1]);
    }
  }

  lemma {:induction false} EightsOfValue(s: seq<nat>)
    requires Proper(256, s)
    ensures Eights(Value(256, s), |s|) == s
  {
    if s != [] {
      assert s == s[..|s| - 1] + [s[|s| - 1]];
      EightsOfValue(s[..|s| - 1]);
    }
  }

  lemma {:induction false} ValueOfFives(v: nat, n: nat)
    requires v < Pow(32, n)
    ensures Value(32, Fives(v, n)) == v
  {
    if n > 0 {
      ValueOfFives(v / 32, n - 1);
      assert Fives(v, n)[..n - 1] == Fives(v / 32, n - 1);
    }
  }

  // The 5-bit groups of a byte string, the last one filled up with zeros.
  function ToFives(bytes: seq<nat>): (s: seq<nat>)
    ensures |s| == (8 * |bytes| + 4) / 5 && Proper(32, s)
  {
    var n := (8 * |bytes| + 4) / 5;
    Fives(Shl(Value(256, bytes), 5 * n - 8 * |bytes|), n)
  }

  // The whole bytes in a string of 5-bit groups; bits left over are dropped.
  function ToEights(s: seq<nat>): (bytes: seq<nat>)
    ensures |bytes| == 5 * |s| / 8 && Proper(256, bytes)
  {
    Eights(Shr(Value(32, s), 5 * |s| % 8), 5 * |s| / 8)
  }

  // ----- the two directions -----

  lemma {:induction false} PowerOfTwo(k: nat, base: nat, n: nat)
    requires base == Pow2(k)
    ensures Pow(base, n) == Pow2(k * n)
  {
    if n > 0 {
      PowerOfTwo(k, base, n - 1);
      Pow2Add(k, k * (n - 1));
      assert k * n == k + k * (n - 1);
    }
  }

  lemma ShiftBelow(v: nat, p: nat, q: nat, r: nat)
    requires v < p && q > 0 && r == p * q
    ensures v * q < r
  {
    assert (v + 1) * q <= p * q;
    assert (v + 1) * q == v * q + q;
  }

  lemma ToFivesValue(bytes: seq<nat>)
    requires Proper(256, bytes)
    ensures Value(32, ToFives(bytes)) == Shl(Value(256, bytes), 5 * |ToFives(bytes)| - 8 * |bytes|)
  {
    hide Value, Pow, Pow2, Fives, Shl;
    var n, v := (8 * |bytes| + 4) / 5, Value(256, bytes);
    var pad := 5 * n - 8 * |bytes|;
    SmallPow2();
    ValueBelow(256, bytes);
    PowerOfTwo(8, 256, |bytes|);
    PowerOfTwo(5, 32, n);
    Pow2Add(8 * |bytes|, pad);
    ShiftBelow(v, Pow2(8 * |bytes|), Pow2(pad), Pow2(5 * n));
    ShlIs(v, pad);
    ValueOfFives(Shl(v, pad), n);
  }

  lemma EightsUndoFives(bytes: seq<nat>)
    requires Proper(256, bytes)
    ensures ToEights(ToFives(bytes)) == bytes
  {
    var s := ToFives(bytes);
    var pad := 5 * |s| - 8 * |bytes|;
    assert 5 * |s| % 8 == pad && 5 * |s| / 8 == |bytes|;
    ToFivesValue(bytes);
    BackAgain(Value(256, bytes), pad);
    EightsOfValue(bytes);
  }

  // Groups survive the round trip exactly when what is left over is less than a group and zero.
  lemma FivesUndoEights(s: seq<nat>)
    requires Proper(32, s)
    ensures ToFives(ToEights(s)) == s <==> 5 * |s| % 8 < 5 && Low(Value(32, s), 5 * |s| % 8) == 0
  {
    hide *;
    Lengths(|s|);
    if ToFives(ToEights(s)) == s {
      NothingDropped(s);
    }
    if 5 * |s| % 8 < 5 && Low(Value(32, s), 5 * |s| % 8) == 0 {
      NothingLost(s);
    }
  }

  lemma Lengths(n: nat)
    ensures (8 * (5 * n / 8) + 4) / 5 == n <==> 5 * n % 8 < 5
    ensures 5 * n - 8 * (5 * n / 8) == 5 * n % 8
  {
  }

  lemma NothingDropped(s: seq<nat>)
    requires Proper(32, s) && ToFives(ToEights(s)) == s && 5 * |s| % 8 < 5
    ensures Low(Value(32, s), 5 * |s| % 8) == 0
  {
    hide Value, Fives, Eights, ToFives, ToEights, Low, Shr, Shl;
    Lengths(|s|);
    ToFivesValue(ToEights(s));
    BackAgain(Value(256, ToEights(s)), 5 * |s| % 8);
  }

  lemma NothingLost(s: seq<nat>)
    requires Proper(32, s) && 5 * |s| % 8 < 5 && Low(Value(32, s), 5 * |s| % 8) == 0
    ensures ToFives(ToEights(s)) == s
  {
    hide Value, Fives, Eights, ToFives, ToEights, Low, Shr, Shl;
    Lengths(|s|);
    EightsValue(s);
    BackAgain(Value(32, s), 5 * |s| % 8);
    ToFivesValue(ToEights(s));
    FivesOfValue(s);
    FivesOfValue(ToFives(ToEights(s)));
  }

  lemma EightsValue(s: seq<nat>)
    requires Proper(32, s)
    ensures Value(256, ToEights(s)) == Shr(Value(32, s), 5 * |s| % 8)
  {
    hide Value, Pow, Pow2, Eights, Shr, Shl, Low;
    var v, pad, n := Value(32, s), 5 * |s| % 8, 5 * |s| / 8;
    SmallPow2();
    ValueBelow(32, s);
    PowerOfTwo(5, 32, |s|);
    PowerOfTwo(8, 256, n);
    Pow2Add(8 * n, pad);
    BackAgain(v, pad);
    ShlIs(Shr(v, pad), pad);
    FactorBelow(Shr(v, pad), Pow2(pad), Pow2(8 * n));
    ValueOfEights(Shr(v, pad), n);
  }

  lemma FactorBelow(x: nat, q: nat, p: nat)
    requires x * q < p * q
    ensures x < p
  {
    assert x >= p ==> x * q >= p * q;
  }

  lemma {:induction false} ValueOfEights(v: nat, n: nat)
    requires v < Pow(256, n)
    ensures Value(256, Eights(v, n)) == v
  {
    if n > 0 {
      ValueOfEights(v / 256, n - 1);
      assert Eights(v, n)[..n - 1] == Eights(v / 256, n - 1);
    }
  }

  // ----- one step of 8 to 5 -----

  // With the last x bits of the previous byte a still to come, value is what was read and sum what
  // was written.
  predicate Owed(value: nat, sum: nat, x: nat, a: nat) {
    x <= 8 && value == Shl(sum, x) + Low(a, x)
  }

  // The symbol made of those x bits and the first bits of the next byte b.
  function First(a: nat, b: nat, x: nat): nat
    requires x < 5
  {
    And(Or(Shl(a, 5 - x), Shr(b, 3 + x)), 0x1f)
  }

  // The symbol inside b after that, when there is one.
  function Second(b: nat, x: nat): nat
    requires 2 <= x < 5
  {
    And(Shr(b, x - 2), 0x1f)
  }

  lemma FirstIs(a: nat, b: nat, x: nat)
    requires a < 256 && b < 256 && x < 5
    ensures First(a, b, x) == Shl(Low(a, x), 5 - x) + Shr(b, 3 + x) < 32
  {
    hide And, Or, Pow2;
    SmallPow2();
    var hi, lo := Shl(a, 5 - x), Shr(b, 3 + x);
    OrDisjoint(5 - x, Pow2(5 - x), hi, a, lo);
    if x == 0 {
      AndMask(5, 32, hi + lo, a, lo);
    } else if x == 1 {
      AndMask(5, 32, hi + lo, a / 2, a % 2 * 16 + lo);
    } else if x == 2 {
      AndMask(5, 32, hi + lo, a / 4, a % 4 * 8 + lo);
    } else if x == 3 {
      AndMask(5, 32, hi + lo, a / 8, a % 8 * 4 + lo);
    } else {
      AndMask(5, 32, hi + lo, a / 16, a % 16 * 2 + lo);
    }
  }

  lemma SecondIs(b: nat, x: nat)
    requires b < 256 && 2 <= x < 5
    ensures Second(b, x) == Low(Shr(b, x - 2), 5) < 32
  {
    hide And, Pow2;
    SmallPow2();
    var v := Shr(b, x - 2);
    AndMask(5, 32, v, v / 32, v % 32);
  }

  lemma ReadByte(value: nat, sum: nat, x: nat, a: nat, b: nat)
    requires Owed(value, sum, x, a) && x < 5 && a < 256 && b < 256
    ensures x < 2 ==> Owed(256 * value + b, 32 * sum + First(a, b, x), x + 3, b)
    ensures x >= 2 ==> Owed(256 * value + b, 32 * (32 * sum + First(a, b, x)) + Second(b, x), x - 2, b)
  {
    hide And, Or, Pow2, First, Second;
    SmallPow2();
    FirstIs(a, b, x);
    if x >= 2 {
      SecondIs(b, x);
    }
    if x == 0 {
    } else if x == 1 {
    } else if x == 2 {
    } else if x == 3 {
    } else {
    }
  }

  // At the end the owed bits, if any, fill one more symbol from the top.
  lemma ReadEnd(value: nat, sum: nat, x: nat, a: nat)
    requires Owed(value, sum, x, a) && 0 < x < 5 && a < 256
    ensures 32 * sum + First(a, 0, x) == Shl(value, 5 - x)
  {
    hide And, Or, Pow2, First;
    SmallPow2();
    FirstIs(a, 0, x);
    if x == 1 {
    } else if x == 2 {
    } else if x == 3 {
    }
  }

  // ----- one step of 5 to 8 -----

  // value is the whole bytes, w holds x more bits at its top, and together they are sum.
  predicate Held(value: nat, x: nat, w: nat, sum: nat) {
    x <= 8 && Shl(value, x) + Shr(w, 8 - x) == sum && Low(w, 8 - x) == 0 && w < 256
  }

  function Top(w: nat, c: nat, x: nat): nat
    requires x <= 8
  {
    Or(w, Shr(Shl(c, 3), x))
  }

  function Rest(c: nat, x: nat): nat
    requires 3 < x < 8
  {
    Shl(c, 11 - x) % 256
  }

  lemma TopIs(w: nat, c: nat, x: nat)
    requires x < 8 && c < 32 && w < 256 && Low(w, 8 - x) == 0
    ensures Top(w, c, x) == w + Shr(Shl(c, 3), x) < 256
  {
    hide Or, Pow2, Shl, Shr, Low;
    var y, q := Shr(Shl(c, 3), x), Shr(w, 8 - x);
    TopFits(w, c, x);
    BackAgain(w, 8 - x);
    ShlIs(q, 8 - x);
    ShlIs(1, 8 - x);
    OrDisjoint(8 - x, Pow2(8 - x), w, q, y);
  }

  // The top bits of the symbol fall below those the byte holds already.
  lemma TopFits(w: nat, c: nat, x: nat)
    requires x < 8 && c < 32 && w < 256 && Low(w, 8 - x) == 0
    ensures Shr(Shl(c, 3), x) < Shl(1, 8 - x) && w + Shr(Shl(c, 3), x) < 256
  {
    if x == 0 {
    } else if x == 1 {
    } else if x == 2 {
    } else if x == 3 {
    } else if x == 4 {
    } else if x == 5 {
    } else if x == 6 {
    }
  }

  lemma RestIs(c: nat, x: nat)
    requires 3 < x < 8 && c < 32
    ensures Shr(Shl(c, 3), x) == Shr(c, x - 3)
    ensures Shr(Rest(c, x), 11 - x) == Low(c, x - 3) && Low(Rest(c, x), 11 - x) == 0 && Rest(c, x) < 256
  {
    hide Rest, Shl, Shr, Low;
    if x == 4 {
      Rest4(c);
    } else if x == 5 {
      Rest5(c);
    } else if x == 6 {
      Rest6(c);
    } else {
      Rest7(c);
    }
  }

  lemma Rest4(c: nat)
    requires c < 32
    ensures Shr(Shl(c, 3), 4) == Shr(c, 1)
    ensures Shr(Rest(c, 4), 7) == Low(c, 1) && Low(Rest(c, 4), 7) == 0 && Rest(c, 4) < 256
  {
    var q, m := c / 2, c % 2;
    assert c * 128 == 256 * q + 128 * m && c == 2 * q + m;
    assert c * 128 % 256 == 128 * m;
  }

  lemma Rest5(c: nat)
    requires c < 32
    ensures Shr(Shl(c, 3), 5) == Shr(c, 2)
    ensures Shr(Rest(c, 5), 6) == Low(c, 2) && Low(Rest(c, 5), 6) == 0 && Rest(c, 5) < 256
  {
    var q, m := c / 4, c % 4;
    assert c * 64 == 256 * q + 64 * m && c == 4 * q + m;
    assert c * 64 % 256 == 64 * m;
  }

  lemma Rest6(c: nat)
    requires c < 32
    ensures Shr(Shl(c, 3), 6) == Shr(c, 3)
    ensures Shr(Rest(c, 6), 5) == Low(c, 3) && Low(Rest(c, 6), 5) == 0 && Rest(c, 6) < 256
  {
    var q, m := c / 8, c % 8;
    assert c * 32 == 256 * q + 32 * m && c == 8 * q + m;
    assert c * 32 % 256 == 32 * m;
  }

  lemma Rest7(c: nat)
    requires c < 32
    ensures Shr(Shl(c, 3), 7) == Shr(c, 4)
    ensures Shr(Rest(c, 7), 4) == Low(c, 4) && Low(Rest(c, 7), 4) == 0 && Rest(c, 7) < 256
  {
    var q, m := c / 16, c % 16;
    assert c * 16 == 256 * q + 16 * m && c == 16 * q + m;
    assert c * 16 % 256 == 16 * m;
  }

  lemma TakeGroup(value: nat, x: nat, w: nat, sum: nat, c: nat)
    requires Held(value, x, w, sum) && x < 8 && c < 32
    ensures x < 3 ==> Held(value, x + 5, Top(w, c, x), 32 * sum + c)
    ensures x == 3 ==> Held(256 * value + Top(w, c, x), 0, 0, 32 * sum + c)
    ensures x > 3 ==> Held(256 * value + Top(w, c, x), x - 3, Rest(c, x), 32 * sum + c)
  {
    hide Top, Held, Rest;
    if x == 0 {
      Take0(value, w, sum, c);
    } else if x == 1 {
      Take1(value, w, sum, c);
    } else if x == 2 {
      Take2(value, w, sum, c);
    } else if x == 3 {
      Take3(value, w, sum, c);
    } else if x == 4 {
      Take4(value, w, sum, c);
    } else if x == 5 {
      Take5(value, w, sum, c);
    } else if x == 6 {
      Take6(value, w, sum, c);
    } else {
      Take7(value, w, sum, c);
    }
  }

  lemma Halves(q: nat, c: nat)
    ensures (64 * q + 2 * c) / 2 == 32 * q + c && (64 * q + 2 * c) % 2 == 0
  {
  }

  lemma Quarters(q: nat, c: nat)
    ensures (128 * q + 4 * c) / 4 == 32 * q + c && (128 * q + 4 * c) % 4 == 0
  {
  }

  lemma Take0(value: nat, w: nat, sum: nat, c: nat)
    requires Held(value, 0, w, sum) && c < 32
    ensures Held(value, 5, Top(w, c, 0), 32 * sum + c)
  {
    hide Top;
    TopIs(w, c, 0);
    assert w == 0;
  }

  lemma Take1(value: nat, w: nat, sum: nat, c: nat)
    requires Held(value, 1, w, sum) && c < 32
    ensures Held(value, 6, Top(w, c, 1), 32 * sum + c)
  {
    hide Top;
    TopIs(w, c, 1);
    Quarters(w / 128, c);
  }

  lemma Take2(value: nat, w: nat, sum: nat, c: nat)
    requires Held(value, 2, w, sum) && c < 32
    ensures Held(value, 7, Top(w, c, 2), 32 * sum + c)
  {
    hide Top;
    TopIs(w, c, 2);
    Halves(w / 64, c);
  }

  lemma Take3(value: nat, w: nat, sum: nat, c: nat)
    requires Held(value, 3, w, sum) && c < 32
    ensures Held(256 * value + Top(w, c, 3), 0, 0, 32 * sum + c)
  {
    hide Top;
    TopIs(w, c, 3);
    assert w == 32 * (w / 32);
  }

  lemma Take4(value: nat, w: nat, sum: nat, c: nat)
    requires Held(value, 4, w, sum) && c < 32
    ensures Held(256 * value + Top(w, c, 4), 1, Rest(c, 4), 32 * sum + c)
  {
    hide Top, Rest;
    TopIs(w, c, 4);
    RestIs(c, 4);
  }

  lemma Take5(value: nat, w: nat, sum: nat, c: nat)
    requires Held(value, 5, w, sum) && c < 32
    ensures Held(256 * value + Top(w, c, 5), 2, Rest(c, 5), 32 * sum + c)
  {
    hide Top, Rest;
    TopIs(w, c, 5);
    RestIs(c, 5);
  }

  lemma Take6(value: nat, w: nat, sum: nat, c: nat)
    requires Held(value, 6, w, sum) && c < 32
    ensures Held(256 * value + Top(w, c, 6), 3, Rest(c, 6), 32 * sum + c)
  {
    hide Top, Rest;
    TopIs(w, c, 6);
    RestIs(c, 6);
  }

  lemma Take7(value: nat, w: nat, sum: nat, c: nat)
    requires Held(value, 7, w, sum) && c < 32
    ensures Held(256 * value + Top(w, c, 7), 4, Rest(c, 7), 32 * sum + c)
  {
    hide Top, Rest;
    TopIs(w, c, 7);
    RestIs(c, 7);
  }
}
