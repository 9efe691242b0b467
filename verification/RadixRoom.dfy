// That the fixed buffers of base-58 conversion are large enough.
module RadixRoom {
  import opened Radix

  lemma {:induction false} PowAdd(b: nat, m: nat, n: nat)
    ensures Pow(b, m + n) == Pow(b, m) * Pow(b, n)
  {
    if m > 0 {
      PowAdd(b, m - 1, n);
      Associate(b, Pow(b, m - 1), Pow(b, n));
    }
  }

  lemma Associate(x: nat, y: nat, z: nat)
    ensures x * (y * z) == (x * y) * z
  {
  }

  lemma AtLeast(b: nat, x: nat)
    requires b > 0
    ensures x <= b * x
  {
  }

  lemma {:induction false} PowGrows(b: nat, m: nat, n: nat)
    requires b > 0 && m <= n
    ensures Pow(b, m) <= Pow(b, n)
    decreases n
  {
    if m < n {
      PowGrows(b, m, n - 1);
      AtLeast(b, Pow(b, n - 1));
    }
  }

  lemma Multiply(a: nat, b: nat, c: nat, d: nat)
    requires a <= b && c <= d
    ensures a * c <= b * d
  {
    assert a * c <= b * c <= b * d;
  }

  // Small powers of 58 and of 256.
  lemma SmallPowers()
    ensures Pow(58, 0) == 1 && Pow(256, 0) == 1
    ensures Pow(58, 1) == 58
    ensures Pow(58, 2) == 3364
    ensures Pow(58, 3) == 195112
    ensures Pow(58, 4) == 11316496
    ensures Pow(58, 5) == 656356768
    ensures Pow(58, 6) == 38068692544
    ensures Pow(58, 7) == 2207984167552
    ensures Pow(58, 8) == 128063081718016
    ensures Pow(58, 9) == 7427658739644928
    ensures Pow(58, 10) == 430804206899405824
    ensures Pow(58, 11) == 24986644000165537792
    ensures Pow(58, 12) == 1449225352009601191936
    ensures Pow(58, 13) == 84055070416556869132288
    ensures Pow(58, 14) == 4875194084160298409672704
    ensures Pow(58, 15) == 282761256881297307761016832
    ensures Pow(256, 1) == 256
    ensures Pow(256, 2) == 65536
    ensures Pow(256, 3) == 16777216
    ensures Pow(256, 4) == 4294967296
    ensures Pow(256, 5) == 1099511627776
    ensures Pow(256, 6) == 281474976710656
    ensures Pow(256, 7) == 72057594037927936
    ensures Pow(256, 8) == 18446744073709551616
    ensures Pow(256, 9) == 4722366482869645213696
    ensures Pow(256, 10) == 1208925819614629174706176
    ensures Pow(256, 11) == 309485009821345068724781056
  {
    assert Pow(58, 1) == 58 * Pow(58, 0);
    assert Pow(58, 2) == 58 * Pow(58, 1);
    assert Pow(58, 3) == 58 * Pow(58, 2);
    assert Pow(58, 4) == 58 * Pow(58, 3);
    assert Pow(58, 5) == 58 * Pow(58, 4);
    assert Pow(58, 6) == 58 * Pow(58, 5);
    assert Pow(58, 7) == 58 * Pow(58, 6);
    assert Pow(58, 8) == 58 * Pow(58, 7);
    assert Pow(58, 9) == 58 * Pow(58, 8);
    assert Pow(58, 10) == 58 * Pow(58, 9);
    assert Pow(58, 11) == 58 * Pow(58, 10);
    assert Pow(58, 12) == 58 * Pow(58, 11);
    assert Pow(58, 13) == 58 * Pow(58, 12);
    assert Pow(58, 14) == 58 * Pow(58, 13);
    assert Pow(58, 15) == 58 * Pow(58, 14);
    assert Pow(256, 1) == 256 * Pow(256, 0);
    assert Pow(256, 2) == 256 * Pow(256, 1);
    assert Pow(256, 3) == 256 * Pow(256, 2);
    assert Pow(256, 4) == 256 * Pow(256, 3);
    assert Pow(256, 5) == 256 * Pow(256, 4);
    assert Pow(256, 6) == 256 * Pow(256, 5);
    assert Pow(256, 7) == 256 * Pow(256, 6);
    assert Pow(256, 8) == 256 * Pow(256, 7);
    assert Pow(256, 9) == 256 * Pow(256, 8);
    assert Pow(256, 10) == 256 * Pow(256, 9);
    assert Pow(256, 11) == 256 * Pow(256, 10);
  }

  lemma EightBytes()
    ensures Pow(256, 8) <= Pow(58, 11)
  {
    SmallPowers();
  }

  lemma SeventyOneDigits()
    ensures Pow(58, 71) <= Pow(256, 52)
  {
    hide Pow;
    SmallPowers();
    PowAdd(58, 15, 15);
    PowAdd(58, 30, 30);
    PowAdd(58, 60, 11);
    PowAdd(256, 11, 2);
    PowAdd(256, 13, 13);
    PowAdd(256, 26, 26);
    assert Pow(58, 30) == 79953928393091004080532279173738402825689466587316224;
    assert Pow(58, 60)
       == 6392630665487523829925705590507004456832030712891733088851577912861189652777515686114891080333114973618176;
    assert Pow(256, 13) == 20282409603651670423947251286016;
    assert Pow(256, 26) == 411376139330301510538742295639337626245683966408394965837152256;
  }

  lemma {:induction false} FifteenDigits(q: nat)
    ensures Pow(58, 15 * q) <= Pow(256, 11 * q)
  {
    hide Pow;
    SmallPowers();
    if q > 0 {
      FifteenDigits(q - 1);
      PowAdd(58, 15 * (q - 1), 15);
      PowAdd(256, 11 * (q - 1), 11);
      Multiply(Pow(58, 15 * (q - 1)), Pow(256, 11 * (q - 1)), Pow(58, 15), Pow(256, 11));
    }
  }

  // 256^n fits in 138n/100 + 1 digits of base 58.
  lemma {:induction false} EncodeRoom(n: nat)
    ensures Pow(256, n) <= Pow(58, n * 138 / 100 + 1)
  {
    hide Pow;
    if n < 8 {
      SmallPowers();
    } else {
      var e := (n - 8) * 138 / 100 + 1;
      EncodeRoom(n - 8);
      EightBytes();
      PowAdd(256, n - 8, 8);
      PowAdd(58, e, 11);
      Multiply(Pow(256, n - 8), Pow(58, e), Pow(256, 8), Pow(58, 11));
      PowGrows(58, e + 11, n * 138 / 100 + 1);
    }
  }

  // 58^n fits in 733n/1000 + 1 bytes.
  lemma {:induction false} DecodeRoom(n: nat)
    ensures Pow(58, n) <= Pow(256, n * 733 / 1000 + 1)
  {
    hide Pow;
    if n < 71 {
      var q, r := n / 15, n % 15;
      var c := RoomFor(r);
      FifteenDigits(q);
      PowAdd(58, 15 * q, r);
      PowAdd(256, 11 * q, c);
      Multiply(Pow(58, 15 * q), Pow(256, 11 * q), Pow(58, r), Pow(256, c));
      PowGrows(256, 11 * q + c, n * 733 / 1000 + 1);
    } else {
      var e := (n - 71) * 733 / 1000 + 1;
      DecodeRoom(n - 71);
      SeventyOneDigits();
      PowAdd(58, n - 71, 71);
      PowAdd(256, e, 52);
      Multiply(Pow(58, n - 71), Pow(256, e), Pow(58, 71), Pow(256, 52));
      PowGrows(256, e + 52, n * 733 / 1000 + 1);
    }
  }

  // Bytes enough for fewer than fifteen digits, close enough that five such groups still fit.
  lemma RoomFor(r: nat) returns (c: nat)
    requires r < 15
    ensures Pow(58, r) <= Pow(256, c)
    ensures forall q :: 0 <= q <= 4 ==> 11 * q + c <= (15 * q + r) * 733 / 1000 + 1
  {
    hide Pow;
    SmallPowers();
    c := if r == 0 then 0 else r * 733 / 1000 + 1;
  }

  // A number below base^n has at most n digits.
  lemma {:induction false} DigitsShort(base: nat, v: nat, n: nat)
    requires IsBase(base) && v < Pow(base, n)
    ensures |Digits(base, v)| <= n
    decreases n
  {
    hide Div, Mod;
    if v > 0 && n > 0 {
      DivMod(base, v);
      Smaller(base, Div(base, v), Pow(base, n - 1));
      DigitsShort(base, Div(base, v), n - 1);
    }
  }

  lemma Smaller(base: nat, x: nat, p: nat)
    requires base * x < base * p
    ensures x < p
  {
    if x >= p {
      Multiply(base, base, p, x);
    }
  }
}
