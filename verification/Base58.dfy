// Base-58 and base-58-check text, in both directions.
module Base58 {
  import opened Common
  import opened Radix
  import opened RadixRoom

  type Octets = s: seq<nat> | Proper(256, s)

  const CHARS: string := "123456789" + "ABCDEFGH" + "JKLMN" + "PQRSTUVWXYZ" + "abcdefghijk" + "mnopqrstuvwxyz"

  // The digit a character stands for; at least 58 for any other character.
  function DigitOf(c: char): nat {
    var v := c as int;
    if '1' <= c <= '9' then v - '1' as int
    else if 'A' <= c <= 'H' then v + 9 - 'A' as int
    else if 'J' <= c <= 'N' then v + 17 - 'J' as int
    else if 'P' <= c <= 'Z' then v + 22 - 'P' as int
    else if 'a' <= c <= 'k' then v + 33 - 'a' as int
    else if 'm' <= c <= 'z' then v + 44 - 'm' as int
    else 0xffff_ffff
  }

  lemma CharOfDigit(d: nat)
    requires d < 58
    ensures |CHARS| == 58 && DigitOf(CHARS[d]) == d
  {
    if d < 9 {
      assert CHARS[d] == "123456789"[d];
    } else if d < 17 {
      assert CHARS[d] == "ABCDEFGH"[d - 9];
    } else if d < 22 {
      assert CHARS[d] == "JKLMN"[d - 17];
    } else if d < 33 {
      assert CHARS[d] == "PQRSTUVWXYZ"[d - 22];
    } else if d < 44 {
      assert CHARS[d] == "abcdefghijk"[d - 33];
    } else {
      assert CHARS[d] == "mnopqrstuvwxyz"[d - 44];
    }
  }

  lemma DigitOfChar(c: char)
    requires DigitOf(c) < 58
    ensures |CHARS| == 58 && CHARS[DigitOf(c)] == c
  {
    var d := DigitOf(c);
    CharOfDigit(d);
    CharsDiffer(CHARS[d], c);
  }

  lemma CharsDiffer(a: char, b: char)
    requires DigitOf(a) == DigitOf(b) < 58
    ensures a == b
  {
  }

  // The digits are the letters and figures in their usual order, without those that look alike.
  lemma AlphabetIs(c: char, d: char)
    ensures DigitOf(c) < 58 <==>
            && ('0' <= c <= '9' || 'A' <= c <= 'Z' || 'a' <= c <= 'z')
            && c != '0' && c != 'O' && c != 'I' && c != 'l'
    ensures DigitOf(c) < 58 && DigitOf(d) < 58 ==> (c < d <==> DigitOf(c) < DigitOf(d))
    ensures DigitOf('1') == 0 && DigitOf('z') == 57
  {
  }

  function Chars(ds: seq<nat>): (s: string)
    requires Proper(58, ds)
    ensures |s| == |ds|
  {
    if ds == [] then "" else CharOfDigit(ds[0]); [CHARS[ds[0]]] + Chars(ds[1..])
  }

  function Ones(n: nat): string {
    if n == 0 then "" else ['1'] + Ones(n - 1)
  }

  function LeadingOnes(s: string): (n: nat)
    ensures n <= |s|
  {
    if s == "" || s[0] != '1' then 0 else 1 + LeadingOnes(s[1..])
  }

  // The digits up to the first character that is not one.
  function DigitsOf(s: string): (ds: seq<nat>)
    ensures Proper(58, ds)
  {
    if s == "" || DigitOf(s[0]) >= 58 then [] else [DigitOf(s[0])] + DigitsOf(s[1..])
  }

  // Each leading zero byte is a leading 1; the rest is one number.
  function Encoded(data: Octets): string {
    ValueOfDigits(58, Value(256, data));
    Ones(LeadingZeros(data)) + Chars(Digits(58, Value(256, data)))
  }

  function Decoded(s: string): (data: Octets) {
    var ds := DigitsOf(s[LeadingOnes(s)..]);
    ValueOfDigits(256, Value(58, ds));
    Zeros(LeadingOnes(s)) + Digits(256, Value(58, ds))
  }

  // ----- the two directions are inverse -----

  lemma {:induction false} DigitsOfChars(ds: seq<nat>)
    requires Proper(58, ds)
    ensures DigitsOf(Chars(ds)) == ds
  {
    hide DigitOf;
    if ds != [] {
      CharOfDigit(ds[0]);
      assert Chars(ds)[1..] == Chars(ds[1..]);
      DigitsOfChars(ds[1..]);
    }
  }

  predicate AllDigits(s: string) {
    forall k :: 0 <= k < |s| ==> DigitOf(s[k]) < 58
  }

  lemma {:induction false} CharsOfDigits(s: string)
    requires AllDigits(s)
    ensures Chars(DigitsOf(s)) == s
  {
    hide DigitOf;
    if s != "" {
      DigitOfChar(s[0]);
      assert DigitsOf(s)[1..] == DigitsOf(s[1..]);
      CharsOfDigits(s[1..]);
    }
  }

  lemma {:induction false} OnesThen(n: nat, s: string)
    requires s == "" || s[0] != '1'
    ensures LeadingOnes(Ones(n) + s) == n && (Ones(n) + s)[n..] == s
  {
    if n == 0 {
      assert Ones(0) + s == s;
    } else {
      OnesThen(n - 1, s);
      assert Ones(n) == ['1'] + Ones(n - 1);
      assert Ones(n) + s == ['1'] + (Ones(n - 1) + s);
      AfterFirst(Ones(n - 1) + s, n - 1);
    }
  }

  lemma AfterFirst(s: string, n: nat)
    requires n <= |s|
    ensures (['1'] + s)[0] == '1' && (['1'] + s)[1..] == s && (['1'] + s)[n + 1..] == s[n..]
  {
  }

  lemma {:induction false} SplitOnes(s: string)
    ensures s == Ones(LeadingOnes(s)) + s[LeadingOnes(s)..]
    ensures LeadingOnes(s) < |s| ==> s[LeadingOnes(s)] != '1'
  {
    if s != "" && s[0] == '1' {
      SplitOnes(s[1..]);
      assert s == ['1'] + s[1..];
      assert s[1..][LeadingOnes(s[1..])..] == s[LeadingOnes(s)..];
    }
  }

  lemma FirstChar(ds: seq<nat>)
    requires Proper(58, ds) && ds != [] && ds[0] != 0
    ensures Chars(ds)[0] != '1'
  {
    CharOfDigit(ds[0]);
    CharOfDigit(0);
  }

  lemma DecodeUndoesEncode(data: Octets)
    ensures Decoded(Encoded(data)) == data
  {
    hide Digits, Chars, DigitsOf, Value;
    var z, v := LeadingZeros(data), Value(256, data);
    var ds := Digits(58, v);
    ValueOfDigits(58, v);
    NoDigits(58);
    NoChars();
    if v > 0 {
      FirstChar(ds);
    }
    OnesThen(z, Chars(ds));
    DigitsOfChars(ds);
    SplitZeros(data);
    ValueZeros(256, z, data[z..]);
    DigitsOfValue(256, data[z..]);
  }

  lemma NoChars()
    ensures Chars([]) == ""
  {
  }

  lemma EncodeUndoesDecode(s: string)
    requires AllDigits(s)
    ensures Encoded(Decoded(s)) == s
  {
    hide Digits, Chars, Value, DigitOf, CHARS;
    var z := LeadingOnes(s);
    SplitOnes(s);
    var rest := s[z..];
    var ds := DigitsOf(rest);
    CharsOfDigits(rest);
    if rest != "" {
      NotOneNotZero(rest[0]);
    }
    DigitsOfValue(58, ds);
    var v := Value(58, ds);
    ValueOfDigits(256, v);
    ZerosThen(z, Digits(256, v));
    ValueZeros(256, z, Digits(256, v));
    NoDigits(256);
  }

  lemma NotOneNotZero(c: char)
    requires c != '1' && DigitOf(c) < 58
    ensures DigitOf(c) != 0
  {
  }

  // ----- encoding -----

  method CountZeros(data: Octets) returns (zcount: nat)
    ensures zcount == LeadingZeros(data)
  {
    zcount := 0;
    assert data[0..] == data;
    while zcount < |data| && data[zcount] == 0
      invariant zcount <= |data| && LeadingZeros(data) == zcount + LeadingZeros(data[zcount..])
    {
      assert data[zcount..][1..] == data[zcount + 1..];
      zcount := zcount + 1;
    }
  }

  // Takes the bytes after the leading zeros into the buffer, one at a time.
  method FillDigits(buf: array<nat>, data: Octets)
    requires buf.Length == |data| * 138 / 100 + 1 && buf[..] == Zeros(buf.Length)
    modifies buf
    ensures Proper(58, buf[..]) && Value(58, buf[..]) == Value(256, data)
  {
    hide Value, Pow;
    ValueOfZeros(58, buf.Length);
    EmptyValue(256);
    var i := 0;
    while i < |data|
      invariant 0 <= i <= |data| && Proper(58, buf[..])
      invariant Value(58, buf[..]) == Value(256, data[..i])
    {
      BufferHolds(data, i, buf.Length);
      MulAdd(buf, 58, 256, data[i]);
      i := i + 1;
    }
    assert data[..i] == data;
  }

  method SkipZeros(buf: array<nat>) returns (i: nat)
    ensures i == LeadingZeros(buf[..])
  {
    i := 0;
    ghost var digits := buf[..];
    assert digits[0..] == digits;
    while i < buf.Length && buf[i] == 0
      invariant 0 <= i <= buf.Length && LeadingZeros(digits) == i + LeadingZeros(digits[i..])
    {
      assert digits[i..][1..] == digits[i + 1..];
      i := i + 1;
    }
  }

  // The text with its terminating NUL, or the room it needs, or 0 when it does not fit.
  method Encode(data: Octets, capacity: Option<nat>) returns (len: nat, str: Option<string>)
    ensures len == if capacity.Some? && |Encoded(data)| + 1 > capacity.value then 0 else |Encoded(data)| + 1
    ensures str == if capacity.Some? && |Encoded(data)| + 1 <= capacity.value then Some(Encoded(data)) else None
  {
    hide Value, Digits, Pow, CHARS, Encoded, LeadingZeros;
    var zcount := CountZeros(data);
    var buf := new nat[(|data| - zcount) * 138 / 100 + 1](_ => 0);
    assert buf[..] == Zeros(buf.Length);
    FillDigits(buf, data[zcount..]);
    var i := SkipZeros(buf);
    EncodedParts(data, buf[..]);
    len := zcount + buf.Length - i + 1;
    str := None;
    if capacity.Some? && len <= capacity.value {
      var text := WriteText(zcount, buf[i..]);
      str := Some(text);
    }
    if capacity.Some? && len > capacity.value {
      len := 0;
    }
  }

  lemma EncodedParts(data: Octets, digits: seq<nat>)
    requires Proper(58, digits) && Value(58, digits) == Value(256, data[LeadingZeros(data)..])
    ensures Encoded(data) == Ones(LeadingZeros(data)) + Chars(digits[LeadingZeros(digits)..])
    ensures |Encoded(data)| == LeadingZeros(data) + |digits| - LeadingZeros(digits)
  {
    hide Value, Digits;
    SplitZeros(data);
    ValueZeros(256, LeadingZeros(data), data[LeadingZeros(data)..]);
    StrippedAreDigits(58, digits);
    OnesLength(LeadingZeros(data));
  }

  method WriteText(zcount: nat, ds: seq<nat>) returns (str: string)
    requires Proper(58, ds)
    ensures str == Ones(zcount) + Chars(ds)
  {
    hide CHARS;
    str := "";
    var z, i := zcount, 0;
    while z > 0
      invariant 0 <= z <= zcount && str + Ones(z) == Ones(zcount)
    {
      assert str + (['1'] + Ones(z - 1)) == str + ['1'] + Ones(z - 1);
      CharOfDigit(0);
      DigitOfChar('1');
      str := str + [CHARS[0]];
      z := z - 1;
    }
    while i < |ds|
      invariant 0 <= i <= |ds| && str + Chars(ds[i..]) == Ones(zcount) + Chars(ds)
    {
      CharOfDigit(ds[i]);
      assert ds[i..][1..] == ds[i + 1..];
      assert str + ([CHARS[ds[i]]] + Chars(ds[i + 1..])) == str + [CHARS[ds[i]]] + Chars(ds[i + 1..]);
      str := str + [CHARS[ds[i]]];
      i := i + 1;
    }
  }

  lemma EmptyValue(base: nat)
    ensures Value(base, []) == 0
  {
  }

  lemma {:induction false} OnesLength(n: nat)
    ensures |Ones(n)| == n
  {
    if n > 0 {
      OnesLength(n - 1);
    }
  }

  // The next byte keeps the number below what the buffer holds.
  lemma BufferHolds(data: Octets, i: nat, room: nat)
    requires i < |data| && room == |data| * 138 / 100 + 1
    ensures 256 * Value(256, data[..i]) + data[i] == Value(256, data[..i + 1]) < Pow(58, room)
  {
    hide Pow;
    assert data[..i + 1][..i] == data[..i];
    ValueBelow(256, data[..i + 1]);
    PowGrows(256, i + 1, |data|);
    EncodeRoom(|data|);
  }

  // ----- decoding -----

  method CountOnes(s: string) returns (zcount: nat)
    ensures zcount == LeadingOnes(s)
  {
    zcount := 0;
    assert s[0..] == s;
    while zcount < |s| && s[zcount] == '1'
      invariant zcount <= |s| && LeadingOnes(s) == zcount + LeadingOnes(s[zcount..])
    {
      assert s[zcount..][1..] == s[zcount + 1..];
      zcount := zcount + 1;
    }
  }

  // Takes digits into the buffer until the text ends or a character is not a digit.
  method FillBytes(buf: array<nat>, s: string)
    requires buf.Length == |s| * 733 / 1000 + 1 && buf[..] == Zeros(buf.Length)
    modifies buf
    ensures Proper(256, buf[..]) && Value(256, buf[..]) == Value(58, DigitsOf(s))
  {
    hide Value, Pow, DigitOf;
    ValueOfZeros(256, buf.Length);
    EmptyValue(58);
    var k := 0;
    ghost var done: seq<nat> := [];
    assert s[0..] == s;
    while k < |s|
      invariant 0 <= k <= |s| && |done| == k && Proper(58, done) && Proper(256, buf[..])
      invariant DigitsOf(s) == done + DigitsOf(s[k..])
      invariant Value(256, buf[..]) == Value(58, done)
    {
      var carry := DigitOf(s[k]);
      if carry >= 58 {
        break;
      }
      assert s[k..][1..] == s[k + 1..];
      assert done + ([carry] + DigitsOf(s[k + 1..])) == (done + [carry]) + DigitsOf(s[k + 1..]);
      BytesHold(done, carry, |s|, buf.Length);
      MulAdd(buf, 256, 58, carry);
      done := done + [carry];
      k := k + 1;
    }
    assert DigitsOf(s[k..]) == [] && done + [] == done;
  }

  lemma BytesHold(ds: seq<nat>, d: nat, n: nat, room: nat)
    requires Proper(58, ds) && d < 58 && |ds| < n && room == n * 733 / 1000 + 1
    ensures 58 * Value(58, ds) + d == Value(58, ds + [d]) < Pow(256, room)
  {
    hide Pow;
    assert (ds + [d])[..|ds|] == ds;
    ValueBelow(58, ds + [d]);
    PowGrows(58, |ds| + 1, n);
    DecodeRoom(n);
  }

  // The bytes, or how many there are, or 0 when they do not fit.
  method Decode(s: string, capacity: Option<nat>) returns (len: nat, data: Option<Octets>)
    ensures len == if capacity.Some? && |Decoded(s)| > capacity.value then 0 else |Decoded(s)|
    ensures data == if capacity.Some? && |Decoded(s)| <= capacity.value then Some(Decoded(s)) else None
  {
    hide Value, Digits, Pow, LeadingOnes, LeadingZeros, DigitsOf;
    var zcount := CountOnes(s);
    var buf := new nat[|s[zcount..]| * 733 / 1000 + 1](_ => 0);
    assert buf[..] == Zeros(buf.Length);
    FillBytes(buf, s[zcount..]);
    var i := SkipZeros(buf);
    StrippedAreDigits(256, buf[..]);
    assert Decoded(s) == Zeros(zcount) + buf[..][i..];
    len := zcount + buf.Length - i;
    data := if capacity.Some? && len <= capacity.value then Some(Zeros(zcount) + buf[..][i..]) else None;
    if capacity.Some? && len > capacity.value {
      len := 0;
    }
  }

  // ----- with a checksum -----

  ghost predicate IsDigest(hash: Octets -> Octets) {
    forall d :: |hash(d)| == 32
  }

  function CheckEncoded(hash: Octets -> Octets, data: Octets): string
    requires |hash(data)| == 32
  {
    Encoded(data + hash(data)[..4])
  }

  // The payload if the last four bytes are the first four of its digest; nothing otherwise.
  function CheckDecoded(hash: Octets -> Octets, s: string): Octets
    requires IsDigest(hash)
  {
    var d := Decoded(s);
    if |d| >= 4 && d[|d| - 4..] == hash(d[..|d| - 4])[..4] then d[..|d| - 4] else []
  }

  lemma CheckDecodeUndoesCheckEncode(hash: Octets -> Octets, data: Octets)
    requires IsDigest(hash)
    ensures CheckDecoded(hash, CheckEncoded(hash, data)) == data
  {
    hide Encoded, Decoded;
    var d: Octets := data + hash(data)[..4];
    DecodeUndoesEncode(d);
    assert d[..|d| - 4] == data && d[|d| - 4..] == hash(data)[..4];
  }

  // A text of digits decodes to a payload exactly when it is that payload's encoding.
  lemma CheckEncodeUndoesCheckDecode(hash: Octets -> Octets, s: string, data: Octets)
    requires IsDigest(hash) && AllDigits(s) && data != []
    ensures CheckDecoded(hash, s) == data <==> s == CheckEncoded(hash, data)
  {
    hide Encoded, Decoded;
    if CheckDecoded(hash, s) == data {
      var d := Decoded(s);
      assert d == data + d[|d| - 4..];
      EncodeUndoesDecode(s);
    }
    if s == CheckEncoded(hash, data) {
      CheckDecodeUndoesCheckEncode(hash, data);
    }
  }

  method CheckEncode(hash: Octets -> Octets, data: Octets, capacity: Option<nat>)
    returns (len: nat, str: Option<string>)
    requires IsDigest(hash)
    ensures len == if capacity.Some? && |CheckEncoded(hash, data)| + 1 > capacity.value then 0
                   else |CheckEncoded(hash, data)| + 1
    ensures str == if capacity.Some? && |CheckEncoded(hash, data)| + 1 <= capacity.value
                   then Some(CheckEncoded(hash, data)) else None
  {
    len, str := Encode(data + hash(data)[..4], capacity);
  }

  // Decodes into a buffer as long as the text, which is always enough.
  method CheckDecode(hash: Octets -> Octets, s: string, capacity: Option<nat>) returns (len: nat, data: Option<Octets>)
    requires IsDigest(hash)
    ensures len == if capacity.Some? && |CheckDecoded(hash, s)| > capacity.value then 0 else |CheckDecoded(hash, s)|
    ensures data == if capacity.Some? && |Decoded(s)| >= 4 && |CheckDecoded(hash, s)| <= capacity.value
                    then Some(CheckDecoded(hash, s)) else None
  {
    hide Decoded;
    DecodedIsShorter(s);
    var n, decoded := Decode(s, Some(|s|));
    var buf := decoded.value;
    data := None;
    len := n;
    if len >= 4 {
      len := len - 4;
      var md := hash(buf[..len]);
      if buf[len..] != md[..4] {
        len := 0;
      }
      if capacity.Some? && len <= capacity.value {
        data := Some(buf[..len]);
      }
    } else {
      len := 0;
    }
    if capacity.Some? && len > capacity.value {
      len := 0;
    }
  }

  lemma DecodedIsShorter(s: string)
    ensures |Decoded(s)| <= |s|
  {
    hide Value, Digits, Pow, LeadingOnes;
    var rest := s[LeadingOnes(s)..];
    var ds := DigitsOf(rest);
    DigitsNoLonger(rest);
    ValueBelow(58, ds);
    BaseGrows(58, 256, |ds|);
    DigitsShort(256, Value(58, ds), |ds|);
  }

  lemma {:induction false} DigitsNoLonger(s: string)
    ensures |DigitsOf(s)| <= |s|
  {
    if s != "" {
      DigitsNoLonger(s[1..]);
    }
  }

  lemma {:induction false} BaseGrows(a: nat, b: nat, n: nat)
    requires a <= b
    ensures Pow(a, n) <= Pow(b, n)
  {
    if n > 0 {
      BaseGrows(a, b, n - 1);
      Multiply(a, b, Pow(a, n - 1), Pow(b, n - 1));
    }
  }
}
