// ECDSA signatures in DER: the strict parser, the serialiser, and the lax parser.
module Der {
  import opened Common
  import opened Radix
  import opened RadixRoom
  import opened Regroup

  // The order of the secp256k1 group; scalars are below it.
  const ORDER: nat := 0xffffffff_ffffffff_ffffffff_fffffffe_baaedce6_af48a03b_bfd25e8c_d0364141

  // ----- minimal big-endian integers (X.690, section 8.3) -----

  // Not negative, and no leading zero byte unless the next byte would look negative.
  predicate Minimal(c: seq<nat>) {
    |c| > 0 && c[0] < 0x80 && (|c| > 1 && c[0] == 0 ==> c[1] >= 0x80)
  }

  function MinBytes(v: nat): seq<nat> {
    var ds := Digits(256, v);
    if ds == [] || ds[0] >= 0x80 then [0] + ds else ds
  }

  lemma MinBytesAre(v: nat)
    ensures Minimal(MinBytes(v)) && Proper(256, MinBytes(v)) && Value(256, MinBytes(v)) == v
    ensures v < ORDER ==> |MinBytes(v)| <= 33
  {
    hide Value, Pow, Digits;
    ValueOfDigits(256, v);
    var ds := Digits(256, v);
    ValueZeros(256, 1, ds);
    assert Zeros(1) + ds == [0] + ds;
    if v < ORDER {
      OrderFits();
      DigitsShort(256, v, 32);
    }
  }

  lemma OrderFits()
    ensures ORDER < Pow(256, 32)
  {
    hide Pow;
    SmallPowers();
    PowAdd(256, 8, 8);
    PowAdd(256, 16, 16);
    assert Pow(256, 16) == 0x1_00000000_00000000_00000000_00000000;
  }

  // The minimal bytes of a number are its only minimal bytes.
  lemma MinimalIsUnique(c: seq<nat>)
    requires Proper(256, c) && Minimal(c)
    ensures c == MinBytes(Value(256, c))
  {
    hide Value, Digits;
    StrippedAreDigits(256, c);
    if c[0] == 0 {
      if |c| > 1 {
        assert LeadingZeros(c) == 1;
        assert c == [0] + c[1..];
      }
    }
  }

  // ----- lengths (X.690, section 8.1.3) -----

  datatype Length = Length(value: nat, next: nat)

  // The definite length at a position, in its shortest form, if that much input follows.
  function LengthAt(sig: seq<nat>, pos: nat): (l: Option<Length>)
    ensures l.Some? ==> pos < l.value.next <= |sig|
  {
    if pos >= |sig| || sig[pos] == 0x80 || sig[pos] == 0xff then None
    else if sig[pos] < 0x80 then Some(Length(sig[pos], pos + 1))
    else
      var n := sig[pos] - 0x80;
      if n > |sig| - pos - 1 || n > 8 || sig[pos + 1] == 0 then None
      else
        var v := Value(256, sig[pos + 1..pos + 1 + n]);
        if v < 128 || v > |sig| - pos - 1 - n then None else Some(Length(v, pos + 1 + n))
  }

  method ReadLength(sig: seq<nat>, pos: nat) returns (ret: int, next: nat)
    requires Proper(256, sig) && pos <= |sig| < 0x8000_0000
    ensures ret < 0 <==> LengthAt(sig, pos).None?
    ensures ret >= 0 ==> LengthAt(sig, pos) == Some(Length(ret, next))
  {
    hide Value;
    next := pos;
    if next >= |sig| {
      return -1, next;
    }
    var b1 := sig[next];
    next := next + 1;
    if b1 == 0xff {
      return -1, next;
    }
    if b1 < 0x80 {
      return b1, next;
    }
    if b1 == 0x80 {
      return -1, next;
    }
    var lenleft := b1 - 0x80;
    ghost var n := lenleft;
    if lenleft > |sig| - next {
      return -1, next;
    }
    if sig[next] == 0 {
      return -1, next;
    }
    if lenleft > 8 {
      return -1, next;
    }
    ghost var bytes := sig[pos + 1..pos + 1 + n];
    ret := 0;
    NoBytes();
    assert bytes[..0] == [];
    while lenleft > 0
      invariant 0 <= lenleft <= n && next == pos + 1 + n - lenleft
      invariant 0 <= ret == Value(256, bytes[..n - lenleft])
      invariant ret <= |sig| - pos - 1 - n
    {
      ValueStep(bytes, n - lenleft);
      ret := ret * 256 + sig[next];
      if ret + lenleft > |sig| - next {
        ValueGrows(bytes, n - lenleft + 1);
        return -1, next;
      }
      next := next + 1;
      lenleft := lenleft - 1;
    }
    assert bytes[..n] == bytes;
    if ret < 128 {
      return -1, next;
    }
  }

  lemma NoBytes()
    ensures Value(256, []) == 0
  {
  }

  lemma ValueStep(bytes: seq<nat>, k: nat)
    requires k < |bytes|
    ensures Value(256, bytes[..k + 1]) == 256 * Value(256, bytes[..k]) + bytes[k]
  {
    assert bytes[..k + 1][..k] == bytes[..k];
  }

  lemma {:induction false} ValueGrows(bytes: seq<nat>, k: nat)
    requires k <= |bytes|
    ensures Value(256, bytes[..k]) <= Value(256, bytes)
    decreases |bytes| - k
  {
    if k < |bytes| {
      ValueStep(bytes, k);
      ValueGrows(bytes, k + 1);
    } else {
      assert bytes[..k] == bytes;
    }
  }

  // ----- the strict parser -----

  // An integer: its value when it is a scalar, nothing when it is negative or too large.
  datatype Integer = Integer(scalar: Option<nat>, next: nat)

  predicate Padded(c: seq<nat>)
    requires |c| > 0
  {
    |c| > 1 && ((c[0] == 0 && c[1] < 0x80) || (c[0] == 0xff && c[1] >= 0x80))
  }

  function ScalarOf(c: seq<nat>): Option<nat>
    requires |c| > 0
  {
    if c[0] >= 0x80 || Value(256, c) >= ORDER then None else Some(Value(256, c))
  }

  function IntegerAt(sig: seq<nat>, pos: nat): (i: Option<Integer>)
    ensures i.Some? ==> pos < i.value.next <= |sig|
  {
    if pos >= |sig| || sig[pos] != 0x02 || LengthAt(sig, pos + 1).None? then None
    else
      var Length(n, start) := LengthAt(sig, pos + 1).value;
      if n == 0 || start + n > |sig| || Padded(sig[start..start + n]) then None
      else Some(Integer(ScalarOf(sig[start..start + n]), start + n))
  }

  // Both integers of a signature that is exactly one sequence of exactly two integers.
  function Parsed(sig: seq<nat>): Option<(Option<nat>, Option<nat>)> {
    if |sig| == 0 || sig[0] != 0x30 || LengthAt(sig, 1).None? then None
    else
      var Length(n, start) := LengthAt(sig, 1).value;
      if start + n != |sig| || IntegerAt(sig, start).None? then None
      else
        var r := IntegerAt(sig, start).value;
        if IntegerAt(sig, r.next).None? then None
        else
          var s := IntegerAt(sig, r.next).value;
          if s.next != |sig| then None else Some((r.scalar, s.scalar))
  }

  function OrZero(v: Option<nat>): nat {
    if v.Some? then v.value else 0
  }

  function SkipZeros(b: seq<nat>): seq<nat> {
    b[LeadingZeros(b)..]
  }

  // Moves past leading zero bytes.
  method SkipLeading(input: seq<nat>, pos0: nat, len0: nat) returns (pos: nat, len: nat)
    requires pos0 + len0 <= |input|
    ensures pos0 <= pos && pos + len == pos0 + len0
    ensures input[pos..pos + len] == SkipZeros(input[pos0..pos0 + len0])
  {
    pos, len := pos0, len0;
    ghost var c := input[pos0..pos0 + len0];
    while len > 0 && input[pos] == 0
      invariant pos0 <= pos && pos + len == pos0 + len0
      invariant input[pos..pos + len] == c[pos - pos0..]
      invariant LeadingZeros(c) == pos - pos0 + LeadingZeros(c[pos - pos0..])
    {
      assert c[pos - pos0..][1..] == c[pos + 1 - pos0..];
      pos, len := pos + 1, len - 1;
    }
  }

  lemma SkipKeepsValue(c: seq<nat>)
    ensures Value(256, SkipZeros(c)) == Value(256, c)
    ensures Proper(256, c) && |SkipZeros(c)| > 32 ==> Value(256, c) >= ORDER
  {
    hide Value;
    SplitZeros(c);
    ValueZeros(256, LeadingZeros(c), SkipZeros(c));
    if Proper(256, c) && |SkipZeros(c)| > 32 {
      TooLong(SkipZeros(c));
    }
  }

  // Reads one integer; a scalar out of range is reported as 0.
  method ParseInteger(sig: seq<nat>, pos: nat) returns (ok: bool, scalar: nat, next: nat)
    requires Proper(256, sig) && pos <= |sig| < 0x8000_0000
    ensures ok <==> IntegerAt(sig, pos).Some?
    ensures ok ==> scalar == OrZero(IntegerAt(sig, pos).value.scalar) && next == IntegerAt(sig, pos).value.next
  {
    hide Value, LengthAt, SkipZeros;
    ok, scalar, next := false, 0, pos;
    if next == |sig| || sig[next] != 0x02 {
      return;
    }
    next := next + 1;
    var rlen;
    rlen, next := ReadLength(sig, next);
    if rlen <= 0 || next + rlen > |sig| {
      return;
    }
    ghost var c := sig[next..next + rlen];
    if sig[next] == 0 && rlen > 1 && sig[next + 1] < 0x80 {
      return;
    }
    if sig[next] == 0xff && rlen > 1 && sig[next + 1] >= 0x80 {
      return;
    }
    var overflow := sig[next] >= 0x80;
    SkipKeepsValue(c);
    next, rlen := SkipLeading(sig, next, rlen);
    if rlen > 32 {
      overflow := true;
    }
    if !overflow {
      var ra := Zeros(32 - rlen) + sig[next..next + rlen];
      ValueZeros(256, 32 - rlen, sig[next..next + rlen]);
      overflow := Value(256, ra) >= ORDER;
      scalar := if overflow then 0 else Value(256, ra);
    }
    if overflow {
      scalar := 0;
    }
    next := next + rlen;
    ok := true;
  }

  lemma DropZero(c: seq<nat>)
    requires |c| > 0 && c[0] == 0
    ensures Value(256, c[1..]) == Value(256, c)
  {
    assert c == Zeros(1) + c[1..];
    ValueZeros(256, 1, c[1..]);
  }

  lemma TooLong(c: seq<nat>)
    requires Proper(256, c) && |c| > 32 && c[0] != 0
    ensures Value(256, c) >= ORDER
  {
    hide Pow, Value;
    var n := |c| - 1;
    assert c == [c[0]] + c[1..];
    ValueConcat(256, [c[0]], c[1..]);
    One(256, c[0]);
    PowGrows(256, 32, n);
    OrderFits();
    AtLeast(c[0], Pow(256, n));
  }

  method Parse(sig: seq<nat>) returns (ok: bool, r: nat, s: nat)
    requires Proper(256, sig) && |sig| < 0x8000_0000
    ensures ok <==> Parsed(sig).Some?
    ensures ok ==> r == OrZero(Parsed(sig).value.0) && s == OrZero(Parsed(sig).value.1)
  {
    hide LengthAt, IntegerAt;
    ok, r, s := false, 0, 0;
    if |sig| == 0 || sig[0] != 0x30 {
      return;
    }
    var rlen, pos := ReadLength(sig, 1);
    if rlen < 0 || pos + rlen > |sig| {
      return;
    }
    if pos + rlen != |sig| {
      return;
    }
    var good;
    good, r, pos := ParseInteger(sig, pos);
    if !good {
      return;
    }
    good, s, pos := ParseInteger(sig, pos);
    if !good {
      return;
    }
    if pos != |sig| {
      return;
    }
    ok := true;
  }

  // ----- the serialiser -----

  function IntegerBytes(v: nat): seq<nat> {
    [0x02, |MinBytes(v)|] + MinBytes(v)
  }

  function Serialized(r: nat, s: nat): seq<nat> {
    [0x30, 4 + |MinBytes(s)| + |MinBytes(r)|] + IntegerBytes(r) + IntegerBytes(s)
  }

  // Two signatures as bytes: small scalars, and scalars whose top bit would look like a sign.
  lemma Examples()
    ensures Serialized(1, 2) == [0x30, 0x06, 0x02, 0x01, 0x01, 0x02, 0x01, 0x02]
    ensures Serialized(0x80, 0x1ff) == [0x30, 0x08, 0x02, 0x02, 0x00, 0x80, 0x02, 0x02, 0x01, 0xff]
  {
    hide MinBytes;
    OneByteMinimal(1);
    OneByteMinimal(2);
    TwoBytesMinimal(0, 0x80);
    TwoBytesMinimal(1, 0xff);
    assert IntegerBytes(0x80) == [0x02, 0x02, 0x00, 0x80];
    assert IntegerBytes(0x1ff) == [0x02, 0x02, 0x01, 0xff];
  }

  lemma OneByteMinimal(a: nat)
    requires a < 0x80
    ensures MinBytes(a) == [a]
  {
    OneByte(a);
    hide Value, MinBytes;
    MinimalIsUnique([a]);
  }

  lemma TwoBytesMinimal(a: nat, b: nat)
    requires a < 0x80 && b < 0x100 && (a > 0 || b >= 0x80)
    ensures MinBytes(256 * a + b) == [a, b]
  {
    TwoBytes(a, b);
    hide Value, MinBytes;
    MinimalIsUnique([a, b]);
  }

  lemma OneByte(a: nat)
    ensures Value(256, [a]) == a
  {
    assert [a][..0] == [];
  }

  lemma TwoBytes(a: nat, b: nat)
    ensures Value(256, [a, b]) == 256 * a + b
  {
    OneByte(a);
    assert [a, b][..1] == [a];
  }

  // The 33 bytes of a scalar, a zero in front, with needless zeros dropped from the front.
  method Trimmed(v: nat) returns (c: seq<nat>)
    requires v < ORDER
    ensures c == MinBytes(v)
  {
    hide Value, Pow, Eights;
    OrderFits();
    ValueOfEights(v, 32);
    var bytes := [0] + Eights(v, 32);
    assert bytes == Zeros(1) + Eights(v, 32);
    ValueZeros(256, 1, Eights(v, 32));
    var len, p := 33, 0;
    while len > 1 && bytes[p] == 0 && bytes[p + 1] < 0x80
      invariant 1 <= len <= 33 && p + len == 33 && Value(256, bytes[p..]) == v && bytes[p] < 0x80
    {
      assert bytes[p..][1..] == bytes[p + 1..];
      DropZero(bytes[p..]);
      len := len - 1;
      p := p + 1;
    }
    c := bytes[p..];
    MinimalIsUnique(c);
  }

  // Writes the signature if it fits, and reports how many bytes it takes either way.
  method Serialize(capacity: nat, r: nat, s: nat) returns (ok: bool, sig: seq<nat>, size: nat)
    requires r < ORDER && s < ORDER
    ensures size == |Serialized(r, s)| && (ok <==> size <= capacity)
    ensures ok ==> sig == Serialized(r, s)
  {
    var rp := Trimmed(r);
    var sp := Trimmed(s);
    sig := [];
    size := 6 + |sp| + |rp|;
    if capacity < size {
      return false, sig, size;
    }
    sig := [0x30, 4 + |sp| + |rp|, 0x02, |rp|] + rp + [0x02, |sp|] + sp;
    assert sig == [0x30, 4 + |sp| + |rp|] + ([0x02, |rp|] + rp) + ([0x02, |sp|] + sp);
    ok := true;
  }

  // ----- parsing and serialising are inverse -----

  lemma IntegerIn(before: seq<nat>, v: nat, after: seq<nat>)
    requires v < ORDER
    ensures var sig := before + IntegerBytes(v) + after;
            IntegerAt(sig, |before|) == Some(Integer(Some(v), |before| + |IntegerBytes(v)|))
  {
    hide Value, MinBytes;
    MinBytesAre(v);
    var c := MinBytes(v);
    var sig := before + IntegerBytes(v) + after;
    var pos := |before|;
    assert sig[pos] == 0x02 && sig[pos + 1] == |c|;
    assert LengthAt(sig, pos + 1) == Some(Length(|c|, pos + 2));
    assert sig[pos + 2..pos + 2 + |c|] == c;
  }

  lemma ParseUndoesSerialize(r: nat, s: nat)
    requires r < ORDER && s < ORDER
    ensures Parsed(Serialized(r, s)) == Some((Some(r), Some(s)))
  {
    hide IntegerAt, MinBytes;
    MinBytesAre(r);
    MinBytesAre(s);
    var head := [0x30, 4 + |MinBytes(s)| + |MinBytes(r)|];
    var sig := Serialized(r, s);
    IntegerIn(head, r, IntegerBytes(s));
    IntegerIn(head + IntegerBytes(r), s, []);
    assert sig == head + IntegerBytes(r) + IntegerBytes(s);
    assert sig == (head + IntegerBytes(r)) + IntegerBytes(s) + [];
    assert LengthAt(sig, 1) == Some(Length(|sig| - 2, 2));
  }

  // An integer that is accepted and in range is written minimally, with a one-byte length.
  lemma IntegerIsCanonical(sig: seq<nat>, pos: nat)
    requires Proper(256, sig) && IntegerAt(sig, pos).Some? && IntegerAt(sig, pos).value.scalar.Some?
    ensures var i := IntegerAt(sig, pos).value;
            sig[pos..i.next] == IntegerBytes(i.scalar.value) && i.scalar.value < ORDER && i.next - pos <= 35
  {
    hide Value, MinBytes;
    var Length(n, start) := LengthAt(sig, pos + 1).value;
    var c := sig[start..start + n];
    MinimalIsUnique(c);
    MinBytesAre(Value(256, c));
    assert start == pos + 2;
    assert sig[pos..start + n] == [sig[pos], sig[pos + 1]] + c;
  }

  // Strict parsing accepts one form only: what it accepts in range is what serialising prints.
  lemma ParseIsCanonical(sig: seq<nat>, r: nat, s: nat)
    requires Proper(256, sig)
    ensures Parsed(sig) == Some((Some(r), Some(s))) <==> r < ORDER && s < ORDER && sig == Serialized(r, s)
  {
    hide IntegerAt, MinBytes;
    if Parsed(sig) == Some((Some(r), Some(s))) {
      var Length(n, start) := LengthAt(sig, 1).value;
      IntegerIsCanonical(sig, start);
      var next := IntegerAt(sig, start).value.next;
      IntegerIsCanonical(sig, next);
      assert n <= 70 && start == 2;
      assert sig == [sig[0], sig[1]] + sig[2..next] + sig[next..];
    }
    if r < ORDER && s < ORDER && sig == Serialized(r, s) {
      ParseUndoesSerialize(r, s);
    }
  }

  // ----- the lax parser -----

  // A length that may have needless zeros in front; nothing if it runs out of the input.
  function LaxLength(input: seq<nat>, pos: nat): (l: Option<Length>)
    ensures l.Some? ==> pos < l.value.next <= |input| && l.value.value <= |input| - l.value.next
  {
    if pos >= |input| then None
    else if input[pos] < 0x80 then
      (if input[pos] > |input| - pos - 1 then None else Some(Length(input[pos], pos + 1)))
    else
      var n := input[pos] - 0x80;
      if pos + 1 + n > |input| then None
      else
        var b := input[pos + 1..pos + 1 + n];
        var v := Value(256, b);
        if |SkipZeros(b)| >= 8 || v > |input| - pos - 1 - n then None else Some(Length(v, pos + 1 + n))
  }

  // Where an integer's contents lie.
  function LaxInteger(input: seq<nat>, pos: nat): (l: Option<Length>)
    ensures l.Some? ==> l.value.next <= |input| && l.value.value <= |input| - l.value.next
  {
    if pos >= |input| || input[pos] != 0x02 then None else LaxLength(input, pos + 1)
  }

  // Only the length of the length matters for the sequence.
  function LaxStart(input: seq<nat>): Option<nat> {
    if |input| < 2 || input[0] != 0x30 then None
    else if input[1] < 0x80 then Some(2)
    else if 2 + (input[1] - 0x80) > |input| then None
    else Some(2 + (input[1] - 0x80))
  }

  // Both scalars, or two zeros when either is out of range.
  function LaxParsed(input: seq<nat>): Option<(nat, nat)> {
    if LaxStart(input).None? || LaxInteger(input, LaxStart(input).value).None? then None
    else
      var Length(rlen, rpos) := LaxInteger(input, LaxStart(input).value).value;
      if LaxInteger(input, rpos + rlen).None? then None
      else
        var Length(slen, spos) := LaxInteger(input, rpos + rlen).value;
        var r, s := Value(256, input[rpos..rpos + rlen]), Value(256, input[spos..spos + slen]);
        if r < ORDER && s < ORDER then Some((r, s)) else Some((0, 0))
  }

  lemma LaxIntegerIn(before: seq<nat>, v: nat, after: seq<nat>)
    requires v < ORDER
    ensures var sig := before + IntegerBytes(v) + after; var n := |MinBytes(v)|; var p := |before| + 2;
            && LaxInteger(sig, |before|) == Some(Length(n, p)) && p + n == |before| + |IntegerBytes(v)|
            && Value(256, sig[p..p + n]) == v
  {
    hide Value, MinBytes;
    MinBytesAre(v);
    var c := MinBytes(v);
    var sig := before + IntegerBytes(v) + after;
    assert sig[|before|] == 0x02 && sig[|before| + 1] == |c|;
    assert sig[|before| + 2..|before| + 2 + |c|] == c;
  }

  // The lax parser takes integers of any form below 128 bytes, whatever the sequence's length says and
  // whatever follows.
  lemma LaxReads(h: nat, c: seq<nat>, d: seq<nat>, rest: seq<nat>)
    requires h < 0x80 && |c| < 0x80 && |d| < 0x80
    requires Value(256, c) < ORDER && Value(256, d) < ORDER
    ensures LaxParsed([0x30, h] + ([0x02, |c|] + c) + ([0x02, |d|] + d) + rest)
            == Some((Value(256, c), Value(256, d)))
  {
    hide Value, LaxInteger, LaxParsed;
    var input := [0x30, h] + ([0x02, |c|] + c) + ([0x02, |d|] + d) + rest;
    LaxIntegerAt([0x30, h], c, ([0x02, |d|] + d) + rest, input);
    LaxIntegerAt([0x30, h] + ([0x02, |c|] + c), d, rest, input);
    LaxOfTwo(input, c, |c|, 4, d, |d|, 6 + |c|);
  }

  lemma LaxOfTwo(input: seq<nat>, c: seq<nat>, n: nat, p: nat, d: seq<nat>, m: nat, q: nat)
    requires |input| >= 2 && input[0] == 0x30 && input[1] < 0x80
    requires LaxInteger(input, 2) == Some(Length(n, p)) && input[p..p + n] == c
    requires LaxInteger(input, p + n) == Some(Length(m, q)) && input[q..q + m] == d
    requires Value(256, c) < ORDER && Value(256, d) < ORDER
    ensures LaxParsed(input) == Some((Value(256, c), Value(256, d)))
  {
    hide Value, LaxInteger;
  }

  lemma LaxIntegerAt(before: seq<nat>, c: seq<nat>, after: seq<nat>, input: seq<nat>)
    requires |c| < 0x80 && input == before + ([0x02, |c|] + c) + after
    ensures LaxInteger(input, |before|) == Some(Length(|c|, |before| + 2))
    ensures |before| + 2 + |c| <= |input| && input[|before| + 2..|before| + 2 + |c|] == c
  {
    assert input[|before|] == 0x02 && input[|before| + 1] == |c|;
    assert input[|before| + 2..|before| + 2 + |c|] == c;
  }

  // What strict parsing accepts in range, lax parsing reads the same.
  lemma LaxAgrees(sig: seq<nat>, r: nat, s: nat)
    requires Proper(256, sig) && Parsed(sig) == Some((Some(r), Some(s)))
    ensures LaxParsed(sig) == Some((r, s))
  {
    hide Parsed, Value, MinBytes, LaxInteger;
    ParseIsCanonical(sig, r, s);
    MinBytesAre(r);
    MinBytesAre(s);
    var head := [0x30, 4 + |MinBytes(s)| + |MinBytes(r)|];
    LaxIntegerIn(head, r, IntegerBytes(s));
    LaxIntegerIn(head + IntegerBytes(r), s, []);
    assert sig == head + IntegerBytes(r) + IntegerBytes(s);
    assert sig == (head + IntegerBytes(r)) + IntegerBytes(s) + [];
  }

  method BigEndian(bytes: seq<nat>) returns (v: nat)
    ensures v == Value(256, bytes)
  {
    NoBytes();
    v := 0;
    var i := 0;
    assert bytes[..0] == [];
    while i < |bytes|
      invariant 0 <= i <= |bytes| && v == Value(256, bytes[..i])
    {
      ValueStep(bytes, i);
      v := v * 256 + bytes[i];
      i := i + 1;
    }
    assert bytes[..i] == bytes;
  }

  // Reads the tag and the length of an integer.
  method ReadLaxInteger(input: seq<nat>, pos0: nat) returns (ok: bool, len: nat, pos: nat)
    requires Proper(256, input) && pos0 <= |input|
    ensures ok <==> LaxInteger(input, pos0).Some?
    ensures ok ==> LaxInteger(input, pos0) == Some(Length(len, pos))
  {
    hide Value, SkipZeros;
    ok, len, pos := false, 0, pos0;
    if pos == |input| || input[pos] != 0x02 {
      return;
    }
    pos := pos + 1;
    if pos == |input| {
      return;
    }
    var lenbyte := input[pos];
    pos := pos + 1;
    if lenbyte >= 0x80 {
      lenbyte := lenbyte - 0x80;
      if pos + lenbyte > |input| {
        return;
      }
      ghost var b := input[pos..pos + lenbyte];
      SkipKeepsValue(b);
      pos, lenbyte := SkipLeading(input, pos, lenbyte);
      if lenbyte >= 8 {
        return;
      }
      len := BigEndian(input[pos..pos + lenbyte]);
      pos := pos + lenbyte;
    } else {
      len := lenbyte;
    }
    if len > |input| - pos {
      return;
    }
    ok := true;
  }

  // Contents without leading zeros, right-aligned in 32 bytes; nothing if there are too many.
  method Align(input: seq<nat>, pos0: nat, len0: nat) returns (bytes: Option<seq<nat>>)
    requires Proper(256, input) && pos0 + len0 <= |input|
    ensures bytes.Some? ==> |bytes.value| == 32 && Value(256, bytes.value) == Value(256, input[pos0..pos0 + len0])
    ensures bytes.None? ==> Value(256, input[pos0..pos0 + len0]) >= ORDER
  {
    hide Value;
    SkipKeepsValue(input[pos0..pos0 + len0]);
    var pos, len := SkipLeading(input, pos0, len0);
    if len > 32 {
      bytes := None;
    } else {
      ValueZeros(256, 32 - len, input[pos..pos + len]);
      bytes := Some(Zeros(32 - len) + input[pos..pos + len]);
    }
  }

  method LaxParse(input: seq<nat>) returns (ok: bool, r: nat, s: nat)
    requires Proper(256, input)
    ensures ok <==> LaxParsed(input).Some?
    ensures ok ==> LaxParsed(input) == Some((r, s))
  {
    hide Value, LaxInteger;
    ok, r, s := false, 0, 0;
    var pos := 0;
    if pos == |input| || input[pos] != 0x30 {
      return;
    }
    pos := pos + 1;
    if pos == |input| {
      return;
    }
    var lenbyte := input[pos];
    pos := pos + 1;
    if lenbyte >= 0x80 {
      lenbyte := lenbyte - 0x80;
      if pos + lenbyte > |input| {
        return;
      }
      pos := pos + lenbyte;
    }
    var good, rlen, slen, rpos, spos;
    good, rlen, rpos := ReadLaxInteger(input, pos);
    if !good {
      return;
    }
    good, slen, spos := ReadLaxInteger(input, rpos + rlen);
    if !good {
      return;
    }
    var rbytes := Align(input, rpos, rlen);
    var sbytes := Align(input, spos, slen);
    var overflow := rbytes.None? || sbytes.None?;
    if !overflow {
      overflow := Value(256, rbytes.value) >= ORDER || Value(256, sbytes.value) >= ORDER;
    }
    if !overflow {
      r, s := Value(256, rbytes.value), Value(256, sbytes.value);
    }
    ok := true;
  }
}
