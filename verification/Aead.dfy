// ChaCha20 and the ChaCha20-Poly1305 AEAD of LWCrypto.c, proved against the block function of
// section 2.3 and the construction of section 2.8 of RFC 7539.
module Aead {
  import opened Common
  import opened Words
  import opened Bytes
  import opened Poly1305

  // ------------------------------------------------------------ block function

  function Add32(x: u32, y: u32): u32 { (x + y) % W32 }

  function Xor32(x: u32, y: u32): (r: u32)
    ensures r == Xor(x, y)
  {
    Powers();
    XorBelow(32, x, y);
    Xor(x, y)
  }

  // `(x << k) | (x >> (32 - k))`
  function Rol32(x: u32, k: nat): u32
    requires k in {7, 8, 12, 16}
  {
    var m := if k == 7 then 0x80 else if k == 8 then 0x100 else if k == 12 then 0x1000 else 0x1_0000;
    var n := if k == 7 then 0x200_0000 else if k == 8 then 0x100_0000 else if k == 12 then 0x10_0000 else 0x1_0000;
    OrBelow32(x * m % W32, x / n);
    Or(x * m % W32, x / n)
  }

  lemma OrBelow32(x: u32, y: u32)
    ensures Or(x, y) < W32
  {
    Powers();
    GlueOr(0, 0, 32, x, y);
  }

  type State = s: seq<u32> | |s| == 16 witness [0, 0, 0, 0, 0, 0, 0, 0, 0, 0, 0, 0, 0, 0, 0, 0]

  // The quarter round on words a, b, c, d of the state.
  function QuarterRound(x: State, a: nat, b: nat, c: nat, d: nat): State
    requires a < 4 <= b < 8 <= c < 12 <= d < 16
  {
    var a1 := Add32(x[a], x[b]);
    var d1 := Rol32(Xor32(x[d], a1), 16);
    var c1 := Add32(x[c], d1);
    var b1 := Rol32(Xor32(x[b], c1), 12);
    var a2 := Add32(a1, b1);
    var d2 := Rol32(Xor32(d1, a2), 8);
    var c2 := Add32(c1, d2);
    var b2 := Rol32(Xor32(b1, c2), 7);
    x[a := a2][b := b2][c := c2][d := d2]
  }

  // One column round and one diagonal round.
  function DoubleRound(x: State): State {
    var y := QuarterRound(QuarterRound(QuarterRound(QuarterRound(x, 0, 4, 8, 12), 1, 5, 9, 13), 2, 6, 10, 14),
                          3, 7, 11, 15);
    QuarterRound(QuarterRound(QuarterRound(QuarterRound(y, 0, 5, 10, 15), 1, 6, 11, 12), 2, 7, 8, 13), 3, 4, 9, 14)
  }

  function Rounds(x: State, n: nat): State {
    if n == 0 then x else DoubleRound(Rounds(x, n - 1))
  }

  // The words' little-endian bytes, in order.
  function BytesOf(w: seq<u32>): (b: seq<u8>)
    ensures |b| == 4 * |w|
  {
    if w == [] then [] else WordBytes(w[0]) + BytesOf(w[1..])
  }

  // The little-endian words of a byte string.
  function WordsOf(b: seq<u8>): (w: seq<u32>)
    requires |b| % 4 == 0
    ensures 4 * |w| == |b|
  {
    if b == [] then [] else [Word(b[..4])] + WordsOf(b[4..])
  }

  // "expand 32-byte k" as little-endian words.
  const SIGMA: seq<u32> := [0x6170_7865, 0x3320_646e, 0x7962_2d32, 0x6b20_6574]

  // Section 2.3: constants, key, then the counter and nonce words.
  function Block(key: seq<u8>, counter: u32, nonce: seq<u8>): (b: seq<u8>)
    requires |key| == 32 && |nonce| == 12
    ensures |b| == 64
  {
    hide Rounds, WordsOf, BytesOf, Add32;
    var s: State := SIGMA + WordsOf(key) + [counter] + WordsOf(nonce);
    var x := Rounds(s, 10);
    BytesOf(seq(16, i requires 0 <= i < 16 => Add32(s[i], x[i])))
  }

  // The code's counter is 64 bits wide; its high half takes the place of the first nonce word.
  function Block64(key: seq<u8>, counter: u64, iv: seq<u8>): (b: seq<u8>)
    requires |key| == 32 && |iv| == 8
    ensures |b| == 64
  {
    Block(key, counter % W32, WordBytes(counter / W32) + iv)
  }

  // Keystream byte i depends on the key, the iv and counter + i / 64 only.
  function KeystreamByte(key: seq<u8>, iv: seq<u8>, counter: u64, i: nat): u8
    requires |key| == 32 && |iv| == 8
  {
    Block64(key, (counter + i / 64) % W64, iv)[i % 64]
  }

  function Xor8(x: u8, y: u8): (r: u8)
    ensures r == Xor(x, y)
    ensures Xor(r, y) == x
  {
    Powers();
    XorBelow(8, x, y);
    XorTwice(x, y);
    Xor(x, y)
  }

  function Stream(key: seq<u8>, iv: seq<u8>, counter: u64, data: seq<u8>): (r: seq<u8>)
    requires |key| == 32 && |iv| == 8
    ensures |r| == |data|
  {
    seq(|data|, i requires 0 <= i < |data| => Xor8(data[i], KeystreamByte(key, iv, counter, i)))
  }

  // The stream cipher undoes itself.
  lemma StreamTwice(key: seq<u8>, iv: seq<u8>, counter: u64, data: seq<u8>)
    requires |key| == 32 && |iv| == 8
    ensures Stream(key, iv, counter, Stream(key, iv, counter, data)) == data
  {
    var once := Stream(key, iv, counter, data);
    forall i | 0 <= i < |data|
      ensures Stream(key, iv, counter, once)[i] == data[i]
    {
      var k := KeystreamByte(key, iv, counter, i);
      assert once[i] == Xor8(data[i], k);
      assert Xor8(once[i], k) == Xor(once[i], k) == data[i];
    }
  }

  // The initial state for a 64-bit counter.
  function Setup(key: seq<u8>, iv: seq<u8>, counter: u64): State
    requires |key| == 32 && |iv| == 8
  {
    SIGMA + WordsOf(key) + [counter % W32, counter / W32] + WordsOf(iv)
  }

  lemma SetupIsBlockState(key: seq<u8>, iv: seq<u8>, counter: u64)
    requires |key| == 32 && |iv| == 8
    ensures Setup(key, iv, counter) == SIGMA + WordsOf(key) + [counter % W32] + WordsOf(WordBytes(counter / W32) + iv)
  {
    var h := WordBytes(counter / W32);
    assert (h + iv)[..4] == h && (h + iv)[4..] == iv;
    assert Word(h) == counter / W32;
  }

  // Adding one to the low counter word, carrying into the high one, adds one to the 64-bit counter.
  lemma NextCounter(key: seq<u8>, iv: seq<u8>, counter: u64, s: State)
    requires |key| == 32 && |iv| == 8 && s == Setup(key, iv, counter)
    ensures var lo := Add32(s[12], 1);
      Setup(key, iv, (counter + 1) % W64) == s[12 := lo][13 := if lo == 0 then Add32(s[13], 1) else s[13]]
  {
    var lo, hi := counter % W32, counter / W32;
    assert counter == lo + W32 * hi;
    var c := (counter + 1) % W64;
    if lo + 1 < W32 {
      assert c % W32 == lo + 1 && c / W32 == hi;
    } else if hi + 1 < W32 {
      assert counter + 1 == W32 * (hi + 1);
      assert c % W32 == 0 && c / W32 == hi + 1;
    } else {
      assert c == 0;
    }
  }

  // Produces the next 64 keystream bytes and advances the counter words.
  method NextBlock(key: seq<u8>, iv: seq<u8>, ghost c: u64, s: State) returns (b: seq<u8>, s': State)
    requires |key| == 32 && |iv| == 8 && s == Setup(key, iv, c)
    ensures b == Block64(key, c, iv)
    ensures s' == Setup(key, iv, (c + 1) % W64)
  {
    hide DoubleRound;
    SetupIsBlockState(key, iv, c);
    NextCounter(key, iv, c, s);
    var x := s;
    var j := 0;
    while j < 10
      invariant 0 <= j <= 10 && x == Rounds(s, j)
    {
      x := DoubleRound(x);
      j := j + 1;
    }
    b := BytesOf(seq(16, k requires 0 <= k < 16 => Add32(s[k], x[k])));
    s' := s[12 := Add32(s[12], 1)];
    if s'[12] == 0 { s' := s'[13 := Add32(s[13], 1)]; }
  }

  // Encrypts or decrypts `data` into the front of `out`; the state advances once every 64 bytes.
  method ChaCha20(out: array<u8>, key: seq<u8>, iv: seq<u8>, data: seq<u8>, counter: u64)
    requires |key| == 32 && |iv| == 8 && |data| <= out.Length
    modifies out
    ensures out[..] == Stream(key, iv, counter, data) + old(out[|data|..])
  {
    hide Block64, Setup;
    var s := Setup(key, iv, counter);
    var b: seq<u8> := [];
    var i := 0;
    ghost var n := 0;
    ghost var stream := Stream(key, iv, counter, data);
    while i < |data|
      invariant 0 <= i <= |data| && 64 * n - 64 < i <= 64 * n
      invariant s == Setup(key, iv, (counter + n) % W64)
      invariant i < 64 * n ==> b == Block64(key, (counter + (n - 1)) % W64, iv)
      invariant out[..i] == stream[..i]
      invariant out[|data|..] == old(out[|data|..])
    {
      if i % 64 == 0 {
        assert i == 64 * n;
        CounterWraps(counter, n);
        b, s := NextBlock(key, iv, (counter + n) % W64, s);
        n := n + 1;
      }
      assert i / 64 == n - 1;
      out[i] := Xor8(data[i], b[i % 64]);
      assert out[i] == stream[i];
      assert out[..i + 1] == out[..i] + [out[i]];
      i := i + 1;
    }
  }

  lemma CounterWraps(counter: u64, n: nat)
    ensures ((counter + n) % W64 + 1) % W64 == (counter + (n + 1)) % W64
  {
  }

  // --------------------------------------------------------------------- AEAD

  function Zeros(n: nat): (z: seq<u8>)
    ensures |z| == n
  {
    seq(n, _ => 0)
  }

  // The string padded with zeros to a multiple of 16 bytes.
  function Pad16(s: seq<u8>): (p: seq<u8>)
    ensures |p| % 16 == 0
  {
    if |s| % 16 == 0 then s else s + Zeros(16 - |s| % 16)
  }

  function LE64(n: u64): (b: seq<u8>)
    ensures |b| == 8
  {
    WordBytes(n % W32) + WordBytes(n / W32)
  }

  // What section 2.8 authenticates: padded data, padded ciphertext, both lengths.
  function MacData(ad: seq<u8>, text: seq<u8>): seq<u8>
    requires |ad| < W64 && |text| < W64
  {
    Pad16(ad) + (Pad16(text) + (LE64(|ad|) + LE64(|text|)))
  }

  // The place of each part: the data, and at the next multiple of 16 the ciphertext, each followed
  // by zeros only, and in the last 16 bytes both lengths.
  lemma MacDataIs(ad: seq<u8>, text: seq<u8>)
    requires |ad| < W64 && |text| < W64
    ensures var d, t := MacData(ad, text), (|ad| + 15) / 16 * 16;
            var n := t + (|text| + 15) / 16 * 16;
            && |d| == n + 16 && d[..|ad|] == ad && d[t..t + |text|] == text
            && (forall i :: |ad| <= i < t || t + |text| <= i < n ==> d[i] == 0)
            && LE(d[n..n + 8]) == |ad| && LE(d[n + 8..]) == |text|
  {
    hide LE, LE64, Pad16;
    PadIs(ad);
    PadIs(text);
    LengthIs(|ad|);
    LengthIs(|text|);
    var d, t := MacData(ad, text), (|ad| + 15) / 16 * 16;
    var n := t + (|text| + 15) / 16 * 16;
    assert d[..t] == Pad16(ad) && d[t..n] == Pad16(text);
    assert d[n..n + 8] == LE64(|ad|) && d[n + 8..] == LE64(|text|);
    assert d[..|ad|] == Pad16(ad)[..|ad|] && d[t..t + |text|] == Pad16(text)[..|text|];
    forall i | |ad| <= i < t || t + |text| <= i < n ensures d[i] == 0 {
      assert i < t ==> d[i] == Pad16(ad)[i];
      assert i >= t ==> d[i] == Pad16(text)[i - t];
    }
  }

  lemma PadIs(s: seq<u8>)
    ensures |Pad16(s)| == (|s| + 15) / 16 * 16 && Pad16(s)[..|s|] == s
    ensures forall i :: |s| <= i < |Pad16(s)| ==> Pad16(s)[i] == 0
  {
  }

  lemma LengthIs(n: u64)
    ensures LE(LE64(n)) == n
  {
    hide LE;
    var b := LE64(n);
    TakeWord(b);
    assert b[..4] == WordBytes(n % W32) && b[4..] == WordBytes(n / W32);
  }

  // No two inputs are authenticated as the same bytes.
  lemma MacDataInjective(ad: seq<u8>, text: seq<u8>, ad': seq<u8>, text': seq<u8>)
    requires |ad| < W64 && |text| < W64 && |ad'| < W64 && |text'| < W64
    requires MacData(ad, text) == MacData(ad', text')
    ensures ad == ad' && text == text'
  {
    hide MacData, LE;
    MacDataIs(ad, text);
    MacDataIs(ad', text');
  }

  // Section 2.6: the first half of block 0.
  function OneTimeKey(key: seq<u8>, nonce: seq<u8>): (k: seq<u8>)
    requires |key| == 32 && |nonce| == 12
    ensures |k| == 32
  {
    Block(key, 0, nonce)[..32]
  }

  // The block counter does not wrap: it starts at 1 and is 32 bits wide.
  predicate Fits(n: nat) { n / 64 < W32 - 1 }

  // Section 2.4 with initial counter 1.
  function Cipher(key: seq<u8>, nonce: seq<u8>, data: seq<u8>): (text: seq<u8>)
    requires |key| == 32 && |nonce| == 12 && Fits(|data|)
    ensures |text| == |data|
  {
    seq(|data|, i requires 0 <= i < |data| => Xor8(data[i], Block(key, 1 + i / 64, nonce)[i % 64]))
  }

  function Seal(key: seq<u8>, nonce: seq<u8>, data: seq<u8>, ad: seq<u8>): (c: seq<u8>)
    requires |key| == 32 && |nonce| == 12 && Fits(|data|) && |ad| < W64
    ensures |c| == |data| + 16
  {
    var text := Cipher(key, nonce, data);
    text + ToBytes(Tag(OneTimeKey(key, nonce), MacData(ad, text)), 16)
  }

  function Open(key: seq<u8>, nonce: seq<u8>, c: seq<u8>, ad: seq<u8>): Option<seq<u8>>
    requires |key| == 32 && |nonce| == 12 && |ad| < W64
  {
    if |c| < 16 || !Fits(|c| - 16) then None
    else
      var text, mac := c[..|c| - 16], c[|c| - 16..];
      if mac == ToBytes(Tag(OneTimeKey(key, nonce), MacData(ad, text)), 16)
      then Some(Cipher(key, nonce, text)) else None
  }

  lemma CipherTwice(key: seq<u8>, nonce: seq<u8>, data: seq<u8>)
    requires |key| == 32 && |nonce| == 12 && Fits(|data|)
    ensures Cipher(key, nonce, Cipher(key, nonce, data)) == data
  {
    hide Block, Xor8;
    var once := Cipher(key, nonce, data);
    forall i | 0 <= i < |data| ensures Cipher(key, nonce, once)[i] == data[i] {
      var k := Block(key, 1 + i / 64, nonce)[i % 64];
      assert once[i] == Xor8(data[i], k);
      assert Xor8(once[i], k) == Xor(once[i], k) == data[i];
    }
  }

  // Decryption accepts exactly the encryptions, and returns the message that was encrypted.
  lemma OpenExactlySealed(key: seq<u8>, nonce: seq<u8>, ad: seq<u8>, c: seq<u8>, m: seq<u8>)
    requires |key| == 32 && |nonce| == 12 && |ad| < W64
    ensures Open(key, nonce, c, ad) == Some(m) <==> Fits(|m|) && c == Seal(key, nonce, m, ad)
  {
    hide Cipher, Tag, ToBytes, OneTimeKey, MacData, Fits;
    if |c| >= 16 && Fits(|c| - 16) {
      var text, mac := c[..|c| - 16], c[|c| - 16..];
      assert c == text + mac;
      CipherTwice(key, nonce, text);
    }
    if Fits(|m|) {
      CipherTwice(key, nonce, m);
      var s := Seal(key, nonce, m, ad);
      assert s[..|s| - 16] == Cipher(key, nonce, m);
    }
  }

  // The code's 64-bit counter, with the nonce's first word on top, runs through the RFC's blocks.
  lemma CounterIsNonce(key: seq<u8>, nonce: seq<u8>, n: nat)
    requires |key| == 32 && |nonce| == 12 && n < W32
    ensures var c: u64 := Word(nonce[..4]) * W32 + n;
      Block64(key, c, nonce[4..]) == Block(key, n, nonce)
  {
    hide Block, LE;
    var w := Word(nonce[..4]);
    var c: u64 := w * W32 + n;
    assert c % W32 == n && c / W32 == w;
    LEInjective(WordBytes(w), nonce[..4]);
    assert nonce[..4] + nonce[4..] == nonce;
  }

  lemma StreamIsCipher(key: seq<u8>, nonce: seq<u8>, data: seq<u8>)
    requires |key| == 32 && |nonce| == 12 && Fits(|data|)
    ensures Stream(key, nonce[4..], Word(nonce[..4]) * W32 + 1, data) == Cipher(key, nonce, data)
  {
    hide Block64, Block, Word;
    var c: u64 := Word(nonce[..4]) * W32 + 1;
    forall i | 0 <= i < |data|
      ensures KeystreamByte(key, nonce[4..], c, i) == Block(key, 1 + i / 64, nonce)[i % 64]
    {
      CounterIsNonce(key, nonce, 1 + i / 64);
      assert (c + i / 64) % W64 == Word(nonce[..4]) * W32 + (1 + i / 64);
    }
  }

  // ---------------------------------------------------------------- the methods

  lemma {:induction false} XorWithZero(y: nat)
    ensures Xor(0, y) == y
  {
    if y > 0 { XorWithZero(y / 2); XorHalf(0, y); }
  }

  // The one-time key: block 0 of the keystream, taken by encrypting zeros in place.
  method MakeMacKey(key: seq<u8>, nonce: seq<u8>) returns (macKey: seq<u8>)
    requires |key| == 32 && |nonce| == 12
    ensures macKey == OneTimeKey(key, nonce)
  {
    hide Block, Block64, Word, Xor;
    var k := new u8[32](_ => 0);
    var zeros := k[..];
    ChaCha20(k, key, nonce[4..], zeros, Word(nonce[..4]) * W32);
    macKey := k[..];
    CounterIsNonce(key, nonce, 0);
    forall i | 0 <= i < 32 ensures macKey[i] == Block(key, 0, nonce)[i] {
      XorWithZero(KeystreamByte(key, nonce[4..], Word(nonce[..4]) * W32, i));
    }
  }

  // Absorbs whole blocks straight from `s` and the rest from a zero-padded copy.
  method AbsorbPadded(h: array<u32>, macKey: seq<u8>, s: seq<u8>)
    requires h.Length == 5 && Carried(h[..]) && |macKey| == 32
    modifies h
    ensures Carried(h[..]) && Value(h[..]) % P == Acc(Value(old(h[..])) % P, R(macKey), Pad16(s))
  {
    hide Acc, R, Value, Carried;
    ghost var a := Value(h[..]) % P;
    var n := |s| / 16 * 16;
    Compress(h, macKey, s[..n], false);
    if |s| % 16 != 0 {
      var pad := s[n..] + Zeros(16 - |s| % 16);
      Compress(h, macKey, pad, false);
      AccSplit(a, R(macKey), s[..n], pad);
      assert s[..n] + pad == Pad16(s);
    } else {
      assert s[..n] == s;
    }
  }

  // The tag of section 2.8, from split calls to the compressor.
  method MakeTag(macKey: seq<u8>, ad: seq<u8>, text: seq<u8>) returns (mac: seq<u8>)
    requires |macKey| == 32 && |ad| < W64 && |text| < W64
    ensures mac == ToBytes(Tag(macKey, MacData(ad, text)), 16)
  {
    hide Acc, R, S, LE, LE64, Pad16, ToBytes, WordBytes;
    var h := new u32[5](_ => 0);
    AbsorbPadded(h, macKey, ad);
    AbsorbPadded(h, macKey, text);
    var lengths := LE64(|ad|) + LE64(|text|);
    Compress(h, macKey, lengths, true);
    AccSplit(0, R(macKey), Pad16(ad), Pad16(text) + lengths);
    AccSplit(Acc(0, R(macKey), Pad16(ad)), R(macKey), Pad16(text), lengths);
    mac := WordBytes(h[0]) + WordBytes(h[1]) + WordBytes(h[2]) + WordBytes(h[3]);
    TagBytes(h[..4]);
    BytesOfValue(mac);
  }

  // Writes ciphertext and tag to `out`; returns the bytes written, or the bytes needed if `out` is
  // null.
  method Encrypt(out: array?<u8>, outLen: nat, key: seq<u8>, nonce: seq<u8>, data: seq<u8>, ad: seq<u8>)
    returns (n: nat)
    requires |key| == 32 && |nonce| == 12 && |ad| < W64
    requires out != null ==> outLen <= out.Length
    modifies if out == null then {} else {out}
    ensures out == null ==> n == |data| + 16
    ensures out != null && (outLen < |data| + 16 || !Fits(|data|)) ==> n == 0 && out[..] == old(out[..])
    ensures out != null && outLen >= |data| + 16 && Fits(|data|) ==>
      n == |data| + 16 && out[..n] == Seal(key, nonce, data, ad) && out[n..] == old(out[n..])
  {
    hide Cipher, MacData, Tag, Stream, Word, OneTimeKey, ToBytes;
    if out == null { return |data| + 16; }
    if outLen < |data| + 16 || |data| / 64 >= W32 - 1 { return 0; }
    var macKey := MakeMacKey(key, nonce);
    StreamIsCipher(key, nonce, data);
    ghost var before := out[..];
    ChaCha20(out, key, nonce[4..], data, Word(nonce[..4]) * W32 + 1);
    ghost var text := Cipher(key, nonce, data);
    assert out[..|data|] == text;
    var mac := MakeTag(macKey, ad, out[..|data|]);
    n := |data| + 16;
    forall i | 0 <= i < 16 { out[|data| + i] := mac[i]; }
    assert out[..n] == text + mac;
    assert forall i :: n <= i < out.Length ==> out[i] == before[i];
  }

  lemma {:induction false} XorsDiffer(m: seq<u32>, h: seq<u32>)
    requires |m| == |h| == 4
    ensures Xor(m[0], h[0]) == 0 && Xor(m[1], h[1]) == 0 && Xor(m[2], h[2]) == 0 && Xor(m[3], h[3]) == 0 <==> m == h
  {
    XorZero(m[0], h[0]); XorZero(m[1], h[1]); XorZero(m[2], h[2]); XorZero(m[3], h[3]);
  }

  // Checks the tag and writes the message to `out`; returns its length, or 0 when the tag is wrong.
  method Decrypt(out: array?<u8>, outLen: nat, key: seq<u8>, nonce: seq<u8>, data: seq<u8>, ad: seq<u8>)
    returns (n: nat)
    requires |key| == 32 && |nonce| == 12 && |ad| < W64
    requires out != null ==> outLen <= out.Length
    modifies if out == null then {} else {out}
    ensures out == null ==> n == if |data| < 16 then 0 else |data| - 16
    ensures out != null && (outLen + 16 < |data| || Open(key, nonce, data, ad).None?) ==>
      n == 0 && out[..] == old(out[..])
    ensures out != null && outLen + 16 >= |data| && Open(key, nonce, data, ad).Some? ==>
      n == |data| - 16 && out[..n] == Open(key, nonce, data, ad).value && out[n..] == old(out[n..])
  {
    hide Cipher, MacData, Tag, Stream, Word, OneTimeKey, ToBytes, WordsOf, Xor, Or;
    if out == null { return if |data| < 16 then 0 else |data| - 16; }
    if |data| < 16 || (|data| - 16) / 64 >= W32 - 1 || outLen + 16 < |data| { return 0; }
    n := |data| - 16;
    var macKey := MakeMacKey(key, nonce);
    var tag := MakeTag(macKey, ad, data[..n]);
    var m, h := WordsOf(data[n..]), WordsOf(tag);
    WordsInjective(data[n..], tag);
    XorsDiffer(m, h);
    var d0, d1, d2 := Xor(m[0], h[0]), Xor(m[1], h[1]), Xor(m[2], h[2]);
    var d3 := if Xor(m[3], h[3]) != 0 then 1 else 0; // in C, `!=` binds tighter than `|`
    OrIsZero(d0, d1);
    OrIsZero(Or(d0, d1), d2);
    OrIsZero(Or(Or(d0, d1), d2), d3);
    if Or(Or(Or(d0, d1), d2), d3) != 0 { n := 0; }
    ghost var text := data[..n];
    StreamIsCipher(key, nonce, text);
    ChaCha20(out, key, nonce[4..], data[..n], Word(nonce[..4]) * W32 + 1);
    assert out[..n] == Cipher(key, nonce, text);
  }

  lemma {:induction false} OrIsZero(x: nat, y: nat)
    ensures Or(x, y) == 0 <==> x == 0 && y == 0
  {
    if x != 0 || y != 0 { OrIsZero(x / 2, y / 2); }
  }

  lemma {:induction false} WordsInjective(a: seq<u8>, b: seq<u8>)
    requires |a| == |b| && |a| % 4 == 0
    ensures WordsOf(a) == WordsOf(b) <==> a == b
  {
    if a != [] {
      WordsInjective(a[4..], b[4..]);
      assert WordsOf(a)[1..] == WordsOf(a[4..]) && WordsOf(b)[1..] == WordsOf(b[4..]);
      if Word(a[..4]) == Word(b[..4]) { LEInjective(a[..4], b[..4]); }
      assert a == a[..4] + a[4..] && b == b[..4] + b[4..];
    }
  }
}
