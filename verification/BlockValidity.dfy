// LWMerkleBlockIsValid: merkle root, timestamp and proof of work, with the compact target written
// into a 32-byte buffer and compared byte by byte.
module BlockValidity {
  import opened Common
  import opened Words
  import opened Bytes
  import opened Merkle

  const MAX_SIZE: nat := 0x1e
  const MAX_TARGET: nat := 0x0f_ffff
  const MAX_TIME_DRIFT: nat := 2 * 60 * 60

  datatype Header = Header(tree: MerkleBlock, merkleRoot: Hash, powHash: seq<u8>, timestamp: u32, target: u32)
  {
    ghost predicate Valid() { tree.Valid() && |powHash| == 32 }

    function Size(): nat { target / 0x100_0000 }

    function Mantissa(): nat { target % 0x100_0000 }
  }

  // The number a compact target stands for: the mantissa moved to `size` bytes.
  function TargetValue(size: nat, mantissa: nat): int {
    if size > 3 then mantissa * Pow2(8 * (size - 3)) else mantissa / Pow2(8 * (3 - size))
  }

  predicate TargetInRange(size: nat, mantissa: nat) {
    && mantissa != 0 && mantissa < 0x80_0000
    && (size < MAX_SIZE || (size == MAX_SIZE && mantissa <= MAX_TARGET))
  }

  // The 32-byte buffer holding a target.
  method TargetBytes(size: nat, mantissa: nat) returns (t: array<u8>)
    requires size <= 31 && mantissa < 0x100_0000
    ensures fresh(t) && t.Length == 32 && LE(t[..]) == TargetValue(size, mantissa)
  {
    hide LE, Pow2;
    t := new u8[32](_ => 0);
    if size > 3 {
      PutWord(t, size - 3, mantissa);
    } else {
      ShiftedBelow(mantissa, Pow2(8 * (3 - size)));
      PutWord(t, 0, mantissa / Pow2(8 * (3 - size)));
      NoShift();
    }
  }

  lemma NoShift()
    ensures Pow2(8 * 0) == 1
  {
  }

  // Stores v little-endian at offset `off` of an all-zero buffer.
  method PutWord(t: array<u8>, off: nat, v: u32)
    requires t.Length == 32 && off <= 28 && forall i :: 0 <= i < 32 ==> t[i] == 0
    modifies t
    ensures LE(t[..]) == v * Pow2(8 * off)
  {
    hide Pow2, LE, WordBytes;
    var w := WordBytes(v);
    t[off], t[off + 1], t[off + 2], t[off + 3] := w[0], w[1], w[2], w[3];
    assert t[..] == (seq(off, _ => 0) + w) + seq(28 - off, _ => 0);
    PlacedValue(off, w, 28 - off);
  }

  lemma PlacedValue(off: nat, w: seq<u8>, rest: nat)
    ensures LE((seq(off, _ => 0) + w) + seq(rest, _ => 0)) == LE(w) * Pow2(8 * off)
  {
    var z := seq(off, _ => 0 as u8);
    assert LE([]) == 0;
    hide Pow2, LE;
    LEZeros(z + w, rest);
    LEConcat(z, w);
    LEZeros([], off);
    assert [] + z == z;
  }

  lemma ShiftedBelow(m: nat, p: nat)
    requires p > 0
    ensures 0 <= m / p <= m
  {
    var q := m / p;
    assert m == p * q + m % p;
    MulMono(q, 1, p);
  }

  // Bytes compared from the top down order the strings as little-endian numbers.
  lemma LexIsNumeric(a: seq<u8>, b: seq<u8>, i: nat)
    requires |a| == |b| && i < |a| && a[i] < b[i] && a[i + 1..] == b[i + 1..]
    ensures LE(a) < LE(b)
  {
    var s := a[i + 1..];
    var x, y := [a[i]] + s, [b[i]] + s;
    assert a == a[..i] + x && b == b[..i] + y;
    assert x[1..] == s && y[1..] == s;
    assert LE(x) + 1 <= LE(y);
    hide LE, Pow2;
    LEConcat(a[..i], x);
    LEConcat(b[..i], y);
    LEBound(a[..i]);
    var p := Pow2(8 * i);
    MulMono(p, LE(x) + 1, LE(y));
    assert p * (LE(x) + 1) == p * LE(x) + p;
  }

  // Whether the proof-of-work hash is at most t, scanning from the most significant byte.
  method AtMost(pow: seq<u8>, t: array<u8>) returns (r: bool)
    requires |pow| == 32 && t.Length == 32
    ensures r <==> LE(pow) <= LE(t[..])
  {
    r := true;
    var i := 31;
    while r && i >= 0
      invariant -1 <= i <= 31
      invariant r ==> pow[i + 1..] == t[..][i + 1..]
      invariant !r ==> LE(pow) > LE(t[..])
    {
      if pow[i] < t[i] {
        LexIsNumeric(pow, t[..], i);
        break;
      }
      if pow[i] > t[i] {
        LexIsNumeric(t[..], pow, i);
        r := false;
      }
      i := i - 1;
    }
  }

  // A block is valid iff it has no transactions or the decoded root is the stated one, its time is
  // not too far ahead (in 32-bit arithmetic), and its proof-of-work hash is at most a target that
  // is in range.
  method IsValid(h: Header, H: PairHash, currentTime: u32) returns (r: bool)
    requires h.Valid()
    requires h.Size() <= 31
    ensures r <==>
      && (h.tree.totalTx > 0 ==> DecodedRoot(H, h.tree) == h.merkleRoot)
      && h.timestamp <= (currentTime + MAX_TIME_DRIFT) % W32
      && TargetInRange(h.Size(), h.Mantissa())
      && LE(h.powHash) <= TargetValue(h.Size(), h.Mantissa())
  {
    r := true;
    var reader := new TreeReader(h.tree, H);
    var root := reader.Root(0);
    if h.tree.totalTx > 0 && root != h.merkleRoot { r := false; }
    if h.timestamp > (currentTime + MAX_TIME_DRIFT) % W32 { r := false; }
    var size, target := h.target / 0x100_0000, h.target % 0x100_0000;
    SignBit(target);
    if target == 0 || And(target, 0x80_0000) != 0 || size > MAX_SIZE || (size == MAX_SIZE && target > MAX_TARGET) {
      r := false;
    }
    var t := TargetBytes(size, target);
    if r {
      r := AtMost(h.powHash, t);
    }
  }

  // `target & 0x00800000`
  lemma SignBit(m: nat)
    requires m < 0x100_0000
    ensures And(m, 0x80_0000) != 0 <==> m >= 0x80_0000
  {
    hide And, Pow2;
    Powers();
    var h, l := m / 0x80_0000, m % 0x80_0000;
    AndSplit(23, 0x80_0000, m, h, l, 0x80_0000, 1, 0);
    AndMask(1, 2, h, 0, h);
    AndZero(l);
  }
}
