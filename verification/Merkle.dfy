// The partial merkle tree decoder of LWMerkleBlock.c: two recursive walks over the same flag bits
// and hashes, one computing the root and one listing the matched transactions, proved against the
// encoder of BIP 37 ("Partial Merkle branch format") and against the row-by-row definition of a
// merkle root.
module Merkle {
  import opened Common
  import opened Words

  // A 256-bit hash as a number; 0 is UINT256_ZERO.
  type Hash = nat

  // The double SHA-256 of two concatenated hashes.
  type PairHash = (Hash, Hash) -> Hash

  const SIZE_MAX: nat := 0xffff_ffff_ffff_ffff

  // ------------------------------------------------------------------ heights

  // The least r with x <= 2^r.
  function CeilLog2(x: nat): nat {
    if x <= 1 then 0 else 1 + CeilLog2((x + 1) / 2)
  }

  lemma {:induction false} CeilLog2IsLeast(x: nat, r: nat)
    ensures x <= Pow2(r) <==> CeilLog2(x) <= r
  {
    if x > 1 {
      if r > 0 { CeilLog2IsLeast((x + 1) / 2, r - 1); }
    }
  }

  lemma {:induction false} AndSelf(x: nat)
    ensures And(x, x) == x
  {
    if x > 0 { AndSelf(x / 2); }
  }

  function FloorLog2(x: nat): nat
    requires x > 0
  {
    if x == 1 then 0 else 1 + FloorLog2(x / 2)
  }

  // `x & (x - 1)` is zero exactly for powers of two.
  lemma {:induction false} CeilFromFloor(x: nat)
    requires x > 0
    ensures CeilLog2(x) == FloorLog2(x) + (if And(x, x - 1) != 0 then 1 else 0)
    ensures CeilLog2(x + 1) == FloorLog2(x) + 1
  {
    if x == 1 {
      AndZero(1);
    } else {
      CeilFromFloor(x / 2);
      AndHalf(x, x - 1);
      if x % 2 == 1 {
        AndSelf(x / 2);
        assert (x - 1) / 2 == x / 2;
      } else {
        assert (x - 1) / 2 == x / 2 - 1;
        assert (x + 1) / 2 == x / 2;
        assert (x + 2) / 2 == x / 2 + 1;
      }
    }
  }

  method ComputeCeilLog2(n: int) returns (r: nat)
    requires 0 <= n < 0x8000_0000
    ensures r == CeilLog2(n)
  {
    var x := n;
    r := if And(x, (x - 1) % W32) != 0 then 1 else 0;
    if n == 0 {
      AndZero((x - 1) % W32);
    } else {
      CeilFromFloor(n);
    }
    x := x / 2;
    while x != 0
      invariant 0 <= x < 0x8000_0000
      invariant n > 0 ==> CeilLog2(n) == r + (if x > 0 then FloorLog2(x) + 1 else 0)
      invariant n == 0 ==> x == 0 && r == 0
    {
      r := r + 1;
      x := x / 2;
    }
  }

  // x after n arithmetic shifts to the right, for negative numbers too.
  function ShiftedRight(x: int, n: nat): int {
    if n == 0 then x else ShiftedRight(x, n - 1) / 2
  }

  // The loop ends for an int if and only if it is not negative: a totalTx from 2^31 on becomes a
  // negative int, which no number of shifts makes zero.
  lemma {:induction false} LoopEndsIfNotNegative(x: int, n: nat)
    ensures x < 0 ==> ShiftedRight(x, n) < 0
    ensures 0 <= x <= n ==> ShiftedRight(x, n) == 0
  {
    ShiftsApart(x, n);
    if n > 0 {
      if x < 0 {
        LoopEndsIfNotNegative(x, n - 1);
      } else if x <= n {
        LoopEndsIfNotNegative(x / 2, n - 1);
      }
    }
  }

  lemma {:induction false} ShiftsApart(x: int, n: nat)
    ensures n > 0 ==> ShiftedRight(x, n) == ShiftedRight(x / 2, n - 1)
  {
    if n > 1 {
      ShiftsApart(x, n - 1);
    }
  }

  // -------------------------------------------------------------------- trees

  // The row above: pairs hashed together, a last odd hash paired with itself.
  function RowUp(H: PairHash, row: seq<Hash>): (up: seq<Hash>)
    ensures |up| == (|row| + 1) / 2
  {
    if row == [] then []
    else if |row| == 1 then [H(row[0], row[0])]
    else [H(row[0], row[1])] + RowUp(H, row[2..])
  }

  // The merkle root as the protocol defines it: row by row until one hash is left.
  function RowRoot(H: PairHash, row: seq<Hash>): Hash
    requires row != []
    decreases |row|
  {
    if |row| == 1 then row[0] else RowRoot(H, RowUp(H, row))
  }

  // The hash of the node k levels above the leaves L.
  function TreeRoot(H: PairHash, k: nat, L: seq<Hash>): Hash
    requires 0 < |L| <= Pow2(k)
  {
    if k == 0 then L[0]
    else if |L| <= Pow2(k - 1) then
      var left := TreeRoot(H, k - 1, L);
      H(left, left)
    else H(TreeRoot(H, k - 1, L[..Pow2(k - 1)]), TreeRoot(H, k - 1, L[Pow2(k - 1)..]))
  }

  lemma {:induction false} RowUpSplit(H: PairHash, L: seq<Hash>, m: nat)
    requires 2 * m <= |L|
    ensures RowUp(H, L)[..m] == RowUp(H, L[..2 * m])
    ensures RowUp(H, L)[m..] == RowUp(H, L[2 * m..])
  {
    if m > 0 {
      RowUpSplit(H, L[2..], m - 1);
      assert L[..2 * m][2..] == L[2..][..2 * (m - 1)];
      assert L[2 * m..] == L[2..][2 * (m - 1)..];
      assert L[..2 * m][0] == L[0] && L[..2 * m][1] == L[1];
      assert RowUp(H, L)[1..] == RowUp(H, L[2..]);
      assert RowUp(H, L)[..m] == [H(L[0], L[1])] + RowUp(H, L[2..])[..m - 1];
    }
  }

  // Hashing the bottom row first leaves the node's hash unchanged.
  lemma {:induction false} TreeRootOfRowUp(H: PairHash, k: nat, L: seq<Hash>)
    requires 0 < |L| <= Pow2(k + 1)
    ensures TreeRoot(H, k + 1, L) == TreeRoot(H, k, RowUp(H, L))
  {
    if k == 0 {
    } else {
      var m := Pow2(k - 1);
      assert Pow2(k) == 2 * m && Pow2(k + 1) == 4 * m;
      hide RowUp, Pow2;
      if |L| <= 2 * m {
        TreeRootOfRowUp(H, k - 1, L);
      } else {
        RowUpSplit(H, L, m);
        TreeRootOfRowUp(H, k - 1, L[..2 * m]);
        TreeRootOfRowUp(H, k - 1, L[2 * m..]);
      }
    }
  }

  // The tree of height ceil(log2 |L|) has the protocol's root.
  lemma {:induction false} TreeRootIsRowRoot(H: PairHash, L: seq<Hash>)
    requires L != []
    ensures |L| <= Pow2(CeilLog2(|L|))
    ensures TreeRoot(H, CeilLog2(|L|), L) == RowRoot(H, L)
    decreases |L|
  {
    CeilLog2IsLeast(|L|, CeilLog2(|L|));
    if |L| > 1 {
      var up := RowUp(H, L);
      TreeRootIsRowRoot(H, up);
      TreeRootOfRowUp(H, CeilLog2(|up|), L);
    }
  }

  // ------------------------------------------------------- what the walks compute

  // The fields of a merkle block that the walks read.
  datatype MerkleBlock = MerkleBlock(totalTx: nat, hashes: seq<Hash>, flags: seq<u8>)
  {
    ghost predicate Valid() { totalTx < 0x8000_0000 && |hashes| < SIZE_MAX }

    function Height(): nat { CeilLog2(totalTx) }

    // Flag bit i, least significant bit of each byte first.
    predicate Flag(i: nat)
      requires i / 8 < |flags|
    {
      flags[i / 8] / Pow2(i % 8) % 2 == 1
    }

    // Both the flag bits and the hashes have something left.
    predicate More(c: Cursor) { c.flagIdx / 8 < |flags| && c.hashIdx < |hashes| }
  }

  datatype Cursor = Cursor(hashIdx: nat, flagIdx: nat)

  // The root walk: the hash computed for a node and where it leaves the cursor.
  function RootWalk(H: PairHash, b: MerkleBlock, c: Cursor, depth: nat): (Hash, Cursor)
    requires depth <= b.Height()
    decreases b.Height() - depth
  {
    if !b.More(c) then (0, c)
    else
      var c0 := c.(flagIdx := c.flagIdx + 1);
      if b.Flag(c.flagIdx) && depth != b.Height() then
        var (l, c1) := RootWalk(H, b, c0, depth + 1);
        var (r, c2) := RootWalk(H, b, c1, depth + 1);
        if l != 0 && l != r then (H(l, if r == 0 then l else r), c2)
        else (0, c2.(hashIdx := SIZE_MAX))
      else (b.hashes[c.hashIdx], c0.(hashIdx := c.hashIdx + 1))
  }

  // The extraction walk: the matched leaf hashes under a node, in order.
  function MatchWalk(b: MerkleBlock, c: Cursor, depth: nat): (seq<Hash>, Cursor)
    requires depth <= b.Height()
    decreases b.Height() - depth
  {
    if !b.More(c) then ([], c)
    else
      var c0 := c.(flagIdx := c.flagIdx + 1);
      if !b.Flag(c.flagIdx) || depth == b.Height() then
        (if b.Flag(c.flagIdx) then [b.hashes[c.hashIdx]] else [], c0.(hashIdx := c.hashIdx + 1))
      else
        var (m1, c1) := MatchWalk(b, c0, depth + 1);
        var (m2, c2) := MatchWalk(b, c1, depth + 1);
        (m1 + m2, c2)
  }

  const START: Cursor := Cursor(0, 0)

  // The root the decoder computes.
  function DecodedRoot(H: PairHash, b: MerkleBlock): Hash { RootWalk(H, b, START, 0).0 }

  // All matched hashes the decoder can report.
  function DecodedMatches(b: MerkleBlock): seq<Hash> { MatchWalk(b, START, 0).0 }

  // The duplicate-hash guard was never hit: it parks the hash cursor at SIZE_MAX for good.
  predicate GuardNotHit(H: PairHash, b: MerkleBlock) { RootWalk(H, b, START, 0).1.hashIdx < SIZE_MAX }

  // ----------------------------------------------------------------- soundness

  ghost predicate Injective(H: PairHash) {
    && (forall a, b, c, d :: H(a, b) == H(c, d) ==> a == c && b == d)
    && (forall a, b :: H(a, b) != 0)
  }

  // What both walks do at a node they descend from.
  lemma Descend(H: PairHash, b: MerkleBlock, c: Cursor, depth: nat)
    returns (c0: Cursor, l: Hash, c1: Cursor, r: Hash, c2: Cursor, m1: seq<Hash>, d1: Cursor, m2: seq<Hash>, d2: Cursor)
    requires depth < b.Height() && b.More(c) && b.Flag(c.flagIdx)
    ensures c0 == Cursor(c.hashIdx, c.flagIdx + 1)
    ensures RootWalk(H, b, c0, depth + 1) == (l, c1) && RootWalk(H, b, c1, depth + 1) == (r, c2)
    ensures RootWalk(H, b, c, depth) ==
      if l != 0 && l != r then (H(l, if r == 0 then l else r), c2) else (0, Cursor(SIZE_MAX, c2.flagIdx))
    ensures MatchWalk(b, c0, depth + 1) == (m1, d1) && MatchWalk(b, d1, depth + 1) == (m2, d2)
    ensures MatchWalk(b, c, depth) == (m1 + m2, d2)
  {
    c0 := c.(flagIdx := c.flagIdx + 1);
    l, c1 := RootWalk(H, b, c0, depth + 1).0, RootWalk(H, b, c0, depth + 1).1;
    r, c2 := RootWalk(H, b, c1, depth + 1).0, RootWalk(H, b, c1, depth + 1).1;
    m1, d1 := MatchWalk(b, c0, depth + 1).0, MatchWalk(b, c0, depth + 1).1;
    m2, d2 := MatchWalk(b, d1, depth + 1).0, MatchWalk(b, d1, depth + 1).1;
  }

  lemma SameHash(H: PairHash, a: Hash, b: Hash, c: Hash, d: Hash)
    requires Injective(H)
    ensures H(a, b) != 0 && (H(a, b) == H(c, d) ==> a == c && b == d)
  {
  }

  // As long as the guard is not hit the two walks consume the same flags and hashes.
  lemma {:induction false} LockStep(H: PairHash, b: MerkleBlock, c: Cursor, depth: nat)
    requires b.Valid() && depth <= b.Height() && RootWalk(H, b, c, depth).1.hashIdx < SIZE_MAX
    ensures RootWalk(H, b, c, depth).1 == MatchWalk(b, c, depth).1
    decreases b.Height() - depth
  {
    hide RootWalk, MatchWalk, CeilLog2, Pow2;
    if b.More(c) && b.Flag(c.flagIdx) && depth != b.Height() {
      var c0, l, c1, r, c2, m1, d1, m2, d2 := Descend(H, b, c, depth);
      GuardSticks(H, b, c1, depth + 1);
      LockStep(H, b, c0, depth + 1);
      LockStep(H, b, c1, depth + 1);
    } else {
      Stay(H, b, c, depth);
    }
  }

  // What both walks do at a node they do not descend from.
  lemma Stay(H: PairHash, b: MerkleBlock, c: Cursor, depth: nat)
    requires depth <= b.Height() && !(b.More(c) && b.Flag(c.flagIdx) && depth != b.Height())
    ensures RootWalk(H, b, c, depth).1 == MatchWalk(b, c, depth).1 ==
      if b.More(c) then Cursor(c.hashIdx + 1, c.flagIdx + 1) else c
    ensures RootWalk(H, b, c, depth).0 == if b.More(c) then b.hashes[c.hashIdx] else 0
    ensures MatchWalk(b, c, depth).0 == if b.More(c) && b.Flag(c.flagIdx) then [b.hashes[c.hashIdx]] else []
  {
  }

  lemma {:induction false} GuardSticks(H: PairHash, b: MerkleBlock, c: Cursor, depth: nat)
    requires b.Valid() && depth <= b.Height()
    ensures c.hashIdx >= SIZE_MAX ==> RootWalk(H, b, c, depth).1 == c
  {
  }

  // A zero root hash from an unguarded walk without zero hashes means nothing was left to read.
  lemma ZeroMeansExhausted(H: PairHash, b: MerkleBlock, c: Cursor, depth: nat)
    requires b.Valid() && depth <= b.Height() && Injective(H) && 0 !in b.hashes
    requires RootWalk(H, b, c, depth).1.hashIdx < SIZE_MAX && RootWalk(H, b, c, depth).0 == 0
    ensures MatchWalk(b, c, depth).0 == []
  {
  }

  // The leaves under the left and the right child; the right child may be missing.
  lemma Children(H: PairHash, k: nat, L: seq<Hash>) returns (A: seq<Hash>, B: seq<Hash>)
    requires 0 < |L| <= Pow2(k) && k > 0
    ensures L == A + B && 0 < |A| <= Pow2(k - 1) && |B| <= Pow2(k - 1)
    ensures B != [] ==> |A| == Pow2(k - 1)
    ensures |L| == Pow2(k) <==> |B| == Pow2(k - 1)
    ensures TreeRoot(H, k, L) ==
      H(TreeRoot(H, k - 1, A), if B == [] then TreeRoot(H, k - 1, A) else TreeRoot(H, k - 1, B))
  {
    var p := Pow2(k - 1);
    if |L| <= p {
      A, B := L, [];
    } else {
      A, B := L[..p], L[p..];
    }
  }

  ghost predicate WalkAgrees(H: PairHash, b: MerkleBlock, c: Cursor, depth: nat, L: seq<Hash>)
    requires depth <= b.Height()
  {
    && b.Valid() && Injective(H) && 0 !in b.hashes
    && 0 < |L| <= Pow2(b.Height() - depth)
    && RootWalk(H, b, c, depth).1.hashIdx < SIZE_MAX
    && RootWalk(H, b, c, depth).0 == TreeRoot(H, b.Height() - depth, L)
  }

  // If the hash computed for a node is the true one, so are those computed for its children; a
  // child that yields nothing reports nothing.
  lemma ChildrenAgree(H: PairHash, b: MerkleBlock, c: Cursor, depth: nat, L: seq<Hash>)
    returns (A: seq<Hash>, B: seq<Hash>, c0: Cursor, c1: Cursor)
    requires depth < b.Height() && WalkAgrees(H, b, c, depth, L) && b.More(c) && b.Flag(c.flagIdx)
    ensures L == A + B && WalkAgrees(H, b, c0, depth + 1, A)
    ensures MatchWalk(b, c, depth).0 == MatchWalk(b, c0, depth + 1).0 + MatchWalk(b, c1, depth + 1).0
    ensures MatchWalk(b, c1, depth + 1).0 == [] || WalkAgrees(H, b, c1, depth + 1, B)
  {
    hide Pow2, CeilLog2, RootWalk, MatchWalk, TreeRoot, Injective;
    var l, r, c2, m1, d1, m2, d2;
    var k := b.Height() - depth;
    A, B := Children(H, k, L);
    c0, l, c1, r, c2, m1, d1, m2, d2 := Descend(H, b, c, depth);
    GuardSticks(H, b, c1, depth + 1);
    LockStep(H, b, c0, depth + 1);
    var ta := TreeRoot(H, k - 1, A);
    SameHash(H, l, if r == 0 then l else r, ta, if B == [] then ta else TreeRoot(H, k - 1, B));
    if r == 0 { ZeroMeansExhausted(H, b, c1, depth + 1); }
  }

  // Below a node whose computed hash is the true one, only true leaves are reported.
  lemma {:induction false} MatchesAreLeaves(H: PairHash, b: MerkleBlock, c: Cursor, depth: nat, L: seq<Hash>)
    requires depth <= b.Height() && WalkAgrees(H, b, c, depth, L)
    ensures forall x :: x in MatchWalk(b, c, depth).0 ==> x in L
    decreases b.Height() - depth
  {
    if b.More(c) && b.Flag(c.flagIdx) {
      if depth == b.Height() {
        assert MatchWalk(b, c, depth).0 == [L[0]];
      } else {
        hide WalkAgrees, MatchWalk, RootWalk;
        var A, B, c0, c1 := ChildrenAgree(H, b, c, depth, L);
        MatchesAreLeaves(H, b, c0, depth + 1, A);
        if MatchWalk(b, c1, depth + 1).0 != [] { MatchesAreLeaves(H, b, c1, depth + 1, B); }
      }
    } else {
      assert MatchWalk(b, c, depth).0 == [];
    }
  }

  // Soundness: if the decoder computes the true merkle root of the transactions T and never hit its
  // guard, every hash it reports is in T.
  lemma Soundness(H: PairHash, b: MerkleBlock, T: seq<Hash>)
    requires b.Valid() && Injective(H) && 0 !in b.hashes && GuardNotHit(H, b)
    requires T != [] && |T| == b.totalTx && DecodedRoot(H, b) == RowRoot(H, T)
    ensures forall x :: x in DecodedMatches(b) ==> x in T
  {
    TreeRootIsRowRoot(H, T);
    MatchesAreLeaves(H, b, START, 0, T);
  }

  // -------------------------------------------------------------- completeness

  predicate AnyMatch(M: seq<bool>) { exists i :: 0 <= i < |M| && M[i] }

  // The matched leaves, in order.
  function Selected(L: seq<Hash>, M: seq<bool>): seq<Hash>
    requires |L| == |M|
  {
    if L == [] then [] else (if M[0] then [L[0]] else []) + Selected(L[1..], M[1..])
  }

  datatype Encoding = Encoding(bits: seq<bool>, hashes: seq<Hash>)

  // How many of a node's n leaves are under its left child.
  function LeftCount(k: nat, n: nat): (m: nat)
    requires k > 0 && n <= Pow2(k)
    ensures m <= n && m <= Pow2(k - 1) && n - m <= Pow2(k - 1)
    ensures 0 < n ==> 0 < m
    ensures m == Pow2(k - 1) || m == n
    ensures n == Pow2(k) ==> m == Pow2(k - 1) && n - m == Pow2(k - 1)
  {
    if n <= Pow2(k - 1) then n else Pow2(k - 1)
  }

  // BIP 37's depth-first encoding of the node k levels above the leaves L, of which M says which
  // are matched. A node without leaves does not exist and takes no space.
  function Encode(H: PairHash, k: nat, L: seq<Hash>, M: seq<bool>): Encoding
    requires |L| <= Pow2(k) && |M| == |L|
  {
    if L == [] then Encoding([], [])
    else if k == 0 then Encoding([M[0]], [L[0]])
    else if !AnyMatch(M) then Encoding([false], [TreeRoot(H, k, L)])
    else
      var m := LeftCount(k, |L|);
      var left := Encode(H, k - 1, L[..m], M[..m]);
      var right := Encode(H, k - 1, L[m..], M[m..]);
      Encoding([true] + left.bits + right.bits, left.hashes + right.hashes)
  }

  // The node's hash, zero if the node does not exist.
  function NodeHash(H: PairHash, k: nat, L: seq<Hash>): Hash
    requires |L| <= Pow2(k)
  {
    if L == [] then 0 else TreeRoot(H, k, L)
  }

  // No node of the real tree hashes to zero and no two real siblings are equal.
  ghost predicate Ordinary(H: PairHash, k: nat, L: seq<Hash>)
    requires |L| <= Pow2(k)
  {
    L != [] ==>
      && NodeHash(H, k, L) != 0
      && (k > 0 ==>
            var m := LeftCount(k, |L|);
            && Ordinary(H, k - 1, L[..m]) && Ordinary(H, k - 1, L[m..])
            && NodeHash(H, k - 1, L[..m]) != NodeHash(H, k - 1, L[m..]))
  }

  // The flag bits and hashes from the cursor on begin with those of the encoding.
  ghost predicate StartsWith(b: MerkleBlock, c: Cursor, e: Encoding) {
    && c.hashIdx + |e.hashes| <= |b.hashes| && c.flagIdx + |e.bits| <= 8 * |b.flags|
    && (forall i :: 0 <= i < |e.bits| ==> b.Flag(c.flagIdx + i) == e.bits[i])
    && b.hashes[c.hashIdx..c.hashIdx + |e.hashes|] == e.hashes
  }

  function Past(c: Cursor, e: Encoding): Cursor {
    Cursor(c.hashIdx + |e.hashes|, c.flagIdx + |e.bits|)
  }

  // The node is full, or nothing follows its encoding: then a missing right child is noticed.
  ghost predicate FullOrLast(b: MerkleBlock, c: Cursor, k: nat, n: nat, e: Encoding) {
    n == Pow2(k) || Past(c, e).hashIdx == |b.hashes|
  }

  // The encoding of an existing node has at least one hash, and its first bit says if something
  // matches below.
  lemma {:induction false} EncodeNonempty(H: PairHash, k: nat, L: seq<Hash>, M: seq<bool>)
    requires 0 < |L| <= Pow2(k) && |M| == |L|
    ensures |Encode(H, k, L, M).bits| > 0 && |Encode(H, k, L, M).hashes| > 0
    ensures Encode(H, k, L, M).bits[0] == AnyMatch(M)
  {
    if k > 0 && AnyMatch(M) {
      var m := LeftCount(k, |L|);
      EncodeNonempty(H, k - 1, L[..m], M[..m]);
    }
  }

  lemma {:induction false} SelectedSplit(L: seq<Hash>, M: seq<bool>, m: nat)
    requires |L| == |M| && m <= |L|
    ensures Selected(L, M) == Selected(L[..m], M[..m]) + Selected(L[m..], M[m..])
  {
    if m == 0 {
      assert L[..0] == [] && L[0..] == L && M[0..] == M;
    } else {
      SelectedSplit(L[1..], M[1..], m - 1);
      assert L[1..][..m - 1] == L[..m][1..] && M[1..][..m - 1] == M[..m][1..];
      assert L[1..][m - 1..] == L[m..] && M[1..][m - 1..] == M[m..];
    }
  }

  lemma {:induction false} NothingSelected(L: seq<Hash>, M: seq<bool>)
    requires |L| == |M| && !AnyMatch(M)
    ensures Selected(L, M) == []
  {
    if L != [] {
      assert !M[0] && forall i :: 0 <= i < |M[1..]| ==> M[1..][i] == M[i + 1];
      NothingSelected(L[1..], M[1..]);
    }
  }

  // An encoding whose first part is e1 and rest e2 starts with e1, and e2 starts right after it.
  lemma StartsSplit(b: MerkleBlock, c: Cursor, e: Encoding, e1: Encoding, e2: Encoding)
    requires StartsWith(b, c, e) && e.bits == [true] + e1.bits + e2.bits && e.hashes == e1.hashes + e2.hashes
    ensures var c0 := Cursor(c.hashIdx, c.flagIdx + 1);
      StartsWith(b, c0, e1) && StartsWith(b, Past(c0, e1), e2) && Past(Past(c0, e1), e2) == Past(c, e)
  {
    var c0 := Cursor(c.hashIdx, c.flagIdx + 1);
    forall i | 0 <= i < |e1.bits| ensures b.Flag(c0.flagIdx + i) == e1.bits[i] {
      assert e.bits[i + 1] == e1.bits[i] && b.Flag(c.flagIdx + (i + 1)) == e.bits[i + 1];
    }
    var c1 := Past(c0, e1);
    forall i | 0 <= i < |e2.bits| ensures b.Flag(c1.flagIdx + i) == e2.bits[i] {
      var j := 1 + |e1.bits| + i;
      assert e.bits[j] == e2.bits[i] && b.Flag(c.flagIdx + j) == e.bits[j];
    }
    assert e.hashes[..|e1.hashes|] == e1.hashes && e.hashes[|e1.hashes|..] == e2.hashes;
  }

  // Both walks over an encoding: the root is the node's, the matches are the matched leaves.
  ghost predicate Decoded(H: PairHash, b: MerkleBlock, c: Cursor, depth: nat, L: seq<Hash>, M: seq<bool>)
    requires depth <= b.Height() && |L| <= Pow2(b.Height() - depth) && |M| == |L|
  {
    var k := b.Height() - depth;
    var e := Encode(H, k, L, M);
    && RootWalk(H, b, c, depth) == (NodeHash(H, k, L), Past(c, e))
    && MatchWalk(b, c, depth) == (Selected(L, M), Past(c, e))
  }

  // How an inner node with a match below it is made of its children.
  lemma EncodeInner(H: PairHash, k: nat, L: seq<Hash>, M: seq<bool>)
    returns (m: nat, A: seq<Hash>, B: seq<Hash>, MA: seq<bool>, MB: seq<bool>, e1: Encoding, e2: Encoding)
    requires 0 < k && 0 < |L| <= Pow2(k) && |M| == |L| && AnyMatch(M) && Ordinary(H, k, L)
    ensures |A| <= Pow2(k - 1) && |B| <= Pow2(k - 1) && |MA| == |A| && |MB| == |B|
    ensures Ordinary(H, k - 1, A) && Ordinary(H, k - 1, B)
    ensures var l, r := NodeHash(H, k - 1, A), NodeHash(H, k - 1, B);
      l != 0 && l != r && NodeHash(H, k, L) == H(l, if r == 0 then l else r)
    ensures e1 == Encode(H, k - 1, A, MA) && e2 == Encode(H, k - 1, B, MB)
    ensures Encode(H, k, L, M).bits == [true] + e1.bits + e2.bits
    ensures Encode(H, k, L, M).hashes == e1.hashes + e2.hashes
    ensures |A| == Pow2(k - 1) || e2 == Encoding([], [])
    ensures |L| == Pow2(k) ==> |A| == |B| == Pow2(k - 1)
    ensures Selected(L, M) == Selected(A, MA) + Selected(B, MB)
  {
    hide Encode, Selected, Ordinary, NodeHash, Pow2, LeftCount, AnyMatch;
    m := LeftCount(k, |L|);
    A, B, MA, MB := L[..m], L[m..], M[..m], M[m..];
    e1, e2 := Encode(H, k - 1, A, MA), Encode(H, k - 1, B, MB);
    EncodeStep(H, k, L, M);
    if B == [] { EncodeNothing(H, k - 1, B, MB); }
    assert L == A + B;
    InnerHashes(H, k, L, A, B);
    SelectedSplit(L, M, m);
  }

  lemma EncodeStep(H: PairHash, k: nat, L: seq<Hash>, M: seq<bool>)
    requires 0 < k && 0 < |L| <= Pow2(k) && |M| == |L| && AnyMatch(M)
    ensures var m := LeftCount(k, |L|);
      var e1, e2 := Encode(H, k - 1, L[..m], M[..m]), Encode(H, k - 1, L[m..], M[m..]);
      Encode(H, k, L, M) == Encoding([true] + e1.bits + e2.bits, e1.hashes + e2.hashes)
  {
  }

  lemma EncodeNothing(H: PairHash, k: nat, L: seq<Hash>, M: seq<bool>)
    requires L == [] && M == []
    ensures Encode(H, k, L, M) == Encoding([], [])
  {
  }

  // The children's hashes determine the node's; a missing right child counts as a copy of the left.
  lemma InnerHashes(H: PairHash, k: nat, L: seq<Hash>, A: seq<Hash>, B: seq<Hash>)
    requires 0 < k && 0 < |L| <= Pow2(k) && |A| <= Pow2(k - 1) && |B| <= Pow2(k - 1)
    requires L == A + B && |A| == LeftCount(k, |L|) && Ordinary(H, k, L)
    ensures Ordinary(H, k - 1, A) && Ordinary(H, k - 1, B)
    ensures var l, r := NodeHash(H, k - 1, A), NodeHash(H, k - 1, B);
      l != 0 && l != r && NodeHash(H, k, L) == H(l, if r == 0 then l else r)
  {
    var m := LeftCount(k, |L|);
    assert A == L[..m] && B == L[m..];
    if m == |L| { assert A == L && B == []; }
  }

  lemma {:induction false} DecodeNode(H: PairHash, b: MerkleBlock, c: Cursor, depth: nat, L: seq<Hash>, M: seq<bool>)
    requires depth <= b.Height() && |L| <= Pow2(b.Height() - depth) && |M| == |L|
    requires Ordinary(H, b.Height() - depth, L)
    requires StartsWith(b, c, Encode(H, b.Height() - depth, L, M))
    requires FullOrLast(b, c, b.Height() - depth, |L|, Encode(H, b.Height() - depth, L, M))
    ensures Decoded(H, b, c, depth, L, M)
    decreases b.Height() - depth
  {
    hide RootWalk, MatchWalk, CeilLog2, Ordinary;
    var k := b.Height() - depth;
    var e := Encode(H, k, L, M);
    if L == [] {
      NothingThere(H, b, c, depth, M);
    } else {
      EncodeNonempty(H, k, L, M);
      assert b.Flag(c.flagIdx + 0) == e.bits[0] == AnyMatch(M);
      if k > 0 && AnyMatch(M) {
        DecodeInner(H, b, c, depth, L, M);
      } else {
        Stay(H, b, c, depth);
        if k == 0 {
          assert L == [L[0]] && L[1..] == [] && M[1..] == [];
          assert Selected(L, M) == if M[0] then [L[0]] else [];
        } else {
          NothingSelected(L, M);
        }
        assert b.hashes[c.hashIdx..c.hashIdx + 1][0] == b.hashes[c.hashIdx];
      }
    }
  }

  lemma NothingThere(H: PairHash, b: MerkleBlock, c: Cursor, depth: nat, M: seq<bool>)
    requires depth <= b.Height() && M == []
    requires FullOrLast(b, c, b.Height() - depth, 0, Encode(H, b.Height() - depth, [], M))
    ensures Decoded(H, b, c, depth, [], M)
  {
    EncodeNothing(H, b.Height() - depth, [], M);
  }

  lemma {:induction false} DecodeInner(H: PairHash, b: MerkleBlock, c: Cursor, depth: nat, L: seq<Hash>, M: seq<bool>)
    requires depth < b.Height() && 0 < |L| <= Pow2(b.Height() - depth) && |M| == |L| && AnyMatch(M)
    requires Ordinary(H, b.Height() - depth, L) && b.More(c) && b.Flag(c.flagIdx)
    requires StartsWith(b, c, Encode(H, b.Height() - depth, L, M))
    requires FullOrLast(b, c, b.Height() - depth, |L|, Encode(H, b.Height() - depth, L, M))
    ensures Decoded(H, b, c, depth, L, M)
    decreases b.Height() - depth, 0
  {
    hide RootWalk, MatchWalk, Selected, Encode, Ordinary, NodeHash, CeilLog2, StartsWith;
    var k := b.Height() - depth;
    var m, A, B, MA, MB, e1, e2 := EncodeInner(H, k, L, M);
    StartsSplit(b, c, Encode(H, k, L, M), e1, e2);
    var c0 := Cursor(c.hashIdx, c.flagIdx + 1);
    DecodeNode(H, b, c0, depth + 1, A, MA);
    DecodeNode(H, b, Past(c0, e1), depth + 1, B, MB);
    var d0, l, c1, r, c2, m1, d1, m2, d2 := Descend(H, b, c, depth);
  }

  // Completeness: for every transaction list and match set, any block that holds the BIP 37
  // encoding - whatever the padding bits - decodes to the true merkle root and to exactly the
  // matched transactions in order.
  lemma Completeness(H: PairHash, b: MerkleBlock, T: seq<Hash>, M: seq<bool>)
    requires T != [] && |M| == |T| == b.totalTx
    requires |T| <= Pow2(CeilLog2(|T|)) && Ordinary(H, CeilLog2(|T|), T)
    requires var e := Encode(H, CeilLog2(|T|), T, M); StartsWith(b, START, e) && |e.hashes| == |b.hashes|
    ensures DecodedRoot(H, b) == RowRoot(H, T)
    ensures DecodedMatches(b) == Selected(T, M)
    ensures b.Valid() ==> GuardNotHit(H, b)
  {
    hide RootWalk, MatchWalk, Selected, Encode, Ordinary, CeilLog2, StartsWith, Pow2;
    TreeRootIsRowRoot(H, T);
    DecodeNode(H, b, START, 0, T, M);
  }

  // The byte of up to eight bits, least significant first.
  function ByteOf(bits: seq<bool>): (x: nat)
    requires |bits| <= 8
    ensures x < Pow2(|bits|)
  {
    if bits == [] then 0 else (if bits[0] then 1 else 0) + 2 * ByteOf(bits[1..])
  }

  function Packed(bits: seq<bool>): (flags: seq<u8>)
    ensures |flags| == (|bits| + 7) / 8
  {
    if bits == [] then []
    else
      var n := if |bits| < 8 then |bits| else 8;
      SmallByte(bits[..n]);
      [ByteOf(bits[..n])] + Packed(bits[n..])
  }

  lemma SmallByte(bits: seq<bool>)
    requires |bits| <= 8
    ensures ByteOf(bits) < 0x100
  {
    assert Pow2(1) == 2 && Pow2(2) == 4 && Pow2(3) == 8 && Pow2(4) == 16;
    assert Pow2(5) == 32 && Pow2(6) == 64 && Pow2(7) == 128 && Pow2(8) == 256;
    hide Pow2, ByteOf;
    assert ByteOf(bits) < Pow2(|bits|);
  }

  lemma {:induction false} BitOfByte(bits: seq<bool>, k: nat)
    requires k < |bits| <= 8
    ensures ByteOf(bits) / Pow2(k) % 2 == 1 <==> bits[k]
  {
    if k > 0 {
      BitOfByte(bits[1..], k - 1);
      HalfThen(ByteOf(bits), k);
    }
  }

  lemma HalfThen(x: nat, k: nat)
    requires 0 < k < 8
    ensures x / Pow2(k) == x / 2 / Pow2(k - 1)
  {
    assert Pow2(0) == 1 && Pow2(1) == 2 && Pow2(2) == 4 && Pow2(3) == 8;
    assert Pow2(4) == 16 && Pow2(5) == 32 && Pow2(6) == 64 && Pow2(7) == 128;
    hide Pow2;
    if k == 1 {
    } else if k == 2 {
    } else if k == 3 {
    } else if k == 4 {
    } else if k == 5 {
    } else if k == 6 {
    }
  }

  lemma {:induction false} PackedFlag(totalTx: nat, hashes: seq<Hash>, bits: seq<bool>, i: nat)
    requires i < |bits|
    ensures MerkleBlock(totalTx, hashes, Packed(bits)).Flag(i) == bits[i]
    decreases |bits|
  {
    hide Pow2, ByteOf;
    if i < 8 {
      var n := if |bits| < 8 then |bits| else 8;
      BitOfByte(bits[..n], i);
    } else {
      PackedFlag(totalTx, hashes, bits[8..], i - 8);
      assert Packed(bits)[i / 8] == Packed(bits[8..])[(i - 8) / 8];
    }
  }

  lemma {:induction false} NoMoreHashesThanLeaves(H: PairHash, k: nat, L: seq<Hash>, M: seq<bool>)
    requires |L| <= Pow2(k) && |M| == |L|
    ensures |Encode(H, k, L, M).hashes| <= |L|
  {
    hide TreeRoot;
    if L != [] && k > 0 && AnyMatch(M) {
      var m := LeftCount(k, |L|);
      NoMoreHashesThanLeaves(H, k - 1, L[..m], M[..m]);
      NoMoreHashesThanLeaves(H, k - 1, L[m..], M[m..]);
    }
  }

  // The block that holds the encoding of T with the matches M.
  function Built(H: PairHash, T: seq<Hash>, M: seq<bool>): MerkleBlock
    requires |T| <= Pow2(CeilLog2(|T|)) && |M| == |T|
  {
    var e := Encode(H, CeilLog2(|T|), T, M);
    MerkleBlock(|T|, e.hashes, Packed(e.bits))
  }

  // For every transaction list and match set there is such a block, and it decodes to both.
  lemma BuiltDecodes(H: PairHash, T: seq<Hash>, M: seq<bool>)
    requires T != [] && |M| == |T| < 0x8000_0000
    requires |T| <= Pow2(CeilLog2(|T|)) && Ordinary(H, CeilLog2(|T|), T)
    ensures var b := Built(H, T, M);
            && b.Valid() && b.totalTx == |T| && GuardNotHit(H, b)
            && DecodedRoot(H, b) == RowRoot(H, T) && DecodedMatches(b) == Selected(T, M)
  {
    hide Encode, Ordinary, CeilLog2, Pow2, TreeRoot, Packed;
    var b, e := Built(H, T, M), Encode(H, CeilLog2(|T|), T, M);
    NoMoreHashesThanLeaves(H, CeilLog2(|T|), T, M);
    BuiltStarts(H, T, M);
    hide StartsWith;
    Completeness(H, b, T, M);
  }

  lemma BuiltStarts(H: PairHash, T: seq<Hash>, M: seq<bool>)
    requires |T| <= Pow2(CeilLog2(|T|)) && |M| == |T|
    ensures StartsWith(Built(H, T, M), START, Encode(H, CeilLog2(|T|), T, M))
  {
    hide Encode, CeilLog2, Pow2, Packed;
    var b, e := Built(H, T, M), Encode(H, CeilLog2(|T|), T, M);
    forall i | 0 <= i < |e.bits| ensures b.Flag(i) == e.bits[i] {
      PackedFlag(|T|, e.hashes, e.bits, i);
    }
  }

  // ---------------------------------------------------------- when the guard is hit

  // How many nodes the tree over n leaves has j levels up.
  function RowLength(n: nat, j: nat): nat {
    if j == 0 then n else RowLength((n + 1) / 2, j - 1)
  }

  // In the tree of height k over n leaves, the last node of level j has no right sibling.
  predicate Gap(k: nat, n: nat, j: nat) {
    if k <= j + 1 then k == j + 1 && 0 < n <= Pow2(j)
    else Gap(k - 1, if n > Pow2(k - 1) then n - Pow2(k - 1) else n, j)
  }

  lemma {:induction false} GapAtLeaves(k: nat, n: nat)
    requires k > 0 && 0 < n <= Pow2(k)
    ensures Gap(k, n, 0) <==> n % 2 == 1
  {
    if k > 1 {
      assert Pow2(k - 1) == 2 * Pow2(k - 2);
      GapAtLeaves(k - 1, if n > Pow2(k - 1) then n - Pow2(k - 1) else n);
    } else {
      assert Pow2(1) == 2 && Pow2(0) == 1;
    }
  }

  lemma {:induction false} GapRowUp(k: nat, n: nat, j: nat)
    requires 0 < j < k && 0 < n <= Pow2(k)
    ensures Gap(k, n, j) <==> Gap(k - 1, (n + 1) / 2, j - 1)
  {
    assert Pow2(k - 1) == 2 * Pow2(k - 2);
    if k > j + 1 {
      GapRowUp(k - 1, if n > Pow2(k - 1) then n - Pow2(k - 1) else n, j);
    } else {
      assert Pow2(j) == 2 * Pow2(j - 1);
    }
  }

  // So such a gap is a row of odd length.
  lemma {:induction false} GapIsOddRow(k: nat, n: nat, j: nat)
    requires j < k && 0 < n <= Pow2(k)
    ensures Gap(k, n, j) <==> RowLength(n, j) % 2 == 1
    decreases j
  {
    if j == 0 {
      GapAtLeaves(k, n);
    } else {
      GapRowUp(k, n, j);
      assert Pow2(k) == 2 * Pow2(k - 1);
      GapIsOddRow(k - 1, (n + 1) / 2, j - 1);
    }
  }

  // A subtree that hits the guard: down the left edge to two equal leaves, both flagged.
  function FakeBits(j: nat): seq<bool>
    requires j > 0
  {
    if j == 1 then [true, true, true] else [true] + FakeBits(j - 1)
  }

  // The true tree as far as the gap at level j, with a fake right sibling there.
  function Forged(H: PairHash, k: nat, L: seq<Hash>, j: nat, s: Hash): Encoding
    requires 0 < |L| <= Pow2(k) && 0 < j < k && Gap(k, |L|, j)
  {
    if k == j + 1 then Encoding([true] + [false] + FakeBits(j), [TreeRoot(H, j, L)] + [s, s])
    else if |L| > Pow2(k - 1) then
      var rest := Forged(H, k - 1, L[Pow2(k - 1)..], j, s);
      Encoding([true] + [false] + rest.bits, [TreeRoot(H, k - 1, L[..Pow2(k - 1)])] + rest.hashes)
    else
      var rest := Forged(H, k - 1, L, j, s);
      Encoding([true] + rest.bits, rest.hashes)
  }

  // The root walk over the fake subtree yields nothing and parks the hash index; the extraction walk
  // reports both leaves.
  lemma {:induction false} DecodeFake(H: PairHash, b: MerkleBlock, c: Cursor, depth: nat, s: Hash)
    requires b.Valid() && depth < b.Height() && s != 0
    requires StartsWith(b, c, Encoding(FakeBits(b.Height() - depth), [s, s])) && c.hashIdx + 2 == |b.hashes|
    ensures RootWalk(H, b, c, depth) == (0, Cursor(SIZE_MAX, c.flagIdx + |FakeBits(b.Height() - depth)|))
    ensures MatchWalk(b, c, depth)
            == ([s, s], Cursor(|b.hashes|, c.flagIdx + |FakeBits(b.Height() - depth)|))
    decreases b.Height() - depth
  {
    hide RootWalk, MatchWalk, CeilLog2, Pow2, StartsWith;
    var k := b.Height() - depth;
    FakeStarts(b, c, k, s);
    if k == 1 {
      FakeLeaves(H, b, c, depth, s);
    } else {
      var c0, l, c1, r, c2, m1, d1, m2, d2 := Descend(H, b, c, depth);
      DecodeFake(H, b, c0, depth + 1, s);
      NothingLeft(H, b, c1, depth + 1);
      NothingLeft(H, b, d1, depth + 1);
      assert m1 + [] == m1;
    }
  }

  lemma FakeLeaves(H: PairHash, b: MerkleBlock, c: Cursor, depth: nat, s: Hash)
    requires b.Valid() && b.Height() == depth + 1 && s != 0 && c.hashIdx + 2 == |b.hashes|
    requires b.More(c) && b.More(Cursor(c.hashIdx, c.flagIdx + 1)) && b.More(Cursor(c.hashIdx + 1, c.flagIdx + 2))
    requires b.Flag(c.flagIdx) && b.Flag(c.flagIdx + 1) && b.Flag(c.flagIdx + 2)
    requires b.hashes[c.hashIdx] == b.hashes[c.hashIdx + 1] == s
    ensures RootWalk(H, b, c, depth) == (0, Cursor(SIZE_MAX, c.flagIdx + 3))
    ensures MatchWalk(b, c, depth) == ([s, s], Cursor(|b.hashes|, c.flagIdx + 3))
  {
    hide RootWalk, MatchWalk, CeilLog2, Pow2;
    var c0, l, c1, r, c2, m1, d1, m2, d2 := Descend(H, b, c, depth);
    Stay(H, b, c0, depth + 1);
    Stay(H, b, c1, depth + 1);
    assert m1 + m2 == [s, s];
  }

  lemma NothingLeft(H: PairHash, b: MerkleBlock, c: Cursor, depth: nat)
    requires depth <= b.Height() && c.hashIdx >= |b.hashes|
    ensures RootWalk(H, b, c, depth) == (0, c) && MatchWalk(b, c, depth) == ([], c)
  {
  }

  lemma FakeStarts(b: MerkleBlock, c: Cursor, k: nat, s: Hash)
    requires k > 0 && StartsWith(b, c, Encoding(FakeBits(k), [s, s]))
    ensures b.More(c) && b.Flag(c.flagIdx)
    ensures k == 1 ==>
              && b.More(Cursor(c.hashIdx, c.flagIdx + 1)) && b.More(Cursor(c.hashIdx + 1, c.flagIdx + 2))
              && b.Flag(c.flagIdx + 1) && b.Flag(c.flagIdx + 2)
              && b.hashes[c.hashIdx] == b.hashes[c.hashIdx + 1] == s
    ensures k > 1 ==> StartsWith(b, Cursor(c.hashIdx, c.flagIdx + 1), Encoding(FakeBits(k - 1), [s, s]))
  {
    var e := Encoding(FakeBits(k), [s, s]);
    assert b.Flag(c.flagIdx + 0) == e.bits[0];
    if k == 1 {
      assert b.Flag(c.flagIdx + 1) == e.bits[1] && b.Flag(c.flagIdx + 2) == e.bits[2];
      assert b.hashes[c.hashIdx..c.hashIdx + 2][0] == s && b.hashes[c.hashIdx..c.hashIdx + 2][1] == s;
    } else {
      StartsSplit(b, c, e, Encoding(FakeBits(k - 1), [s, s]), Encoding([], []));
    }
  }

  // A node whose left child is a plain hash.
  lemma PlainLeft(H: PairHash, b: MerkleBlock, c: Cursor, depth: nat, e: Encoding, l: Hash, rest: Encoding)
    requires depth < b.Height() && StartsWith(b, c, e) && l != 0
    requires e.bits == [true] + [false] + rest.bits && e.hashes == [l] + rest.hashes
    ensures var c1 := Cursor(c.hashIdx + 1, c.flagIdx + 2);
            var (r, c2) := RootWalk(H, b, c1, depth + 1);
            && StartsWith(b, c1, rest) && Past(c1, rest) == Past(c, e)
            && RootWalk(H, b, c, depth)
               == (if l != r then (H(l, if r == 0 then l else r), c2) else (0, Cursor(SIZE_MAX, c2.flagIdx)))
            && MatchWalk(b, c, depth) == MatchWalk(b, c1, depth + 1)
  {
    StartsSplit(b, c, e, Encoding([false], [l]), rest);
    assert b.Flag(c.flagIdx + 0) == e.bits[0] && b.Flag(c.flagIdx + 1) == e.bits[1];
    assert b.hashes[c.hashIdx..c.hashIdx + |e.hashes|][0] == l;
    hide RootWalk, MatchWalk, CeilLog2, Pow2, StartsWith;
    var c0, l', c1, r, c2, m1, d1, m2, d2 := Descend(H, b, c, depth);
    Stay(H, b, c0, depth + 1);
    assert [] + m2 == m2;
  }

  // Both walks over an encoding that ends in a fake: the root walk gives the given hash and parks the
  // hash index, the extraction walk reports the stranger twice and reads to the end.
  ghost predicate Deceived(H: PairHash, b: MerkleBlock, c: Cursor, depth: nat, e: Encoding, root: Hash, s: Hash)
    requires depth <= b.Height()
  {
    && RootWalk(H, b, c, depth) == (root, Cursor(SIZE_MAX, Past(c, e).flagIdx))
    && MatchWalk(b, c, depth) == ([s, s], Past(c, e))
  }

  lemma {:induction false} DecodeForged(H: PairHash, b: MerkleBlock, c: Cursor, depth: nat, L: seq<Hash>, j: nat,
                                        s: Hash)
    requires b.Valid() && depth < b.Height() && s != 0
    requires var k := b.Height() - depth; 0 < |L| <= Pow2(k) && 0 < j < k && Gap(k, |L|, j) && Ordinary(H, k, L)
    requires var e := Forged(H, b.Height() - depth, L, j, s);
             StartsWith(b, c, e) && Past(c, e).hashIdx == |b.hashes|
    ensures var k := b.Height() - depth; Deceived(H, b, c, depth, Forged(H, k, L, j, s), TreeRoot(H, k, L), s)
    decreases b.Height() - depth
  {
    hide RootWalk, MatchWalk, CeilLog2, StartsWith, Ordinary, Forged, Gap, TreeRoot, Pow2, Deceived, FakeBits;
    var k := b.Height() - depth;
    var e := Forged(H, k, L, j, s);
    var p := Pow2(k - 1);
    OrdinaryChildren(H, k, L);
    ForgedNode(H, k, L, j, s);
    if k == j + 1 {
      ForgedGap(H, b, c, depth, e, TreeRoot(H, j, L), s);
    } else if |L| > p {
      var A, B := L[..p], L[p..];
      ForgedPast(H, b, c, depth, e, TreeRoot(H, k - 1, A), Forged(H, k - 1, B, j, s));
      DecodeForged(H, b, Cursor(c.hashIdx + 1, c.flagIdx + 2), depth + 1, B, j, s);
      ForgedRight(H, b, c, depth, e, TreeRoot(H, k - 1, A), Forged(H, k - 1, B, j, s), TreeRoot(H, k - 1, B), s);
    } else {
      LeftOnly(H, b, c, depth, e, Forged(H, k - 1, L, j, s), TreeRoot(H, k - 1, L), s);
      DecodeForged(H, b, Cursor(c.hashIdx, c.flagIdx + 1), depth + 1, L, j, s);
    }
  }

  lemma ForgedGap(H: PairHash, b: MerkleBlock, c: Cursor, depth: nat, e: Encoding, l: Hash, s: Hash)
    requires b.Valid() && depth + 1 < b.Height() && StartsWith(b, c, e) && Past(c, e).hashIdx == |b.hashes|
    requires l != 0 && s != 0
    requires e == Encoding([true] + [false] + FakeBits(b.Height() - depth - 1), [l] + [s, s])
    ensures Deceived(H, b, c, depth, e, H(l, l), s)
  {
    hide RootWalk, MatchWalk, CeilLog2, StartsWith, FakeBits;
    PlainLeft(H, b, c, depth, e, l, Encoding(FakeBits(b.Height() - depth - 1), [s, s]));
    DecodeFake(H, b, Cursor(c.hashIdx + 1, c.flagIdx + 2), depth + 1, s);
  }

  lemma ForgedPast(H: PairHash, b: MerkleBlock, c: Cursor, depth: nat, e: Encoding, l: Hash, rest: Encoding)
    requires depth < b.Height() && StartsWith(b, c, e) && l != 0
    requires e == Encoding([true] + [false] + rest.bits, [l] + rest.hashes)
    ensures var c1 := Cursor(c.hashIdx + 1, c.flagIdx + 2); StartsWith(b, c1, rest) && Past(c1, rest) == Past(c, e)
  {
    hide RootWalk, MatchWalk, CeilLog2, StartsWith;
    PlainLeft(H, b, c, depth, e, l, rest);
  }

  lemma ForgedRight(H: PairHash, b: MerkleBlock, c: Cursor, depth: nat, e: Encoding, l: Hash, rest: Encoding,
                    r: Hash, s: Hash)
    requires depth < b.Height() && StartsWith(b, c, e) && l != 0 && r != 0 && l != r
    requires e == Encoding([true] + [false] + rest.bits, [l] + rest.hashes)
    requires Deceived(H, b, Cursor(c.hashIdx + 1, c.flagIdx + 2), depth + 1, rest, r, s)
    ensures Deceived(H, b, c, depth, e, H(l, r), s)
  {
    hide RootWalk, MatchWalk, CeilLog2, StartsWith;
    PlainLeft(H, b, c, depth, e, l, rest);
  }

  // What a forged encoding is made of at its top, and the true hash there.
  lemma ForgedNode(H: PairHash, k: nat, L: seq<Hash>, j: nat, s: Hash)
    requires 0 < |L| <= Pow2(k) && 0 < j < k && Gap(k, |L|, j)
    ensures |Forged(H, k, L, j, s).bits| > 0 && |Forged(H, k, L, j, s).hashes| > 0
    ensures k == j + 1 ==>
              && |L| <= Pow2(j) && TreeRoot(H, k, L) == H(TreeRoot(H, j, L), TreeRoot(H, j, L))
              && Forged(H, k, L, j, s) == Encoding([true] + [false] + FakeBits(j), [TreeRoot(H, j, L)] + [s, s])
    ensures k > j + 1 && |L| <= Pow2(k - 1) ==>
              && Gap(k - 1, |L|, j) && TreeRoot(H, k, L) == H(TreeRoot(H, k - 1, L), TreeRoot(H, k - 1, L))
              && Forged(H, k, L, j, s)
                 == Encoding([true] + Forged(H, k - 1, L, j, s).bits, Forged(H, k - 1, L, j, s).hashes)
    ensures k > j + 1 && |L| > Pow2(k - 1) ==>
              var A, B := L[..Pow2(k - 1)], L[Pow2(k - 1)..];
              && |B| <= Pow2(k - 1) && Gap(k - 1, |B|, j)
              && TreeRoot(H, k, L) == H(TreeRoot(H, k - 1, A), TreeRoot(H, k - 1, B))
              && Forged(H, k, L, j, s)
                 == Encoding([true] + [false] + Forged(H, k - 1, B, j, s).bits,
                             [TreeRoot(H, k - 1, A)] + Forged(H, k - 1, B, j, s).hashes)
  {
    if k > j + 1 {
      ForgedNode(H, k - 1, if |L| > Pow2(k - 1) then L[Pow2(k - 1)..] else L, j, s);
    }
  }

  // A node whose left child takes up all that is left of the hashes.
  lemma LeftOnly(H: PairHash, b: MerkleBlock, c: Cursor, depth: nat, e: Encoding, rest: Encoding, l: Hash, s: Hash)
    requires b.Valid() && depth < b.Height() && StartsWith(b, c, e) && e == Encoding([true] + rest.bits, rest.hashes)
    requires |e.hashes| > 0 && Past(c, e).hashIdx == |b.hashes| && l != 0
    ensures var c0 := Cursor(c.hashIdx, c.flagIdx + 1);
            && StartsWith(b, c0, rest) && Past(c0, rest) == Past(c, e)
            && (Deceived(H, b, c0, depth + 1, rest, l, s) ==> Deceived(H, b, c, depth, e, H(l, l), s))
  {
    StartsSplit(b, c, e, rest, Encoding([], []));
    assert b.Flag(c.flagIdx + 0) == e.bits[0];
    hide RootWalk, MatchWalk, CeilLog2, StartsWith, Pow2;
    var c0, x, c1, r, c2, m1, d1, m2, d2 := Descend(H, b, c, depth);
    if Deceived(H, b, c0, depth + 1, rest, l, s) {
      NothingLeft(H, b, c1, depth + 1);
      NothingLeft(H, b, d1, depth + 1);
      assert m1 + [] == m1;
    }
  }

  lemma OrdinaryChildren(H: PairHash, k: nat, L: seq<Hash>)
    requires 0 < |L| <= Pow2(k) && k > 0 && Ordinary(H, k, L)
    ensures |L| <= Pow2(k - 1) ==> Ordinary(H, k - 1, L) && TreeRoot(H, k - 1, L) != 0
    ensures |L| > Pow2(k - 1) ==>
              var A, B := L[..Pow2(k - 1)], L[Pow2(k - 1)..];
              && Ordinary(H, k - 1, A) && TreeRoot(H, k - 1, A) != 0
              && Ordinary(H, k - 1, B) && TreeRoot(H, k - 1, B) != 0
              && TreeRoot(H, k - 1, A) != TreeRoot(H, k - 1, B)
  {
    var m := LeftCount(k, |L|);
    if |L| <= Pow2(k - 1) {
      assert L[..m] == L;
    }
  }

  lemma {:induction false} ForgedHashes(H: PairHash, k: nat, L: seq<Hash>, j: nat, s: Hash)
    requires 0 < |L| <= Pow2(k) && 0 < j < k && Gap(k, |L|, j) && Ordinary(H, k, L) && s != 0
    ensures 0 !in Forged(H, k, L, j, s).hashes && 0 < |Forged(H, k, L, j, s).hashes| <= k + 2
  {
    hide Forged, Ordinary, Gap, TreeRoot, Pow2, FakeBits;
    OrdinaryChildren(H, k, L);
    ForgedNode(H, k, L, j, s);
    if k > j + 1 {
      ForgedHashes(H, k - 1, if |L| > Pow2(k - 1) then L[Pow2(k - 1)..] else L, j, s);
    }
  }

  function Forgery(H: PairHash, T: seq<Hash>, j: nat, s: Hash): MerkleBlock
    requires 0 < |T| <= Pow2(CeilLog2(|T|)) && 0 < j < CeilLog2(|T|) && Gap(CeilLog2(|T|), |T|, j)
  {
    var e := Forged(H, CeilLog2(|T|), T, j, s);
    MerkleBlock(|T|, e.hashes, Packed(e.bits))
  }

  // The condition of Soundness is needed. When the guard is hit in a right subtree, the parent takes
  // its zero for a missing child and hashes the left child with itself; nothing looks at the hash
  // index afterwards. So whenever some row above the leaves but below the root has an odd length, a
  // block can have the true root and yet report any hash as matched.
  lemma GuardForgotten(H: PairHash, T: seq<Hash>, j: nat, stranger: Hash) returns (b: MerkleBlock)
    requires 0 < |T| < 0x8000_0000 && 0 < j < CeilLog2(|T|) && RowLength(|T|, j) % 2 == 1
    requires |T| <= Pow2(CeilLog2(|T|)) && Ordinary(H, CeilLog2(|T|), T) && stranger != 0
    ensures b.Valid() && |T| == b.totalTx && 0 !in b.hashes && DecodedRoot(H, b) == RowRoot(H, T)
    ensures !GuardNotHit(H, b) && DecodedMatches(b) == [stranger, stranger]
  {
    hide RootWalk, MatchWalk, Ordinary, CeilLog2, StartsWith, Pow2, Forged, Gap, TreeRoot, Packed, RowLength, RowRoot;
    var k := CeilLog2(|T|);
    GapIsOddRow(k, |T|, j);
    b := Forgery(H, T, j, stranger);
    var e := Forged(H, k, T, j, stranger);
    ForgedHashes(H, k, T, j, stranger);
    HeightIsSmall(|T|);
    PackedStarts(b, e);
    TreeRootIsRowRoot(H, T);
    DecodeForged(H, b, START, 0, T, j, stranger);
  }

  ghost predicate NoGap(k: nat, n: nat) {
    forall j :: 0 < j < k ==> !Gap(k, n, j)
  }

  lemma {:induction false} FullHasNoGap(k: nat, j: nat)
    requires j < k
    ensures !Gap(k, Pow2(k), j)
  {
    assert Pow2(k) == 2 * Pow2(k - 1) && Pow2(k - 1) > 0;
    if k > j + 1 {
      FullHasNoGap(k - 1, j);
    }
  }

  // Without a gap above the leaves a node above them has both children, without gaps either.
  lemma ChildrenHaveNoGap(k: nat, n: nat)
    requires k > 0 && 0 < n <= Pow2(k) && NoGap(k, n)
    ensures k > 1 ==> n > Pow2(k - 1)
    ensures n > Pow2(k - 1) ==> NoGap(k - 1, n - Pow2(k - 1))
    ensures NoGap(k - 1, Pow2(k - 1))
    ensures k == 1 ==> NoGap(0, n)
  {
    var low, p := k - 1, Pow2(k - 1);
    forall j | 0 < j < low ensures !Gap(low, p, j) {
      FullHasNoGap(low, j);
    }
    if k > 1 {
      assert !Gap(k, n, low);
      var m := n - p;
      forall j | 0 < j < low ensures !Gap(low, m, j) {
        assert !Gap(k, n, j);
      }
    }
  }

  // If the hash computed for a node without gaps is the true one, the guard was not hit below it.
  lemma {:induction false} TrueIsUnparked(H: PairHash, b: MerkleBlock, c: Cursor, depth: nat, L: seq<Hash>)
    requires b.Valid() && depth <= b.Height() && Injective(H) && 0 !in b.hashes && c.hashIdx < SIZE_MAX
    requires 0 < |L| <= Pow2(b.Height() - depth) && Ordinary(H, b.Height() - depth, L) && NoGap(b.Height() - depth, |L|)
    requires RootWalk(H, b, c, depth).0 == TreeRoot(H, b.Height() - depth, L)
    ensures RootWalk(H, b, c, depth).1.hashIdx < SIZE_MAX
    decreases b.Height() - depth
  {
    hide RootWalk, MatchWalk, CeilLog2, Ordinary, NoGap, TreeRoot, Injective, Pow2;
    var k := b.Height() - depth;
    if b.More(c) && b.Flag(c.flagIdx) && depth != b.Height() {
      var c0, l, c1, r, c2, m1, d1, m2, d2 := Descend(H, b, c, depth);
      var A, B := TrueChildren(H, k, L, l, r);
      TrueIsUnparked(H, b, c0, depth + 1, A);
      if r != 0 {
        TrueIsUnparked(H, b, c1, depth + 1, B);
      } else {
        Stay(H, b, c1, depth + 1);
      }
    } else {
      Stay(H, b, c, depth);
    }
  }

  // What a true hash says about the hashes it was computed from.
  lemma TrueChildren(H: PairHash, k: nat, L: seq<Hash>, l: Hash, r: Hash) returns (A: seq<Hash>, B: seq<Hash>)
    requires k > 0 && 0 < |L| <= Pow2(k) && Injective(H) && Ordinary(H, k, L) && NoGap(k, |L|)
    requires TreeRoot(H, k, L) == if l != 0 && l != r then H(l, if r == 0 then l else r) else 0
    ensures l != 0 && l != r
    ensures 0 < |A| <= Pow2(k - 1) && Ordinary(H, k - 1, A) && NoGap(k - 1, |A|) && l == TreeRoot(H, k - 1, A)
    ensures r != 0 ==>
              && 0 < |B| <= Pow2(k - 1) && Ordinary(H, k - 1, B) && NoGap(k - 1, |B|) && r == TreeRoot(H, k - 1, B)
    ensures r == 0 ==> k == 1
  {
    hide NoGap, Pow2, Ordinary, TreeRoot, Injective;
    ChildrenHaveNoGap(k, |L|);
    OrdinaryChildren(H, k, L);
    TreeParts(H, k, L);
    var p, m := Pow2(k - 1), if r == 0 then l else r;
    if |L| <= p {
      A, B := L, [];
      SameHash(H, TreeRoot(H, k - 1, L), TreeRoot(H, k - 1, L), l, m);
    } else {
      A, B := L[..p], L[p..];
      SameHash(H, TreeRoot(H, k - 1, A), TreeRoot(H, k - 1, B), l, m);
    }
  }

  lemma TreeParts(H: PairHash, k: nat, L: seq<Hash>)
    requires k > 0 && 0 < |L| <= Pow2(k)
    ensures |L| <= Pow2(k - 1) ==> TreeRoot(H, k, L) == H(TreeRoot(H, k - 1, L), TreeRoot(H, k - 1, L))
    ensures |L| > Pow2(k - 1) ==>
              && |L| - Pow2(k - 1) <= Pow2(k - 1)
              && TreeRoot(H, k, L)
                 == H(TreeRoot(H, k - 1, L[..Pow2(k - 1)]), TreeRoot(H, k - 1, L[Pow2(k - 1)..]))
  {
  }

  // A well-formed block for as many transactions, whose root is the true one.
  ghost predicate Passes(H: PairHash, b: MerkleBlock, T: seq<Hash>)
    requires T != []
  {
    b.Valid() && b.totalTx == |T| && 0 !in b.hashes && DecodedRoot(H, b) == RowRoot(H, T)
  }

  // For a list of transactions whose rows above the leaves and below the root are all even, and for
  // no other, every block with the true root reports only what is in the list, whether or not the
  // guard is hit.
  lemma SoundnessIff(H: PairHash, T: seq<Hash>)
    requires Injective(H) && 0 < |T| < 0x8000_0000
    requires |T| <= Pow2(CeilLog2(|T|)) && Ordinary(H, CeilLog2(|T|), T)
    ensures (forall j :: 0 < j < CeilLog2(|T|) ==> RowLength(|T|, j) % 2 == 0)
            <==> (forall b, x :: Passes(H, b, T) && x in DecodedMatches(b) ==> x in T)
  {
    hide RootWalk, MatchWalk, CeilLog2, Ordinary, TreeRoot, Injective, Pow2, RowLength, Gap, RowRoot;
    if forall j :: 0 < j < CeilLog2(|T|) ==> RowLength(|T|, j) % 2 == 0 {
      forall b, x | Passes(H, b, T) && x in DecodedMatches(b) ensures x in T {
        EvenRowsSound(H, b, T);
      }
    } else {
      var j :| 0 < j < CeilLog2(|T|) && RowLength(|T|, j) % 2 != 0;
      var x := Stranger(T);
      var b := GuardForgotten(H, T, j, x);
      assert Passes(H, b, T) && x in DecodedMatches(b) && x !in T;
    }
  }

  lemma EvenRowsSound(H: PairHash, b: MerkleBlock, T: seq<Hash>)
    requires Injective(H) && b.Valid() && 0 !in b.hashes && T != [] && |T| == b.totalTx
    requires |T| <= Pow2(CeilLog2(|T|)) && Ordinary(H, CeilLog2(|T|), T)
    requires forall j :: 0 < j < CeilLog2(|T|) ==> RowLength(|T|, j) % 2 == 0
    requires DecodedRoot(H, b) == RowRoot(H, T)
    ensures GuardNotHit(H, b) && forall x :: x in DecodedMatches(b) ==> x in T
  {
    hide RootWalk, MatchWalk, CeilLog2, Ordinary, TreeRoot, Injective, Pow2, RowLength, Gap, RowRoot;
    var k := CeilLog2(|T|);
    forall j | 0 < j < k ensures !Gap(k, |T|, j) {
      GapIsOddRow(k, |T|, j);
    }
    TreeRootIsRowRoot(H, T);
    TrueIsUnparked(H, b, START, 0, T);
    Soundness(H, b, T);
  }

  // There is always a hash that is not in the list.
  lemma {:induction false} Stranger(T: seq<Hash>) returns (x: Hash)
    ensures x != 0 && (forall y :: y in T ==> y < x) && x !in T
  {
    if T == [] {
      x := 1;
    } else {
      x := Stranger(T[..|T| - 1]);
      assert T == T[..|T| - 1] + [T[|T| - 1]];
      x := if x > T[|T| - 1] then x else T[|T| - 1] + 1;
    }
  }

  lemma {:induction false} HeightIsSmall(n: nat)
    ensures CeilLog2(n) <= n
  {
    if n > 1 {
      HeightIsSmall((n + 1) / 2);
    }
  }

  lemma PackedStarts(b: MerkleBlock, e: Encoding)
    requires b.hashes == e.hashes && b.flags == Packed(e.bits)
    ensures StartsWith(b, START, e)
  {
    hide Packed, Pow2, CeilLog2;
    assert b.hashes[..|e.hashes|] == e.hashes;
    forall i | 0 <= i < |e.bits| ensures b.Flag(i) == e.bits[i] {
      PackedFlag(b.totalTx, b.hashes, e.bits, i);
    }
  }

  // ------------------------------------------------------------- the recursions

  // `flags[i/8] & (1 << (i % 8))`
  method TestFlag(b: MerkleBlock, i: nat) returns (flag: bool)
    requires i / 8 < |b.flags|
    ensures flag == b.Flag(i)
  {
    var x, k := b.flags[i / 8], i % 8;
    AndBit(x, k);
    flag := And(x, Pow2(k)) != 0;
  }

  lemma AndBit(x: nat, k: nat)
    ensures And(x, Pow2(k)) == (if x / Pow2(k) % 2 == 1 then Pow2(k) else 0)
  {
    hide And, Pow2;
    Powers();
    var p := Pow2(k);
    var h, l := x / p, x % p;
    assert x == h * p + l;
    AndSplit(k, p, x, h, l, p, 1, 0);
    AndMask(1, 2, h, h / 2, h % 2);
    AndZero(l);
  }

  // The walks' shared state: the indices the recursions advance through pointers.
  class TreeReader {
    const block: MerkleBlock
    const height: nat
    const H: PairHash
    var hashIdx: nat
    var flagIdx: nat
    var idx: nat

    ghost predicate Valid()
      reads this
    {
      block.Valid() && height == block.Height() && hashIdx <= SIZE_MAX
    }

    function Position(): Cursor
      reads this
    {
      Cursor(hashIdx, flagIdx)
    }

    constructor (block: MerkleBlock, H: PairHash)
      requires block.Valid()
      ensures Valid() && this.block == block && this.H == H && Position() == START && idx == 0
    {
      this.block := block;
      this.H := H;
      hashIdx, flagIdx, idx := 0, 0, 0;
      var h := ComputeCeilLog2(block.totalTx);
      height := h;
    }

    // Walks the tree to compute the root.
    method Root(depth: nat) returns (md: Hash)
      requires Valid() && depth <= height
      modifies this
      ensures Valid() && idx == old(idx)
      ensures (md, Position()) == RootWalk(H, block, old(Position()), depth)
      decreases height - depth
    {
      hide RootWalk, MatchWalk, CeilLog2, Pow2;
      ghost var c := Position();
      if flagIdx / 8 < |block.flags| && hashIdx < |block.hashes| {
        var flag := TestFlag(block, flagIdx);
        flagIdx := flagIdx + 1;
        if flag && depth != height {
          ghost var c0, l, c1, r, c2, m1, d1, m2, d2 := Descend(H, block, c, depth);
          var left := Root(depth + 1);
          var right := Root(depth + 1);
          if left != 0 && left != right {
            if right == 0 { right := left; }
            md := H(left, right);
          } else {
            md := 0;
            hashIdx := SIZE_MAX;
          }
        } else {
          Stay(H, block, c, depth);
          md := block.hashes[hashIdx];
          hashIdx := hashIdx + 1;
        }
      } else {
        Stay(H, block, c, depth);
        md := 0;
      }
    }

    // Walks the tree to list matched hashes, writing at most `capacity` of them when an array is
    // given.
    method TxHashes(out: array?<Hash>, capacity: nat, depth: nat)
      requires Valid() && depth <= height && idx <= capacity
      requires out != null ==> capacity <= out.Length
      modifies this, if out == null then {} else {out}
      ensures Valid() && Position() == MatchWalk(block, old(Position()), depth).1
      ensures idx == Capped(capacity, old(idx), MatchWalk(block, old(Position()), depth).0)
      ensures out != null ==>
        out[..] == Written(old(out[..]), capacity, old(idx), MatchWalk(block, old(Position()), depth).0)
      decreases height - depth
    {
      hide RootWalk, MatchWalk, CeilLog2, Pow2, Written;
      ghost var c := Position();
      if flagIdx / 8 < |block.flags| && hashIdx < |block.hashes| {
        var flag := TestFlag(block, flagIdx);
        flagIdx := flagIdx + 1;
        if !flag || depth == height {
          Stay(H, block, c, depth);
          if out != null { WrittenOnce(out[..], capacity, idx, block.hashes[hashIdx]); }
          if flag && idx < capacity {
            if out != null { out[idx] := block.hashes[hashIdx]; }
            idx := idx + 1;
          }
          hashIdx := hashIdx + 1;
        } else {
          ghost var c0, l, c1, r, c2, m1, d1, m2, d2 := Descend(H, block, c, depth);
          ghost var i := idx;
          ghost var s := if out == null then [] else out[..];
          TxHashes(out, capacity, depth + 1);
          TxHashes(out, capacity, depth + 1);
          if out != null { WrittenTwice(s, capacity, i, m1, m2); }
        }
      } else {
        Stay(H, block, c, depth);
        if out != null { WrittenOnce(out[..], capacity, idx, 0); }
      }
    }
  }

  // How far the index moves when the matches m are reported with this capacity.
  function Capped(capacity: nat, idx: nat, m: seq<Hash>): (i: nat)
    requires idx <= capacity
    ensures idx <= i <= capacity
  {
    if idx + |m| <= capacity then idx + |m| else capacity
  }

  // The output array after writing the matches m from idx on, cut off at the capacity.
  function Written(out: seq<Hash>, capacity: nat, idx: nat, m: seq<Hash>): (s: seq<Hash>)
    requires idx <= capacity <= |out|
    ensures |s| == |out|
  {
    var i := Capped(capacity, idx, m);
    out[..idx] + m[..i - idx] + out[i..]
  }

  lemma WrittenOnce(out: seq<Hash>, capacity: nat, idx: nat, x: Hash)
    requires idx <= capacity <= |out|
    ensures Written(out, capacity, idx, []) == out
    ensures Written(out, capacity, idx, [x]) == if idx < capacity then out[idx := x] else out
  {
  }

  lemma WrittenTwice(out: seq<Hash>, capacity: nat, idx: nat, m1: seq<Hash>, m2: seq<Hash>)
    requires idx <= capacity <= |out|
    ensures Capped(capacity, Capped(capacity, idx, m1), m2) == Capped(capacity, idx, m1 + m2)
    ensures Written(Written(out, capacity, idx, m1), capacity, Capped(capacity, idx, m1), m2)
         == Written(out, capacity, idx, m1 + m2)
  {
  }

  // Lists the matched hashes of a block: how many there are if no array is given, else as many as
  // fit.
  method MatchedTxHashes(block: MerkleBlock, H: PairHash, out: array?<Hash>, count: nat) returns (n: nat)
    requires block.Valid() && |block.hashes| <= SIZE_MAX
    requires out != null ==> count <= out.Length
    modifies if out == null then {} else {out}
    ensures out == null ==> n == |DecodedMatches(block)|
    ensures out != null ==>
      n == Capped(count, 0, DecodedMatches(block)) && out[..] == Written(old(out[..]), count, 0, DecodedMatches(block))
  {
    var reader := new TreeReader(block, H);
    MatchCount(block, START, 0);
    reader.TxHashes(out, if out == null then SIZE_MAX else count, 0);
    n := reader.idx;
  }

  // No walk reports more hashes than there are.
  lemma {:induction false} MatchCount(b: MerkleBlock, c: Cursor, depth: nat)
    requires depth <= b.Height()
    ensures var (m, d) := MatchWalk(b, c, depth);
      d.hashIdx >= c.hashIdx && |m| <= d.hashIdx - c.hashIdx
      && d.hashIdx <= (if c.hashIdx <= |b.hashes| then |b.hashes| else c.hashIdx)
    decreases b.Height() - depth
  {
    if b.More(c) && b.Flag(c.flagIdx) && depth != b.Height() {
      var c0 := c.(flagIdx := c.flagIdx + 1);
      MatchCount(b, c0, depth + 1);
      MatchCount(b, MatchWalk(b, c0, depth + 1).1, depth + 1);
    }
  }
}
