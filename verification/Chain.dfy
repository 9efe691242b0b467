// The tree of known block headers, and where two of its chains meet.
module Chain {
  import opened Common

  type BlockHash = nat
  type TxHash = nat

  const UINT256_ZERO: BlockHash := 0
  const BLOCK_UNKNOWN_HEIGHT: nat := 0x7fff_ffff
  const BLOCK_DIFFICULTY_INTERVAL: nat := 2016

  datatype Block = Block(blockHash: BlockHash, prevBlock: BlockHash, timestamp: nat, totalTx: nat, height: nat,
                         txHashes: seq<TxHash>)

  // The difficulty changes at every multiple of the interval.
  predicate IsTransition(b: Block) {
    b.height % BLOCK_DIFFICULTY_INTERVAL == 0
  }

  // What a block's hash commits to: its predecessor and its transactions. Its height follows.
  datatype Facts = Facts(ghost prev: BlockHash -> BlockHash, ghost height: BlockHash -> nat,
                         ghost txs: BlockHash -> set<TxHash>)

  // The block agrees with its hash.
  ghost predicate Genuine(f: Facts, b: Block) {
    && b.blockHash != UINT256_ZERO && b.prevBlock == f.prev(b.blockHash)
    && f.height(b.blockHash) == f.height(b.prevBlock) + 1 && f.height(b.blockHash) < BLOCK_UNKNOWN_HEIGHT
    && forall t :: t in b.txHashes ==> t in f.txs(b.blockHash)
  }

  // A stored block has its true height; a checkpoint is stored without a predecessor.
  ghost predicate Rightly(f: Facts, h: BlockHash, b: Block) {
    && b.blockHash == h && h != UINT256_ZERO && b.height == f.height(h) && b.height < BLOCK_UNKNOWN_HEIGHT
    && (b.prevBlock == UINT256_ZERO || Genuine(f, b)) && forall t :: t in b.txHashes ==> t in f.txs(h)
  }

  ghost predicate Known(f: Facts, blocks: map<BlockHash, Block>) {
    forall h :: h in blocks ==> Rightly(f, h, blocks[h])
  }

  // Following stored predecessors from x leads to a.
  ghost predicate Reaches(f: Facts, blocks: map<BlockHash, Block>, x: BlockHash, a: BlockHash)
    requires Known(f, blocks)
    decreases f.height(x)
  {
    x in blocks && (x == a || (blocks[x].prevBlock in blocks && Reaches(f, blocks, blocks[x].prevBlock, a)))
  }

  lemma ReachesItself(f: Facts, blocks: map<BlockHash, Block>, x: BlockHash)
    requires Known(f, blocks) && x in blocks
    ensures Reaches(f, blocks, x, x)
  {
  }

  lemma {:induction false} ReachesDown(f: Facts, blocks: map<BlockHash, Block>, x: BlockHash, a: BlockHash)
    requires Known(f, blocks) && Reaches(f, blocks, x, a)
    ensures a in blocks && f.height(a) <= f.height(x)
    ensures f.height(a) == f.height(x) ==> x == a
    decreases f.height(x)
  {
    if x != a {
      ReachesDown(f, blocks, blocks[x].prevBlock, a);
    }
  }

  lemma {:induction false} ReachesOn(f: Facts, blocks: map<BlockHash, Block>, x: BlockHash, y: BlockHash, a: BlockHash)
    requires Known(f, blocks) && Reaches(f, blocks, x, y) && Reaches(f, blocks, y, a)
    ensures Reaches(f, blocks, x, a)
    decreases f.height(x)
  {
    if x != y {
      ReachesOn(f, blocks, blocks[x].prevBlock, y, a);
    }
  }

  // One chain: of two blocks it passes, the higher reaches the lower.
  lemma {:induction false} ReachesBetween(f: Facts, blocks: map<BlockHash, Block>, x: BlockHash, y: BlockHash,
                                           a: BlockHash)
    requires Known(f, blocks) && Reaches(f, blocks, x, y) && Reaches(f, blocks, x, a) && f.height(a) <= f.height(y)
    ensures Reaches(f, blocks, y, a)
    decreases f.height(x)
  {
    if x != y {
      if x == a {
        ReachesDown(f, blocks, x, y);
      } else {
        ReachesBetween(f, blocks, blocks[x].prevBlock, y, a);
      }
    }
  }

  // Storing a genuine block, new or again, only adds to what is reachable.
  lemma {:induction false} ReachesStill(f: Facts, blocks: map<BlockHash, Block>, b: Block, x: BlockHash, a: BlockHash)
    requires Known(f, blocks) && Genuine(f, b) && b.height == f.height(b.blockHash)
    requires Reaches(f, blocks, x, a)
    ensures Known(f, blocks[b.blockHash := b]) && Reaches(f, blocks[b.blockHash := b], x, a)
    decreases f.height(x)
  {
    if x != a {
      ReachesStill(f, blocks, b, blocks[x].prevBlock, a);
    }
  }

  // The join of two blocks: a block both reach, no lower than any other both reach.
  ghost predicate IsJoin(f: Facts, blocks: map<BlockHash, Block>, x: BlockHash, y: BlockHash, j: BlockHash)
    requires Known(f, blocks)
  {
    && Reaches(f, blocks, x, j) && Reaches(f, blocks, y, j)
    && forall c :: Reaches(f, blocks, x, c) && Reaches(f, blocks, y, c) ==> f.height(c) <= f.height(j)
  }

  ghost predicate Shared(f: Facts, blocks: map<BlockHash, Block>, x: BlockHash, y: BlockHash, c: BlockHash)
    requires Known(f, blocks)
  {
    Reaches(f, blocks, x, c) && Reaches(f, blocks, y, c)
  }

  // No stored block is on both chains.
  ghost predicate Apart(f: Facts, blocks: map<BlockHash, Block>, x: BlockHash, y: BlockHash)
    requires Known(f, blocks)
  {
    forall c :: !Shared(f, blocks, x, y, c)
  }

  // Moving the higher of two pointers down loses no common ancestor unless they have met.
  lemma StepDown(f: Facts, blocks: map<BlockHash, Block>, x: BlockHash, y: BlockHash, c: BlockHash)
    requires Known(f, blocks) && Shared(f, blocks, x, y, c)
    requires f.height(x) >= f.height(y) && x != y
    ensures x in blocks && blocks[x].prevBlock in blocks && Shared(f, blocks, blocks[x].prevBlock, y, c)
  {
    ReachesDown(f, blocks, y, c);
  }

  function Get(blocks: map<BlockHash, Block>, h: BlockHash): Option<BlockHash> {
    if h in blocks then Some(h) else None
  }

  ghost function HeightPlus(f: Facts, b: Option<BlockHash>): nat {
    if b.Some? then f.height(b.value) + 1 else 0
  }

  // Walks both chains back, the new one first, until they meet or one of them ends.
  method FindJoin(blocks: map<BlockHash, Block>, block: BlockHash, last: BlockHash, ghost f: Facts)
    returns (join: Option<BlockHash>)
    requires Known(f, blocks)
    requires block in blocks && last in blocks && f.height(block) > f.height(last)
    ensures join.Some? ==> IsJoin(f, blocks, block, last, join.value)
    ensures join.None? <==> Apart(f, blocks, block, last)
  {
    hide Reaches, Shared;
    ReachesItself(f, blocks, block);
    ReachesItself(f, blocks, last);
    var b, b2 := Some(block), Some(last);
    while b.Some? && b2.Some? && b.value != b2.value
      invariant b.Some? ==> b.value in blocks
      invariant b2.Some? ==> b2.value in blocks
      invariant b.Some? && b2.Some? ==> f.height(b.value) >= f.height(b2.value)
      invariant forall c :: Shared(f, blocks, block, last, c) ==>
                              b.Some? && b2.Some? && Shared(f, blocks, b.value, b2.value, c)
      invariant b.Some? ==> Reaches(f, blocks, block, b.value)
      invariant b2.Some? ==> Reaches(f, blocks, last, b2.value)
      decreases HeightPlus(f, b)
    {
      var x, y := b.value, b2.value;
      forall c | Shared(f, blocks, x, y, c)
        ensures blocks[x].prevBlock in blocks && Shared(f, blocks, blocks[x].prevBlock, y, c)
      {
        StepDown(f, blocks, x, y, c);
      }
      b := Get(blocks, blocks[x].prevBlock);
      if b.Some? {
        ReachesOneFurther(f, blocks, block, x);
        if blocks[b.value].height < blocks[y].height {
          forall c | Shared(f, blocks, b.value, y, c)
            ensures blocks[y].prevBlock in blocks && Shared(f, blocks, b.value, blocks[y].prevBlock, c)
          {
            StepDownOther(f, blocks, b.value, y, c);
          }
          b2 := Get(blocks, blocks[y].prevBlock);
          if b2.Some? {
            ReachesOneFurther(f, blocks, last, y);
          }
        }
      }
    }
    if b.Some? && b2.Some? {
      join := b;
      MetAtJoin(f, blocks, block, last, b.value);
      SharedIs(f, blocks, block, last, b.value);
    } else {
      join := None;
    }
  }

  lemma SharedIs(f: Facts, blocks: map<BlockHash, Block>, x: BlockHash, y: BlockHash, c: BlockHash)
    requires Known(f, blocks) && Reaches(f, blocks, x, c) && Reaches(f, blocks, y, c)
    ensures Shared(f, blocks, x, y, c)
  {
  }

  lemma StepDownOther(f: Facts, blocks: map<BlockHash, Block>, x: BlockHash, y: BlockHash, c: BlockHash)
    requires Known(f, blocks) && Shared(f, blocks, x, y, c) && f.height(x) < f.height(y)
    ensures y in blocks && blocks[y].prevBlock in blocks && Shared(f, blocks, x, blocks[y].prevBlock, c)
  {
    StepDown(f, blocks, y, x, c);
  }

  lemma MetAtJoin(f: Facts, blocks: map<BlockHash, Block>, x: BlockHash, y: BlockHash, j: BlockHash)
    requires Known(f, blocks) && Reaches(f, blocks, x, j) && Reaches(f, blocks, y, j)
    requires forall c :: Shared(f, blocks, x, y, c) ==> Shared(f, blocks, j, j, c)
    ensures IsJoin(f, blocks, x, y, j)
  {
    forall c | Reaches(f, blocks, x, c) && Reaches(f, blocks, y, c) ensures f.height(c) <= f.height(j) {
      assert Shared(f, blocks, x, y, c);
      ReachesDown(f, blocks, j, c);
    }
  }

  lemma ReachesOneFurther(f: Facts, blocks: map<BlockHash, Block>, x: BlockHash, y: BlockHash)
    requires Known(f, blocks) && Reaches(f, blocks, x, y) && y in blocks && blocks[y].prevBlock in blocks
    ensures Reaches(f, blocks, x, blocks[y].prevBlock)
  {
    assert Reaches(f, blocks, y, blocks[y].prevBlock);
    ReachesOn(f, blocks, x, y, blocks[y].prevBlock);
  }

  // ----- ancestry -----

  // The chain that x commits to passes a, whether or not its blocks are stored.
  ghost predicate Descends(f: Facts, x: BlockHash, a: BlockHash)
    decreases f.height(x)
  {
    x == a || (f.height(x) == f.height(f.prev(x)) + 1 && Descends(f, f.prev(x), a))
  }

  lemma {:induction false} DescendsDown(f: Facts, x: BlockHash, a: BlockHash)
    requires Descends(f, x, a)
    ensures f.height(a) <= f.height(x)
    ensures f.height(a) == f.height(x) ==> x == a
    decreases f.height(x)
  {
    if x != a {
      DescendsDown(f, f.prev(x), a);
    }
  }

  lemma {:induction false} DescendsOn(f: Facts, x: BlockHash, y: BlockHash, a: BlockHash)
    requires Descends(f, x, y) && Descends(f, y, a)
    ensures Descends(f, x, a)
    decreases f.height(x)
  {
    if x != y {
      DescendsOn(f, f.prev(x), y, a);
    }
  }

  lemma {:induction false} DescendsBetween(f: Facts, x: BlockHash, y: BlockHash, a: BlockHash)
    requires Descends(f, x, y) && Descends(f, x, a) && f.height(a) <= f.height(y)
    ensures Descends(f, y, a)
    decreases f.height(x)
  {
    if x != y {
      if x == a {
        DescendsDown(f, x, y);
      } else {
        DescendsBetween(f, f.prev(x), y, a);
      }
    }
  }

  // Stored links are true.
  lemma {:induction false} ReachesDescends(f: Facts, blocks: map<BlockHash, Block>, x: BlockHash, a: BlockHash)
    requires Known(f, blocks) && Reaches(f, blocks, x, a)
    ensures Descends(f, x, a)
    decreases f.height(x)
  {
    if x != a {
      ReachesDescends(f, blocks, blocks[x].prevBlock, a);
    }
  }

  // An ancestor no lower than a stored one is stored as well, and reached through stored links.
  lemma {:induction false} ReachesAbove(f: Facts, blocks: map<BlockHash, Block>, x: BlockHash, j: BlockHash,
                                        c: BlockHash)
    requires Known(f, blocks) && Reaches(f, blocks, x, j) && Descends(f, x, c) && f.height(j) <= f.height(c)
    ensures Reaches(f, blocks, x, c)
    decreases f.height(x)
  {
    if x != c {
      DescendsDown(f, x, c);
      ReachesAbove(f, blocks, blocks[x].prevBlock, j, c);
    }
  }

  // The join found through stored blocks is the highest common ancestor there is at all.
  lemma JoinIsHighest(f: Facts, blocks: map<BlockHash, Block>, x: BlockHash, y: BlockHash, j: BlockHash)
    requires Known(f, blocks) && IsJoin(f, blocks, x, y, j)
    ensures Descends(f, x, j) && Descends(f, y, j)
    ensures forall c :: Descends(f, x, c) && Descends(f, y, c) ==> f.height(c) <= f.height(j)
  {
    ReachesDescends(f, blocks, x, j);
    ReachesDescends(f, blocks, y, j);
    forall c | Descends(f, x, c) && Descends(f, y, c) ensures f.height(c) <= f.height(j) {
      if f.height(c) > f.height(j) {
        ReachesAbove(f, blocks, x, j, c);
        ReachesAbove(f, blocks, y, j, c);
      }
    }
  }

  // ----- block locators -----

  // The stored block n steps back.
  function Ancestor(blocks: map<BlockHash, Block>, h: Option<BlockHash>, n: nat): Option<BlockHash>
    decreases n
  {
    if n == 0 || h.None? || h.value !in blocks then h
    else Ancestor(blocks, Get(blocks, blocks[h.value].prevBlock), n - 1)
  }

  lemma {:induction false} AncestorAdd(blocks: map<BlockHash, Block>, h: Option<BlockHash>, m: nat, n: nat)
    requires h.Some? ==> h.value in blocks
    ensures Ancestor(blocks, Ancestor(blocks, h, m), n) == Ancestor(blocks, h, m + n)
    ensures Ancestor(blocks, h, m).Some? ==> Ancestor(blocks, h, m).value in blocks
    decreases m
  {
    if m > 0 && h.Some? {
      AncestorAdd(blocks, Get(blocks, blocks[h.value].prevBlock), m - 1, n);
    }
  }

  lemma {:induction false} AncestorLower(f: Facts, blocks: map<BlockHash, Block>, h: BlockHash, n: nat)
    requires Known(f, blocks) && h in blocks && Ancestor(blocks, Some(h), n).Some?
    ensures Ancestor(blocks, Some(h), n).value in blocks
    ensures f.height(h) == f.height(Ancestor(blocks, Some(h), n).value) + n
    ensures Reaches(f, blocks, h, Ancestor(blocks, Some(h), n).value)
    decreases n
  {
    if n > 0 {
      AncestorLower(f, blocks, blocks[h].prevBlock, n - 1);
    }
  }

  lemma AncestorNone(blocks: map<BlockHash, Block>, h: BlockHash)
    ensures Ancestor(blocks, Some(h), 0) == Some(h)
  {
  }

  function Doubled(k: nat): nat {
    if k == 0 then 1 else 2 * Doubled(k - 1)
  }

  // How far back the k-th locator lies: one step at a time ten times, then twice as far each time.
  function Offset(k: nat): nat {
    if k < 10 then k else 7 + Doubled(k - 8)
  }

  function StepAfter(k: nat): nat {
    if k < 10 then 1 else Doubled(k - 9)
  }

  method StepBack(blocks: map<BlockHash, Block>, h: Option<BlockHash>, step: nat) returns (block: Option<BlockHash>)
    requires h.Some? ==> h.value in blocks
    ensures block == Ancestor(blocks, h, step) && (block.Some? ==> block.value in blocks)
  {
    block := h;
    var j := 0;
    while block.Some? && j < step
      invariant 0 <= j <= step && (block.Some? ==> block.value in blocks)
      invariant Ancestor(blocks, block, step - j) == Ancestor(blocks, h, step)
    {
      block := Get(blocks, blocks[block.value].prevBlock);
      j := j + 1;
    }
  }

  // Each entry is the stored block that lies at its offset below the last one.
  ghost predicate Located(f: Facts, blocks: map<BlockHash, Block>, last: BlockHash, locators: seq<BlockHash>)
    requires Known(f, blocks)
  {
    forall k :: 0 <= k < |locators| ==>
                  && Ancestor(blocks, Some(last), Offset(k)) == Some(locators[k])
                  && Reaches(f, blocks, last, locators[k])
                  && f.height(locators[k]) == f.height(last) - Offset(k) > 0
  }

  lemma OneMoreLocated(f: Facts, blocks: map<BlockHash, Block>, last: BlockHash, locators: seq<BlockHash>, b: BlockHash)
    requires Known(f, blocks) && last in blocks && Located(f, blocks, last, locators)
    requires Ancestor(blocks, Some(last), Offset(|locators|)) == Some(b) && b in blocks && blocks[b].height > 0
    ensures Located(f, blocks, last, locators + [b])
  {
    hide Ancestor, Offset, Reaches;
    AncestorLower(f, blocks, last, Offset(|locators|));
  }

  // The loop's step: from the block at one offset to the one at the next, if it is stored.
  lemma NextOffset(f: Facts, blocks: map<BlockHash, Block>, last: BlockHash, i: nat, step: nat)
    requires Known(f, blocks) && last in blocks
    requires Ancestor(blocks, Some(last), Offset(i)).Some? && step == (if i == 0 then 1 else StepAfter(i))
    ensures var next := if i + 1 >= 10 then step * 2 else step;
            && next == StepAfter(i + 1) > 0
            && Ancestor(blocks, Ancestor(blocks, Some(last), Offset(i)), next)
               == Ancestor(blocks, Some(last), Offset(i + 1))
    ensures HeightPlus(f, Ancestor(blocks, Some(last), Offset(i + 1)))
            < HeightPlus(f, Ancestor(blocks, Some(last), Offset(i)))
  {
    OffsetStep(i);
    hide Ancestor, Offset, Reaches;
    AncestorAdd(blocks, Some(last), Offset(i), StepAfter(i + 1));
    AncestorLower(f, blocks, last, Offset(i));
    if Ancestor(blocks, Some(last), Offset(i + 1)).Some? {
      AncestorLower(f, blocks, last, Offset(i + 1));
    }
  }

  // The hashes by which a peer can find where two chains part: from the last block back, ever
  // further apart, and the genesis block at the end. Returns how many there are, whatever the room.
  method BlockLocators(blocks: map<BlockHash, Block>, last: BlockHash, genesis: BlockHash, room: nat, ghost f: Facts)
    returns (count: nat, locators: seq<BlockHash>)
    requires Known(f, blocks) && last in blocks
    ensures count > 0 && |locators| == if count <= room then count else room
    ensures Located(f, blocks, last, if count <= room then locators[..count - 1] else locators)
    ensures count <= room ==> locators[count - 1] == genesis
    ensures Ancestor(blocks, Some(last), Offset(count - 1)).Some? ==> f.height(last) == Offset(count - 1)
  {
    AncestorNone(blocks, last);
    hide Reaches, Ancestor, Offset, StepAfter, Located;
    locators := [];
    NoneLocated(f, blocks, last);
    var block, step: nat, i := Some(last), 1, 0;
    while block.Some? && blocks[block.value].height > 0
      invariant block.Some? ==> block.value in blocks
      invariant block == Ancestor(blocks, Some(last), Offset(i)) && step == (if i == 0 then 1 else StepAfter(i))
      invariant |locators| == if i <= room then i else room
      invariant Located(f, blocks, last, locators)
      decreases HeightPlus(f, block)
    {
      if i < room {
        OneMoreLocated(f, blocks, last, locators, block.value);
        locators := locators + [block.value];
      }
      NextOffset(f, blocks, last, i, step);
      i := i + 1;
      if i >= 10 {
        step := step * 2;
      }
      block := StepBack(blocks, block, step);
    }
    if block.Some? {
      AncestorLower(f, blocks, last, Offset(i));
    }
    if i < room {
      locators := locators + [genesis];
      assert locators[..i] == locators[..|locators| - 1];
    }
    count := i + 1;
  }

  lemma NoneLocated(f: Facts, blocks: map<BlockHash, Block>, last: BlockHash)
    requires Known(f, blocks)
    ensures Located(f, blocks, last, []) && Offset(0) == 0
  {
  }

  lemma OffsetStep(i: nat)
    ensures Offset(i + 1) == Offset(i) + StepAfter(i + 1)
    ensures StepAfter(i + 1) == (if i + 1 >= 10 then 2 * StepAfter(i) else 1) && StepAfter(i + 1) > 0
  {
    DoubledPositive(i - 8);
    assert Doubled(2) == 2 * Doubled(1) && Doubled(1) == 2 * Doubled(0);
  }

  lemma {:induction false} DoubledPositive(k: int)
    ensures k >= 0 ==> Doubled(k) > 0
  {
    if k > 0 {
      DoubledPositive(k - 1);
    }
  }
}
