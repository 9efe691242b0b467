// How the peer manager starts: the checkpoints are stored, and the saved blocks are linked up from
// the highest difficulty transition among them.
module PeerStart {
  import opened Common
  import opened Chain
  import opened Pruning

  const WEEK := 7 * 24 * 60 * 60

  datatype Checkpoint = Checkpoint(height: nat, hash: BlockHash, timestamp: nat) {
    // A checkpoint is stored as a block without predecessor or transactions.
    function AsBlock(): Block {
      Block(hash, UINT256_ZERO, timestamp, 0, height, [])
    }

    predicate BeforeWallet(earliestKeyTime: nat) {
      (timestamp + WEEK) % W32 < earliestKeyTime
    }
  }

  // A checkpoint is a block of the true chain, at a difficulty transition.
  ghost predicate TrueCheckpoint(f: Facts, c: Checkpoint) {
    Rightly(f, c.hash, c.AsBlock()) && IsTransition(c.AsBlock())
  }

  // The last checkpoint that is a week older than the wallet, or the first one.
  predicate StartsAt(checkpoints: seq<Checkpoint>, earliestKeyTime: nat, n: nat, k: nat)
    requires n <= |checkpoints|
  {
    && k < n && (k == 0 || checkpoints[k].BeforeWallet(earliestKeyTime))
    && forall j :: k < j < n ==> !checkpoints[j].BeforeWallet(earliestKeyTime)
  }

  ghost predicate FromCheckpoints(checkpoints: seq<Checkpoint>, blocks: map<BlockHash, Block>) {
    forall h :: h in blocks ==> exists c :: c in checkpoints && c.hash == h && blocks[h] == c.AsBlock()
  }

  method StoreCheckpoints(checkpoints: seq<Checkpoint>, earliestKeyTime: nat, ghost f: Facts)
    returns (blocks: map<BlockHash, Block>, last: BlockHash)
    requires |checkpoints| > 0 && forall c :: c in checkpoints ==> TrueCheckpoint(f, c)
    ensures Known(f, blocks) && forall h :: h in blocks ==> blocks[h].prevBlock == UINT256_ZERO && AtTransition(f, h)
    ensures forall c :: c in checkpoints ==> c.hash in blocks
    ensures FromCheckpoints(checkpoints, blocks)
    ensures last in blocks
    ensures exists k: nat :: StartsAt(checkpoints, earliestKeyTime, |checkpoints|, k) && last == checkpoints[k].hash
  {
    blocks, last := map[], UINT256_ZERO;
    var i := 0;
    ghost var start := 0;
    while i < |checkpoints|
      invariant 0 <= i <= |checkpoints|
      invariant Known(f, blocks)
      invariant forall h :: h in blocks ==> blocks[h].prevBlock == UINT256_ZERO && AtTransition(f, h)
      invariant forall k :: 0 <= k < i ==> checkpoints[k].hash in blocks
      invariant FromCheckpoints(checkpoints, blocks)
      invariant i > 0 ==> StartsAt(checkpoints, earliestKeyTime, i, start) && last == checkpoints[start].hash
    {
      var c := checkpoints[i];
      assert TrueCheckpoint(f, c);
      blocks := blocks[c.hash := c.AsBlock()];
      if i == 0 || c.BeforeWallet(earliestKeyTime) {
        last, start := c.hash, i;
      }
      i := i + 1;
    }
  }

  // The checkpoints by height; of two at one height the later counts.
  function ByHeight(checkpoints: seq<Checkpoint>): map<nat, BlockHash> {
    if checkpoints == [] then map[]
    else
      var c := checkpoints[|checkpoints| - 1];
      ByHeight(checkpoints[..|checkpoints| - 1])[c.height := c.hash]
  }

  // ----- saved blocks -----

  // Blocks that wait under the hash of their predecessor.
  ghost predicate Waits(f: Facts, orphans: map<BlockHash, Block>) {
    forall p :: p in orphans ==> orphans[p].prevBlock == p && Rightly(f, orphans[p].blockHash, orphans[p])
  }

  // Every saved block waits, or one with the same predecessor does.
  ghost predicate Collected(f: Facts, saved: seq<Block>, orphans: map<BlockHash, Block>) {
    && Waits(f, orphans)
    && (forall p :: p in orphans ==> orphans[p] in saved)
    && forall b :: b in saved ==> b.prevBlock in orphans
  }

  predicate HighestTransition(saved: seq<Block>, b: Block) {
    && b in saved && IsTransition(b)
    && forall c :: c in saved && IsTransition(c) ==> c.height <= b.height
  }

  method SetAside(saved: seq<Block>, ghost f: Facts) returns (orphans: map<BlockHash, Block>, first: Option<Block>)
    requires forall b :: b in saved ==> Rightly(f, b.blockHash, b)
    ensures Collected(f, saved, orphans)
    ensures first.None? ==> forall b :: b in saved ==> !IsTransition(b)
    ensures first.Some? ==> HighestTransition(saved, first.value)
  {
    orphans, first := map[], None;
    var i := 0;
    while i < |saved|
      invariant 0 <= i <= |saved| && Waits(f, orphans)
      invariant forall p :: p in orphans ==> orphans[p] in saved
      invariant forall k :: 0 <= k < i ==> saved[k].prevBlock in orphans
      invariant first.None? ==> forall k :: 0 <= k < i ==> !IsTransition(saved[k])
      invariant first.Some? ==> first.value in saved && IsTransition(first.value)
                                && forall k :: 0 <= k < i && IsTransition(saved[k]) ==>
                                                 saved[k].height <= first.value.height
    {
      var b := saved[i];
      orphans := orphans[b.prevBlock := b];
      if IsTransition(b) && (first.None? || b.height > first.value.height) {
        first := Some(b);
      }
      i := i + 1;
    }
  }

  // The chain from the first block up to last is stored, and only last may have a waiting
  // successor. Every orphan taken out, other than a sibling of the first block, is on this chain.
  ghost predicate LinkedUp(f: Facts, blocks: map<BlockHash, Block>, was: map<BlockHash, Block>,
                           orphans: map<BlockHash, Block>, first: Block, last: BlockHash)
    requires Known(f, blocks)
  {
    && Reaches(f, blocks, last, first.blockHash)
    && (forall x :: (Reaches(f, blocks, last, x) && Reaches(f, blocks, x, first.blockHash) && x != last) ==>
                      x !in orphans)
    && forall p :: p in was && p !in orphans && p != first.prevBlock ==> Reaches(f, blocks, last, was[p].blockHash)
  }

  // Storing a block changes nothing about chains that start below it.
  lemma {:induction false} ReachesBelow(f: Facts, blocks: map<BlockHash, Block>, b: Block, x: BlockHash, a: BlockHash)
    requires Known(f, blocks) && Rightly(f, b.blockHash, b) && f.height(x) < f.height(b.blockHash)
    ensures Known(f, blocks[b.blockHash := b])
    ensures Reaches(f, blocks[b.blockHash := b], x, a) <==> Reaches(f, blocks, x, a)
    decreases f.height(x)
  {
    if x in blocks && x != a && blocks[x].prevBlock in blocks[b.blockHash := b] && blocks[x].prevBlock != UINT256_ZERO {
      ReachesBelow(f, blocks, b, blocks[x].prevBlock, a);
    }
  }

  lemma LinkFirst(f: Facts, blocks: map<BlockHash, Block>, was: map<BlockHash, Block>, b: Block)
    requires Known(f, blocks) && Rightly(f, b.blockHash, b)
    ensures Known(f, blocks[b.blockHash := b])
    ensures LinkedUp(f, blocks[b.blockHash := b], was, was - {b.prevBlock}, b, b.blockHash)
  {
    var more := blocks[b.blockHash := b];
    forall x | Reaches(f, more, b.blockHash, x) && Reaches(f, more, x, b.blockHash) ensures x == b.blockHash {
      ReachesDown(f, more, b.blockHash, x);
      ReachesDown(f, more, x, b.blockHash);
    }
  }

  lemma LinkNext(f: Facts, blocks: map<BlockHash, Block>, was: map<BlockHash, Block>, orphans: map<BlockHash, Block>,
                 first: Block, last: BlockHash, b: Block)
    requires Known(f, blocks) && LinkedUp(f, blocks, was, orphans, first, last)
    requires Rightly(f, b.blockHash, b) && b.prevBlock == last && last in blocks && last in was && was[last] == b
    ensures Known(f, blocks[b.blockHash := b])
    ensures LinkedUp(f, blocks[b.blockHash := b], was, orphans - {last}, first, b.blockHash)
    ensures f.height(b.blockHash) == f.height(last) + 1
  {
    var more := blocks[b.blockHash := b];
    ReachesStill(f, blocks, b, last, first.blockHash);
    assert Reaches(f, more, b.blockHash, first.blockHash);
    forall x | Reaches(f, more, b.blockHash, x) && Reaches(f, more, x, first.blockHash) && x != b.blockHash
      ensures x !in orphans - {last}
    {
      assert Reaches(f, more, last, x);
      ReachesBelow(f, blocks, b, last, x);
      ReachesDown(f, blocks, last, x);
      ReachesBelow(f, blocks, b, x, first.blockHash);
    }
    forall p | p in was && p !in orphans - {last} && p != first.prevBlock
      ensures Reaches(f, more, b.blockHash, was[p].blockHash)
    {
      if p != last {
        ReachesStill(f, blocks, b, last, was[p].blockHash);
      }
    }
  }

  // What the peer manager keeps of the blocks that wait.
  ghost predicate AllWaiting(f: Facts, orphans: map<BlockHash, Block>) {
    forall p :: p in orphans ==> orphans[p].prevBlock == p && (p == UINT256_ZERO || Genuine(f, orphans[p]))
  }

  lemma WaitsStill(f: Facts, was: map<BlockHash, Block>, orphans: map<BlockHash, Block>)
    requires Waits(f, was) && forall p :: p in orphans ==> p in was && orphans[p] == was[p]
    ensures AllWaiting(f, orphans)
  {
  }

  // Stores the first block, the one that waits for it, the one that waits for that, and so on.
  method Relink(blocks0: map<BlockHash, Block>, orphans0: map<BlockHash, Block>, first: Block, ghost f: Facts)
    returns (blocks: map<BlockHash, Block>, orphans: map<BlockHash, Block>, last: BlockHash)
    requires Known(f, blocks0) && Waits(f, orphans0)
    requires Rightly(f, first.blockHash, first) && first.prevBlock in orphans0
    ensures Known(f, blocks) && last in blocks && last !in orphans
    ensures LinkedUp(f, blocks, orphans0, orphans, first, last)
    ensures blocks0.Keys <= blocks.Keys
    ensures forall h :: h in blocks ==> h in blocks0 || f.height(h) <= f.height(last)
    ensures forall h :: h in blocks ==> || (h in blocks0 && blocks[h] == blocks0[h])
                                        || blocks[h] in orphans0.Values || blocks[h] == first
    ensures forall p :: p in orphans ==> p in orphans0 && orphans[p] == orphans0[p]
  {
    hide Reaches, LinkedUp, Rightly;
    blocks, orphans, last := blocks0, orphans0, UINT256_ZERO;
    var block := Some(first);
    ghost var begun := false;
    while block.Some?
      invariant Known(f, blocks) && blocks0.Keys <= blocks.Keys
      invariant block.Some? ==> Rightly(f, block.value.blockHash, block.value) && block.value.prevBlock in orphans
      invariant !begun ==> block == Some(first) && orphans == orphans0 && blocks == blocks0
      invariant begun ==> forall h :: h in blocks ==> h in blocks0 || f.height(h) <= f.height(last)
      invariant begun ==> last in blocks && LinkedUp(f, blocks, orphans0, orphans, first, last)
      invariant begun ==> block == if last in orphans then Some(orphans[last]) else None
      invariant block.Some? ==> block.value in orphans0.Values || block.value == first
      invariant forall h :: h in blocks ==> || (h in blocks0 && blocks[h] == blocks0[h])
                                            || blocks[h] in orphans0.Values || blocks[h] == first
      invariant forall p :: p in orphans ==> p in orphans0 && orphans[p] == orphans0[p]
      decreases |orphans|
    {
      var b := block.value;
      if begun {
        LinkNext(f, blocks, orphans0, orphans, first, last, b);
      } else {
        LinkFirst(f, blocks, orphans0, b);
      }
      blocks := blocks[b.blockHash := b];
      last, begun := b.blockHash, true;
      FewerWaiting(orphans, b.prevBlock);
      orphans := orphans - {b.prevBlock};
      block := if last in orphans then Some(orphans[last]) else None;
    }
  }

  lemma {:induction false} SuccessorOnChain(f: Facts, blocks: map<BlockHash, Block>, x: BlockHash, a: BlockHash)
    requires Known(f, blocks) && Reaches(f, blocks, x, a) && x != a
    ensures exists y :: y in blocks && blocks[y].prevBlock == a
    decreases f.height(x)
  {
    if blocks[x].prevBlock != a {
      SuccessorOnChain(f, blocks, blocks[x].prevBlock, a);
    }
  }

  // The state after the saved blocks were linked up from first.
  ghost predicate Relinked(f: Facts, saved: seq<Block>, blocks: map<BlockHash, Block>, was: map<BlockHash, Block>,
                           orphans: map<BlockHash, Block>, first: Block, last: BlockHash)
    requires Known(f, blocks)
  {
    && Collected(f, saved, was) && HighestTransition(saved, first)
    && LinkedUp(f, blocks, was, orphans, first, last) && last !in orphans
    && forall p :: p in orphans ==> p in was && orphans[p] == was[p]
  }

  // Where the chain starts: at the top of the saved blocks, or at a checkpoint if no transition was
  // saved.
  ghost predicate Started(f: Facts, checkpoints: seq<Checkpoint>, earliestKeyTime: nat, saved: seq<Block>,
                          blocks: map<BlockHash, Block>, orphans: map<BlockHash, Block>, last: BlockHash)
    requires Known(f, blocks)
  {
    && (forall c :: c in checkpoints ==> c.hash in blocks)
    && (forall h :: h in blocks ==>
                      blocks[h] in saved || exists c :: c in checkpoints && c.hash == h && blocks[h] == c.AsBlock())
    && (|| (exists was, first :: Relinked(f, saved, blocks, was, orphans, first, last))
        || (&& (forall b :: b in saved ==> !IsTransition(b)) && Collected(f, saved, orphans)
            && exists k: nat :: StartsAt(checkpoints, earliestKeyTime, |checkpoints|, k)
                                && last == checkpoints[k].hash))
  }

  // chain is what was saved, one block after another, and m is where its highest transition lies.
  ghost predicate IsSavedChain(saved: seq<Block>, chain: seq<Block>, m: nat) {
    && m < |chain| && (forall b :: b in saved <==> b in chain)
    && (forall k :: 0 < k < |chain| ==> chain[k].prevBlock == chain[k - 1].blockHash)
    && IsTransition(chain[m]) && forall k :: m < k < |chain| ==> !IsTransition(chain[k])
  }

  // Blocks of a chain of saved blocks are determined by their height, and so by their predecessor.
  lemma {:induction false} SavedHeights(f: Facts, saved: seq<Block>, chain: seq<Block>, m: nat, n: nat)
    requires IsSavedChain(saved, chain, m) && forall b :: b in saved ==> Rightly(f, b.blockHash, b)
    requires n < |chain|
    ensures f.height(chain[n].blockHash) == f.height(chain[0].blockHash) + n
  {
    if n > 0 {
      SavedHeights(f, saved, chain, m, n - 1);
      assert chain[n] in saved && chain[n - 1] in saved;
    }
  }

  lemma OnlyFollower(f: Facts, saved: seq<Block>, chain: seq<Block>, m: nat, n: nat, b: Block)
    requires IsSavedChain(saved, chain, m) && forall b :: b in saved ==> Rightly(f, b.blockHash, b)
    requires n < |chain| && b in saved && b.prevBlock == chain[n].blockHash
    ensures n + 1 < |chain| && b == chain[n + 1]
  {
    var k :| 0 <= k < |chain| && chain[k] == b;
    assert chain[n] in saved;
    SavedHeights(f, saved, chain, m, k);
    SavedHeights(f, saved, chain, m, n);
  }

  lemma HighestIsAt(f: Facts, saved: seq<Block>, first: Block, chain: seq<Block>, m: nat)
    requires IsSavedChain(saved, chain, m) && forall b :: b in saved ==> Rightly(f, b.blockHash, b)
    requires HighestTransition(saved, first)
    ensures first == chain[m]
  {
    var k :| 0 <= k < |chain| && chain[k] == first;
    assert chain[m] in saved;
    SavedHeights(f, saved, chain, m, k);
    SavedHeights(f, saved, chain, m, m);
  }

  lemma {:induction false} RestoredUpTo(f: Facts, saved: seq<Block>, blocks: map<BlockHash, Block>,
                                        was: map<BlockHash, Block>, orphans: map<BlockHash, Block>, first: Block,
                                        last: BlockHash, chain: seq<Block>, m: nat, n: nat)
    requires Known(f, blocks) && Relinked(f, saved, blocks, was, orphans, first, last)
    requires IsSavedChain(saved, chain, m) && forall b :: b in saved ==> Rightly(f, b.blockHash, b)
    requires m <= n < |chain|
    ensures first == chain[m] && Reaches(f, blocks, last, chain[n].blockHash)
    decreases n
  {
    HighestIsAt(f, saved, first, chain, m);
    assert Reaches(f, blocks, last, first.blockHash);
    if n > m {
      hide Known, Reaches, Rightly, IsTransition, HighestTransition, LinkedUp;
      RestoredUpTo(f, saved, blocks, was, orphans, first, last, chain, m, n - 1);
      SavedHeights(f, saved, chain, m, n - 1);
      SavedHeights(f, saved, chain, m, m);
      assert chain[n] in saved && chain[n - 1] in saved && chain[m] in saved;
      OnlyFollower(f, saved, chain, m, n - 1, was[chain[n].prevBlock]);
      RestoredNext(f, blocks, was, orphans, first, last, chain[n - 1].blockHash);
    }
  }

  // The block that waits for one on the chain is on the chain, too.
  lemma RestoredNext(f: Facts, blocks: map<BlockHash, Block>, was: map<BlockHash, Block>,
                     orphans: map<BlockHash, Block>, first: Block, last: BlockHash, p: BlockHash)
    requires Known(f, blocks) && LinkedUp(f, blocks, was, orphans, first, last) && last !in orphans
    requires Rightly(f, first.blockHash, first) && p != UINT256_ZERO && p in was
    requires Reaches(f, blocks, last, p) && f.height(first.blockHash) <= f.height(p)
    ensures Reaches(f, blocks, last, was[p].blockHash)
  {
    ReachesBetween(f, blocks, last, p, first.blockHash);
    assert p !in orphans && p != first.prevBlock;
  }

  lemma EndsAtTop(f: Facts, saved: seq<Block>, blocks: map<BlockHash, Block>, last: BlockHash, chain: seq<Block>,
                  m: nat)
    requires Known(f, blocks) && forall h :: h in blocks ==> blocks[h].prevBlock == UINT256_ZERO || blocks[h] in saved
    requires IsSavedChain(saved, chain, m) && forall b :: b in saved ==> Rightly(f, b.blockHash, b)
    requires Reaches(f, blocks, last, chain[|chain| - 1].blockHash)
    ensures last == chain[|chain| - 1].blockHash
  {
    hide Reaches, IsTransition;
    var top := chain[|chain| - 1];
    assert top in saved;
    if last != top.blockHash {
      SuccessorOnChain(f, blocks, last, top.blockHash);
      var y :| y in blocks && blocks[y].prevBlock == top.blockHash;
      OnlyFollower(f, saved, chain, m, |chain| - 1, blocks[y]);
    }
  }

  // If what was saved is one chain, it is restored from its highest transition up, and its top is the
  // last block.
  lemma SavedChainIsRestored(f: Facts, checkpoints: seq<Checkpoint>, earliestKeyTime: nat, saved: seq<Block>,
                             blocks: map<BlockHash, Block>, orphans: map<BlockHash, Block>, last: BlockHash,
                             chain: seq<Block>, m: nat)
    requires Known(f, blocks) && Started(f, checkpoints, earliestKeyTime, saved, blocks, orphans, last)
    requires IsSavedChain(saved, chain, m) && forall b :: b in saved ==> Rightly(f, b.blockHash, b)
    ensures last == chain[|chain| - 1].blockHash
    ensures forall n :: m <= n < |chain| ==> Reaches(f, blocks, last, chain[n].blockHash)
  {
    hide Reaches, Rightly, Known, IsTransition;
    assert chain[m] in saved;
    assert forall h :: h in blocks ==> blocks[h].prevBlock == UINT256_ZERO || blocks[h] in saved;
    var was, first :| Relinked(f, saved, blocks, was, orphans, first, last);
    forall n: nat | m <= n < |chain| ensures Reaches(f, blocks, last, chain[n].blockHash) {
      RestoredUpTo(f, saved, blocks, was, orphans, first, last, chain, m, n);
    }
    EndsAtTop(f, saved, blocks, last, chain, m);
  }

  lemma StartedAtCheckpoint(f: Facts, checkpoints: seq<Checkpoint>, earliestKeyTime: nat, saved: seq<Block>,
                            blocks: map<BlockHash, Block>, orphans: map<BlockHash, Block>, k: nat)
    requires Known(f, blocks) && FromCheckpoints(checkpoints, blocks)
    requires forall c :: c in checkpoints ==> c.hash in blocks
    requires (forall b :: b in saved ==> !IsTransition(b)) && Collected(f, saved, orphans)
    requires StartsAt(checkpoints, earliestKeyTime, |checkpoints|, k)
    ensures Started(f, checkpoints, earliestKeyTime, saved, blocks, orphans, checkpoints[k].hash)
  {
    hide IsTransition;
  }

  lemma StartedAtTop(f: Facts, checkpoints: seq<Checkpoint>, earliestKeyTime: nat, saved: seq<Block>,
                     blocks: map<BlockHash, Block>, was: map<BlockHash, Block>, orphans: map<BlockHash, Block>,
                     first: Block, last: BlockHash, blocks0: map<BlockHash, Block>)
    requires Known(f, blocks) && forall c :: c in checkpoints ==> c.hash in blocks
    requires Collected(f, saved, was) && HighestTransition(saved, first)
    requires LinkedUp(f, blocks, was, orphans, first, last) && last !in orphans
    requires FromCheckpoints(checkpoints, blocks0)
    requires forall h :: h in blocks ==> || (h in blocks0 && blocks[h] == blocks0[h])
                                         || blocks[h] in was.Values || blocks[h] == first
    requires forall p :: p in orphans ==> p in was && orphans[p] == was[p]
    ensures Started(f, checkpoints, earliestKeyTime, saved, blocks, orphans, last)
  {
    hide LinkedUp, HighestTransition;
    FirstIsSaved(saved, first);
    assert Relinked(f, saved, blocks, was, orphans, first, last);
  }

  lemma RootedAtTop(f: Facts, saved: seq<Block>, blocks: map<BlockHash, Block>, was: map<BlockHash, Block>,
                    orphans: map<BlockHash, Block>, first: Block, last: BlockHash)
    requires Known(f, blocks) && LinkedUp(f, blocks, was, orphans, first, last) && last in blocks
    requires HighestTransition(saved, first) && Rightly(f, first.blockHash, first)
    requires forall h :: h in blocks ==> AtTransition(f, h) || f.height(h) <= f.height(last)
    ensures Rooted(f, blocks, last)
  {
    assert AtTransition(f, first.blockHash);
  }

  lemma RootedAtCheckpoint(f: Facts, blocks: map<BlockHash, Block>, last: BlockHash)
    requires Known(f, blocks) && last in blocks && forall h :: h in blocks ==> AtTransition(f, h)
    ensures Rooted(f, blocks, last)
  {
    assert Reaches(f, blocks, last, last);
  }

  lemma FirstIsSaved(saved: seq<Block>, first: Block)
    requires HighestTransition(saved, first)
    ensures first in saved
  {
  }

  // Stores the checkpoints, and whatever of the saved blocks links up.
  method StoreBlocks(checkpoints: seq<Checkpoint>, earliestKeyTime: nat, saved: seq<Block>, ghost f: Facts)
    returns (blocks: map<BlockHash, Block>, orphans: map<BlockHash, Block>, last: BlockHash)
    requires |checkpoints| > 0 && forall c :: c in checkpoints ==> TrueCheckpoint(f, c)
    requires forall b :: b in saved ==> Rightly(f, b.blockHash, b)
    ensures Known(f, blocks) && last in blocks && Rooted(f, blocks, last) && AllWaiting(f, orphans)
    ensures Started(f, checkpoints, earliestKeyTime, saved, blocks, orphans, last)
  {
    hide Rightly, Reaches, LinkedUp, Waits, Started, AllWaiting, TrueCheckpoint, IsTransition, AtTransition, Rooted;
    hide FromCheckpoints;
    blocks, last := StoreCheckpoints(checkpoints, earliestKeyTime, f);
    ghost var k: nat :| StartsAt(checkpoints, earliestKeyTime, |checkpoints|, k) && last == checkpoints[k].hash;
    var first;
    orphans, first := SetAside(saved, f);
    ghost var was, stored := orphans, blocks;
    if first.Some? {
      blocks, orphans, last := Relink(blocks, orphans, first.value, f);
      StartedAtTop(f, checkpoints, earliestKeyTime, saved, blocks, was, orphans, first.value, last, stored);
      RootedAtTop(f, saved, blocks, was, orphans, first.value, last);
    } else {
      StartedAtCheckpoint(f, checkpoints, earliestKeyTime, saved, blocks, orphans, k);
      RootedAtCheckpoint(f, blocks, last);
    }
    WaitsStill(f, was, orphans);
  }

  lemma FewerWaiting(orphans: map<BlockHash, Block>, p: BlockHash)
    requires p in orphans
    ensures |orphans - {p}| < |orphans|
  {
    assert (orphans - {p}).Keys == orphans.Keys - {p};
    SmallerSet((orphans - {p}).Keys, orphans.Keys);
    assert |orphans| == |orphans.Keys| && |orphans - {p}| == |(orphans - {p}).Keys|;
  }
}
