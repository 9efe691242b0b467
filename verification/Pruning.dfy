// What VerifyBlock frees at a difficulty transition: the blocks of that chain more than an interval
// back, except the transitions among them.
module Pruning {
  import opened Common
  import opened Chain

  // The block at the given height, with p before it, is being verified. What stays is every block
  // at or above the block one interval back, every transition, and whatever is not on this chain.
  ghost function Pruned(f: Facts, blocks: map<BlockHash, Block>, p: BlockHash, height: nat): map<BlockHash, Block>
    requires Known(f, blocks)
  {
    map h | && h in blocks
            && (|| blocks[h].height + BLOCK_DIFFICULTY_INTERVAL >= height
                || IsTransition(blocks[h])
                || !Reaches(f, blocks, p, h)) :: blocks[h]
  }

  // The stored block n steps back from b.
  function Back(blocks: map<BlockHash, Block>, b: Block, n: nat): Option<Block> {
    if n == 0 then Some(b)
    else match Back(blocks, b, n - 1)
      case None => None
      case Some(c) => if c.prevBlock in blocks then Some(blocks[c.prevBlock]) else None
  }

  lemma {:induction false} BackEnds(blocks: map<BlockHash, Block>, b: Block, i: nat, n: nat)
    requires Back(blocks, b, i).None? && i <= n
    ensures Back(blocks, b, n).None?
  {
    if i < n {
      BackEnds(blocks, b, i, n - 1);
    }
  }

  lemma {:induction false} BackReaches(f: Facts, blocks: map<BlockHash, Block>, b: Block, n: nat)
    requires Known(f, blocks) && n > 0 && Back(blocks, b, n).Some?
    requires b.prevBlock in blocks ==> b.height == f.height(b.prevBlock) + 1
    ensures var c := Back(blocks, b, n).value;
            && c.blockHash in blocks && blocks[c.blockHash] == c && b.prevBlock in blocks
            && Reaches(f, blocks, b.prevBlock, c.blockHash) && c.height + n == b.height
  {
    if n > 1 {
      BackReaches(f, blocks, b, n - 1);
      var d := Back(blocks, b, n - 1).value;
      ReachesOneFurther(f, blocks, b.prevBlock, d.blockHash);
    } else {
      assert Back(blocks, b, 0) == Some(b);
    }
  }

  // While the walk that started at q is at x: what it has passed is gone, except transitions.
  ghost function Passed(f: Facts, blocks: map<BlockHash, Block>, q: BlockHash, x: BlockHash): map<BlockHash, Block>
    requires Known(f, blocks)
  {
    map h | && h in blocks
            && (IsTransition(blocks[h]) || !Reaches(f, blocks, q, h) || Reaches(f, blocks, x, h)) :: blocks[h]
  }

  lemma PassedNone(f: Facts, blocks: map<BlockHash, Block>, q: BlockHash)
    requires Known(f, blocks)
    ensures Passed(f, blocks, q, q) == blocks
  {
  }

  lemma PassedNext(f: Facts, blocks: map<BlockHash, Block>, q: BlockHash, x: BlockHash)
    requires Known(f, blocks) && x in blocks && Reaches(f, blocks, q, x)
    ensures Passed(f, blocks, q, blocks[x].prevBlock)
            == if IsTransition(blocks[x]) then Passed(f, blocks, q, x) else Passed(f, blocks, q, x) - {x}
    ensures blocks[x].prevBlock in blocks ==>
              Reaches(f, blocks, q, blocks[x].prevBlock) && f.height(blocks[x].prevBlock) < f.height(x)
    ensures Passed(f, blocks, q, x)[x] == blocks[x]
  {
    hide IsTransition;
    var next := blocks[x].prevBlock;
    forall h | h in blocks ensures Reaches(f, blocks, x, h) <==> h == x || Reaches(f, blocks, next, h) {
    }
    if next in blocks {
      ReachesOneFurther(f, blocks, q, x);
      if Reaches(f, blocks, next, x) {
        ReachesDown(f, blocks, next, x);
      }
    }
  }

  // The walk that starts below the block one interval back frees what Pruned says.
  lemma PassedAll(f: Facts, blocks: map<BlockHash, Block>, b: Block, x: BlockHash)
    requires Known(f, blocks) && Back(blocks, b, BLOCK_DIFFICULTY_INTERVAL).Some? && x !in blocks
    requires b.prevBlock in blocks && b.height == f.height(b.prevBlock) + 1
    ensures Passed(f, blocks, Back(blocks, b, BLOCK_DIFFICULTY_INTERVAL).value.prevBlock, x)
            == Pruned(f, blocks, b.prevBlock, b.height)
  {
    hide IsTransition, Back;
    BackReaches(f, blocks, b, BLOCK_DIFFICULTY_INTERVAL);
    var base := Back(blocks, b, BLOCK_DIFFICULTY_INTERVAL).value;
    forall h | h in blocks
      ensures Reaches(f, blocks, base.prevBlock, h)
              <==> Reaches(f, blocks, b.prevBlock, h) && blocks[h].height + BLOCK_DIFFICULTY_INTERVAL < b.height
    {
      if Reaches(f, blocks, base.prevBlock, h) {
        ReachesDown(f, blocks, base.prevBlock, h);
        assert Reaches(f, blocks, base.blockHash, h);
        ReachesOn(f, blocks, b.prevBlock, base.blockHash, h);
      } else if Reaches(f, blocks, b.prevBlock, h) && blocks[h].height < base.height {
        ReachesBetween(f, blocks, b.prevBlock, base.blockHash, h);
      }
    }
  }

  lemma PassedWhere(f: Facts, blocks: map<BlockHash, Block>, q: BlockHash, x: BlockHash)
    requires Known(f, blocks)
    ensures x in Passed(f, blocks, q, x) <==> x in blocks
  {
  }

  // ----- what pruning leaves alone -----

  ghost predicate AtTransition(f: Facts, h: BlockHash) {
    f.height(h) % BLOCK_DIFFICULTY_INTERVAL == 0
  }

  // The stored chain of the last block goes back to a transition, and nothing but transitions, the
  // checkpoints, lies higher than the last block.
  ghost predicate Rooted(f: Facts, blocks: map<BlockHash, Block>, last: BlockHash)
    requires Known(f, blocks)
  {
    && last in blocks && Anchored(f, blocks, last)
    && forall h :: h in blocks ==> f.height(h) <= f.height(last) || AtTransition(f, h)
  }

  ghost predicate Anchored(f: Facts, blocks: map<BlockHash, Block>, last: BlockHash)
    requires Known(f, blocks)
  {
    exists t :: Reaches(f, blocks, last, t) && AtTransition(f, t)
  }

  // The heights of a stored chain leave no gap.
  lemma {:induction false} ReachesHeight(f: Facts, blocks: map<BlockHash, Block>, x: BlockHash, j: BlockHash, m: nat)
    returns (a: BlockHash)
    requires Known(f, blocks) && Reaches(f, blocks, x, j) && f.height(j) <= m <= f.height(x)
    ensures Reaches(f, blocks, x, a) && f.height(a) == m
    decreases f.height(x)
  {
    if f.height(x) == m {
      a := x;
    } else {
      a := ReachesHeight(f, blocks, blocks[x].prevBlock, j, m);
    }
  }

  // So the last transition at or below the last block is on its stored chain.
  lemma NearestTransition(f: Facts, blocks: map<BlockHash, Block>, last: BlockHash) returns (t: BlockHash)
    requires Known(f, blocks) && Anchored(f, blocks, last)
    ensures Reaches(f, blocks, last, t)
    ensures f.height(t) == f.height(last) - f.height(last) % BLOCK_DIFFICULTY_INTERVAL
  {
    var low :| Reaches(f, blocks, last, low) && AtTransition(f, low);
    ReachesDown(f, blocks, last, low);
    t := ReachesHeight(f, blocks, last, low, f.height(last) - f.height(last) % BLOCK_DIFFICULTY_INTERVAL);
  }

  // A chain survives when everything from its lower end up does.
  lemma {:induction false} ReachesKept(f: Facts, blocks: map<BlockHash, Block>, left: map<BlockHash, Block>,
                                       x: BlockHash, a: BlockHash)
    requires Known(f, blocks) && Known(f, left) && Reaches(f, blocks, x, a)
    requires forall h :: h in blocks && f.height(h) >= f.height(a) ==> h in left && left[h] == blocks[h]
    ensures Reaches(f, left, x, a)
    decreases f.height(x)
  {
    ReachesDown(f, blocks, x, a);
    if x != a {
      ReachesDown(f, blocks, blocks[x].prevBlock, a);
      ReachesKept(f, blocks, left, blocks[x].prevBlock, a);
    }
  }

  // What pruning removes.
  lemma PrunedLoses(f: Facts, blocks: map<BlockHash, Block>, p: BlockHash, height: nat)
    requires Known(f, blocks)
    ensures var left := Pruned(f, blocks, p, height);
            && Known(f, left) && (forall h :: h in left ==> h in blocks && left[h] == blocks[h])
            && forall h :: h in blocks && h !in left ==>
                             !AtTransition(f, h) && f.height(h) + BLOCK_DIFFICULTY_INTERVAL < height
  {
    hide Reaches;
  }

  // Pruning for a block at a transition, whatever becomes of that block.
  lemma PrunedKeeps(f: Facts, blocks: map<BlockHash, Block>, last: BlockHash, p: BlockHash, height: nat)
    requires Known(f, blocks) && Rooted(f, blocks, last) && p in blocks
    requires height == f.height(p) + 1 && height % BLOCK_DIFFICULTY_INTERVAL == 0
    ensures Known(f, Pruned(f, blocks, p, height)) && Rooted(f, Pruned(f, blocks, p, height), last)
    ensures forall h :: h in blocks && h !in Pruned(f, blocks, p, height) ==>
                          !AtTransition(f, h) && f.height(h) + BLOCK_DIFFICULTY_INTERVAL <= f.height(last)
    ensures height <= f.height(last) + 1
  {
    hide Reaches, Pruned;
    PrunedLoses(f, blocks, p, height);
    var left := Pruned(f, blocks, p, height);
    assert !AtTransition(f, p);
    assert height <= f.height(last) + 1;
    var t := NearestTransition(f, blocks, last);
    assert AtTransition(f, t) && f.height(t) + BLOCK_DIFFICULTY_INTERVAL >= height;
    hide Known, AtTransition;
    ReachesKept(f, blocks, left, last, t);
    assert Anchored(f, left, last);
  }

  // The block that follows the last one always finds the transition one interval back.
  lemma {:induction false} BackToAncestor(f: Facts, blocks: map<BlockHash, Block>, b: Block, a: BlockHash, n: nat)
    requires Known(f, blocks) && b.prevBlock in blocks && b.height == f.height(b.prevBlock) + 1
    requires Reaches(f, blocks, b.prevBlock, a) && 0 < n <= b.height - f.height(a)
    ensures Back(blocks, b, n).Some?
    ensures var c := Back(blocks, b, n).value.blockHash; c in blocks && Reaches(f, blocks, c, a)
  {
    if n > 1 {
      BackToAncestor(f, blocks, b, a, n - 1);
      BackReaches(f, blocks, b, n - 1);
    } else {
      assert Back(blocks, b, 0) == Some(b);
    }
    BackReaches(f, blocks, b, n);
  }

  lemma NextIsAnchored(f: Facts, blocks: map<BlockHash, Block>, last: BlockHash, b: Block)
    requires Known(f, blocks) && Rooted(f, blocks, last) && b.prevBlock == last
    requires b.height == f.height(last) + 1 && b.height % BLOCK_DIFFICULTY_INTERVAL == 0
    ensures Back(blocks, b, BLOCK_DIFFICULTY_INTERVAL).Some?
  {
    hide Reaches, Back;
    var t := NearestTransition(f, blocks, last);
    BackToAncestor(f, blocks, b, t, BLOCK_DIFFICULTY_INTERVAL);
  }

  // Storing a block: above the last one as the new last block, or not above it, or again.
  lemma RootedStill(f: Facts, blocks: map<BlockHash, Block>, last: BlockHash, b: Block, next: BlockHash)
    requires Known(f, blocks) && Rooted(f, blocks, last)
    requires Genuine(f, b) && b.height == f.height(b.blockHash)
    requires || (next == b.blockHash && b.prevBlock == last)
             || (next == last && (f.height(b.blockHash) <= f.height(last) || b.blockHash in blocks))
    ensures Known(f, blocks[b.blockHash := b]) && Rooted(f, blocks[b.blockHash := b], next)
  {
    var more := blocks[b.blockHash := b];
    var t :| Reaches(f, blocks, last, t) && AtTransition(f, t);
    ReachesStill(f, blocks, b, last, t);
    assert Reaches(f, more, next, t);
  }

  // Switching to a higher chain that joins the one of the last block.
  lemma RootedAcross(f: Facts, blocks: map<BlockHash, Block>, block: BlockHash, last: BlockHash, j: BlockHash)
    requires Known(f, blocks) && Anchored(f, blocks, last) && block in blocks
    requires Reaches(f, blocks, block, j) && Reaches(f, blocks, last, j) && f.height(last) < f.height(block)
    requires forall h :: h in blocks ==> f.height(h) <= f.height(block) || AtTransition(f, h)
    ensures Rooted(f, blocks, block)
  {
    hide Reaches;
    var t := NearestTransition(f, blocks, last);
    assert AtTransition(f, t);
    if f.height(t) <= f.height(j) {
      ReachesBetween(f, blocks, last, j, t);
      ReachesOn(f, blocks, block, j, t);
    } else {
      ReachesDown(f, blocks, last, t);
      var a := ReachesHeight(f, blocks, block, j, f.height(t));
      assert AtTransition(f, a);
    }
  }
}
