// Which blocks are handed over to be saved, and that a restart from them leads back to the same block.
module PeerSave {
  import opened Common
  import opened Chain
  import opened Pruning
  import opened PeerStart

  // Blocks of a stored chain, from x down.
  ghost predicate ChainDown(f: Facts, blocks: map<BlockHash, Block>, x: BlockHash, bs: seq<Block>)
    requires Known(f, blocks)
  {
    && (bs != [] ==> bs[0].blockHash == x)
    && (forall k :: 0 <= k < |bs| ==> bs[k].blockHash in blocks && blocks[bs[k].blockHash] == bs[k])
    && forall k :: 0 < k < |bs| ==> bs[k - 1].prevBlock == bs[k].blockHash
  }

  lemma {:induction false} ChainHeights(f: Facts, blocks: map<BlockHash, Block>, x: BlockHash, bs: seq<Block>, k: nat)
    requires Known(f, blocks) && ChainDown(f, blocks, x, bs) && k < |bs|
    ensures bs[k].height + k == bs[0].height
  {
    if k > 0 {
      ChainHeights(f, blocks, x, bs, k - 1);
    }
  }

  // Up to count blocks of the stored chain, from x down.
  method Collect(blocks: map<BlockHash, Block>, x: BlockHash, count: nat, ghost f: Facts) returns (bs: seq<Block>)
    requires Known(f, blocks) && x in blocks
    ensures ChainDown(f, blocks, x, bs) && |bs| <= count
    ensures |bs| < count ==> bs != [] && bs[|bs| - 1].prevBlock !in blocks
  {
    bs := [];
    var b := Some(x);
    var i := 0;
    while b.Some? && i < count
      invariant 0 <= i == |bs| <= count && ChainDown(f, blocks, x, bs)
      invariant b.Some? ==> b.value in blocks && b.value == if i == 0 then x else bs[i - 1].prevBlock
      invariant b.None? ==> i > 0 && bs[i - 1].prevBlock !in blocks
    {
      bs := bs + [blocks[b.value]];
      b := Get(blocks, blocks[b.value].prevBlock);
      i := i + 1;
    }
  }

  // The longest part, from the top, that ends at a difficulty transition: what the source asserts of
  // it before saving, and that nothing was cut off needlessly.
  ghost predicate CutAtTransition(bs: seq<Block>, n: nat) {
    && n <= |bs| && (n > 0 ==> IsTransition(bs[n - 1]))
    && forall k :: n <= k < |bs| ==> !IsTransition(bs[k])
  }

  // How many of the collected blocks to save: what lies below the lowest transition is cut off.
  method SaveLength(bs: seq<Block>, ghost f: Facts, ghost blocks: map<BlockHash, Block>, ghost x: BlockHash)
    returns (n: nat)
    requires Known(f, blocks) && ChainDown(f, blocks, x, bs)
    ensures CutAtTransition(bs, n)
  {
    n := |bs|;
    var j := if n > 0 then bs[n - 1].height % BLOCK_DIFFICULTY_INTERVAL else 0;
    if j > 0 {
      ghost var low := bs[n - 1].height;
      ChainHeights(f, blocks, x, bs, n - 1);
      n := n - (if n > BLOCK_DIFFICULTY_INTERVAL - j then BLOCK_DIFFICULTY_INTERVAL - j else n);
      forall k | n <= k < |bs| ensures !IsTransition(bs[k]) {
        ChainHeights(f, blocks, x, bs, k);
        NoTransitionNear(low, bs[k].height);
      }
      if n > 0 {
        ChainHeights(f, blocks, x, bs, n - 1);
        NextTransition(low);
      }
    }
  }

  lemma NoTransitionNear(low: nat, h: nat)
    requires low % BLOCK_DIFFICULTY_INTERVAL > 0
    requires low <= h < low + BLOCK_DIFFICULTY_INTERVAL - low % BLOCK_DIFFICULTY_INTERVAL
    ensures h % BLOCK_DIFFICULTY_INTERVAL > 0
  {
  }

  lemma NextTransition(low: nat)
    requires low % BLOCK_DIFFICULTY_INTERVAL > 0
    ensures (low + BLOCK_DIFFICULTY_INTERVAL - low % BLOCK_DIFFICULTY_INTERVAL) % BLOCK_DIFFICULTY_INTERVAL == 0
  {
  }

  method BlocksToSave(blocks: map<BlockHash, Block>, x: BlockHash, saveCount: nat, ghost f: Facts)
    returns (saved: seq<Block>)
    requires Known(f, blocks) && x in blocks
    ensures ChainDown(f, blocks, x, saved) && (saved != [] ==> IsTransition(saved[|saved| - 1]))
    ensures Anchored(f, blocks, x) && saveCount > blocks[x].height % BLOCK_DIFFICULTY_INTERVAL ==> saved != []
  {
    hide IsTransition, Anchored;
    var bs := Collect(blocks, x, saveCount, f);
    var n := SaveLength(bs, f, blocks, x);
    saved := bs[..n];
    if n == 0 && saveCount > blocks[x].height % BLOCK_DIFFICULTY_INTERVAL && Anchored(f, blocks, x) {
      FarEnough(f, blocks, x, bs, saveCount);
    }
  }

  // With enough blocks asked for, the chain collected contains the transition it is anchored in.
  lemma FarEnough(f: Facts, blocks: map<BlockHash, Block>, x: BlockHash, bs: seq<Block>, count: nat)
    requires Known(f, blocks) && x in blocks && ChainDown(f, blocks, x, bs) && Anchored(f, blocks, x)
    requires count > blocks[x].height % BLOCK_DIFFICULTY_INTERVAL
    requires |bs| < count ==> bs != [] && bs[|bs| - 1].prevBlock !in blocks
    requires |bs| <= count
    ensures exists k :: 0 <= k < |bs| && IsTransition(bs[k])
  {
    var d := blocks[x].height % BLOCK_DIFFICULTY_INTERVAL;
    var t := NearestTransition(f, blocks, x);
    if |bs| > d {
      ChainHeights(f, blocks, x, bs, d);
      assert IsTransition(bs[d]);
    } else {
      ChainHeights(f, blocks, x, bs, |bs| - 1);
      ChainReaches(f, blocks, x, bs, |bs| - 1, t);
    }
  }

  // What the top of a chain reaches no higher than its end, its end reaches.
  lemma {:induction false} ChainReaches(f: Facts, blocks: map<BlockHash, Block>, x: BlockHash, bs: seq<Block>, k: nat,
                                        t: BlockHash)
    requires Known(f, blocks) && ChainDown(f, blocks, x, bs) && k < |bs| && x in blocks
    requires Reaches(f, blocks, x, t) && f.height(t) + k <= f.height(x)
    ensures Reaches(f, blocks, bs[k].blockHash, t) && f.height(bs[k].blockHash) + k == f.height(x)
  {
    if k > 0 {
      ChainReaches(f, blocks, x, bs, k - 1, t);
    }
  }

  // A chain downwards, saved, is a saved chain upwards.
  function Reversed(bs: seq<Block>): (r: seq<Block>)
    ensures |r| == |bs|
    ensures forall k :: 0 <= k < |bs| ==> r[k] == bs[|bs| - 1 - k]
  {
    seq(|bs|, k requires 0 <= k < |bs| => bs[|bs| - 1 - k])
  }

  lemma {:induction false} HighestIn(bs: seq<Block>, n: nat) returns (m: nat)
    requires n < |bs| && IsTransition(bs[n])
    ensures m <= n && IsTransition(bs[m]) && forall k :: 0 <= k < m ==> !IsTransition(bs[k])
  {
    if k :| 0 <= k < n && IsTransition(bs[k]) {
      m := HighestIn(bs, k);
    } else {
      m := n;
    }
  }

  lemma SavedIsChain(f: Facts, blocks: map<BlockHash, Block>, x: BlockHash, saved: seq<Block>) returns (m: nat)
    requires Known(f, blocks) && ChainDown(f, blocks, x, saved) && saved != [] && IsTransition(saved[|saved| - 1])
    ensures IsSavedChain(saved, Reversed(saved), m)
    ensures forall b :: b in saved ==> Rightly(f, b.blockHash, b)
    ensures Reversed(saved)[|saved| - 1].blockHash == x
  {
    var chain := Reversed(saved);
    var high := HighestIn(saved, |saved| - 1);
    m := |saved| - 1 - high;
    forall b ensures b in saved <==> b in chain {
      if b in saved {
        var k :| 0 <= k < |saved| && saved[k] == b;
        assert chain[|saved| - 1 - k] == b;
      }
    }
  }

  // Saving the chain of a block and starting from what was saved leads back to that block.
  lemma RestartAtSameBlock(f: Facts, blocks: map<BlockHash, Block>, x: BlockHash, saved: seq<Block>,
                           checkpoints: seq<Checkpoint>, earliestKeyTime: nat, after: map<BlockHash, Block>,
                           orphans: map<BlockHash, Block>, last: BlockHash)
    requires Known(f, blocks) && ChainDown(f, blocks, x, saved) && saved != [] && IsTransition(saved[|saved| - 1])
    requires Known(f, after) && Started(f, checkpoints, earliestKeyTime, saved, after, orphans, last)
    ensures last == x
  {
    hide Started, Known, ChainDown, IsSavedChain, IsTransition;
    var m := SavedIsChain(f, blocks, x, saved);
    SavedChainIsRestored(f, checkpoints, earliestKeyTime, saved, after, orphans, last, Reversed(saved), m);
  }
}
