// What becomes of a relayed block and of the orphans it connects, as functions of the peer manager's
// state.
module Relaying {
  import opened Common
  import opened Chain
  import opened Pruning
  import opened PeerStart
  import opened Reorg
  import Ledger
  import WalletOrder

  // What handling blocks leaves alone.
  datatype Rules = Rules(facts: Facts, checkpoints: map<nat, BlockHash>, checkpointHeight: nat, earliestKeyTime: nat,
                         difficultyOk: (Block, map<BlockHash, Block>) -> bool, filterReady: bool)

  datatype State = State(blocks: map<BlockHash, Block>, orphans: map<BlockHash, Block>, last: BlockHash,
                         estimated: nat, published: seq<TxHash>)

  // A block as a peer relays it, the height that peer reports, and the time.
  datatype Arrival = Arrival(block: Block, peerLast: nat, now: int)

  // What became of a relayed block. Two outcomes are undefined in the source, which goes on to read
  // through a null pointer: NoJoin, a longer fork that meets no stored part of the current chain,
  // and RanOff, a block stored before for which the walk down the current chain ends too early.
  datatype Outcome = Ignored | Orphaned | Invalid | Extended | Repeated | Postponed | OldFork | SideChain
                   | Reorganized | NoJoin | RanOff {
    predicate SetAside() {
      this == Orphaned || this == Postponed
    }

    predicate Stored() {
      this == Extended || this == Repeated || this == SideChain || this == Reorganized || this == NoJoin
    }

    predicate Undefined() {
      this == NoJoin || this == RanOff
    }
  }

  ghost predicate Fit(f: Facts, s: State) {
    Known(f, s.blocks) && AllWaiting(f, s.orphans) && Rooted(f, s.blocks, s.last)
  }

  // ----- one block -----

  // Blocks from before the wallet existed are skipped as headers only, and every block is while
  // the filter is being replaced.
  ghost predicate Skipped(r: Rules, b: Block) {
    || (b.totalTx == 0 && (b.timestamp + WEEK) % W32 > (r.earliestKeyTime + 2 * 60 * 60) % W32)
    || !r.filterReady
  }

  // A block whose parent is stored is one above it.
  function AtHeight(blocks: map<BlockHash, Block>, relayed: Block): Block {
    if relayed.prevBlock in blocks then relayed.(height := blocks[relayed.prevBlock].height + 1) else relayed
  }

  // Blocks that get as far as verification.
  ghost predicate Heeded(r: Rules, blocks: map<BlockHash, Block>, relayed: Block) {
    !Skipped(r, relayed) && relayed.prevBlock in blocks
  }

  // What is stored once a block has been verified, successfully or not.
  ghost function Checked(f: Facts, blocks: map<BlockHash, Block>, b: Block): map<BlockHash, Block>
    requires Known(f, blocks)
  {
    if IsTransition(b) && Back(blocks, b, BLOCK_DIFFICULTY_INTERVAL).Some?
    then Pruned(f, blocks, b.prevBlock, b.height) else blocks
  }

  // Enough history to check the difficulty, the difficulty itself, and the checkpoint.
  ghost predicate Verified(r: Rules, blocks: map<BlockHash, Block>, b: Block)
    requires Known(r.facts, blocks)
  {
    && (IsTransition(b) ==> Back(blocks, b, BLOCK_DIFFICULTY_INTERVAL).Some?)
    && r.difficultyOk(b, Checked(r.facts, blocks, b))
    && (b.height in r.checkpoints ==> r.checkpoints[b.height] == b.blockHash)
  }

  // The stored chain of the last block ends above the height.
  ghost predicate RunsOff(f: Facts, blocks: map<BlockHash, Block>, last: BlockHash, height: nat)
    requires Known(f, blocks)
  {
    forall a :: Reaches(f, blocks, last, a) ==> f.height(a) > height
  }

  // Verification, and with it pruning, is for blocks whose parent is stored.
  ghost function Left(r: Rules, s: State, relayed: Block): map<BlockHash, Block>
    requires Known(r.facts, s.blocks)
  {
    if Heeded(r, s.blocks, relayed) then Checked(r.facts, s.blocks, AtHeight(s.blocks, relayed)) else s.blocks
  }

  // What becomes of a verified block whose parent is stored: it follows the last block, or is stored
  // already, or is a fork; while the peer is ahead a fork block above the next height waits.
  ghost function Connection(r: Rules, blocks: map<BlockHash, Block>, last: BlockHash, b: Block, peerLast: nat): Outcome
    requires Known(r.facts, blocks) && last in blocks && Known(r.facts, blocks[b.blockHash := b])
  {
    if b.prevBlock == last then Extended
    else if b.blockHash in blocks then
      if RunsOff(r.facts, blocks, last, b.height) then RanOff else Repeated
    else if blocks[last].height < peerLast && b.height > blocks[last].height + 1 then Postponed
    else if b.height <= r.checkpointHeight then OldFork
    else if b.height <= blocks[last].height then SideChain
    else if Apart(r.facts, blocks[b.blockHash := b], b.blockHash, last) then NoJoin
    else Reorganized
  }

  ghost function Verdict(r: Rules, s: State, a: Arrival): Outcome
    requires Fit(r.facts, s) && Genuine(r.facts, a.block)
  {
    LeftFits(r, s, a.block);
    var b := AtHeight(s.blocks, a.block);
    if Skipped(r, a.block) then Ignored
    else if a.block.prevBlock !in s.blocks then
      if (a.block.timestamp + WEEK) % W32 < a.now then Ignored else Orphaned
    else if !Verified(r, s.blocks, b) then Invalid
    else Connection(r, Left(r, s, a.block), s.last, b, a.peerLast)
  }

  // The handling ends with a look for an orphan that waits for the block.
  ghost predicate GoesOn(r: Rules, s: State, a: Arrival)
    requires Fit(r.facts, s) && Genuine(r.facts, a.block)
  {
    var v := Verdict(r, s, a);
    (v.SetAside() || v.Stored()) && !v.Undefined() && AtHeight(s.blocks, a.block).height != BLOCK_UNKNOWN_HEIGHT
  }

  // The block's transactions are recorded at its height.
  ghost predicate Confirms(f: Facts, outcome: Outcome, blocks: map<BlockHash, Block>, last: BlockHash, h: BlockHash)
    requires Known(f, blocks)
  {
    outcome == Extended || (outcome == Repeated && Reaches(f, blocks, last, h))
  }

  // What stays on the publish list.
  ghost function StillPublished(f: Facts, outcome: Outcome, b: Block, blocks: map<BlockHash, Block>, last: BlockHash,
                                published: seq<TxHash>): seq<TxHash>
    requires Known(f, blocks)
  {
    if Confirms(f, outcome, blocks, last, b.blockHash) then WalletOrder.Keep(published, Members(b.txHashes))
    else published
  }

  // Where wallet transactions are after a block, given what became of it and what is then stored.
  ghost function Replaced(f: Facts, outcome: Outcome, b: Block, time: nat, blocks: map<BlockHash, Block>,
                          last: BlockHash, next: map<BlockHash, Block>, places: map<TxHash, Place>)
    : map<TxHash, Place>
    requires Known(f, blocks) && Known(f, next) && (outcome == Reorganized ==> !Apart(f, next, b.blockHash, last))
  {
    if Confirms(f, outcome, blocks, last, b.blockHash) then Written(places, Members(b.txHashes), Place(b.height, time))
    else if outcome == Reorganized then
      JoinOfIs(f, next, b.blockHash, last);
      RewrittenAll(f, next, b.blockHash, JoinOf(f, next, b.blockHash, last), places)
    else places
  }

  ghost function AfterOne(r: Rules, s: State, a: Arrival): State
    requires Fit(r.facts, s) && Genuine(r.facts, a.block)
  {
    LeftFits(r, s, a.block);
    var v, b, left := Verdict(r, s, a), AtHeight(s.blocks, a.block), Left(r, s, a.block);
    var orphans := if v.SetAside() then s.orphans[b.prevBlock := b] else s.orphans;
    State(if v.Stored() then left[b.blockHash := b] else left,
          if GoesOn(r, s, a) then orphans - {b.blockHash} else orphans,
          if v == Extended || v == Reorganized then b.blockHash else s.last,
          if GoesOn(r, s, a) && b.height > s.estimated then b.height else s.estimated,
          StillPublished(r.facts, v, b, left, s.last, s.published))
  }

  // The orphan that waits for the block.
  ghost function Next(r: Rules, s: State, a: Arrival): Option<Arrival>
    requires Fit(r.facts, s) && Genuine(r.facts, a.block)
  {
    if GoesOn(r, s, a) && a.block.blockHash in s.orphans
    then Some(Arrival(s.orphans[a.block.blockHash], a.peerLast, a.now)) else None
  }

  // Where wallet transactions are afterwards.
  ghost function PlacesAfterOne(r: Rules, s: State, a: Arrival, places: map<TxHash, Place>): map<TxHash, Place>
    requires Fit(r.facts, s) && Genuine(r.facts, a.block)
  {
    AfterOneKeeps(r, s, a);
    LeftFits(r, s, a.block);
    var b := AtHeight(s.blocks, a.block);
    Replaced(r.facts, Verdict(r, s, a), b, MeanTime(s.blocks, b), Left(r, s, a.block), s.last,
             AfterOne(r, s, a).blocks, places)
  }

  // What handling a block that gets as far as verification amounts to.
  lemma WhenHeeded(r: Rules, s: State, a: Arrival, places: map<TxHash, Place>)
    requires Fit(r.facts, s) && Genuine(r.facts, a.block) && Heeded(r, s.blocks, a.block)
    ensures var f, v, b, left := r.facts, Verdict(r, s, a), AtHeight(s.blocks, a.block), Left(r, s, a.block);
            && left == Checked(f, s.blocks, b) && s.last in left && Known(f, left) && Known(f, left[b.blockHash := b])
            && v == (if Verified(r, s.blocks, b) then Connection(r, left, s.last, b, a.peerLast) else Invalid)
            && v != Ignored && v != Orphaned
            && var blocks := if v.Stored() then left[b.blockHash := b] else left;
               && Known(f, blocks) && (v == Reorganized ==> !Apart(f, blocks, b.blockHash, s.last))
               && PlacesAfterOne(r, s, a, places)
                  == Replaced(f, v, b, MeanTime(s.blocks, b), left, s.last, blocks, places)
  {
    hide Reaches, RewrittenAll, Written, Verified, Rooted, Checked, Replaced, RunsOff, Apart;
    LeftFits(r, s, a.block);
    AfterOneKeeps(r, s, a);
  }

  lemma WhenUnheeded(r: Rules, s: State, a: Arrival, places: map<TxHash, Place>)
    requires Fit(r.facts, s) && Genuine(r.facts, a.block) && !Heeded(r, s.blocks, a.block)
    ensures var f, v, b, left := r.facts, Verdict(r, s, a), AtHeight(s.blocks, a.block), Left(r, s, a.block);
            && left == s.blocks && PlacesAfterOne(r, s, a, places) == places
            && StillPublished(f, v, b, left, s.last, s.published) == s.published
            && v == (if !Skipped(r, a.block) && (a.block.timestamp + WEEK) % W32 >= a.now then Orphaned else Ignored)
  {
    hide Reaches, RewrittenAll, Written, Skipped, Verified, Rooted, Connection, Checked;
    LeftFits(r, s, a.block);
    AfterOneKeeps(r, s, a);
  }

  // When a block ends in which way. A header that is no more than a week older than the wallet is
  // ignored, and so is an orphan older than a week; the chain is extended by what follows its last
  // block, and switched to a verified fork that is higher, newer than the checkpoints and not ahead
  // of a peer still being synced from.
  lemma VerdictIs(r: Rules, s: State, a: Arrival)
    requires Fit(r.facts, s) && Genuine(r.facts, a.block)
    ensures s.last in s.blocks && Known(r.facts, Left(r, s, a.block))
    ensures var v, b := Verdict(r, s, a), a.block;
            && (v == Ignored <==>
                || !r.filterReady
                || (b.totalTx == 0 && (b.timestamp + 604800) % W32 > (r.earliestKeyTime + 7200) % W32)
                || (b.prevBlock !in s.blocks && (b.timestamp + 604800) % W32 < a.now))
            && (v == Orphaned <==> v != Ignored && b.prevBlock !in s.blocks)
    ensures var v, h, top := Verdict(r, s, a), a.block.blockHash, s.blocks[s.last].height;
            v != Ignored && v != Orphaned ==>
              var b := a.block.(height := s.blocks[a.block.prevBlock].height + 1);
              && (v != Invalid <==>
                  && (b.height % 2016 == 0 ==> Back(s.blocks, b, 2016).Some?)
                  && r.difficultyOk(b, Left(r, s, a.block))
                  && (b.height in r.checkpoints ==> r.checkpoints[b.height] == h))
              && (v == Extended <==> v != Invalid && b.prevBlock == s.last)
              && (v in {Repeated, RanOff} <==> v != Invalid && b.prevBlock != s.last && h in s.blocks)
              && (v == Postponed <==> v != Invalid && b.prevBlock != s.last && h !in s.blocks
                                      && top < a.peerLast && b.height > top + 1)
              && (v in {OldFork, SideChain, Reorganized, NoJoin} ==>
                    && (v == OldFork <==> b.height <= r.checkpointHeight)
                    && (v == SideChain <==> b.height > r.checkpointHeight && b.height <= top))
  {
    hide Genuine, Rooted, Known, AllWaiting, RunsOff, Apart;
    LeftFits(r, s, a.block);
  }

  // ----- what verification and storing keep -----

  lemma NotItsOwnParent(f: Facts, b: Block)
    requires Genuine(f, b)
    ensures b.prevBlock != b.blockHash && b.blockHash != UINT256_ZERO
  {
  }

  lemma StoredHeight(f: Facts, blocks: map<BlockHash, Block>, h: BlockHash)
    requires Known(f, blocks) && h in blocks
    ensures blocks[h].height == f.height(h) && blocks[h].blockHash == h
  {
  }

  lemma StoredToo(f: Facts, blocks: map<BlockHash, Block>, b: Block)
    requires Known(f, blocks) && Genuine(f, b) && b.height == f.height(b.blockHash)
    ensures Known(f, blocks[b.blockHash := b])
  {
  }

  lemma GenuineAtHeight(f: Facts, blocks: map<BlockHash, Block>, relayed: Block)
    requires Known(f, blocks) && Genuine(f, relayed) && relayed.prevBlock in blocks
    ensures blocks[relayed.prevBlock].height + 1 == f.height(relayed.blockHash) < BLOCK_UNKNOWN_HEIGHT
  {
  }

  // What is lost lies at least an interval below the last block and is not at a transition.
  ghost predicate OnlyOldLost(f: Facts, was: map<BlockHash, Block>, blocks: map<BlockHash, Block>, last: BlockHash) {
    forall h :: h in was && h !in blocks ==> IsOld(f, h, last)
  }

  ghost predicate IsOld(f: Facts, h: BlockHash, last: BlockHash) {
    !AtTransition(f, h) && f.height(h) + BLOCK_DIFFICULTY_INTERVAL <= f.height(last)
  }

  lemma OldLostThen(f: Facts, was: map<BlockHash, Block>, between: map<BlockHash, Block>, blocks: map<BlockHash, Block>,
                    last0: BlockHash, last1: BlockHash, last: BlockHash)
    requires OnlyOldLost(f, was, between, last0) && OnlyOldLost(f, between, blocks, last)
    requires last1 == last0 || f.height(last1) > f.height(last0)
    requires last == last1 || f.height(last) > f.height(last1)
    ensures OnlyOldLost(f, was, blocks, last)
  {
  }

  lemma NoneLost(f: Facts, blocks: map<BlockHash, Block>, last: BlockHash)
    ensures OnlyOldLost(f, blocks, blocks, last)
  {
  }

  // What verification leaves stored of a block's surroundings.
  lemma CheckedKeeps(f: Facts, blocks: map<BlockHash, Block>, last: BlockHash, b: Block)
    requires Known(f, blocks) && Rooted(f, blocks, last) && Genuine(f, b)
    requires b.prevBlock in blocks && b.height == f.height(b.blockHash)
    ensures b.prevBlock == last && IsTransition(b) ==> Back(blocks, b, BLOCK_DIFFICULTY_INTERVAL).Some?
    ensures var left := Checked(f, blocks, b);
            && Known(f, left) && Rooted(f, left, last) && OnlyOldLost(f, blocks, left, last)
            && b.prevBlock in left && left[b.prevBlock] == blocks[b.prevBlock]
            && (b.blockHash in blocks <==> b.blockHash in left) && last in left && left[last] == blocks[last]
            && (forall h :: h in left ==> h in blocks)
  {
    hide Reaches, Back;
    NoneLost(f, blocks, last);
    if IsTransition(b) {
      PrunedKeeps(f, blocks, last, b.prevBlock, b.height);
      if b.prevBlock == last {
        NextIsAnchored(f, blocks, last, b);
      }
    }
  }

  lemma LeftFits(r: Rules, s: State, relayed: Block)
    requires Fit(r.facts, s) && Genuine(r.facts, relayed)
    ensures s.last in s.blocks
    ensures relayed.prevBlock in s.blocks ==>
              var b := AtHeight(s.blocks, relayed);
              Genuine(r.facts, b) && b.height == r.facts.height(b.blockHash) < BLOCK_UNKNOWN_HEIGHT
    ensures var left := Left(r, s, relayed);
            && Known(r.facts, left) && Rooted(r.facts, left, s.last) && OnlyOldLost(r.facts, s.blocks, left, s.last)
            && s.last in left && left[s.last] == s.blocks[s.last] && (forall h :: h in left ==> h in s.blocks)
            && (Heeded(r, s.blocks, relayed) ==>
                  (relayed.blockHash in s.blocks <==> relayed.blockHash in left)
                  && Known(r.facts, left[relayed.blockHash := AtHeight(s.blocks, relayed)]))
  {
    NoneLost(r.facts, s.blocks, s.last);
    if relayed.prevBlock in s.blocks {
      GenuineAtHeight(r.facts, s.blocks, relayed);
      hide Checked, Rooted, Skipped;
      CheckedKeeps(r.facts, s.blocks, s.last, AtHeight(s.blocks, relayed));
    }
  }

  // Storing a fork block: nothing changes for the last block, and above it only checkpoints lie.
  lemma ForkStored(f: Facts, blocks: map<BlockHash, Block>, last: BlockHash, b: Block)
    requires Known(f, blocks) && Rooted(f, blocks, last) && Genuine(f, b) && b.height == f.height(b.blockHash)
    requires b.blockHash !in blocks
    ensures var more := blocks[b.blockHash := b];
            && Known(f, more) && Anchored(f, more, last) && more[last] == blocks[last]
            && (f.height(b.blockHash) <= f.height(last) ==> Rooted(f, more, last))
            && (f.height(b.blockHash) > f.height(last) ==>
                  forall h :: h in more ==> f.height(h) <= f.height(b.blockHash) || AtTransition(f, h))
  {
    var t :| Reaches(f, blocks, last, t) && AtTransition(f, t);
    ReachesStill(f, blocks, b, last, t);
    if f.height(b.blockHash) <= f.height(last) {
      RootedStill(f, blocks, last, b, last);
    }
  }

  lemma HigherForkStored(f: Facts, blocks: map<BlockHash, Block>, last: BlockHash, b: Block)
    requires Known(f, blocks) && Rooted(f, blocks, last) && Genuine(f, b) && b.height == f.height(b.blockHash)
    requires b.blockHash !in blocks && b.height > f.height(last)
    ensures var more := blocks[b.blockHash := b];
            && Known(f, more) && last in more
            && (!Apart(f, more, b.blockHash, last) ==> Rooted(f, more, b.blockHash))
  {
    RootedHasLast(f, blocks, last);
    hide Reaches, Rooted, Anchored, AtTransition;
    ForkStored(f, blocks, last, b);
    var more := blocks[b.blockHash := b];
    if !Apart(f, more, b.blockHash, last) {
      var j :| Shared(f, more, b.blockHash, last, j);
      RootedAcross(f, more, b.blockHash, last, j);
    }
  }

  lemma RootedHasLast(f: Facts, blocks: map<BlockHash, Block>, last: BlockHash)
    requires Known(f, blocks) && Rooted(f, blocks, last)
    ensures last in blocks && blocks[last].height == f.height(last)
  {
  }

  // Once a block at a difficulty transition has extended the chain, of the blocks it descends from
  // only those of the last interval and those at transitions are still stored.
  lemma OldBlocksFreed(r: Rules, s: State, a: Arrival, h: BlockHash)
    requires Fit(r.facts, s) && Genuine(r.facts, a.block)
    requires Verdict(r, s, a) == Extended && r.facts.height(a.block.blockHash) % 2016 == 0
    requires Reaches(r.facts, s.blocks, s.last, h) && h in AfterOne(r, s, a).blocks
    ensures r.facts.height(h) + 2016 >= r.facts.height(a.block.blockHash) || r.facts.height(h) % 2016 == 0
  {
    hide Reaches, Rooted, AllWaiting, Back;
    LeftFits(r, s, a.block);
    ReachesDown(r.facts, s.blocks, s.last, h);
  }

  lemma OneMoreWaiting(f: Facts, orphans: map<BlockHash, Block>, b: Block, out: set<BlockHash>)
    requires AllWaiting(f, orphans) && Genuine(f, b)
    ensures AllWaiting(f, orphans[b.prevBlock := b]) && AllWaiting(f, orphans[b.prevBlock := b] - out)
    ensures AllWaiting(f, orphans - out)
  {
  }

  // What a verdict does to the stored blocks and the last block.
  lemma StoringKeeps(r: Rules, s: State, a: Arrival)
    requires Fit(r.facts, s) && Genuine(r.facts, a.block)
    ensures var f, v, b, left := r.facts, Verdict(r, s, a), AtHeight(s.blocks, a.block), Left(r, s, a.block);
            var blocks := if v.Stored() then left[b.blockHash := b] else left;
            var last := if v == Extended || v == Reorganized then b.blockHash else s.last;
            && Known(f, blocks) && last in blocks && (v != NoJoin ==> Rooted(f, blocks, last))
            && OnlyOldLost(f, s.blocks, blocks, s.last) && (last == s.last || f.height(last) > f.height(s.last))
            && (v == Reorganized ==> !Apart(f, blocks, b.blockHash, s.last))
  {
    LeftFits(r, s, a.block);
    var f, v, b, left := r.facts, Verdict(r, s, a), AtHeight(s.blocks, a.block), Left(r, s, a.block);
    hide Rooted, Skipped, Verified, Checked, Reaches, RunsOff, Apart, Genuine, AllWaiting, AtTransition, IsOld, Left;
    RootedHasLast(f, s.blocks, s.last);
    if v == Extended {
      FollowerHigher(f, b);
      RootedStill(f, left, s.last, b, b.blockHash);
    } else if v == Repeated {
      RootedStill(f, left, s.last, b, s.last);
    } else if v == SideChain {
      ForkStored(f, left, s.last, b);
    } else if v == Reorganized || v == NoJoin {
      HigherForkStored(f, left, s.last, b);
    }
  }

  lemma AfterOneKeeps(r: Rules, s: State, a: Arrival)
    requires Fit(r.facts, s) && Genuine(r.facts, a.block)
    ensures var t := AfterOne(r, s, a);
            && Known(r.facts, t.blocks) && t.last in t.blocks && AllWaiting(r.facts, t.orphans)
            && (Verdict(r, s, a) != NoJoin ==> Fit(r.facts, t))
            && OnlyOldLost(r.facts, s.blocks, t.blocks, s.last)
            && (t.last == s.last || r.facts.height(t.last) > r.facts.height(s.last))
            && (Verdict(r, s, a) == Reorganized ==> !Apart(r.facts, t.blocks, a.block.blockHash, s.last))
  {
    hide Known, Rooted, Verdict, Left, Apart, Genuine, AllWaiting, OnlyOldLost, StillPublished, GoesOn, Skipped;
    hide Checked;
    StoringKeeps(r, s, a);
    LeftFits(r, s, a.block);
    OneMoreWaiting(r.facts, s.orphans, AtHeight(s.blocks, a.block), {a.block.blockHash});
  }

  lemma FollowerHigher(f: Facts, b: Block)
    requires Genuine(f, b)
    ensures f.height(b.blockHash) == f.height(b.prevBlock) + 1
  {
  }

  // ----- the join of a re-organisation -----

  // The first block on the way down from x that y reaches.
  ghost function JoinOf(f: Facts, blocks: map<BlockHash, Block>, x: BlockHash, y: BlockHash): BlockHash
    requires Known(f, blocks) && !Apart(f, blocks, x, y)
    decreases f.height(x)
  {
    if Reaches(f, blocks, y, x) then x
    else
      SharedBelow(f, blocks, x, y);
      JoinOf(f, blocks, blocks[x].prevBlock, y)
  }

  lemma SharedBelow(f: Facts, blocks: map<BlockHash, Block>, x: BlockHash, y: BlockHash)
    requires Known(f, blocks) && !Apart(f, blocks, x, y) && !Reaches(f, blocks, y, x)
    ensures x in blocks && blocks[x].prevBlock in blocks && !Apart(f, blocks, blocks[x].prevBlock, y)
    ensures f.height(blocks[x].prevBlock) < f.height(x)
  {
    var c :| Shared(f, blocks, x, y, c);
    assert Shared(f, blocks, blocks[x].prevBlock, y, c);
  }

  lemma {:induction false} JoinOfIs(f: Facts, blocks: map<BlockHash, Block>, x: BlockHash, y: BlockHash)
    requires Known(f, blocks) && !Apart(f, blocks, x, y)
    ensures IsJoin(f, blocks, x, y, JoinOf(f, blocks, x, y))
    ensures forall j :: IsJoin(f, blocks, x, y, j) ==> j == JoinOf(f, blocks, x, y)
    decreases f.height(x)
  {
    var k := JoinOf(f, blocks, x, y);
    if Reaches(f, blocks, y, x) {
      assert Reaches(f, blocks, x, x) by {
        ReachesDown(f, blocks, y, x);
      }
      forall c | Reaches(f, blocks, x, c) ensures f.height(c) <= f.height(x) {
        ReachesDown(f, blocks, x, c);
      }
    } else {
      SharedBelow(f, blocks, x, y);
      JoinOfIs(f, blocks, blocks[x].prevBlock, y);
    }
    forall j | IsJoin(f, blocks, x, y, j) ensures j == k {
      OneJoin(f, blocks, x, y, j, k);
    }
  }

  lemma OneJoin(f: Facts, blocks: map<BlockHash, Block>, x: BlockHash, y: BlockHash, j: BlockHash, k: BlockHash)
    requires Known(f, blocks) && IsJoin(f, blocks, x, y, j) && IsJoin(f, blocks, x, y, k)
    ensures j == k
  {
    ReachesBetween(f, blocks, x, j, k);
    ReachesDown(f, blocks, j, k);
  }

  // ----- a block, the orphan it connects, and so on -----

  // The orphans that wait above a height.
  ghost function Waiting(f: Facts, orphans: map<BlockHash, Block>, height: nat): set<BlockHash> {
    set p | p in orphans && f.height(orphans[p].blockHash) > height
  }

  lemma FewerOrphans(f: Facts, was: map<BlockHash, Block>, left: map<BlockHash, Block>, b: Block, next: Block)
    requires b.blockHash in was && was[b.blockHash] == next && next.prevBlock == b.blockHash
    requires Genuine(f, next)
    requires b.blockHash !in left
    requires forall p :: p in left ==> (p in was && was[p] == left[p]) || left[p].blockHash == b.blockHash
    ensures |Waiting(f, left, f.height(next.blockHash))| < |Waiting(f, was, f.height(b.blockHash))|
  {
    assert b.blockHash in Waiting(f, was, f.height(b.blockHash));
    assert Waiting(f, left, f.height(next.blockHash)) <= Waiting(f, was, f.height(b.blockHash)) - {b.blockHash};
    SmallerSet(Waiting(f, left, f.height(next.blockHash)), Waiting(f, was, f.height(b.blockHash)));
  }

  lemma NextFits(r: Rules, s: State, a: Arrival)
    requires Fit(r.facts, s) && Genuine(r.facts, a.block) && Next(r, s, a).Some?
    ensures var t, x := AfterOne(r, s, a), Next(r, s, a).value;
            && Fit(r.facts, t) && Genuine(r.facts, x.block) && x.block.prevBlock == a.block.blockHash
            && x == Arrival(s.orphans[a.block.blockHash], a.peerLast, a.now) && a.block.blockHash !in t.orphans
            && |Waiting(r.facts, t.orphans, r.facts.height(x.block.blockHash))|
               < |Waiting(r.facts, s.orphans, r.facts.height(a.block.blockHash))|
  {
    hide Rooted, Known, Verdict, StillPublished, Left, Waiting;
    AfterOneKeeps(r, s, a);
    NotItsOwnParent(r.facts, a.block);
    FewerOrphans(r.facts, s.orphans, AfterOne(r, s, a).orphans, a.block, s.orphans[a.block.blockHash]);
  }

  // A block that is looked at, and the state in which it is.
  datatype Treated = Treated(before: State, arrival: Arrival)

  // The relayed block, the orphan taken out when that has been handled, and so on.
  ghost function Trace(r: Rules, s: State, a: Arrival): (steps: seq<Treated>)
    requires Fit(r.facts, s) && Genuine(r.facts, a.block)
    ensures |steps| > 0 && steps[0] == Treated(s, a)
    ensures forall k :: 0 <= k < |steps| ==> Fit(r.facts, steps[k].before) && Genuine(r.facts, steps[k].arrival.block)
    decreases |Waiting(r.facts, s.orphans, r.facts.height(a.block.blockHash))|
  {
    if Next(r, s, a).Some? then
      NextFits(r, s, a);
      hide Fit, Genuine, AfterOne, Next;
      [Treated(s, a)] + Trace(r, AfterOne(r, s, a), Next(r, s, a).value)
    else [Treated(s, a)]
  }

  // The state after a relay, and what became of the last block looked at.
  ghost function Relay(r: Rules, s: State, a: Arrival): State
    requires Fit(r.facts, s) && Genuine(r.facts, a.block)
  {
    var steps := Trace(r, s, a);
    AfterOne(r, steps[|steps| - 1].before, steps[|steps| - 1].arrival)
  }

  ghost function LastVerdict(r: Rules, s: State, a: Arrival): Outcome
    requires Fit(r.facts, s) && Genuine(r.facts, a.block)
  {
    var steps := Trace(r, s, a);
    Verdict(r, steps[|steps| - 1].before, steps[|steps| - 1].arrival)
  }

  ghost function PlacesAfter(r: Rules, s: State, a: Arrival, places: map<TxHash, Place>): map<TxHash, Place>
    requires Fit(r.facts, s) && Genuine(r.facts, a.block)
    decreases |Waiting(r.facts, s.orphans, r.facts.height(a.block.blockHash))|
  {
    var one := PlacesAfterOne(r, s, a, places);
    if Next(r, s, a).Some? then
      NextFits(r, s, a);
      PlacesAfter(r, AfterOne(r, s, a), Next(r, s, a).value, one)
    else one
  }

  lemma RelayNext(r: Rules, s: State, a: Arrival)
    requires Fit(r.facts, s) && Genuine(r.facts, a.block)
    ensures Next(r, s, a).Some? ==>
              var t, x := AfterOne(r, s, a), Next(r, s, a).value;
              && Fit(r.facts, t) && Genuine(r.facts, x.block)
              && Trace(r, s, a) == [Treated(s, a)] + Trace(r, t, x)
              && Relay(r, s, a) == Relay(r, t, x) && LastVerdict(r, s, a) == LastVerdict(r, t, x)
    ensures Next(r, s, a).None? ==>
              && Trace(r, s, a) == [Treated(s, a)]
              && Relay(r, s, a) == AfterOne(r, s, a) && LastVerdict(r, s, a) == Verdict(r, s, a)
  {
    hide AfterOne, Next, Fit, Genuine, Verdict, Waiting;
    if Next(r, s, a).Some? {
      NextFits(r, s, a);
    }
  }

  // ----- what a relay does -----

  // After a block that is handled and stays known, the orphan that waits for it is looked at next;
  // otherwise the relay is over.
  lemma {:induction false} WaiterIsNext(r: Rules, s: State, a: Arrival, k: nat)
    requires Fit(r.facts, s) && Genuine(r.facts, a.block) && k < |Trace(r, s, a)|
    ensures var steps := Trace(r, s, a);
            var x := Next(r, steps[k].before, steps[k].arrival);
            if x.Some?
            then k + 1 < |steps| && steps[k + 1] == Treated(AfterOne(r, steps[k].before, steps[k].arrival), x.value)
            else k + 1 == |steps|
    decreases k
  {
    hide AfterOne, Next, Fit, Genuine;
    RelayNext(r, s, a);
    if k > 0 {
      WaiterIsNext(r, AfterOne(r, s, a), Next(r, s, a).value, k - 1);
    }
  }

  // The state stays fit unless the source goes on undefined; the last block changes only for a
  // higher one, and blocks are lost only when they are old.
  lemma {:induction false} RelayKeeps(r: Rules, s: State, a: Arrival)
    requires Fit(r.facts, s) && Genuine(r.facts, a.block)
    ensures var t := Relay(r, s, a);
            && Known(r.facts, t.blocks) && t.last in t.blocks && AllWaiting(r.facts, t.orphans)
            && (!LastVerdict(r, s, a).Undefined() ==> Fit(r.facts, t))
            && OnlyOldLost(r.facts, s.blocks, t.blocks, t.last)
            && (t.last == s.last || r.facts.height(t.last) > r.facts.height(s.last))
            && t.estimated >= s.estimated
    decreases |Waiting(r.facts, s.orphans, r.facts.height(a.block.blockHash))|
  {
    var f, one := r.facts, AfterOne(r, s, a);
    AfterOneKeeps(r, s, a);
    RelayNext(r, s, a);
    var t := Relay(r, s, a);
    assert one.estimated >= s.estimated;
    hide Verdict, AfterOne, Known, AllWaiting, Rooted, OnlyOldLost, Trace, Relay, LastVerdict, Genuine;
    if Next(r, s, a).Some? {
      NextFits(r, s, a);
      RelayKeeps(r, one, Next(r, s, a).value);
    } else {
      NoneLost(f, one.blocks, one.last);
    }
    OldLostThen(f, s.blocks, one.blocks, t.blocks, s.last, one.last, t.last);
  }

  // No block of the relay for which it went on to look for an orphan is higher than n.
  ghost predicate NoneAbove(r: Rules, steps: seq<Treated>, n: nat)
    requires forall k :: 0 <= k < |steps| ==> Fit(r.facts, steps[k].before) && Genuine(r.facts, steps[k].arrival.block)
  {
    forall k :: 0 <= k < |steps| && GoesOn(r, steps[k].before, steps[k].arrival) ==>
                  AtHeight(steps[k].before.blocks, steps[k].arrival.block).height <= n
  }

  // The estimated height becomes the greatest of the one before and the heights of these blocks.
  lemma {:induction false} EstimateIs(r: Rules, s: State, a: Arrival, n: nat)
    requires Fit(r.facts, s) && Genuine(r.facts, a.block)
    ensures n >= Relay(r, s, a).estimated <==> n >= s.estimated && NoneAbove(r, Trace(r, s, a), n)
    decreases |Waiting(r.facts, s.orphans, r.facts.height(a.block.blockHash))|
  {
    hide Verdict, AfterOne, Fit, Genuine, GoesOn, Next, Trace, Relay, LastVerdict, Waiting;
    RelayNext(r, s, a);
    EstimateAfterOne(r, s, a, n);
    if Next(r, s, a).Some? {
      NextFits(r, s, a);
      var t, x := AfterOne(r, s, a), Next(r, s, a).value;
      EstimateIs(r, t, x, n);
      var rest := Trace(r, t, x);
      assert forall k :: 0 <= k < |rest| ==> Trace(r, s, a)[k + 1] == rest[k];
    }
  }

  lemma EstimateAfterOne(r: Rules, s: State, a: Arrival, n: nat)
    requires Fit(r.facts, s) && Genuine(r.facts, a.block)
    ensures n >= AfterOne(r, s, a).estimated <==>
            n >= s.estimated && (GoesOn(r, s, a) ==> AtHeight(s.blocks, a.block).height <= n)
  {
    hide Fit, Genuine, Verdict, StillPublished, Left, GoesOn;
  }

  // The transaction is recorded at the height of a block of the relay that extended the chain or was
  // on it already.
  ghost predicate Recorded(r: Rules, steps: seq<Treated>, t: TxHash)
    requires forall k :: 0 <= k < |steps| ==> Fit(r.facts, steps[k].before) && Genuine(r.facts, steps[k].arrival.block)
  {
    exists k :: 0 <= k < |steps| && RecordedBy(r, steps[k].before, steps[k].arrival, t)
  }

  ghost predicate RecordedBy(r: Rules, s: State, a: Arrival, t: TxHash)
    requires Fit(r.facts, s) && Genuine(r.facts, a.block)
  {
    LeftFits(r, s, a.block);
    t in a.block.txHashes && Confirms(r.facts, Verdict(r, s, a), Left(r, s, a.block), s.last, a.block.blockHash)
  }

  // Exactly these leave the publish list.
  lemma {:induction false} PublishedAre(r: Rules, s: State, a: Arrival, t: TxHash)
    requires Fit(r.facts, s) && Genuine(r.facts, a.block)
    ensures t in Relay(r, s, a).published <==> t in s.published && !Recorded(r, Trace(r, s, a), t)
    decreases |Waiting(r.facts, s.orphans, r.facts.height(a.block.blockHash))|
  {
    hide Verdict, AfterOne, Fit, Genuine, RecordedBy, Next, Trace, Relay, LastVerdict, Waiting;
    RelayNext(r, s, a);
    PublishedAfterOne(r, s, a, t);
    if Next(r, s, a).Some? {
      NextFits(r, s, a);
      var one, x := AfterOne(r, s, a), Next(r, s, a).value;
      PublishedAre(r, one, x, t);
      var rest := Trace(r, one, x);
      assert forall k :: 0 <= k < |rest| ==> Trace(r, s, a)[k + 1] == rest[k];
    }
  }

  lemma PublishedAfterOne(r: Rules, s: State, a: Arrival, t: TxHash)
    requires Fit(r.facts, s) && Genuine(r.facts, a.block)
    ensures t in AfterOne(r, s, a).published <==> t in s.published && !RecordedBy(r, s, a, t)
  {
    hide Fit, Genuine, Verdict, Confirms, Left;
    WalletOrder.KeepIff(s.published, Members(a.block.txHashes), t);
  }

  // The last block afterwards is the one from before or descends from the relayed block; and it
  // does descend from every block on the way that the chain was extended by or switched to.
  lemma {:induction false} RelayDescends(r: Rules, s: State, a: Arrival)
    requires Fit(r.facts, s) && Genuine(r.facts, a.block)
    ensures Relay(r, s, a).last == s.last || Descends(r.facts, Relay(r, s, a).last, a.block.blockHash)
    ensures forall k :: 0 <= k < |Trace(r, s, a)| ==>
                          var step := Trace(r, s, a)[k];
                          Verdict(r, step.before, step.arrival) in {Extended, Reorganized} ==>
                            Descends(r.facts, Relay(r, s, a).last, step.arrival.block.blockHash)
    decreases |Waiting(r.facts, s.orphans, r.facts.height(a.block.blockHash))|
  {
    hide Verdict, AfterOne, Fit, Genuine, Next, Trace, Relay, LastVerdict, Waiting, Descends;
    var f, one, t := r.facts, AfterOne(r, s, a), Relay(r, s, a);
    RelayNext(r, s, a);
    LastAfterOne(r, s, a);
    DescendsFromItself(f, one.last);
    if Next(r, s, a).Some? {
      NextFits(r, s, a);
      var x := Next(r, s, a).value;
      RelayDescends(r, one, x);
      if Descends(f, t.last, x.block.blockHash) {
        ParentDescends(f, t.last, x.block);
      }
    }
  }

  lemma LastAfterOne(r: Rules, s: State, a: Arrival)
    requires Fit(r.facts, s) && Genuine(r.facts, a.block)
    ensures AfterOne(r, s, a).last == if Verdict(r, s, a) in {Extended, Reorganized} then a.block.blockHash else s.last
  {
    hide Fit, Genuine, Verdict, StillPublished, Left;
  }

  lemma DescendsFromItself(f: Facts, h: BlockHash)
    ensures Descends(f, h, h)
  {
  }

  lemma NoneWaitsAfterOne(r: Rules, s: State, a: Arrival)
    requires Fit(r.facts, s) && Genuine(r.facts, a.block) && s.last !in s.orphans
    ensures AfterOne(r, s, a).last !in AfterOne(r, s, a).orphans
  {
    LeftFits(r, s, a.block);
    hide Genuine, Rooted, Skipped, Verified, Checked, RunsOff, Apart, StillPublished, Known, AllWaiting;
  }

  // If no orphan waits for the last block, none waits for the one that is last afterwards.
  lemma {:induction false} NoneWaitsForLast(r: Rules, s: State, a: Arrival)
    requires Fit(r.facts, s) && Genuine(r.facts, a.block) && s.last !in s.orphans
    ensures Relay(r, s, a).last !in Relay(r, s, a).orphans
    decreases |Waiting(r.facts, s.orphans, r.facts.height(a.block.blockHash))|
  {
    hide Fit, Genuine, AfterOne, Next, Trace, Relay, LastVerdict, Waiting;
    RelayNext(r, s, a);
    NoneWaitsAfterOne(r, s, a);
    if Next(r, s, a).Some? {
      NextFits(r, s, a);
      NoneWaitsForLast(r, AfterOne(r, s, a), Next(r, s, a).value);
    }
  }

  lemma ParentDescends(f: Facts, x: BlockHash, b: Block)
    requires Genuine(f, b) && Descends(f, x, b.blockHash)
    ensures Descends(f, x, b.prevBlock)
  {
    assert Descends(f, b.prevBlock, b.prevBlock);
    assert Descends(f, b.blockHash, b.prevBlock);
    DescendsOn(f, x, b.blockHash, b.prevBlock);
  }

  // The named reasons for which a block is not stored and does not wait.
  ghost predicate Refused(r: Rules, s: State, a: Arrival)
    requires Known(r.facts, s.blocks)
  {
    var b := AtHeight(s.blocks, a.block);
    || Skipped(r, a.block)
    || (a.block.prevBlock !in s.blocks && (a.block.timestamp + WEEK) % W32 < a.now)
    || (a.block.prevBlock in s.blocks && !Verified(r, s.blocks, b))
    || (a.block.prevBlock in s.blocks && b.prevBlock != s.last && b.height <= r.checkpointHeight)
  }

  lemma StoredOrRefused(r: Rules, s: State, a: Arrival)
    requires Fit(r.facts, s) && Genuine(r.facts, a.block)
    ensures var t := AfterOne(r, s, a);
            || a.block.blockHash in t.blocks
            || (a.block.prevBlock in t.orphans && t.orphans[a.block.prevBlock].blockHash == a.block.blockHash)
            || Refused(r, s, a)
  {
    LeftFits(r, s, a.block);
    NotItsOwnParent(r.facts, a.block);
    hide Rooted, Known, Skipped, Verified, Checked, RunsOff, Apart, Genuine;
  }

  // At this step the orphan that waited for p is looked at, and then it is stored, unless it is old,
  // or was refused; or a block is set aside to wait for p.
  ghost predicate Met(r: Rules, t: State, step: Treated, p: BlockHash, orphan: Block)
    requires Fit(r.facts, step.before) && Genuine(r.facts, step.arrival.block)
  {
    && step.arrival.block.prevBlock == p
    && (|| Verdict(r, step.before, step.arrival).SetAside()
        || (step.arrival.block == orphan
            && (|| orphan.blockHash in t.blocks
                || IsOld(r.facts, orphan.blockHash, t.last)
                || Refused(r, step.before, step.arrival))))
  }

  // An orphan stays where it is, if the block it waits for has not just been stored, or is met on the way.
  ghost predicate Accounted(r: Rules, s: State, a: Arrival, p: BlockHash)
    requires Fit(r.facts, s) && Genuine(r.facts, a.block) && p in s.orphans
  {
    var t, steps := Relay(r, s, a), Trace(r, s, a);
    || (p in t.orphans && t.orphans[p] == s.orphans[p]
        && (p in t.blocks && !LastVerdict(r, s, a).Undefined() ==> p in s.blocks))
    || exists k :: 0 <= k < |steps| && Met(r, t, steps[k], p, s.orphans[p])
  }

  lemma StoredStays(r: Rules, s: State, a: Arrival, h: BlockHash)
    requires Fit(r.facts, s) && Genuine(r.facts, a.block) && h in AfterOne(r, s, a).blocks
    ensures h in Relay(r, s, a).blocks || IsOld(r.facts, h, Relay(r, s, a).last)
  {
    RelayNext(r, s, a);
    hide AfterOne, Relay, Fit, IsOld;
    if Next(r, s, a).Some? {
      RelayKeeps(r, AfterOne(r, s, a), Next(r, s, a).value);
    }
  }

  // The orphan taken out is looked at right after the block it waited for.
  lemma TakenOut(r: Rules, s: State, a: Arrival)
    requires Fit(r.facts, s) && Genuine(r.facts, a.block) && Next(r, s, a).Some?
    ensures a.block.blockHash in s.orphans && Accounted(r, s, a, a.block.blockHash)
  {
    hide Verdict, Fit, Genuine, Trace, Relay, Refused, IsOld, Waiting, GoesOn, StillPublished, Left;
    var one, x, p := AfterOne(r, s, a), Next(r, s, a).value, a.block.blockHash;
    RelayNext(r, s, a);
    NextFits(r, s, a);
    var steps := Trace(r, s, a);
    assert |steps| > 1 && steps[1] == Treated(one, x) && x.block == s.orphans[p] && p !in one.orphans;
    StoredOrRefused(r, one, x);
    assert p in AfterOne(r, one, x).orphans ==> Verdict(r, one, x).SetAside();
    if x.block.blockHash in AfterOne(r, one, x).blocks {
      StoredStays(r, one, x, x.block.blockHash);
    }
    assert Met(r, Relay(r, s, a), steps[1], p, s.orphans[p]);
  }

  lemma AccountedBefore(r: Rules, s: State, a: Arrival, p: BlockHash)
    requires Fit(r.facts, s) && Genuine(r.facts, a.block) && Next(r, s, a).Some?
    requires Fit(r.facts, AfterOne(r, s, a)) && Genuine(r.facts, Next(r, s, a).value.block)
    requires p in s.orphans && p in AfterOne(r, s, a).orphans && AfterOne(r, s, a).orphans[p] == s.orphans[p]
    requires p in AfterOne(r, s, a).blocks ==> p in s.blocks
    requires Accounted(r, AfterOne(r, s, a), Next(r, s, a).value, p)
    ensures Accounted(r, s, a, p)
  {
    var one, x := AfterOne(r, s, a), Next(r, s, a).value;
    RelayNext(r, s, a);
    hide Verdict, AfterOne, Fit, Genuine, Met, Next, Relay, Trace;
    var t, steps := Relay(r, s, a), Trace(r, one, x);
    if k :| 0 <= k < |steps| && Met(r, t, steps[k], p, s.orphans[p]) {
      assert Trace(r, s, a)[k + 1] == steps[k];
    }
  }

  // The only block newly stored is the one looked at, and an orphan is then looked for.
  lemma NewlyStored(r: Rules, s: State, a: Arrival, h: BlockHash)
    requires Fit(r.facts, s) && Genuine(r.facts, a.block) && h in AfterOne(r, s, a).blocks && h !in s.blocks
    ensures h == a.block.blockHash && (GoesOn(r, s, a) || Verdict(r, s, a).Undefined())
  {
    hide Genuine, Rooted, Skipped, Verified, Checked, RunsOff, Apart, StillPublished;
    LeftFits(r, s, a.block);
  }

  lemma {:induction false} OrphanFate(r: Rules, s: State, a: Arrival, p: BlockHash)
    requires Fit(r.facts, s) && Genuine(r.facts, a.block) && p in s.orphans
    ensures Accounted(r, s, a, p)
    decreases |Waiting(r.facts, s.orphans, r.facts.height(a.block.blockHash))|
  {
    hide Verdict, Fit, Genuine, Relay, Trace, Waiting, GoesOn, StillPublished, Left, Refused, IsOld;
    var one, steps := AfterOne(r, s, a), Trace(r, s, a);
    RelayNext(r, s, a);
    if p in one.blocks && p !in s.blocks {
      NewlyStored(r, s, a, p);
    }
    if Verdict(r, s, a).SetAside() && a.block.prevBlock == p {
      assert Met(r, Relay(r, s, a), steps[0], p, s.orphans[p]);
    } else if Next(r, s, a).Some? {
      NextFits(r, s, a);
      if p == a.block.blockHash {
        TakenOut(r, s, a);
      } else {
        assert p in one.orphans && one.orphans[p] == s.orphans[p];
        OrphanFate(r, one, Next(r, s, a).value, p);
        AccountedBefore(r, s, a, p);
      }
    }
  }

  // The block is heeded, verified and follows the last one.
  ghost predicate Continues(r: Rules, s: State, b: Block)
    requires Known(r.facts, s.blocks)
  {
    Heeded(r, s.blocks, b) && Verified(r, s.blocks, AtHeight(s.blocks, b)) && b.prevBlock == s.last
  }

  // All this together. If the block continues the chain, the last block afterwards descends
  // from it.
  lemma RelayDoes(r: Rules, s: State, a: Arrival)
    requires Fit(r.facts, s) && Genuine(r.facts, a.block)
    ensures var f, t := r.facts, Relay(r, s, a);
            && OnlyOldLost(f, s.blocks, t.blocks, t.last) && t.estimated >= s.estimated
            && (t.last == s.last || (f.height(t.last) > f.height(s.last) && Descends(f, t.last, a.block.blockHash)))
            && (Continues(r, s, a.block) ==> Descends(f, t.last, a.block.blockHash))
            && (s.last !in s.orphans ==> t.last !in t.orphans)
            && forall p :: p in s.orphans ==> Accounted(r, s, a, p)
  {
    RelayKeeps(r, s, a);
    RelayDescends(r, s, a);
    if Continues(r, s, a.block) {
      assert Verdict(r, s, a) == Extended && Trace(r, s, a)[0] == Treated(s, a);
    }
    hide Fit, Genuine, Relay, Verdict, Accounted, Trace, Continues, OnlyOldLost;
    if s.last !in s.orphans {
      NoneWaitsForLast(r, s, a);
    }
    forall p | p in s.orphans ensures Accounted(r, s, a, p) {
      OrphanFate(r, s, a, p);
    }
  }

  lemma PlacesNext(r: Rules, s: State, a: Arrival, places: map<TxHash, Place>)
    requires Fit(r.facts, s) && Genuine(r.facts, a.block)
    ensures Next(r, s, a).Some? ==>
              && Fit(r.facts, AfterOne(r, s, a)) && Genuine(r.facts, Next(r, s, a).value.block)
              && PlacesAfter(r, s, a, places)
                 == PlacesAfter(r, AfterOne(r, s, a), Next(r, s, a).value, PlacesAfterOne(r, s, a, places))
    ensures Next(r, s, a).None? ==> PlacesAfter(r, s, a, places) == PlacesAfterOne(r, s, a, places)
  {
    hide Fit, Genuine, AfterOne, Next, Waiting, PlacesAfterOne;
    if Next(r, s, a).Some? {
      NextFits(r, s, a);
    }
  }

  lemma {:induction false} PlacesKeep(r: Rules, s: State, a: Arrival, places: map<TxHash, Place>)
    requires Fit(r.facts, s) && Genuine(r.facts, a.block)
    ensures PlacesAfter(r, s, a, places).Keys == places.Keys
    decreases |Waiting(r.facts, s.orphans, r.facts.height(a.block.blockHash))|
  {
    hide Fit, Genuine, Verdict, Left, AfterOne, Next, Waiting;
    if Next(r, s, a).Some? {
      NextFits(r, s, a);
      PlacesKeep(r, AfterOne(r, s, a), Next(r, s, a).value, PlacesAfterOne(r, s, a, places));
    }
  }
}
