// The peer manager's handling of relayed blocks: extending the chain, side chains, re-organising,
// and the orphans that become connected.
module PeerChain {
  import opened Common
  import opened Chain
  import opened Pruning
  import opened PeerStart
  import opened Reorg
  import opened Relaying
  import Ledger
  import WalletOrder
  import WalletSteps
  import opened WalletState

  lemma JustifiedExtended(f: Facts, last: BlockHash, floor: nat, b: Block, time: nat,
                          places: map<TxHash, Place>)
    requires AllJustified(f, last, floor, places)
    requires Genuine(f, b) && b.height == f.height(b.blockHash) && b.prevBlock == last
    ensures AllJustified(f, b.blockHash, floor, Written(places, Members(b.txHashes), Place(b.height, time)))
  {
    JustifiedAfterBlock(f, last, floor, b, b.blockHash, places, time);
  }

  lemma JustifiedRepeated(f: Facts, blocks: map<BlockHash, Block>, last: BlockHash, floor: nat, b: Block,
                          time: nat, places: map<TxHash, Place>)
    requires Known(f, blocks) && AllJustified(f, last, floor, places)
    requires Genuine(f, b) && b.height == f.height(b.blockHash)
    ensures Reaches(f, blocks, last, b.blockHash) ==>
              AllJustified(f, last, floor, Written(places, Members(b.txHashes), Place(b.height, time)))
  {
    if Reaches(f, blocks, last, b.blockHash) {
      ReachesDescends(f, blocks, last, b.blockHash);
      JustifiedAfterBlock(f, last, floor, b, last, places, time);
    }
  }

  ghost function PlacesOf(allTx: map<TxHash, Ledger.Tx>, hs: seq<TxHash>): map<TxHash, Place> {
    map t | t in hs && t in allTx :: PlaceOf(allTx[t])
  }

  // A new transaction adds its place when it is listed, and nothing when it is only stored.
  lemma PlacesWith(was: map<TxHash, Ledger.Tx>, hs: seq<TxHash>, p: nat, tx: Ledger.Tx)
    requires p <= |hs| && WalletOrder.AllStored(was, hs) && tx.txHash !in was
    ensures PlacesOf(was[tx.txHash := tx], WalletOrder.With(hs, p, tx.txHash))
            == PlacesOf(was, hs)[tx.txHash := PlaceOf(tx)]
    ensures PlacesOf(was[tx.txHash := tx], hs) == PlacesOf(was, hs)
  {
    hide WalletOrder.With;
    WalletSteps.WithMembers(hs, p, tx.txHash);
  }

  // What removing a set leaves of the listed places, and of the list.
  lemma PlacesLeft(allTx: map<TxHash, Ledger.Tx>, hs: seq<TxHash>, addrs: set<string>, rank: TxHash -> nat,
                    gone: set<TxHash>)
    requires WalletOrder.ListOk(allTx, hs, addrs, rank)
    requires WalletOrder.Arranged(allTx - gone, WalletOrder.Keep(hs, gone), addrs, rank)
    ensures var left := PlacesOf(allTx - gone, WalletOrder.Keep(hs, gone));
            && left.Keys == PlacesOf(allTx, hs).Keys - gone
            && forall t :: t in left ==> left[t] == PlacesOf(allTx, hs)[t]
    ensures WalletOrder.FullyClosed(allTx, Members(hs), gone) ==>
              WalletOrder.ListOk(allTx - gone, WalletOrder.Keep(hs, gone), addrs, rank)
  {
    hide WalletOrder.ListOk, WalletOrder.Arranged, WalletOrder.Keep, WalletOrder.FullyClosed;
    forall h ensures h in WalletOrder.Keep(hs, gone) <==> h in hs && h !in gone {
      WalletOrder.KeepIff(hs, gone, h);
    }
    if WalletOrder.FullyClosed(allTx, Members(hs), gone) {
      WalletSteps.RemainsContained(allTx, hs, addrs, rank, gone);
    }
  }

  lemma FewerJustified(f: Facts, last: BlockHash, floor: nat, places: map<TxHash, Place>, left: map<TxHash, Place>)
    requires AllJustified(f, last, floor, places)
    requires forall t :: t in left ==> t in places && left[t] == places[t]
    ensures AllJustified(f, last, floor, left)
  {
  }

  class PeerManager {
    ghost const facts: Facts
    ghost const floor: nat
    const wallet: Wallet
    const checkpoints: map<nat, BlockHash>
    const checkpointHeight: nat
    const earliestKeyTime: nat
    const difficultyOk: (Block, map<BlockHash, Block>) -> bool
    var blocks: map<BlockHash, Block>
    var orphans: map<BlockHash, Block>
    var lastBlock: BlockHash
    var estimatedHeight: nat
    var publishedTx: seq<TxHash>
    var filterReady: bool

    // Starts from the checkpoints and the saved blocks. What the wallet holds from before is
    // justified by the floor.
    constructor (ghost facts: Facts, ghost floor: nat, wallet: Wallet, checkpoints: seq<Checkpoint>,
                 earliestKeyTime: nat, difficultyOk: (Block, map<BlockHash, Block>) -> bool, saved: seq<Block>)
      requires wallet.Valid() && |checkpoints| > 0
      requires forall c :: c in checkpoints ==> TrueCheckpoint(facts, c)
      requires forall b :: b in saved ==> Rightly(facts, b.blockHash, b)
      ensures Valid() && this.facts == facts && this.floor == floor && this.wallet == wallet
      ensures this.checkpoints == ByHeight(checkpoints) && checkpointHeight == checkpoints[|checkpoints| - 1].height
      ensures this.earliestKeyTime == earliestKeyTime && this.difficultyOk == difficultyOk
      ensures publishedTx == [] && estimatedHeight == 0 && !filterReady
      ensures OldHeights(floor, Places()) ==> WalletJustified()
      ensures Started(facts, checkpoints, earliestKeyTime, saved, blocks, orphans, lastBlock)
    {
      hide Rightly, Rooted, Reaches, Known, AllWaiting, Started, AllJustified, OldHeights, ByHeight, TrueCheckpoint;
      hide WalletOrder.ListOk, WalletOrder.BooksFit, Places;
      var stored, waiting, last := StoreBlocks(checkpoints, earliestKeyTime, saved, facts);
      this.facts, this.floor, this.wallet := facts, floor, wallet;
      this.checkpoints, checkpointHeight := ByHeight(checkpoints), checkpoints[|checkpoints| - 1].height;
      this.earliestKeyTime, this.difficultyOk := earliestKeyTime, difficultyOk;
      blocks, orphans, lastBlock := stored, waiting, last;
      publishedTx, estimatedHeight, filterReady := [], 0, false;
      new;
      OldHeightsJustified(facts, lastBlock, floor, Places());
    }

    // The filter is replaced: until the new one is loaded, blocks are not looked at.
    method SetFilter(ready: bool)
      modifies `filterReady
      ensures filterReady == ready
    {
      filterReady := ready;
    }

    // What handling a block reads and does not change, and what it works on.
    ghost function RulesNow(): Rules
      reads this
    {
      Rules(facts, checkpoints, checkpointHeight, earliestKeyTime, difficultyOk, filterReady)
    }

    ghost function Now(): State
      reads this
    {
      State(blocks, orphans, lastBlock, estimatedHeight, publishedTx)
    }

    ghost predicate Stocked()
      reads this, wallet
    {
      wallet.Valid() && Known(facts, blocks) && lastBlock in blocks && AllWaiting(facts, orphans)
    }

    ghost predicate Valid()
      reads this, wallet
    {
      Stocked() && Rooted(facts, blocks, lastBlock)
    }

    // Where the wallet has each transaction it lists.
    ghost function Places(): map<TxHash, Place>
      reads wallet
    {
      PlacesOf(wallet.allTx, wallet.transactions)
    }

    // Every wallet transaction has a height that the current chain justifies.
    ghost predicate WalletJustified()
      reads this, wallet
    {
      AllJustified(facts, lastBlock, floor, Places())
    }

    // Confirmed transactions leave the publish list; the wallet records their place.
    method UpdateTx(txHashes: seq<TxHash>, height: nat, time: nat, now: int)
      requires wallet.Valid() && height <= Ledger.TX_UNCONFIRMED
      modifies `publishedTx, wallet
      ensures wallet.Valid()
      ensures Places() == Written(old(Places()), Members(txHashes), Place(height, time))
      ensures publishedTx == if height != Ledger.TX_UNCONFIRMED
                             then WalletOrder.Keep(old(publishedTx), Members(txHashes))
                             else old(publishedTx)
    {
      hide WalletOrder.ListOk, WalletOrder.BooksFit;
      if height != Ledger.TX_UNCONFIRMED {
        var i := 0;
        WalletOrder.KeepAll(publishedTx, Members(txHashes[..0]));
        while i < |txHashes|
          modifies `publishedTx
          invariant 0 <= i <= |txHashes|
          invariant publishedTx == WalletOrder.Keep(old(publishedTx), Members(txHashes[..i]))
        {
          WalletOrder.KeepTwice(old(publishedTx), Members(txHashes[..i]), {txHashes[i]});
          assert Members(txHashes[..i + 1]) == Members(txHashes[..i]) + {txHashes[i]} by {
            assert txHashes[..i + 1] == txHashes[..i] + [txHashes[i]];
          }
          Unpublish(txHashes[i]);
          i := i + 1;
        }
        assert txHashes[..i] == txHashes;
      }
      WritePlaces(txHashes, height, time, now);
    }

    // LWWalletUpdateTransactions, in terms of listed places.
    method WritePlaces(txHashes: seq<TxHash>, height: nat, time: nat, now: int)
      requires wallet.Valid() && height <= Ledger.TX_UNCONFIRMED
      modifies wallet
      ensures wallet.Valid()
      ensures Places() == Written(old(Places()), Members(txHashes), Place(height, time))
    {
      hide WalletOrder.ListOk, WalletOrder.BooksFit, WalletSteps.Heightened;
      PlacesSet(wallet.allTx, wallet.transactions, wallet.allAddrs, wallet.rank,
                 Members(txHashes), height, time);
      var changed := wallet.UpdateTransactions(txHashes, height, time, now);
    }

    method Unpublish(x: TxHash)
      modifies `publishedTx
      ensures publishedTx == WalletOrder.Keep(old(publishedTx), {x})
    {
      ghost var hs := publishedTx;
      var j := |publishedTx|;
      WalletOrder.KeepAll([], {x});
      while j > 0
        invariant 0 <= j <= |hs|
        invariant publishedTx == hs[..j] + WalletOrder.Keep(hs[j..], {x})
      {
        assert hs[j - 1..][0] == hs[j - 1] && hs[j - 1..][1..] == hs[j..];
        assert hs[..j] == hs[..j - 1] + [hs[j - 1]];
        assert publishedTx[j - 1] == hs[j - 1];
        if publishedTx[j - 1] == x {
          assert publishedTx[..j - 1] + publishedTx[j..] == hs[..j - 1] + WalletOrder.Keep(hs[j..], {x});
          publishedTx := publishedTx[..j - 1] + publishedTx[j..];
        }
        j := j - 1;
      }
    }

    // ----- handling a relayed block -----

    // Frees memory: walks down from a block to the end of its stored chain and removes all that are
    // not at a transition.
    method Prune(base: Block)
      requires Known(facts, blocks)
      modifies `blocks
      ensures exists x :: x !in old(blocks) && blocks == Passed(facts, old(blocks), base.prevBlock, x)
    {
      hide IsTransition, Reaches, Known, Passed;
      ghost var was := blocks;
      var b, prevBlock := Some(base), base.prevBlock;
      PassedNone(facts, was, prevBlock);
      if prevBlock in was {
        ReachesItself(facts, was, prevBlock);
      }
      while b.Some?
        invariant blocks == Passed(facts, was, base.prevBlock, prevBlock)
        invariant prevBlock in was ==> Reaches(facts, was, base.prevBlock, prevBlock)
        invariant b.None? ==> prevBlock !in was
        decreases if b.None? then 0 else if prevBlock in was then facts.height(prevBlock) + 2 else 1
      {
        PassedWhere(facts, was, base.prevBlock, prevBlock);
        b := if prevBlock in blocks then Some(blocks[prevBlock]) else None;
        if b.Some? {
          PassedNext(facts, was, base.prevBlock, prevBlock);
          if !IsTransition(b.value) {
            blocks := blocks - {prevBlock};
          }
          prevBlock := b.value.prevBlock;
        }
      }
    }

    method VerifyBlock(block: Block, prev: Block) returns (r: bool)
      requires Known(facts, blocks) && prev.blockHash in blocks && blocks[prev.blockHash] == prev
      modifies `blocks
      ensures r <==> && block.prevBlock == prev.blockHash && block.height == prev.height + 1
                     && Verified(RulesNow(), old(blocks), block)
      ensures blocks == if block.prevBlock == prev.blockHash && block.height == prev.height + 1
                        then Checked(facts, old(blocks), block) else old(blocks)
    {
      hide Pruned, Passed, Reaches;
      ghost var was := blocks;
      r := block.prevBlock == prev.blockHash && block.height == prev.height + 1;
      if r && block.height % BLOCK_DIFFICULTY_INTERVAL == 0 {
        var b := Some(block);
        var i := 0;
        while b.Some? && i < BLOCK_DIFFICULTY_INTERVAL
          modifies {}
          invariant 0 <= i <= BLOCK_DIFFICULTY_INTERVAL
          invariant b == Back(was, block, i)
        {
          b := if b.value.prevBlock in blocks then Some(blocks[b.value.prevBlock]) else None;
          i := i + 1;
        }
        if b.None? {
          BackEnds(was, block, i, BLOCK_DIFFICULTY_INTERVAL);
          r := false;
        } else {
          Prune(b.value);
          ghost var x :| x !in was && blocks == Passed(facts, was, b.value.prevBlock, x);
          PassedAll(facts, was, block, x);
        }
      }
      if r && !difficultyOk(block, blocks) {
        r := false;
      }
      if r && block.height in checkpoints && checkpoints[block.height] != block.blockHash {
        r := false;
      }
    }

    method Extend(block: Block, time: nat, now: int)
      requires Valid() && WalletJustified()
      requires Genuine(facts, block) && block.height == facts.height(block.blockHash) && block.prevBlock == lastBlock
      modifies `blocks, `lastBlock, `publishedTx, wallet
      ensures Valid() && WalletJustified()
      ensures blocks == old(blocks)[block.blockHash := block] && lastBlock == block.blockHash
      ensures Places() == Written(old(Places()), Members(block.txHashes), Place(block.height, time))
      ensures publishedTx == WalletOrder.Keep(old(publishedTx), Members(block.txHashes))
    {
      hide WalletOrder.ListOk, WalletOrder.BooksFit, AllJustified, Reaches, Rooted, Places, Written;
      ghost var last := lastBlock;
      RootedStill(facts, blocks, last, block, block.blockHash);
      JustifiedExtended(facts, last, floor, block, time, Places());
      blocks := blocks[block.blockHash := block];
      lastBlock := block.blockHash;
      if |block.txHashes| > 0 {
        UpdateTx(block.txHashes, block.height, time, now);
      } else {
        NothingToWrite(block, time);
      }
    }

    // Is the block, at its height, on the chain of the last block? No answer if the stored chain ends
    // above the block.
    method OnMainChain(block: Block) returns (on: Option<bool>)
      requires Stocked() && block.blockHash in blocks && block.height == facts.height(block.blockHash)
      ensures on.None? <==> RunsOff(facts, blocks, lastBlock, block.height)
      ensures on.Some? ==> (on.value <==> Reaches(facts, blocks, lastBlock, block.blockHash))
    {
      hide WalletOrder.ListOk, WalletOrder.BooksFit, AllWaiting;
      var b := Some(lastBlock);
      ReachesItself(facts, blocks, lastBlock);
      while b.Some? && blocks[b.value].height > block.height
        invariant b.Some? ==> b.value in blocks && Reaches(facts, blocks, lastBlock, b.value)
        invariant forall a :: Reaches(facts, blocks, lastBlock, a) && facts.height(a) <= block.height ==>
                                b.Some? && Reaches(facts, blocks, b.value, a)
        decreases HeightPlus(facts, b)
      {
        var x := b.value;
        b := Get(blocks, blocks[x].prevBlock);
        if b.Some? {
          ReachesOneFurther(facts, blocks, lastBlock, x);
        }
      }
      if b.Some? && Reaches(facts, blocks, b.value, block.blockHash) {
        ReachesDown(facts, blocks, b.value, block.blockHash);
      }
      on := if b.Some? then Some(b.value == block.blockHash) else None;
    }

    lemma NothingToWrite(block: Block, time: nat)
      requires block.txHashes == []
      ensures Written(Places(), Members(block.txHashes), Place(block.height, time)) == Places()
      ensures WalletOrder.Keep(publishedTx, Members(block.txHashes)) == publishedTx
    {
      hide Places;
      assert Members(block.txHashes) == {};
      WriteNone(Places(), Place(block.height, time));
      WalletOrder.KeepAll(publishedTx, {});
    }

    // A block that is stored already. If it is on the current chain its transactions get its height.
    method Repeat(block: Block, time: nat, now: int) returns (ok: bool)
      requires Valid() && WalletJustified() && block.blockHash in blocks
      requires Genuine(facts, block) && block.height == facts.height(block.blockHash)
      modifies `blocks, `publishedTx, wallet
      ensures Valid() && WalletJustified()
      ensures !ok <==> RunsOff(facts, old(blocks), lastBlock, block.height)
      ensures blocks == if ok then old(blocks)[block.blockHash := block] else old(blocks)
      ensures var on := ok && Reaches(facts, old(blocks), lastBlock, block.blockHash);
              && Places() == (if on then Written(old(Places()), Members(block.txHashes), Place(block.height, time))
                              else old(Places()))
              && publishedTx == (if on then WalletOrder.Keep(old(publishedTx), Members(block.txHashes))
                                 else old(publishedTx))
    {
      hide WalletOrder.ListOk, WalletOrder.BooksFit, AllJustified, Reaches, Rooted, RunsOff, Places, Written;
      RootedStill(facts, blocks, lastBlock, block, lastBlock);
      JustifiedRepeated(facts, blocks, lastBlock, floor, block, time, Places());
      var on := OnMainChain(block);
      if on.None? {
        return false;
      }
      ok := true;
      if on.value {
        if |block.txHashes| > 0 {
          UpdateTx(block.txHashes, block.height, time, now);
        } else {
          NothingToWrite(block, time);
        }
      }
      blocks := blocks[block.blockHash := block];
    }

    // LWWalletSetTxUnconfirmedAfter, in terms of listed places.
    method UnconfirmAbove(height: nat, now: int)
      requires wallet.Valid()
      modifies wallet
      ensures wallet.Valid()
      ensures Places() == Cut(old(Places()), height)
    {
      hide WalletOrder.ListOk, WalletOrder.BooksFit, WalletSteps.Unconfirmed, Ledger.After, Wallet.Account;
      PlacesCut(wallet.allTx, wallet.transactions, wallet.allAddrs, wallet.rank, height);
      var changed := wallet.SetTxUnconfirmedAfter(height, now);
    }

    method RecordBlock(b: Block, time: nat, now: int)
      requires wallet.Valid() && b.height <= Ledger.TX_UNCONFIRMED
      modifies wallet
      ensures wallet.Valid()
      ensures Places() == Written(old(Places()), Members(b.txHashes), Place(b.height, time))
    {
      hide WalletOrder.ListOk, WalletOrder.BooksFit, Places;
      if |b.txHashes| > 0 {
        WritePlaces(b.txHashes, b.height, time, now);
      } else {
        NothingToWrite(b, time);
      }
    }

    // Records each block of a stored chain from its end down to, but not including, j.
    method RecordChain(block: BlockHash, j: BlockHash, now: int)
      requires wallet.Valid() && Known(facts, blocks) && block in blocks && j in blocks
      requires Reaches(facts, blocks, block, j)
      modifies wallet
      ensures wallet.Valid() && Places() == PlacedAll(facts, blocks, block, j, old(Places()))
    {
      hide WalletOrder.ListOk, WalletOrder.BooksFit, Reaches, PlacedAll, Written, Places;
      ghost var before := Places();
      ReachesItself(facts, blocks, block);
      PlacedNone(facts, blocks, block, before);
      var b := Some(block);
      while b.Some? && blocks[b.value].height > blocks[j].height
        invariant b.Some? && b.value in blocks && wallet.Valid()
        invariant Reaches(facts, blocks, block, b.value) && Reaches(facts, blocks, b.value, j)
        invariant Places() == PlacedAll(facts, blocks, block, b.value, before)
        decreases HeightPlus(facts, b)
      {
        var x := blocks[b.value];
        PlacedNext(facts, blocks, block, b.value, j, before);
        b := Get(blocks, x.prevBlock);
        var time := if b.Some? then x.timestamp / 2 + blocks[b.value].timestamp / 2 else x.timestamp;
        RecordBlock(x, time, now);
      }
      ReachesDown(facts, blocks, b.value, j);
    }

    // Switches to the longer chain that ends in block: walks back to where it joins the current
    // one, unconfirms what lies above, and records each block of the new branch.
    method Reorganize(block: BlockHash, now: int) returns (join: Option<BlockHash>)
      requires Stocked() && WalletJustified() && Anchored(facts, blocks, lastBlock)
      requires block in blocks && facts.height(block) > facts.height(lastBlock)
      requires forall h :: h in blocks ==> facts.height(h) <= facts.height(block) || AtTransition(facts, h)
      modifies `lastBlock, wallet
      ensures Stocked() && WalletJustified()
      ensures join.Some? ==> Valid()
      ensures join.None? <==> Apart(facts, blocks, block, old(lastBlock))
      ensures join.None? ==> lastBlock == old(lastBlock) && Places() == old(Places())
      ensures join.Some? ==> lastBlock == block && IsJoin(facts, blocks, block, old(lastBlock), join.value)
                             && Places() == RewrittenAll(facts, blocks, block, join.value, old(Places()))
    {
      hide WalletOrder.ListOk, WalletOrder.BooksFit, AllJustified, Reaches, Cut, PlacedAll, Anchored, Rooted;
      hide AtTransition, AllWaiting, Apart, IsJoin, Places;
      join := FindJoin(blocks, block, lastBlock, facts);
      if join.Some? {
        var j := join.value;
        JoinBelow(facts, blocks, block, lastBlock, j);
        RootedAcross(facts, blocks, block, lastBlock, j);
        ghost var before, last := Places(), lastBlock;
        UnconfirmAbove(blocks[j].height, now);
        RecordChain(block, j, now);
        lastBlock := block;
        PlacedDone(facts, blocks, block, last, j, floor, before);
      }
    }

    // A block on a fork: stored, and if it is now the highest, the chain switches to it.
    method Fork(block: Block, now: int) returns (outcome: Outcome)
      requires Valid() && WalletJustified() && Genuine(facts, block)
      requires block.height == facts.height(block.blockHash) && block.blockHash !in blocks
      modifies `blocks, `lastBlock, wallet
      ensures Stocked() && WalletJustified()
      ensures outcome in {SideChain, Reorganized, NoJoin}
      ensures outcome != NoJoin ==> Valid()
      ensures outcome == SideChain <==> block.height <= old(blocks)[old(lastBlock)].height
      ensures blocks == old(blocks)[block.blockHash := block]
      ensures lastBlock == if outcome == Reorganized then block.blockHash else old(lastBlock)
      ensures outcome == NoJoin <==> block.height > old(blocks)[old(lastBlock)].height
                                     && Apart(facts, blocks, block.blockHash, old(lastBlock))
      ensures var f, h, last := facts, block.blockHash, old(lastBlock);
              if outcome == Reorganized
              then Reaches(f, blocks, h, JoinOf(f, blocks, h, last))
                   && Places() == RewrittenAll(f, blocks, h, JoinOf(f, blocks, h, last), old(Places()))
              else Places() == old(Places())
    {
      hide WalletOrder.ListOk, WalletOrder.BooksFit, AllJustified, Reaches, Places, RewrittenAll, Written, JoinOf;
      hide Apart, Rooted, Anchored, AllWaiting, AtTransition;
      ForkStored(facts, blocks, lastBlock, block);
      blocks := blocks[block.blockHash := block];
      outcome := SideChain;
      if block.height > blocks[lastBlock].height {
        ghost var before, last := Places(), lastBlock;
        var join := Reorganize(block.blockHash, now);
        outcome := if join.Some? then Reorganized else NoJoin;
        if join.Some? {
          JoinOfIs(facts, blocks, block.blockHash, last);
          JoinBelow(facts, blocks, block.blockHash, last, join.value);
        }
      }
    }

    // The state in which the source reads through a null pointer: a stored block higher than the last
    // one whose stored chain does not meet that of the last one, or a stored block below the end of
    // that chain.
    ghost predicate Stranded()
      reads this
      requires Known(facts, blocks)
    {
      exists x :: && x in blocks
                  && (|| (facts.height(x) > facts.height(lastBlock) && Apart(facts, blocks, x, lastBlock))
                      || RunsOff(facts, blocks, lastBlock, facts.height(x)))
    }

    // A verified block whose parent is stored.
    method Connect(block: Block, peerLast: nat, time: nat, now: int) returns (outcome: Outcome)
      requires Valid() && WalletJustified() && Genuine(facts, block)
      requires block.prevBlock in blocks && block.height == facts.height(block.blockHash)
      modifies `blocks, `lastBlock, `orphans, `publishedTx, wallet
      ensures Stocked() && WalletJustified() && (outcome != NoJoin ==> Valid())
      ensures Known(facts, old(blocks)[block.blockHash := block])
      ensures outcome == Connection(RulesNow(), old(blocks), old(lastBlock), block, peerLast)
      ensures outcome.Undefined() ==> Stranded()
      ensures blocks == if outcome.Stored() then old(blocks)[block.blockHash := block] else old(blocks)
      ensures orphans == if outcome == Postponed then old(orphans)[block.prevBlock := block] else old(orphans)
      ensures lastBlock == if outcome == Extended || outcome == Reorganized then block.blockHash else old(lastBlock)
      ensures outcome == Reorganized ==> !Apart(facts, blocks, block.blockHash, old(lastBlock))
      ensures Places() == Replaced(facts, outcome, block, time, old(blocks), old(lastBlock), blocks, old(Places()))
      ensures publishedTx == StillPublished(facts, outcome, block, old(blocks), old(lastBlock), old(publishedTx))
    {
      hide WalletOrder.ListOk, WalletOrder.BooksFit, AllJustified, Reaches, Places, RewrittenAll, Written;
      hide Apart, RunsOff, Rooted, WalletOrder.Keep, JoinOf, AllWaiting, Genuine, AtTransition, IsTransition;
      StoredToo(facts, blocks, block);
      OneMoreWaiting(facts, orphans, block, {});
      if block.prevBlock == lastBlock {
        Extend(block, time, now);
        outcome := Extended;
      } else if block.blockHash in blocks {
        var ok := Repeat(block, time, now);
        outcome := if ok then Repeated else RanOff;
      } else if blocks[lastBlock].height < peerLast && block.height > blocks[lastBlock].height + 1 {
        orphans := orphans[block.prevBlock := block];
        outcome := Postponed;
      } else if block.height <= checkpointHeight {
        outcome := OldFork;
      } else {
        outcome := Fork(block, now);
      }
    }

    // Verification, and connecting what passes.
    method Check(block: Block, peerLast: nat, time: nat, now: int) returns (outcome: Outcome)
      requires Valid() && WalletJustified() && Genuine(facts, block)
      requires block.prevBlock in blocks && block.height == blocks[block.prevBlock].height + 1
      requires block.height == facts.height(block.blockHash)
      modifies `blocks, `lastBlock, `orphans, `publishedTx, wallet
      ensures Stocked() && WalletJustified() && (outcome != NoJoin ==> Valid())
      ensures var left := Checked(facts, old(blocks), block);
              && Known(facts, left) && old(lastBlock) in left && Known(facts, left[block.blockHash := block])
              && outcome == (if Verified(RulesNow(), old(blocks), block)
                             then Connection(RulesNow(), left, old(lastBlock), block, peerLast) else Invalid)
              && blocks == (if outcome.Stored() then left[block.blockHash := block] else left)
              && (outcome == Reorganized ==> !Apart(facts, blocks, block.blockHash, old(lastBlock)))
              && Places() == Replaced(facts, outcome, block, time, left, old(lastBlock), blocks, old(Places()))
              && publishedTx == StillPublished(facts, outcome, block, left, old(lastBlock), old(publishedTx))
      ensures outcome.Undefined() ==> Stranded()
      ensures orphans == if outcome == Postponed then old(orphans)[block.prevBlock := block] else old(orphans)
      ensures lastBlock == if outcome == Extended || outcome == Reorganized then block.blockHash else old(lastBlock)
    {
      hide WalletOrder.ListOk, WalletOrder.BooksFit, AllJustified, Reaches, Places, Known, AtTransition, Genuine;
      hide Back, Apart, RunsOff, Rooted, Pruned, AllWaiting, Stranded, Checked, Verified, WalletOrder.Keep;
      hide RewrittenAll, Written, Connection;
      CheckedKeeps(facts, blocks, lastBlock, block);
      StoredHeight(facts, blocks, block.prevBlock);
      StoredToo(facts, Checked(facts, blocks, block), block);
      var verified := VerifyBlock(block, blocks[block.prevBlock]);
      if !verified {
        outcome := Invalid;
      } else {
        outcome := Connect(block, peerLast, time, now);
      }
    }

    // The handler's treatment of one block, up to the point where it looks for a waiting orphan.
    method Accept(a: Arrival) returns (outcome: Outcome, block: Block)
      requires Valid() && WalletJustified() && Genuine(facts, a.block)
      modifies `blocks, `lastBlock, `orphans, `publishedTx, wallet
      ensures Stocked() && WalletJustified() && (outcome != NoJoin ==> Valid())
      ensures outcome == Verdict(RulesNow(), old(Now()), a) && block == AtHeight(old(blocks), a.block)
      ensures outcome.Undefined() ==> Stranded()
      ensures var left := Left(RulesNow(), old(Now()), a.block);
              && Known(facts, left) && blocks == (if outcome.Stored() then left[block.blockHash := block] else left)
              && publishedTx == StillPublished(facts, outcome, block, left, old(lastBlock), old(publishedTx))
      ensures orphans == if outcome.SetAside() then old(orphans)[block.prevBlock := block] else old(orphans)
      ensures lastBlock == if outcome == Extended || outcome == Reorganized then block.blockHash else old(lastBlock)
      ensures Places() == PlacesAfterOne(RulesNow(), old(Now()), a, old(Places()))
    {
      hide WalletOrder.ListOk, WalletOrder.BooksFit, AllJustified, Reaches, Places, Written, RewrittenAll;
      hide Back, Apart, RunsOff, Verified, Rooted, Checked, Stranded, AllWaiting, IsTransition, Known, Connection;
      hide WalletOrder.Keep, Replaced, StillPublished, PlacesAfterOne, Verdict, Left, AfterOne, Genuine;
      LeftFits(RulesNow(), Now(), a.block);
      OneMoreWaiting(facts, orphans, a.block, {});
      if Heeded(RulesNow(), blocks, a.block) {
        WhenHeeded(RulesNow(), Now(), a, Places());
      } else {
        WhenUnheeded(RulesNow(), Now(), a, Places());
      }
      block := a.block;
      var txTime := 0;
      if block.prevBlock in blocks {
        txTime := block.timestamp / 2 + blocks[block.prevBlock].timestamp / 2;
        block := block.(height := blocks[block.prevBlock].height + 1);
        assert txTime == MeanTime(blocks, block);
      }
      if block.totalTx == 0 && (block.timestamp + WEEK) % W32 > (earliestKeyTime + 2 * 60 * 60) % W32 {
        outcome := Ignored;
      } else if !filterReady {
        outcome := Ignored;
      } else if block.prevBlock !in blocks {
        if (block.timestamp + WEEK) % W32 < a.now {
          outcome := Ignored;
        } else {
          orphans := orphans[block.prevBlock := block];
          outcome := Orphaned;
        }
      } else {
        outcome := Check(block, a.peerLast, txTime, a.now);
      }
    }

    // One block, and the orphan it connects, if there is one, taken out.
    method RelayOne(a: Arrival) returns (ok: bool, next: Option<Arrival>)
      requires Valid() && WalletJustified() && Genuine(facts, a.block)
      modifies `blocks, `lastBlock, `orphans, `publishedTx, `estimatedHeight, wallet
      ensures Stocked() && WalletJustified() && if ok then Valid() else Stranded()
      ensures ok == !Verdict(RulesNow(), old(Now()), a).Undefined()
      ensures Now() == AfterOne(RulesNow(), old(Now()), a) && next == Next(RulesNow(), old(Now()), a)
      ensures Places() == PlacesAfterOne(RulesNow(), old(Now()), a, old(Places()))
    {
      hide WalletOrder.ListOk, WalletOrder.BooksFit, AllJustified, Places, Verdict, StillPublished, Left;
      hide PlacesAfterOne, Known, Genuine, Rooted, Stranded, AllWaiting;
      NotItsOwnParent(facts, a.block);
      var outcome, block := Accept(a);
      next := None;
      ok := !outcome.Undefined();
      if ok && (outcome.SetAside() || outcome.Stored()) && block.height != BLOCK_UNKNOWN_HEIGHT {
        var orphan := TakeOrphan(block);
        next := if orphan.Some? then Some(Arrival(orphan.value, a.peerLast, a.now)) else None;
      }
      AfterOneKeeps(RulesNow(), old(Now()), a);
    }

    // A block is relayed, and with it every orphan that thereby connects: block after block, each
    // waiting for the one before, as the trace of the relay says. If it follows the last block, and is
    // heeded and verified, the last block afterwards descends from it. The last block changes only
    // for a strictly higher descendant of the relayed one; blocks are lost only an interval or more
    // below it, and never those at a transition; and no orphan disappears without having been looked at.
    method RelayedBlock(a: Arrival) returns (ok: bool)
      requires Valid() && WalletJustified() && Genuine(facts, a.block)
      modifies `blocks, `lastBlock, `orphans, `publishedTx, `estimatedHeight, wallet
      ensures Stocked() && WalletJustified() && if ok then Valid() else Stranded()
      ensures ok == !LastVerdict(RulesNow(), old(Now()), a).Undefined()
      ensures Now() == Relay(RulesNow(), old(Now()), a)
      ensures Places() == PlacesAfter(RulesNow(), old(Now()), a, old(Places()))
      ensures Places().Keys == old(Places()).Keys && estimatedHeight >= old(estimatedHeight)
      ensures Continues(RulesNow(), old(Now()), a.block) ==> Descends(facts, lastBlock, a.block.blockHash)
      ensures lastBlock == old(lastBlock) || (facts.height(lastBlock) > facts.height(old(lastBlock))
                                              && Descends(facts, lastBlock, a.block.blockHash))
      ensures old(lastBlock) !in old(orphans) ==> lastBlock !in orphans
      ensures OnlyOldLost(facts, old(blocks), blocks, lastBlock)
      ensures forall p :: p in old(orphans) ==> Accounted(RulesNow(), old(Now()), a, p)
      decreases |Waiting(facts, orphans, facts.height(a.block.blockHash))|
    {
      hide WalletOrder.ListOk, WalletOrder.BooksFit, AllJustified, Places, Verdict, AfterOne, Next, PlacesAfterOne;
      hide Known, Genuine, Waiting, Rooted, Stranded, AllWaiting, Trace, Relay, LastVerdict, PlacesAfter;
      hide Continues, OnlyOldLost, Accounted, Descends;
      RelayDoes(RulesNow(), Now(), a);
      PlacesKeep(RulesNow(), Now(), a, Places());
      PlacesNext(RulesNow(), Now(), a, Places());
      RelayNext(RulesNow(), Now(), a);
      if Next(RulesNow(), Now(), a).Some? {
        NextFits(RulesNow(), Now(), a);
      }
      var next;
      ok, next := RelayOne(a);
      if next.Some? {
        ok := RelayedBlock(next.value);
      }
    }

    // A relayed transaction is registered, while syncing only if it is the wallet's.
    method RelayedTx(tx: Ledger.Tx, syncing: bool, now: int) returns (isWalletTx: bool)
      requires Valid() && WalletJustified()
      requires WalletOrder.Grounded(wallet.rank, tx) && tx.blockHeight == Ledger.TX_UNCONFIRMED
      modifies wallet
      ensures Valid() && WalletJustified()
      ensures isWalletTx <==>
                || WalletOrder.Contains(old(wallet.allTx), old(wallet.allAddrs), tx)
                || (!syncing && tx.txHash in old(wallet.allTx))
      ensures Places() == if isWalletTx && tx.txHash !in old(wallet.allTx)
                           then old(Places())[tx.txHash := PlaceOf(tx)] else old(Places())
    {
      hide WalletOrder.ListOk, WalletOrder.BooksFit, WalletOrder.Contains, WalletOrder.Grounded, Places;
      hide AllJustified, Known, AllWaiting;
      NewcomerJustified(facts, lastBlock, floor, Places(), tx.txHash, tx.timestamp);
      isWalletTx := false;
      if !syncing || WalletOrder.Contains(wallet.allTx, wallet.allAddrs, tx) {
        isWalletTx := RegisterTx(tx, now);
      }
    }

    // LWWalletRegisterTransaction, in terms of listed places.
    method RegisterTx(tx: Ledger.Tx, now: int) returns (r: bool)
      requires wallet.Valid() && WalletOrder.Grounded(wallet.rank, tx) && tx.blockHeight == Ledger.TX_UNCONFIRMED
      modifies wallet
      ensures wallet.Valid()
      ensures r == (tx.txHash in old(wallet.allTx) || WalletOrder.Contains(old(wallet.allTx), old(wallet.allAddrs), tx))
      ensures Places() == if r && tx.txHash !in old(wallet.allTx)
                           then old(Places())[tx.txHash := PlaceOf(tx)] else old(Places())
    {
      hide WalletOrder.ListOk, WalletOrder.BooksFit, WalletOrder.Contains, WalletOrder.Grounded, WalletOrder.With;
      hide Ledger.After, Wallet.Account, WalletOrder.Inserted, WalletOrder.WellStored, WalletOrder.AllStored, PlacesOf;
      ghost var was, hs := wallet.allTx, wallet.transactions;
      WalletOrder.ListParts(was, hs, wallet.allAddrs, wallet.rank);
      r := wallet.RegisterTransaction(tx, now);
      if r && tx.txHash !in was {
        ghost var p :| 0 <= p <= |hs| && wallet.transactions == WalletOrder.With(hs, p, tx.txHash);
        PlacesWith(was, hs, p, tx);
      } else if tx.txHash !in was {
        PlacesWith(was, hs, 0, tx);
      }
    }

    // Some listed transaction neither pays the wallet nor spends an output of a stored one that does.
    ghost predicate Strayed()
      reads wallet
    {
      exists h :: && h in wallet.transactions && h in wallet.allTx
                  && !WalletOrder.Contains(wallet.allTx, wallet.allAddrs, wallet.allTx[h])
    }

    // LWWalletRemoveTransaction. What remains is in order unless a listed spender of something that
    // was removed has been overlooked.
    method RemoveTx(txHash: TxHash, now: int) returns (ok: bool)
      requires Valid() && WalletJustified()
      modifies wallet
      ensures wallet.Ordered() && wallet.Balanced() && WalletJustified()
      ensures if ok then Valid() else Strayed()
      ensures forall t :: t in Places() ==> t in old(Places()) && Places()[t] == old(Places())[t]
      ensures WalletOrder.WellStored(old(wallet.allTx), wallet.rank)
      ensures txHash in old(wallet.allTx) ==>
                var listed := Members(old(wallet.transactions));
                var gone := WalletOrder.FoundFrom(old(wallet.allTx), listed, wallet.rank, txHash);
                && Places().Keys == old(Places()).Keys - gone
                && (WalletOrder.FullyClosed(old(wallet.allTx), listed, gone) ==> ok)
      ensures txHash !in old(wallet.allTx) ==> ok && Places() == old(Places())
    {
      hide WalletOrder.Arranged, WalletOrder.BooksFit, WalletOrder.Contains, WalletOrder.Keep, WalletOrder.FoundFrom;
      hide WalletOrder.FullyClosed, Ledger.After, Wallet.Account, WalletOrder.WellStored, AllJustified, PlacesOf;
      hide Known, AllWaiting, Rooted, Strayed, WalletOrder.ListOk;
      ghost var was, hs, places := wallet.allTx, wallet.transactions, Places();
      WalletOrder.ListArranged(was, hs, wallet.allAddrs, wallet.rank);
      wallet.RemoveTransaction(txHash, now);
      if txHash in was {
        PlacesLeft(was, hs, wallet.allAddrs, wallet.rank,
                    WalletOrder.FoundFrom(was, Members(hs), wallet.rank, txHash));
      }
      FewerJustified(facts, lastBlock, floor, places, Places());
      ok := AllMine();
    }

    method AllMine() returns (ok: bool)
      requires wallet.Ordered()
      ensures ok <==> wallet.Structured()
      ensures !ok ==> Strayed()
    {
      WalletOrder.ArrangedParts(wallet.allTx, wallet.transactions, wallet.allAddrs, wallet.rank);
      hide WalletOrder.Arranged, WalletOrder.Contains;
      ok := forall h :: h in wallet.transactions ==>
                          WalletOrder.Contains(wallet.allTx, wallet.allAddrs, wallet.allTx[h]);
    }

    // Raises the estimated height, and takes the orphan that waits for the block, if there is one.
    method TakeOrphan(block: Block) returns (next: Option<Block>)
      modifies `orphans, `estimatedHeight
      ensures estimatedHeight == if block.height > old(estimatedHeight) then block.height else old(estimatedHeight)
      ensures next == if block.blockHash in old(orphans) then Some(old(orphans)[block.blockHash]) else None
      ensures orphans == old(orphans) - {block.blockHash}
    {
      if block.height > estimatedHeight { estimatedHeight := block.height; }
      next := None;
      if block.blockHash in orphans {
        next := Some(orphans[block.blockHash]);
        orphans := orphans - {block.blockHash};
      }
    }
  }
}
