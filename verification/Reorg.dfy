// Where wallet transactions are in the chain, and what extending and re-organising it does to that.
module Reorg {
  import opened Common
  import opened Chain
  import Ledger
  import WalletOrder
  import WalletSteps

  // Where the wallet has a transaction: its height and the time recorded for it.
  datatype Place = Place(height: nat, time: nat)

  // The time recorded for a block's transactions: the mean of its own and its predecessor's.
  function MeanTime(blocks: map<BlockHash, Block>, b: Block): nat {
    if b.prevBlock in blocks then b.timestamp / 2 + blocks[b.prevBlock].timestamp / 2 else b.timestamp
  }

  function PlaceIn(blocks: map<BlockHash, Block>, b: Block): Place {
    Place(b.height, MeanTime(blocks, b))
  }

  // A wallet transaction's height is justified by the chain of last: it is unconfirmed, or no
  // higher than the floor where this history starts, or the block of that chain at that height,
  // stored or not, includes it.
  ghost predicate Justified(f: Facts, last: BlockHash, floor: nat, height: nat, t: TxHash) {
    || height == Ledger.TX_UNCONFIRMED
    || height <= floor
    || exists x :: Descends(f, last, x) && f.height(x) == height && t in f.txs(x)
  }

  // Justification survives when the chain of last is continued to next.
  lemma JustifiedStill(f: Facts, last: BlockHash, floor: nat, height: nat, t: TxHash, next: BlockHash)
    requires Justified(f, last, floor, height, t) && Descends(f, next, last)
    ensures Justified(f, next, floor, height, t)
  {
    if height != Ledger.TX_UNCONFIRMED && height > floor {
      var x :| Descends(f, last, x) && f.height(x) == height && t in f.txs(x);
      DescendsOn(f, next, last, x);
    }
  }

  // Where the blocks from x down to, but not including, j place a transaction; the lowest wins.
  ghost function Placed(f: Facts, blocks: map<BlockHash, Block>, x: BlockHash, j: BlockHash, t: TxHash): Option<Place>
    requires Known(f, blocks) && Reaches(f, blocks, x, j)
    decreases f.height(x)
  {
    if x == j then None
    else match Placed(f, blocks, blocks[x].prevBlock, j, t)
      case Some(p) => Some(p)
      case None => if t in blocks[x].txHashes then Some(PlaceIn(blocks, blocks[x])) else None
  }

  lemma {:induction false} PlacedOneLower(f: Facts, blocks: map<BlockHash, Block>, x: BlockHash, b: BlockHash,
                                           t: TxHash)
    requires Known(f, blocks) && Reaches(f, blocks, x, b) && b in blocks && blocks[b].prevBlock in blocks
    ensures Reaches(f, blocks, x, blocks[b].prevBlock)
    ensures Placed(f, blocks, x, blocks[b].prevBlock, t)
            == if t in blocks[b].txHashes then Some(PlaceIn(blocks, blocks[b])) else Placed(f, blocks, x, b, t)
    decreases f.height(x)
  {
    ReachesOneFurther(f, blocks, x, b);
    ReachesDown(f, blocks, x, b);
    if x == b {
      assert Placed(f, blocks, blocks[x].prevBlock, blocks[x].prevBlock, t) == None;
    } else {
      PlacedOneLower(f, blocks, blocks[x].prevBlock, b, t);
    }
  }

  // A placed transaction is in some block of the stretch, and has that block's height and time.
  lemma {:induction false} PlacedIsIncluded(f: Facts, blocks: map<BlockHash, Block>, x: BlockHash, j: BlockHash,
                                             t: TxHash)
    requires Known(f, blocks) && Reaches(f, blocks, x, j)
    ensures Placed(f, blocks, x, j, t).Some? ==>
              exists b :: Reaches(f, blocks, x, b) && Reaches(f, blocks, b, j) && b != j
                          && t in blocks[b].txHashes && Placed(f, blocks, x, j, t).value == PlaceIn(blocks, blocks[b])
    ensures Placed(f, blocks, x, j, t).None? ==>
              forall b :: Reaches(f, blocks, x, b) && Reaches(f, blocks, b, j) && b != j ==> t !in blocks[b].txHashes
    decreases f.height(x)
  {
    if x == j {
      forall b | Reaches(f, blocks, x, b) && Reaches(f, blocks, b, j) ensures b == j {
        ReachesDown(f, blocks, x, b);
        ReachesDown(f, blocks, b, j);
      }
    } else {
      var p := blocks[x].prevBlock;
      PlacedIsIncluded(f, blocks, p, j, t);
      if Placed(f, blocks, p, j, t).Some? {
        var b :| Reaches(f, blocks, p, b) && Reaches(f, blocks, b, j) && b != j
                 && t in blocks[b].txHashes && Placed(f, blocks, p, j, t).value == PlaceIn(blocks, blocks[b]);
        assert Reaches(f, blocks, x, b);
      } else if t in blocks[x].txHashes {
        assert Reaches(f, blocks, x, x);
      }
    }
  }

  // The place of a wallet transaction after the chain is switched from the join to block.
  ghost function Rewritten(f: Facts, blocks: map<BlockHash, Block>, block: BlockHash, join: BlockHash,
                           t: TxHash, was: Place): Place
    requires Known(f, blocks) && Reaches(f, blocks, block, join)
  {
    match Placed(f, blocks, block, join, t)
    case Some(p) => p
    case None => if was.height > f.height(join) then was.(height := Ledger.TX_UNCONFIRMED) else was
  }

  // When the new branch holds the transaction in one block only, that block's height and time result.
  lemma RewrittenToItsBlock(f: Facts, blocks: map<BlockHash, Block>, block: BlockHash, join: BlockHash,
                            t: TxHash, was: Place, b: BlockHash)
    requires Known(f, blocks) && Reaches(f, blocks, block, b) && Reaches(f, blocks, b, join) && b != join
    requires t in blocks[b].txHashes
    requires forall c :: (Reaches(f, blocks, block, c) && Reaches(f, blocks, c, join) && c != join
                          && t in blocks[c].txHashes) ==> c == b
    ensures Reaches(f, blocks, block, join)
    ensures Rewritten(f, blocks, block, join, t, was) == PlaceIn(blocks, blocks[b])
  {
    ReachesOn(f, blocks, block, b, join);
    PlacedIsIncluded(f, blocks, block, join, t);
  }

  lemma RewrittenIsJustified(f: Facts, blocks: map<BlockHash, Block>, block: BlockHash, last: BlockHash,
                             join: BlockHash, floor: nat, t: TxHash, was: Place)
    requires Known(f, blocks) && IsJoin(f, blocks, block, last, join)
    requires Justified(f, last, floor, was.height, t)
    ensures Justified(f, block, floor, Rewritten(f, blocks, block, join, t, was).height, t)
  {
    PlacedIsIncluded(f, blocks, block, join, t);
    if Placed(f, blocks, block, join, t).Some? {
      var b :| Reaches(f, blocks, block, b) && Reaches(f, blocks, b, join) && b != join
               && t in blocks[b].txHashes && Placed(f, blocks, block, join, t).value == PlaceIn(blocks, blocks[b]);
      ReachesDown(f, blocks, block, b);
      ReachesDescends(f, blocks, block, b);
    } else if floor < was.height <= f.height(join) && was.height != Ledger.TX_UNCONFIRMED {
      var x :| Descends(f, last, x) && f.height(x) == was.height && t in f.txs(x);
      JoinIsHighest(f, blocks, block, last, join);
      DescendsBetween(f, last, join, x);
      DescendsOn(f, block, join, x);
    }
  }

  function PlaceOf(tx: Ledger.Tx): Place {
    Place(tx.blockHeight, tx.timestamp)
  }

  // The listed places after the wallet's two updates.
  lemma PlacesSet(allTx: map<TxHash, Ledger.Tx>, hs: seq<TxHash>, addrs: set<string>, rank: TxHash -> nat,
                   named: set<TxHash>, height: nat, time: nat)
    requires WalletOrder.ListOk(allTx, hs, addrs, rank)
    ensures forall t :: t in hs ==>
                          && t in allTx && t in WalletSteps.Heightened(allTx, addrs, named, height, time)
                          && PlaceOf(WalletSteps.Heightened(allTx, addrs, named, height, time)[t])
                             == if t in named then Place(height, time) else PlaceOf(allTx[t])
  {
    hide WalletOrder.ListOk, WalletOrder.Contains;
    WalletOrder.ListParts(allTx, hs, addrs, rank);
    WalletSteps.ListedContains(allTx, hs, addrs, rank);
  }

  ghost function Written(places: map<TxHash, Place>, named: set<TxHash>, place: Place): map<TxHash, Place> {
    map t | t in places :: if t in named then place else places[t]
  }

  ghost predicate AllJustified(f: Facts, last: BlockHash, floor: nat, places: map<TxHash, Place>) {
    forall t :: t in places ==> Justified(f, last, floor, places[t].height, t)
  }

  // Recording a block of the chain of next, whether it extends that chain or is stored again.
  lemma JustifiedAfterBlock(f: Facts, last: BlockHash, floor: nat, b: Block, next: BlockHash,
                            places: map<TxHash, Place>, time: nat)
    requires AllJustified(f, last, floor, places) && Genuine(f, b) && b.height == f.height(b.blockHash)
    requires next == last || (next == b.blockHash && b.prevBlock == last)
    ensures AllJustified(f, next, floor, places)
    ensures Descends(f, next, b.blockHash) ==>
              AllJustified(f, next, floor, Written(places, Members(b.txHashes), Place(b.height, time)))
  {
    hide Justified;
    assert Descends(f, next, last) by {
      assert Descends(f, last, last);
    }
    forall t | t in places ensures Justified(f, next, floor, places[t].height, t) {
      JustifiedStill(f, last, floor, places[t].height, t, next);
    }
    if Descends(f, next, b.blockHash) {
      forall t | t in places && t in b.txHashes ensures Justified(f, next, floor, b.height, t) {
        JustifiedBy(f, next, floor, b.blockHash, t);
      }
    }
  }

  lemma JustifiedBy(f: Facts, last: BlockHash, floor: nat, x: BlockHash, t: TxHash)
    requires Descends(f, last, x) && t in f.txs(x)
    ensures Justified(f, last, floor, f.height(x), t)
  {
  }

  // The places after everything above a height is unconfirmed.
  ghost function Cut(places: map<TxHash, Place>, height: nat): map<TxHash, Place> {
    map t | t in places :: if places[t].height > height then places[t].(height := Ledger.TX_UNCONFIRMED) else places[t]
  }

  // The places after the blocks from x down to, but not including, j are recorded.
  ghost function PlacedAll(f: Facts, blocks: map<BlockHash, Block>, x: BlockHash, j: BlockHash,
                           places: map<TxHash, Place>): map<TxHash, Place>
    requires Known(f, blocks) && Reaches(f, blocks, x, j)
  {
    map t | t in places :: if Placed(f, blocks, x, j, t).Some? then Placed(f, blocks, x, j, t).value else places[t]
  }

  ghost function RewrittenAll(f: Facts, blocks: map<BlockHash, Block>, block: BlockHash, join: BlockHash,
                              places: map<TxHash, Place>): map<TxHash, Place>
    requires Known(f, blocks) && Reaches(f, blocks, block, join)
  {
    map t | t in places :: Rewritten(f, blocks, block, join, t, places[t])
  }

  lemma PlacesCut(allTx: map<TxHash, Ledger.Tx>, hs: seq<TxHash>, addrs: set<string>, rank: TxHash -> nat, height: nat)
    requires WalletOrder.ListOk(allTx, hs, addrs, rank)
    ensures forall t :: t in hs ==>
                          && t in allTx && t in WalletSteps.Unconfirmed(allTx, hs, height)
                          && PlaceOf(WalletSteps.Unconfirmed(allTx, hs, height)[t])
                             == if allTx[t].blockHeight > height then Place(Ledger.TX_UNCONFIRMED, allTx[t].timestamp)
                                else PlaceOf(allTx[t])
  {
    hide WalletOrder.ListOk;
    WalletOrder.ListParts(allTx, hs, addrs, rank);
  }

  lemma JoinBelow(f: Facts, blocks: map<BlockHash, Block>, x: BlockHash, y: BlockHash, j: BlockHash)
    requires Known(f, blocks) && IsJoin(f, blocks, x, y, j)
    ensures x in blocks && j in blocks && Reaches(f, blocks, x, x) && Reaches(f, blocks, x, j)
    ensures Reaches(f, blocks, y, j)
    ensures blocks[j].height == f.height(j)
  {
    ReachesDown(f, blocks, x, j);
  }

  lemma PlacedNone(f: Facts, blocks: map<BlockHash, Block>, x: BlockHash, places: map<TxHash, Place>)
    requires Known(f, blocks) && Reaches(f, blocks, x, x)
    ensures PlacedAll(f, blocks, x, x, places) == places
  {
  }

  lemma PlacedNext(f: Facts, blocks: map<BlockHash, Block>, x: BlockHash, b: BlockHash, j: BlockHash,
                   places: map<TxHash, Place>)
    requires Known(f, blocks) && Reaches(f, blocks, x, b) && Reaches(f, blocks, b, j)
    requires b in blocks && j in blocks && blocks[b].height > blocks[j].height
    ensures blocks[b].prevBlock in blocks && f.height(blocks[b].prevBlock) < f.height(b)
    ensures Reaches(f, blocks, x, blocks[b].prevBlock) && Reaches(f, blocks, blocks[b].prevBlock, j)
    ensures Written(PlacedAll(f, blocks, x, b, places), Members(blocks[b].txHashes), PlaceIn(blocks, blocks[b]))
            == PlacedAll(f, blocks, x, blocks[b].prevBlock, places)
  {
    ReachesOneFurther(f, blocks, x, b);
    forall t ensures Placed(f, blocks, x, blocks[b].prevBlock, t)
                     == if t in blocks[b].txHashes then Some(PlaceIn(blocks, blocks[b])) else Placed(f, blocks, x, b, t)
    {
      PlacedOneLower(f, blocks, x, b, t);
    }
  }

  lemma PlacedDone(f: Facts, blocks: map<BlockHash, Block>, block: BlockHash, last: BlockHash, j: BlockHash,
                   floor: nat, places: map<TxHash, Place>)
    requires Known(f, blocks) && IsJoin(f, blocks, block, last, j) && AllJustified(f, last, floor, places)
    ensures Reaches(f, blocks, block, j)
    ensures PlacedAll(f, blocks, block, j, Cut(places, f.height(j))) == RewrittenAll(f, blocks, block, j, places)
    ensures AllJustified(f, block, floor, RewrittenAll(f, blocks, block, j, places))
  {
    hide Justified;
    forall t | t in places
      ensures Justified(f, block, floor, Rewritten(f, blocks, block, j, t, places[t]).height, t)
    {
      RewrittenIsJustified(f, blocks, block, last, j, floor, t, places[t]);
    }
  }

  lemma WriteNone(places: map<TxHash, Place>, place: Place)
    ensures Written(places, {}, place) == places
  {
  }

  // Heights from before this history began.
  ghost predicate OldHeights(floor: nat, places: map<TxHash, Place>) {
    forall t :: t in places ==> places[t].height == Ledger.TX_UNCONFIRMED || places[t].height <= floor
  }

  lemma OldHeightsJustified(f: Facts, last: BlockHash, floor: nat, places: map<TxHash, Place>)
    ensures OldHeights(floor, places) ==> AllJustified(f, last, floor, places)
  {
  }

  lemma NewcomerJustified(f: Facts, last: BlockHash, floor: nat, places: map<TxHash, Place>, t: TxHash,
                           time: nat)
    requires AllJustified(f, last, floor, places)
    ensures AllJustified(f, last, floor, places[t := Place(Ledger.TX_UNCONFIRMED, time)])
  {
  }
}
