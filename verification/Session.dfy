// A whole run: a new wallet and a new peer manager, and then any sequence of relayed blocks and
// transactions, removed transactions and filter changes.
module Session {
  import opened Common
  import Ledger
  import opened WalletOrder
  import opened WalletSteps
  import opened WalletState
  import opened Chain
  import opened Pruning
  import opened PeerStart
  import opened PeerSave
  import opened Reorg
  import opened Relaying
  import opened CatchUp
  import opened PeerChain

  datatype Event = BlockRelayed(arrival: Arrival)
                 | TxRelayed(tx: Ledger.Tx, syncing: bool, now: int)
                 | TxRemoved(txHash: TxHash, now: int)
                 | FilterSet(ready: bool)

  // Blocks agree with their hashes, and transactions come unconfirmed.
  ghost predicate Possible(f: Facts, rank: Ledger.Hash -> nat, e: Event) {
    match e
    case BlockRelayed(a) => Genuine(f, a.block)
    case TxRelayed(tx, _, _) => Grounded(rank, tx) && tx.blockHeight == Ledger.TX_UNCONFIRMED
    case TxRemoved(_, _) => true
    case FilterSet(_) => true
  }

  // What holds after every event, whether or not the run can go on: every listed height is justified
  // by the chain the last block commits to; the balance is the sum of the listed outputs, which
  // belong to listed transactions; the totals are the sums of the rises and of the falls of the
  // balance, and received less sent is the balance.
  ghost predicate Consistent(m: PeerManager)
    reads m, m.wallet
  {
    var w := m.wallet;
    && m.WalletJustified() && Known(m.facts, m.blocks) && m.lastBlock in m.blocks
    && w.balance == Ledger.Sum(w.allTx, w.utxos) % W64
    && (forall u :: u in w.utxos ==> u.hash in w.transactions)
    && w.totalReceived == Ledger.Rises(w.balanceHist) % W64 && w.totalSent == Ledger.Falls(w.balanceHist) % W64
    && w.balance == Ledger.Latest(w.balanceHist) && (w.totalReceived - w.totalSent - w.balance) % W64 == 0
  }

  lemma ConsistentIs(m: PeerManager)
    requires m.wallet.Balanced() && m.WalletJustified() && Known(m.facts, m.blocks) && m.lastBlock in m.blocks
    ensures Consistent(m)
  {
  }

  lemma EventsGenuine(f: Facts, rank: Ledger.Hash -> nat, events: seq<Event>)
    requires forall e :: e in events ==> Possible(f, rank, e)
    ensures AllGenuine(f, events)
  {
  }

  lemma PlayedNone(r: Rules, s: State, events: seq<Event>)
    requires Fit(r.facts, s)
    ensures AllGenuine(r.facts, events[..0]) && Played(r, s, events[..0]) == Course(r, s, true)
  {
  }

  // ----- what events make of the manager's blocks -----

  // The rules and the state after some events, and whether the source can go on.
  datatype Course = Course(rules: Rules, state: State, going: bool)

  ghost predicate AllGenuine(f: Facts, events: seq<Event>) {
    forall e :: e in events && e.BlockRelayed? ==> Genuine(f, e.arrival.block)
  }

  ghost function OneEvent(r: Rules, s: State, e: Event): Course
    requires Fit(r.facts, s) && (e.BlockRelayed? ==> Genuine(r.facts, e.arrival.block))
  {
    match e
    case BlockRelayed(a) => Course(r, Relay(r, s, a), !LastVerdict(r, s, a).Undefined())
    case FilterSet(ready) => Course(r.(filterReady := ready), s, true)
    case TxRelayed(_, _, _) => Course(r, s, true)
    case TxRemoved(_, _) => Course(r, s, true)
  }

  lemma OneEventFits(r: Rules, s: State, e: Event)
    requires Fit(r.facts, s) && (e.BlockRelayed? ==> Genuine(r.facts, e.arrival.block))
    ensures OneEvent(r, s, e).rules.facts == r.facts
    ensures OneEvent(r, s, e).going ==> Fit(r.facts, OneEvent(r, s, e).state)
  {
    if e.BlockRelayed? {
      RelayFits(r, s, e.arrival);
    }
  }

  ghost function Played(r: Rules, s: State, events: seq<Event>): Course
    requires Fit(r.facts, s) && AllGenuine(r.facts, events)
    decreases |events|
  {
    hide Fit, Genuine, OneEvent;
    if events == [] then Course(r, s, true)
    else
      OneEventFits(r, s, events[0]);
      var c := OneEvent(r, s, events[0]);
      if c.going then Played(c.rules, c.state, events[1..]) else c
  }

  lemma {:induction false} PlayedFits(r: Rules, s: State, events: seq<Event>)
    requires Fit(r.facts, s) && AllGenuine(r.facts, events)
    ensures Played(r, s, events).rules.facts == r.facts
    ensures Played(r, s, events).going ==> Fit(r.facts, Played(r, s, events).state)
    decreases |events|
  {
    hide Fit, Genuine, OneEvent;
    if events != [] {
      OneEventFits(r, s, events[0]);
      var c := OneEvent(r, s, events[0]);
      if c.going {
        PlayedFits(c.rules, c.state, events[1..]);
      }
    }
  }

  lemma {:induction false} PlayedOneMore(r: Rules, s: State, events: seq<Event>, k: nat)
    requires Fit(r.facts, s) && AllGenuine(r.facts, events) && k < |events|
    ensures AllGenuine(r.facts, events[..k]) && AllGenuine(r.facts, events[..k + 1])
    ensures var c := Played(r, s, events[..k]);
            c.going ==> c.rules.facts == r.facts && Fit(r.facts, c.state)
                        && Played(r, s, events[..k + 1]) == OneEvent(c.rules, c.state, events[k])
    decreases k
  {
    hide Fit, Genuine, OneEvent;
    PlayedFits(r, s, events[..k]);
    if k > 0 {
      assert events[..k][0] == events[0] && events[..k][1..] == events[1..][..k - 1];
      assert events[..k + 1][0] == events[0] && events[..k + 1][1..] == events[1..][..k];
      OneEventFits(r, s, events[0]);
      var c := OneEvent(r, s, events[0]);
      if c.going {
        PlayedOneMore(c.rules, c.state, events[1..], k - 1);
      }
    } else {
      assert events[..1] == [events[0]];
      OneEventFits(r, s, events[0]);
    }
  }

  function Relays(arrivals: seq<Arrival>): seq<Event> {
    if arrivals == [] then [] else [BlockRelayed(arrivals[0])] + Relays(arrivals[1..])
  }

  lemma {:induction false} PlayedRelays(r: Rules, s: State, arrivals: seq<Arrival>)
    requires Fit(r.facts, s) && forall a :: a in arrivals ==> Genuine(r.facts, a.block)
    ensures AllGenuine(r.facts, Relays(arrivals)) && Played(r, s, Relays(arrivals)).state == RelayAll(r, s, arrivals)
    ensures Played(r, s, Relays(arrivals)).going <==> AllDefined(r, s, arrivals)
    decreases |arrivals|
  {
    hide Fit, Genuine, Relay, LastVerdict;
    if arrivals != [] {
      var a := arrivals[0];
      RelayFits(r, s, a);
      if LastVerdict(r, s, a).Undefined() {
        RelaysGenuine(r.facts, arrivals);
      } else {
        PlayedRelays(r, Relay(r, s, a), arrivals[1..]);
      }
      assert Relays(arrivals)[0] == BlockRelayed(a) && Relays(arrivals)[1..] == Relays(arrivals[1..]);
    }
  }

  lemma {:induction false} RelaysGenuine(f: Facts, arrivals: seq<Arrival>)
    requires forall a :: a in arrivals ==> Genuine(f, a.block)
    ensures AllGenuine(f, Relays(arrivals))
  {
    hide Genuine;
    if arrivals != [] {
      RelaysGenuine(f, arrivals[1..]);
    }
  }

  // A run that relays the blocks of a line in any order ends at the last of them.
  lemma RunInAnyOrder(r: Rules, s: State, c: seq<Block>, order: seq<nat>, arrivals: seq<Arrival>)
    requires Fit(r.facts, s) && Line(r, s, c) && |c| > 0
    requires InOrder(c, order, arrivals) && forall i :: 0 <= i < |c| ==> i in order
    ensures AllGenuine(r.facts, Relays(arrivals))
    ensures Played(r, s, Relays(arrivals)).state.last == c[|c| - 1].blockHash
    ensures Played(r, s, Relays(arrivals)).state.orphans == s.orphans && Played(r, s, Relays(arrivals)).going
  {
    hide Fit, Line, InOrder, Genuine, Played, RelayAll, AllDefined;
    AnyOrder(r, s, c, order, arrivals, map[]);
    PlayedRelays(r, s, arrivals);
  }

  // Two blocks that follow the last one, the second of them relayed first.
  lemma SecondComesFirst(r: Rules, s: State, b1: Block, b2: Block, peerLast: nat, now: int)
    requires Fit(r.facts, s) && Line(r, s, [b1, b2])
    requires (b1.timestamp + WEEK) % W32 >= now && (b2.timestamp + WEEK) % W32 >= now
    ensures AllGenuine(r.facts, Relays([Arrival(b2, peerLast, now), Arrival(b1, peerLast, now)]))
    ensures Played(r, s, Relays([Arrival(b2, peerLast, now), Arrival(b1, peerLast, now)])).state.last == b2.blockHash
  {
    hide Fit, Line, Genuine, Played, Relays;
    var order: seq<nat> := [1, 0];
    assert order[1] == 0 && order[0] == 1;
    RunInAnyOrder(r, s, [b1, b2], order, [Arrival(b2, peerLast, now), Arrival(b1, peerLast, now)]);
  }

  // ----- events -----

  // An event the source cannot go on from leaves one of the two states in which it reads what is not
  // there: a chain that does not meet the current one, or a listed transaction that is not the
  // wallet's.
  method Handle(m: PeerManager, e: Event) returns (ok: bool)
    requires m.Valid() && m.WalletJustified() && Possible(m.facts, m.wallet.rank, e)
    modifies m, m.wallet
    ensures Consistent(m)
    ensures if ok then m.Valid() else m.Stranded() || m.Strayed()
    ensures var c := OneEvent(old(m.RulesNow()), old(m.Now()), e);
            m.RulesNow() == c.rules && m.Now() == c.state && (if e.TxRemoved? then c.going else c.going == ok)
    ensures e.BlockRelayed? ==>
              m.Places() == PlacesAfter(old(m.RulesNow()), old(m.Now()), e.arrival, old(m.Places()))
    ensures !e.TxRemoved? ==> old(m.Places()).Keys <= m.Places().Keys
    ensures OnlyOldLost(m.facts, old(m.blocks), m.blocks, m.lastBlock)
    ensures m.lastBlock == old(m.lastBlock) || m.facts.height(m.lastBlock) > m.facts.height(old(m.lastBlock))
    ensures old(m.lastBlock) !in old(m.orphans) ==> m.lastBlock !in m.orphans
  {
    hide ListOk, Arranged, BooksFit, AllJustified, Known, AllWaiting, Rooted, PeerManager.Places, Contains;
    hide AtTransition, Relay, LastVerdict, PlacesAfter, OnlyOldLost, Accounted, Continues, Consistent;
    hide PeerManager.Stranded, PeerManager.Strayed;
    NoneLost(m.facts, m.blocks, m.lastBlock);
    ok := true;
    match e
    case BlockRelayed(a) =>
      ok := m.RelayedBlock(a);
      ConsistentIs(m);
    case TxRelayed(tx, syncing, now) =>
      var isWalletTx := m.RelayedTx(tx, syncing, now);
      ConsistentIs(m);
    case TxRemoved(txHash, now) =>
      ok := m.RemoveTx(txHash, now);
      ConsistentIs(m);
    case FilterSet(ready) =>
      m.SetFilter(ready);
      ConsistentIs(m);
  }

  // However long the run: the state stays consistent, listed transactions are lost only by being
  // removed, blocks only when they are old and not at a transition, the last block is never
  // exchanged for one that is not higher, and the blocks are those the handled events lead to.
  method Run(m: PeerManager, events: seq<Event>) returns (ok: bool, handled: nat)
    requires m.Valid() && m.WalletJustified()
    requires forall e :: e in events ==> Possible(m.facts, m.wallet.rank, e)
    modifies m, m.wallet
    ensures Consistent(m)
    ensures if ok then m.Valid() else m.Stranded() || m.Strayed()
    ensures handled <= |events| && (ok ==> handled == |events|)
    ensures AllGenuine(m.facts, events[..handled])
    ensures var c := Played(old(m.RulesNow()), old(m.Now()), events[..handled]);
            m.RulesNow() == c.rules && m.Now() == c.state && (ok ==> c.going)
    ensures (forall e :: e in events ==> !e.TxRemoved?) ==> old(m.Places()).Keys <= m.Places().Keys
    ensures OnlyOldLost(m.facts, old(m.blocks), m.blocks, m.lastBlock)
    ensures m.lastBlock == old(m.lastBlock) || m.facts.height(m.lastBlock) > m.facts.height(old(m.lastBlock))
    ensures old(m.lastBlock) !in old(m.orphans) ==> m.lastBlock !in m.orphans
  {
    hide ListOk, Arranged, BooksFit, AllJustified, Known, AllWaiting, Rooted, PeerManager.Places, Possible;
    hide AtTransition, Played, OneEvent, AllGenuine, PlacesAfter;
    hide PeerManager.Stranded, PeerManager.Strayed;
    ConsistentIs(m);
    EventsGenuine(m.facts, m.wallet.rank, events);
    ok, handled := true, 0;
    PlayedNone(m.RulesNow(), m.Now(), events);
    while ok && handled < |events|
      invariant 0 <= handled <= |events| && Consistent(m) && AllGenuine(m.facts, events[..handled])
      invariant if ok then m.Valid() else m.Stranded() || m.Strayed()
      invariant var c := Played(old(m.RulesNow()), old(m.Now()), events[..handled]);
                m.RulesNow() == c.rules && m.Now() == c.state && (ok ==> c.going)
      invariant (forall e :: e in events ==> !e.TxRemoved?) ==> old(m.Places()).Keys <= m.Places().Keys
      invariant OnlyOldLost(m.facts, old(m.blocks), m.blocks, m.lastBlock)
      invariant m.lastBlock == old(m.lastBlock) || m.facts.height(m.lastBlock) > m.facts.height(old(m.lastBlock))
      invariant old(m.lastBlock) !in old(m.orphans) ==> m.lastBlock !in m.orphans
    {
      PlayedOneMore(old(m.RulesNow()), old(m.Now()), events, handled);
      ok := Handle(m, events[handled]);
      handled := handled + 1;
    }
    assert events[..|events|] == events;
  }

  // The blocks of a line are relayed in some order: the last of them becomes the last block, and the
  // wallet has recorded each block's transactions as if it had come after its predecessor.
  method RelayLine(m: PeerManager, ghost c: seq<Block>, ghost order: seq<nat>, arrivals: seq<Arrival>)
    returns (ok: bool)
    requires m.Valid() && m.WalletJustified() && Line(m.RulesNow(), m.Now(), c) && |c| > 0
    requires InOrder(c, order, arrivals) && forall i :: 0 <= i < |c| ==> i in order
    modifies m, m.wallet
    ensures ok && m.Valid() && m.WalletJustified()
    ensures m.lastBlock == c[|c| - 1].blockHash && m.orphans == old(m.orphans)
    ensures m.Places() == WrittenTo(m.facts, old(m.Now()), c, |c|, old(m.Places()))
  {
    hide ListOk, Arranged, BooksFit, AllJustified, Known, AllWaiting, Rooted, PeerManager.Places, Genuine, Line;
    hide AtTransition, PlacesAfter, Relay, LastVerdict, RelayAll, PlacesAll, AllDefined, InOrder, WrittenTo;
    hide PeerManager.Stranded, OnlyOldLost, Accounted, Continues;
    ghost var r, s, places := m.RulesNow(), m.Now(), m.Places();
    AnyOrder(r, s, c, order, arrivals, places);
    ok := true;
    var i := 0;
    assert arrivals[0..] == arrivals;
    while i < |arrivals|
      invariant 0 <= i <= |arrivals| && ok && m.Valid() && m.WalletJustified() && m.RulesNow() == r
      invariant RelayAll(r, m.Now(), arrivals[i..]) == RelayAll(r, s, arrivals)
      invariant AllDefined(r, m.Now(), arrivals[i..])
      invariant PlacesAll(r, m.Now(), arrivals[i..], m.Places()) == PlacesAll(r, s, arrivals, places)
    {
      DefinedFirst(r, m.Now(), arrivals[i..]);
      RelayAllNext(r, m.Now(), arrivals[i..], m.Places());
      assert arrivals[i..][0] == arrivals[i] && arrivals[i..][1..] == arrivals[i + 1..];
      ok := m.RelayedBlock(arrivals[i]);
      i := i + 1;
    }
    RelayAllNone(r, m.Now(), m.Places());
  }

  // The same from the start, with nothing assumed of any object.
  method StartAndRun(ghost f: Facts, ghost floor: nat, ghost rank: Ledger.Hash -> nat, txs: seq<Ledger.Tx>,
                     signed: Ledger.Tx -> bool, addrs: set<string>, internalChain: seq<string>,
                     externalChain: seq<string>, checkpoints: seq<Checkpoint>, earliestKeyTime: nat,
                     difficultyOk: (Block, map<BlockHash, Block>) -> bool, saved: seq<Block>, events: seq<Event>,
                     now: int)
    returns (m: PeerManager, ok: bool, handled: nat)
    requires "" !in addrs && AllSaved(txs, rank) && AllContained(Loaded(txs, signed), addrs)
    requires forall tx :: tx in txs ==> tx.blockHeight == Ledger.TX_UNCONFIRMED || tx.blockHeight <= floor
    requires |checkpoints| > 0 && forall c :: c in checkpoints ==> TrueCheckpoint(f, c)
    requires forall b :: b in saved ==> Rightly(f, b.blockHash, b)
    requires forall e :: e in events ==> Possible(f, rank, e)
    ensures fresh(m) && fresh(m.wallet) && m.facts == f && m.floor == floor && m.wallet.rank == rank
    ensures Consistent(m)
    ensures if ok then m.Valid() else m.Stranded() || m.Strayed()
    ensures forall c :: c in checkpoints ==> c.hash in m.blocks
    ensures (forall e :: e in events ==> !e.TxRemoved?) ==>
              forall tx :: tx in txs && signed(tx) ==> tx.txHash in m.Places()
  {
    hide ListOk, Arranged, BooksFit, AllJustified, Known, AllWaiting, AllSaved, AllContained, Loaded, Rightly, Rooted;
    hide Possible, Ledger.After, Wallet.Account, TrueCheckpoint, PeerManager.Stranded, PeerManager.Strayed, Consistent;
    var wallet := new Wallet(rank, txs, signed, addrs, internalChain, externalChain, now);
    LoadedHeights(txs, signed, floor);
    m := new PeerManager(f, floor, wallet, checkpoints, earliestKeyTime, difficultyOk, saved);
    CheckpointsStored(f, checkpoints, earliestKeyTime, saved, m.blocks, m.orphans, m.lastBlock);
    assert forall tx :: tx in txs && signed(tx) ==> tx.txHash in Members(wallet.transactions);
    ok, handled := Run(m, events);
  }

  lemma LoadedHeights(txs: seq<Ledger.Tx>, signed: Ledger.Tx -> bool, floor: nat)
    requires forall tx :: tx in txs ==> tx.blockHeight == Ledger.TX_UNCONFIRMED || tx.blockHeight <= floor
    ensures var store := Loaded(txs, signed);
            && (forall tx :: tx in txs && signed(tx) ==> tx.txHash in store)
            && forall h :: h in store ==> store[h].blockHeight == Ledger.TX_UNCONFIRMED || store[h].blockHeight <= floor
  {
    var store := Loaded(txs, signed);
    forall h
      ensures h in store <==> exists tx :: tx in txs && tx.txHash == h && signed(tx)
      ensures h in store ==> store[h].blockHeight == Ledger.TX_UNCONFIRMED || store[h].blockHeight <= floor
    {
      LoadedIsFirst(txs, signed, h);
      if h in store {
        var k: nat :| FirstAt(txs, signed, k, store[h]);
        assert txs[k] in txs;
      }
    }
  }

  lemma CheckpointsStored(f: Facts, checkpoints: seq<Checkpoint>, earliestKeyTime: nat, saved: seq<Block>,
                          blocks: map<BlockHash, Block>, orphans: map<BlockHash, Block>, last: BlockHash)
    requires Known(f, blocks) && Started(f, checkpoints, earliestKeyTime, saved, blocks, orphans, last)
    requires forall c :: c in checkpoints ==> TrueCheckpoint(f, c)
    ensures forall c :: c in checkpoints ==> c.hash in blocks && AtTransition(f, c.hash)
  {
  }

  // What is saved of the last block's chain, when the download is complete or at a transition, leads a
  // new manager back to the same block.
  method SaveAndRestart(m: PeerManager, saveCount: nat, ghost floor: nat, checkpoints: seq<Checkpoint>,
                        earliestKeyTime: nat, difficultyOk: (Block, map<BlockHash, Block>) -> bool)
    returns (n: PeerManager)
    requires m.Valid() && saveCount > m.blocks[m.lastBlock].height % BLOCK_DIFFICULTY_INTERVAL
    requires |checkpoints| > 0 && forall c :: c in checkpoints ==> TrueCheckpoint(m.facts, c)
    ensures fresh(n) && n.Valid() && n.facts == m.facts && n.wallet == m.wallet && n.lastBlock == m.lastBlock
    ensures OldHeights(floor, m.Places()) ==> n.WalletJustified()
  {
    hide ListOk, Arranged, BooksFit, AllJustified, Known, AllWaiting, PlacesOf, Started, TrueCheckpoint, Anchored;
    hide ChainDown, OldHeights, ByHeight, IsTransition, Rightly, IsSavedChain, Wallet.Account;
    var saved := BlocksToSave(m.blocks, m.lastBlock, saveCount, m.facts);
    ghost var k := SavedIsChain(m.facts, m.blocks, m.lastBlock, saved);
    n := new PeerManager(m.facts, floor, m.wallet, checkpoints, earliestKeyTime, difficultyOk, saved);
    RestartAtSameBlock(m.facts, m.blocks, m.lastBlock, saved, checkpoints, earliestKeyTime, n.blocks, n.orphans,
                       n.lastBlock);
  }

  // ----- two ways into undefined states -----

  // Heights and predecessors of five hashes: 1 is at height 0 and 3 follows it; 2 is at height 2016
  // and 4 follows it; 9 comes before 2.
  ghost function FewFacts(): Facts {
    Facts(h => if h == 3 then 1 else if h == 4 then 2 else if h == 2 then 9 else 0,
          h => if h == 3 then 1 else if h == 2 then 2016 else if h == 4 then 2017 else if h == 9 then 2015 else 0,
          h => {})
  }

  // A manager of an empty wallet, with a filter loaded.
  method EmptyManager(checkpoints: seq<Checkpoint>, difficultyOk: (Block, map<BlockHash, Block>) -> bool,
                      saved: seq<Block>)
    returns (m: PeerManager)
    requires |checkpoints| > 0 && forall c :: c in checkpoints ==> TrueCheckpoint(FewFacts(), c)
    requires forall b :: b in saved ==> Rightly(FewFacts(), b.blockHash, b)
    ensures fresh(m) && fresh(m.wallet) && m.Valid() && m.WalletJustified() && m.facts == FewFacts() && m.filterReady
    ensures m.earliestKeyTime == 0 && m.difficultyOk == difficultyOk
    ensures m.checkpoints == ByHeight(checkpoints) && m.checkpointHeight == checkpoints[|checkpoints| - 1].height
    ensures Started(FewFacts(), checkpoints, 0, saved, m.blocks, m.orphans, m.lastBlock)
  {
    NoneLoaded();
    hide ListOk, Arranged, BooksFit, AllJustified, Known, AllWaiting, Rightly, Rooted, Started, ByHeight;
    hide TrueCheckpoint;
    hide Ledger.After, Wallet.Account, AllSaved, AllContained, Loaded, FewFacts;
    var wallet := new Wallet(h => 0, [], tx => true, {}, [], [], 0);
    m := new PeerManager(FewFacts(), 0, wallet, checkpoints, 0, difficultyOk, saved);
    m.SetFilter(true);
  }

  lemma NoneLoaded()
    ensures AllSaved([], h => 0) && forall signed :: Loaded([], signed) == map[] && AllContained(Loaded([], signed), {})
  {
  }

  const TwoCheckpoints: seq<Checkpoint> := [Checkpoint(0, 1, 0), Checkpoint(2016, 2, 0)]

  // With a checkpoint above the last block, a block that follows it is a higher fork which meets no
  // stored part of the current chain.
  method ForkBesideCheckpoint() returns (m: PeerManager, outcome: Outcome)
    ensures outcome == NoJoin
  {
    hide ListOk, Arranged, BooksFit, AllJustified, AllWaiting, Rooted, Reaches, Started, PeerManager.Stranded;
    hide OnlyOldLost, Apart, RunsOff, Pruned, ByHeight, PlacesOf, AtTransition;
    hide Verdict, Left, StillPublished, PlacesAfterOne;
    m := EmptyManager(TwoCheckpoints, (b, blocks) => true, []);
    OnlyCheckpoints(m.blocks, m.orphans, m.lastBlock);
    ForkHere(m.RulesNow(), m.Now());
    var block;
    outcome, block := m.Accept(Arrival(Block(4, 2, 0, 1, 0, []), 0, 0));
  }

  // A filter is loaded, and neither the time of a block nor its difficulty is in the way.
  ghost predicate Lenient(r: Rules) {
    r.facts == FewFacts() && r.filterReady && r.earliestKeyTime == 0 && forall b, blocks :: r.difficultyOk(b, blocks)
  }

  lemma ForkHere(r: Rules, s: State)
    requires Lenient(r) && Fit(r.facts, s) && s.last == 1
    requires r.checkpoints == map[0 := 1, 2016 := 2] && r.checkpointHeight == 2016
    requires s.blocks == map[1 := TwoCheckpoints[0].AsBlock(), 2 := TwoCheckpoints[1].AsBlock()]
    ensures Genuine(r.facts, Block(4, 2, 0, 1, 0, []))
    ensures Verdict(r, s, Arrival(Block(4, 2, 0, 1, 0, []), 0, 0)) == NoJoin
  {
    hide Rooted, AllWaiting, Reaches, Apart, RunsOff, Pruned;
    ApartHere(s.blocks, Block(4, 2, 0, 1, 2017, []));
  }

  lemma OnlyCheckpoints(blocks: map<BlockHash, Block>, orphans: map<BlockHash, Block>, last: BlockHash)
    requires Known(FewFacts(), blocks) && Started(FewFacts(), TwoCheckpoints, 0, [], blocks, orphans, last)
    ensures blocks == map[1 := TwoCheckpoints[0].AsBlock(), 2 := TwoCheckpoints[1].AsBlock()] && last == 1
    ensures ByHeight(TwoCheckpoints) == map[0 := 1, 2016 := 2]
  {
  }

  lemma ApartHere(blocks: map<BlockHash, Block>, b: Block)
    requires blocks == map[1 := TwoCheckpoints[0].AsBlock(), 2 := TwoCheckpoints[1].AsBlock()]
    requires b == Block(4, 2, 0, 1, 2017, [])
    ensures Known(FewFacts(), blocks[4 := b]) && Apart(FewFacts(), blocks[4 := b], 4, 1)
  {
  }

  const OneCheckpoint: seq<Checkpoint> := [Checkpoint(0, 1, 0)]
  const Restored: Block := Block(2, 9, 0, 1, 2016, [])
  const Old: Block := Block(3, 1, 0, 1, 1, [])

  // With one saved block far above the checkpoint, an old block that follows the checkpoint is stored
  // as a side chain.
  method StoreBelowSaved() returns (m: PeerManager, outcome: Outcome)
    ensures outcome == SideChain
    ensures fresh(m) && fresh(m.wallet) && m.Valid() && m.WalletJustified() && m.facts == FewFacts() && m.filterReady
    ensures m.lastBlock == 2 && m.blocks == map[1 := OneCheckpoint[0].AsBlock(), 2 := Restored, 3 := Old]
    ensures m.checkpoints == map[0 := 1] && Lenient(m.RulesNow())
  {
    hide ListOk, Arranged, BooksFit, AllJustified, AllWaiting, Rooted, Reaches, Started, PeerManager.Stranded;
    hide OnlyOldLost, Pruned, ByHeight, PlacesOf, AtTransition;
    hide Verdict, Left, StillPublished, PlacesAfterOne;
    m := EmptyManager(OneCheckpoint, (b, blocks) => true, [Restored]);
    OnlyRestored(m.blocks, m.orphans, m.lastBlock);
    OldHere(m.RulesNow(), m.Now());
    var block;
    outcome, block := m.Accept(Arrival(Old.(height := 0), 0, 0));
  }

  lemma OldHere(r: Rules, s: State)
    requires Lenient(r) && Fit(r.facts, s) && s.last == 2
    requires r.checkpoints == map[0 := 1] && r.checkpointHeight == 0
    requires s.blocks == map[1 := OneCheckpoint[0].AsBlock(), 2 := Restored]
    ensures Genuine(r.facts, Old.(height := 0)) && AtHeight(s.blocks, Old.(height := 0)) == Old
    ensures Verdict(r, s, Arrival(Old.(height := 0), 0, 0)) == SideChain && Left(r, s, Old.(height := 0)) == s.blocks
  {
    hide Rooted, AllWaiting, Reaches, Apart, RunsOff, Pruned;
  }

  // Relayed again, it lies below the end of the stored current chain.
  method RepeatBelowSaved() returns (m: PeerManager, outcome: Outcome)
    ensures outcome == RanOff
  {
    hide ListOk, Arranged, BooksFit, AllJustified, AllWaiting, Rooted, Reaches, Started, PeerManager.Stranded;
    hide OnlyOldLost, Pruned, ByHeight, PlacesOf, AtTransition;
    hide Verdict, Left, StillPublished, PlacesAfterOne, FewFacts;
    m, outcome := StoreBelowSaved();
    OldAgainHere(m.RulesNow(), m.Now());
    var block;
    outcome, block := m.Accept(Arrival(Old.(height := 0), 0, 0));
  }

  lemma OldAgainHere(r: Rules, s: State)
    requires Lenient(r) && Fit(r.facts, s) && s.last == 2
    requires r.checkpoints == map[0 := 1]
    requires s.blocks == map[1 := OneCheckpoint[0].AsBlock(), 2 := Restored, 3 := Old]
    ensures Genuine(r.facts, Old.(height := 0)) && Verdict(r, s, Arrival(Old.(height := 0), 0, 0)) == RanOff
  {
    hide Rooted, AllWaiting, Reaches, Apart, RunsOff, Pruned;
    RunsOffHere(s.blocks);
  }

  lemma OnlyRestored(blocks: map<BlockHash, Block>, orphans: map<BlockHash, Block>, last: BlockHash)
    requires Known(FewFacts(), blocks) && Started(FewFacts(), OneCheckpoint, 0, [Restored], blocks, orphans, last)
    ensures blocks == map[1 := OneCheckpoint[0].AsBlock(), 2 := Restored] && last == 2
    ensures ByHeight(OneCheckpoint) == map[0 := 1]
  {
    hide Started, Reaches;
    RestoredRightly();
    StartedFrom(FewFacts(), OneCheckpoint, 0, [Restored], blocks, orphans, last);
    hide Rightly, FewFacts;
    SavedChainIsRestored(FewFacts(), OneCheckpoint, 0, [Restored], blocks, orphans, last, [Restored], 0);
    ReachesDown(FewFacts(), blocks, last, 2);
    OnlyThese(FewFacts(), blocks);
  }

  lemma RestoredRightly()
    ensures Rightly(FewFacts(), 2, Restored) && IsSavedChain([Restored], [Restored], 0)
  {
  }

  lemma OnlyThese(f: Facts, blocks: map<BlockHash, Block>)
    requires Known(f, blocks) && 1 in blocks && 2 in blocks
    requires forall h :: h in blocks ==> blocks[h] == Restored || (h == 1 && blocks[h] == OneCheckpoint[0].AsBlock())
    ensures blocks == map[1 := OneCheckpoint[0].AsBlock(), 2 := Restored]
  {
  }

  lemma StartedFrom(f: Facts, checkpoints: seq<Checkpoint>, earliestKeyTime: nat, saved: seq<Block>,
                    blocks: map<BlockHash, Block>, orphans: map<BlockHash, Block>, last: BlockHash)
    requires Known(f, blocks) && Started(f, checkpoints, earliestKeyTime, saved, blocks, orphans, last)
    ensures forall c :: c in checkpoints ==> c.hash in blocks
    ensures forall h :: h in blocks ==>
                          blocks[h] in saved || exists c :: c in checkpoints && c.hash == h && blocks[h] == c.AsBlock()
  {
  }

  lemma RunsOffHere(blocks: map<BlockHash, Block>)
    requires blocks == map[1 := OneCheckpoint[0].AsBlock(), 2 := Restored, 3 := Old]
    ensures Known(FewFacts(), blocks) && RunsOff(FewFacts(), blocks, 2, 1)
  {
  }
}
