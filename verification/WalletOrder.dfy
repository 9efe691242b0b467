// How LWWallet.c orders its transaction list, which transactions belong to the wallet, and which
// depend on which.
module WalletOrder {
  import opened Common
  import opened Ledger

  // A transaction's hash covers the hashes of the transactions it spends, so spending has no cycle.
  // rank is any measure that witnesses this.
  ghost predicate Grounded(rank: Hash -> nat, tx: Tx) {
    forall i :: i in tx.inputs ==> rank(i.txHash) < rank(tx.txHash)
  }

  ghost predicate WellStored(allTx: map<Hash, Tx>, rank: Hash -> nat) {
    forall h :: h in allTx ==> allTx[h].txHash == h && Grounded(rank, allTx[h])
  }

  predicate SpendsTx(tx: Tx, h: Hash) {
    exists i :: i in tx.inputs && i.txHash == h
  }

  predicate IsAscending(allTx: map<Hash, Tx>, ghost rank: Hash -> nat, t1: Tx, t2: Tx)
    requires WellStored(allTx, rank) && Grounded(rank, t1)
    decreases rank(t1.txHash)
  {
    if t1.blockHeight > t2.blockHeight then true
    else if t1.blockHeight < t2.blockHeight then false
    else if SpendsTx(t1, t2.txHash) then true
    else if SpendsTx(t2, t1.txHash) then false
    else exists i :: i in t1.inputs && i.txHash in allTx && IsAscending(allTx, rank, allTx[i.txHash], t2)
  }

  // Position of the last of the first n chain addresses that tx pays.
  function ChainIndex(tx: Tx, chain: seq<string>, n: nat): Option<nat>
    requires n <= |chain|
  {
    if n == 0 then None
    else if exists o :: o in tx.outputs && o.address == chain[n - 1] then Some(n - 1)
    else ChainIndex(tx, chain, n - 1)
  }

  function TieBreak(internalChain: seq<string>, externalChain: seq<string>, t1: Tx, t2: Tx): int {
    var i1 := ChainIndex(t1, internalChain, |internalChain|);
    var j := if i1.None? then ChainIndex(t2, externalChain, |externalChain|)
             else ChainIndex(t2, internalChain, |internalChain|);
    var i := if i1.None? && j.Some? then ChainIndex(t1, externalChain, |externalChain|) else i1;
    if i.Some? && j.Some? && i.value != j.value then (if i.value > j.value then 1 else -1) else 0
  }

  function Compare(allTx: map<Hash, Tx>, ghost rank: Hash -> nat, internalChain: seq<string>,
                   externalChain: seq<string>, t1: Tx, t2: Tx): int
    requires WellStored(allTx, rank) && Grounded(rank, t1) && Grounded(rank, t2)
  {
    if IsAscending(allTx, rank, t1, t2) then 1
    else if IsAscending(allTx, rank, t2, t1) then -1
    else TieBreak(internalChain, externalChain, t1, t2)
  }

  // Whatever breaks ties, the height decides first.
  lemma CompareFollowsHeight(allTx: map<Hash, Tx>, rank: Hash -> nat, internalChain: seq<string>,
                             externalChain: seq<string>, t1: Tx, t2: Tx)
    requires WellStored(allTx, rank) && Grounded(rank, t1) && Grounded(rank, t2)
    ensures t1.blockHeight < t2.blockHeight ==>
              Compare(allTx, rank, internalChain, externalChain, t1, t2) < 0
    ensures t1.blockHeight > t2.blockHeight ==>
              Compare(allTx, rank, internalChain, externalChain, t1, t2) > 0
  {
  }

  lemma AppendedIsWith(hs: seq<Hash>, h: Hash)
    ensures hs + [h] == With(hs, |hs|, h)
  {
  }

  lemma ShiftUp(hs: seq<Hash>, ts: seq<Hash>, i: nat)
    requires i <= |hs| && |ts| == |hs| + 1 && ts == With(hs, i, ts[i])
    ensures i > 0 ==> ts[i - 1] == hs[i - 1] && ts[i := ts[i - 1]] == With(hs, i - 1, hs[i - 1])
    ensures forall h :: ts[i := h] == With(hs, i, h)
  {
  }

  ghost predicate AllStored(allTx: map<Hash, Tx>, hs: seq<Hash>) {
    forall h :: h in hs ==> h in allTx
  }

  ghost predicate Sorted(allTx: map<Hash, Tx>, hs: seq<Hash>)
    requires AllStored(allTx, hs)
  {
    forall j, k :: 0 <= j < k < |hs| ==> allTx[hs[j]].blockHeight <= allTx[hs[k]].blockHeight
  }

  lemma WithAt(hs: seq<Hash>, p: nat, h: Hash)
    requires p <= |hs|
    ensures |With(hs, p, h)| == |hs| + 1 && With(hs, p, h)[p] == h
    ensures forall k :: 0 <= k <= |hs| && k != p ==> With(hs, p, h)[k] == hs[if k < p then k else k - 1]
  {
  }

  // Putting tx where everything after it is not lower and the entry before it is not higher keeps
  // the list sorted.
  lemma InsertSorted(allTx: map<Hash, Tx>, hs: seq<Hash>, p: nat, h: Hash)
    requires AllStored(allTx, hs) && Sorted(allTx, hs) && h in allTx && p <= |hs|
    requires p > 0 ==> allTx[hs[p - 1]].blockHeight <= allTx[h].blockHeight
    requires p < |hs| ==> allTx[h].blockHeight <= allTx[hs[p]].blockHeight
    ensures AllStored(allTx, With(hs, p, h)) && Sorted(allTx, With(hs, p, h))
  {
    hide With;
    WithAt(hs, p, h);
    var ts := With(hs, p, h);
    assert forall j :: 0 <= j < p ==> allTx[hs[j]].blockHeight <= allTx[h].blockHeight;
    assert forall k :: p <= k < |hs| ==> allTx[h].blockHeight <= allTx[hs[k]].blockHeight;
    forall j, k | 0 <= j < k < |ts|
      ensures ts[j] in allTx && ts[k] in allTx && allTx[ts[j]].blockHeight <= allTx[ts[k]].blockHeight
    {
    }
  }

  lemma RemoveSorted(allTx: map<Hash, Tx>, hs: seq<Hash>, p: nat)
    requires AllStored(allTx, hs) && Sorted(allTx, hs) && p < |hs|
    ensures AllStored(allTx, Without(hs, p)) && Sorted(allTx, Without(hs, p))
  {
  }

  // The transaction spends one with that hash, or a stored one that builds on it.
  predicate BuildsOn(allTx: map<Hash, Tx>, ghost rank: Hash -> nat, tx: Tx, h: Hash)
    requires WellStored(allTx, rank) && Grounded(rank, tx)
    decreases rank(tx.txHash)
  {
    exists i :: i in tx.inputs && (i.txHash == h || (i.txHash in allTx && BuildsOn(allTx, rank, allTx[i.txHash], h)))
  }

  // No stored transaction is below one it spends.
  ghost predicate HeightsFollow(allTx: map<Hash, Tx>) {
    forall h, i :: h in allTx && i in allTx[h].inputs && i.txHash in allTx ==>
                     allTx[i.txHash].blockHeight <= allTx[h].blockHeight
  }

  lemma {:induction false} BuildsOnLower(allTx: map<Hash, Tx>, rank: Hash -> nat, t1: Tx, t2: Tx)
    requires WellStored(allTx, rank) && HeightsFollow(allTx)
    requires t1.txHash in allTx && allTx[t1.txHash] == t1 && t2.txHash in allTx && allTx[t2.txHash] == t2
    requires BuildsOn(allTx, rank, t1, t2.txHash)
    ensures rank(t2.txHash) < rank(t1.txHash) && t2.blockHeight <= t1.blockHeight
    decreases rank(t1.txHash)
  {
    var i :| i in t1.inputs
             && (i.txHash == t2.txHash
                 || (i.txHash in allTx && BuildsOn(allTx, rank, allTx[i.txHash], t2.txHash)));
    if i.txHash != t2.txHash {
      BuildsOnLower(allTx, rank, allTx[i.txHash], t2);
    }
  }

  // At equal heights the one that builds on the other comes later, directly or through others.
  lemma {:induction false} AscendingIffBuildsOn(allTx: map<Hash, Tx>, rank: Hash -> nat, t1: Tx, t2: Tx)
    requires WellStored(allTx, rank) && HeightsFollow(allTx)
    requires t1.txHash in allTx && allTx[t1.txHash] == t1 && t2.txHash in allTx && allTx[t2.txHash] == t2
    requires t1.blockHeight == t2.blockHeight
    ensures IsAscending(allTx, rank, t1, t2) <==> BuildsOn(allTx, rank, t1, t2.txHash)
    decreases rank(t1.txHash)
  {
    if BuildsOn(allTx, rank, t1, t2.txHash) {
      BuildsOnLower(allTx, rank, t1, t2);
    }
    forall i | i in t1.inputs && i.txHash in allTx
      ensures IsAscending(allTx, rank, allTx[i.txHash], t2) <==> BuildsOn(allTx, rank, allTx[i.txHash], t2.txHash)
    {
      if allTx[i.txHash].blockHeight == t2.blockHeight {
        AscendingIffBuildsOn(allTx, rank, allTx[i.txHash], t2);
      } else if BuildsOn(allTx, rank, allTx[i.txHash], t2.txHash) {
        BuildsOnLower(allTx, rank, allTx[i.txHash], t2);
      }
    }
  }

  // The list with h put where the scan from the end stops: what follows compares above it, and the
  // entry before it does not.
  ghost predicate Inserted(allTx: map<Hash, Tx>, rank: Hash -> nat, internalChain: seq<string>,
                           externalChain: seq<string>, hs: seq<Hash>, h: Hash, next: seq<Hash>)
    requires WellStored(allTx, rank) && AllStored(allTx, hs) && h in allTx
  {
    exists p :: && 0 <= p <= |hs| && next == With(hs, p, h)
                && (p > 0 ==> Compare(allTx, rank, internalChain, externalChain, allTx[hs[p - 1]], allTx[h]) <= 0)
                && forall k :: p <= k < |hs| ==>
                                 Compare(allTx, rank, internalChain, externalChain, allTx[hs[k]], allTx[h]) > 0
  }

  // Whatever a transaction spends that is listed no higher than it comes before it once it is inserted.
  lemma InsertedAfterSpent(allTx: map<Hash, Tx>, rank: Hash -> nat, internalChain: seq<string>,
                           externalChain: seq<string>, hs: seq<Hash>, h: Hash, next: seq<Hash>, k: nat)
    requires WellStored(allTx, rank) && AllStored(allTx, hs) && h in allTx && k < |hs|
    requires Inserted(allTx, rank, internalChain, externalChain, hs, h, next)
    requires SpendsTx(allTx[h], hs[k]) && allTx[hs[k]].blockHeight <= allTx[h].blockHeight
    ensures exists i, j :: 0 <= i < j < |next| && next[i] == hs[k] && next[j] == h
  {
    hide Compare;
    var p :| && 0 <= p <= |hs| && next == With(hs, p, h)
             && forall k :: p <= k < |hs| ==>
                              Compare(allTx, rank, internalChain, externalChain, allTx[hs[k]], allTx[h]) > 0;
    SpentComparesBelow(allTx, rank, internalChain, externalChain, allTx[hs[k]], allTx[h]);
    WithAt(hs, p, h);
    assert next[k] == hs[k] && next[p] == h;
  }

  lemma SpentComparesBelow(allTx: map<Hash, Tx>, rank: Hash -> nat, internalChain: seq<string>,
                           externalChain: seq<string>, t1: Tx, t2: Tx)
    requires WellStored(allTx, rank) && Grounded(rank, t1) && Grounded(rank, t2)
    requires SpendsTx(t2, t1.txHash) && t1.blockHeight <= t2.blockHeight
    ensures Compare(allTx, rank, internalChain, externalChain, t1, t2) == -1
  {
  }

  // The transaction pays one of the addresses, or spends a stored output that does.
  predicate Contains(allTx: map<Hash, Tx>, addrs: set<string>, tx: Tx) {
    || (exists o :: o in tx.outputs && o.address in addrs)
    || (exists i :: i in tx.inputs && SpendsMine(allTx, addrs, i))
  }

  predicate SpendsMine(allTx: map<Hash, Tx>, addrs: set<string>, i: TxInput) {
    i.txHash in allTx && i.index < |allTx[i.txHash].outputs| && allTx[i.txHash].outputs[i.index].address in addrs
  }

  // The list: no transaction twice, all stored, none above the unconfirmed height, sorted by height.
  ghost predicate Arranged(allTx: map<Hash, Tx>, hs: seq<Hash>, addrs: set<string>, rank: Hash -> nat) {
    && WellStored(allTx, rank)
    && AllStored(allTx, hs)
    && NoneTwice(hs)
    && "" !in addrs
    && Sorted(allTx, hs)
    && (forall h :: h in hs ==> allTx[h].blockHeight <= TX_UNCONFIRMED)
  }

  // And all of them the wallet's.
  ghost predicate ListOk(allTx: map<Hash, Tx>, hs: seq<Hash>, addrs: set<string>, rank: Hash -> nat) {
    Arranged(allTx, hs, addrs, rank) && forall h :: h in hs ==> Contains(allTx, addrs, allTx[h])
  }

  // The listed transactions themselves.
  function ListTxs(allTx: map<Hash, Tx>, hs: seq<Hash>): (txs: seq<Tx>)
    requires forall h :: h in hs ==> h in allTx
    ensures |txs| == |hs| && forall k :: 0 <= k < |hs| ==> txs[k] == allTx[hs[k]]
  {
    if hs == [] then [] else ListTxs(allTx, hs[..|hs| - 1]) + [allTx[hs[|hs| - 1]]]
  }

  function Without(hs: seq<Hash>, p: nat): seq<Hash>
    requires p < |hs|
  {
    hs[..p] + hs[p + 1..]
  }

  function With(hs: seq<Hash>, p: nat, h: Hash): seq<Hash>
    requires p <= |hs|
  {
    hs[..p] + [h] + hs[p..]
  }

  // The entries not in the removed set, in order.
  function Keep(hs: seq<Hash>, removed: set<Hash>): seq<Hash> {
    if hs == [] then []
    else if hs[0] in removed then Keep(hs[1..], removed)
    else [hs[0]] + Keep(hs[1..], removed)
  }

  lemma {:induction false} KeepIff(hs: seq<Hash>, removed: set<Hash>, h: Hash)
    ensures h in Keep(hs, removed) <==> h in hs && h !in removed
  {
    if hs != [] {
      KeepIff(hs[1..], removed, h);
      assert hs == [hs[0]] + hs[1..];
    }
  }

  lemma {:induction false} KeepTwice(hs: seq<Hash>, a: set<Hash>, b: set<Hash>)
    ensures Keep(Keep(hs, a), b) == Keep(hs, a + b)
  {
    if hs != [] {
      KeepTwice(hs[1..], a, b);
      if hs[0] !in a {
        assert Keep(hs, a)[1..] == Keep(hs[1..], a);
      }
    }
  }

  lemma {:induction false} KeepAll(hs: seq<Hash>, removed: set<Hash>)
    requires forall h :: h in hs ==> h !in removed
    ensures Keep(hs, removed) == hs
  {
    if hs != [] {
      KeepAll(hs[1..], removed);
    }
  }

  lemma RestNoneTwice(hs: seq<Hash>)
    requires NoneTwice(hs) && hs != []
    ensures NoneTwice(hs[1..])
    ensures forall k :: 0 < k < |hs| ==> hs[k] != hs[0]
  {
    var rest := hs[1..];
    assert forall k :: 0 <= k < |rest| ==> rest[k] == hs[k + 1];
  }

  lemma WithoutRest(hs: seq<Hash>, p: nat)
    requires 0 < p < |hs|
    ensures hs[1..][p - 1] == hs[p]
    ensures Without(hs, p) == [hs[0]] + Without(hs[1..], p - 1)
  {
  }

  lemma {:induction false} KeepOne(hs: seq<Hash>, p: nat)
    requires NoneTwice(hs) && p < |hs|
    ensures Keep(hs, {hs[p]}) == Without(hs, p)
  {
    RestNoneTwice(hs);
    if p == 0 {
      assert forall h :: h in hs[1..] ==> h != hs[0];
      KeepAll(hs[1..], {hs[0]});
      assert Without(hs, 0) == hs[1..];
    } else {
      hide NoneTwice, Without;
      KeepOne(hs[1..], p - 1);
      WithoutRest(hs, p);
    }
  }

  lemma ListTxsFacts(allTx: map<Hash, Tx>, hs: seq<Hash>, addrs: set<string>, rank: Hash -> nat, env: Env)
    requires Arranged(allTx, hs, addrs, rank) && env.allTx == allTx && env.addrs == addrs
    ensures "" !in addrs && AllStored(allTx, hs)
    ensures |ListTxs(allTx, hs)| == |hs|
    ensures forall k :: 0 <= k < |hs| ==> ListTxs(allTx, hs)[k] == allTx[hs[k]]
    ensures forall k :: 0 <= k < |hs| ==> allTx[hs[k]].txHash == hs[k]
    ensures forall k :: 0 <= k <= |hs| ==> Stored(env, ListTxs(allTx, hs)[..k])
  {
  }

  lemma ArrangedParts(allTx: map<Hash, Tx>, hs: seq<Hash>, addrs: set<string>, rank: Hash -> nat)
    requires Arranged(allTx, hs, addrs, rank)
    ensures WellStored(allTx, rank) && AllStored(allTx, hs) && NoneTwice(hs) && Sorted(allTx, hs)
    ensures forall h :: h in hs ==> allTx[h].txHash == h && allTx[h].blockHeight <= TX_UNCONFIRMED
  {
  }

  lemma ListArranged(allTx: map<Hash, Tx>, hs: seq<Hash>, addrs: set<string>, rank: Hash -> nat)
    requires ListOk(allTx, hs, addrs, rank)
    ensures Arranged(allTx, hs, addrs, rank)
  {
  }

  lemma ListParts(allTx: map<Hash, Tx>, hs: seq<Hash>, addrs: set<string>, rank: Hash -> nat)
    requires ListOk(allTx, hs, addrs, rank)
    ensures Arranged(allTx, hs, addrs, rank)
    ensures WellStored(allTx, rank) && AllStored(allTx, hs) && NoneTwice(hs) && Sorted(allTx, hs)
    ensures forall h :: h in hs ==> allTx[h].txHash == h && allTx[h].blockHeight <= TX_UNCONFIRMED
  {
  }

  // What the recomputed books promise about the list they were computed from.
  lemma BooksBalance(allTx: map<Hash, Tx>, hs: seq<Hash>, addrs: set<string>, rank: Hash -> nat, env: Env)
    requires Arranged(allTx, hs, addrs, rank) && env.allTx == allTx && env.addrs == addrs
    ensures BooksFit(allTx, hs, After(env, ListTxs(allTx, hs)))
  {
    hide After, Sum, Arranged, IsActive, Mine, Stored, Rises, Falls;
    ListTxsFacts(allTx, hs, addrs, rank, env);
    var txs := ListTxs(allTx, hs);
    BalanceIsListedSum(env, txs);
    ReceivedMinusSent(env, txs);
    TotalsAreRisesAndFalls(env, txs);
    forall u | u in After(env, txs).utxos ensures u.hash in hs {
      ListedComesFrom(env, txs, u);
    }
  }

  // The balance is the sum of the listed outputs, which belong to listed transactions; there is one
  // recorded balance per transaction, the last one being the balance; the total received is the sum
  // of all rises of that history and the total sent the sum of all its falls, and their difference is
  // the balance.
  ghost predicate BooksFit(allTx: map<Hash, Tx>, hs: seq<Hash>, b: Books) {
    && (forall u :: u in b.utxos ==> u.hash in hs)
    && b.balance == Sum(allTx, b.utxos) % W64
    && (b.received - b.sent - b.balance) % W64 == 0
    && |b.hist| == |hs| && TotalsFit(b)
  }

  // ----- dependence -----

  // Input i of h spends a stored transaction no higher than h: the scan for the spenders of that
  // transaction gets as far as h.
  predicate Seen(allTx: map<Hash, Tx>, h: Hash, i: TxInput)
    requires h in allTx
  {
    i.txHash in allTx && allTx[i.txHash].blockHeight <= allTx[h].blockHeight
  }

  predicate Finds(allTx: map<Hash, Tx>, h: Hash, x: Hash)
    requires h in allTx
  {
    exists i :: i in allTx[h].inputs && i.txHash == x && Seen(allTx, h, i)
  }

  // h is x, or a listed transaction found while looking for the spenders of one found from x.
  ghost predicate Found(allTx: map<Hash, Tx>, listed: set<Hash>, rank: Hash -> nat, h: Hash, x: Hash)
    requires WellStored(allTx, rank)
    decreases rank(h)
  {
    h == x
    || (h in listed && h in allTx
        && exists i :: i in allTx[h].inputs && Seen(allTx, h, i) && Found(allTx, listed, rank, i.txHash, x))
  }

  lemma {:induction false} FoundRank(allTx: map<Hash, Tx>, listed: set<Hash>, rank: Hash -> nat, h: Hash, x: Hash)
    requires WellStored(allTx, rank) && Found(allTx, listed, rank, h, x) && h != x
    ensures rank(x) < rank(h) && h in listed && h in allTx
    decreases rank(h)
  {
    var i :| i in allTx[h].inputs && Seen(allTx, h, i) && Found(allTx, listed, rank, i.txHash, x);
    if i.txHash != x {
      FoundRank(allTx, listed, rank, i.txHash, x);
    }
  }

  // What is found from x, other than x, is found from a transaction found directly.
  lemma {:induction false} FoundThroughSpender(allTx: map<Hash, Tx>, listed: set<Hash>, rank: Hash -> nat,
                                               h: Hash, x: Hash)
    returns (c: Hash)
    requires WellStored(allTx, rank) && Found(allTx, listed, rank, h, x) && h != x
    ensures c in listed && c in allTx && Finds(allTx, c, x) && Found(allTx, listed, rank, h, c)
    decreases rank(h)
  {
    var i :| i in allTx[h].inputs && Seen(allTx, h, i) && Found(allTx, listed, rank, i.txHash, x);
    if i.txHash == x {
      c := h;
    } else {
      c := FoundThroughSpender(allTx, listed, rank, i.txHash, x);
    }
  }

  lemma {:induction false} FoundTransitive(allTx: map<Hash, Tx>, listed: set<Hash>, rank: Hash -> nat,
                                           h: Hash, c: Hash, x: Hash)
    requires WellStored(allTx, rank)
    requires Found(allTx, listed, rank, h, c) && Found(allTx, listed, rank, c, x)
    ensures Found(allTx, listed, rank, h, x)
    decreases rank(h)
  {
    if h != c {
      var i :| i in allTx[h].inputs && Seen(allTx, h, i) && Found(allTx, listed, rank, i.txHash, c);
      FoundTransitive(allTx, listed, rank, i.txHash, c, x);
    }
  }

  // With a transaction the set contains every listed one found while looking for its spenders.
  ghost predicate Closed(allTx: map<Hash, Tx>, listed: set<Hash>, removed: set<Hash>) {
    forall h, i :: h in listed && h in allTx && i in allTx[h].inputs && Seen(allTx, h, i) && i.txHash in removed ==>
                     h in removed
  }

  // Removing such a set does not disturb what is found among the rest.
  lemma {:induction false} FoundAfterRemoval(allTx: map<Hash, Tx>, listed: set<Hash>, rank: Hash -> nat,
                                             removed: set<Hash>, h: Hash, x: Hash)
    requires WellStored(allTx, rank) && Closed(allTx, listed, removed) && h !in removed
    ensures WellStored(allTx - removed, rank)
    ensures Found(allTx - removed, listed - removed, rank, h, x) <==> Found(allTx, listed, rank, h, x)
    decreases rank(h)
  {
    if h != x && h in listed && h in allTx {
      assert (allTx - removed)[h] == allTx[h];
      forall i | i in allTx[h].inputs && Seen(allTx, h, i)
        ensures Seen(allTx - removed, h, i)
        ensures Found(allTx - removed, listed - removed, rank, i.txHash, x) <==> Found(allTx, listed, rank, i.txHash, x)
      {
        FoundAfterRemoval(allTx, listed, rank, removed, i.txHash, x);
      }
    }
  }

  ghost function FoundFrom(allTx: map<Hash, Tx>, listed: set<Hash>, rank: Hash -> nat, x: Hash): set<Hash>
    requires WellStored(allTx, rank)
  {
    set h | h in allTx.Keys + {x} && Found(allTx, listed, rank, h, x)
  }

  lemma FoundFromClosed(allTx: map<Hash, Tx>, listed: set<Hash>, rank: Hash -> nat, x: Hash)
    requires WellStored(allTx, rank)
    ensures Closed(allTx, listed, FoundFrom(allTx, listed, rank, x))
  {
  }

  // h is x, or a listed transaction that spends one that depends on x.
  ghost predicate DependsOn(allTx: map<Hash, Tx>, listed: set<Hash>, rank: Hash -> nat, h: Hash, x: Hash)
    requires WellStored(allTx, rank)
    decreases rank(h)
  {
    h == x
    || (h in listed && h in allTx
        && exists i :: i in allTx[h].inputs && DependsOn(allTx, listed, rank, i.txHash, x))
  }

  ghost function Dependents(allTx: map<Hash, Tx>, listed: set<Hash>, rank: Hash -> nat, x: Hash): set<Hash>
    requires WellStored(allTx, rank)
  {
    set h | h in allTx.Keys + {x} && DependsOn(allTx, listed, rank, h, x)
  }

  // Every listed spender of a member is a member.
  ghost predicate FullyClosed(allTx: map<Hash, Tx>, listed: set<Hash>, removed: set<Hash>) {
    forall h, i :: h in listed && h in allTx && i in allTx[h].inputs && i.txHash in removed ==> h in removed
  }

  lemma {:induction false} FoundDepends(allTx: map<Hash, Tx>, listed: set<Hash>, rank: Hash -> nat, h: Hash, x: Hash)
    requires WellStored(allTx, rank) && Found(allTx, listed, rank, h, x)
    ensures DependsOn(allTx, listed, rank, h, x)
    decreases rank(h)
  {
    if h != x {
      var i :| i in allTx[h].inputs && Seen(allTx, h, i) && Found(allTx, listed, rank, i.txHash, x);
      FoundDepends(allTx, listed, rank, i.txHash, x);
    }
  }

  lemma {:induction false} FullyClosedAbsorbs(allTx: map<Hash, Tx>, listed: set<Hash>, rank: Hash -> nat,
                                              removed: set<Hash>, h: Hash, x: Hash)
    requires WellStored(allTx, rank) && FullyClosed(allTx, listed, removed) && x in removed
    requires DependsOn(allTx, listed, rank, h, x)
    ensures h in removed
    decreases rank(h)
  {
    if h != x {
      var i :| i in allTx[h].inputs && DependsOn(allTx, listed, rank, i.txHash, x);
      FullyClosedAbsorbs(allTx, listed, rank, removed, i.txHash, x);
    }
  }

  // The scans find everything that depends on x if and only if each listed transaction that spends
  // something found, and is lower than it, is found otherwise.
  lemma FoundAllIff(allTx: map<Hash, Tx>, listed: set<Hash>, rank: Hash -> nat, x: Hash)
    requires WellStored(allTx, rank) && x in allTx
    ensures FoundFrom(allTx, listed, rank, x) <= Dependents(allTx, listed, rank, x)
    ensures FoundFrom(allTx, listed, rank, x) == Dependents(allTx, listed, rank, x)
            <==> forall h, i :: (h in listed && h in allTx && i in allTx[h].inputs && i.txHash in allTx
                                 && i.txHash in FoundFrom(allTx, listed, rank, x)
                                 && allTx[h].blockHeight < allTx[i.txHash].blockHeight) ==>
                                  h in FoundFrom(allTx, listed, rank, x)
    ensures FoundFrom(allTx, listed, rank, x) == Dependents(allTx, listed, rank, x)
            <==> FullyClosed(allTx, listed, FoundFrom(allTx, listed, rank, x))
  {
    var found, all := FoundFrom(allTx, listed, rank, x), Dependents(allTx, listed, rank, x);
    FoundFromClosed(allTx, listed, rank, x);
    forall h | h in found ensures h in all {
      FoundDepends(allTx, listed, rank, h, x);
    }
    if FullyClosed(allTx, listed, found) {
      forall h | h in all ensures h in found {
        FullyClosedAbsorbs(allTx, listed, rank, found, h, x);
      }
    }
    DependentsFullyClosed(allTx, listed, rank, x);
  }

  lemma DependentsFullyClosed(allTx: map<Hash, Tx>, listed: set<Hash>, rank: Hash -> nat, x: Hash)
    requires WellStored(allTx, rank)
    ensures FullyClosed(allTx, listed, Dependents(allTx, listed, rank, x))
  {
  }
}
