// What each change of the wallet's store does to the facts kept about the transaction list.
module WalletSteps {
  import opened Common
  import opened Ledger
  import opened WalletOrder

  predicate PaysNone(addrs: set<string>, tx: Tx) {
    forall o :: o in tx.outputs ==> o.address !in addrs
  }

  predicate SameEnds(a: Tx, b: Tx) {
    a.txHash == b.txHash && a.inputs == b.inputs && a.outputs == b.outputs
  }

  // other holds the transactions of allTx with the same inputs and outputs, and whatever it lacks
  // pays none of the addresses.
  ghost predicate SamePayments(allTx: map<Hash, Tx>, other: map<Hash, Tx>, addrs: set<string>) {
    && (forall h :: h in other ==> h in allTx && SameEnds(allTx[h], other[h]))
    && (forall h :: h in allTx && h !in other ==> PaysNone(addrs, allTx[h]))
  }

  // Belonging to the wallet depends only on inputs and outputs.
  lemma SameContains(allTx: map<Hash, Tx>, other: map<Hash, Tx>, addrs: set<string>, tx: Tx, tx': Tx)
    requires SamePayments(allTx, other, addrs) && SameEnds(tx, tx')
    ensures Contains(allTx, addrs, tx) == Contains(other, addrs, tx')
  {
    forall i | i in tx.inputs ensures SpendsMine(allTx, addrs, i) == SpendsMine(other, addrs, i) {
      if i.txHash in allTx && i.index < |allTx[i.txHash].outputs| {
        assert allTx[i.txHash].outputs[i.index] in allTx[i.txHash].outputs;
      }
    }
  }

  lemma {:induction false} SameSum(allTx: map<Hash, Tx>, other: map<Hash, Tx>, us: seq<Utxo>)
    requires forall u :: u in us ==>
                           u.hash in allTx && u.hash in other && allTx[u.hash].outputs == other[u.hash].outputs
    ensures Sum(allTx, us) == Sum(other, us)
  {
    if us != [] {
      assert us[0] in us;
      assert forall u :: u in us[1..] ==> u in us;
      SameSum(allTx, other, us[1..]);
    }
  }

  // The books stay right while the listed transactions and their outputs stay the same.
  lemma BooksStillFit(allTx: map<Hash, Tx>, hs: seq<Hash>, other: map<Hash, Tx>, hs': seq<Hash>, b: Books)
    requires BooksFit(allTx, hs, b) && |hs'| == |hs|
    requires forall h :: h in hs ==> h in hs' && h in allTx && h in other && allTx[h].outputs == other[h].outputs
    ensures BooksFit(other, hs', b)
  {
    SameSum(allTx, other, b.utxos);
  }

  // ----- starting -----

  // The store filled from a list of saved transactions: of the signed ones with one hash the first is
  // kept.
  function Loaded(txs: seq<Tx>, signed: Tx -> bool): map<Hash, Tx> {
    if txs == [] then map[]
    else
      var before, tx := Loaded(txs[..|txs| - 1], signed), txs[|txs| - 1];
      if !signed(tx) || tx.txHash in before then before else before[tx.txHash := tx]
  }

  lemma LoadedNext(txs: seq<Tx>, signed: Tx -> bool, k: nat)
    requires k < |txs|
    ensures Loaded(txs[..k + 1], signed)
            == if !signed(txs[k]) || txs[k].txHash in Loaded(txs[..k], signed) then Loaded(txs[..k], signed)
               else Loaded(txs[..k], signed)[txs[k].txHash := txs[k]]
  {
    assert txs[..k + 1][..k] == txs[..k];
  }

  // Position k holds tx, the first signed one of its hash.
  predicate FirstAt(txs: seq<Tx>, signed: Tx -> bool, k: nat, tx: Tx) {
    && k < |txs| && txs[k] == tx && signed(tx)
    && forall j :: 0 <= j < k ==> txs[j].txHash != tx.txHash || !signed(txs[j])
  }

  lemma {:induction false} LoadedIsFirst(txs: seq<Tx>, signed: Tx -> bool, h: Hash)
    ensures h in Loaded(txs, signed) <==> exists tx :: tx in txs && tx.txHash == h && signed(tx)
    ensures h in Loaded(txs, signed) ==>
              Loaded(txs, signed)[h].txHash == h && exists k :: FirstAt(txs, signed, k, Loaded(txs, signed)[h])
  {
    if txs != [] {
      var rest, tx := txs[..|txs| - 1], txs[|txs| - 1];
      LoadedIsFirst(rest, signed, h);
      assert forall t :: t in txs <==> t in rest || t == tx;
      if h in Loaded(rest, signed) {
        var k :| FirstAt(rest, signed, k, Loaded(rest, signed)[h]);
        assert FirstAt(txs, signed, k, Loaded(txs, signed)[h]);
      } else if tx.txHash == h && signed(tx) {
        assert forall j :: 0 <= j < |rest| ==> rest[j] in rest;
        assert FirstAt(txs, signed, |rest|, tx);
      }
    }
  }

  ghost predicate AllSaved(txs: seq<Tx>, rank: Hash -> nat) {
    forall tx :: tx in txs ==> Grounded(rank, tx) && tx.blockHeight <= TX_UNCONFIRMED
  }

  // What holds of list and store while saved transactions are added, before the wallet's addresses
  // are known.
  ghost predicate Loading(allTx: map<Hash, Tx>, hs: seq<Hash>, rank: Hash -> nat) {
    && WellStored(allTx, rank) && AllStored(allTx, hs) && Sorted(allTx, hs)
    && NoneTwice(hs) && Members(hs) == allTx.Keys
    && forall h :: h in allTx ==> allTx[h].blockHeight <= TX_UNCONFIRMED
  }

  lemma LoadNone(rank: Hash -> nat, signed: Tx -> bool)
    ensures Loaded([], signed) == map[] && Loading(map[], [], rank)
  {
  }

  lemma LoadStored(allTx: map<Hash, Tx>, hs: seq<Hash>, rank: Hash -> nat, tx: Tx)
    requires Loading(allTx, hs, rank) && tx.txHash !in allTx && Grounded(rank, tx)
    ensures var more := allTx[tx.txHash := tx]; WellStored(more, rank) && AllStored(more, hs) && Sorted(more, hs)
  {
    assert forall h :: h in hs ==> h in Members(hs);
  }

  lemma LoadListed(allTx: map<Hash, Tx>, hs: seq<Hash>, rank: Hash -> nat, tx: Tx, p: nat)
    requires Loading(allTx, hs, rank) && tx.txHash !in allTx && tx.blockHeight <= TX_UNCONFIRMED && p <= |hs|
    requires var more, ts := allTx[tx.txHash := tx], With(hs, p, tx.txHash);
             WellStored(more, rank) && AllStored(more, ts) && Sorted(more, ts)
    ensures Loading(allTx[tx.txHash := tx], With(hs, p, tx.txHash), rank)
  {
    hide With, Sorted, WellStored;
    assert tx.txHash !in Members(hs);
    WithMembers(hs, p, tx.txHash);
    assert Members(With(hs, p, tx.txHash)) == Members(hs) + {tx.txHash};
  }

  ghost predicate AllContained(allTx: map<Hash, Tx>, addrs: set<string>) {
    forall h :: h in allTx ==> Contains(allTx, addrs, allTx[h])
  }

  lemma LoadDone(allTx: map<Hash, Tx>, hs: seq<Hash>, addrs: set<string>, rank: Hash -> nat)
    requires Loading(allTx, hs, rank) && "" !in addrs
    ensures Arranged(allTx, hs, addrs, rank) && Members(hs) == allTx.Keys
    ensures ListOk(allTx, hs, addrs, rank) <==> AllContained(allTx, addrs)
  {
    assert forall h :: h in allTx ==> h in Members(hs);
    hide Contains;
  }

  // ----- registering -----

  lemma AddedToStore(allTx: map<Hash, Tx>, hs: seq<Hash>, addrs: set<string>, rank: Hash -> nat, tx: Tx)
    requires ListOk(allTx, hs, addrs, rank) && tx.txHash !in allTx && Grounded(rank, tx)
    ensures ListOk(allTx[tx.txHash := tx], hs, addrs, rank) && tx.txHash !in hs
  {
    var other := allTx[tx.txHash := tx];
    forall h | h in hs ensures Contains(other, addrs, other[h]) {
      ContainsGrows(allTx, tx, addrs, allTx[h]);
    }
  }

  lemma ContainsGrows(allTx: map<Hash, Tx>, added: Tx, addrs: set<string>, tx: Tx)
    requires Contains(allTx, addrs, tx) && added.txHash !in allTx
    ensures Contains(allTx[added.txHash := added], addrs, tx)
  {
    if !exists o :: o in tx.outputs && o.address in addrs {
      var i :| i in tx.inputs && SpendsMine(allTx, addrs, i);
      assert SpendsMine(allTx[added.txHash := added], addrs, i);
    }
  }

  lemma WithMembers(hs: seq<Hash>, p: nat, h: Hash)
    requires p <= |hs|
    ensures forall x :: x in With(hs, p, h) <==> x in hs || x == h
    ensures NoneTwice(hs) && h !in hs ==> NoneTwice(With(hs, p, h))
  {
    forall x ensures x in With(hs, p, h) <==> x in hs || x == h {
      assert hs == hs[..p] + hs[p..];
    }
    if NoneTwice(hs) && h !in hs {
      var ts := With(hs, p, h);
      forall j, k | 0 <= j < k < |ts| ensures ts[j] != ts[k] {
        assert j != p ==> ts[j] == hs[if j < p then j else j - 1];
        assert k != p ==> ts[k] == hs[if k < p then k else k - 1];
      }
    }
  }

  lemma WithoutMembers(hs: seq<Hash>, p: nat)
    requires p < |hs| && NoneTwice(hs)
    ensures forall x :: x in Without(hs, p) <==> x in hs && x != hs[p]
    ensures NoneTwice(Without(hs, p))
  {
    var ts := Without(hs, p);
    assert hs == hs[..p] + [hs[p]] + hs[p + 1..];
    assert forall k :: 0 <= k < |ts| ==> ts[k] == hs[if k < p then k else k + 1];
  }

  lemma InsertedIntoList(allTx: map<Hash, Tx>, hs: seq<Hash>, addrs: set<string>, rank: Hash -> nat, p: nat, h: Hash)
    requires ListOk(allTx, hs, addrs, rank) && p <= |hs| && h in allTx && h !in hs
    requires allTx[h].blockHeight <= TX_UNCONFIRMED && Contains(allTx, addrs, allTx[h])
    requires AllStored(allTx, With(hs, p, h)) && Sorted(allTx, With(hs, p, h))
    ensures ListOk(allTx, With(hs, p, h), addrs, rank)
  {
    hide With, Sorted, Contains, WellStored;
    WithMembers(hs, p, h);
  }

  lemma TakenFromList(allTx: map<Hash, Tx>, hs: seq<Hash>, addrs: set<string>, rank: Hash -> nat, p: nat)
    requires Arranged(allTx, hs, addrs, rank) && p < |hs|
    ensures Arranged(allTx, Without(hs, p), addrs, rank) && hs[p] !in Without(hs, p)
    ensures forall h :: h in Without(hs, p) ==> h in hs
  {
    hide With, Sorted, Contains, WellStored, NoneTwice;
    WithoutMembers(hs, p);
    RemoveSorted(allTx, hs, p);
  }

  // ----- changing heights -----

  function Reheight(tx: Tx, height: nat, time: nat): Tx {
    tx.(blockHeight := height, timestamp := time)
  }

  predicate Unchanged(tx: Tx, height: nat, time: nat) {
    tx.blockHeight == height && tx.timestamp == time
  }

  // A named transaction is forgotten when it is given a new place in the chain and is not the wallet's.
  predicate Stays(allTx: map<Hash, Tx>, addrs: set<string>, tx: Tx, height: nat, time: nat) {
    Contains(allTx, addrs, tx) || height == TX_UNCONFIRMED || Unchanged(tx, height, time)
  }

  // The store after the named transactions are given a height and a time.
  function Heightened(allTx: map<Hash, Tx>, addrs: set<string>, named: set<Hash>, height: nat, time: nat)
    : map<Hash, Tx>
  {
    map h | h in allTx && (h in named ==> Stays(allTx, addrs, allTx[h], height, time)) ::
      if h in named then Reheight(allTx[h], height, time) else allTx[h]
  }

  lemma HeightenedPayments(allTx: map<Hash, Tx>, addrs: set<string>, named: set<Hash>, height: nat, time: nat)
    ensures SamePayments(allTx, Heightened(allTx, addrs, named, height, time), addrs)
  {
    var other := Heightened(allTx, addrs, named, height, time);
    forall h | h in allTx && h !in other ensures PaysNone(addrs, allTx[h]) {
      assert !Contains(allTx, addrs, allTx[h]);
    }
  }

  lemma HeightenNone(allTx: map<Hash, Tx>, addrs: set<string>, height: nat, time: nat)
    ensures Heightened(allTx, addrs, {}, height, time) == allTx
  {
  }

  // Naming one more hash: the three outcomes of the loop body.
  lemma HeightenOneMore(allTx: map<Hash, Tx>, addrs: set<string>, named: set<Hash>, x: Hash, height: nat, time: nat,
                        current: map<Hash, Tx>)
    requires current == Heightened(allTx, addrs, named, height, time)
    ensures x !in current || Unchanged(current[x], height, time) ==>
              && Heightened(allTx, addrs, named + {x}, height, time) == current
              && (x in named || x !in allTx || Unchanged(allTx[x], height, time))
    ensures x in current && !Unchanged(current[x], height, time) ==>
              && x !in named && x in allTx && current[x] == allTx[x]
              && Contains(current[x := Reheight(current[x], height, time)], addrs, Reheight(current[x], height, time))
                 == Contains(allTx, addrs, allTx[x])
              && Heightened(allTx, addrs, named + {x}, height, time)
                 == (if Contains(allTx, addrs, allTx[x]) || height == TX_UNCONFIRMED
                     then current[x := Reheight(current[x], height, time)] else current - {x})
  {
    hide Contains;
    if x in current && !Unchanged(current[x], height, time) {
      var other := current[x := Reheight(current[x], height, time)];
      HeightenedPayments(allTx, addrs, named, height, time);
      assert SamePayments(allTx, other, addrs);
      SameContains(allTx, other, addrs, allTx[x], Reheight(current[x], height, time));
    }
  }

  // Listed transactions untouched, the rest of the store differing only as SamePayments allows.
  lemma SameList(allTx: map<Hash, Tx>, hs: seq<Hash>, other: map<Hash, Tx>, addrs: set<string>, rank: Hash -> nat)
    requires ListOk(allTx, hs, addrs, rank) && SamePayments(allTx, other, addrs)
    requires forall h :: h in hs ==> h in other && other[h] == allTx[h]
    ensures ListOk(other, hs, addrs, rank)
  {
    hide Contains;
    forall h | h in hs ensures Contains(other, addrs, other[h]) {
      SameContains(allTx, other, addrs, allTx[h], other[h]);
    }
  }

  // Every listed transaction above the height becomes unconfirmed.
  function Unconfirmed(allTx: map<Hash, Tx>, hs: seq<Hash>, height: nat): map<Hash, Tx> {
    map h | h in allTx ::
      if h in hs && allTx[h].blockHeight > height then allTx[h].(blockHeight := TX_UNCONFIRMED) else allTx[h]
  }

  lemma UnconfirmedList(allTx: map<Hash, Tx>, hs: seq<Hash>, height: nat, addrs: set<string>, rank: Hash -> nat)
    requires ListOk(allTx, hs, addrs, rank)
    ensures ListOk(Unconfirmed(allTx, hs, height), hs, addrs, rank)
  {
    hide Contains;
    var other := Unconfirmed(allTx, hs, height);
    forall h | h in hs ensures Contains(other, addrs, other[h]) {
      SameContains(allTx, other, addrs, allTx[h], other[h]);
    }
  }

  // What changing one stored transaction's height, or then forgetting it, leaves of the list facts.
  lemma RelocatedStore(allTx: map<Hash, Tx>, hs: seq<Hash>, addrs: set<string>, rank: Hash -> nat, x: Hash,
                       height: nat, time: nat)
    requires ListOk(allTx, hs, addrs, rank) && x in allTx
    ensures x !in hs ==> ListOk(allTx[x := Reheight(allTx[x], height, time)], hs, addrs, rank)
    ensures !Contains(allTx[x := Reheight(allTx[x], height, time)], addrs, Reheight(allTx[x], height, time)) ==>
              x !in hs && ListOk(allTx - {x}, hs, addrs, rank)
  {
    hide ListOk;
    var other := allTx[x := Reheight(allTx[x], height, time)];
    SameContains(allTx, other, addrs, allTx[x], other[x]);
    ListParts(allTx, hs, addrs, rank);
    if x !in hs {
      SameList(allTx, hs, other, addrs, rank);
    }
    if !Contains(other, addrs, other[x]) {
      ListedContains(allTx, hs, addrs, rank);
      SameList(allTx, hs, allTx - {x}, addrs, rank);
    }
  }

  lemma ListedContains(allTx: map<Hash, Tx>, hs: seq<Hash>, addrs: set<string>, rank: Hash -> nat)
    requires ListOk(allTx, hs, addrs, rank)
    ensures forall h :: h in hs ==> Contains(allTx, addrs, allTx[h])
  {
  }

  lemma RestContained(allTx: map<Hash, Tx>, hs: seq<Hash>, rest: seq<Hash>, addrs: set<string>, rank: Hash -> nat)
    requires ListOk(allTx, hs, addrs, rank) && Arranged(allTx, rest, addrs, rank)
    requires forall h :: h in rest ==> h in hs
    ensures ListOk(allTx, rest, addrs, rank)
  {
  }

  lemma RelocatedRest(allTx: map<Hash, Tx>, hs: seq<Hash>, addrs: set<string>, rank: Hash -> nat, p: nat,
                      height: nat, time: nat)
    requires ListOk(allTx, hs, addrs, rank) && p < |hs| && AllStored(allTx, hs)
    ensures ListOk(allTx[hs[p] := Reheight(allTx[hs[p]], height, time)], Without(hs, p), addrs, rank)
    ensures hs[p] !in Without(hs, p)
  {
    hide ListOk, Without, Contains;
    var x := hs[p];
    ListParts(allTx, hs, addrs, rank);
    TakenFromList(allTx, hs, addrs, rank, p);
    ListedContains(allTx, hs, addrs, rank);
    assert ListOk(allTx, Without(hs, p), addrs, rank) by {
      RestContained(allTx, hs, Without(hs, p), addrs, rank);
    }
    ListParts(allTx, Without(hs, p), addrs, rank);
    SameList(allTx, Without(hs, p), allTx[x := Reheight(allTx[x], height, time)], addrs, rank);
  }

  lemma RelocatedMembers(hs: seq<Hash>, k: nat, p: nat, ts: seq<Hash>)
    requires NoneTwice(hs) && k < |hs| && p <= |Without(hs, k)| && ts == With(Without(hs, k), p, hs[k])
    ensures |ts| == |hs| && forall h :: h in ts <==> h in hs
  {
    WithoutMembers(hs, k);
    WithMembers(Without(hs, k), p, hs[k]);
  }

  lemma TailIsAbove(allTx: map<Hash, Tx>, hs: seq<Hash>, i: nat, height: nat)
    requires AllStored(allTx, hs) && Sorted(allTx, hs) && i <= |hs|
    requires forall h :: h in hs[i..] ==> allTx[h].blockHeight > height
    requires i > 0 ==> allTx[hs[i - 1]].blockHeight <= height
    ensures forall h :: h in hs[i..] <==> h in hs && allTx[h].blockHeight > height
  {
    assert hs == hs[..i] + hs[i..];
    forall k | 0 <= k < i ensures allTx[hs[k]].blockHeight <= height {
    }
  }

  lemma TailIsInhabited(allTx: map<Hash, Tx>, hs: seq<Hash>, i: nat, height: nat)
    requires AllStored(allTx, hs) && i <= |hs|
    requires forall h :: h in hs[i..] <==> h in hs && allTx[h].blockHeight > height
    ensures |hs| - i > 0 <==> exists h :: h in hs && allTx[h].blockHeight > height
  {
    if i < |hs| {
      assert hs[i] in hs[i..];
    }
  }

  // Marking exactly the listed transactions above the height keeps the list and the books right.
  lemma UnconfirmedStep(allTx: map<Hash, Tx>, hs: seq<Hash>, i: nat, height: nat, other: map<Hash, Tx>,
                        addrs: set<string>, rank: Hash -> nat, b: Books)
    requires ListOk(allTx, hs, addrs, rank) && BooksFit(allTx, hs, b) && i <= |hs| && AllStored(allTx, hs)
    requires forall h :: h in hs[i..] <==> h in hs && allTx[h].blockHeight > height
    requires other.Keys == allTx.Keys
    requires forall h :: h in allTx ==>
                           other[h] == if h in hs[i..] then allTx[h].(blockHeight := TX_UNCONFIRMED) else allTx[h]
    ensures other == Unconfirmed(allTx, hs, height)
    ensures ListOk(other, hs, addrs, rank) && Arranged(other, hs, addrs, rank) && BooksFit(other, hs, b)
  {
    hide ListOk, Arranged, BooksFit;
    assert other == Unconfirmed(allTx, hs, height);
    UnconfirmedList(allTx, hs, height, addrs, rank);
    ListArranged(other, hs, addrs, rank);
    BooksStillFit(allTx, hs, other, hs, b);
  }

  // ----- removing -----

  lemma RemovedFromStore(allTx: map<Hash, Tx>, hs: seq<Hash>, addrs: set<string>, rank: Hash -> nat, x: Hash)
    requires Arranged(allTx, hs, addrs, rank) && x !in hs
    ensures Arranged(allTx - {x}, hs, addrs, rank)
  {
  }

  // What remains is the wallet's if nothing that remains spends what has gone.
  lemma RemainsContained(allTx: map<Hash, Tx>, hs: seq<Hash>, addrs: set<string>, rank: Hash -> nat, gone: set<Hash>)
    requires ListOk(allTx, hs, addrs, rank) && FullyClosed(allTx, Members(hs), gone)
    requires Arranged(allTx - gone, Keep(hs, gone), addrs, rank)
    ensures ListOk(allTx - gone, Keep(hs, gone), addrs, rank)
  {
    forall h | h in Keep(hs, gone) ensures h in hs && h !in gone && Contains(allTx - gone, addrs, allTx[h]) {
      KeepIff(hs, gone, h);
      if !exists o :: o in allTx[h].outputs && o.address in addrs {
        var i :| i in allTx[h].inputs && SpendsMine(allTx, addrs, i);
        assert SpendsMine(allTx - gone, addrs, i);
      }
    }
  }

  // The transactions ranked above h in the list: what is left to descend through.
  ghost function Above(hs: seq<Hash>, rank: Hash -> nat, x: Hash): set<Hash> {
    set h | h in hs && rank(h) > rank(x)
  }

  lemma FewerAbove(hs: seq<Hash>, hs': seq<Hash>, rank: Hash -> nat, x: Hash, c: Hash)
    requires c in hs && rank(c) > rank(x) && forall h :: h in hs' ==> h in hs
    ensures |Above(hs', rank, c)| < |Above(hs, rank, x)|
  {
    assert c in Above(hs, rank, x) && c !in Above(hs', rank, c);
    assert Above(hs', rank, c) < Above(hs, rank, x);
    SmallerSet(Above(hs', rank, c), Above(hs, rank, x));
  }

  // With a closed set already gone, removing c and what still depends on it amounts to removing
  // everything that depended on c at the start.
  lemma RemoveNext(allTx: map<Hash, Tx>, hs: seq<Hash>, rank: Hash -> nat, gone: set<Hash>, c: Hash)
    requires WellStored(allTx, rank) && AllStored(allTx, hs) && c in allTx && Closed(allTx, Members(hs), gone)
    ensures WellStored(allTx - gone, rank) && c in FoundFrom(allTx, Members(hs), rank, c)
    ensures Closed(allTx, Members(hs), gone + FoundFrom(allTx, Members(hs), rank, c))
    ensures c in gone ==>
              && allTx - (gone + FoundFrom(allTx, Members(hs), rank, c)) == allTx - gone
              && Keep(hs, gone + FoundFrom(allTx, Members(hs), rank, c)) == Keep(hs, gone)
    ensures c !in gone ==>
              var still := FoundFrom(allTx - gone, Members(Keep(hs, gone)), rank, c);
              && allTx - (gone + FoundFrom(allTx, Members(hs), rank, c)) == allTx - gone - still
              && Keep(hs, gone + FoundFrom(allTx, Members(hs), rank, c)) == Keep(Keep(hs, gone), still)
  {
    hide Keep, Closed, Found;
    var listed, all := Members(hs), FoundFrom(allTx, Members(hs), rank, c);
    FoundItself(allTx, listed, rank, c);
    FoundFromClosed(allTx, listed, rank, c);
    ClosedUnion(allTx, listed, gone, all);
    if c in gone {
      forall h | h in all ensures h in gone {
        ClosedAbsorbs(allTx, listed, rank, gone, h, c);
      }
      assert gone + all == gone;
    } else {
      var still := FoundFrom(allTx - gone, Members(Keep(hs, gone)), rank, c);
      forall h ensures h in Keep(hs, gone) <==> h in hs && h !in gone {
        KeepIff(hs, gone, h);
      }
      assert Members(Keep(hs, gone)) == listed - gone;
      forall h | h !in gone
        ensures Found(allTx - gone, listed - gone, rank, h, c) == Found(allTx, listed, rank, h, c)
      {
        FoundAfterRemoval(allTx, listed, rank, gone, h, c);
      }
      assert gone + still == gone + all;
      KeepTwice(hs, gone, still);
    }
  }

  lemma FoundItself(allTx: map<Hash, Tx>, listed: set<Hash>, rank: Hash -> nat, c: Hash)
    requires WellStored(allTx, rank)
    ensures c in FoundFrom(allTx, listed, rank, c)
  {
  }

  lemma ClosedUnion(allTx: map<Hash, Tx>, listed: set<Hash>, a: set<Hash>, b: set<Hash>)
    requires Closed(allTx, listed, a) && Closed(allTx, listed, b)
    ensures Closed(allTx, listed, a + b)
  {
  }

  lemma {:induction false} ClosedAbsorbs(allTx: map<Hash, Tx>, listed: set<Hash>, rank: Hash -> nat, gone: set<Hash>,
                                         h: Hash, c: Hash)
    requires WellStored(allTx, rank) && Closed(allTx, listed, gone) && c in gone
    requires Found(allTx, listed, rank, h, c)
    ensures h in gone
    decreases rank(h)
  {
    if h != c {
      var i :| i in allTx[h].inputs && Seen(allTx, h, i) && Found(allTx, listed, rank, i.txHash, c);
      ClosedAbsorbs(allTx, listed, rank, gone, i.txHash, c);
    }
  }

  // If the scan finds no spender, there is nothing but the transaction itself to remove.
  lemma NothingFound(allTx: map<Hash, Tx>, hs: seq<Hash>, rank: Hash -> nat, x: Hash)
    requires WellStored(allTx, rank) && AllStored(allTx, hs)
    requires forall h :: h in hs ==> !Finds(allTx, h, x)
    ensures FoundFrom(allTx, Members(hs), rank, x) == {x}
  {
    hide Finds;
    forall h | h in allTx.Keys && Found(allTx, Members(hs), rank, h, x) ensures h == x {
      if h != x {
        var c := FoundThroughSpender(allTx, Members(hs), rank, h, x);
      }
    }
  }

  // Spenders that are all lower than what they spend are overlooked, and stay.
  lemma SpenderOverlooked(allTx: map<Hash, Tx>, hs: seq<Hash>, rank: Hash -> nat, x: Hash, c: Hash)
    requires WellStored(allTx, rank) && AllStored(allTx, hs) && x in allTx && c in hs && SpendsTx(allTx[c], x)
    requires forall h :: h in hs && SpendsTx(allTx[h], x) ==> allTx[h].blockHeight < allTx[x].blockHeight
    ensures FoundFrom(allTx, Members(hs), rank, x) == {x} && c in Dependents(allTx, Members(hs), rank, x) && c != x
  {
    NothingFound(allTx, hs, rank, x);
    assert DependsOn(allTx, Members(hs), rank, x, x);
  }

  // What is found from x is x itself and whatever is found from a direct spender of x.
  lemma FoundOfSpenders(allTx: map<Hash, Tx>, hs: seq<Hash>, rank: Hash -> nat, x: Hash, c: Hash)
    requires WellStored(allTx, rank) && AllStored(allTx, hs) && c in hs && Finds(allTx, c, x)
    ensures rank(c) > rank(x)
    ensures FoundFrom(allTx, Members(hs), rank, c) <= FoundFrom(allTx, Members(hs), rank, x)
    ensures x !in FoundFrom(allTx, Members(hs), rank, c)
  {
    var listed := Members(hs);
    assert Found(allTx, listed, rank, x, x);
    assert Found(allTx, listed, rank, c, x);
    forall h | h in FoundFrom(allTx, listed, rank, c) ensures Found(allTx, listed, rank, h, x) && h != x {
      FoundTransitive(allTx, listed, rank, h, c, x);
      if h != c {
        FoundRank(allTx, listed, rank, h, c);
      }
    }
  }

  lemma NoneSpendsItself(allTx: map<Hash, Tx>, rank: Hash -> nat, x: Hash)
    requires WellStored(allTx, rank) && x in allTx
    ensures !SpendsTx(allTx[x], x)
  {
  }

  // found holds the entries from position i on that spend x and are no lower.
  ghost predicate SpendersAmong(allTx: map<Hash, Tx>, hs: seq<Hash>, i: nat, x: Hash, found: seq<Hash>)
    requires AllStored(allTx, hs) && i <= |hs|
  {
    forall c :: c in found <==> c in hs[i..] && Finds(allTx, c, x)
  }

  lemma NoSpendersYet(allTx: map<Hash, Tx>, hs: seq<Hash>, x: Hash)
    requires AllStored(allTx, hs)
    ensures SpendersAmong(allTx, hs, |hs|, x, [])
  {
  }

  lemma OneMoreSpender(allTx: map<Hash, Tx>, hs: seq<Hash>, i: nat, x: Hash, found: seq<Hash>)
    requires AllStored(allTx, hs) && 0 < i <= |hs| && SpendersAmong(allTx, hs, i, x, found)
    requires x in allTx && allTx[hs[i - 1]].blockHeight >= allTx[x].blockHeight
    ensures SpendersAmong(allTx, hs, i - 1, x, if SpendsTx(allTx[hs[i - 1]], x) then found + [hs[i - 1]] else found)
  {
    assert hs[i - 1..] == [hs[i - 1]] + hs[i..];
    assert Finds(allTx, hs[i - 1], x) <==> SpendsTx(allTx[hs[i - 1]], x);
    hide SpendsTx, Finds;
  }

  // The scan that stops at the first lower entry has met every listed spender that is no lower.
  lemma SpendersAreInTail(allTx: map<Hash, Tx>, hs: seq<Hash>, i: nat, x: Hash, found: seq<Hash>)
    requires AllStored(allTx, hs) && Sorted(allTx, hs) && x in allTx && i <= |hs|
    requires i > 0 ==> allTx[hs[i - 1]].blockHeight < allTx[x].blockHeight
    requires SpendersAmong(allTx, hs, i, x, found)
    ensures forall c :: c in found <==> c in hs && Finds(allTx, c, x)
  {
    forall c | c in hs && Finds(allTx, c, x) ensures c in hs[i..] {
      var k :| 0 <= k < |hs| && hs[k] == c;
      assert allTx[x].blockHeight <= allTx[hs[k]].blockHeight;
      assert k >= i;
      assert hs[i..][k - i] == c;
    }
  }

  lemma NothingGone(allTx: map<Hash, Tx>, hs: seq<Hash>)
    ensures allTx - {} == allTx && Keep(hs, {}) == hs && Closed(allTx, Members(hs), {})
  {
    KeepAll(hs, {});
  }

  lemma FewerStored(allTx: map<Hash, Tx>, gone: set<Hash>, c: Hash)
    requires c in allTx && c in gone
    ensures |(allTx - gone).Keys| < |allTx.Keys|
  {
    SmallerSet((allTx - gone).Keys, allTx.Keys);
  }

  lemma RemovalDecreases(allTx: map<Hash, Tx>, hs: seq<Hash>, rank: Hash -> nat, gone: set<Hash>, x: Hash, c: Hash)
    requires c in hs && rank(c) > rank(x)
    ensures |(allTx - gone).Keys| <= |allTx.Keys|
    ensures |Above(Keep(hs, gone), rank, c)| < |Above(hs, rank, x)|
  {
    forall h | h in Keep(hs, gone) ensures h in hs {
      KeepIff(hs, gone, h);
    }
    FewerAbove(hs, Keep(hs, gone), rank, x, c);
    if (allTx - gone).Keys != allTx.Keys {
      SmallerSet((allTx - gone).Keys, allTx.Keys);
    }
  }

  // What the recursive call for a direct spender c of x removes, seen from the start.
  lemma RemoveSpender(allTx: map<Hash, Tx>, hs: seq<Hash>, rank: Hash -> nat, gone: set<Hash>, x: Hash, c: Hash)
    returns (next: set<Hash>)
    requires WellStored(allTx, rank) && AllStored(allTx, hs) && Closed(allTx, Members(hs), gone)
    requires c in hs && Finds(allTx, c, x)
    requires gone <= FoundFrom(allTx, Members(hs), rank, x) && x !in gone
    ensures WellStored(allTx - gone, rank) && Closed(allTx, Members(hs), next)
    ensures gone <= next <= FoundFrom(allTx, Members(hs), rank, x) && x !in next && c in next
    ensures c in gone ==> allTx - next == allTx - gone && Keep(hs, next) == Keep(hs, gone)
    ensures c !in gone ==>
              var still := FoundFrom(allTx - gone, Members(Keep(hs, gone)), rank, c);
              allTx - next == allTx - gone - still && Keep(hs, next) == Keep(Keep(hs, gone), still)
    ensures |(allTx - gone).Keys| <= |allTx.Keys|
    ensures |Above(Keep(hs, gone), rank, c)| < |Above(hs, rank, x)|
  {
    hide Closed, FoundFrom, Keep, Above, WellStored;
    next := gone + FoundFrom(allTx, Members(hs), rank, c);
    FoundOfSpenders(allTx, hs, rank, x, c);
    RemoveNext(allTx, hs, rank, gone, c);
    RemovalDecreases(allTx, hs, rank, gone, x, c);
  }
}
