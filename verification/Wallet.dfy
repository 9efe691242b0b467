// The wallet object of LWWallet.c: its transaction list and books, updated in place.
module WalletState {
  import opened Common
  import opened Ledger
  import opened WalletOrder
  import opened WalletSteps

  class Wallet {
    ghost const rank: Hash -> nat
    var allTx: map<Hash, Tx>
    var transactions: seq<Hash>
    var utxos: seq<Utxo>
    var balance: nat
    var totalSent: nat
    var totalReceived: nat
    var balanceHist: seq<nat>
    var blockHeight: nat
    var spentOutputs: set<Utxo>
    var invalidTx: set<Hash>
    var pendingTx: set<Hash>
    var usedAddrs: set<string>
    var allAddrs: set<string>
    var internalChain: seq<string>
    var externalChain: seq<string>

    // The wallet built from saved transactions. They are sorted in while no address is known yet,
    // so nothing but height and dependence orders them.
    constructor (ghost rank: Hash -> nat, txs: seq<Tx>, signed: Tx -> bool, addrs: set<string>,
                 internalChain: seq<string>, externalChain: seq<string>, now: int)
      requires "" !in addrs && AllSaved(txs, rank)
      ensures Ordered() && Balanced() && this.rank == rank && blockHeight == 0
      ensures Valid() <==> AllContained(Loaded(txs, signed), addrs)
      ensures allAddrs == addrs && this.internalChain == internalChain && this.externalChain == externalChain
      ensures allTx == Loaded(txs, signed) && Members(transactions) == allTx.Keys
      ensures AllStored(allTx, transactions) && Account(balance) == After(EnvAt(now), Listed())
    {
      this.rank, blockHeight, allTx, transactions := rank, 0, map[], [];
      allAddrs, this.internalChain, this.externalChain := {}, [], [];
      new;
      hide *;
      Open(txs, signed, addrs, internalChain, externalChain, now);
    }

    // The saved transactions are listed, the wallet gets its addresses, and the books are computed
    // for the first time.
    method Open(txs: seq<Tx>, signed: Tx -> bool, addrs: set<string>, internalChain: seq<string>,
                externalChain: seq<string>, now: int)
      requires "" !in addrs && AllSaved(txs, rank)
      requires allTx == map[] && transactions == []
      modifies `allTx, `transactions, `allAddrs, `internalChain, `externalChain
      modifies `utxos, `balance, `totalSent, `totalReceived, `balanceHist
      modifies `spentOutputs, `invalidTx, `pendingTx, `usedAddrs
      ensures Ordered() && Balanced() && (Valid() <==> AllContained(Loaded(txs, signed), addrs))
      ensures allTx == Loaded(txs, signed) && Members(transactions) == allTx.Keys
      ensures allAddrs == addrs && this.internalChain == internalChain && this.externalChain == externalChain
      ensures AllStored(allTx, transactions) && Account(balance) == After(EnvAt(now), Listed())
    {
      hide Loading, Loaded, AllSaved, AllContained, ListOk, Arranged, BooksFit, After, ListTxs;
      LoadAll(txs, signed);
      allAddrs, this.internalChain, this.externalChain := addrs, internalChain, externalChain;
      LoadDone(allTx, transactions, addrs, rank);
      UpdateBalance(now);
    }

    method LoadAll(txs: seq<Tx>, signed: Tx -> bool)
      requires AllSaved(txs, rank) && allTx == map[] && transactions == []
      modifies `allTx, `transactions
      ensures allTx == Loaded(txs, signed) && Loading(allTx, transactions, rank)
    {
      hide Loaded, Loading;
      LoadNone(rank, signed);
      var i := 0;
      assert txs[..i] == [];
      while i < |txs|
        invariant 0 <= i <= |txs| && allTx == Loaded(txs[..i], signed) && Loading(allTx, transactions, rank)
      {
        LoadedNext(txs, signed, i);
        Load(txs[i], signed);
        i := i + 1;
      }
      assert txs[..i] == txs;
    }

    // A saved transaction is stored and listed, unless it is not signed or its hash is stored already.
    method Load(tx: Tx, signed: Tx -> bool)
      requires Loading(allTx, transactions, rank) && Grounded(rank, tx) && tx.blockHeight <= TX_UNCONFIRMED
      modifies `allTx, `transactions
      ensures Loading(allTx, transactions, rank)
      ensures allTx == if !signed(tx) || tx.txHash in old(allTx) then old(allTx) else old(allTx)[tx.txHash := tx]
    {
      hide WellStored, Sorted, Loading, Grounded, With, Inserted;
      if signed(tx) && tx.txHash !in allTx {
        ghost var was, hs := allTx, transactions;
        LoadStored(was, hs, rank, tx);
        allTx := allTx[tx.txHash := tx];
        InsertTx(tx.txHash);
        ghost var p :| 0 <= p <= |hs| && transactions == With(hs, p, tx.txHash);
        LoadListed(was, hs, rank, tx, p);
      }
    }

    ghost predicate Structured()
      reads this
    {
      ListOk(allTx, transactions, allAddrs, rank)
    }

    ghost predicate Ordered()
      reads this
    {
      Arranged(allTx, transactions, allAddrs, rank)
    }

    ghost predicate Balanced()
      reads this
    {
      BooksFit(allTx, transactions, Account(balance))
    }

    ghost predicate Valid()
      reads this
    {
      Structured() && Balanced()
    }

    ghost function Listed(): seq<Tx>
      reads this
      requires AllStored(allTx, transactions)
    {
      ListTxs(allTx, transactions)
    }

    ghost function EnvAt(now: int): Env
      reads this
    {
      Env(allTx, allAddrs, blockHeight, now)
    }

    ghost function Account(currentBalance: nat): Books
      reads `utxos, `spentOutputs, `invalidTx, `pendingTx, `usedAddrs, `totalSent, `totalReceived, `balanceHist
    {
      Books(utxos, spentOutputs, invalidTx, pendingTx, usedAddrs, currentBalance, totalSent, totalReceived, balanceHist)
    }

    // ----- recomputing the books -----

    method HasConflict(tx: Tx) returns (isInvalid: bool)
      requires tx.blockHeight == TX_UNCONFIRMED
      ensures isInvalid == IsInvalid(Account(0), tx)
    {
      isInvalid := false;
      var j := 0;
      while !isInvalid && j < |tx.inputs|
        invariant 0 <= j <= |tx.inputs|
        invariant isInvalid == exists k :: 0 <= k < j && Conflicted(Account(0), tx.inputs[k])
      {
        if Spent(tx.inputs[j]) in spentOutputs || tx.inputs[j].txHash in invalidTx {
          assert Conflicted(Account(0), tx.inputs[j]);
          isInvalid := true;
        }
        j := j + 1;
      }
    }

    method MarkSpent(tx: Tx)
      modifies `spentOutputs
      ensures spentOutputs == old(spentOutputs) + InputSet(tx)
    {
      var j := 0;
      while j < |tx.inputs|
        invariant 0 <= j <= |tx.inputs|
        invariant spentOutputs == old(spentOutputs) + set i | i in tx.inputs[..j] :: Spent(i)
      {
        assert tx.inputs[..j + 1] == tx.inputs[..j] + [tx.inputs[j]];
        spentOutputs := spentOutputs + {Spent(tx.inputs[j])};
        j := j + 1;
      }
      assert tx.inputs[..j] == tx.inputs;
    }

    method IsPostponed(tx: Tx, now: int) returns (isPending: bool)
      requires tx.blockHeight == TX_UNCONFIRMED
      ensures isPending == IsPending(EnvAt(now), Account(0), tx)
    {
      isPending := tx.size > TX_MAX_SIZE;
      var j := 0;
      while !isPending && j < |tx.outputs|
        invariant 0 <= j <= |tx.outputs|
        invariant isPending == (tx.size > TX_MAX_SIZE
                                || exists k :: 0 <= k < j && tx.outputs[k].amount < TX_MIN_OUTPUT_AMOUNT)
      {
        if tx.outputs[j].amount < TX_MIN_OUTPUT_AMOUNT { isPending := true; }
        j := j + 1;
      }
      ghost var early := isPending;
      j := 0;
      while !isPending && j < |tx.inputs|
        invariant 0 <= j <= |tx.inputs|
        invariant isPending == (early || exists k :: 0 <= k < j && Postponed(EnvAt(now), Account(0), tx, tx.inputs[k]))
      {
        var i := tx.inputs[j];
        if i.sequence < UINT32_MAX - 1 { isPending := true; }
        if i.sequence < UINT32_MAX && tx.lockTime < TX_MAX_LOCK_HEIGHT
           && tx.lockTime > (blockHeight + 1) % W32 { isPending := true; }
        if i.sequence < UINT32_MAX && tx.lockTime > now { isPending := true; }
        if i.txHash in pendingTx { isPending := true; }
        assert isPending == Postponed(EnvAt(now), Account(0), tx, tx.inputs[j]);
        j := j + 1;
      }
    }

    method AddOutputs(tx: Tx, balance0: nat) returns (balance1: nat)
      requires tx.txHash in allTx && allTx[tx.txHash] == tx && "" !in allAddrs
      requires balance0 == Sum(allTx, utxos) % W64
      modifies `utxos, `usedAddrs
      ensures utxos == old(utxos) + Owned(allAddrs, tx, |tx.outputs|)
      ensures usedAddrs == old(usedAddrs) + UsedBy(tx)
      ensures balance1 == Sum(allTx, utxos) % W64
    {
      hide Sum, Unspent, Owned, Addresses;
      balance1 := balance0;
      var j := 0;
      OwnedNone(allAddrs, tx);
      while j < |tx.outputs|
        invariant 0 <= j <= |tx.outputs|
        invariant utxos == old(utxos) + Owned(allAddrs, tx, j)
        invariant usedAddrs == old(usedAddrs) + Addresses(tx.outputs[..j])
        invariant balance1 == Sum(allTx, utxos) % W64
      {
        OneMoreOutput(allTx, allAddrs, tx, j, utxos);
        if tx.outputs[j].address != "" {
          usedAddrs := usedAddrs + {tx.outputs[j].address};
          if tx.outputs[j].address in allAddrs {
            utxos := utxos + [Utxo(tx.txHash, j)];
            balance1 := (balance1 + tx.outputs[j].amount) % W64;
          }
        }
        j := j + 1;
      }
      assert tx.outputs[..j] == tx.outputs;
    }

    // Drops every listed output that is known to be spent, from the last entry to the first.
    method Purge(balance0: nat) returns (balance1: nat)
      requires balance0 == Sum(allTx, utxos) % W64
      requires forall u :: u in utxos ==> u.hash in allTx && u.n < |allTx[u.hash].outputs|
      modifies `utxos
      ensures utxos == Unspent(old(utxos), spentOutputs)
      ensures balance1 == Sum(allTx, utxos) % W64
    {
      hide Sum;
      balance1 := balance0;
      var j := |utxos|;
      ghost var us := utxos;
      while j > 0
        invariant 0 <= j <= |us|
        invariant utxos == us[..j] + Unspent(us[j..], spentOutputs)
        invariant balance1 == Sum(allTx, utxos) % W64
      {
        PurgeOne(allTx, us, j, spentOutputs, utxos);
        if utxos[j - 1] in spentOutputs {
          var t := allTx[utxos[j - 1].hash];
          balance1 := (balance1 - t.outputs[utxos[j - 1].n].amount) % W64;
          utxos := utxos[..j - 1] + utxos[j..];
        }
        j := j - 1;
      }
    }

    method SettleTx(tx: Tx, current: nat, now: int) returns (next: nat)
      requires tx.txHash in allTx && allTx[tx.txHash] == tx && "" !in allAddrs
      requires current == Sum(allTx, utxos) % W64
      requires forall u :: u in utxos ==> u.hash in allTx && u.n < |allTx[u.hash].outputs|
      modifies `utxos, `totalSent, `totalReceived, `balanceHist, `usedAddrs
      ensures Account(next)
              == Settle(EnvAt(now), old(Account(current)).(used := old(usedAddrs) + UsedBy(tx)), tx)
    {
      hide Sum, Unspent, Owned, UsedBy;
      next := AddOutputs(tx, current);
      forall u | u in utxos ensures u.hash in allTx && u.n < |allTx[u.hash].outputs| {
        OwnedIffMine(allAddrs, tx, |tx.outputs|, u);
      }
      next := Purge(next);
      if current < next { totalReceived := (totalReceived + (next - current)) % W64; }
      if next < current { totalSent := (totalSent + (current - next)) % W64; }
      balanceHist := balanceHist + [next];
    }

    // One iteration of the recomputation.
    method Record(tx: Tx, current: nat, now: int) returns (next: nat)
      requires tx.txHash in allTx && allTx[tx.txHash] == tx && "" !in allAddrs
      requires current == Sum(allTx, utxos) % W64
      requires forall u :: u in utxos ==> u.hash in allTx && u.n < |allTx[u.hash].outputs|
      modifies `utxos, `totalSent, `totalReceived, `balanceHist, `spentOutputs, `invalidTx, `pendingTx, `usedAddrs
      ensures Account(next) == Step(EnvAt(now), old(Account(current)), tx)
    {
      hide Sum, Unspent, Owned, InputSet, UsedBy, Step, IsInvalid, IsPending, Settle;
      StepCases(EnvAt(now), Account(current), tx, 0, spentOutputs + InputSet(tx));
      next := current;
      if tx.blockHeight == TX_UNCONFIRMED {
        var isInvalid := HasConflict(tx);
        if isInvalid {
          invalidTx := invalidTx + {tx.txHash};
          balanceHist := balanceHist + [current];
          return;
        }
      }
      MarkSpent(tx);
      if tx.blockHeight == TX_UNCONFIRMED {
        var isPending := IsPostponed(tx, now);
        if isPending {
          pendingTx := pendingTx + {tx.txHash};
          balanceHist := balanceHist + [current];
          return;
        }
      }
      next := SettleTx(tx, current, now);
    }

    method UpdateBalance(now: int)
      requires Ordered()
      modifies `utxos, `balance, `totalSent, `totalReceived, `balanceHist
      modifies `spentOutputs, `invalidTx, `pendingTx, `usedAddrs
      ensures Ordered() && Balanced()
      ensures AllStored(allTx, transactions)
      ensures Account(balance) == After(EnvAt(now), Listed())
    {
      hide Sum, Step, Arranged, BooksFit, After, Stored, WellStored, NoneTwice, Grounded, ListTxs;
      ListTxsFacts(allTx, transactions, allAddrs, rank, EnvAt(now));
      AfterNone(EnvAt(now));
      var current := 0;
      utxos, balanceHist, spentOutputs, invalidTx, pendingTx, usedAddrs := [], [], {}, {}, {}, {};
      totalSent, totalReceived := 0, 0;
      ghost var txs, env := Listed(), EnvAt(now);
      var i := 0;
      while i < |transactions|
        invariant 0 <= i <= |transactions|
        invariant Account(current) == After(env, txs[..i])
      {
        var tx := allTx[transactions[i]];
        AfterOneMore(env, txs, i);
        BalanceIsListedSum(env, txs[..i]);
        forall u | u in utxos ensures u.hash in allTx && u.n < |allTx[u.hash].outputs| {
          ListedAreStored(env, txs[..i], u);
        }
        current := Record(tx, current, now);
        i := i + 1;
      }
      assert txs[..i] == txs;
      balance := current;
      BooksBalance(allTx, transactions, allAddrs, rank, env);
    }

    // ----- keeping the list sorted -----

    // Insertion sort from the end of the list: entries that compare above the transaction move up.
    method InsertTx(h: Hash)
      requires WellStored(allTx, rank) && AllStored(allTx, transactions) && h in allTx
      requires Sorted(allTx, transactions)
      modifies `transactions
      ensures exists p :: 0 <= p <= |old(transactions)| && transactions == With(old(transactions), p, h)
      ensures Inserted(allTx, rank, internalChain, externalChain, old(transactions), h, transactions)
      ensures AllStored(allTx, transactions) && Sorted(allTx, transactions)
    {
      hide Compare, Sorted, With, Grounded;
      var i := |transactions|;
      ghost var hs := transactions;
      transactions := transactions + [h];
      AppendedIsWith(hs, h);
      ShiftUp(hs, transactions, i);
      while i > 0 && Compare(allTx, rank, internalChain, externalChain, allTx[transactions[i - 1]], allTx[h]) > 0
        invariant 0 <= i <= |hs| && |transactions| == |hs| + 1 && transactions == With(hs, i, transactions[i])
        invariant i > 0 ==> transactions[i - 1] == hs[i - 1] && hs[i - 1] in hs
        invariant i < |hs| ==> allTx[h].blockHeight <= allTx[hs[i]].blockHeight
        invariant forall k :: i <= k < |hs| ==>
                                Compare(allTx, rank, internalChain, externalChain, allTx[hs[k]], allTx[h]) > 0
      {
        ShiftUp(hs, transactions, i);
        CompareFollowsHeight(allTx, rank, internalChain, externalChain, allTx[hs[i - 1]], allTx[h]);
        transactions := transactions[i := transactions[i - 1]];
        i := i - 1;
        ShiftUp(hs, transactions, i);
      }
      ShiftUp(hs, transactions, i);
      if i > 0 {
        CompareFollowsHeight(allTx, rank, internalChain, externalChain, allTx[hs[i - 1]], allTx[h]);
      }
      transactions := transactions[i := h];
      InsertSorted(allTx, hs, i, h);
    }

    // ----- operations -----

    method RegisterTransaction(tx: Tx, now: int) returns (r: bool)
      requires Valid() && Grounded(rank, tx) && tx.blockHeight <= TX_UNCONFIRMED
      modifies `allTx, `transactions
      modifies `utxos, `balance, `totalSent, `totalReceived, `balanceHist
      modifies `spentOutputs, `invalidTx, `pendingTx, `usedAddrs
      ensures Valid()
      ensures r == (tx.txHash in old(allTx) || Contains(old(allTx), allAddrs, tx))
      ensures tx.txHash !in old(allTx) && r ==>
                && allTx == old(allTx)[tx.txHash := tx]
                && (exists p :: 0 <= p <= |old(transactions)| && transactions == With(old(transactions), p, tx.txHash))
                && WellStored(allTx, rank) && AllStored(allTx, old(transactions))
                && Inserted(allTx, rank, internalChain, externalChain, old(transactions), tx.txHash, transactions)
      ensures tx.txHash !in old(allTx) && r ==>
                && AllStored(allTx, transactions)
                && Account(balance) == After(EnvAt(now), Listed())
      ensures tx.txHash in old(allTx) || !r ==>
                && allTx == (if tx.txHash !in old(allTx) && tx.blockHeight == TX_UNCONFIRMED
                             then old(allTx)[tx.txHash := tx] else old(allTx))
                && transactions == old(transactions) && Account(balance) == old(Account(balance))
    {
      hide ListOk, Arranged, BooksFit, Contains, Grounded, With, After, Inserted;
      r := true;
      if tx.txHash !in allTx {
        ListParts(allTx, transactions, allAddrs, rank);
        AddedToStore(allTx, transactions, allAddrs, rank, tx);
        ghost var was, hs := allTx, transactions;
        if Contains(allTx, allAddrs, tx) {
          ContainsGrows(allTx, tx, allAddrs, tx);
          allTx := allTx[tx.txHash := tx];
          ListParts(allTx, transactions, allAddrs, rank);
          InsertTx(tx.txHash);
          ghost var p :| 0 <= p <= |hs| && transactions == With(hs, p, tx.txHash);
          InsertedIntoList(allTx, hs, allAddrs, rank, p, tx.txHash);
          ListArranged(allTx, transactions, allAddrs, rank);
          UpdateBalance(now);
        } else {
          if tx.blockHeight == TX_UNCONFIRMED { allTx := allTx[tx.txHash := tx]; }
          BooksStillFit(was, hs, allTx, hs, Account(balance));
          r := false;
        }
      }
    }

    method FirstAbove(height: nat) returns (i: nat)
      requires AllStored(allTx, transactions) && Sorted(allTx, transactions)
      ensures i <= |transactions|
      ensures forall h :: h in transactions[i..] <==> h in transactions && allTx[h].blockHeight > height
    {
      hide Sorted;
      i := |transactions|;
      while i > 0 && allTx[transactions[i - 1]].blockHeight > height
        invariant 0 <= i <= |transactions|
        invariant forall h :: h in transactions[i..] ==> allTx[h].blockHeight > height
      {
        i := i - 1;
        assert transactions[i..] == [transactions[i]] + transactions[i + 1..];
      }
      TailIsAbove(allTx, transactions, i, height);
    }

    method MarkUnconfirmed(i: nat)
      requires i <= |transactions| && AllStored(allTx, transactions)
      modifies `allTx
      ensures allTx.Keys == old(allTx).Keys
      ensures forall h :: h in allTx ==>
                            allTx[h] == if h in transactions[i..] then old(allTx)[h].(blockHeight := TX_UNCONFIRMED)
                                        else old(allTx)[h]
    {
      ghost var was := allTx;
      var j := 0;
      while i + j < |transactions|
        invariant i + j <= |transactions| && allTx.Keys == was.Keys
        invariant forall h :: h in was ==>
                                allTx[h] == if h in transactions[i..i + j] then was[h].(blockHeight := TX_UNCONFIRMED)
                                            else was[h]
      {
        var h := transactions[i + j];
        assert transactions[i..i + j + 1] == transactions[i..i + j] + [h];
        allTx := allTx[h := allTx[h].(blockHeight := TX_UNCONFIRMED)];
        j := j + 1;
      }
      assert transactions[i..i + j] == transactions[i..];
    }

    // Marks every listed transaction above the height unconfirmed. The list is sorted, so these are
    // its tail.
    method SetTxUnconfirmedAfter(height: nat, now: int) returns (changed: bool)
      requires Valid()
      modifies `allTx, `blockHeight
      modifies `utxos, `balance, `totalSent, `totalReceived, `balanceHist
      modifies `spentOutputs, `invalidTx, `pendingTx, `usedAddrs
      ensures Valid() && blockHeight == height
      ensures allTx == Unconfirmed(old(allTx), transactions, height)
      ensures AllStored(old(allTx), transactions) && AllStored(allTx, transactions)
      ensures changed <==> exists h :: h in transactions && old(allTx)[h].blockHeight > height
      ensures changed ==> Account(balance) == After(EnvAt(now), Listed())
      ensures !changed ==> Account(balance) == old(Account(balance))
    {
      hide ListOk, Arranged, BooksFit, After, NoneTwice, Sorted, WellStored, Account, Unconfirmed;
      blockHeight := height;
      ListParts(allTx, transactions, allAddrs, rank);
      ghost var was := allTx;
      var i := FirstAbove(height);
      var count := |transactions| - i;
      TailIsInhabited(was, transactions, i, height);
      MarkUnconfirmed(i);
      UnconfirmedStep(was, transactions, i, height, allTx, allAddrs, rank, Account(balance));
      changed := count > 0;
      if count > 0 {
        UpdateBalance(now);
      }
    }

    // Some named wallet transaction moves in the chain while the books count it as pending or invalid.
    ghost predicate Stale(h: Hash, height: nat, time: nat)
      reads this
    {
      && h in allTx && !Unchanged(allTx[h], height, time) && Contains(allTx, allAddrs, allTx[h])
      && (h in pendingTx || h in invalidTx)
    }

    method PlaceOf(x: Hash) returns (k: nat)
      ensures k == 0 ==> x !in transactions
      ensures k > 0 ==> k <= |transactions| && transactions[k - 1] == x
    {
      k := |transactions|;
      while k > 0 && transactions[k - 1] != x
        invariant 0 <= k <= |transactions| && x !in transactions[k..]
      {
        k := k - 1;
        assert transactions[k..] == [transactions[k]] + transactions[k + 1..];
      }
    }

    // One stored transaction gets a new height and time: a listed one is taken out and put back
    // where it now belongs, and a confirmed one that is not the wallet's is forgotten.
    method Relocate(x: Hash, height: nat, time: nat) returns (mine: bool)
      requires Structured() && Balanced() && x in allTx && height <= TX_UNCONFIRMED
      modifies `allTx, `transactions
      ensures Structured() && Balanced()
      ensures mine == Contains(old(allTx)[x := Reheight(old(allTx)[x], height, time)], allAddrs,
                               Reheight(old(allTx)[x], height, time))
      ensures allTx == (if mine || height == TX_UNCONFIRMED
                        then old(allTx)[x := Reheight(old(allTx)[x], height, time)] else old(allTx) - {x})
      ensures |transactions| == |old(transactions)| && forall h :: h in transactions <==> h in old(transactions)
    {
      hide ListOk, Arranged, BooksFit, Contains, Sorted, WellStored, NoneTwice, Account, Without, With, Inserted;
      ghost var was, hs := allTx, transactions;
      ListParts(was, hs, allAddrs, rank);
      allTx := allTx[x := Reheight(allTx[x], height, time)];
      RelocatedStore(was, hs, allAddrs, rank, x, height, time);
      mine := Contains(allTx, allAddrs, allTx[x]);
      if mine {
        var k := PlaceOf(x);
        if k > 0 {
          RelocatedRest(was, hs, allAddrs, rank, k - 1, height, time);
          transactions := Without(transactions, k - 1);
          ghost var rest := transactions;
          ListParts(allTx, rest, allAddrs, rank);
          InsertTx(x);
          ghost var p :| 0 <= p <= |rest| && transactions == With(rest, p, x);
          InsertedIntoList(allTx, rest, allAddrs, rank, p, x);
          RelocatedMembers(hs, k - 1, p, transactions);
        }
        BooksStillFit(was, hs, allTx, transactions, Account(balance));
      } else {
        if height != TX_UNCONFIRMED {
          allTx := allTx - {x};
          assert allTx == was - {x};
        }
        BooksStillFit(was, hs, allTx, hs, Account(balance));
      }
    }

    method UpdateTransactions(txHashes: seq<Hash>, height: nat, time: nat, now: int) returns (changed: bool)
      requires Valid() && height <= TX_UNCONFIRMED
      modifies `allTx, `blockHeight, `transactions
      modifies `utxos, `balance, `totalSent, `totalReceived, `balanceHist
      modifies `spentOutputs, `invalidTx, `pendingTx, `usedAddrs
      ensures Valid()
      ensures blockHeight == if height > old(blockHeight) then height else old(blockHeight)
      ensures allTx == Heightened(old(allTx), allAddrs, Members(txHashes), height, time)
      ensures forall h :: h in transactions <==> h in old(transactions)
      ensures changed <==> exists k :: 0 <= k < |txHashes| && old(Stale(txHashes[k], height, time))
      ensures changed ==> AllStored(allTx, transactions) && Account(balance) == After(EnvAt(now), Listed())
      ensures !changed ==> Account(balance) == old(Account(balance))
    {
      hide ListOk, Arranged, BooksFit, After, Heightened, Contains, Account;
      if height > blockHeight { blockHeight := height; }
      ghost var was, hs, addrs := allTx, transactions, allAddrs;
      HeightenNone(was, addrs, height, time);
      changed := false;
      var i := 0;
      assert Members(txHashes[..i]) == {};
      while i < |txHashes|
        modifies `allTx, `transactions
        invariant 0 <= i <= |txHashes|
        invariant Structured() && Balanced()
        invariant allTx == Heightened(was, addrs, Members(txHashes[..i]), height, time)
        invariant |transactions| == |hs| && forall h :: h in transactions <==> h in hs
        invariant changed <==> exists k :: 0 <= k < i && old(Stale(txHashes[k], height, time))
      {
        var x := txHashes[i];
        assert Members(txHashes[..i + 1]) == Members(txHashes[..i]) + {x} by {
          assert txHashes[..i + 1] == txHashes[..i] + [x];
        }
        HeightenOneMore(was, addrs, Members(txHashes[..i]), x, height, time, allTx);
        assert x in Members(txHashes[..i]) ==> exists k :: 0 <= k < i && txHashes[k] == x;
        if x in allTx && !Unchanged(allTx[x], height, time) {
          var wallets := Relocate(x, height, time);
          if wallets && (x in pendingTx || x in invalidTx) { changed := true; }
        }
        i := i + 1;
      }
      assert txHashes[..i] == txHashes;
      if changed {
        ListArranged(allTx, transactions, allAddrs, rank);
        UpdateBalance(now);
      }
    }

    // Scans down from the newest entry, and stops at the first one lower than the transaction: a
    // spender below that is not found.
    method DirectSpenders(txHash: Hash) returns (hashes: seq<Hash>)
      requires WellStored(allTx, rank) && AllStored(allTx, transactions) && Sorted(allTx, transactions)
      requires txHash in allTx
      ensures forall c :: c in hashes <==> c in transactions && Finds(allTx, c, txHash)
    {
      hide Sorted, WellStored, SpendsTx, SpendersAmong;
      hashes := [];
      NoneSpendsItself(allTx, rank, txHash);
      var tx := allTx[txHash];
      var i := |transactions|;
      NoSpendersYet(allTx, transactions, txHash);
      while i > 0 && allTx[transactions[i - 1]].blockHeight >= tx.blockHeight
        invariant 0 <= i <= |transactions|
        invariant SpendersAmong(allTx, transactions, i, txHash, hashes)
      {
        var t := transactions[i - 1];
        OneMoreSpender(allTx, transactions, i, txHash, hashes);
        if t != txHash && SpendsTx(allTx[t], txHash) {
          hashes := hashes + [t];
        }
        i := i - 1;
      }
      SpendersAreInTail(allTx, transactions, i, txHash, hashes);
    }

    // Takes a transaction out of the list and the store.
    method Forget(txHash: Hash, now: int)
      requires Ordered() && txHash in allTx
      modifies `allTx, `transactions
      modifies `utxos, `balance, `totalSent, `totalReceived, `balanceHist
      modifies `spentOutputs, `invalidTx, `pendingTx, `usedAddrs
      ensures Ordered() && Balanced()
      ensures allTx == old(allTx) - {txHash} && transactions == Keep(old(transactions), {txHash})
      ensures AllStored(allTx, transactions) && Account(balance) == After(EnvAt(now), Listed())
    {
      hide Arranged, BooksFit, After, Account, Keep, Sorted;
      ghost var was, hs := allTx, transactions;
      ArrangedParts(was, hs, allAddrs, rank);
      var k := PlaceOf(txHash);
      if k > 0 {
        KeepOne(hs, k - 1);
        TakenFromList(was, hs, allAddrs, rank, k - 1);
        transactions := Without(transactions, k - 1);
      } else {
        KeepAll(hs, {txHash});
      }
      RemovedFromStore(was, transactions, allAddrs, rank, txHash);
      allTx := allTx - {txHash};
      UpdateBalance(now);
    }

    // Removes a transaction and, first, everything listed that the scans for its spenders find.
    method RemoveTransaction(txHash: Hash, now: int)
      requires Ordered() && Balanced()
      modifies `allTx, `transactions
      modifies `utxos, `balance, `totalSent, `totalReceived, `balanceHist
      modifies `spentOutputs, `invalidTx, `pendingTx, `usedAddrs
      ensures Ordered() && Balanced()
      ensures WellStored(old(allTx), rank)
      ensures txHash in old(allTx) ==>
                var gone := FoundFrom(old(allTx), Members(old(transactions)), rank, txHash);
                allTx == old(allTx) - gone && transactions == Keep(old(transactions), gone)
      ensures txHash in old(allTx) ==>
                AllStored(allTx, transactions) && Account(balance) == After(EnvAt(now), Listed())
      ensures txHash !in old(allTx) ==>
                allTx == old(allTx) && transactions == old(transactions) && Account(balance) == old(Account(balance))
      decreases |allTx.Keys|, |Above(transactions, rank, txHash)|, 1
    {
      hide Arranged, BooksFit, After, Account, Keep, FoundFrom, Closed, Found, Sorted, Above;
      hide WellStored, NoneTwice, Finds;
      ghost var was, hs := allTx, transactions;
      ArrangedParts(was, hs, allAddrs, rank);
      if txHash in allTx {
        var hashes := DirectSpenders(txHash);
        if |hashes| > 0 {
          ghost var gone := RemoveSpenders(hashes, txHash, now);
          RemoveNext(was, hs, rank, gone, txHash);
          FewerStored(was, gone, hashes[0]);
          RemoveTransaction(txHash, now);
          assert gone + FoundFrom(was, Members(hs), rank, txHash) == FoundFrom(was, Members(hs), rank, txHash);
        } else {
          NothingFound(was, hs, rank, txHash);
          Forget(txHash, now);
        }
      }
    }

    // Removes the given direct spenders of a transaction, from the last to the first. A later one
    // may already have gone with one removed before it.
    method RemoveSpenders(hashes: seq<Hash>, txHash: Hash, now: int) returns (ghost gone: set<Hash>)
      requires Ordered() && Balanced()
      requires WellStored(allTx, rank) && AllStored(allTx, transactions)
      requires forall c :: c in hashes ==> c in transactions && Finds(allTx, c, txHash)
      modifies `allTx, `transactions
      modifies `utxos, `balance, `totalSent, `totalReceived, `balanceHist
      modifies `spentOutputs, `invalidTx, `pendingTx, `usedAddrs
      ensures Ordered() && Balanced()
      ensures WellStored(old(allTx), rank)
      ensures allTx == old(allTx) - gone && transactions == Keep(old(transactions), gone)
      ensures Closed(old(allTx), Members(old(transactions)), gone)
      ensures gone <= FoundFrom(old(allTx), Members(old(transactions)), rank, txHash) && txHash !in gone
      ensures forall c :: c in hashes ==> c in gone
      decreases |allTx.Keys|, |Above(transactions, rank, txHash)|, 0
    {
      hide Arranged, BooksFit, After, Account, Keep, FoundFrom, Closed, Found, Sorted, Above;
      hide WellStored, NoneTwice, Finds, Members;
      ghost var was, hs := allTx, transactions;
      gone := {};
      NothingGone(was, hs);
      var i := |hashes|;
      while i > 0
        invariant 0 <= i <= |hashes|
        invariant Ordered() && Balanced()
        invariant Closed(was, Members(hs), gone) && WellStored(was, rank)
        invariant allTx == was - gone && transactions == Keep(hs, gone)
        invariant gone <= FoundFrom(was, Members(hs), rank, txHash) && txHash !in gone
        invariant forall c :: c in hashes[i..] ==> c in gone
      {
        var c := hashes[i - 1];
        assert c in hs && c in was && hashes[i - 1..] == [c] + hashes[i..];
        ghost var next := RemoveSpender(was, hs, rank, gone, txHash, c);
        RemoveTransaction(c, now);
        gone := next;
        i := i - 1;
      }
      assert hashes[0..] == hashes;
    }
  }

  // LWWalletNew: no wallet if the first saved transaction does not concern its addresses.
  method NewWallet(ghost rank: Hash -> nat, txs: seq<Tx>, signed: Tx -> bool, addrs: set<string>,
                   internalChain: seq<string>, externalChain: seq<string>, now: int)
    returns (wallet: Wallet?)
    requires "" !in addrs && AllSaved(txs, rank)
    ensures wallet == null <==> txs != [] && !Contains(Loaded(txs, signed), addrs, txs[0])
    ensures wallet != null ==>
              && fresh(wallet) && wallet.rank == rank && wallet.Ordered() && wallet.Balanced()
              && (wallet.Valid() <==> AllContained(Loaded(txs, signed), addrs))
              && wallet.allAddrs == addrs && wallet.allTx == Loaded(txs, signed)
              && Members(wallet.transactions) == wallet.allTx.Keys
  {
    hide Arranged, BooksFit, Loaded, AllSaved, AllContained, ListOk, Contains, After, Wallet.Account;
    wallet := new Wallet(rank, txs, signed, addrs, internalChain, externalChain, now);
    if |txs| > 0 && !Contains(wallet.allTx, wallet.allAddrs, txs[0]) {
      wallet := null;
    }
  }
}
