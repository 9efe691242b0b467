// The wallet's books: what LWWallet.c recomputes from its ordered transaction list, as a fold
// over that list, and what the fold guarantees.
module Ledger {
  import opened Common

  const TX_UNCONFIRMED: nat := 0x7fff_ffff
  const TX_MAX_SIZE: nat := 100000
  const TX_MIN_OUTPUT_AMOUNT: nat := 546
  const TX_MAX_LOCK_HEIGHT: nat := 500000000
  const UINT32_MAX: nat := 0xffff_ffff

  type Hash = nat

  datatype TxInput = TxInput(txHash: Hash, index: nat, sequence: nat)

  // An output whose script pays no address has the empty address.
  datatype TxOutput = TxOutput(address: string, amount: nat)

  datatype Tx = Tx(txHash: Hash, inputs: seq<TxInput>, outputs: seq<TxOutput>,
                   lockTime: nat, size: nat, blockHeight: nat, timestamp: nat)

  datatype Utxo = Utxo(hash: Hash, n: nat)

  // What the recomputation reads besides the list: the transaction store, the wallet's own
  // addresses, the chain height and the clock.
  datatype Env = Env(allTx: map<Hash, Tx>, addrs: set<string>, height: nat, now: int)

  datatype Books = Books(utxos: seq<Utxo>, spent: set<Utxo>, invalid: set<Hash>, pending: set<Hash>,
                         used: set<string>, balance: nat, sent: nat, received: nat, hist: seq<nat>)

  const EMPTY := Books([], {}, {}, {}, {}, 0, 0, 0, [])

  function Spent(i: TxInput): Utxo {
    Utxo(i.txHash, i.index)
  }

  function InputSet(tx: Tx): set<Utxo> {
    set i | i in tx.inputs :: Spent(i)
  }

  function Addresses(outputs: seq<TxOutput>): set<string> {
    set o | o in outputs && o.address != "" :: o.address
  }

  function UsedBy(tx: Tx): set<string> {
    Addresses(tx.outputs)
  }

  predicate Mine(addrs: set<string>, o: TxOutput) {
    o.address != "" && o.address in addrs
  }

  // The wallet's own outputs among the first k outputs of tx, in order.
  function Owned(addrs: set<string>, tx: Tx, k: nat): seq<Utxo>
    requires k <= |tx.outputs|
  {
    if k == 0 then []
    else if Mine(addrs, tx.outputs[k - 1]) then Owned(addrs, tx, k - 1) + [Utxo(tx.txHash, k - 1)]
    else Owned(addrs, tx, k - 1)
  }

  predicate OwnedBy(addrs: set<string>, tx: Tx, u: Utxo) {
    u.hash == tx.txHash && u.n < |tx.outputs| && Mine(addrs, tx.outputs[u.n])
  }

  function Amount(allTx: map<Hash, Tx>, u: Utxo): nat {
    if u.hash in allTx && u.n < |allTx[u.hash].outputs| then allTx[u.hash].outputs[u.n].amount else 0
  }

  function Sum(allTx: map<Hash, Tx>, us: seq<Utxo>): nat {
    if us == [] then 0 else Amount(allTx, us[0]) + Sum(allTx, us[1..])
  }

  function Unspent(us: seq<Utxo>, spent: set<Utxo>): seq<Utxo> {
    if us == [] then []
    else if us[0] in spent then Unspent(us[1..], spent)
    else [us[0]] + Unspent(us[1..], spent)
  }

  predicate Conflicted(b: Books, i: TxInput) {
    Spent(i) in b.spent || i.txHash in b.invalid
  }

  predicate IsInvalid(b: Books, tx: Tx) {
    tx.blockHeight == TX_UNCONFIRMED && exists k :: 0 <= k < |tx.inputs| && Conflicted(b, tx.inputs[k])
  }

  predicate Postponed(env: Env, b: Books, tx: Tx, i: TxInput) {
    || i.sequence < UINT32_MAX - 1
    || (i.sequence < UINT32_MAX && tx.lockTime < TX_MAX_LOCK_HEIGHT
        && tx.lockTime > (env.height + 1) % W32)
    || (i.sequence < UINT32_MAX && tx.lockTime > env.now)
    || i.txHash in b.pending
  }

  predicate IsPending(env: Env, b: Books, tx: Tx) {
    && tx.blockHeight == TX_UNCONFIRMED
    && (|| tx.size > TX_MAX_SIZE
        || (exists k :: 0 <= k < |tx.outputs| && tx.outputs[k].amount < TX_MIN_OUTPUT_AMOUNT)
        || (exists k :: 0 <= k < |tx.inputs| && Postponed(env, b, tx, tx.inputs[k])))
  }

  // The books after one more transaction. A transaction that conflicts is set aside; one that is
  // pending only marks its inputs spent; any other adds the wallet's outputs, and then every
  // output known to be spent is dropped. The balance is the sum of the list that remains.
  function Step(env: Env, b: Books, tx: Tx): Books {
    if IsInvalid(b, tx) then
      b.(invalid := b.invalid + {tx.txHash}, hist := b.hist + [b.balance])
    else if IsPending(env, b, tx) then
      b.(spent := b.spent + InputSet(tx), pending := b.pending + {tx.txHash}, hist := b.hist + [b.balance])
    else
      Settle(env, b.(spent := b.spent + InputSet(tx), used := b.used + UsedBy(tx)), tx)
  }

  function Settle(env: Env, b: Books, tx: Tx): Books {
    var utxos := Unspent(b.utxos + Owned(env.addrs, tx, |tx.outputs|), b.spent);
    var balance := Sum(env.allTx, utxos) % W64;
    b.(utxos := utxos, balance := balance, hist := b.hist + [balance],
       received := if b.balance < balance then (b.received + balance - b.balance) % W64 else b.received,
       sent := if balance < b.balance then (b.sent + b.balance - balance) % W64 else b.sent)
  }

  lemma StepCases(env: Env, b: Books, tx: Tx, current: nat, ignored: set<Utxo>)
    ensures IsInvalid(b, tx) ==>
              Step(env, b, tx) == b.(invalid := b.invalid + {tx.txHash}, hist := b.hist + [b.balance])
    ensures !IsInvalid(b, tx) && IsPending(env, b, tx) ==>
              Step(env, b, tx)
              == b.(spent := b.spent + InputSet(tx), pending := b.pending + {tx.txHash}, hist := b.hist + [b.balance])
    ensures !IsInvalid(b, tx) && !IsPending(env, b, tx) ==>
              Step(env, b, tx) == Settle(env, b.(spent := b.spent + InputSet(tx), used := b.used + UsedBy(tx)), tx)
    ensures tx.blockHeight != TX_UNCONFIRMED ==> !IsInvalid(b, tx) && !IsPending(env, b, tx)
    ensures IsInvalid(b.(balance := current), tx) == IsInvalid(b, tx)
    ensures IsPending(env, b.(balance := current, spent := ignored), tx) == IsPending(env, b, tx)
  {
    hide Settle, InputSet, UsedBy;
    forall k | 0 <= k < |tx.inputs|
      ensures Conflicted(b.(balance := current), tx.inputs[k]) == Conflicted(b, tx.inputs[k])
      ensures Postponed(env, b.(balance := current, spent := ignored), tx, tx.inputs[k])
              == Postponed(env, b, tx, tx.inputs[k])
    {
    }
  }

  function After(env: Env, txs: seq<Tx>): Books {
    if txs == [] then EMPTY
    else Step(env, After(env, txs[..|txs| - 1]), txs[|txs| - 1])
  }

  lemma AfterNone(env: Env)
    ensures After(env, []) == EMPTY
  {
  }

  lemma AfterOneMore(env: Env, txs: seq<Tx>, k: nat)
    requires k < |txs|
    ensures After(env, txs[..k + 1]) == Step(env, After(env, txs[..k]), txs[k])
  {
    assert txs[..k + 1][..k] == txs[..k];
  }

  // Each listed transaction is the one the store holds under its hash.
  ghost predicate Stored(env: Env, txs: seq<Tx>) {
    forall k :: 0 <= k < |txs| ==> txs[k].txHash in env.allTx && env.allTx[txs[k].txHash] == txs[k]
  }

  ghost predicate Distinct(txs: seq<Tx>) {
    forall j, k :: 0 <= j < k < |txs| ==> txs[j].txHash != txs[k].txHash
  }

  // ----- lists of outputs -----

  lemma {:induction false} OwnedIffMine(addrs: set<string>, tx: Tx, k: nat, u: Utxo)
    requires k <= |tx.outputs|
    ensures u in Owned(addrs, tx, k) <==> u.n < k && OwnedBy(addrs, tx, u)
  {
    if k > 0 {
      OwnedIffMine(addrs, tx, k - 1, u);
    }
  }

  lemma {:induction false} UnspentIff(us: seq<Utxo>, spent: set<Utxo>, u: Utxo)
    ensures u in Unspent(us, spent) <==> u in us && u !in spent
  {
    if us != [] {
      UnspentIff(us[1..], spent, u);
      assert us == [us[0]] + us[1..];
    }
  }

  lemma {:induction false} SumConcat(allTx: map<Hash, Tx>, a: seq<Utxo>, b: seq<Utxo>)
    ensures Sum(allTx, a + b) == Sum(allTx, a) + Sum(allTx, b)
  {
    if a == [] {
      assert a + b == b;
    } else {
      assert (a + b)[0] == a[0] && (a + b)[1..] == a[1..] + b;
      SumConcat(allTx, a[1..], b);
    }
  }

  lemma SumOne(allTx: map<Hash, Tx>, u: Utxo)
    ensures Sum(allTx, [u]) == Amount(allTx, u)
  {
    assert [u][1..] == [];
    assert Sum(allTx, [u]) == Amount(allTx, u) + Sum(allTx, []);
  }

  lemma SumWithout(allTx: map<Hash, Tx>, us: seq<Utxo>, k: nat)
    requires k < |us|
    ensures Sum(allTx, us) == Sum(allTx, us[..k] + us[k + 1..]) + Amount(allTx, us[k])
  {
    assert us == us[..k] + ([us[k]] + us[k + 1..]);
    SumConcat(allTx, us[..k], [us[k]] + us[k + 1..]);
    SumConcat(allTx, us[..k], us[k + 1..]);
    SumConcat(allTx, [us[k]], us[k + 1..]);
    SumOne(allTx, us[k]);
  }

  lemma OwnedNone(addrs: set<string>, tx: Tx)
    ensures Owned(addrs, tx, 0) == [] && Addresses(tx.outputs[..0]) == {}
  {
  }

  lemma OneMoreOutput(allTx: map<Hash, Tx>, addrs: set<string>, tx: Tx, j: nat, us: seq<Utxo>)
    requires j < |tx.outputs| && "" !in addrs && tx.txHash in allTx && allTx[tx.txHash] == tx
    ensures Owned(addrs, tx, j + 1)
            == Owned(addrs, tx, j) + (if tx.outputs[j].address in addrs then [Utxo(tx.txHash, j)] else [])
    ensures Sum(allTx, us + [Utxo(tx.txHash, j)]) % W64 == (Sum(allTx, us) % W64 + tx.outputs[j].amount) % W64
    ensures Addresses(tx.outputs[..j + 1])
            == Addresses(tx.outputs[..j])
               + (if tx.outputs[j].address != "" then {tx.outputs[j].address} else {})
  {
    assert tx.outputs[..j + 1] == tx.outputs[..j] + [tx.outputs[j]];
    SumConcat(allTx, us, [Utxo(tx.txHash, j)]);
    SumOne(allTx, Utxo(tx.txHash, j));
    WrapOnce(Sum(allTx, us), tx.outputs[j].amount);
  }

  // Wrapping a 64-bit sum before adding changes nothing.
  lemma WrapOnce(x: int, y: int)
    ensures (x % W64 + y) % W64 == (x + y) % W64
  {
    var q, k := x / W64, (x + y) / W64;
    assert x % W64 + y == (x + y) % W64 + (k - q) * W64;
  }

  // One step of dropping spent entries from the end: entries from j on have been filtered.
  lemma PurgeOne(allTx: map<Hash, Tx>, us: seq<Utxo>, j: nat, spent: set<Utxo>, current: seq<Utxo>)
    requires 0 < j <= |us| && current == us[..j] + Unspent(us[j..], spent)
    ensures |current| >= j && current[j - 1] == us[j - 1]
    ensures us[j - 1] in spent ==> current[..j - 1] + current[j..] == us[..j - 1] + Unspent(us[j - 1..], spent)
    ensures us[j - 1] !in spent ==> current == us[..j - 1] + Unspent(us[j - 1..], spent)
    ensures Sum(allTx, current[..j - 1] + current[j..]) % W64
            == (Sum(allTx, current) % W64 - Amount(allTx, us[j - 1])) % W64
  {
    hide Sum;
    assert us[j - 1..][0] == us[j - 1] && us[j - 1..][1..] == us[j..];
    assert us[..j] == us[..j - 1] + [us[j - 1]];
    SumWithout(allTx, current, j - 1);
    WrapOnce(Sum(allTx, current), 0 - Amount(allTx, us[j - 1]));
  }

  ghost predicate NoRepeats(us: seq<Utxo>) {
    forall j, k :: 0 <= j < k < |us| ==> us[j] != us[k]
  }

  lemma NoRepeatsConcat(a: seq<Utxo>, b: seq<Utxo>)
    requires NoRepeats(a) && NoRepeats(b)
    requires forall u :: u in a ==> u !in b
    ensures NoRepeats(a + b)
  {
    forall j, k | 0 <= j < k < |a + b| ensures (a + b)[j] != (a + b)[k] {
      assert j < |a| <= k ==> a[j] in a;
    }
  }

  lemma WithoutOne(us: seq<Utxo>, k: nat, u: Utxo)
    requires k < |us| && NoRepeats(us)
    ensures u in us[..k] + us[k + 1..] <==> u in us && u != us[k]
    ensures NoRepeats(us[..k] + us[k + 1..])
  {
    assert us == us[..k] + [us[k]] + us[k + 1..];
  }

  lemma EmptyOrInhabited(us: seq<Utxo>)
    ensures us == [] || exists u :: u in us
  {
    if us != [] {
      assert us[0] in us;
    }
  }

  // A list without repeats has a sum that depends only on what it contains.
  lemma {:induction false} SumIsOfTheSet(allTx: map<Hash, Tx>, a: seq<Utxo>, b: seq<Utxo>)
    requires NoRepeats(a) && NoRepeats(b)
    requires forall u :: u in a <==> u in b
    ensures Sum(allTx, a) == Sum(allTx, b)
  {
    hide Amount, NoRepeats;
    EmptyOrInhabited(b);
    if a != [] {
      assert a[0] in b;
      var k :| 0 <= k < |b| && b[k] == a[0];
      var rest := b[..k] + b[k + 1..];
      assert a[..0] + a[1..] == a[1..];
      forall u ensures u in a[1..] <==> u in rest {
        WithoutOne(a, 0, u);
        WithoutOne(b, k, u);
      }
      WithoutOne(b, k, a[0]);
      WithoutOne(a, 0, a[0]);
      SumIsOfTheSet(allTx, a[1..], rest);
      SumWithout(allTx, b, k);
    }
  }

  lemma {:induction false} OwnedNoRepeats(addrs: set<string>, tx: Tx, k: nat)
    requires k <= |tx.outputs|
    ensures NoRepeats(Owned(addrs, tx, k))
  {
    if k > 0 {
      OwnedNoRepeats(addrs, tx, k - 1);
      forall u | u in Owned(addrs, tx, k - 1) ensures u.n < k - 1 {
        OwnedIffMine(addrs, tx, k - 1, u);
      }
    }
  }

  lemma {:induction false} UnspentNoRepeats(us: seq<Utxo>, spent: set<Utxo>)
    requires NoRepeats(us)
    ensures NoRepeats(Unspent(us, spent))
  {
    if us != [] {
      UnspentNoRepeats(us[1..], spent);
      UnspentIff(us[1..], spent, us[0]);
    }
  }

  lemma {:induction false} UnspentConcat(a: seq<Utxo>, b: seq<Utxo>, spent: set<Utxo>)
    ensures Unspent(a + b, spent) == Unspent(a, spent) + Unspent(b, spent)
  {
    if a == [] {
      assert a + b == b;
    } else {
      assert (a + b)[0] == a[0] && (a + b)[1..] == a[1..] + b;
      UnspentConcat(a[1..], b, spent);
    }
  }

  // ----- what the recomputation guarantees -----

  lemma StepBalance(env: Env, b: Books, tx: Tx)
    requires b.balance == Sum(env.allTx, b.utxos) % W64
    ensures Step(env, b, tx).balance == Sum(env.allTx, Step(env, b, tx).utxos) % W64
    ensures Step(env, b, tx).hist == b.hist + [Step(env, b, tx).balance]
  {
    hide Sum, Unspent, Owned, IsInvalid, IsPending;
  }

  // The balance always equals the sum of the listed outputs, in 64 bits, and one balance is
  // recorded per transaction.
  lemma {:induction false} BalanceIsListedSum(env: Env, txs: seq<Tx>)
    ensures After(env, txs).balance == Sum(env.allTx, After(env, txs).utxos) % W64
    ensures |After(env, txs).hist| == |txs|
    ensures forall k :: 0 <= k < |txs| ==> After(env, txs).hist[k] == After(env, txs[..k + 1]).balance
  {
    hide Step;
    if txs != [] {
      var before := txs[..|txs| - 1];
      BalanceIsListedSum(env, before);
      StepBalance(env, After(env, before), txs[|txs| - 1]);
      assert txs[..|txs|] == txs;
      forall k | 0 <= k < |txs| ensures After(env, txs).hist[k] == After(env, txs[..k + 1]).balance {
        if k < |txs| - 1 {
          assert before[..k + 1] == txs[..k + 1];
        }
      }
    }
  }

  // Received minus sent is the balance, in 64-bit arithmetic.
  lemma {:induction false} ReceivedMinusSent(env: Env, txs: seq<Tx>)
    ensures (After(env, txs).received - After(env, txs).sent - After(env, txs).balance) % W64 == 0
  {
    if txs != [] {
      var before, tx := txs[..|txs| - 1], txs[|txs| - 1];
      ReceivedMinusSent(env, before);
      var b := After(env, before);
      SettledTotals(env, b.(spent := b.spent + InputSet(tx), used := b.used + UsedBy(tx)), tx);
    }
  }

  lemma SettledTotals(env: Env, b: Books, tx: Tx)
    requires (b.received - b.sent - b.balance) % W64 == 0
    ensures (Settle(env, b, tx).received - Settle(env, b, tx).sent - Settle(env, b, tx).balance) % W64 == 0
  {
    hide Sum, Unspent, Owned;
    TotalsFollow(b.received, b.sent, b.balance, Settle(env, b, tx).balance);
  }

  lemma TotalsFollow(received: int, sent: int, balance: int, next: int)
    requires (received - sent - balance) % W64 == 0
    ensures ((received + next - balance) % W64 - sent - next) % W64 == 0
    ensures (received - (sent + balance - next) % W64 - next) % W64 == 0
  {
    var k := (received - sent - balance) / W64;
    var i, j := (received + next - balance) / W64, (sent + balance - next) / W64;
    assert (received + next - balance) % W64 - sent - next == (k - i) * W64;
    assert received - (sent + balance - next) % W64 - next == (k + j) * W64;
  }

  // ----- the totals -----

  function Excess(x: nat, y: nat): nat {
    if x > y then x - y else 0
  }

  // The latest balance of a history that starts from zero, and the sums of its rises and of its falls.
  function Latest(hist: seq<nat>): nat {
    if hist == [] then 0 else hist[|hist| - 1]
  }

  function Rises(hist: seq<nat>): nat {
    if hist == [] then 0
    else Rises(hist[..|hist| - 1]) + Excess(hist[|hist| - 1], Latest(hist[..|hist| - 1]))
  }

  function Falls(hist: seq<nat>): nat {
    if hist == [] then 0
    else Falls(hist[..|hist| - 1]) + Excess(Latest(hist[..|hist| - 1]), hist[|hist| - 1])
  }

  // The history is that of the balance, and the totals are those of its rises and of its falls.
  ghost predicate TotalsFit(b: Books) {
    && b.balance == Latest(b.hist)
    && b.received == Rises(b.hist) % W64
    && b.sent == Falls(b.hist) % W64
  }

  lemma StepTotals(env: Env, b: Books, tx: Tx)
    requires TotalsFit(b)
    ensures TotalsFit(Step(env, b, tx))
  {
    hide Sum, Unspent, Owned, IsInvalid, IsPending, InputSet, UsedBy;
    var next := Step(env, b, tx);
    assert next.hist == b.hist + [next.balance];
    assert next.hist[..|b.hist|] == b.hist;
    WrapOnce(Rises(b.hist), next.balance - b.balance);
    WrapOnce(Falls(b.hist), b.balance - next.balance);
  }

  // Total received is the sum of all rises of the balance, total sent the sum of all its falls.
  lemma {:induction false} TotalsAreRisesAndFalls(env: Env, txs: seq<Tx>)
    ensures After(env, txs).received == Rises(After(env, txs).hist) % W64
    ensures After(env, txs).sent == Falls(After(env, txs).hist) % W64
    ensures After(env, txs).balance == Latest(After(env, txs).hist)
  {
    hide Step;
    if txs != [] {
      TotalsAreRisesAndFalls(env, txs[..|txs| - 1]);
      StepTotals(env, After(env, txs[..|txs| - 1]), txs[|txs| - 1]);
    }
  }

  // Everything the wallet was ever paid by the listed transactions.
  function TotalOwned(env: Env, txs: seq<Tx>): nat {
    if txs == [] then 0
    else TotalOwned(env, txs[..|txs| - 1])
         + Sum(env.allTx, Owned(env.addrs, txs[|txs| - 1], |txs[|txs| - 1].outputs|))
  }

  lemma {:induction false} UnspentSum(allTx: map<Hash, Tx>, us: seq<Utxo>, spent: set<Utxo>)
    ensures Sum(allTx, Unspent(us, spent)) <= Sum(allTx, us)
  {
    if us != [] {
      UnspentSum(allTx, us[1..], spent);
      if us[0] !in spent {
        assert Unspent(us, spent)[1..] == Unspent(us[1..], spent);
      }
    }
  }

  // While what was ever paid to the wallet fits in 64 bits, nothing wraps: the figures are exact.
  lemma {:induction false} ExactWhenTotalFits(env: Env, txs: seq<Tx>)
    requires TotalOwned(env, txs) < W64
    ensures After(env, txs).balance == Sum(env.allTx, After(env, txs).utxos)
    ensures After(env, txs).received - After(env, txs).sent == After(env, txs).balance
    ensures After(env, txs).received <= TotalOwned(env, txs)
  {
    if txs != [] {
      var before, tx := txs[..|txs| - 1], txs[|txs| - 1];
      ExactWhenTotalFits(env, before);
      var b := After(env, before);
      SettledExactly(env, b.(spent := b.spent + InputSet(tx), used := b.used + UsedBy(tx)), tx,
                     TotalOwned(env, before));
    }
  }

  lemma SettledExactly(env: Env, b: Books, tx: Tx, total: nat)
    requires b.balance == Sum(env.allTx, b.utxos) && b.received - b.sent == b.balance && b.received <= total
    requires total + Sum(env.allTx, Owned(env.addrs, tx, |tx.outputs|)) < W64
    ensures Settle(env, b, tx).balance == Sum(env.allTx, Settle(env, b, tx).utxos)
    ensures Settle(env, b, tx).received - Settle(env, b, tx).sent == Settle(env, b, tx).balance
    ensures Settle(env, b, tx).received <= total + Sum(env.allTx, Owned(env.addrs, tx, |tx.outputs|))
  {
    hide Sum, Unspent, Owned;
    var owned := Owned(env.addrs, tx, |tx.outputs|);
    SumConcat(env.allTx, b.utxos, owned);
    UnspentSum(env.allTx, b.utxos + owned, b.spent);
  }

  // ----- which outputs are listed -----

  // Transactions that reach the end of the loop body, the only ones whose outputs are listed.
  predicate IsActive(env: Env, txs: seq<Tx>, k: nat)
    requires k < |txs|
  {
    !IsInvalid(After(env, txs[..k]), txs[k]) && !IsPending(env, After(env, txs[..k]), txs[k])
  }

  ghost predicate ActivePays(env: Env, txs: seq<Tx>, u: Utxo) {
    exists k :: 0 <= k < |txs| && IsActive(env, txs, k) && OwnedBy(env.addrs, txs[k], u)
  }

  ghost predicate AcceptedSpends(env: Env, txs: seq<Tx>, u: Utxo) {
    exists k :: 0 <= k < |txs| && !IsInvalid(After(env, txs[..k]), txs[k]) && u in InputSet(txs[k])
  }

  ghost predicate PendingSpends(env: Env, txs: seq<Tx>, u: Utxo) {
    exists k :: 0 <= k < |txs| && !IsInvalid(After(env, txs[..k]), txs[k])
      && IsPending(env, After(env, txs[..k]), txs[k]) && u in InputSet(txs[k])
  }

  lemma PrefixKeeps(env: Env, txs: seq<Tx>, k: nat)
    requires k < |txs| - 1
    ensures txs[..|txs| - 1][..k] == txs[..k] && txs[..|txs| - 1][k] == txs[k]
  {
  }

  // For one more transaction, each of the three descriptions changes by that transaction alone.
  lemma DescribeOneMore(env: Env, txs: seq<Tx>, u: Utxo)
    requires txs != []
    ensures ActivePays(env, txs, u) <==>
            ActivePays(env, txs[..|txs| - 1], u)
            || (IsActive(env, txs, |txs| - 1) && OwnedBy(env.addrs, txs[|txs| - 1], u))
    ensures AcceptedSpends(env, txs, u) <==>
            AcceptedSpends(env, txs[..|txs| - 1], u)
            || (!IsInvalid(After(env, txs[..|txs| - 1]), txs[|txs| - 1]) && u in InputSet(txs[|txs| - 1]))
    ensures PendingSpends(env, txs, u) <==>
            PendingSpends(env, txs[..|txs| - 1], u)
            || (!IsInvalid(After(env, txs[..|txs| - 1]), txs[|txs| - 1])
                && IsPending(env, After(env, txs[..|txs| - 1]), txs[|txs| - 1]) && u in InputSet(txs[|txs| - 1]))
  {
    hide After, IsInvalid, IsPending, OwnedBy, InputSet;
    var before := txs[..|txs| - 1];
    forall k | 0 <= k < |before| ensures before[..k] == txs[..k] && before[k] == txs[k] {
      PrefixKeeps(env, txs, k);
    }
    assert ActivePays(env, before, u) ==> ActivePays(env, txs, u) by {
      if ActivePays(env, before, u) {
        var k :| 0 <= k < |before| && IsActive(env, before, k) && OwnedBy(env.addrs, before[k], u);
        assert IsActive(env, txs, k) && OwnedBy(env.addrs, txs[k], u);
      }
    }
    if ActivePays(env, txs, u) && !(IsActive(env, txs, |txs| - 1) && OwnedBy(env.addrs, txs[|txs| - 1], u)) {
      var k :| 0 <= k < |txs| && IsActive(env, txs, k) && OwnedBy(env.addrs, txs[k], u);
      assert IsActive(env, before, k) && OwnedBy(env.addrs, before[k], u);
    }
  }

  // The list holds outputs of accepted, non-pending transactions; every such output not spent by
  // an accepted transaction is listed; and a listed output that is spent is spent by a pending
  // transaction (the list is not purged at a pending transaction).
  lemma {:induction false} ListedOutputs(env: Env, txs: seq<Tx>, u: Utxo)
    ensures u in After(env, txs).utxos ==> ActivePays(env, txs, u)
    ensures ActivePays(env, txs, u) && !AcceptedSpends(env, txs, u) ==> u in After(env, txs).utxos
    ensures u in After(env, txs).utxos && AcceptedSpends(env, txs, u) ==> PendingSpends(env, txs, u)
    ensures u in After(env, txs).spent <==> AcceptedSpends(env, txs, u)
  {
    if txs != [] {
      var before, tx := txs[..|txs| - 1], txs[|txs| - 1];
      ListedOutputs(env, before, u);
      DescribeOneMore(env, txs, u);
      StepListed(env, After(env, before), tx, u);
    }
  }

  lemma StepListed(env: Env, b: Books, tx: Tx, u: Utxo)
    ensures IsInvalid(b, tx) || IsPending(env, b, tx) ==> (u in Step(env, b, tx).utxos <==> u in b.utxos)
    ensures !IsInvalid(b, tx) && !IsPending(env, b, tx) ==>
              (u in Step(env, b, tx).utxos <==>
               (u in b.utxos || OwnedBy(env.addrs, tx, u)) && u !in b.spent && u !in InputSet(tx))
    ensures u in Step(env, b, tx).spent <==> u in b.spent || (!IsInvalid(b, tx) && u in InputSet(tx))
  {
    hide InputSet, IsInvalid, IsPending;
    OwnedIffMine(env.addrs, tx, |tx.outputs|, u);
    UnspentIff(b.utxos + Owned(env.addrs, tx, |tx.outputs|), b.spent + InputSet(tx), u);
  }

  // No output is listed twice.
  lemma {:induction false} ListedOnce(env: Env, txs: seq<Tx>)
    requires Distinct(txs)
    ensures NoRepeats(After(env, txs).utxos)
  {
    if txs != [] {
      var before, tx := txs[..|txs| - 1], txs[|txs| - 1];
      ListedOnce(env, before);
      var b, owned := After(env, before), Owned(env.addrs, tx, |tx.outputs|);
      OwnedNoRepeats(env.addrs, tx, |tx.outputs|);
      forall u | u in b.utxos ensures u !in owned {
        ListedOutputs(env, before, u);
        OwnedIffMine(env.addrs, tx, |tx.outputs|, u);
      }
      NoRepeatsConcat(b.utxos, owned);
      UnspentNoRepeats(b.utxos + owned, b.spent + InputSet(tx));
    }
  }

  ghost predicate SetAsideBefore(env: Env, txs: seq<Tx>, k: nat, h: Hash)
    requires k <= |txs|
  {
    exists j :: 0 <= j < k && txs[j].txHash == h && IsInvalid(After(env, txs[..j]), txs[j])
  }

  ghost predicate WaitsBefore(env: Env, txs: seq<Tx>, k: nat, h: Hash)
    requires k <= |txs|
  {
    exists j :: 0 <= j < k && txs[j].txHash == h && !IsInvalid(After(env, txs[..j]), txs[j])
                && IsPending(env, After(env, txs[..j]), txs[j])
  }

  // The hashes recorded as invalid and as pending are those of the transactions that were found so.
  lemma {:induction false} RecordedAre(env: Env, txs: seq<Tx>, k: nat, h: Hash)
    requires k <= |txs|
    ensures h in After(env, txs[..k]).invalid <==> SetAsideBefore(env, txs, k, h)
    ensures h in After(env, txs[..k]).pending <==> WaitsBefore(env, txs, k, h)
  {
    hide IsInvalid, IsPending, After, InputSet, UsedBy;
    if k == 0 {
      AfterNone(env);
      assert txs[..0] == [];
    } else {
      RecordedAre(env, txs, k - 1, h);
      AfterOneMore(env, txs, k - 1);
      SettleKeeps(env, After(env, txs[..k - 1]), txs[k - 1]);
      hide Step;
      assert SetAsideBefore(env, txs, k - 1, h) ==> SetAsideBefore(env, txs, k, h);
      assert WaitsBefore(env, txs, k - 1, h) ==> WaitsBefore(env, txs, k, h);
    }
  }

  lemma SettleKeeps(env: Env, b: Books, tx: Tx)
    ensures Step(env, b, tx).invalid == if IsInvalid(b, tx) then b.invalid + {tx.txHash} else b.invalid
    ensures Step(env, b, tx).pending
            == if !IsInvalid(b, tx) && IsPending(env, b, tx) then b.pending + {tx.txHash} else b.pending
  {
    hide Sum, Unspent, Owned, IsInvalid, IsPending, InputSet, UsedBy;
  }

  // A listed transaction is set aside exactly if it is unconfirmed and spends an output that an
  // accepted one before it spends, or an output of one that was set aside.
  lemma WhoConflicts(env: Env, txs: seq<Tx>, k: nat)
    requires k < |txs|
    ensures IsInvalid(After(env, txs[..k]), txs[k]) <==>
            && txs[k].blockHeight == 0x7fff_ffff
            && exists i :: && i in txs[k].inputs
                           && (|| AcceptedSpends(env, txs[..k], Utxo(i.txHash, i.index))
                               || SetAsideBefore(env, txs, k, i.txHash))
  {
    hide After, AcceptedSpends, SetAsideBefore, Conflicted;
    forall i
      ensures Conflicted(After(env, txs[..k]), i) <==>
              AcceptedSpends(env, txs[..k], Utxo(i.txHash, i.index)) || SetAsideBefore(env, txs, k, i.txHash)
    {
      ConflictIs(env, txs, k, i);
    }
  }

  lemma ConflictIs(env: Env, txs: seq<Tx>, k: nat, i: TxInput)
    requires k < |txs|
    ensures Conflicted(After(env, txs[..k]), i) <==>
            AcceptedSpends(env, txs[..k], Utxo(i.txHash, i.index)) || SetAsideBefore(env, txs, k, i.txHash)
  {
    hide After, AcceptedSpends, SetAsideBefore;
    ListedOutputs(env, txs[..k], Utxo(i.txHash, i.index));
    RecordedAre(env, txs, k, i.txHash);
  }

  // And it waits exactly if it is unconfirmed and over 100000 bytes, pays an output below 546, can
  // still be replaced, is locked to a height above the next one or to a time to come, or spends an
  // output of one that waits.
  lemma WhoWaits(env: Env, txs: seq<Tx>, k: nat)
    requires k < |txs|
    ensures IsPending(env, After(env, txs[..k]), txs[k]) <==>
            && txs[k].blockHeight == 0x7fff_ffff
            && (|| txs[k].size > 100000
                || (exists o :: o in txs[k].outputs && o.amount < 546)
                || (exists i :: i in txs[k].inputs && i.sequence < 0xffff_fffe)
                || (exists i :: && i in txs[k].inputs && i.sequence < 0xffff_ffff
                                && (|| (env.height + 1) % 0x1_0000_0000 < txs[k].lockTime < 500000000
                                    || txs[k].lockTime > env.now))
                || exists i :: i in txs[k].inputs && WaitsBefore(env, txs, k, i.txHash))
  {
    hide After, WaitsBefore;
    forall h ensures h in After(env, txs[..k]).pending <==> WaitsBefore(env, txs, k, h) {
      RecordedAre(env, txs, k, h);
    }
  }

  ghost predicate AllConfirmed(txs: seq<Tx>) {
    forall k :: 0 <= k < |txs| ==> txs[k].blockHeight != TX_UNCONFIRMED
  }

  ghost predicate Pays(env: Env, txs: seq<Tx>, u: Utxo) {
    exists tx :: tx in txs && OwnedBy(env.addrs, tx, u)
  }

  ghost predicate Spends(txs: seq<Tx>, u: Utxo) {
    exists tx :: tx in txs && u in InputSet(tx)
  }

  // With every transaction confirmed, the list is exactly the wallet's outputs minus all inputs.
  lemma ConfirmedListIsOutputsMinusInputs(env: Env, txs: seq<Tx>, u: Utxo)
    requires AllConfirmed(txs)
    ensures u in After(env, txs).utxos <==> Pays(env, txs, u) && !Spends(txs, u)
  {
    hide After, OwnedBy, InputSet;
    ListedOutputs(env, txs, u);
    assert !PendingSpends(env, txs, u);
    if Pays(env, txs, u) {
      var tx :| tx in txs && OwnedBy(env.addrs, tx, u);
      var k :| 0 <= k < |txs| && txs[k] == tx;
      assert IsActive(env, txs, k);
    }
    if Spends(txs, u) {
      var tx :| tx in txs && u in InputSet(tx);
      var k :| 0 <= k < |txs| && txs[k] == tx;
      assert !IsInvalid(After(env, txs[..k]), txs[k]);
    }
  }

  // Reordering a confirmed list changes neither the outputs listed nor the balance.
  lemma OrderDoesNotMatter(env: Env, txs: seq<Tx>, other: seq<Tx>)
    requires AllConfirmed(txs) && Distinct(txs) && Distinct(other)
    requires forall tx :: tx in txs <==> tx in other
    ensures forall u :: u in After(env, txs).utxos <==> u in After(env, other).utxos
    ensures After(env, txs).balance == After(env, other).balance
  {
    hide After, Sum, NoRepeats, OwnedBy, InputSet;
    assert AllConfirmed(other) by {
      forall k | 0 <= k < |other| ensures other[k].blockHeight != TX_UNCONFIRMED {
        assert other[k] in txs;
      }
    }
    forall u ensures u in After(env, txs).utxos <==> u in After(env, other).utxos {
      ConfirmedListIsOutputsMinusInputs(env, txs, u);
      ConfirmedListIsOutputsMinusInputs(env, other, u);
    }
    ListedOnce(env, txs);
    ListedOnce(env, other);
    SumIsOfTheSet(env.allTx, After(env, txs).utxos, After(env, other).utxos);
    BalanceIsListedSum(env, txs);
    BalanceIsListedSum(env, other);
  }

  // Every listed output can be looked up in the store.
  lemma ListedAreStored(env: Env, txs: seq<Tx>, u: Utxo)
    requires Stored(env, txs)
    requires u in After(env, txs).utxos
    ensures u.hash in env.allTx && u.n < |env.allTx[u.hash].outputs|
    ensures Mine(env.addrs, env.allTx[u.hash].outputs[u.n])
  {
    ListedOutputs(env, txs, u);
  }

  lemma ListedComesFrom(env: Env, txs: seq<Tx>, u: Utxo)
    requires u in After(env, txs).utxos
    ensures exists k :: 0 <= k < |txs| && txs[k].txHash == u.hash
  {
    hide After, IsActive;
    ListedOutputs(env, txs, u);
  }

  // ----- in which order outputs are listed -----

  // u belongs to an earlier transaction of the list than v, or to an earlier output of the same one.
  ghost predicate Earlier(txs: seq<Tx>, u: Utxo, v: Utxo) {
    exists j, k :: && 0 <= j <= k < |txs| && txs[j].txHash == u.hash && txs[k].txHash == v.hash
                   && (j == k ==> u.n < v.n)
  }

  ghost predicate InOrder(txs: seq<Tx>, us: seq<Utxo>) {
    forall a, b :: 0 <= a < b < |us| ==> Earlier(txs, us[a], us[b])
  }

  lemma {:induction false} OwnedInOrder(addrs: set<string>, txs: seq<Tx>, tx: Tx, k: nat)
    requires k <= |tx.outputs| && tx in txs
    ensures InOrder(txs, Owned(addrs, tx, k))
  {
    if k > 0 {
      OwnedInOrder(addrs, txs, tx, k - 1);
      var j :| 0 <= j < |txs| && txs[j] == tx;
      var before, last := Owned(addrs, tx, k - 1), Utxo(tx.txHash, k - 1);
      forall u | u in before ensures Earlier(txs, u, last) {
        OwnedIffMine(addrs, tx, k - 1, u);
      }
    }
  }

  lemma {:induction false} UnspentInOrder(txs: seq<Tx>, us: seq<Utxo>, spent: set<Utxo>)
    requires InOrder(txs, us)
    ensures InOrder(txs, Unspent(us, spent))
  {
    hide Earlier;
    if us != [] {
      UnspentInOrder(txs, us[1..], spent);
      forall v | v in Unspent(us[1..], spent) ensures Earlier(txs, us[0], v) {
        UnspentIff(us[1..], spent, v);
      }
    }
  }

  // Outputs are listed in the order of their transactions, and within one in its order.
  lemma {:induction false} ListedInOrder(env: Env, txs: seq<Tx>)
    ensures InOrder(txs, After(env, txs).utxos)
  {
    if txs != [] {
      var before, tx := txs[..|txs| - 1], txs[|txs| - 1];
      ListedInOrder(env, before);
      var b, owned := After(env, before), Owned(env.addrs, tx, |tx.outputs|);
      OwnedInOrder(env.addrs, txs, tx, |tx.outputs|);
      assert before + [tx] == txs;
      LaterListed(env, before, tx, b.utxos, owned);
      UnspentInOrder(txs, b.utxos + owned, b.spent + InputSet(tx));
    }
  }

  lemma LaterListed(env: Env, before: seq<Tx>, tx: Tx, us: seq<Utxo>, owned: seq<Utxo>)
    requires InOrder(before, us) && InOrder(before + [tx], owned)
    requires us == After(env, before).utxos && owned == Owned(env.addrs, tx, |tx.outputs|)
    ensures InOrder(before + [tx], us) && InOrder(before + [tx], us + owned)
  {
    hide Earlier, After, Owned;
    forall a, b | 0 <= a < b < |us| ensures Earlier(before + [tx], us[a], us[b]) {
      EarlierStill(before, tx, us[a], us[b]);
    }
    forall u, v | u in us && v in owned ensures Earlier(before + [tx], u, v) {
      ListedComesFrom(env, before, u);
      OwnedIffMine(env.addrs, tx, |tx.outputs|, v);
      EarlierThanNew(before, tx, u, v);
    }
    var both := us + owned;
    forall a, b | 0 <= a < b < |both| ensures Earlier(before + [tx], both[a], both[b]) {
      assert both[a] == if a < |us| then us[a] else owned[a - |us|];
      assert both[b] == if b < |us| then us[b] else owned[b - |us|];
    }
  }

  lemma EarlierStill(before: seq<Tx>, tx: Tx, u: Utxo, v: Utxo)
    requires Earlier(before, u, v)
    ensures Earlier(before + [tx], u, v)
  {
    var j, k :| 0 <= j <= k < |before| && before[j].txHash == u.hash && before[k].txHash == v.hash
                && (j == k ==> u.n < v.n);
    assert (before + [tx])[j] == before[j] && (before + [tx])[k] == before[k];
  }

  lemma EarlierThanNew(before: seq<Tx>, tx: Tx, u: Utxo, v: Utxo)
    requires (exists k :: 0 <= k < |before| && before[k].txHash == u.hash) && v.hash == tx.txHash
    ensures Earlier(before + [tx], u, v)
  {
    var k :| 0 <= k < |before| && before[k].txHash == u.hash;
    assert (before + [tx])[k] == before[k] && (before + [tx])[|before|] == tx;
  }

  ghost predicate ActiveUses(env: Env, txs: seq<Tx>, a: string) {
    exists k :: 0 <= k < |txs| && IsActive(env, txs, k) && a in UsedBy(txs[k])
  }

  // The addresses in use are those paid by the transactions that reach the end of the loop body.
  lemma {:induction false} UsedAre(env: Env, txs: seq<Tx>, a: string)
    ensures a in After(env, txs).used <==> ActiveUses(env, txs, a)
  {
    if txs != [] {
      UsedAre(env, txs[..|txs| - 1], a);
      StepUses(env, After(env, txs[..|txs| - 1]), txs[|txs| - 1]);
      OneMoreUses(env, txs, a);
      hide Step, IsInvalid, IsPending, UsedBy, ActiveUses;
    }
  }

  lemma OneMoreUses(env: Env, txs: seq<Tx>, a: string)
    requires txs != []
    ensures ActiveUses(env, txs, a) <==>
            || ActiveUses(env, txs[..|txs| - 1], a)
            || (IsActive(env, txs, |txs| - 1) && a in UsedBy(txs[|txs| - 1]))
  {
    hide After, IsInvalid, IsPending, UsedBy;
    var before := txs[..|txs| - 1];
    forall k | 0 <= k < |before| ensures before[..k] == txs[..k] && before[k] == txs[k] {
      PrefixKeeps(env, txs, k);
    }
    if k :| 0 <= k < |before| && IsActive(env, before, k) && a in UsedBy(before[k]) {
      assert IsActive(env, txs, k) && a in UsedBy(txs[k]);
    }
    if k :| 0 <= k < |txs| - 1 && IsActive(env, txs, k) && a in UsedBy(txs[k]) {
      assert IsActive(env, before, k) && a in UsedBy(before[k]);
    }
  }

  lemma StepUses(env: Env, b: Books, tx: Tx)
    ensures Step(env, b, tx).used
            == if IsInvalid(b, tx) || IsPending(env, b, tx) then b.used else b.used + UsedBy(tx)
  {
    hide Sum, Unspent, Owned, IsInvalid, IsPending, InputSet, UsedBy;
  }
}
