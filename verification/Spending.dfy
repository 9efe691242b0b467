// Choosing which of the wallet's outputs to spend, the fee that is paid, and the change.
module Spending {
  import opened Common
  import opened Ledger
  import TxCodec

  const TX_FEE_PER_KB: nat := 1000
  const TX_OUTPUT_SIZE: nat := 34
  const TX_INPUT_SIZE: nat := TxCodec.TX_INPUT_SIZE
  const MIN_FEE_PER_KB: nat := (TX_FEE_PER_KB * 1000 + 190) / 191
  const CHANGE_SCRIPT: nat := 25 // a change address is always pay-to-pubkey-hash

  // An output that can be spent, with its amount; an output to create, with its script's length.
  datatype Coin = Coin(utxo: Utxo, amount: nat)
  datatype Output = Output(amount: nat, scriptLen: nat)

  // What selection reads of the wallet.
  datatype Funds = Funds(allTx: map<Hash, Tx>, utxos: seq<Utxo>, balance: nat, feePerKb: nat)

  datatype Draft = Draft(inputs: seq<Coin>, outputs: seq<Output>)

  // A transaction that would be too large is not built; Smaller carries the outputs to build for instead.
  datatype Selection = Built(tx: Draft) | Insufficient | Oversized | Smaller(outputs: seq<Output>)

  function VarIntSize(i: nat): nat { TxCodec.VarIntSize(i) }

  function OutputSize(o: Output): nat {
    8 + VarIntSize(o.scriptLen) + o.scriptLen
  }

  function OutputsSize(outputs: seq<Output>): nat {
    if outputs == [] then 0 else OutputSize(outputs[0]) + OutputsSize(outputs[1..])
  }

  function OutputsSum(outputs: seq<Output>): nat {
    if outputs == [] then 0 else outputs[0].amount + OutputsSum(outputs[1..])
  }

  // Size of an unsigned transaction, its inputs taken to be of the usual signed size.
  function SizeOf(inputs: nat, outputs: seq<Output>): nat {
    8 + VarIntSize(inputs) + VarIntSize(|outputs|) + inputs * TX_INPUT_SIZE + OutputsSize(outputs)
  }

  function Size(tx: Draft): nat {
    SizeOf(|tx.inputs|, tx.outputs)
  }

  function TxFee(feePerKb: nat, size: nat): nat {
    var standardFee := (size + 999) / 1000 * TX_FEE_PER_KB;
    var fee := (size * feePerKb / 1000 + 99) / 100 * 100;
    if fee > standardFee then fee else standardFee
  }

  function MinOutputAmount(feePerKb: nat): nat {
    var amount := (TX_MIN_OUTPUT_AMOUNT * feePerKb + MIN_FEE_PER_KB - 1) / MIN_FEE_PER_KB;
    if amount > TX_MIN_OUTPUT_AMOUNT then amount else TX_MIN_OUTPUT_AMOUNT
  }

  // The fee is the least multiple of 100 that is neither below the standard fee, 1000 for every
  // started 1000 bytes, nor below what the rate gives.
  lemma FeeIsLeast(feePerKb: nat, size: nat, x: nat)
    ensures TxFee(feePerKb, size) % 100 == 0
    ensures x % 100 == 0 ==>
              (x >= TxFee(feePerKb, size)
               <==> x >= size * feePerKb / 1000 && exists kb: nat :: x >= 1000 * kb && kb * 1000 >= size)
  {
    FeeInHundreds(feePerKb, size);
    var kb, rate := (size + 999) / 1000, size * feePerKb / 1000;
    assert kb * 1000 >= size && 1000 * (kb - 1) < size;
    assert (rate + 99) / 100 * 100 >= rate > ((rate + 99) / 100 - 1) * 100;
  }

  // The least worthwhile amount: at least 546, and that many more as the rate is above 5236 per kB.
  lemma LeastAmountIs(feePerKb: nat, x: nat)
    ensures x >= MinOutputAmount(feePerKb) <==> x >= 546 && x * 5236 >= 546 * feePerKb
  {
    assert MIN_FEE_PER_KB == 5236;
    var total := 546 * feePerKb;
    assert x >= (total + 5235) / 5236 <==> x * 5236 >= total;
  }

  // The fee for a size, raised so that what the wallet keeps ends on a multiple of 100.
  function RoundedFee(w: Funds, amount: nat, size: nat): nat {
    var fee := TxFee(w.feePerKb, size);
    if w.balance > amount + fee then fee + (w.balance - (amount + fee)) % 100 else fee
  }

  // The listed outputs that exist, in order.
  function Spendable(allTx: map<Hash, Tx>, utxos: seq<Utxo>): seq<Coin> {
    if utxos == [] then []
    else
      var u := utxos[|utxos| - 1];
      var rest := Spendable(allTx, utxos[..|utxos| - 1]);
      if u.hash in allTx && u.n < |allTx[u.hash].outputs|
      then rest + [Coin(u, allTx[u.hash].outputs[u.n].amount)] else rest
  }

  function CoinSum(coins: seq<Coin>): nat {
    if coins == [] then 0 else CoinSum(coins[..|coins| - 1]) + coins[|coins| - 1].amount
  }

  // That is the size reported for any unsigned transaction with these numbers of inputs and outputs
  // and these script lengths.
  lemma SizeIsReported(tx: TxCodec.Tx, outputs: seq<Output>)
    requires TxCodec.WellFormed(tx) && |tx.outputs| == |outputs|
    requires forall k :: 0 <= k < |tx.inputs| ==> tx.inputs[k].signature.None?
    requires forall k :: 0 <= k < |outputs| ==> |tx.outputs[k].script| == outputs[k].scriptLen
    ensures TxCodec.TxSize(tx) == SizeOf(|tx.inputs|, outputs)
  {
    InputsReported(tx.inputs);
    OutputsReported(tx.outputs, outputs);
  }

  lemma {:induction false} InputsReported(inputs: seq<TxCodec.TxIn>)
    requires TxCodec.InputsOk(inputs) && forall k :: 0 <= k < |inputs| ==> inputs[k].signature.None?
    ensures TxCodec.InputsSize(inputs) == |inputs| * TX_INPUT_SIZE
  {
    if inputs != [] {
      InputsReported(inputs[..|inputs| - 1]);
    }
  }

  lemma {:induction false} OutputsReported(outs: seq<TxCodec.TxOut>, outputs: seq<Output>)
    requires TxCodec.OutputsOk(outs) && |outs| == |outputs|
    requires forall k :: 0 <= k < |outputs| ==> |outs[k].script| == outputs[k].scriptLen
    ensures TxCodec.OutputsSize(outs) == OutputsSize(outputs)
  {
    if outs != [] {
      var n := |outs| - 1;
      OutputsReported(outs[..n], outputs[..n]);
      OutputsConcat(outputs[..n], [outputs[n]]);
      OutputsOne(outputs[n]);
      assert outputs == outputs[..n] + [outputs[n]];
    }
  }

  // ----- arithmetic of the fee -----

  lemma {:induction false} FeeGrows(feePerKb: nat, a: nat, b: nat)
    requires a <= b
    ensures TxFee(feePerKb, a) <= TxFee(feePerKb, b)
  {
    assert a * feePerKb <= b * feePerKb by {
      Scaled(a, b, feePerKb);
    }
    Thousandths(a * feePerKb, b * feePerKb);
    Thousandths(a + 999, b + 999);
  }

  lemma Thousandths(a: nat, b: nat)
    requires a <= b
    ensures a / 1000 <= b / 1000 && (a / 1000 + 99) / 100 <= (b / 1000 + 99) / 100
  {
  }

  lemma Scaled(a: nat, b: nat, k: nat)
    requires a <= b
    ensures a * k <= b * k
  {
  }

  lemma FeeIsPositive(w: Funds, amount: nat, size: nat)
    requires size > 0
    ensures RoundedFee(w, amount, size) >= TxFee(w.feePerKb, size) >= 1000
  {
  }

  // Rounding never asks for more than the wallet has, when the plain fee does not.
  lemma RoundedWithin(w: Funds, amount: nat, size: nat)
    requires amount + TxFee(w.feePerKb, size) <= w.balance
    ensures amount + RoundedFee(w, amount, size) <= w.balance
    ensures (w.balance - (amount + RoundedFee(w, amount, size))) % 100 == 0
    ensures RoundedFee(w, amount, size) < TxFee(w.feePerKb, size) + 100
  {
    hide TxFee;
    var left := w.balance - (amount + TxFee(w.feePerKb, size));
    assert left % 100 <= left;
    assert (left - left % 100) % 100 == 0;
  }

  // ----- lists -----

  lemma {:induction false} OutputsConcat(a: seq<Output>, b: seq<Output>)
    ensures OutputsSize(a + b) == OutputsSize(a) + OutputsSize(b)
    ensures OutputsSum(a + b) == OutputsSum(a) + OutputsSum(b)
  {
    if a == [] {
      assert a + b == b;
    } else {
      assert (a + b)[1..] == a[1..] + b;
      OutputsConcat(a[1..], b);
    }
  }

  lemma OutputsOne(o: Output)
    ensures OutputsSize([o]) == OutputSize(o) && OutputsSum([o]) == o.amount && OutputsSum([]) == 0
  {
    assert [o][1..] == [];
    assert OutputsSize([o]) == OutputSize(o) + OutputsSize([]);
    assert OutputsSum([o]) == o.amount + OutputsSum([]);
  }

  lemma SpendableOneMore(allTx: map<Hash, Tx>, utxos: seq<Utxo>, k: nat)
    requires k < |utxos|
    ensures Spendable(allTx, utxos[..k + 1])
            == (var u := utxos[k];
                if u.hash in allTx && u.n < |allTx[u.hash].outputs|
                then Spendable(allTx, utxos[..k]) + [Coin(u, allTx[u.hash].outputs[u.n].amount)]
                else Spendable(allTx, utxos[..k]))
  {
    assert utxos[..k + 1][..k] == utxos[..k];
  }

  // The first coins are a prefix of all coins, and so no more of them and no larger in sum.
  lemma {:induction false} SpendablePrefix(allTx: map<Hash, Tx>, utxos: seq<Utxo>, k: nat)
    requires k <= |utxos|
    ensures Spendable(allTx, utxos[..k]) <= Spendable(allTx, utxos)
    ensures CoinSum(Spendable(allTx, utxos[..k])) <= CoinSum(Spendable(allTx, utxos))
    decreases |utxos| - k
  {
    if k == |utxos| {
      assert utxos[..k] == utxos;
    } else {
      SpendablePrefix(allTx, utxos, k + 1);
      SpendableOneMore(allTx, utxos, k);
      if |Spendable(allTx, utxos[..k + 1])| > |Spendable(allTx, utxos[..k])| {
        assert Spendable(allTx, utxos[..k + 1])[..|Spendable(allTx, utxos[..k])|] == Spendable(allTx, utxos[..k]);
      }
    }
  }

  // Each coin is a listed output; none is taken twice when none is listed twice.
  lemma {:induction false} SpendableDistinct(allTx: map<Hash, Tx>, utxos: seq<Utxo>)
    requires NoRepeats(utxos)
    ensures forall c :: c in Spendable(allTx, utxos) ==> c.utxo in utxos && c.amount == Amount(allTx, c.utxo)
    ensures forall i, j :: 0 <= i < j < |Spendable(allTx, utxos)| ==>
                             Spendable(allTx, utxos)[i].utxo != Spendable(allTx, utxos)[j].utxo
  {
    if utxos != [] {
      var n := |utxos| - 1;
      SpendableDistinct(allTx, utxos[..n]);
      var coins := Spendable(allTx, utxos[..n]);
      forall i | 0 <= i < |coins| ensures coins[i].utxo != utxos[n] {
        assert coins[i] in coins;
      }
    }
  }

  // The coins are worth what the ledger says the outputs are worth.
  lemma {:induction false} SpendableSum(allTx: map<Hash, Tx>, utxos: seq<Utxo>)
    ensures CoinSum(Spendable(allTx, utxos)) == Sum(allTx, utxos)
  {
    if utxos != [] {
      hide Spendable, CoinSum, Sum;
      var n := |utxos| - 1;
      assert utxos[..n + 1] == utxos == utxos[..n] + [utxos[n]];
      SpendableSum(allTx, utxos[..n]);
      SpendableOneMore(allTx, utxos, n);
      if utxos[n].hash in allTx && utxos[n].n < |allTx[utxos[n].hash].outputs| {
        CoinAppended(Spendable(allTx, utxos[..n]), Coin(utxos[n], Amount(allTx, utxos[n])));
      }
      SumConcat(allTx, utxos[..n], [utxos[n]]);
      SumOne(allTx, utxos[n]);
    }
  }

  // ----- building a transaction -----

  // Amounts, fee rate and output sizes small enough for the source's 64-bit arithmetic.
  predicate Moderate(w: Funds, outputs: seq<Output>) {
    && OutputsSum(outputs) < 0x4000_0000_0000_0000 && w.balance < 0x4000_0000_0000_0000
    && w.feePerKb < W32 && OutputsSize(outputs) < 0x4000_0000 && |outputs| < 0x4000_0000
  }

  // For moderate figures nothing computed here reaches 2^64.
  lemma NothingWraps(feePerKb: nat, size: nat)
    requires feePerKb < W32 && size < 0x8000_0000
    ensures size * feePerKb < 0x8000_0000_0000_0000
    ensures TxFee(feePerKb, size) < 0x2000_0000_0000_0000
    ensures TX_MIN_OUTPUT_AMOUNT * feePerKb + MIN_FEE_PER_KB - 1 < W64
    ensures MinOutputAmount(feePerKb) < 0x1000_0000_0000
  {
    assert size * feePerKb <= 0x8000_0000 * feePerKb by {
      Scaled(size, 0x8000_0000, feePerKb);
    }
  }

  function Uncounted(count: nat): nat
    ensures Uncounted(count) > 0 <==> count in {0xfc, 0xffff, 0xffff_ffff}
  {
    VarIntSize(count + 1) - VarIntSize(count)
  }

  // What the transaction leaves to the miner.
  function Paid(tx: Draft): int {
    CoinSum(tx.inputs) - OutputsSum(tx.outputs)
  }

  // The fee asked for before the remainder is dealt with, room for a change output included.
  function Asked(w: Funds, outputs: seq<Output>, inputs: nat): nat {
    RoundedFee(w, OutputsSum(outputs), SizeOf(inputs, outputs) + TX_OUTPUT_SIZE)
  }

  // The first k coins cover the outputs and the fee exactly, or with a margin large enough for change.
  ghost predicate Enough(w: Funds, outputs: seq<Output>, k: nat)
    requires k <= |Spendable(w.allTx, w.utxos)|
  {
    var worth := CoinSum(Spendable(w.allTx, w.utxos)[..k]);
    || worth == OutputsSum(outputs) + Asked(w, outputs, k)
    || worth >= OutputsSum(outputs) + Asked(w, outputs, k) + MinOutputAmount(w.feePerKb)
  }

  predicate Fits(outputs: seq<Output>, inputs: nat) {
    SizeOf(inputs, outputs) + TX_OUTPUT_SIZE <= TX_MAX_SIZE
  }

  // No fewer than n coins would do, and none of these shorter selections is too large.
  ghost predicate NoneBefore(w: Funds, outputs: seq<Output>, n: nat)
    requires n <= |Spendable(w.allTx, w.utxos)| + 1
  {
    forall k :: 0 < k < n ==> Fits(outputs, k) && !Enough(w, outputs, k)
  }

  // With the n-th coin the transaction becomes too large, and fewer coins would not do.
  ghost predicate TooLargeAt(w: Funds, outputs: seq<Output>, n: nat) {
    0 < n <= |Spendable(w.allTx, w.utxos)| && NoneBefore(w, outputs, n) && !Fits(outputs, n)
  }

  // Whether the wallet can pay the outputs and the fee for spending everything it lists.
  predicate Affords(w: Funds, outputs: seq<Output>) {
    w.balance >= OutputsSum(outputs)
                 + TxFee(w.feePerKb, 10 + |w.utxos| * TX_INPUT_SIZE + (|outputs| + 1) * TX_OUTPUT_SIZE)
  }

  // The fee asked for when k coins have been taken.
  function FeeAfter(w: Funds, outputs: seq<Output>, k: nat): nat {
    if k == 0 then TxFee(w.feePerKb, SizeOf(0, outputs) + TX_OUTPUT_SIZE) else Asked(w, outputs, k)
  }

  // What to build for instead, when coins of this worth fit: the last output pays what they fall
  // short, or is left out.
  function Lighter(outputs: seq<Output>, worth: nat, fee: nat, minAmount: nat): seq<Output>
    requires outputs != []
  {
    var last, rest := outputs[|outputs| - 1], outputs[..|outputs| - 1];
    var short := OutputsSum(outputs) + fee - worth;
    if last.amount > short + minAmount then rest + [Output(last.amount - short, last.scriptLen)] else rest
  }

  function LighterAt(w: Funds, outputs: seq<Output>, n: nat): seq<Output>
    requires outputs != [] && 0 < n <= |Spendable(w.allTx, w.utxos)|
  {
    var worth := CoinSum(Spendable(w.allTx, w.utxos)[..n - 1]);
    Lighter(outputs, worth, FeeAfter(w, outputs, n - 1), MinOutputAmount(w.feePerKb))
  }

  // The transaction spends the first coins and pays the requested outputs and a sufficient fee.
  ghost predicate Pays(w: Funds, outputs: seq<Output>, tx: Draft) {
    && tx.inputs <= Spendable(w.allTx, w.utxos)
    && Asked(w, outputs, |tx.inputs|) <= Paid(tx)
  }

  // No change: the remainder is small, and goes to the miner.
  ghost predicate Unchanged(w: Funds, outputs: seq<Output>, tx: Draft) {
    && tx.outputs == outputs
    && Paid(tx) <= Asked(w, outputs, |tx.inputs|) + MinOutputAmount(w.feePerKb)
  }

  // Change: exactly the fee asked for is paid, and the rest comes back in one more output.
  ghost predicate Changed(w: Funds, outputs: seq<Output>, tx: Draft) {
    && Paid(tx) == Asked(w, outputs, |tx.inputs|)
    && Size(tx) == SizeOf(|tx.inputs|, outputs) + TX_OUTPUT_SIZE + Uncounted(|outputs|)
    && exists change: Output :: change.amount > MinOutputAmount(w.feePerKb) && change.scriptLen == CHANGE_SCRIPT
                        && multiset(tx.outputs) == multiset(outputs) + multiset{change}
  }

  // Whether the fee suffices for the finished transaction: always without change, and with change
  // exactly when the longer prefix that one more output may need costs nothing.
  lemma FeeSuffices(w: Funds, outputs: seq<Output>, tx: Draft)
    requires Pays(w, outputs, tx) && (Unchanged(w, outputs, tx) || Changed(w, outputs, tx))
    ensures Unchanged(w, outputs, tx) ==> Paid(tx) >= TxFee(w.feePerKb, Size(tx))
    ensures Changed(w, outputs, tx) ==>
              var counted := SizeOf(|tx.inputs|, outputs) + TX_OUTPUT_SIZE;
              (Paid(tx) >= TxFee(w.feePerKb, Size(tx))
               <==> TxFee(w.feePerKb, counted + Uncounted(|outputs|)) == TxFee(w.feePerKb, counted))
    ensures Paid(tx) <= Asked(w, outputs, |tx.inputs|) + MinOutputAmount(w.feePerKb)
  {
    hide TxFee, MinOutputAmount;
    var size := SizeOf(|tx.inputs|, outputs);
    var counted := size + TX_OUTPUT_SIZE;
    FeeGrows(w.feePerKb, size, counted);
    FeeGrows(w.feePerKb, counted, counted + Uncounted(|outputs|));
    FeeInHundreds(w.feePerKb, counted);
    FeeInHundreds(w.feePerKb, counted + Uncounted(|outputs|));
    RoundedBelow(w, OutputsSum(outputs), counted);
  }

  // So a caller whose number of outputs is not 252, 65535 or 2^32 - 1 always pays enough.
  lemma SufficesForMostCounts(w: Funds, outputs: seq<Output>, tx: Draft)
    requires Pays(w, outputs, tx) && (Unchanged(w, outputs, tx) || Changed(w, outputs, tx))
    requires |outputs| !in {0xfc, 0xffff, 0xffff_ffff}
    ensures Paid(tx) >= TxFee(w.feePerKb, Size(tx))
  {
    hide TxFee, MinOutputAmount;
    FeeSuffices(w, outputs, tx);
    assert Uncounted(|outputs|) == 0;
  }

  lemma FeeInHundreds(feePerKb: nat, size: nat)
    ensures TxFee(feePerKb, size) % 100 == 0
  {
    Hundreds((size + 999) / 1000);
    Hundreds((size * feePerKb / 1000 + 99) / 100);
  }

  lemma Hundreds(k: nat)
    ensures k * 1000 % 100 == 0 && k * 100 % 100 == 0
  {
  }

  lemma RoundedBelow(w: Funds, amount: nat, size: nat)
    ensures TxFee(w.feePerKb, size) <= RoundedFee(w, amount, size) < TxFee(w.feePerKb, size) + 100
  {
    hide TxFee;
  }

  // It does fail: for any 252 outputs there is a wallet, at this rate, for which every transaction
  // that can be built has change and pays too little; there is such a transaction, and if the
  // outputs are not too large, neither funds nor size can keep it from being built.
  function ShortWallet(outputs: seq<Output>, u: Utxo): Funds {
    OneCoinWallet(u, OutputsSum(outputs) + 100 * (SizeOf(1, outputs) + TX_OUTPUT_SIZE) + 10000000, 100000)
  }

  lemma FeeFallsShort(outputs: seq<Output>, u: Utxo) returns (tx: Draft)
    requires |outputs| == 0xfc
    ensures var w := ShortWallet(outputs, u);
            && w.feePerKb == 100000 && w.balance == CoinSum(Spendable(w.allTx, w.utxos))
            && Pays(w, outputs, tx) && Changed(w, outputs, tx)
            && forall t :: Pays(w, outputs, t) && (Unchanged(w, outputs, t) || Changed(w, outputs, t)) ==>
                             Changed(w, outputs, t) && Paid(t) < TxFee(w.feePerKb, Size(t))
    ensures var w := ShortWallet(outputs, u);
            && |Spendable(w.allTx, w.utxos)| == 1 && OutputsSum(outputs) + Asked(w, outputs, 1) <= w.balance
            && (OutputsSum(outputs) < 0x2000_0000_0000_0000 && SizeOf(1, outputs) + TX_OUTPUT_SIZE <= TX_MAX_SIZE
                ==> Moderate(w, outputs))
  {
    hide OutputsSize, OutputsSum, Spendable, Size, SizeOf, Pays, Changed, Unchanged, Moderate;
    var w := ShortWallet(outputs, u);
    var coin := Coin(u, w.balance);
    tx := BuiltHere(w, outputs, coin);
    NothingPrevents(w, outputs, coin);
    forall t | Pays(w, outputs, t) && (Unchanged(w, outputs, t) || Changed(w, outputs, t))
      ensures Changed(w, outputs, t) && Paid(t) < TxFee(w.feePerKb, Size(t))
    {
      FallsShortHere(w, outputs, coin, t);
    }
  }

  lemma NothingPrevents(w: Funds, outputs: seq<Output>, coin: Coin)
    requires |outputs| == 0xfc && w.feePerKb == 100000
    requires Spendable(w.allTx, w.utxos) == [coin] && w.balance == coin.amount
    requires coin.amount == OutputsSum(outputs) + 100 * (SizeOf(1, outputs) + TX_OUTPUT_SIZE) + 10000000
    ensures OutputsSum(outputs) + Asked(w, outputs, 1) <= w.balance
    ensures OutputsSum(outputs) < 0x2000_0000_0000_0000 && SizeOf(1, outputs) + TX_OUTPUT_SIZE <= TX_MAX_SIZE
            ==> Moderate(w, outputs)
  {
    hide OutputsSize, OutputsSum, Spendable, TxFee;
    RateOfHundred(SizeOf(1, outputs) + TX_OUTPUT_SIZE);
    RoundedBelow(w, OutputsSum(outputs), SizeOf(1, outputs) + TX_OUTPUT_SIZE);
  }

  lemma BuiltHere(w: Funds, outputs: seq<Output>, coin: Coin) returns (tx: Draft)
    requires |outputs| == 0xfc && w.feePerKb == 100000
    requires Spendable(w.allTx, w.utxos) == [coin] && w.balance == coin.amount
    requires coin.amount == OutputsSum(outputs) + 100 * (SizeOf(1, outputs) + TX_OUTPUT_SIZE) + 10000000
    ensures Pays(w, outputs, tx) && Changed(w, outputs, tx)
  {
    hide OutputsSize, OutputsSum, Spendable, TxFee, MinOutputAmount;
    var change := Output(10000000, CHANGE_SCRIPT);
    tx := Draft([coin], outputs + [change]);
    CoinAppended([], coin);
    assert [] + [coin] == [coin] && CoinSum([]) == 0;
    OutputsConcat(outputs, [change]);
    OutputsOne(change);
    RateOfHundred(SizeOf(1, outputs) + TX_OUTPUT_SIZE);
    LeastAmountHere();
    assert multiset(outputs + [change]) == multiset(outputs) + multiset{change};
  }

  lemma LeastAmountHere()
    ensures MinOutputAmount(100000) < 10000000
  {
  }

  // A wallet with a single output u of the given amount.
  function OneCoinWallet(u: Utxo, amount: nat, feePerKb: nat): (w: Funds)
    ensures Spendable(w.allTx, w.utxos) == [Coin(u, amount)]
    ensures w.balance == CoinSum(Spendable(w.allTx, w.utxos)) == amount && w.feePerKb == feePerKb
  {
    var paid := Tx(u.hash, [], seq(u.n + 1, _ => TxOutput("a", amount)), 0, 0, 0, 0);
    assert [u][..0] == [];
    Funds(map[u.hash := paid], [u], amount, feePerKb)
  }

  lemma FallsShortHere(w: Funds, outputs: seq<Output>, coin: Coin, t: Draft)
    requires |outputs| == 0xfc && w.feePerKb == 100000
    requires Spendable(w.allTx, w.utxos) == [coin] && w.balance == coin.amount
    requires coin.amount == OutputsSum(outputs) + 100 * (SizeOf(1, outputs) + TX_OUTPUT_SIZE) + 10000000
    requires Pays(w, outputs, t) && (Unchanged(w, outputs, t) || Changed(w, outputs, t))
    ensures Changed(w, outputs, t) && Paid(t) < TxFee(w.feePerKb, Size(t))
  {
    hide OutputsSize, OutputsSum, Spendable, Size, SizeOf;
  }

  lemma RateOfHundred(size: nat)
    requires size >= 34
    ensures TxFee(100000, size) == 100 * size
  {
    assert size * 100000 / 1000 == 100 * size;
  }

  // With change, what the wallet keeps ends on a multiple of 100.
  lemma KeptIsRound(w: Funds, outputs: seq<Output>, tx: Draft)
    requires Pays(w, outputs, tx) && Changed(w, outputs, tx)
    requires w.balance == CoinSum(Spendable(w.allTx, w.utxos))
    ensures (w.balance - OutputsSum(outputs) - Paid(tx)) % 100 == 0
    ensures w.balance >= OutputsSum(outputs) + Paid(tx)
  {
    hide TxFee, RoundedFee, OutputsSum, OutputsSize, MinOutputAmount;
    CoinsOfPrefix(tx.inputs, Spendable(w.allTx, w.utxos));
    var change: Output :| change.amount > MinOutputAmount(w.feePerKb) && change.scriptLen == CHANGE_SCRIPT
                  && multiset(tx.outputs) == multiset(outputs) + multiset{change};
    SumOfMultiset(tx.outputs, outputs + [change]);
    OutputsConcat(outputs, [change]);
    OutputsOne(change);
    FeeIsPositive(w, OutputsSum(outputs), SizeOf(|tx.inputs|, outputs) + TX_OUTPUT_SIZE);
    RoundedWithin(w, OutputsSum(outputs), SizeOf(|tx.inputs|, outputs) + TX_OUTPUT_SIZE);
  }

  lemma {:induction false} CoinsOfPrefix(a: seq<Coin>, b: seq<Coin>)
    requires a <= b
    ensures CoinSum(a) <= CoinSum(b)
    decreases |b|
  {
    if |a| < |b| {
      CoinsOfPrefix(a, b[..|b| - 1]);
    } else {
      assert a == b;
    }
  }

  // Sum and size depend only on which outputs there are, and how many of each.
  lemma {:induction false} SumOfMultiset(a: seq<Output>, b: seq<Output>)
    requires multiset(a) == multiset(b)
    ensures OutputsSum(a) == OutputsSum(b) && OutputsSize(a) == OutputsSize(b) && |a| == |b|
  {
    hide OutputSize, OutputsSum, OutputsSize;
    assert |multiset(a)| == |a| && |multiset(b)| == |b|;
    if a != [] {
      assert a[0] in multiset(b);
      var k :| 0 <= k < |b| && b[k] == a[0];
      TakeOut(b, k);
      TakeOut(a, 0);
      var a', b' := a[..0] + a[1..], b[..k] + b[k + 1..];
      SumOfMultiset(a', b');
    }
  }

  lemma TakeOut(b: seq<Output>, k: nat)
    requires k < |b|
    ensures multiset(b[..k] + b[k + 1..]) == multiset(b) - multiset{b[k]}
    ensures OutputsSum(b) == OutputsSum(b[..k] + b[k + 1..]) + b[k].amount
    ensures OutputsSize(b) == OutputsSize(b[..k] + b[k + 1..]) + OutputSize(b[k])
  {
    hide OutputSize, OutputsSum, OutputsSize;
    assert b == b[..k] + ([b[k]] + b[k + 1..]);
    assert multiset(b) == multiset(b[..k]) + (multiset{b[k]} + multiset(b[k + 1..]));
    OutputsConcat(b[..k], [b[k]] + b[k + 1..]);
    OutputsConcat([b[k]], b[k + 1..]);
    OutputsOne(b[k]);
    OutputsConcat(b[..k], b[k + 1..]);
  }

  // Fisher-Yates: whatever numbers are drawn, the outputs are only rearranged.
  method Shuffle(outputs: seq<Output>, draw: nat -> nat) returns (shuffled: seq<Output>)
    ensures multiset(shuffled) == multiset(outputs)
  {
    shuffled := outputs;
    var i := 0;
    while i + 1 < |shuffled|
      invariant |shuffled| == |outputs| && multiset(shuffled) == multiset(outputs)
    {
      var j := i + draw(i) % (|shuffled| - i);
      if j != i {
        shuffled := shuffled[i := shuffled[j]][j := shuffled[i]];
      }
      i := i + 1;
    }
  }

  lemma NoCoins(w: Funds, outputs: seq<Output>)
    ensures Spendable(w.allTx, w.utxos[..0]) == [] && CoinSum([]) == 0
    ensures 0 < TxFee(w.feePerKb, SizeOf(0, outputs) + TX_OUTPUT_SIZE) <= Asked(w, outputs, 0)
  {
    hide OutputsSum, OutputsSize;
  }

  lemma TotalStep(outputs: seq<Output>, i: nat)
    requires i < |outputs|
    ensures OutputsSum(outputs[..i + 1]) == OutputsSum(outputs[..i]) + outputs[i].amount
  {
    OutputsConcat(outputs[..i], [outputs[i]]);
    OutputsOne(outputs[i]);
    assert outputs[..i + 1] == outputs[..i] + [outputs[i]];
  }

  lemma CoinAppended(coins: seq<Coin>, coin: Coin)
    ensures CoinSum(coins + [coin]) == CoinSum(coins) + coin.amount
  {
    assert (coins + [coin])[..|coins|] == coins;
  }

  lemma ChangeAdded(outputs: seq<Output>, change: Output, shuffled: seq<Output>)
    requires multiset(shuffled) == multiset(outputs + [change]) && change.scriptLen == CHANGE_SCRIPT
    ensures multiset(shuffled) == multiset(outputs) + multiset{change}
    ensures OutputsSum(shuffled) == OutputsSum(outputs) + change.amount
    ensures forall n :: SizeOf(n, shuffled) == SizeOf(n, outputs) + TX_OUTPUT_SIZE + Uncounted(|outputs|)
  {
    hide OutputsSize, OutputsSum;
    SumOfMultiset(shuffled, outputs + [change]);
    OutputsConcat(outputs, [change]);
    OutputsOne(change);
  }

  // The fee after adding an input, increased to round off what the wallet keeps.
  method FeeWith(w: Funds, outputs: seq<Output>, amount: nat, inputs: nat) returns (feeAmount: nat)
    requires Moderate(w, outputs) && amount == OutputsSum(outputs)
    requires SizeOf(inputs, outputs) + TX_OUTPUT_SIZE <= TX_MAX_SIZE
    ensures 0 < feeAmount == Asked(w, outputs, inputs)
    ensures amount + feeAmount + MinOutputAmount(w.feePerKb) < W64
  {
    hide TxFee, OutputsSum, OutputsSize, MinOutputAmount;
    var size := SizeOf(inputs, outputs) + TX_OUTPUT_SIZE;
    NothingWraps(w.feePerKb, size);
    FeeIsPositive(w, amount, size);
    feeAmount := TxFee(w.feePerKb, size);
    if w.balance > amount + feeAmount {
      feeAmount := feeAmount + (w.balance - (amount + feeAmount)) % 100;
    }
  }

  // What is left over becomes a change output, when it is more than the least worthwhile amount.
  method AddChange(w: Funds, outputs: seq<Output>, inputs: seq<Coin>, balance: nat, feeAmount: nat, draw: nat -> nat)
    returns (tx: Draft)
    requires inputs <= Spendable(w.allTx, w.utxos) && balance == CoinSum(inputs)
    requires feeAmount == Asked(w, outputs, |inputs|) && balance >= OutputsSum(outputs) + feeAmount
    ensures Pays(w, outputs, tx) && (Unchanged(w, outputs, tx) || Changed(w, outputs, tx))
    ensures tx.inputs == inputs
  {
    hide TxFee, RoundedFee, OutputsSum, OutputsSize, MinOutputAmount, Spendable, SizeOf;
    var amount := OutputsSum(outputs);
    var remainder := balance - (amount + feeAmount);
    if remainder > MinOutputAmount(w.feePerKb) {
      var change := Output(remainder, CHANGE_SCRIPT);
      var shuffled := Shuffle(outputs + [change], draw);
      ChangeAdded(outputs, change, shuffled);
      tx := Draft(inputs, shuffled);
      assert change.amount > MinOutputAmount(w.feePerKb);
    } else {
      tx := Draft(inputs, outputs);
    }
  }

  // A transaction spends the fewest coins, taken in order, that are enough, or all of them. None is
  // built when all coins together do not pay, or when it would become too large first.
  ghost predicate Answers(w: Funds, outputs: seq<Output>, r: Selection) {
    var all := |Spendable(w.allTx, w.utxos)|;
    match r
    case Built(tx) =>
      && Pays(w, outputs, tx) && (Unchanged(w, outputs, tx) || Changed(w, outputs, tx))
      && 0 < |tx.inputs| <= all && NoneBefore(w, outputs, |tx.inputs|) && Fits(outputs, |tx.inputs|)
      && (|tx.inputs| == all || Enough(w, outputs, |tx.inputs|))
    case Insufficient =>
      NoneBefore(w, outputs, all + 1) && w.balance < OutputsSum(outputs) + Asked(w, outputs, all)
    case Oversized =>
      !Affords(w, outputs) && exists n :: TooLargeAt(w, outputs, n)
    case Smaller(instead) =>
      && outputs != [] && Affords(w, outputs)
      && exists n :: TooLargeAt(w, outputs, n) && instead == LighterAt(w, outputs, n)
  }

  // What is built instead of a transaction that would be too large.
  method BuildSmaller(w: Funds, outputs: seq<Output>, amount: nat, feeAmount: nat, balance: nat, ghost n: nat)
    returns (r: Selection)
    requires outputs != [] && amount == OutputsSum(outputs) && TooLargeAt(w, outputs, n)
    requires feeAmount == FeeAfter(w, outputs, n - 1)
    requires balance == CoinSum(Spendable(w.allTx, w.utxos)[..n - 1])
    ensures r == if Affords(w, outputs) then Smaller(LighterAt(w, outputs, n)) else Oversized
  {
    hide TxFee, OutputsSum, MinOutputAmount, Asked, CoinSum, Spendable, NoneBefore;
    var largest := 10 + |w.utxos| * TX_INPUT_SIZE + (|outputs| + 1) * TX_OUTPUT_SIZE;
    if w.balance < amount + TxFee(w.feePerKb, largest) {
      return Oversized;
    }
    var last := outputs[|outputs| - 1];
    if last.amount > amount + feeAmount + MinOutputAmount(w.feePerKb) - balance {
      var reduced := Output(last.amount - (amount + feeAmount - balance), last.scriptLen);
      r := Smaller(outputs[..|outputs| - 1] + [reduced]);
    } else {
      r := Smaller(outputs[..|outputs| - 1]);
    }
  }

  // Adds coins in list order until they cover the outputs and the fee exactly, or with a margin
  // large enough for change.
  method CreateTxForOutputs(w: Funds, outputs: seq<Output>, draw: nat -> nat) returns (r: Selection)
    requires |outputs| > 0 && Moderate(w, outputs)
    requires w.balance == CoinSum(Spendable(w.allTx, w.utxos))
    ensures Answers(w, outputs, r)
  {
    hide TxFee, RoundedFee, OutputsSum, OutputsSize, MinOutputAmount, Spendable, SizeOf, Pays, Unchanged, Changed;
    hide Asked, CoinSum, Moderate, Affords, LighterAt;
    ghost var all := Spendable(w.allTx, w.utxos);
    var amount := TotalOf(outputs);
    var minAmount := MinOutputAmount(w.feePerKb);
    var inputs: seq<Coin> := [];
    var balance := 0;
    var feeAmount := TxFee(w.feePerKb, SizeOf(0, outputs) + TX_OUTPUT_SIZE);
    NoCoins(w, outputs);
    var i := 0;
    while i < |w.utxos|
      invariant 0 <= i <= |w.utxos|
      invariant inputs == Spendable(w.allTx, w.utxos[..i]) && balance == CoinSum(inputs)
      invariant 0 < feeAmount <= Asked(w, outputs, |inputs|)
      invariant feeAmount == FeeAfter(w, outputs, |inputs|) && (inputs != [] ==> Fits(outputs, |inputs|))
      invariant inputs <= all && NoneBefore(w, outputs, |inputs| + 1)
    {
      var o := w.utxos[i];
      SpendableOneMore(w.allTx, w.utxos, i);
      SpendablePrefix(w.allTx, w.utxos, i + 1);
      i := i + 1;
      if o.hash in w.allTx && o.n < |w.allTx[o.hash].outputs| {
        var coin := Coin(o, w.allTx[o.hash].outputs[o.n].amount);
        CoinAppended(inputs, coin);
        inputs := inputs + [coin];
        if SizeOf(|inputs|, outputs) + TX_OUTPUT_SIZE > TX_MAX_SIZE {
          ghost var n := |inputs|;
          assert inputs[..n - 1] == all[..n - 1];
          r := BuildSmaller(w, outputs, amount, feeAmount, balance, n);
          return;
        }
        balance := balance + coin.amount;
        feeAmount := FeeWith(w, outputs, amount, |inputs|);
        assert inputs == all[..|inputs|];
        if balance == amount + feeAmount || balance >= amount + feeAmount + minAmount {
          break;
        }
      }
    }
    SpendablePrefix(w.allTx, w.utxos, i);
    assert w.utxos[..|w.utxos|] == w.utxos;
    if balance < amount + feeAmount {
      return Insufficient;
    }
    var tx := AddChange(w, outputs, inputs, balance, feeAmount, draw);
    r := Built(tx);
  }

  // For such a wallet a transaction is built, and its fee is too low.
  method BuildShortOfFee(outputs: seq<Output>, u: Utxo, draw: nat -> nat) returns (r: Selection)
    requires |outputs| == 0xfc && OutputsSum(outputs) < 0x2000_0000_0000_0000
    requires SizeOf(1, outputs) + TX_OUTPUT_SIZE <= TX_MAX_SIZE
    ensures r.Built? && Paid(r.tx) < TxFee(100000, Size(r.tx))
  {
    assert Fits(outputs, 1);
    hide *;
    ghost var tx := FeeFallsShort(outputs, u);
    r := CreateTxForOutputs(ShortWallet(outputs, u), outputs, draw);
  }

  method TotalOf(outputs: seq<Output>) returns (amount: nat)
    ensures amount == OutputsSum(outputs)
  {
    amount := 0;
    var i := 0;
    assert outputs[..0] == [];
    while i < |outputs|
      invariant 0 <= i <= |outputs| && amount == OutputsSum(outputs[..i])
    {
      TotalStep(outputs, i);
      amount := amount + outputs[i].amount;
      i := i + 1;
    }
    assert outputs[..i] == outputs;
  }

  // ----- the most that can be sent -----

  // Size of spending every coin to one output with change.
  function SweepSize(inputs: nat): nat {
    8 + VarIntSize(inputs) + TX_INPUT_SIZE * inputs + VarIntSize(2) + TX_OUTPUT_SIZE * 2
  }

  // The most that leaves enough for the fee of spending everything.
  function MaxOf(w: Funds): nat {
    var coins := Spendable(w.allTx, w.utxos);
    var fee := TxFee(w.feePerKb, SweepSize(|coins|));
    if CoinSum(coins) > fee then CoinSum(coins) - fee else 0
  }

  method MaxOutputAmount(w: Funds) returns (max: nat)
    ensures max == MaxOf(w)
  {
    hide TxFee;
    var inCount, amount := 0, 0;
    var i := |w.utxos|;
    assert w.utxos[..i] == w.utxos;
    while i > 0
      invariant 0 <= i <= |w.utxos|
      invariant inCount + |Spendable(w.allTx, w.utxos[..i])| == |Spendable(w.allTx, w.utxos)|
      invariant amount + CoinSum(Spendable(w.allTx, w.utxos[..i])) == CoinSum(Spendable(w.allTx, w.utxos))
    {
      i := i - 1;
      var o := w.utxos[i];
      SpendableOneMore(w.allTx, w.utxos, i);
      if o.hash in w.allTx && o.n < |w.allTx[o.hash].outputs| {
        CoinAppended(Spendable(w.allTx, w.utxos[..i]), Coin(o, w.allTx[o.hash].outputs[o.n].amount));
        inCount := inCount + 1;
        amount := amount + w.allTx[o.hash].outputs[o.n].amount;
      }
    }
    var txSize := 8 + VarIntSize(inCount) + TX_INPUT_SIZE * inCount + VarIntSize(2) + TX_OUTPUT_SIZE * 2;
    var fee := TxFee(w.feePerKb, txSize);
    max := if amount > fee then amount - fee else 0;
  }

  // Any amount up to the maximum can be afforded, for a script of ordinary length.
  lemma AffordableUpToMax(w: Funds, o: Output)
    requires w.balance == CoinSum(Spendable(w.allTx, w.utxos))
    requires 0 < o.amount <= MaxOf(w) && o.scriptLen <= CHANGE_SCRIPT
    ensures OutputsSum([o]) + Asked(w, [o], |Spendable(w.allTx, w.utxos)|) <= w.balance
  {
    hide TxFee;
    var n := |Spendable(w.allTx, w.utxos)|;
    OutputsOne(o);
    FeeGrows(w.feePerKb, SizeOf(n, [o]) + TX_OUTPUT_SIZE, SweepSize(n));
    RoundedWithin(w, o.amount, SizeOf(n, [o]) + TX_OUTPUT_SIZE);
  }

  // The fee for sending an amount, or as much as there is: whenever anything can be sent and the
  // transaction is not too large, one is built and its fee is what it pays.
  method FeeForTxAmount(w: Funds, amount: nat, draw: nat -> nat) returns (fee: int)
    requires amount > 0 && w.feePerKb < W32 && w.balance < 0x4000_0000_0000_0000
    requires w.balance == CoinSum(Spendable(w.allTx, w.utxos))
    ensures MaxOf(w) > 0 && SweepSize(|Spendable(w.allTx, w.utxos)|) <= TX_MAX_SIZE ==>
              exists tx, o :: Pays(w, [o], tx) && fee == Paid(tx) >= 1000
                              && o == Output(if amount < MaxOf(w) then amount else MaxOf(w), CHANGE_SCRIPT)
  {
    hide TxFee, Spendable, RoundedFee, Changed, Unchanged;
    var maxAmount := MaxOutputAmount(w);
    var o := Output(if amount < maxAmount then amount else maxAmount, CHANGE_SCRIPT);
    OutputsOne(o);
    var r := CreateTxForOutputs(w, [o], draw);
    fee := 0;
    if maxAmount > 0 {
      AffordableUpToMax(w, o);
    }
    if r.Built? {
      fee := Paid(r.tx);
      FeeIsPositive(w, OutputsSum([o]), SizeOf(|r.tx.inputs|, [o]) + TX_OUTPUT_SIZE);
      assert Pays(w, [o], r.tx);
    }
  }
}
