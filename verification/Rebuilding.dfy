// Building again for less, as often as a transaction becomes too large.
module Rebuilding {
  import opened Common
  import Ledger
  import opened Spending

  // ----- what selection answers is determined -----

  ghost predicate SameAnswer(r: Selection, s: Selection) {
    if r.Built? && s.Built?
    then r.tx.inputs == s.tx.inputs && multiset(r.tx.outputs) == multiset(s.tx.outputs)
    else r == s
  }

  // But for the order of the outputs, one answer only is right.
  lemma AnswerIsDetermined(w: Funds, outputs: seq<Output>, r: Selection, s: Selection)
    requires w.balance == CoinSum(Spendable(w.allTx, w.utxos))
    requires Answers(w, outputs, r) && Answers(w, outputs, s)
    ensures SameAnswer(r, s)
  {
    hide OutputsSum, Asked, MinOutputAmount, Spendable, CoinSum, Fits, Affords, LighterAt;
    var all := Spendable(w.allTx, w.utxos);
    assert all[..|all|] == all;
    if r.Built? && s.Built? {
      SameCoins(w, outputs, r.tx, s.tx);
      SameOutputs(w, outputs, r.tx, s.tx);
    } else if r.Built? {
      BuiltOnly(w, outputs, r.tx, s);
    } else if s.Built? {
      BuiltOnly(w, outputs, s.tx, r);
    }
  }

  lemma BuiltOnly(w: Funds, outputs: seq<Output>, tx: Draft, s: Selection)
    requires w.balance == CoinSum(Spendable(w.allTx, w.utxos))
    requires Answers(w, outputs, Built(tx)) && Answers(w, outputs, s)
    ensures s.Built?
  {
    hide OutputsSum, Asked, Spendable, CoinSum, Fits, Affords, LighterAt, Unchanged, Changed;
    var all := Spendable(w.allTx, w.utxos);
    var n := |tx.inputs|;
    assert all[..|all|] == all && tx.inputs == all[..n];
    PaysEnough(w, outputs, tx);
  }

  lemma PaysEnough(w: Funds, outputs: seq<Output>, tx: Draft)
    requires Pays(w, outputs, tx) && (Unchanged(w, outputs, tx) || Changed(w, outputs, tx))
    ensures CoinSum(tx.inputs) >= OutputsSum(outputs) + Asked(w, outputs, |tx.inputs|)
  {
    hide OutputsSum, Asked, MinOutputAmount, CoinSum, Size, SizeOf, Spendable;
    if Changed(w, outputs, tx) {
      var change := ChangeOf(w, outputs, tx);
    }
  }

  lemma SameCoins(w: Funds, outputs: seq<Output>, a: Draft, b: Draft)
    requires Answers(w, outputs, Built(a)) && Answers(w, outputs, Built(b))
    ensures a.inputs == b.inputs
  {
    hide Enough, Asked, Spendable, Unchanged, Changed, Fits;
    var m, n := |a.inputs|, |b.inputs|;
  }

  lemma SameOutputs(w: Funds, outputs: seq<Output>, a: Draft, b: Draft)
    requires a.inputs == b.inputs
    requires Unchanged(w, outputs, a) || Changed(w, outputs, a)
    requires Unchanged(w, outputs, b) || Changed(w, outputs, b)
    ensures multiset(a.outputs) == multiset(b.outputs)
  {
    hide OutputsSum, Asked, MinOutputAmount, CoinSum, Size, SizeOf;
    if Changed(w, outputs, a) {
      var c := ChangeOf(w, outputs, a);
      if Changed(w, outputs, b) {
        var d := ChangeOf(w, outputs, b);
      }
    } else if Changed(w, outputs, b) {
      var d := ChangeOf(w, outputs, b);
    }
  }

  lemma ChangeOf(w: Funds, outputs: seq<Output>, tx: Draft) returns (change: Output)
    requires Changed(w, outputs, tx)
    ensures change.amount > MinOutputAmount(w.feePerKb) && change.scriptLen == CHANGE_SCRIPT
    ensures multiset(tx.outputs) == multiset(outputs) + multiset{change}
    ensures CoinSum(tx.inputs) == OutputsSum(outputs) + change.amount + Asked(w, outputs, |tx.inputs|)
  {
    hide OutputsSum, Asked, MinOutputAmount, CoinSum, Size, SizeOf;
    change :| change.amount > MinOutputAmount(w.feePerKb) && change.scriptLen == CHANGE_SCRIPT
      && multiset(tx.outputs) == multiset(outputs) + multiset{change};
    SumOfMultiset(tx.outputs, outputs + [change]);
    OutputsConcat(outputs, [change]);
    OutputsOne(change);
  }

  // ----- rebuilding -----

  ghost predicate OneRebuild(w: Funds, a: seq<Output>, b: seq<Output>) {
    a != [] && Answers(w, a, Smaller(b))
  }

  ghost predicate Rebuilt(w: Funds, a: seq<Output>, b: seq<Output>, times: nat)
    decreases times
  {
    if times == 0 then a == b else exists c :: OneRebuild(w, a, c) && Rebuilt(w, c, b, times - 1)
  }

  // No answer at this request asks for another one.
  ghost predicate Final(w: Funds, outputs: seq<Output>) {
    forall c :: !OneRebuild(w, outputs, c)
  }

  // Selects coins, and again for less when the transaction becomes too large, but not for nothing
  // and not more often than given.
  method Create(w: Funds, outputs: seq<Output>, draw: nat -> nat, tries: nat)
    returns (r: Selection, asked: seq<Output>, times: nat)
    requires |outputs| > 0 && Moderate(w, outputs)
    requires w.balance == CoinSum(Spendable(w.allTx, w.utxos))
    ensures Rebuilt(w, outputs, asked, times) && asked != [] && Answers(w, asked, r)
    ensures times <= tries && (r.Smaller? ==> times == tries || r.outputs == [])
    decreases tries
  {
    hide Moderate, Answers, CoinSum, Spendable;
    r := CreateTxForOutputs(w, outputs, draw);
    asked, times := outputs, 0;
    if r.Smaller? && r.outputs != [] && tries > 0 {
      var c := r.outputs;
      assert OneRebuild(w, outputs, c);
      StaysModerate(w, outputs, c);
      r, asked, times := Create(w, c, draw, tries - 1);
      times := times + 1;
    }
  }

  // The same outputs, but for the amount of the last one.
  predicate SameButLast(a: seq<Output>, b: seq<Output>) {
    var last := |a| - 1;
    |b| == |a| > 0 && b[..last] == a[..last] && b[last].scriptLen == a[last].scriptLen
  }

  // Sizes and sums by the last output.
  lemma ByLast(a: seq<Output>)
    requires a != []
    ensures OutputsSum(a) == OutputsSum(a[..|a| - 1]) + a[|a| - 1].amount
    ensures OutputsSize(a) == OutputsSize(a[..|a| - 1]) + OutputSize(a[|a| - 1])
  {
    hide OutputSize, OutputsSum, OutputsSize;
    var n := |a| - 1;
    assert a == a[..n] + [a[n]];
    OutputsConcat(a[..n], [a[n]]);
    OutputsOne(a[n]);
  }

  // A rebuild changes the last output or leaves it out. Changed, it still has a worthwhile amount,
  // and the request is what the coins that fit pay for after the fee.
  lemma RebuildIs(w: Funds, a: seq<Output>, b: seq<Output>, n: nat)
    requires OneRebuild(w, a, b) && TooLargeAt(w, a, n)
    ensures b == a[..|a| - 1]
            || (SameButLast(a, b) && b[|a| - 1].amount > MinOutputAmount(w.feePerKb)
                && OutputsSum(b) + FeeAfter(w, a, n - 1) == CoinSum(Spendable(w.allTx, w.utxos)[..n - 1]))
    ensures b == LighterAt(w, a, n)
  {
    hide OutputsSum, OutputsSize, FeeAfter, MinOutputAmount, CoinSum, Spendable, Affords;
    var m :| TooLargeAt(w, a, m) && b == LighterAt(w, a, m);
    SameLimit(w, a, m, n);
    ByLast(a);
    if b != a[..|a| - 1] {
      ByLast(b);
    }
  }

  lemma SameLimit(w: Funds, a: seq<Output>, m: nat, n: nat)
    requires TooLargeAt(w, a, m) && TooLargeAt(w, a, n)
    ensures m == n
  {
    hide Fits, Enough, Spendable;
  }

  lemma StaysModerate(w: Funds, a: seq<Output>, b: seq<Output>)
    requires Moderate(w, a) && OneRebuild(w, a, b)
    requires w.balance == CoinSum(Spendable(w.allTx, w.utxos))
    ensures Moderate(w, b)
  {
    hide OutputsSum, OutputsSize, OutputSize, FeeAfter, LighterAt, CoinSum, Spendable, NoneBefore, Fits;
    hide MinOutputAmount;
    var n :| TooLargeAt(w, a, n) && b == LighterAt(w, a, n);
    RebuildIs(w, a, b, n);
    hide OneRebuild;
    CoinsOfPrefix(Spendable(w.allTx, w.utxos)[..n - 1], Spendable(w.allTx, w.utxos));
    ByLast(a);
    if |b| == |a| {
      ByLast(b);
      SameScript(a[|a| - 1], b[|a| - 1]);
    }
  }

  lemma SameScript(o: Output, p: Output)
    requires o.scriptLen == p.scriptLen
    ensures OutputSize(o) == OutputSize(p)
  {
  }

  // Every output but the last is still paid in full, or left out with all that follow it.
  lemma {:induction false} RebuiltPays(w: Funds, a: seq<Output>, b: seq<Output>, times: nat)
    requires Rebuilt(w, a, b, times) && b != []
    ensures |b| <= |a| && b[..|b| - 1] == a[..|b| - 1] && b[|b| - 1].scriptLen == a[|b| - 1].scriptLen
    decreases times
  {
    hide OneRebuild, SameButLast;
    if times > 0 {
      var c :| OneRebuild(w, a, c) && Rebuilt(w, c, b, times - 1);
      RebuiltPays(w, c, b, times - 1);
      OneRebuildPays(w, a, c);
      SameSoFar(a, c, |b|);
    }
  }

  lemma SameSoFar(a: seq<Output>, c: seq<Output>, k: nat)
    requires a != [] && (c == a[..|a| - 1] || SameButLast(a, c))
    requires 0 < k <= |c|
    ensures c[..k - 1] == a[..k - 1] && c[k - 1].scriptLen == a[k - 1].scriptLen
  {
    forall i | 0 <= i < k - 1 ensures c[i] == a[i] {
      assert c[..|a| - 1][i] == a[..|a| - 1][i];
    }
    if k < |a| {
      assert c[..|a| - 1][k - 1] == a[..|a| - 1][k - 1];
    }
  }

  lemma OneRebuildPays(w: Funds, a: seq<Output>, b: seq<Output>)
    requires OneRebuild(w, a, b)
    ensures a != [] && |b| <= |a| && (b == a[..|a| - 1] || SameButLast(a, b))
  {
    hide NoneBefore, Fits, LighterAt, FeeAfter, MinOutputAmount, OutputsSum, CoinSum, Spendable;
    var n :| TooLargeAt(w, a, n) && b == LighterAt(w, a, n);
    RebuildIs(w, a, b, n);
  }

  // ----- whether rebuilding ends -----

  // What the coins that fit are worth, and the fee for spending them before it is rounded.
  function Worth(w: Funds, n: nat): nat
    requires 0 < n <= |Spendable(w.allTx, w.utxos)|
  {
    CoinSum(Spendable(w.allTx, w.utxos)[..n - 1])
  }

  function PlainFee(w: Funds, outputs: seq<Output>, n: nat): nat
    requires n > 0
  {
    TxFee(w.feePerKb, SizeOf(n - 1, outputs) + TX_OUTPUT_SIZE)
  }

  // The wallet could pay by far, but not in one transaction: the last coin that fits is worth more
  // than the fee, and the last output can bear what is missing.
  ghost predicate TooManyCoins(w: Funds, outputs: seq<Output>, n: nat) {
    && outputs != [] && n >= 2 && TooLargeAt(w, outputs, n) && Affords(w, outputs)
    && Spendable(w.allTx, w.utxos)[n - 2].amount >= PlainFee(w, outputs, n) + 100
    && Worth(w, n) > OutputsSum(outputs[..|outputs| - 1]) + PlainFee(w, outputs, n) + 100 + MinOutputAmount(w.feePerKb)
    && w.balance >= Worth(w, n) + LargestFee(w, outputs)
  }

  function LargestFee(w: Funds, outputs: seq<Output>): nat {
    TxFee(w.feePerKb, 10 + |w.utxos| * TX_INPUT_SIZE + (|outputs| + 1) * TX_OUTPUT_SIZE)
  }

  // A later request: the last output takes what the coins that fit leave after a fee rounded somehow.
  ghost predicate Later(w: Funds, outputs: seq<Output>, b: seq<Output>, n: nat)
    requires 0 < n <= |Spendable(w.allTx, w.utxos)|
  {
    && SameButLast(outputs, b)
    && PlainFee(w, outputs, n) <= Worth(w, n) - OutputsSum(b) < PlainFee(w, outputs, n) + 100
  }

  // Rebuilding ends if and only if what the wallet holds beyond the coins that fit is a multiple of
  // 100; otherwise each request only changes how the fee is rounded.
  lemma RebuildingEndsIff(w: Funds, outputs: seq<Output>, n: nat)
    requires TooManyCoins(w, outputs, n)
    ensures (exists b, times :: Rebuilt(w, outputs, b, times) && Final(w, b))
            <==> (w.balance - Worth(w, n)) % 100 == 0
  {
    hide NoneBefore, Fits, Final, Later, OneRebuild;
    if (w.balance - Worth(w, n)) % 100 == 0 {
      var b := EndsAfterOne(w, outputs, n);
      assert Rebuilt(w, b, b, 0);
      assert Rebuilt(w, outputs, b, 1);
    } else {
      forall b, times | Rebuilt(w, outputs, b, times) ensures !Final(w, b) {
        NeverFinal(w, outputs, outputs, b, n, times);
      }
    }
  }

  // It ends after one rebuild, with a transaction that spends just the coins that fit.
  lemma EndsAfterOne(w: Funds, outputs: seq<Output>, n: nat) returns (b: seq<Output>)
    requires TooManyCoins(w, outputs, n) && (w.balance - Worth(w, n)) % 100 == 0
    ensures OneRebuild(w, outputs, b) && Final(w, b)
    ensures forall r :: Answers(w, b, r) ==> r.Built? && |r.tx.inputs| == n - 1
  {
    b := Again(w, outputs, outputs, n);
    LaterLimit(w, outputs, b, n);
    hide Enough, Fits, Affords, Pays, Changed, Unchanged, LighterAt;
    StopsAt(w, b, n - 1);
  }

  lemma StopsAt(w: Funds, b: seq<Output>, k: nat)
    requires 0 < k < |Spendable(w.allTx, w.utxos)| && NoneBefore(w, b, k) && Fits(b, k) && Enough(w, b, k)
    ensures Final(w, b) && forall r :: Answers(w, b, r) ==> r.Built? && |r.tx.inputs| == k
  {
    hide Enough, Fits, Affords, Pays, Changed, Unchanged, LighterAt;
  }

  // Otherwise every request is followed by another one.
  lemma {:induction false} NeverFinal(
    w: Funds, outputs: seq<Output>, a: seq<Output>, b: seq<Output>, n: nat, times: nat)
    requires TooManyCoins(w, outputs, n) && (w.balance - Worth(w, n)) % 100 != 0
    requires a == outputs || Later(w, outputs, a, n)
    requires Rebuilt(w, a, b, times)
    ensures (b == outputs || Later(w, outputs, b, n)) && !Final(w, b)
    decreases times
  {
    hide NoneBefore, Fits, OneRebuild, Later;
    var c := Again(w, outputs, a, n);
    if times > 0 {
      var d :| OneRebuild(w, a, d) && Rebuilt(w, d, b, times - 1);
      OneRebuildOnly(w, a, c, d);
      NeverFinal(w, outputs, d, b, n, times - 1);
    }
  }

  lemma OneRebuildOnly(w: Funds, a: seq<Output>, b: seq<Output>, c: seq<Output>)
    requires OneRebuild(w, a, b) && OneRebuild(w, a, c)
    ensures b == c
  {
    hide NoneBefore, Fits, LighterAt;
    var m :| TooLargeAt(w, a, m) && b == LighterAt(w, a, m);
    var n :| TooLargeAt(w, a, n) && c == LighterAt(w, a, n);
    SameLimit(w, a, m, n);
  }

  // So whatever the number of rebuilds, what is answered is yet another request.
  lemma AlwaysSmaller(w: Funds, outputs: seq<Output>, n: nat, b: seq<Output>, times: nat, r: Selection)
    requires TooManyCoins(w, outputs, n) && (w.balance - Worth(w, n)) % 100 != 0
    requires w.balance == CoinSum(Spendable(w.allTx, w.utxos))
    requires Rebuilt(w, outputs, b, times) && Answers(w, b, r)
    ensures r.Smaller? && SameButLast(outputs, r.outputs)
  {
    hide NoneBefore, Fits, Affords, Answers;
    NeverFinal(w, outputs, outputs, b, n, times);
    var c := Again(w, outputs, b, n);
    AnswerIsDetermined(w, b, r, Smaller(c));
  }

  // A request that becomes too large is followed by a later one.
  lemma Again(w: Funds, outputs: seq<Output>, a: seq<Output>, n: nat) returns (b: seq<Output>)
    requires TooManyCoins(w, outputs, n)
    requires a == outputs || (Later(w, outputs, a, n) && (w.balance - Worth(w, n)) % 100 != 0)
    ensures OneRebuild(w, a, b) && Later(w, outputs, b, n)
  {
    hide NoneBefore, Fits, Worth;
    if a != outputs {
      LaterLimit(w, outputs, a, n);
    }
    b := LighterAt(w, a, n);
    NextIsLater(w, outputs, a, n);
  }

  lemma NextIsLater(w: Funds, outputs: seq<Output>, a: seq<Output>, n: nat)
    requires TooManyCoins(w, outputs, n) && (a == outputs || SameButLast(outputs, a))
    ensures Later(w, outputs, LighterAt(w, a, n), n)
  {
    hide NoneBefore, Fits, Affords, MinOutputAmount, OutputsSum, CoinSum, Spendable, PlainFee, FeeAfter;
    FeeOf(w, outputs, a, n);
    ByLast(a);
    ByLast(LighterAt(w, a, n));
  }

  // The fee for the coins that fit is the plain one, rounded.
  lemma FeeOf(w: Funds, outputs: seq<Output>, a: seq<Output>, n: nat)
    requires n >= 2 && (a == outputs || SameButLast(outputs, a))
    ensures FeeAfter(w, a, n - 1) == RoundedFee(w, OutputsSum(a), SizeOf(n - 1, outputs) + TX_OUTPUT_SIZE)
    ensures PlainFee(w, outputs, n) <= FeeAfter(w, a, n - 1) < PlainFee(w, outputs, n) + 100
  {
    SameSize(outputs, a, n - 1);
    RoundedBelow(w, OutputsSum(a), SizeOf(n - 1, outputs) + TX_OUTPUT_SIZE);
  }

  lemma SameSize(a: seq<Output>, b: seq<Output>, k: nat)
    requires a == b || SameButLast(a, b)
    ensures SizeOf(k, a) == SizeOf(k, b)
  {
    hide OutputsSize, OutputSize;
    if a != b {
      ByLast(a);
      ByLast(b);
      SameScript(a[|a| - 1], b[|a| - 1]);
    }
  }

  // The coins that fit are enough for a later request exactly if the rounding comes out the same.
  lemma LaterLimit(w: Funds, outputs: seq<Output>, b: seq<Output>, n: nat)
    requires TooManyCoins(w, outputs, n) && Later(w, outputs, b, n)
    ensures NoneBefore(w, b, n - 1) && Fits(b, n - 1) && !Fits(b, n) && Affords(w, b)
    ensures Enough(w, b, n - 1) <==> (w.balance - Worth(w, n)) % 100 == 0
    ensures (w.balance - Worth(w, n)) % 100 != 0 ==> TooLargeAt(w, b, n)
  {
    hide TxFee, RoundedFee, OutputsSum, OutputsSize, SizeOf, Spendable, CoinSum, MinOutputAmount;
    forall k | 0 < k < n - 1 ensures Fits(b, k) && !Enough(w, b, k) {
      FewerFallShort(w, outputs, b, n, k);
    }
    SameSize(outputs, b, n - 1);
    SameSize(outputs, b, n);
    assert Fits(outputs, n - 1);
    FeeOf(w, outputs, b, n);
    SameRounding(w, outputs, b, n);
    LeastAmountIs(w.feePerKb, MinOutputAmount(w.feePerKb));
  }

  lemma FewerFallShort(w: Funds, outputs: seq<Output>, b: seq<Output>, n: nat, k: nat)
    requires TooManyCoins(w, outputs, n) && Later(w, outputs, b, n) && 0 < k < n - 1
    ensures Fits(b, k) && !Enough(w, b, k)
  {
    hide TxFee, RoundedFee, OutputsSum, OutputsSize, SizeOf, Spendable, CoinSum, MinOutputAmount;
    var all := Spendable(w.allTx, w.utxos);
    SameSize(outputs, b, k);
    assert Fits(outputs, k);
    assert all[..n - 1] == all[..n - 2] + [all[n - 2]];
    CoinAppended(all[..n - 2], all[n - 2]);
    CoinsOfPrefix(all[..k], all[..n - 2]);
  }

  lemma SameRounding(w: Funds, outputs: seq<Output>, b: seq<Output>, n: nat)
    requires TooManyCoins(w, outputs, n) && Later(w, outputs, b, n)
    ensures FeeAfter(w, b, n - 1) == Worth(w, n) - OutputsSum(b) <==> (w.balance - Worth(w, n)) % 100 == 0
  {
    FeeOf(w, outputs, b, n);
    hide TxFee, OutputsSum, OutputsSize, SizeOf, Spendable, CoinSum, MinOutputAmount, NoneBefore, Fits, FeeAfter;
    var before := Worth(w, n) - OutputsSum(b) - PlainFee(w, outputs, n);
    var kept := w.balance - Worth(w, n);
    Rounding(kept, before);
    FeeIsPositive(w, 0, 10 + |w.utxos| * TX_INPUT_SIZE + (|outputs| + 1) * TX_OUTPUT_SIZE);
    assert w.balance - (OutputsSum(b) + PlainFee(w, outputs, n)) == kept + before;
  }

  lemma Rounding(kept: nat, before: nat)
    requires before < 100
    ensures (kept + before) % 100 == before <==> kept % 100 == 0
  {
  }

  // ----- a wallet for which it does not end -----

  const COIN: nat := 200001
  const COINS: nat := 677 // one transaction holds 675 of them
  const REQUEST: Output := Output(675 * COIN - 50, CHANGE_SCRIPT)

  function CoinsOf(h: Ledger.Hash, m: nat): seq<Coin> {
    seq(m, (k: nat) => Coin(Ledger.Utxo(h, k), COIN))
  }

  // Many outputs of one transaction, all of the same amount.
  function ManyCoins(h: Ledger.Hash): Funds {
    var paid := Ledger.Tx(h, [], seq(COINS, _ => Ledger.TxOutput("a", COIN)), 0, 0, 0, 0);
    Funds(map[h := paid], seq(COINS, (k: nat) => Ledger.Utxo(h, k)), COINS * COIN, TX_FEE_PER_KB)
  }

  lemma {:induction false} ManyCoinsAre(h: Ledger.Hash, m: nat)
    requires m <= COINS
    ensures var w := ManyCoins(h); Spendable(w.allTx, w.utxos[..m]) == CoinsOf(h, m)
    ensures CoinSum(CoinsOf(h, m)) == m * COIN
  {
    if m > 0 {
      var w := ManyCoins(h);
      ManyCoinsAre(h, m - 1);
      SpendableOneMore(w.allTx, w.utxos, m - 1);
      var coin := Coin(Ledger.Utxo(h, m - 1), COIN);
      assert CoinsOf(h, m) == CoinsOf(h, m - 1) + [coin];
      CoinAppended(CoinsOf(h, m - 1), coin);
    }
  }

  // One transaction for the request holds 675 coins.
  lemma RequestSize(k: nat)
    ensures OutputsSum([REQUEST]) == REQUEST.amount && OutputsSum([]) == 0 && OutputsSize([REQUEST]) == 34
    ensures k <= 675 ==> Fits([REQUEST], k)
    ensures SizeOf(675, [REQUEST]) + TX_OUTPUT_SIZE == 99980 && !Fits([REQUEST], 676)
  {
    hide OutputsSize, OutputsSum;
    OutputsOne(REQUEST);
  }

  lemma FeesHere()
    ensures TxFee(1000, 99980) == 100000 && TxFee(1000, 100274) == 101000
    ensures MinOutputAmount(1000) == 546
  {
  }

  lemma ManyCoinsAreTooMany(h: Ledger.Hash)
    ensures TooManyCoins(ManyCoins(h), [REQUEST], 676)
    ensures (ManyCoins(h).balance - Worth(ManyCoins(h), 676)) % 100 == 2
    ensures Moderate(ManyCoins(h), [REQUEST])
    ensures ManyCoins(h).balance == CoinSum(Spendable(ManyCoins(h).allTx, ManyCoins(h).utxos))
  {
    hide OutputsSum, OutputsSize, SizeOf, Spendable, CoinSum, MinOutputAmount, TxFee;
    var w := ManyCoins(h);
    var all := Spendable(w.allTx, w.utxos);
    ManyCoinsAre(h, COINS);
    assert w.utxos[..COINS] == w.utxos;
    FeesHere();
    RequestSize(675);
    assert [REQUEST][..0] == [];
    forall k | 0 < k < 676 ensures Fits([REQUEST], k) && !Enough(w, [REQUEST], k) {
      RequestSize(k);
      ManyCoinsAre(h, k);
      assert all[..k] == CoinsOf(h, k);
      FeeIsPositive(w, REQUEST.amount, SizeOf(k, [REQUEST]) + TX_OUTPUT_SIZE);
    }
    ManyCoinsAre(h, 675);
    assert all[..675] == CoinsOf(h, 675);
  }

  // However often the request is rebuilt, the transaction becomes too large again.
  method RebuildsOn(h: Ledger.Hash, draw: nat -> nat, tries: nat)
    returns (r: Selection, asked: seq<Output>, times: nat)
    ensures r.Smaller? && times == tries && |r.outputs| == 1
  {
    hide Answers, TooManyCoins, ManyCoins, Rebuilt, Moderate, Spendable, CoinSum, Worth;
    var w := ManyCoins(h);
    ManyCoinsAreTooMany(h);
    r, asked, times := Create(w, [REQUEST], draw, tries);
    AlwaysSmaller(w, [REQUEST], 676, asked, times, r);
  }
}
