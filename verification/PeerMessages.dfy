// How a peer collects the transactions of a merkle block before handing the block over.
module PeerMessages {
  import opened Common

  type Hash = nat

  // A merkle block, with the hashes of its transactions that match the filter.
  datatype MerkleBlock = MerkleBlock(blockHash: Hash, matched: seq<Hash>)

  // A message after parsing: nothing where parsing or validation fails.
  datatype Message =
    | TxMessage(tx: Option<Hash>)
    | MerkleMessage(block: Option<MerkleBlock>)
    | InvMessage(ok: bool, txHashes: seq<Hash>, getdata: bool)
    | OtherMessage(ok: bool)

  datatype State = State(current: Option<MerkleBlock>, awaited: seq<Hash>, known: set<Hash>,
                         sentFilter: bool, sentGetdata: bool)

  // ok is false where the connection is closed; relayed is the block handed over, if any.
  datatype Result = Result(state: State, ok: bool, relayed: Option<MerkleBlock>)

  // The list without the last occurrence of h.
  function WithoutLast(hs: seq<Hash>, h: Hash): seq<Hash> {
    if hs == [] then []
    else if hs[|hs| - 1] == h then hs[..|hs| - 1]
    else WithoutLast(hs[..|hs| - 1], h) + [hs[|hs| - 1]]
  }

  // The hashes not known, in reverse order.
  function Unknown(known: set<Hash>, hs: seq<Hash>): seq<Hash> {
    if hs == [] then []
    else (if hs[|hs| - 1] in known then [] else [hs[|hs| - 1]]) + Unknown(known, hs[..|hs| - 1])
  }

  lemma UnknownNone(known: set<Hash>)
    ensures Unknown(known, []) == []
  {
  }

  lemma UnknownLast(known: set<Hash>, hs: seq<Hash>, i: nat, awaited: seq<Hash>)
    requires 0 < i <= |hs|
    ensures awaited + Unknown(known, hs[..i])
            == (if hs[i - 1] in known then awaited else awaited + [hs[i - 1]]) + Unknown(known, hs[..i - 1])
  {
    assert hs[..i][..i - 1] == hs[..i - 1];
  }

  // The new hashes, each once, in order.
  function Fresh(known: set<Hash>, hs: seq<Hash>): seq<Hash> {
    if hs == [] then []
    else
      var f := Fresh(known, hs[..|hs| - 1]);
      if hs[|hs| - 1] in known || hs[|hs| - 1] in f then f else f + [hs[|hs| - 1]]
  }

  function AcceptTxStep(s: State, tx: Option<Hash>): Result {
    if tx.None? || (!s.sentFilter && !s.sentGetdata) then Result(s, false, None)
    else if s.current.None? then Result(s, true, None)
    else
      var awaited := WithoutLast(s.awaited, tx.value);
      if awaited == [] then Result(s.(current := None, awaited := []), true, s.current)
      else Result(s.(awaited := awaited), true, None)
  }

  function AcceptMerkleStep(s: State, block: Option<MerkleBlock>): Result {
    if block.None? || (!s.sentFilter && !s.sentGetdata) then Result(s, false, None)
    else
      var awaited := s.awaited + Unknown(s.known, block.value.matched);
      if awaited != [] then Result(s.(current := block, awaited := awaited), true, None)
      else Result(s, true, block)
  }

  function AcceptStep(s: State, m: Message): Result {
    if s.current.Some? && !m.TxMessage? then Result(s.(current := None, awaited := []), false, None)
    else
      match m
      case TxMessage(tx) => AcceptTxStep(s, tx)
      case MerkleMessage(block) => AcceptMerkleStep(s, block)
      case InvMessage(ok, hs, getdata) =>
        if ok then Result(s.(known := s.known + Members(hs), sentGetdata := s.sentGetdata || getdata), true, None)
        else Result(s, false, None)
      case OtherMessage(ok) => Result(s, ok, None)
  }

  // ----- the peer -----

  class Peer {
    var currentBlock: Option<MerkleBlock>
    var currentBlockTxHashes: seq<Hash>
    var knownTxHashes: seq<Hash>
    var knownTxHashSet: set<Hash>
    var sentFilter: bool
    var sentGetdata: bool

    constructor ()
      ensures Valid() && Now() == State(None, [], {}, false, false)
    {
      currentBlock, currentBlockTxHashes := None, [];
      knownTxHashes, knownTxHashSet := [], {};
      sentFilter, sentGetdata := false, false;
    }

    ghost predicate Valid()
      reads this
    {
      && (currentBlock.Some? <==> currentBlockTxHashes != [])
      && knownTxHashSet == Members(knownTxHashes)
      && NoneTwice(knownTxHashes)
    }

    ghost function Now(): State
      reads this
    {
      State(currentBlock, currentBlockTxHashes, knownTxHashSet, sentFilter, sentGetdata)
    }

    // Adds the new hashes to the list and the set. When the list moves in memory the set, which
    // points into it, is rebuilt.
    method AddKnownTxHashes(txHashes: seq<Hash>, moves: nat -> bool)
      requires Valid()
      modifies `knownTxHashes, `knownTxHashSet
      ensures Valid()
      ensures knownTxHashes == old(knownTxHashes) + Fresh(old(knownTxHashSet), txHashes)
      ensures knownTxHashSet == old(knownTxHashSet) + Members(txHashes)
    {
      hide Fresh, Members, NoneTwice;
      ghost var known, list := knownTxHashSet, knownTxHashes;
      var i := 0;
      NothingFresh(known, txHashes, list);
      while i < |txHashes|
        invariant 0 <= i <= |txHashes|
        invariant knownTxHashes == list + Fresh(known, txHashes[..i])
        invariant knownTxHashSet == known + Members(txHashes[..i]) == Members(knownTxHashes) && NoneTwice(knownTxHashes)
      {
        FreshStep(known, list, txHashes, i);
        if txHashes[i] !in knownTxHashSet {
          NewMember(knownTxHashes, txHashes[i]);
          assert list + (Fresh(known, txHashes[..i]) + [txHashes[i]]) == knownTxHashes + [txHashes[i]];
          knownTxHashes := knownTxHashes + [txHashes[i]];
          if moves(i) {
            RebuildKnown();
          } else {
            knownTxHashSet := knownTxHashSet + {knownTxHashes[|knownTxHashes| - 1]};
          }
        }
        i := i + 1;
      }
      assert txHashes[..i] == txHashes;
    }

    method RebuildKnown()
      modifies `knownTxHashSet
      ensures knownTxHashSet == Members(knownTxHashes)
    {
      knownTxHashSet := {};
      var j := |knownTxHashes|;
      while j > 0
        invariant 0 <= j <= |knownTxHashes| && knownTxHashSet == Members(knownTxHashes[j..])
      {
        assert knownTxHashes[j - 1..] == [knownTxHashes[j - 1]] + knownTxHashes[j..];
        knownTxHashSet := knownTxHashSet + {knownTxHashes[j - 1]};
        j := j - 1;
      }
      assert knownTxHashes[0..] == knownTxHashes;
    }

    // Announces the hashes that were not known before, each once.
    method SendInv(txHashes: seq<Hash>, moves: nat -> bool) returns (sent: seq<Hash>)
      requires Valid()
      modifies `knownTxHashes, `knownTxHashSet
      ensures Valid() && sent == Fresh(old(knownTxHashSet), txHashes)
      ensures Now() == old(Now()).(known := old(knownTxHashSet) + Members(txHashes))
    {
      var knownCount := |knownTxHashes|;
      AddKnownTxHashes(txHashes, moves);
      sent := knownTxHashes[knownCount..];
    }

    method AcceptTx(tx: Option<Hash>) returns (r: bool, relayed: Option<MerkleBlock>)
      requires Valid()
      modifies `currentBlock, `currentBlockTxHashes
      ensures Valid() && Result(Now(), r, relayed) == AcceptTxStep(old(Now()), tx)
    {
      hide WithoutLast, Members, NoneTwice;
      r, relayed := true, None;
      if tx.None? || (!sentFilter && !sentGetdata) {
        return false, None;
      }
      if currentBlock.Some? {
        var i := |currentBlockTxHashes|;
        ghost var hs := currentBlockTxHashes;
        LastIn(hs, tx.value, i);
        while i > 0 && currentBlockTxHashes[i - 1] != tx.value
          modifies {}
          invariant 0 <= i <= |hs| && WithoutLast(hs, tx.value) == WithoutLast(hs[..i], tx.value) + hs[i..]
        {
          LastIn(hs, tx.value, i);
          i := i - 1;
        }
        LastIn(hs, tx.value, i);
        if i > 0 {
          currentBlockTxHashes := currentBlockTxHashes[..i - 1] + currentBlockTxHashes[i..];
        }
        if |currentBlockTxHashes| == 0 {
          relayed := currentBlock;
          currentBlock := None;
        }
      }
    }

    method AcceptMerkleblock(block: Option<MerkleBlock>) returns (r: bool, relayed: Option<MerkleBlock>)
      requires Valid() && currentBlock.None?
      modifies `currentBlock, `currentBlockTxHashes
      ensures Valid() && Result(Now(), r, relayed) == AcceptMerkleStep(old(Now()), block)
    {
      hide Unknown;
      UnknownNone(knownTxHashSet);
      r, relayed := true, None;
      if block.None? || (!sentFilter && !sentGetdata) {
        return false, None;
      }
      var hashes := block.value.matched;
      var i := |hashes|;
      ghost var before := currentBlockTxHashes;
      assert hashes[..i] == hashes && hashes[..0] == [];
      while i > 0
        modifies `currentBlockTxHashes
        invariant 0 <= i <= |hashes|
        invariant currentBlockTxHashes + Unknown(knownTxHashSet, hashes[..i])
                  == before + Unknown(knownTxHashSet, hashes)
      {
        UnknownLast(knownTxHashSet, hashes, i, currentBlockTxHashes);
        if hashes[i - 1] !in knownTxHashSet {
          currentBlockTxHashes := currentBlockTxHashes + [hashes[i - 1]];
        }
        i := i - 1;
      }
      if |currentBlockTxHashes| > 0 {
        currentBlock := block;
      } else {
        relayed := block;
      }
    }

    // Any message but a transaction ends the collecting of a merkle block, and the connection.
    method AcceptMessage(m: Message, moves: nat -> bool) returns (r: bool, relayed: Option<MerkleBlock>)
      requires Valid()
      modifies `currentBlock, `currentBlockTxHashes, `knownTxHashes, `knownTxHashSet, `sentGetdata
      ensures Valid() && Result(Now(), r, relayed) == AcceptStep(old(Now()), m)
    {
      r, relayed := true, None;
      if currentBlock.Some? && !m.TxMessage? {
        currentBlockTxHashes := [];
        currentBlock := None;
        r := false;
      } else {
        match m
        case TxMessage(tx) =>
          r, relayed := AcceptTx(tx);
        case MerkleMessage(block) =>
          r, relayed := AcceptMerkleblock(block);
        case InvMessage(ok, txHashes, getdata) =>
          if ok {
            AddKnownTxHashes(txHashes, moves);
            sentGetdata := sentGetdata || getdata;
          } else {
            r := false;
          }
        case OtherMessage(ok) =>
          r := ok;
      }
    }
  }

  lemma NothingFresh(known: set<Hash>, hs: seq<Hash>, list: seq<Hash>)
    ensures list + Fresh(known, hs[..0]) == list && known + Members(hs[..0]) == known
  {
  }

  lemma NewMember(hs: seq<Hash>, h: Hash)
    requires NoneTwice(hs) && h !in Members(hs)
    ensures NoneTwice(hs + [h]) && Members(hs + [h]) == Members(hs) + {h}
  {
  }

  lemma FreshStep(known: set<Hash>, list: seq<Hash>, hs: seq<Hash>, i: nat)
    requires i < |hs| && known == Members(list)
    requires known + Members(hs[..i]) == Members(list + Fresh(known, hs[..i]))
    ensures Members(hs[..i + 1]) == Members(hs[..i]) + {hs[i]}
    ensures Fresh(known, hs[..i + 1])
            == Fresh(known, hs[..i]) + (if hs[i] in known + Members(hs[..i]) then [] else [hs[i]])
  {
    assert hs[..i + 1][..i] == hs[..i] && hs[..i + 1] == hs[..i] + [hs[i]];
    var f := Fresh(known, hs[..i]);
    assert hs[i] in list + f <==> hs[i] in list || hs[i] in f;
    assert hs[i] in Members(list + f) <==> hs[i] in known || hs[i] in f;
  }

  // Looking at one entry from the end: it is the one to drop, or it stays.
  lemma LastIn(hs: seq<Hash>, h: Hash, i: nat)
    requires i <= |hs|
    ensures i == |hs| ==> WithoutLast(hs, h) == WithoutLast(hs[..i], h) + hs[i..]
    ensures i == 0 ==> WithoutLast(hs[..i], h) == [] && [] + hs[i..] == hs
    ensures i > 0 && hs[i - 1] != h ==>
              WithoutLast(hs[..i], h) + hs[i..] == WithoutLast(hs[..i - 1], h) + hs[i - 1..]
    ensures i > 0 && hs[i - 1] == h ==> WithoutLast(hs[..i], h) == hs[..i - 1]
  {
    if i == |hs| {
      assert hs[..i] == hs;
    }
    if i > 0 {
      assert hs[..i][..i - 1] == hs[..i - 1];
    }
  }

  // ----- runs -----

  // What happens to a peer: a message arrives, or it announces hashes, loads a filter or asks for data.
  datatype Action = Receive(m: Message) | Announce(hs: seq<Hash>) | LoadFilter | GetData

  function Do(s: State, a: Action): Result {
    match a
    case Receive(m) => AcceptStep(s, m)
    case Announce(hs) => Result(s.(known := s.known + Members(hs)), true, None)
    case LoadFilter => Result(s.(sentFilter := true), true, None)
    case GetData => Result(s.(sentGetdata := true), true, None)
  }

  const START := State(None, [], {}, false, false)

  function After(acts: seq<Action>): State {
    if acts == [] then START else Do(After(acts[..|acts| - 1]), acts[|acts| - 1]).state
  }

  // A block is being collected exactly when transactions are awaited, and only once data was asked for.
  lemma {:induction false} CollectingIsAwaiting(acts: seq<Action>)
    ensures After(acts).current.Some? <==> After(acts).awaited != []
    ensures After(acts).current.Some? ==> After(acts).sentFilter || After(acts).sentGetdata
  {
    if acts != [] {
      CollectingIsAwaiting(acts[..|acts| - 1]);
    }
  }

  // The transactions that arrive.
  function Arrived(acts: seq<Action>): multiset<Hash> {
    if acts == [] then multiset{}
    else
      var rest, a := Arrived(acts[..|acts| - 1]), acts[|acts| - 1];
      if a.Receive? && a.m.TxMessage? && a.m.tx.Some? then rest + multiset{a.m.tx.value} else rest
  }

  predicate OnlyTx(acts: seq<Action>) {
    forall k :: 0 <= k < |acts| && acts[k].Receive? ==> acts[k].m.TxMessage?
  }

  lemma {:induction false} WithoutLastIs(hs: seq<Hash>, h: Hash)
    ensures multiset(WithoutLast(hs, h)) == multiset(hs) - multiset{h}
  {
    if hs != [] {
      var front, last := hs[..|hs| - 1], hs[|hs| - 1];
      assert hs == front + [last];
      WithoutLastIs(front, h);
    }
  }

  function TxOf(a: Action): multiset<Hash> {
    if a.Receive? && a.m.TxMessage? && a.m.tx.Some? then multiset{a.m.tx.value} else multiset{}
  }

  // One action: collecting starts with a merkle block, and goes on through transactions only.
  lemma CollectingStep(s: State, a: Action, b: MerkleBlock)
    requires s.current.Some? <==> s.awaited != []
    requires s.current.Some? ==> s.sentFilter || s.sentGetdata
    requires Do(s, a).state.current == Some(b)
    ensures s.current.None? ==>
              a == Receive(MerkleMessage(Some(b))) && Do(s, a).state.awaited == Unknown(s.known, b.matched)
    ensures s.current.Some? ==>
              && s.current == Some(b) && (a.Receive? ==> a.m.TxMessage?)
              && multiset(Do(s, a).state.awaited) == multiset(s.awaited) - TxOf(a)
  {
    hide Unknown, Members, WithoutLast;
    assert [] + Unknown(s.known, b.matched) == Unknown(s.known, b.matched);
    assert multiset(s.awaited) - multiset{} == multiset(s.awaited);
    if s.current.Some? {
      if a.Receive? && a.m.TxMessage? && a.m.tx.Some? {
        WithoutLastIs(s.awaited, a.m.tx.value);
      }
    }
  }

  // One action hands a block over: at once, or when the last awaited transaction arrives.
  lemma HandOverStep(s: State, a: Action, b: MerkleBlock)
    requires s.current.Some? <==> s.awaited != []
    requires Do(s, a).relayed == Some(b)
    ensures s.current.None? ==> a == Receive(MerkleMessage(Some(b))) && Unknown(s.known, b.matched) == []
    ensures s.current.Some? ==>
              && s.current == Some(b) && a.Receive? && a.m.TxMessage? && multiset(s.awaited) <= TxOf(a)
  {
    hide Unknown, Members, WithoutLast;
    assert [] + Unknown(s.known, b.matched) == Unknown(s.known, b.matched);
    if s.current.Some? && a.Receive? && a.m.TxMessage? && a.m.tx.Some? {
      WithoutLastIs(s.awaited, a.m.tx.value);
      LastOne(s.awaited, WithoutLast(s.awaited, a.m.tx.value), a.m.tx.value);
    }
  }

  lemma LastOne(hs: seq<Hash>, rest: seq<Hash>, h: Hash)
    requires multiset(rest) == multiset(hs) - multiset{h} && rest == []
    ensures multiset(hs) <= multiset{h}
  {
    forall x ensures multiset(hs)[x] <= multiset{h}[x] {
      assert multiset(rest)[x] == 0;
      assert (multiset(hs) - multiset{h})[x] == 0;
    }
  }

  // What happened since j, with one more action.
  lemma SinceStep(acts: seq<Action>, j: nat)
    requires j + 1 < |acts|
    ensures var before, a := acts[..|acts| - 1], acts[|acts| - 1];
            && before[j] == acts[j] && before[..j] == acts[..j]
            && Arrived(acts[j + 1..]) == Arrived(before[j + 1..]) + TxOf(a)
            && (OnlyTx(before[j + 1..]) && (a.Receive? ==> a.m.TxMessage?) ==> OnlyTx(acts[j + 1..]))
  {
    var before, a, since := acts[..|acts| - 1], acts[|acts| - 1], acts[j + 1..];
    assert since[..|since| - 1] == before[j + 1..] && since == before[j + 1..] + [a];
  }

  lemma NothingSince(acts: seq<Action>)
    requires acts != []
    ensures acts[|acts| - 1 + 1..] == [] && Arrived([]) == multiset{} && OnlyTx([])
  {
  }

  // A block being collected was received some time ago; since then no message but transactions
  // came, and what is awaited is what was unknown then, less what has arrived.
  lemma {:induction false} Collecting(acts: seq<Action>, b: MerkleBlock) returns (j: nat)
    requires After(acts).current == Some(b)
    ensures j < |acts| && acts[j] == Receive(MerkleMessage(Some(b))) && OnlyTx(acts[j + 1..])
    ensures multiset(After(acts).awaited)
            == multiset(Unknown(After(acts[..j]).known, b.matched)) - Arrived(acts[j + 1..])
  {
    hide Do, Arrived, OnlyTx, TxOf, Unknown;
    var before, a := acts[..|acts| - 1], acts[|acts| - 1];
    CollectingIsAwaiting(before);
    CollectingStep(After(before), a, b);
    if After(before).current.None? {
      j := |acts| - 1;
      NothingSince(acts);
    } else {
      j := Collecting(before, b);
      SinceStep(acts, j);
    }
  }

  // A merkle block is handed over only once every matched transaction that was not known when it
  // came has arrived since, with no other message in between.
  lemma HandedOverComplete(acts: seq<Action>, b: MerkleBlock) returns (j: nat)
    requires acts != [] && Do(After(acts[..|acts| - 1]), acts[|acts| - 1]).relayed == Some(b)
    ensures j < |acts| && acts[j] == Receive(MerkleMessage(Some(b))) && OnlyTx(acts[j + 1..])
    ensures multiset(Unknown(After(acts[..j]).known, b.matched)) <= Arrived(acts[j + 1..])
  {
    hide Do, Arrived, OnlyTx, TxOf, Unknown;
    var before, a := acts[..|acts| - 1], acts[|acts| - 1];
    CollectingIsAwaiting(before);
    HandOverStep(After(before), a, b);
    if After(before).current.None? {
      j := |acts| - 1;
      NothingSince(acts);
    } else {
      j := Collecting(before, b);
      SinceStep(acts, j);
    }
  }

  // ----- nothing is withheld -----

  lemma {:induction false} AllKnown(known: set<Hash>, hs: seq<Hash>)
    ensures Unknown(known, hs) == [] <==> forall h :: h in hs ==> h in known
  {
    if hs != [] {
      var front, last := hs[..|hs| - 1], hs[|hs| - 1];
      assert hs == front + [last];
      AllKnown(known, front);
    }
  }

  // With data asked for and nothing being collected, a merkle block that matches only known
  // transactions, or none, is handed over at once.
  lemma HandedOverAtOnce(s: State, b: MerkleBlock)
    requires (s.sentFilter || s.sentGetdata) && s.current.None? && s.awaited == []
    requires forall h :: h in b.matched ==> h in s.known
    ensures AcceptStep(s, MerkleMessage(Some(b))) == Result(s, true, Some(b))
  {
    AllKnown(s.known, b.matched);
  }

  // While a block is collected and one transaction is awaited, that transaction's message hands it over.
  lemma HandedOverByLast(s: State, b: MerkleBlock, h: Hash)
    requires (s.sentFilter || s.sentGetdata) && s.current == Some(b) && s.awaited == [h]
    ensures AcceptStep(s, TxMessage(Some(h))) == Result(s.(current := None, awaited := []), true, Some(b))
  {
  }

  // The state while a block's unknown transactions, of which some have arrived, are collected.
  ghost predicate Gathering(s: State, b: MerkleBlock, unknown: multiset<Hash>, arrived: multiset<Hash>) {
    && (s.sentFilter || s.sentGetdata)
    && multiset(s.awaited) == unknown - arrived
    && s.current == if unknown <= arrived then None else Some(b)
  }

  lemma NothingLeft(hs: seq<Hash>, unknown: multiset<Hash>, arrived: multiset<Hash>)
    requires multiset(hs) == unknown - arrived
    ensures hs == [] <==> unknown <= arrived
  {
    if hs == [] {
      forall x ensures unknown[x] <= arrived[x] {
        assert (unknown - arrived)[x] == 0;
      }
    } else {
      assert multiset(hs)[hs[0]] > 0;
      assert (unknown - arrived)[hs[0]] > 0;
    }
  }

  lemma GatheringStarts(s: State, b: MerkleBlock)
    requires (s.sentFilter || s.sentGetdata) && s.current.None? && s.awaited == []
    ensures var unknown, r := multiset(Unknown(s.known, b.matched)), Do(s, Receive(MerkleMessage(Some(b))));
            && Gathering(r.state, b, unknown, multiset{})
            && r.relayed == if unknown <= multiset{} then Some(b) else None
  {
    hide Unknown;
    var hs := Unknown(s.known, b.matched);
    assert [] + hs == hs;
    NothingLeft(hs, multiset(hs), multiset{});
  }

  // One more action, no message but a transaction: the block is handed over by the one that completes it.
  lemma GatheringStep(s: State, a: Action, b: MerkleBlock, unknown: multiset<Hash>, arrived: multiset<Hash>)
    requires Gathering(s, b, unknown, arrived) && (a.Receive? ==> a.m.TxMessage?)
    ensures Gathering(Do(s, a).state, b, unknown, arrived + TxOf(a))
    ensures Do(s, a).relayed == if !(unknown <= arrived) && unknown <= arrived + TxOf(a) then Some(b) else None
  {
    hide WithoutLast, Members;
    NothingLeft(s.awaited, unknown, arrived);
    LessStill(unknown, arrived, TxOf(a));
    if a.Receive? && a.m.tx.Some? {
      WithoutLastIs(s.awaited, a.m.tx.value);
      NothingLeft(WithoutLast(s.awaited, a.m.tx.value), unknown, arrived + TxOf(a));
    }
  }

  lemma LessStill(unknown: multiset<Hash>, arrived: multiset<Hash>, more: multiset<Hash>)
    ensures unknown - arrived - more == unknown - (arrived + more)
    ensures unknown <= arrived ==> unknown <= arrived + more && unknown - (arrived + more) == multiset{}
    ensures more == multiset{} ==> arrived + more == arrived
  {
  }

  // After action j brought a block, while nothing was being collected, only transactions came.
  ghost predicate Since(acts: seq<Action>, j: nat, b: MerkleBlock) {
    && j < |acts| && acts[j] == Receive(MerkleMessage(Some(b))) && OnlyTx(acts[j + 1..])
    && After(acts[..j]).current.None? && (After(acts[..j]).sentFilter || After(acts[..j]).sentGetdata)
  }

  lemma SinceBefore(acts: seq<Action>, j: nat, b: MerkleBlock)
    requires Since(acts, j, b) && j + 1 < |acts|
    ensures Since(acts[..|acts| - 1], j, b)
    ensures var a := acts[|acts| - 1]; a.Receive? ==> a.m.TxMessage?
  {
    hide After;
    var before, since := acts[..|acts| - 1], acts[j + 1..];
    assert before[..j] == acts[..j] && before[j] == acts[j];
    assert since[..|since| - 1] == before[j + 1..] && since[|since| - 1] == acts[|acts| - 1];
  }

  lemma {:induction false} GatheringSince(acts: seq<Action>, j: nat, b: MerkleBlock)
    requires Since(acts, j, b)
    ensures Gathering(After(acts), b, multiset(Unknown(After(acts[..j]).known, b.matched)), Arrived(acts[j + 1..]))
  {
    hide Do, Arrived, OnlyTx, TxOf, Unknown, Gathering;
    var before, a := acts[..|acts| - 1], acts[|acts| - 1];
    if j + 1 == |acts| {
      CollectingIsAwaiting(before);
      GatheringStarts(After(before), b);
      NothingSince(acts);
    } else {
      SinceBefore(acts, j, b);
      GatheringSince(before, j, b);
      SinceStep(acts, j);
      GatheringStep(After(before), a, b, multiset(Unknown(After(acts[..j]).known, b.matched)),
                    Arrived(before[j + 1..]));
    }
  }

  // A merkle block accepted while nothing is collected is handed over by the very action with which
  // the last of its unknown matched transactions has arrived, and by no other.
  lemma HandedOverWhenComplete(acts: seq<Action>, j: nat, b: MerkleBlock)
    requires Since(acts, j, b)
    ensures var unknown := multiset(Unknown(After(acts[..j]).known, b.matched));
            Do(After(acts[..|acts| - 1]), acts[|acts| - 1]).relayed
            == if && unknown <= Arrived(acts[j + 1..])
                  && (j + 1 == |acts| || !(unknown <= Arrived(acts[j + 1..|acts| - 1])))
               then Some(b) else None
  {
    hide Do, Arrived, OnlyTx, TxOf, Unknown, Gathering;
    var before, a := acts[..|acts| - 1], acts[|acts| - 1];
    if j + 1 == |acts| {
      CollectingIsAwaiting(before);
      GatheringStarts(After(before), b);
      NothingSince(acts);
    } else {
      SinceBefore(acts, j, b);
      GatheringSince(before, j, b);
      SinceStep(acts, j);
      assert before[j + 1..] == acts[j + 1..|acts| - 1] && before[..j] == acts[..j];
      GatheringStep(After(before), a, b, multiset(Unknown(After(acts[..j]).known, b.matched)),
                    Arrived(before[j + 1..]));
    }
  }
}
