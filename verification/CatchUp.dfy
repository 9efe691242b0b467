// Blocks that arrive out of order: the chain, and what the wallet records, end up as if they had come
// in order.
module CatchUp {
  import opened Common
  import opened Chain
  import opened Pruning
  import opened PeerStart
  import opened Reorg
  import opened Relaying

  lemma RelayFits(r: Rules, s: State, a: Arrival)
    requires Fit(r.facts, s) && Genuine(r.facts, a.block)
    ensures !LastVerdict(r, s, a).Undefined() ==> Fit(r.facts, Relay(r, s, a))
  {
    hide Fit, Genuine, LastVerdict, Relay;
    RelayKeeps(r, s, a);
  }

  // The state after blocks are relayed one after another, up to one from which the source cannot go on.
  ghost function RelayAll(r: Rules, s: State, arrivals: seq<Arrival>): State
    requires Fit(r.facts, s) && forall a :: a in arrivals ==> Genuine(r.facts, a.block)
    decreases |arrivals|
  {
    hide Fit, Genuine, LastVerdict, Relay;
    if arrivals == [] then s
    else
      RelayFits(r, s, arrivals[0]);
      if LastVerdict(r, s, arrivals[0]).Undefined() then Relay(r, s, arrivals[0])
      else RelayAll(r, Relay(r, s, arrivals[0]), arrivals[1..])
  }

  ghost function PlacesAll(r: Rules, s: State, arrivals: seq<Arrival>, places: map<TxHash, Place>): map<TxHash, Place>
    requires Fit(r.facts, s) && forall a :: a in arrivals ==> Genuine(r.facts, a.block)
    decreases |arrivals|
  {
    hide Fit, Genuine, LastVerdict, Relay, PlacesAfter;
    if arrivals == [] then places
    else
      RelayFits(r, s, arrivals[0]);
      var one := PlacesAfter(r, s, arrivals[0], places);
      if LastVerdict(r, s, arrivals[0]).Undefined() then one
      else PlacesAll(r, Relay(r, s, arrivals[0]), arrivals[1..], one)
  }

  // The source can go on after each of them.
  ghost predicate AllDefined(r: Rules, s: State, arrivals: seq<Arrival>)
    requires Fit(r.facts, s) && forall a :: a in arrivals ==> Genuine(r.facts, a.block)
    decreases |arrivals|
  {
    hide Fit, Genuine, LastVerdict, Relay;
    arrivals == []
    || (RelayFits(r, s, arrivals[0]);
        !LastVerdict(r, s, arrivals[0]).Undefined() && AllDefined(r, Relay(r, s, arrivals[0]), arrivals[1..]))
  }

  lemma DefinedFirst(r: Rules, s: State, arrivals: seq<Arrival>)
    requires Fit(r.facts, s) && (forall a :: a in arrivals ==> Genuine(r.facts, a.block)) && arrivals != []
    requires AllDefined(r, s, arrivals)
    ensures !LastVerdict(r, s, arrivals[0]).Undefined()
  {
    hide Fit, Genuine, LastVerdict, Relay;
  }

  lemma RelayAllNext(r: Rules, s: State, arrivals: seq<Arrival>, places: map<TxHash, Place>)
    requires Fit(r.facts, s) && (forall a :: a in arrivals ==> Genuine(r.facts, a.block)) && arrivals != []
    requires !LastVerdict(r, s, arrivals[0]).Undefined()
    ensures var t := Relay(r, s, arrivals[0]);
            && Fit(r.facts, t) && RelayAll(r, s, arrivals) == RelayAll(r, t, arrivals[1..])
            && AllDefined(r, s, arrivals) == AllDefined(r, t, arrivals[1..])
            && PlacesAll(r, s, arrivals, places)
               == PlacesAll(r, t, arrivals[1..], PlacesAfter(r, s, arrivals[0], places))
  {
    hide Fit, Genuine, LastVerdict, Relay, PlacesAfter;
    RelayFits(r, s, arrivals[0]);
  }

  lemma RelayAllNone(r: Rules, s: State, places: map<TxHash, Place>)
    requires Fit(r.facts, s)
    ensures RelayAll(r, s, []) == s && PlacesAll(r, s, [], places) == places && AllDefined(r, s, [])
  {
  }

  // ----- a line of blocks that follows the last one -----

  // As peers relay it, its height not known; it is new, would be heeded, and would pass verification.
  ghost predicate Newcomer(r: Rules, s: State, b: Block) {
    var h := r.facts.height(b.blockHash);
    && Genuine(r.facts, b) && b.height == BLOCK_UNKNOWN_HEIGHT && !Skipped(r, b)
    && b.blockHash !in s.blocks && b.blockHash !in s.orphans
    && (h in r.checkpoints ==> r.checkpoints[h] == b.blockHash)
    && forall blocks :: r.difficultyOk(b.(height := h), blocks)
  }

  // The block before the i-th, and its time.
  ghost function Before(s: State, c: seq<Block>, i: nat): BlockHash
    requires i <= |c|
  {
    if i == 0 then s.last else c[i - 1].blockHash
  }

  ghost function TimeBefore(s: State, c: seq<Block>, i: nat): nat
    requires i <= |c| && s.last in s.blocks
  {
    if i == 0 then s.blocks[s.last].timestamp else c[i - 1].timestamp
  }

  ghost predicate Line(r: Rules, s: State, c: seq<Block>) {
    && s.last !in s.orphans
    && forall i :: 0 <= i < |c| ==> Newcomer(r, s, c[i]) && c[i].prevBlock == Before(s, c, i)
  }

  // What the wallet records when the first n come one after another.
  ghost function WrittenTo(f: Facts, s: State, c: seq<Block>, n: nat, places: map<TxHash, Place>): map<TxHash, Place>
    requires n <= |c| && s.last in s.blocks
  {
    if n == 0 then places
    else
      var b := c[n - 1];
      Written(WrittenTo(f, s, c, n - 1, places), Members(b.txHashes),
              Place(f.height(b.blockHash), b.timestamp / 2 + TimeBefore(s, c, n - 1) / 2))
  }

  lemma {:induction false} HeightBefore(r: Rules, s: State, c: seq<Block>, i: nat)
    requires Line(r, s, c) && i <= |c|
    ensures r.facts.height(Before(s, c, i)) == r.facts.height(s.last) + i
  {
    if i > 0 {
      HeightBefore(r, s, c, i - 1);
      assert c[i - 1].prevBlock == Before(s, c, i - 1) && Newcomer(r, s, c[i - 1]);
    }
  }

  lemma BeforeApart(r: Rules, s: State, c: seq<Block>, i: nat, j: nat)
    requires Line(r, s, c) && i <= |c| && j <= |c| && i != j
    ensures Before(s, c, i) != Before(s, c, j)
  {
    HeightBefore(r, s, c, i);
    HeightBefore(r, s, c, j);
  }

  // Of the line, exactly the blocks in got that come after k wait, besides the orphans from before.
  ghost predicate Queued(s: State, c: seq<Block>, got: set<nat>, k: nat, orphans: map<BlockHash, Block>) {
    && (forall p :: p in s.orphans ==> p in orphans && orphans[p] == s.orphans[p])
    && (forall i :: i in got && k < i < |c| ==> c[i].prevBlock in orphans && orphans[c[i].prevBlock] == c[i])
    && (forall p :: p in orphans ==> p in s.orphans || AwaitedIn(c, got, k, p))
  }

  ghost predicate AwaitedIn(c: seq<Block>, got: set<nat>, k: nat, p: BlockHash) {
    exists i :: i in got && k < i < |c| && c[i].prevBlock == p
  }

  // Blocks got have come, and k is the first that has not: the chain ends before it.
  ghost predicate Midway(f: Facts, s: State, c: seq<Block>, got: set<nat>, k: nat, t: State)
    requires k <= |c| && s.last in s.blocks
  {
    && Fit(f, t) && t.last == Before(s, c, k)
    && t.last in t.blocks && t.blocks[t.last].timestamp == TimeBefore(s, c, k)
    && (forall i :: k <= i < |c| ==> c[i].blockHash !in t.blocks)
    && k !in got && (forall i :: 0 <= i < k ==> i in got) && (forall i :: i in got ==> i < |c|)
    && Queued(s, c, got, k, t.orphans)
  }

  // A block whose turn has not come is set aside.
  lemma TooEarly(r: Rules, t: State, a: Arrival)
    requires Fit(r.facts, t) && Genuine(r.facts, a.block) && !Skipped(r, a.block)
    requires a.block.prevBlock !in t.blocks && (a.block.timestamp + WEEK) % W32 >= a.now
    requires a.block.height == BLOCK_UNKNOWN_HEIGHT
    ensures Verdict(r, t, a) == Orphaned && Next(r, t, a).None?
    ensures AfterOne(r, t, a) == t.(orphans := t.orphans[a.block.prevBlock := a.block])
    ensures forall places :: PlacesAfterOne(r, t, a, places) == places
  {
    hide Skipped, Genuine, Rooted, Known, AllWaiting;
    LeftFits(r, t, a.block);
    forall places ensures PlacesAfterOne(r, t, a, places) == places {
      WhenUnheeded(r, t, a, places);
    }
  }

  // A block whose turn it is passes verification.
  lemma Passes(r: Rules, s: State, t: State, b: Block)
    requires Fit(r.facts, t) && Newcomer(r, s, b) && b.prevBlock == t.last
    ensures t.last in t.blocks && Heeded(r, t.blocks, b)
    ensures AtHeight(t.blocks, b) == b.(height := r.facts.height(b.blockHash))
    ensures Verified(r, t.blocks, AtHeight(t.blocks, b))
    ensures r.facts.height(b.blockHash) < BLOCK_UNKNOWN_HEIGHT && b.blockHash != b.prevBlock
  {
    LeftFits(r, t, b);
    NotItsOwnParent(r.facts, b);
    CheckedKeeps(r.facts, t.blocks, t.last, AtHeight(t.blocks, b));
  }

  lemma InTimeVerdict(r: Rules, s: State, t: State, a: Arrival)
    requires Fit(r.facts, t) && Newcomer(r, s, a.block) && a.block.prevBlock == t.last
    ensures t.last in t.blocks && Verdict(r, t, a) == Extended && GoesOn(r, t, a)
    ensures Heeded(r, t.blocks, a.block) && AtHeight(t.blocks, a.block).height == r.facts.height(a.block.blockHash)
    ensures forall h :: h in Left(r, t, a.block) ==> h in t.blocks
  {
    Passes(r, s, t, a.block);
    LeftFits(r, t, a.block);
    hide Fit, Newcomer, Genuine, Known, Verified, Heeded, Checked;
  }

  // A block whose turn it is extends the chain.
  lemma InTime(r: Rules, s: State, t: State, a: Arrival)
    requires Fit(r.facts, t) && Newcomer(r, s, a.block) && a.block.prevBlock == t.last
    ensures t.last in t.blocks && Verdict(r, t, a) == Extended
    ensures var b := a.block.(height := r.facts.height(a.block.blockHash));
            var one := AfterOne(r, t, a);
            && Fit(r.facts, one) && one.last == b.blockHash && one.orphans == t.orphans - {b.blockHash}
            && b.blockHash in one.blocks && one.blocks[b.blockHash] == b
            && (forall h :: h in one.blocks ==> h in t.blocks || h == b.blockHash)
            && (Next(r, t, a) == if b.blockHash in t.orphans
                                 then Some(Arrival(t.orphans[b.blockHash], a.peerLast, a.now)) else None)
  {
    hide Fit, Genuine, Known, Verdict, GoesOn, Left, Heeded, StillPublished;
    InTimeVerdict(r, s, t, a);
    AfterOneKeeps(r, t, a);
  }

  lemma InTimePlaces(r: Rules, s: State, t: State, a: Arrival, places: map<TxHash, Place>)
    requires Fit(r.facts, t) && Newcomer(r, s, a.block) && a.block.prevBlock == t.last
    ensures t.last in t.blocks
    ensures PlacesAfterOne(r, t, a, places)
            == Written(places, Members(a.block.txHashes),
                       Place(r.facts.height(a.block.blockHash),
                             a.block.timestamp / 2 + t.blocks[t.last].timestamp / 2))
  {
    hide Fit, Genuine, Known, Verdict, GoesOn, Left, Heeded, StillPublished, Written, AfterOne;
    hide PlacesAfterOne, RewrittenAll;
    InTimeVerdict(r, s, t, a);
    WhenHeeded(r, t, a, places);
  }

  lemma Links(r: Rules, s: State, c: seq<Block>, i: nat)
    requires Line(r, s, c) && i < |c|
    ensures Newcomer(r, s, c[i]) && Genuine(r.facts, c[i]) && c[i].prevBlock == Before(s, c, i)
    ensures c[i].blockHash == Before(s, c, i + 1) && c[i].blockHash !in s.blocks && c[i].blockHash !in s.orphans
  {
  }

  // The state after block k has extended the chain and what waited for it has been taken out.
  ghost predicate Grown(t: State, one: State, b: Block) {
    && one.last == b.blockHash && one.orphans == t.orphans - {b.blockHash}
    && b.blockHash in one.blocks && one.blocks[b.blockHash].timestamp == b.timestamp
    && (forall h :: h in one.blocks ==> h in t.blocks || h == b.blockHash)
  }

  lemma QueueMoves(r: Rules, s: State, c: seq<Block>, got: set<nat>, k: nat, orphans: map<BlockHash, Block>)
    requires Line(r, s, c) && k < |c| && Queued(s, c, got, k, orphans)
    ensures Queued(s, c, got - {k + 1} + {k}, k + 1, orphans - {c[k].blockHash})
    ensures c[k].blockHash in orphans <==> k + 1 in got && k + 1 < |c|
    ensures k + 1 in got && k + 1 < |c| ==> orphans[c[k].blockHash] == c[k + 1]
  {
    hide Line, Before;
    Links(r, s, c, k);
    forall i | 0 <= i < |c| && i != k + 1 ensures c[i].prevBlock != c[k].blockHash {
      Links(r, s, c, i);
      BeforeApart(r, s, c, i, k + 1);
    }
    if k + 1 < |c| {
      Links(r, s, c, k + 1);
    }
    forall p | p in orphans && p != c[k].blockHash && AwaitedIn(c, got, k, p)
      ensures AwaitedIn(c, got - {k + 1} + {k}, k + 1, p)
    {
      var i :| i in got && k < i < |c| && c[i].prevBlock == p;
      assert i in got - {k + 1} + {k};
    }
  }

  lemma MovesOn(r: Rules, s: State, c: seq<Block>, got: set<nat>, k: nat, t: State, one: State)
    requires s.last in s.blocks && Line(r, s, c) && k < |c| && Midway(r.facts, s, c, got, k, t)
    requires Fit(r.facts, one) && Grown(t, one, c[k])
    ensures Midway(r.facts, s, c, got - {k + 1} + {k}, k + 1, one)
    ensures c[k].blockHash in t.orphans <==> k + 1 in got
    ensures k + 1 in got ==> k + 1 < |c| && t.orphans[c[k].blockHash] == c[k + 1]
  {
    QueueMoves(r, s, c, got, k, t.orphans);
    hide Fit, Queued, Line;
    Links(r, s, c, k);
    StillMissing(r, s, c, k, t, one);
    GotMoves(c, got, k);
  }

  lemma GotMoves(c: seq<Block>, got: set<nat>, k: nat)
    requires k < |c| && k !in got && (forall i :: 0 <= i < k ==> i in got) && forall i :: i in got ==> i < |c|
    ensures var more := got - {k + 1} + {k};
            k + 1 !in more && (forall i :: 0 <= i < k + 1 ==> i in more) && forall i :: i in more ==> i < |c|
  {
  }

  lemma StillMissing(r: Rules, s: State, c: seq<Block>, k: nat, t: State, one: State)
    requires Line(r, s, c) && k < |c| && Grown(t, one, c[k])
    requires forall i :: k <= i < |c| ==> c[i].blockHash !in t.blocks
    ensures forall i :: k + 1 <= i < |c| ==> c[i].blockHash !in one.blocks
  {
    hide Line;
    forall i | k + 1 <= i < |c| ensures c[i].blockHash !in one.blocks {
      Links(r, s, c, i);
      BeforeApart(r, s, c, i + 1, k + 1);
    }
  }

  // The first missing block comes: the chain grows to the next that is missing.
  lemma {:induction false} Due(r: Rules, s: State, c: seq<Block>, got: set<nat>, k: nat, t: State, a: Arrival,
                               places: map<TxHash, Place>)
    returns (n: nat)
    requires s.last in s.blocks && Line(r, s, c) && k < |c| && a.block == c[k]
    requires Midway(r.facts, s, c, got, k, t)
    ensures Fit(r.facts, t) && Genuine(r.facts, a.block)
    ensures k < n <= |c| && !LastVerdict(r, t, a).Undefined() && Midway(r.facts, s, c, got + {k}, n, Relay(r, t, a))
    ensures PlacesAfter(r, t, a, WrittenTo(r.facts, s, c, k, places)) == WrittenTo(r.facts, s, c, n, places)
    decreases |c| - k
  {
    hide Fit, Genuine, Newcomer, AfterOne, Next, Verdict, Relay, LastVerdict, PlacesAfterOne, PlacesAfter, Written;
    hide Line, Queued, Before, Trace;
    Links(r, s, c, k);
    InTime(r, s, t, a);
    InTimePlaces(r, s, t, a, WrittenTo(r.facts, s, c, k, places));
    RelayNext(r, t, a);
    PlacesNext(r, t, a, WrittenTo(r.facts, s, c, k, places));
    var one := AfterOne(r, t, a);
    MovesOn(r, s, c, got, k, t, one);
    if k + 1 in got {
      n := Due(r, s, c, got - {k + 1} + {k}, k + 1, one, Next(r, t, a).value, places);
      assert got - {k + 1} + {k} + {k + 1} == got + {k};
    } else {
      n := k + 1;
      assert got - {k + 1} + {k} == got + {k};
    }
  }

  lemma QueueGrows(r: Rules, s: State, c: seq<Block>, got: set<nat>, k: nat, i: nat, orphans: map<BlockHash, Block>)
    requires Line(r, s, c) && k < i < |c| && i !in got && Queued(s, c, got, k, orphans)
    ensures Queued(s, c, got + {i}, k, orphans[c[i].prevBlock := c[i]])
  {
    hide Line, Before;
    Links(r, s, c, i);
    Links(r, s, c, i - 1);
    forall j | 0 <= j < |c| && j != i ensures c[j].prevBlock != c[i].prevBlock {
      Links(r, s, c, j);
      BeforeApart(r, s, c, i, j);
    }
    forall p | p in orphans && AwaitedIn(c, got, k, p) ensures AwaitedIn(c, got + {i}, k, p) {
      var j :| j in got && k < j < |c| && c[j].prevBlock == p;
      assert j in got + {i};
    }
    assert i in got + {i} && AwaitedIn(c, got + {i}, k, c[i].prevBlock);
  }

  // A block comes whose turn has not come: it waits, and nothing else happens.
  lemma Early(r: Rules, s: State, c: seq<Block>, got: set<nat>, k: nat, t: State, a: Arrival, i: nat,
              places: map<TxHash, Place>)
    requires s.last in s.blocks && Line(r, s, c) && k < |c| && Midway(r.facts, s, c, got, k, t)
    requires k < i < |c| && i !in got && a.block == c[i] && (a.block.timestamp + WEEK) % W32 >= a.now
    ensures Fit(r.facts, t) && Genuine(r.facts, a.block)
    ensures !LastVerdict(r, t, a).Undefined() && Midway(r.facts, s, c, got + {i}, k, Relay(r, t, a))
    ensures PlacesAfter(r, t, a, places) == places
  {
    hide Genuine, AfterOne, Next, Verdict, Relay, LastVerdict, PlacesAfterOne, PlacesAfter, Written;
    hide Line, Queued, Trace, Rooted, Known, AllWaiting;
    Links(r, s, c, i);
    Links(r, s, c, i - 1);
    QueueGrows(r, s, c, got, k, i, t.orphans);
    TooEarly(r, t, a);
    RelayNext(r, t, a);
    PlacesNext(r, t, a, places);
    WaitsFits(r.facts, t, a.block);
  }

  lemma WaitsFits(f: Facts, t: State, b: Block)
    requires Fit(f, t) && Genuine(f, b)
    ensures Fit(f, t.(orphans := t.orphans[b.prevBlock := b]))
  {
    OneMoreWaiting(f, t.orphans, b, {});
  }

  // Any block of the line that has not come before comes.
  lemma Comes(r: Rules, s: State, c: seq<Block>, got: set<nat>, k: nat, t: State, a: Arrival, i: nat,
              places: map<TxHash, Place>)
    returns (n: nat)
    requires s.last in s.blocks && Line(r, s, c) && k <= |c| && Midway(r.facts, s, c, got, k, t)
    requires i < |c| && i !in got && a.block == c[i] && (a.block.timestamp + WEEK) % W32 >= a.now
    ensures Fit(r.facts, t) && Genuine(r.facts, a.block)
    ensures n <= |c| && !LastVerdict(r, t, a).Undefined() && Midway(r.facts, s, c, got + {i}, n, Relay(r, t, a))
    ensures PlacesAfter(r, t, a, WrittenTo(r.facts, s, c, k, places)) == WrittenTo(r.facts, s, c, n, places)
  {
    hide Genuine, Relay, LastVerdict, PlacesAfter, WrittenTo, Line, Fit, Before, Newcomer, Queued;
    assert k <= i;
    if i == k {
      n := Due(r, s, c, got, k, t, a, places);
    } else {
      n := k;
      Early(r, s, c, got, k, t, a, i, WrittenTo(r.facts, s, c, k, places));
    }
  }

  // Each block of the line comes just once, in the given order, and none of them late.
  ghost predicate InOrder(c: seq<Block>, order: seq<nat>, arrivals: seq<Arrival>) {
    && |order| == |arrivals| && NoneTwice(order)
    && forall m :: 0 <= m < |order| ==>
                     && order[m] < |c| && arrivals[m].block == c[order[m]]
                     && (arrivals[m].block.timestamp + WEEK) % W32 >= arrivals[m].now
  }

  ghost predicate Missing(c: seq<Block>, got: set<nat>, order: seq<nat>) {
    forall i :: 0 <= i < |c| ==> (i in got <==> i !in order)
  }

  lemma NoneLeft(c: seq<Block>, arrivals: seq<Arrival>)
    requires InOrder(c, [], arrivals)
    ensures arrivals == []
  {
  }

  lemma OrderRest(c: seq<Block>, got: set<nat>, order: seq<nat>, arrivals: seq<Arrival>)
    requires InOrder(c, order, arrivals) && Missing(c, got, order) && order != []
    ensures arrivals != []
    ensures var i, a := order[0], arrivals[0];
            && i < |c| && i !in got && a.block == c[i] && (a.block.timestamp + WEEK) % W32 >= a.now
            && InOrder(c, order[1..], arrivals[1..]) && Missing(c, got + {i}, order[1..])
  {
    assert order == [order[0]] + order[1..];
    assert order[0] in order;
  }

  lemma AllGenuine(r: Rules, s: State, c: seq<Block>, order: seq<nat>, arrivals: seq<Arrival>)
    requires Line(r, s, c) && InOrder(c, order, arrivals)
    ensures forall a :: a in arrivals ==> Genuine(r.facts, a.block)
  {
    hide Newcomer, Genuine;
    forall a | a in arrivals ensures Genuine(r.facts, a.block) {
      var m :| 0 <= m < |arrivals| && arrivals[m] == a;
      NewcomerIs(r, s, c[order[m]]);
    }
  }

  lemma NewcomerIs(r: Rules, s: State, b: Block)
    requires Newcomer(r, s, b)
    ensures Genuine(r.facts, b)
  {
  }

  lemma AllHaveCome(f: Facts, s: State, c: seq<Block>, got: set<nat>, k: nat, t: State)
    requires s.last in s.blocks && k <= |c| && Midway(f, s, c, got, k, t) && Missing(c, got, [])
    ensures k == |c| && t.last == Before(s, c, |c|) && t.orphans == s.orphans && Fit(f, t)
  {
    hide Fit;
  }

  // From this state on the remaining arrivals complete the line.
  ghost predicate Completes(r: Rules, s: State, c: seq<Block>, k: nat, t: State, arrivals: seq<Arrival>,
                            places: map<TxHash, Place>)
    requires s.last in s.blocks && k <= |c|
  {
    && Fit(r.facts, t) && (forall a :: a in arrivals ==> Genuine(r.facts, a.block)) && AllDefined(r, t, arrivals)
    && RelayAll(r, t, arrivals).last == Before(s, c, |c|) && RelayAll(r, t, arrivals).orphans == s.orphans
    && PlacesAll(r, t, arrivals, WrittenTo(r.facts, s, c, k, places)) == WrittenTo(r.facts, s, c, |c|, places)
  }

  lemma CompletesNone(r: Rules, s: State, c: seq<Block>, got: set<nat>, k: nat, t: State, places: map<TxHash, Place>)
    requires s.last in s.blocks && k <= |c| && Midway(r.facts, s, c, got, k, t) && Missing(c, got, [])
    ensures Completes(r, s, c, k, t, [], places)
  {
    AllHaveCome(r.facts, s, c, got, k, t);
    hide Fit, Midway, Queued, WrittenTo, Before;
  }

  lemma CompletesNext(r: Rules, s: State, c: seq<Block>, k: nat, t: State, arrivals: seq<Arrival>, n: nat,
                      places: map<TxHash, Place>)
    requires s.last in s.blocks && k <= |c| && n <= |c| && arrivals != []
    requires Fit(r.facts, t) && forall a :: a in arrivals ==> Genuine(r.facts, a.block)
    requires !LastVerdict(r, t, arrivals[0]).Undefined()
    requires PlacesAfter(r, t, arrivals[0], WrittenTo(r.facts, s, c, k, places)) == WrittenTo(r.facts, s, c, n, places)
    requires Completes(r, s, c, n, Relay(r, t, arrivals[0]), arrivals[1..], places)
    ensures Completes(r, s, c, k, t, arrivals, places)
  {
    hide Genuine, Relay, LastVerdict, PlacesAfter, WrittenTo, Fit, Before, RelayAll, PlacesAll, AllDefined;
    RelayAllNext(r, t, arrivals, WrittenTo(r.facts, s, c, k, places));
  }

  lemma {:induction false} TheRest(r: Rules, s: State, c: seq<Block>, got: set<nat>, k: nat, t: State,
                                   order: seq<nat>, arrivals: seq<Arrival>, places: map<TxHash, Place>)
    requires s.last in s.blocks && Line(r, s, c) && k <= |c| && Midway(r.facts, s, c, got, k, t)
    requires InOrder(c, order, arrivals) && Missing(c, got, order)
    ensures Completes(r, s, c, k, t, arrivals, places)
    decreases |order|
  {
    hide Queued, Midway, Missing, Genuine, Relay, LastVerdict, PlacesAfter, WrittenTo, Line, Fit, Before, Completes;
    hide InOrder;
    AllGenuine(r, s, c, order, arrivals);
    if order == [] {
      NoneLeft(c, arrivals);
      CompletesNone(r, s, c, got, k, t, places);
    } else {
      OrderRest(c, got, order, arrivals);
      var n := Comes(r, s, c, got, k, t, arrivals[0], order[0], places);
      TheRest(r, s, c, got + {order[0]}, n, Relay(r, t, arrivals[0]), order[1..], arrivals[1..], places);
      CompletesNext(r, s, c, k, t, arrivals, n, places);
    }
  }

  // In whatever order the blocks of a line arrive, no relay goes wrong, and once all have come the
  // last of them is the last block, nothing waits that did not wait before, and the wallet has
  // recorded the same as if each had come after its predecessor.
  lemma AnyOrder(r: Rules, s: State, c: seq<Block>, order: seq<nat>, arrivals: seq<Arrival>, places: map<TxHash, Place>)
    requires Fit(r.facts, s) && Line(r, s, c) && |c| > 0
    requires InOrder(c, order, arrivals) && forall i :: 0 <= i < |c| ==> i in order
    ensures s.last in s.blocks && forall a :: a in arrivals ==> Genuine(r.facts, a.block)
    ensures RelayAll(r, s, arrivals).last == c[|c| - 1].blockHash && RelayAll(r, s, arrivals).orphans == s.orphans
    ensures AllDefined(r, s, arrivals)
    ensures PlacesAll(r, s, arrivals, places) == WrittenTo(r.facts, s, c, |c|, places)
  {
    hide Genuine, Relay, LastVerdict, PlacesAfter, Written, Newcomer, InOrder, Rooted, Known, AllWaiting;
    RootedHasLast(r.facts, s.blocks, s.last);
    forall i | 0 <= i < |c| ensures c[i].blockHash !in s.blocks {
      Links(r, s, c, i);
    }
    TheRest(r, s, c, {}, 0, s, order, arrivals, places);
  }
}
