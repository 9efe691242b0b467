// The linear-probed hash table of LWSet.c.
//
// The first half is about tables as sequences of optional items: which slot a probe stops at, when
// a stored item can be found, and what emptying a slot and re-inserting the rest of its cluster
// does. The second half is the class whose methods update the array in place; each is proved
// against the finite set of items its table holds.
module HashSet {
  import opened Common

  // The two callbacks of a set: its hash function and its equality.
  datatype Keying<!T> = Keying(hash: T -> nat, eq: (T, T) -> bool)

  // What the callbacks must satisfy: `eq` is an equivalence and equal items hash equally.
  ghost predicate Lawful<T(!new)>(k: Keying<T>) {
    && (forall x :: k.eq(x, x))
    && (forall x, y :: k.eq(x, y) ==> k.eq(y, x))
    && (forall x, y, z :: k.eq(x, y) && k.eq(y, z) ==> k.eq(x, z))
    && (forall x, y :: k.eq(x, y) ==> k.hash(x) == k.hash(y))
  }

  // ---------------------------------------------------------------- capacities

  const TABLE_SIZES: seq<nat> :=
    [1, 3, 7, 13, 23, 37, 59, 97, 149] +
    [227, 347, 523, 787, 1187, 1783, 2677, 4019, 6037] +
    [9059, 13591, 20389, 30593, 45887, 68863, 103307, 154981, 232487] +
    [348739, 523129, 784697, 1177067, 1765609, 2648419, 3972643, 5958971, 8938469] +
    [13407707, 20111563, 30167359, 45251077, 67876637, 101814991, 152722489, 229083739, 343625629] +
    [515438447, 773157683, 1159736527, 1739604799, 2609407319, 3914111041]

  const LAST_SIZE: nat := 3914111041

  // The load bound: a table of `size` slots holds at most this many items between calls.
  function LoadLimit(size: nat): nat { (size + 2) / 3 * 2 }

  // The most items a set can ever hold: the load bound of the largest table.
  const MAX_ITEMS: nat := LoadLimit(LAST_SIZE)

  // Sizes a table really has: `tableSizes` entries other than the first.
  ghost predicate IsSize(n: nat) { exists i :: 1 <= i < |TABLE_SIZES| && TABLE_SIZES[i] == n }

  lemma SizesAscend(i: nat)
    requires i + 1 < |TABLE_SIZES|
    ensures TABLE_SIZES[i] + 2 <= TABLE_SIZES[i + 1]
    ensures i > 0 ==> TABLE_SIZES[i] + 4 <= TABLE_SIZES[i + 1]
  {
  }

  lemma {:induction false} SizesOrdered(i: nat, j: nat)
    requires i < j < |TABLE_SIZES|
    ensures TABLE_SIZES[i] + 2 <= TABLE_SIZES[j]
    ensures i > 0 ==> TABLE_SIZES[i] + 4 <= TABLE_SIZES[j]
    decreases j
  {
    SizesAscend(j - 1);
    if i < j - 1 {
      SizesOrdered(i, j - 1);
    }
  }

  // The load bound leaves a free slot in every table the set really uses.
  lemma LoadLeavesRoom(n: nat)
    requires IsSize(n)
    ensures 3 <= n <= LAST_SIZE && LoadLimit(n) < n
    ensures n < LAST_SIZE ==> LoadLimit(n) + 1 <= MAX_ITEMS
  {
    var i :| 1 <= i < |TABLE_SIZES| && TABLE_SIZES[i] == n;
    if 1 < i { SizesOrdered(1, i); }
    if i < |TABLE_SIZES| - 1 { SizesOrdered(i, |TABLE_SIZES| - 1); }
  }

  // ------------------------------------------------------------------- tables

  // A table: each slot is empty or holds an item.
  type Table<+T> = seq<Option<T>>

  function Count<T>(s: Table<T>): (c: nat)
    ensures c <= |s|
  {
    if s == [] then 0 else Count(s[..|s| - 1]) + (if s[|s| - 1].Some? then 1 else 0)
  }

  // The items a table holds.
  ghost function Items<T>(s: Table<T>): set<T> {
    set i | 0 <= i < |s| && s[i].Some? :: s[i].value
  }

  function Home<T>(k: Keying<T>, x: T, n: nat): (h: nat)
    requires n > 0
    ensures h < n
  {
    k.hash(x) % n
  }

  // Slot q comes strictly before slot p when walking upward (with wrap-around) from slot h.
  predicate OnPath(h: nat, p: nat, q: nat) {
    if h <= p then h <= q < p else h <= q || q < p
  }

  // The item in slot p is found by probing: no slot between its home and p is empty.
  ghost predicate Reachable<T>(k: Keying<T>, s: Table<T>, p: nat)
    requires p < |s| && s[p].Some?
  {
    forall q :: 0 <= q < |s| && OnPath(Home(k, s[p].value, |s|), p, q) ==> s[q].Some?
  }

  ghost predicate AllReachable<T>(k: Keying<T>, s: Table<T>) {
    forall p :: 0 <= p < |s| && s[p].Some? ==> Reachable(k, s, p)
  }

  // No two slots hold equal items.
  ghost predicate Distinct<T>(k: Keying<T>, s: Table<T>) {
    forall i, j :: 0 <= i < |s| && 0 <= j < |s| && i != j && s[i].Some? && s[j].Some? ==>
      !k.eq(s[i].value, s[j].value)
  }

  ghost predicate WellFormed<T>(k: Keying<T>, s: Table<T>) {
    Distinct(k, s) && AllReachable(k, s)
  }

  // Probing for x stops at slot p: everything before p is occupied by something else.
  ghost predicate Probed<T>(k: Keying<T>, s: Table<T>, x: T, p: nat) {
    && p < |s|
    && (s[p].Some? ==> k.eq(s[p].value, x))
    && forall q :: 0 <= q < |s| && OnPath(Home(k, x, |s|), p, q) ==> s[q].Some? && !k.eq(s[q].value, x)
  }

  ghost predicate Holds<T(!new)>(k: Keying<T>, items: set<T>, x: T) {
    exists y :: y in items && k.eq(y, x)
  }

  lemma {:induction false} CountUpdate<T>(s: Table<T>, i: nat, v: Option<T>)
    requires i < |s|
    ensures Count(s[i := v]) == Count(s) - (if s[i].Some? then 1 else 0) + (if v.Some? then 1 else 0)
  {
    var m := |s| - 1;
    if i == m {
      assert s[i := v][..m] == s[..m];
    } else {
      assert s[i := v][..m] == s[..m][i := v];
      CountUpdate(s[..m], i, v);
    }
  }

  // Pigeonhole: a table with fewer items than slots has an empty slot.
  lemma {:induction false} EmptySlotExists<T>(s: Table<T>) returns (e: nat)
    requires Count(s) < |s|
    ensures e < |s| && s[e].None?
  {
    if s[|s| - 1].None? {
      e := |s| - 1;
    } else {
      e := EmptySlotExists(s[..|s| - 1]);
    }
  }

  // A probe that ends in an empty slot proves that no equal item is stored.
  lemma ProbeMiss<T(!new)>(k: Keying<T>, s: Table<T>, x: T, p: nat)
    requires Lawful(k) && WellFormed(k, s) && Probed(k, s, x, p) && s[p].None?
    ensures !Holds(k, Items(s), x)
  {
    var h := Home(k, x, |s|);
    forall y | y in Items(s) ensures !k.eq(y, x) {
      var j: nat :| j < |s| && s[j].Some? && s[j].value == y;
      assert Reachable(k, s, j);
      assert j == p || OnPath(h, p, j) || OnPath(h, j, p);
    }
  }

  // Storing x where its probe stopped keeps the table well formed and replaces at most the equal
  // item.
  lemma StoreAtProbe<T(!new)>(k: Keying<T>, s: Table<T>, x: T, p: nat)
    requires Lawful(k) && WellFormed(k, s) && Probed(k, s, x, p)
    ensures WellFormed(k, s[p := Some(x)])
    ensures Items(s[p := Some(x)]) == Items(s) - (if s[p].Some? then {s[p].value} else {}) + {x}
    ensures Count(s[p := Some(x)]) == Count(s) + (if s[p].Some? then 0 else 1)
  {
    var s' := s[p := Some(x)];
    CountUpdate(s, p, Some(x));
    if s[p].None? { ProbeMiss(k, s, x, p); }
    forall j | 0 <= j < |s| && j != p && s[j].Some?
      ensures !k.eq(s[j].value, x) && !k.eq(x, s[j].value)
    {
      assert s[j].value in Items(s);
      assert s[p].Some? ==> k.eq(s[p].value, x) && k.eq(x, s[p].value);
    }
    forall j | 0 <= j < |s'| && s'[j].Some? ensures Reachable(k, s', j) {
      if j != p { assert Reachable(k, s, j); }
    }
    assert Items(s') == Items(s) - (if s[p].Some? then {s[p].value} else {}) + {x} by {
      forall y | y in Items(s) && y != x && !(s[p].Some? && s[p].value == y) ensures y in Items(s') {
        var j: nat :| j < |s| && s[j].Some? && s[j].value == y;
        assert s'[j] == s[j];
      }
      assert s'[p].value == x;
    }
  }

  // -------------------------------------------------------- cleanup on removal

  function Next(i: nat, n: nat): (j: nat)
    requires i < n
    ensures j < n && j == (i + 1) % n
  {
    if i + 1 == n then 0 else i + 1
  }

  lemma EmptySlot<T(!new)>(k: Keying<T>, s: Table<T>, i: nat)
    requires Lawful(k) && Distinct(k, s) && i < |s| && s[i].Some?
    ensures Items(s[i := None]) == Items(s) - {s[i].value}
    ensures Count(s[i := None]) == Count(s) - 1
    ensures Distinct(k, s[i := None])
  {
    CountUpdate(s, i, None);
    var s' := s[i := None];
    forall y | y in Items(s) && y != s[i].value ensures y in Items(s') {
      var j: nat :| j < |s| && s[j].Some? && s[j].value == y;
      assert s'[j] == s[j];
    }
    assert forall j :: 0 <= j < |s| && j != i && s[j].Some? ==> !k.eq(s[i].value, s[j].value);
  }

  lemma FillSlot<T>(s: Table<T>, p: nat, x: T)
    requires p < |s| && s[p].None?
    ensures Items(s[p := Some(x)]) == Items(s) + {x}
    ensures Count(s[p := Some(x)]) == Count(s) + 1
  {
    CountUpdate(s, p, Some(x));
    var s' := s[p := Some(x)];
    forall y | y in Items(s) ensures y in Items(s') {
      var j: nat :| j < |s| && s[j].Some? && s[j].value == y;
      assert s'[j] == s[j];
    }
    assert s'[p].value == x;
  }

  // Slot r of `orig` was emptied, e is the first empty slot after it, and the slots between r and i
  // have been emptied and re-inserted: s is what is left to clean up. Only the items in slots i ..
  // e may still be unreachable.
  ghost predicate Cleanup<T(!new)>(k: Keying<T>, orig: Table<T>, s: Table<T>, r: nat, e: nat, i: nat) {
    && Lawful(k) && WellFormed(k, orig)
    && InCluster(orig, s, r, e, i)
    && Distinct(k, s)
    && CutAt(k, s, e, i)
    && Items(s) == Items(orig) - {orig[r].value}
    && Count(s) == Count(orig) - 1
    && Below(orig, s, r)
  }

  // Outside r .. e, and in the part i .. e still to be scanned, the table is untouched.
  ghost predicate InCluster<T(!new)>(orig: Table<T>, s: Table<T>, r: nat, e: nat, i: nat) {
    && r < |orig| && e < |orig| && i < |orig| && |s| == |orig| && r != e
    && orig[r].Some? && orig[e].None?
    && (forall q :: 0 <= q < |s| && OnPath(r, e, q) ==> orig[q].Some?)
    && (i == e || (i != r && OnPath(r, e, i)))
    && (forall q :: 0 <= q < |s| && !OnPath(r, e, q) ==> s[q] == orig[q])
    && (forall q :: 0 <= q < |s| && OnPath(i, e, q) ==> s[q] == orig[q])
  }

  // No probe path runs through slot e, and only items in i .. e may be unreachable.
  ghost predicate CutAt<T(!new)>(k: Keying<T>, s: Table<T>, e: nat, i: nat) {
    forall p :: 0 <= p < |s| && s[p].Some? ==>
      && !OnPath(Home(k, s[p].value, |s|), p, e)
      && (!OnPath(i, e, p) ==> Reachable(k, s, p))
  }

  // Every item now below slot r was below slot r before.
  ghost predicate Below<T(!new)>(orig: Table<T>, s: Table<T>, r: nat)
    requires r <= |s| && r <= |orig|
  {
    forall q :: 0 <= q < r && s[q].Some? ==> s[q].value in Items(orig[..r])
  }

  lemma CleanupStarts<T(!new)>(k: Keying<T>, orig: Table<T>, r: nat, e: nat)
    requires Lawful(k) && WellFormed(k, orig)
    requires r < |orig| && e < |orig| && r != e && orig[r].Some? && orig[e].None?
    requires forall q :: 0 <= q < |orig| && OnPath(r, e, q) ==> orig[q].Some?
    ensures Cleanup(k, orig, orig[r := None], r, e, Next(r, |orig|))
  {
    var s := orig[r := None];
    var i := Next(r, |orig|);
    EmptySlot(k, orig, r);
    forall p | 0 <= p < |s| && s[p].Some?
      ensures !OnPath(Home(k, s[p].value, |s|), p, e)
      ensures !OnPath(i, e, p) ==> Reachable(k, s, p)
    {
      assert Reachable(k, orig, p);
    }
    forall q | 0 <= q < r && s[q].Some? ensures s[q].value in Items(orig[..r]) {
      assert orig[..r][q].value == s[q].value;
    }
  }

  // Where a probe for the item of slot i stops once that slot is empty: at i or earlier, inside the
  // cluster.
  lemma ReinsertSlot<T(!new)>(k: Keying<T>, orig: Table<T>, s: Table<T>, r: nat, e: nat, i: nat, p: nat)
    requires Cleanup(k, orig, s, r, e, i) && i != e
    requires s[i].Some? && Probed(k, s[i := None], s[i].value, p)
    ensures s[i := None][p].None? && s[i] == orig[i]
    ensures OnPath(r, e, p) && (p == i || !OnPath(i, e, p))
    ensures p == i || OnPath(Home(k, s[i].value, |s|), i, p)
    ensures p < r ==> i < r
  {
    var t := s[i].value;
    var s1 := s[i := None];
    var h := Home(k, t, |s|);
    EmptySlot(k, s, i);
    assert forall w :: 0 <= w < |s| && s1[w].Some? ==> !k.eq(s1[w].value, t);
    assert !OnPath(h, p, i);
    assert !OnPath(h, i, e);
    assert Reachable(k, orig, i);
  }

  lemma ReinsertReachable<T(!new)>(k: Keying<T>, s: Table<T>, e: nat, i: nat, p: nat, w: nat)
    requires e < |s| && i < |s| && i != e && s[i].Some? && s[e].None?
    requires Probed(k, s[i := None], s[i].value, p) && s[i := None][p].None? && p != e
    requires p == i || OnPath(Home(k, s[i].value, |s|), i, p)
    requires !OnPath(Home(k, s[i].value, |s|), i, e)
    requires w < |s| && s[i := None][p := s[i]][w].Some?
    requires w != p && w != i ==>
      !OnPath(Home(k, s[w].value, |s|), w, e) && (!OnPath(i, e, w) ==> Reachable(k, s, w))
    ensures var s2 := s[i := None][p := s[i]];
      && !OnPath(Home(k, s2[w].value, |s|), w, e)
      && (!OnPath(Next(i, |s|), e, w) ==> Reachable(k, s2, w))
  {
    var s2 := s[i := None][p := s[i]];
    if w != p {
      assert s2[w] == s[w];
      assert Next(i, |s|) == i + 1 || Next(i, |s|) == 0;
      assert OnPath(i, e, w) ==> OnPath(Next(i, |s|), e, w);
    }
  }

  lemma ReinsertCluster<T(!new)>(orig: Table<T>, s: Table<T>, r: nat, e: nat, i: nat, p: nat)
    requires InCluster(orig, s, r, e, i) && i != e && p < |s|
    requires OnPath(r, e, p) && (p == i || !OnPath(i, e, p)) && s[i].Some?
    requires Below(orig, s, r) && (p < r ==> i < r) && s[i] == orig[i]
    ensures InCluster(orig, s[i := None][p := s[i]], r, e, Next(i, |s|))
    ensures Below(orig, s[i := None][p := s[i]], r)
  {
    var s2 := s[i := None][p := s[i]];
    var i' := Next(i, |s|);
    assert i' == e || (i' != r && OnPath(r, e, i'));
    forall q | 0 <= q < |s| && OnPath(i', e, q) ensures s2[q] == orig[q] {
      assert OnPath(i, e, q) && q != i;
    }
    forall q | 0 <= q < r && s2[q].Some? ensures s2[q].value in Items(orig[..r]) {
      if q == p {
        assert orig[..r][i] == orig[i];
      }
    }
  }

  // Emptying slot i and storing its item where a probe stops moves the cleanup one slot on.
  lemma CleanupStep<T(!new)>(k: Keying<T>, orig: Table<T>, s: Table<T>, r: nat, e: nat, i: nat, p: nat)
    requires Cleanup(k, orig, s, r, e, i) && i != e
    requires s[i].Some? && Probed(k, s[i := None], s[i].value, p)
    ensures s[i := None][p].None?
    ensures Cleanup(k, orig, s[i := None][p := s[i]], r, e, Next(i, |s|))
  {
    var s1 := s[i := None];
    var s2 := s1[p := s[i]];
    ReinsertSlot(k, orig, s, r, e, i, p);
    ReinsertCluster(orig, s, r, e, i, p);
    assert CutAt(k, s2, e, Next(i, |s|)) by {
      forall w | 0 <= w < |s| && s2[w].Some?
        ensures !OnPath(Home(k, s2[w].value, |s|), w, e)
        ensures !OnPath(Next(i, |s|), e, w) ==> Reachable(k, s2, w)
      {
        ReinsertReachable(k, s, e, i, p, w);
      }
    }
    Refill(k, s, i, p);
  }

  // Moving an item between slots changes neither the items nor their number.
  lemma Refill<T(!new)>(k: Keying<T>, s: Table<T>, i: nat, p: nat)
    requires Lawful(k) && Distinct(k, s) && i < |s| && s[i].Some?
    requires p < |s| && s[i := None][p].None?
    ensures var s2 := s[i := None][p := s[i]];
      Items(s2) == Items(s) && Count(s2) == Count(s) && Distinct(k, s2)
  {
    var s1 := s[i := None];
    var s2 := s1[p := s[i]];
    EmptySlot(k, s, i);
    FillSlot(s1, p, s[i].value);
    assert s[i].value in Items(s);
    assert forall w :: 0 <= w < |s| && w != i && s[w].Some? ==>
      !k.eq(s[i].value, s[w].value) && !k.eq(s[w].value, s[i].value);
  }

  lemma CleanupEnds<T(!new)>(k: Keying<T>, orig: Table<T>, s: Table<T>, r: nat, e: nat)
    requires Cleanup(k, orig, s, r, e, e)
    ensures WellFormed(k, s)
  {
    assert forall p :: 0 <= p < |s| ==> !OnPath(e, e, p);
  }

  // The first empty slot at or after slot i, walking upward with wrap-around.
  lemma FirstEmpty<T>(s: Table<T>, i: nat) returns (e: nat)
    requires i < |s| && Count(s) < |s|
    ensures e < |s| && s[e].None?
    ensures forall q :: 0 <= q < |s| && OnPath(i, e, q) ==> s[q].Some?
  {
    e := i;
    var z := EmptySlotExists(s);
    while s[e].Some?
      invariant e < |s| && !OnPath(i, e, z)
      invariant forall q :: 0 <= q < |s| && OnPath(i, e, q) ==> s[q].Some?
      decreases if e <= z then z - e else z + |s| - e
    {
      e := Next(e, |s|);
    }
  }

  // -------------------------------------------------------------------- class

  // Storing `item` turned `before` into `after`; t is the equal item it replaced, if there was one.
  ghost predicate Stored<T(!new)>(k: Keying<T>, before: set<T>, item: T, t: Option<T>, after: set<T>) {
    && (t.Some? ==> t.value in before && k.eq(t.value, item))
    && (t.None? ==> !Holds(k, before, item))
    && after == before - (if t.Some? then {t.value} else {}) + {item}
  }

  // Removing `item` turned `before` into `after`; t is the equal item it held, if there was one.
  ghost predicate Removed<T(!new)>(k: Keying<T>, before: set<T>, item: T, t: Option<T>, after: set<T>) {
    && (t.Some? ==> t.value in before && k.eq(t.value, item))
    && (forall y :: y in after <==> y in before && !k.eq(y, item))
  }

  // Adding the items of `s`, slot by slot, to a set of items: each replaces the equal one if any.
  ghost function AddAll<T(!new)>(k: Keying<T>, items: set<T>, s: Table<T>): set<T> {
    (set x | x in items && !Holds(k, Items(s), x)) + Items(s)
  }

  class LWSet<T(==,!new)> {
    const keys: Keying<T>
    var table: array<Option<T>>
    var size: nat
    var itemCount: nat

    // Bookkeeping that holds even while a removal is being cleaned up.
    ghost predicate Counted()
      reads this, table
    {
      && Lawful(keys)
      && IsSize(size) && table.Length == size
      && itemCount == Count(table[..]) <= LoadLimit(size)
    }

    ghost predicate Valid()
      reads this, table
    {
      Counted() && WellFormed(keys, table[..])
    }

    ghost function Contents(): set<T>
      reads this, table
    {
      Items(table[..])
    }

    // A new empty set.
    constructor (keys: Keying<T>, capacity: nat)
      requires Lawful(keys)
      requires capacity <= TABLE_SIZES[49]
      ensures this.keys == keys && fresh(table)
      ensures Valid() && Contents() == {} && itemCount == 0
      ensures capacity < size
    {
      var i := 0;
      while i < |TABLE_SIZES| && TABLE_SIZES[i] < capacity
        invariant 0 <= i <= 49
      {
        i := i + 1;
      }
      SizesAscend(i);
      table := new Option<T>[TABLE_SIZES[i + 1]](_ => None);
      size := TABLE_SIZES[i + 1];
      itemCount := 0;
      this.keys := keys;
      new;
      CountNone(table[..]);
    }

    // The probe loop of add, remove and get: the slot where a search for `item` stops.
    method Probe(item: T) returns (i: nat)
      requires Lawful(keys) && table.Length == size && Count(table[..]) < size
      ensures i < size && Probed(keys, table[..], item, i)
    {
      ghost var e := EmptySlotExists(table[..]);
      ghost var h := Home(keys, item, size);
      i := keys.hash(item) % size;
      while table[i].Some? && table[i].value != item && !keys.eq(table[i].value, item)
        invariant i < size && !OnPath(h, i, e)
        invariant forall q :: 0 <= q < size && OnPath(h, i, q) ==>
          table[q].Some? && !keys.eq(table[q].value, item)
        decreases if i <= e then e - i else e + size - i
      {
        i := Next(i, size);
      }
    }

    // The stored item equal to `item`, if any.
    method Get(item: T) returns (t: Option<T>)
      requires Valid()
      ensures t.Some? ==> t.value in Contents() && keys.eq(t.value, item)
      ensures t.None? ==> !Holds(keys, Contents(), item)
    {
      LoadLeavesRoom(size);
      var i := Probe(item);
      t := table[i];
      if t.None? {
        ProbeMiss(keys, table[..], item, i);
      }
    }

    method Contains(item: T) returns (b: bool)
      requires Valid()
      ensures b <==> Holds(keys, Contents(), item)
    {
      var t := Get(item);
      b := t.Some?;
    }

    // Adds `item`, or replaces the equal item, which is returned. Below the load bound the item
    // goes where its probe stops even if the table is not well formed; that is the state in which a
    // removal calls this method.
    method Add(item: T) returns (t: Option<T>, ghost p: nat)
      requires Counted() && itemCount < MAX_ITEMS
      requires itemCount < LoadLimit(size) || Valid()
      modifies this, table
      ensures Counted() && size >= old(size) && (table == old(table) || fresh(table))
      ensures p < old(size) && Probed(keys, old(table[..]), item, p) && t == old(table[..])[p]
      ensures itemCount == old(itemCount) + (if t.None? then 1 else 0)
      ensures old(itemCount) < LoadLimit(old(size)) ==>
        table == old(table) && size == old(size) && table[..] == old(table[..])[p := Some(item)]
      ensures old(Valid()) ==> Valid()
      ensures old(Valid()) ==> Stored(keys, old(Contents()), item, t, Contents())
      decreases LAST_SIZE - size, 1
    {
      LoadLeavesRoom(size);
      var i := Probe(item);
      p := i;
      t := table[i];
      if t.None? { itemCount := itemCount + 1; }
      table[i] := Some(item);
      ghost var was := old(table[..]);
      assert table[..] == was[i := Some(item)];
      CountUpdate(was, i, Some(item));
      if old(Valid()) {
        StoreAtProbe(keys, was, item, i);
        if t.None? { ProbeMiss(keys, was, item, i); }
      }
      if itemCount > LoadLimit(size) {
        Grow(size);
      }
    }

    // Rebuilds the table in the next larger size.
    method Grow(capacity: nat)
      requires Lawful(keys) && IsSize(size) && size < LAST_SIZE && table.Length == size == capacity
      requires WellFormed(keys, table[..]) && itemCount == Count(table[..]) == LoadLimit(size) + 1
      modifies this
      ensures Valid() && Contents() == old(Contents()) && itemCount == old(itemCount)
      ensures fresh(table) && size > old(size)
      decreases LAST_SIZE - size, 0
    {
      LoadLeavesRoom(size);
      NotLast(size);
      var newSet := new LWSet(keys, capacity);
      newSet.Union(this);
      assert newSet.Contents() == Contents();
      CountIsCardinality(keys, newSet.table[..]);
      CountIsCardinality(keys, table[..]);
      table := newSet.table;
      size := newSet.size;
      itemCount := newSet.itemCount;
    }

    // Adds or replaces the items of `other`.
    method Union(other: LWSet<T>)
      requires Valid()
      requires other != this && other.table != table
      requires other.keys == keys && other.table.Length == other.size && Distinct(keys, other.table[..])
      requires itemCount + Count(other.table[..]) <= MAX_ITEMS
      modifies this, table
      ensures Valid() && size >= old(size) && (table == old(table) || fresh(table))
      ensures Contents() == AddAll(keys, old(Contents()), other.table[..])
      ensures itemCount <= old(itemCount) + Count(other.table[..])
      decreases LAST_SIZE - size, 2
    {
      var i := 0;
      ghost var s := other.table[..];
      ghost var was := Contents();
      LoadLeavesRoom(size);
      while i < other.size
        invariant 0 <= i <= other.size && other.table[..] == s && other.table != table
        invariant Valid() && size >= old(size) && (table == old(table) || fresh(table))
        invariant Contents() == AddAll(keys, was, s[..i])
        invariant itemCount <= old(itemCount) + Count(s[..i])
      {
        var t := other.table[i];
        CountPrefix(s, i);
        if t.Some? {
          ghost var before := Contents();
          DistinctItems(keys, table[..]);
          LoadLeavesRoom(size);
          var r, p := Add(t.value);
          AddAllStep(keys, was, s, i, before, r, Contents());
        } else {
          ItemsPrefix(s, i);
        }
        i := i + 1;
      }
      assert s[..i] == s;
    }

    // Removes the item equal to `item`, returning it. The rest of its cluster is emptied slot by
    // slot and re-inserted; r is the slot that was freed.
    method Remove(item: T) returns (t: Option<T>, ghost r: nat)
      requires Valid()
      modifies this, table
      ensures Valid() && table == old(table) && size == old(size)
      ensures r < size && Probed(keys, old(table[..]), item, r) && t == old(table[..])[r]
      ensures Removed(keys, old(Contents()), item, t, Contents())
      ensures t.None? ==> table[..] == old(table[..])
      ensures t.Some? ==> Below(old(table[..]), table[..], r)
    {
      hide Distinct, AllReachable, OnPath, Below;
      LoadLeavesRoom(size);
      var i := Probe(item);
      r := i;
      t := table[i];
      ghost var orig := table[..];
      if t.None? {
        ProbeMiss(keys, orig, item, i);
        return;
      }
      ghost var e := FirstEmpty(orig, i);
      CleanupStarts(keys, orig, r, e);
      itemCount := itemCount - 1;
      table[i] := None;
      assert table[..] == orig[r := None];
      CleanUp(Next(i, size), orig, r, e);
      assert t.value in Items(orig);
      OnlyEqual(keys, orig, t.value, item);
    }

    // The cleanup loop of Remove, started at the slot after the freed one.
    method CleanUp(start: nat, ghost orig: Table<T>, ghost r: nat, ghost e: nat)
      requires IsSize(size) && table.Length == size && start < size
      requires Cleanup(keys, orig, table[..], r, e, start)
      requires itemCount == Count(table[..]) < LoadLimit(size)
      modifies this, table
      ensures Valid() && table == old(table) && size == old(size) && itemCount == old(itemCount)
      ensures Items(table[..]) == Items(orig) - {orig[r].value} && Below(orig, table[..], r)
    {
      var i: nat := start;
      while table[i].Some?
        invariant table == old(table) && size == old(size) == table.Length && i < size
        invariant Cleanup(keys, orig, table[..], r, e, i)
        invariant itemCount == old(itemCount) == Count(table[..])
        decreases if i <= e then e - i else e + size - i
      {
        i := Reinsert(i, orig, r, e);
      }
      assert i == e;
      CleanupEnds(keys, orig, table[..], r, e);
    }

    // One round of the cleanup loop of Remove: empty slot i and add its item again.
    method Reinsert(i: nat, ghost orig: Table<T>, ghost r: nat, ghost e: nat) returns (j: nat)
      requires IsSize(size) && table.Length == size && i < size && i != e
      requires Cleanup(keys, orig, table[..], r, e, i) && table[i].Some?
      requires itemCount == Count(table[..]) < LoadLimit(size)
      modifies this, table
      ensures table == old(table) && size == old(size) && j == Next(i, size)
      ensures Cleanup(keys, orig, table[..], r, e, j)
      ensures itemCount == old(itemCount) == Count(table[..])
    {
      var t := table[i];
      ghost var s := table[..];
      EmptySlot(keys, s, i);
      itemCount := itemCount - 1;
      table[i] := None;
      assert table[..] == s[i := None];
      LoadLeavesRoom(size);
      var u, p := Add(t.value);
      CleanupStep(keys, orig, s, r, e, i, p);
      j := Next(i, size);
    }

    // Removes every item.
    method Clear()
      requires Valid()
      modifies this, table
      ensures Valid() && Contents() == {} && itemCount == 0 && size == old(size) && table == old(table)
    {
      forall i | 0 <= i < table.Length { table[i] := None; }
      itemCount := 0;
      CountNone(table[..]);
    }

    // True iff some item of `other` is held.
    method Intersects(other: LWSet<T>) returns (b: bool)
      requires Valid() && other.table.Length == other.size
      ensures b <==> exists y :: y in other.Contents() && Holds(keys, Contents(), y)
    {
      var i := 0;
      while i < other.size
        invariant 0 <= i <= other.size
        invariant forall j :: 0 <= j < i && other.table[j].Some? ==> !Holds(keys, Contents(), other.table[j].value)
      {
        var t := other.table[i];
        if t.Some? {
          var u := Get(t.value);
          if u.Some? {
            assert t.value in other.Contents();
            return true;
          }
        }
        i := i + 1;
      }
      b := false;
    }

    // Removes the items that `other` holds.
    method Minus(other: LWSet<T>)
      requires Valid() && other.table.Length == other.size
      requires other != this && other.table != table
      modifies this, table
      ensures Valid() && table == old(table) && size == old(size)
      ensures Contents() == set x | x in old(Contents()) && !Holds(keys, other.Contents(), x)
    {
      var i := 0;
      ghost var s := other.table[..];
      ghost var was := Contents();
      while i < other.size
        invariant 0 <= i <= other.size && other.table[..] == s
        invariant Valid() && table == old(table) && size == old(size)
        invariant Contents() == Without(keys, was, Items(s[..i]))
      {
        var t := other.table[i];
        ItemsPrefix(s, i);
        if t.Some? {
          ghost var before := Contents();
          var u, r := Remove(t.value);
          WithoutStep(keys, was, Items(s[..i]), t.value, before, u, Contents());
        }
        i := i + 1;
      }
      assert s[..i] == s;
    }

    // Removes the items that `other` does not hold, while scanning the very table the removals
    // rearrange: an item never moves from the part still to be scanned into the part already
    // scanned.
    method Intersect(other: LWSet<T>)
      requires Valid() && other.Valid() && other.keys == keys
      requires other != this && other.table != table
      modifies this, table
      ensures Valid() && table == old(table) && size == old(size)
      ensures Contents() == set x | x in old(Contents()) && Holds(keys, other.Contents(), x)
    {
      var i := 0;
      ghost var was := Contents();
      while i < size
        invariant 0 <= i <= size
        invariant Valid() && table == old(table) && size == old(size)
        invariant other.Valid() && other.Contents() == old(other.Contents())
        invariant Intersecting(keys, was, other.Contents(), table[..], i)
        decreases itemCount, size - i
      {
        var t := table[i];
        ghost var s := table[..];
        var keep := true;
        if t.Some? { keep := other.Contains(t.value); }
        if !keep {
          SlotProbed(keys, s, i);
          var u, r := Remove(t.value);
          CountIsCardinality(keys, s);
          CountIsCardinality(keys, table[..]);
          IntersectRemoves(keys, was, other.Contents(), s, i, table[..]);
        } else {
          ItemsPrefix(s, i);
          i := i + 1;
        }
      }
      assert table[..i] == table[..];
    }
  }

  lemma {:induction false} CountNone<T>(s: Table<T>)
    requires forall i :: 0 <= i < |s| ==> s[i].None?
    ensures Count(s) == 0
  {
    if s != [] { CountNone(s[..|s| - 1]); }
  }

  lemma {:induction false} CountPrefix<T>(s: Table<T>, i: nat)
    requires i < |s|
    ensures Count(s[..i + 1]) == Count(s[..i]) + (if s[i].Some? then 1 else 0)
    ensures Count(s[..i + 1]) <= Count(s)
  {
    var m := |s| - 1;
    if i == m {
      assert s[..i + 1] == s;
    } else {
      assert s[..m][..i + 1] == s[..i + 1] && s[..m][..i] == s[..i];
      CountPrefix(s[..m], i);
    }
  }

  lemma ItemsPrefix<T>(s: Table<T>, i: nat)
    requires i < |s|
    ensures Items(s[..i + 1]) == Items(s[..i]) + (if s[i].Some? then {s[i].value} else {})
  {
    var a, b := s[..i], s[..i + 1];
    forall y | y in Items(a) ensures y in Items(b) {
      var j: nat :| j < |a| && a[j].Some? && a[j].value == y;
      assert b[j] == a[j];
    }
    assert b[i] == s[i];
  }

  // `itemCount` really is the number of stored items.
  lemma {:induction false} CountIsCardinality<T(!new)>(k: Keying<T>, s: Table<T>)
    requires Lawful(k) && Distinct(k, s)
    ensures Count(s) == |Items(s)|
  {
    if s == [] {
      assert Items(s) == {};
    } else {
      var m := |s| - 1;
      var a := s[..m];
      assert Distinct(k, a) by {
        assert forall j :: 0 <= j < m ==> a[j] == s[j];
      }
      CountIsCardinality(k, a);
      assert Items(s) == Items(a) + (if s[m].Some? then {s[m].value} else {}) by {
        ItemsPrefix(s, m);
        assert s[..m + 1] == s;
      }
      if s[m].Some? {
        assert s[m].value !in Items(a) by {
          assert forall j :: 0 <= j < m && s[j].Some? ==> !k.eq(s[j].value, s[m].value);
        }
      }
    }
  }

  ghost predicate PairwiseUnequal<T(!new)>(k: Keying<T>, items: set<T>) {
    forall x, y :: x in items && y in items && x != y ==> !k.eq(x, y)
  }

  lemma DistinctItems<T(!new)>(k: Keying<T>, s: Table<T>)
    requires Distinct(k, s)
    ensures PairwiseUnequal(k, Items(s))
  {
  }

  // One step of a union: adding the item of slot i to what the earlier slots made.
  lemma AddAllStep<T(!new)>(k: Keying<T>, was: set<T>, s: Table<T>, i: nat, before: set<T>, r: Option<T>,
                                after: set<T>)
    requires Lawful(k) && Distinct(k, s) && i < |s| && s[i].Some?
    requires before == AddAll(k, was, s[..i]) && PairwiseUnequal(k, before)
    requires Stored(k, before, s[i].value, r, after)
    ensures AddAll(k, was, s[..i + 1]) == after
  {
    var x := s[i].value;
    ItemsPrefix(s, i);
    var a := Items(s[..i]);
    assert forall y :: y in a ==> !k.eq(y, x);
    forall y | y in was
      ensures Holds(k, a + {x}, y) <==> Holds(k, a, y) || k.eq(x, y)
    {
      if Holds(k, a, y) {
        var z :| z in a && k.eq(z, y);
        assert z in a + {x};
      }
      assert x in a + {x};
    }
    if r.Some? {
      forall y | y in before && k.eq(y, x) ensures y == r.value {
        assert k.eq(r.value, y);
      }
    }
  }

  lemma NotLast(n: nat)
    requires IsSize(n) && n < LAST_SIZE
    ensures n <= TABLE_SIZES[49]
  {
    var i :| 1 <= i < |TABLE_SIZES| && TABLE_SIZES[i] == n;
    if i < 49 { SizesOrdered(i, 49); }
  }

  ghost function Without<T(!new)>(k: Keying<T>, items: set<T>, gone: set<T>): set<T> {
    set x | x in items && !Holds(k, gone, x)
  }

  lemma OnlyEqual<T(!new)>(k: Keying<T>, s: Table<T>, t: T, x: T)
    requires Lawful(k) && Distinct(k, s) && t in Items(s) && k.eq(t, x)
    ensures forall y :: y in Items(s) && k.eq(y, x) ==> y == t
  {
    DistinctItems(k, s);
    forall y | y in Items(s) && k.eq(y, x) ensures y == t {
      assert k.eq(t, y);
    }
  }

  lemma WithoutStep<T(!new)>(k: Keying<T>, was: set<T>, gone: set<T>, x: T, before: set<T>, t: Option<T>,
                             after: set<T>)
    requires Lawful(k) && before == Without(k, was, gone) && Removed(k, before, x, t, after)
    ensures after == Without(k, was, gone + {x})
  {
    forall y ensures Holds(k, gone + {x}, y) <==> Holds(k, gone, y) || k.eq(y, x) {
      if Holds(k, gone, y) {
        var z :| z in gone && k.eq(z, y);
        assert z in gone + {x};
      }
      assert x in gone + {x};
    }
  }

  // A probe for a stored item stops at the slot that stores it.
  lemma SlotProbed<T(!new)>(k: Keying<T>, s: Table<T>, i: nat)
    requires Lawful(k) && WellFormed(k, s) && i < |s| && s[i].Some?
    ensures forall p :: Probed(k, s, s[i].value, p) ==> p == i
  {
    var h := Home(k, s[i].value, |s|);
    assert Reachable(k, s, i);
    forall p | Probed(k, s, s[i].value, p) ensures p == i {
      assert p == i || OnPath(h, p, i) || OnPath(h, i, p);
    }
  }

  // Where Intersect stands at slot i: everything below i is in `others`, and no item that is in
  // `others` has been lost.
  ghost predicate Intersecting<T(!new)>(k: Keying<T>, was: set<T>, others: set<T>, s: Table<T>, i: nat)
    requires i <= |s|
  {
    && Items(s) <= was
    && (forall x :: x in was && Holds(k, others, x) ==> x in Items(s))
    && (forall x :: x in Items(s[..i]) ==> Holds(k, others, x))
  }

  lemma IntersectRemoves<T(!new)>(k: Keying<T>, was: set<T>, others: set<T>, s: Table<T>, i: nat, s': Table<T>)
    requires Lawful(k) && i < |s| == |s'| && s[i].Some? && Intersecting(k, was, others, s, i)
    requires !Holds(k, others, s[i].value)
    requires Removed(k, Items(s), s[i].value, s[i], Items(s')) && Below(s, s', i)
    ensures Intersecting(k, was, others, s', i)
    ensures |Items(s')| < |Items(s)|
  {
    var gone := s[i].value;
    forall x | x in was && Holds(k, others, x) ensures x in Items(s') {
      var z :| z in others && k.eq(z, x);
      assert k.eq(x, gone) ==> k.eq(z, gone);
    }
    forall x | x in Items(s'[..i]) ensures Holds(k, others, x) {
      var q: nat :| q < i && s'[..i][q].Some? && s'[..i][q].value == x;
      assert s'[q].value in Items(s[..i]);
    }
    assert s[i].value in Items(s) && s[i].value !in Items(s');
    assert Items(s') <= Items(s) - {s[i].value};
    Subset(Items(s'), Items(s) - {s[i].value});
  }
}
