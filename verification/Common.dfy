// Small datatypes and facts about lists and sets shared by the other modules.
module Common {
  // One more than the largest 32-bit and 64-bit words.
  const W32: int := 0x1_0000_0000
  const W64: int := 0x1_0000_0000_0000_0000

  // A pointer that may be NULL, or a lookup that may fail.
  datatype Option<+T> = None | Some(value: T)

  function Members<T(==)>(s: seq<T>): set<T> {
    set x | x in s
  }

  ghost predicate NoneTwice<T>(s: seq<T>) {
    forall j, k :: 0 <= j < k < |s| ==> s[j] != s[k]
  }

  lemma Subset<T>(a: set<T>, b: set<T>)
    requires a <= b
    ensures |a| <= |b|
  {
    assert b == a + (b - a);
  }

  lemma SmallerSet<T>(a: set<T>, b: set<T>)
    requires a < b
    ensures |a| < |b|
  {
    assert b == a + (b - a);
  }
}
