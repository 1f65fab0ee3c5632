/**
 * `obtenerMasReciente`: sort the candidates in place, newest first, and take
 * the head. JavaScript's `Array.prototype.sort` is stable, so items with the
 * same date keep their relative order; the sort is modelled as a stable
 * insertion sort, which yields the same (unique) stable result.
 */
module Recency {
  import opened Wrappers
  import opened News

  /** Publication dates never increase along `s`. */
  predicate NewestFirst(s: seq<Item>) {
    forall i, j :: 0 <= i < j < |s| ==> s[i].pubDate >= s[j].pubDate
  }

  /** Where a stable insertion puts `x` into `sorted`: after every item at least as new as `x`. */
  function InsertPos(sorted: seq<Item>, x: Item): (k: nat)
    ensures k <= |sorted|
    decreases |sorted|
  {
    if sorted == [] then 0
    else if sorted[|sorted| - 1].pubDate >= x.pubDate then |sorted|
    else InsertPos(sorted[..|sorted| - 1], x)
  }

  function Insert(sorted: seq<Item>, x: Item): seq<Item> {
    var k := InsertPos(sorted, x);
    sorted[..k] + [x] + sorted[k..]
  }

  /** The array a stable newest-first sort leaves. */
  function SortNewestFirst(s: seq<Item>): seq<Item>
    decreases |s|
  {
    if s == [] then [] else Insert(SortNewestFirst(s[..|s| - 1]), s[|s| - 1])
  }

  /** In a newest-first sequence, `x` goes after the items at least as new and before the older ones. */
  lemma {:induction false} InsertPosSplits(sorted: seq<Item>, x: Item)
    requires NewestFirst(sorted)
    ensures forall i :: 0 <= i < InsertPos(sorted, x) ==> sorted[i].pubDate >= x.pubDate
    ensures forall i :: InsertPos(sorted, x) <= i < |sorted| ==> sorted[i].pubDate < x.pubDate
    decreases |sorted|
  {
    if sorted != [] && sorted[|sorted| - 1].pubDate < x.pubDate {
      InsertPosSplits(sorted[..|sorted| - 1], x);
    }
  }

  lemma InsertKeepsOrder(sorted: seq<Item>, x: Item)
    requires NewestFirst(sorted)
    ensures NewestFirst(Insert(sorted, x))
  {
    InsertPosSplits(sorted, x);
  }

  /** The sorted array is newest first. */
  lemma {:induction false} SortIsNewestFirst(s: seq<Item>)
    ensures NewestFirst(SortNewestFirst(s))
    decreases |s|
  {
    if s != [] {
      SortIsNewestFirst(s[..|s| - 1]);
      InsertKeepsOrder(SortNewestFirst(s[..|s| - 1]), s[|s| - 1]);
    }
  }

  lemma InsertAddsOne(sorted: seq<Item>, x: Item)
    ensures multiset(Insert(sorted, x)) == multiset(sorted) + multiset{x}
  {
    var k := InsertPos(sorted, x);
    assert sorted == sorted[..k] + sorted[k..];
  }

  /** The sorted array holds the same items, each as often, as before. */
  lemma {:induction false} SortIsPermutation(s: seq<Item>)
    ensures multiset(SortNewestFirst(s)) == multiset(s)
    decreases |s|
  {
    if s != [] {
      var init, x := s[..|s| - 1], s[|s| - 1];
      SortIsPermutation(init);
      InsertAddsOne(SortNewestFirst(init), x);
      assert s == init + [x];
    }
  }

  /** The items of `s` published at time `d`, in order. */
  function Dated(s: seq<Item>, d: int): (r: seq<Item>)
    decreases |s|
  {
    if s == [] then []
    else Dated(s[..|s| - 1], d) + if s[|s| - 1].pubDate == d then [s[|s| - 1]] else []
  }

  lemma {:induction false} DatedAppend(a: seq<Item>, b: seq<Item>, d: int)
    ensures Dated(a + b, d) == Dated(a, d) + Dated(b, d)
    decreases |b|
  {
    if b == [] {
      assert a + b == a;
    } else {
      var b' := b[..|b| - 1];
      assert (a + b)[..|a + b| - 1] == a + b';
      assert (a + b)[|a + b| - 1] == b[|b| - 1];
      DatedAppend(a, b', d);
    }
  }

  lemma {:induction false} DatedNone(s: seq<Item>, d: int)
    requires forall i :: 0 <= i < |s| ==> s[i].pubDate != d
    ensures Dated(s, d) == []
    decreases |s|
  {
    if s != [] {
      DatedNone(s[..|s| - 1], d);
    }
  }

  /** Inserting `x` adds it to the items of its date, after those already there. */
  lemma DatedInsert(t: seq<Item>, x: Item, d: int)
    requires NewestFirst(t)
    ensures Dated(Insert(t, x), d) == Dated(t, d) + if x.pubDate == d then [x] else []
  {
    var k := InsertPos(t, x);
    InsertPosSplits(t, x);
    assert t == t[..k] + t[k..];
    assert Insert(t, x) == (t[..k] + [x]) + t[k..];
    DatedAppend(t[..k] + [x], t[k..], d);
    assert (t[..k] + [x])[..k] == t[..k];
    DatedAppend(t[..k], t[k..], d);
    if x.pubDate == d {
      DatedNone(t[k..], d);
    }
  }

  /** Stability: for every date, the items of that date appear in the sorted array in their original order. */
  lemma {:induction false} SortIsStable(s: seq<Item>, d: int)
    ensures Dated(SortNewestFirst(s), d) == Dated(s, d)
    decreases |s|
  {
    if s != [] {
      var init, x := s[..|s| - 1], s[|s| - 1];
      SortIsStable(init, d);
      SortIsNewestFirst(init);
      DatedInsert(SortNewestFirst(init), x, d);
    }
  }

  /** The index of the first item, in the original order, with the latest date. */
  function FirstNewest(s: seq<Item>): (i: nat)
    requires s != []
    ensures i < |s|
    ensures forall j :: 0 <= j < |s| ==> s[j].pubDate <= s[i].pubDate
    ensures forall j :: 0 <= j < i ==> s[j].pubDate < s[i].pubDate
    decreases |s|
  {
    if |s| == 1 then 0
    else
      var k := FirstNewest(s[..|s| - 1]);
      if s[|s| - 1].pubDate > s[k].pubDate then |s| - 1 else k
  }

  /**
   * The head of the sorted array is the first of the newest items: an item of
   * `s`, at least as new as every other, and ties go to the earlier one.
   */
  lemma {:induction false} SortHeadIsFirstNewest(s: seq<Item>)
    requires s != []
    ensures SortNewestFirst(s) != []
    ensures SortNewestFirst(s)[0] == s[FirstNewest(s)]
    decreases |s|
  {
    var init, x := s[..|s| - 1], s[|s| - 1];
    var t := SortNewestFirst(init);
    if init == [] {
      assert t == [];
    } else {
      SortHeadIsFirstNewest(init);
      SortIsNewestFirst(init);
      InsertPosSplits(t, x);
      var k := InsertPos(t, x);
      var m := FirstNewest(init);
      if x.pubDate > init[m].pubDate {
        assert k == 0;
      } else {
        assert k > 0;
        assert s[m] == init[m];
      }
    }
  }

  /** `j` is the insertion point when the item before it is at least as new as `x` and those from it on are older. */
  lemma {:induction false} InsertPosAt(sorted: seq<Item>, x: Item, j: nat)
    requires j <= |sorted|
    requires j == 0 || sorted[j - 1].pubDate >= x.pubDate
    requires forall k :: j <= k < |sorted| ==> sorted[k].pubDate < x.pubDate
    ensures InsertPos(sorted, x) == j
    decreases |sorted|
  {
    if j < |sorted| {
      InsertPosAt(sorted[..|sorted| - 1], x, j);
    }
  }

  /**
   * Shifts the items before position `i` that are older than `x` one place to
   * the right, opening a slot at `j` just after the last item at least as new as `x`.
   */
  method OpenSlot(a: array<Item>, i: nat, x: Item) returns (j: nat)
    requires i < a.Length
    modifies a
    ensures j <= i
    ensures forall k :: 0 <= k < j ==> a[k] == old(a[k])
    ensures forall k :: j < k <= i ==> a[k] == old(a[k - 1])
    ensures forall k :: i < k < a.Length ==> a[k] == old(a[k])
    ensures j == 0 || old(a[j - 1]).pubDate >= x.pubDate
    ensures forall k :: j <= k < i ==> old(a[k]).pubDate < x.pubDate
  {
    j := i;
    while j > 0 && a[j - 1].pubDate < x.pubDate
      invariant 0 <= j <= i
      invariant forall k :: 0 <= k < j ==> a[k] == old(a[k])
      invariant forall k :: j < k <= i ==> a[k] == old(a[k - 1])
      invariant forall k :: i < k < a.Length ==> a[k] == old(a[k])
      invariant forall k :: j <= k < i ==> old(a[k]).pubDate < x.pubDate
    {
      a[j] := a[j - 1];
      j := j - 1;
    }
  }

  /** One pass of the in-place insertion: moves `a[i]` left past the older items before it. */
  method InsertInPlace(a: array<Item>, i: nat)
    requires i < a.Length
    modifies a
    ensures a[..i + 1] == Insert(old(a[..i]), old(a[i]))
    ensures a[i + 1..] == old(a[i + 1..])
  {
    ghost var sorted, rest := a[..i], a[i + 1..];
    var x := a[i];
    var j := OpenSlot(a, i, x);
    a[j] := x;
    InsertPosAt(sorted, x, j);
    ghost var inserted := sorted[..j] + [x] + sorted[j..];
    assert forall k :: 0 <= k <= i ==> a[k] == inserted[k];
    assert a[..i + 1] == inserted;
    assert forall k :: 0 <= k < |rest| ==> a[i + 1 + k] == rest[k];
    assert a[i + 1..] == rest;
  }

  /**
   * `obtenerMasReciente(arr)`: sorts `arr` in place, newest first, and returns
   * its first element, or nothing when `arr` is empty (`undefined` in the source).
   */
  method MostRecent(a: array<Item>) returns (newest: Option<Item>)
    modifies a
    ensures a[..] == SortNewestFirst(old(a[..]))
    ensures newest == if a.Length == 0 then None else Some(a[0])
  {
    ghost var input := a[..];
    for i := 0 to a.Length
      invariant a[..i] == SortNewestFirst(input[..i])
      invariant a[i..] == input[i..]
    {
      assert input[..i + 1][..i] == input[..i];
      assert a[i] == input[i];
      InsertInPlace(a, i);
      assert a[i + 1..] == input[i + 1..];
    }
    assert input[..a.Length] == input;
    newest := if a.Length == 0 then None else Some(a[0]);
  }
}
