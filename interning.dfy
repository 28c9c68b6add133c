/**
 * First-appearance deduplication with dense indices. The sensor model's
 * request list, the training-label renaming table and the rasteriser's
 * visited-cell table all assign, in one left-to-right pass, the next free
 * index to each value seen for the first time; this module states once what
 * such a pass computes.
 */
module Interning {

  predicate NoDuplicates<T(==)>(s: seq<T>)
  {
    forall i, j :: 0 <= i < j < |s| ==> s[i] != s[j]
  }

  /** The distinct elements of s, each once, in order of first appearance. */
  function Distinct<T(==)>(s: seq<T>): (d: seq<T>)
    ensures NoDuplicates(d)
    ensures |d| <= |s|
    decreases |s|
  {
    if s == [] then []
    else
      var p := Distinct(s[..|s| - 1]);
      if s[|s| - 1] in p then p else p + [s[|s| - 1]]
  }

  /** One more step of the pass: a new value is appended, a known one changes nothing. */
  lemma {:induction false} DistinctSnoc<T>(s: seq<T>, x: T)
    ensures Distinct(s + [x]) == if x in s then Distinct(s) else Distinct(s) + [x]
  {
    assert (s + [x])[..|s|] == s;
    DistinctMembers(s, x);
  }

  /** The position of x in s: its first occurrence (its only one when s has no duplicates). */
  function IndexOf<T(==)>(s: seq<T>, x: T): (i: nat)
    requires x in s
    ensures i < |s| && s[i] == x
    ensures forall j :: 0 <= j < i ==> s[j] != x
  {
    if s[0] == x then 0 else 1 + IndexOf(s[1..], x)
  }

  /** What a lookup table holds for x after the pass: its dense index, or the sentinel -1. */
  function Slot<T(==)>(d: seq<T>, x: T): (k: int)
    ensures -1 <= k < |d|
    ensures k >= 0 <==> x in d
    ensures k >= 0 ==> d[k] == x
  {
    if x in d then IndexOf(d, x) else -1
  }

  /** Appending a new value gives it the next index and leaves every other entry alone. */
  lemma {:induction false} SlotSnoc<T>(d: seq<T>, x: T, y: T)
    requires x !in d
    ensures Slot(d + [x], y) == if y == x then |d| else Slot(d, y)
  {
    if y == x {
      assert (d + [x])[|d|] == x;
    } else if y in d {
      var i := IndexOf(d, y);
      assert (d + [x])[i] == y;
    }
  }

  /** First-appearance order: the distinct values of a prefix are a prefix of the distinct values. */
  lemma {:induction false} DistinctPrefix<T>(s: seq<T>, k: nat)
    requires k <= |s|
    ensures Distinct(s[..k]) <= Distinct(s)
    decreases |s| - k
  {
    if k < |s| {
      var t := s[..|s| - 1];
      DistinctPrefix(t, k);
      assert t[..k] == s[..k];
    } else {
      assert s[..k] == s;
    }
  }

  /**
   * The dense indices handed out by the pass: the first occurrence of a value
   * receives the count of distinct values seen before it, and a later
   * occurrence receives an index already handed out.
   */
  lemma {:induction false} IndexOnArrival<T>(s: seq<T>, i: nat)
    requires i < |s|
    ensures s[i] !in s[..i] ==> Slot(Distinct(s), s[i]) == |Distinct(s[..i])|
    ensures s[i] in s[..i] ==> Slot(Distinct(s), s[i]) == Slot(Distinct(s[..i]), s[i])
  {
    var d := Distinct(s);
    var p := Distinct(s[..i]);
    assert s[..i + 1] == s[..i] + [s[i]];
    DistinctSnoc(s[..i], s[i]);
    DistinctPrefix(s, i + 1);
    if s[i] !in s[..i] {
      assert d[|p|] == s[i];
      SlotAt(d, |p|, s[i]);
    } else {
      DistinctMembers(s[..i], s[i]);
      var k := IndexOf(p, s[i]);
      assert d[k] == s[i];
      SlotAt(d, k, s[i]);
    }
  }

  /** In a sequence without duplicates, the slot of an element is its position. */
  lemma {:induction false} SlotAt<T>(d: seq<T>, k: nat, x: T)
    requires NoDuplicates(d) && k < |d| && d[k] == x
    ensures Slot(d, x) == k
  {
    var j := Slot(d, x);
    assert d[j] == d[k];
  }

  /** Dense indices: every value gets an index below the number of distinct values, equal indices iff equal values. */
  lemma {:induction false} DenseIndices<T>(s: seq<T>, i: nat, j: nat)
    requires i < |s| && j < |s|
    ensures 0 <= Slot(Distinct(s), s[i]) < |Distinct(s)|
    ensures Slot(Distinct(s), s[i]) == Slot(Distinct(s), s[j]) <==> s[i] == s[j]
  {
    DistinctMembers(s, s[i]);
    DistinctMembers(s, s[j]);
  }

  /** Removing repeats keeps exactly the same members. */
  lemma {:induction false} DistinctMembers<T>(s: seq<T>, x: T)
    ensures x in Distinct(s) <==> x in s
    decreases |s|
  {
    if s != [] {
      var t := s[..|s| - 1];
      DistinctMembers(t, x);
      assert s == t + [s[|s| - 1]];
    }
  }

  /** A value of a prefix keeps its slot in the whole sequence. */
  lemma {:induction false} SlotInPrefix<T>(p: seq<T>, d: seq<T>, x: T)
    requires p <= d && NoDuplicates(d) && x in p
    ensures Slot(d, x) == Slot(p, x)
  {
    var k := IndexOf(p, x);
    assert d[k] == x;
    SlotAt(d, k, x);
  }

  /** The index the pass hands out at every position of s: the slot of the value there among the distinct values. */
  function DenseIndex<T(==)>(s: seq<T>): (r: seq<int>)
    ensures |r| == |s|
  {
    seq(|s|, j requires 0 <= j < |s| => Slot(Distinct(s), s[j]))
  }

  /** One more step of the pass: earlier positions keep their index, the new one gets the value's slot. */
  lemma {:induction false} DenseIndexSnoc<T>(s: seq<T>, x: T)
    ensures DenseIndex(s + [x]) == DenseIndex(s) + [Slot(Distinct(s + [x]), x)]
  {
    var d := Distinct(s);
    var e := Distinct(s + [x]);
    DistinctSnoc(s, x);
    forall j | 0 <= j < |s|
      ensures Slot(e, s[j]) == Slot(d, s[j])
    {
      DistinctMembers(s, s[j]);
      SlotInPrefix(d, e, s[j]);
    }
    assert forall j :: 0 <= j < |s| ==> (s + [x])[j] == s[j];
  }

  /** Growing a prefix by one element, stated once so that loops over prefixes need not re-prove it. */
  lemma PrefixSnoc<T>(s: seq<T>, i: int)
    requires 0 <= i < |s|
    ensures s[..i + 1] == s[..i] + [s[i]]
  {
  }
}
