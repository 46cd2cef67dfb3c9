/**
 * Sequences of timestamps: the numeric sort and the de-duplication of sorted arrays
 * (`_.uniq(times.sort((a, b) => a - b), true)`) that the time series and the render
 * path use to merge timestamp lists.
 */
module Seqs {

  predicate Ascending(s: seq<int>) {
    forall i, j :: 0 <= i < j < |s| ==> s[i] <= s[j]
  }

  predicate StrictlyAscending(s: seq<int>) {
    forall i, j :: 0 <= i < j < |s| ==> s[i] < s[j]
  }

  function Elems(s: seq<int>): set<int> {
    set x | x in s
  }

  /** Inserts `x` into an ascending sequence. */
  function Insert(x: int, s: seq<int>): (r: seq<int>)
    requires Ascending(s)
    ensures Ascending(r) && multiset(r) == multiset(s) + multiset{x}
    ensures r[0] == if s == [] || x <= s[0] then x else s[0]
  {
    if s == [] then [x]
    else if x <= s[0] then [x] + s
    else
      var rest := Insert(x, s[1..]);
      assert s == [s[0]] + s[1..];
      assert s[0] <= rest[0];
      [s[0]] + rest
  }

  /** `Array.prototype.sort` with the numeric comparator `a - b`. */
  function Sort(s: seq<int>): (r: seq<int>)
    ensures Ascending(r) && multiset(r) == multiset(s)
  {
    if s == [] then []
    else
      assert s == [s[0]] + s[1..];
      Insert(s[0], Sort(s[1..]))
  }

  /** `_.uniq(s, true)`: keeps the first of every run of equal neighbours. */
  function Uniq(s: seq<int>): (r: seq<int>)
    requires Ascending(s)
    ensures StrictlyAscending(r) && Elems(r) == Elems(s)
    ensures |s| > 0 ==> |r| > 0 && r[0] == s[0]
  {
    if |s| <= 1 then s
    else
      var rest := Uniq(s[1..]);
      assert Elems(s) == {s[0]} + Elems(s[1..]) by {
        assert s == [s[0]] + s[1..];
      }
      if s[0] == s[1] then rest else [s[0]] + rest
  }

  /** Sorting and then de-duplicating, as the histogram does with every list of times. */
  function SortUniq(s: seq<int>): (r: seq<int>)
    ensures StrictlyAscending(r) && Elems(r) == Elems(s)
  {
    var sorted := Sort(s);
    assert Elems(sorted) == Elems(s) by {
      forall x ensures x in sorted <==> x in s {
        assert x in sorted <==> x in multiset(sorted);
        assert x in s <==> x in multiset(s);
      }
    }
    Uniq(sorted)
  }

  /** The head of a strictly ascending sequence is not among the rest. */
  lemma TailElems(a: seq<int>)
    requires StrictlyAscending(a) && a != []
    ensures Elems(a[1..]) == Elems(a) - {a[0]}
  {
    assert a == [a[0]] + a[1..];
    forall x | x in a[1..] ensures x != a[0] {
      var k :| 1 <= k < |a| && a[k] == x;
    }
  }

  /** A strictly ascending sequence is determined by its elements. */
  lemma {:induction false} AscendingUnique(a: seq<int>, b: seq<int>)
    requires StrictlyAscending(a) && StrictlyAscending(b) && Elems(a) == Elems(b)
    ensures a == b
  {
    if a != [] {
      assert a[0] in Elems(a);
    }
    if b != [] {
      assert b[0] in Elems(b);
    }
    if a != [] && b != [] {
      var i :| 0 <= i < |b| && b[i] == a[0];
      var j :| 0 <= j < |a| && a[j] == b[0];
      assert a[0] <= a[j] && b[0] <= b[i] by {
        if i > 0 {}
        if j > 0 {}
      }
      TailElems(a);
      TailElems(b);
      AscendingUnique(a[1..], b[1..]);
      assert a == [a[0]] + a[1..] && b == [b[0]] + b[1..];
    }
  }

  /**
   * The order in which the unsorted list arrives does not matter: lists with the same
   * elements sort and de-duplicate to the same result.
   */
  lemma SortUniqByElements(a: seq<int>, b: seq<int>)
    requires Elems(a) == Elems(b)
    ensures SortUniq(a) == SortUniq(b)
  {
    AscendingUnique(SortUniq(a), SortUniq(b));
  }
}
