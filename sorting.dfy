/**
 * `Arrays.sort(int[], from, to)` on the filled part of a buffer: the result
 * is ascending and a permutation of its input. The library call is modelled
 * by an insertion sort proved to have exactly those two properties.
 */
module Sorting {

  predicate Ascending(s: seq<int>)
  {
    forall i, j :: 0 <= i < j < |s| ==> s[i] <= s[j]
  }

  /** Inserts x into a sequence before its first element not below x. */
  function Insert(x: int, s: seq<int>): (r: seq<int>)
    ensures |r| == |s| + 1
  {
    if |s| == 0 then [x]
    else if x <= s[0] then [x] + s
    else [s[0]] + Insert(x, s[1..])
  }

  lemma {:induction false} InsertPermutes(x: int, s: seq<int>)
    ensures multiset(Insert(x, s)) == multiset(s) + multiset{x}
  {
    if |s| > 0 && x > s[0] {
      InsertPermutes(x, s[1..]);
      assert s == [s[0]] + s[1..];
    }
  }

  /** Inserting into an ascending sequence keeps it ascending. */
  lemma {:induction false} InsertAscending(x: int, s: seq<int>)
    requires Ascending(s)
    ensures Ascending(Insert(x, s))
  {
    if |s| > 0 && x > s[0] {
      var rest := Insert(x, s[1..]);
      InsertAscending(x, s[1..]);
      InsertPermutes(x, s[1..]);
      forall i | 0 <= i < |rest|
        ensures s[0] <= rest[i]
      {
        assert rest[i] in multiset(rest);
        if rest[i] != x {
          assert rest[i] in multiset(s[1..]);
        }
      }
    }
  }

  function Sort(s: seq<int>): (r: seq<int>)
    ensures Ascending(r)
    ensures multiset(r) == multiset(s)
    ensures |r| == |s|
  {
    if |s| == 0 then []
    else
      var init := s[..|s| - 1];
      assert s == init + [s[|s| - 1]];
      InsertAscending(s[|s| - 1], Sort(init));
      InsertPermutes(s[|s| - 1], Sort(init));
      Insert(s[|s| - 1], Sort(init))
  }

  /** A sequence whose elements all equal v sorts to itself. */
  lemma SortConstant(s: seq<int>, v: int)
    requires forall i :: 0 <= i < |s| ==> s[i] == v
    ensures forall i :: 0 <= i < |s| ==> Sort(s)[i] == v
  {
    var r := Sort(s);
    forall i | 0 <= i < |r|
      ensures r[i] == v
    {
      assert r[i] in multiset(r);
      assert r[i] in multiset(s);
    }
  }

  /** Every element of the sorted sequence is an element of its input. */
  lemma SortedElementsFromInput(s: seq<int>, i: int)
    requires 0 <= i < |s|
    ensures Sort(s)[i] in s
  {
    assert Sort(s)[i] in multiset(Sort(s));
  }
}
