/** `sort_and_remove_duplicates`: the construction input is turned into the
    strictly ascending list of its distinct keys before the tree is built. */
module Sorting {

  predicate StrictlySorted(s: seq<int>) {
    forall i, j :: 0 <= i < j < |s| ==> s[i] < s[j]
  }

  /** Adds `x` to a strictly ascending list, keeping it strictly ascending
      (nothing is added when `x` is already there). */
  function InsertUnique(s: seq<int>, x: int): (r: seq<int>)
    requires StrictlySorted(s)
    ensures StrictlySorted(r)
    ensures forall y :: y in r <==> y in s || y == x
  {
    if s == [] then [x]
    else if x < s[0] then [x] + s
    else if x == s[0] then s
    else
      var tail := InsertUnique(s[1..], x);
      TailAbove(s, x, tail);
      [s[0]] + tail
  }

  /** Every element of the tail after inserting a larger `x` stays above the
      head. */
  lemma TailAbove(s: seq<int>, x: int, tail: seq<int>)
    requires StrictlySorted(s) && s != [] && s[0] < x
    requires forall y :: y in tail <==> y in s[1..] || y == x
    ensures forall k :: 0 <= k < |tail| ==> s[0] < tail[k]
  {
    forall k | 0 <= k < |tail|
      ensures s[0] < tail[k]
    {
      assert tail[k] in tail;
      if tail[k] != x {
        var j :| 0 <= j < |s[1..]| && s[1..][j] == tail[k];
        assert s[j + 1] == tail[k];
      }
    }
  }

  /** Ruby's `array.to_set.to_a.sort` on integer keys: the result is strictly
      ascending and holds exactly the elements of the input. */
  function SortAndRemoveDuplicates(input: seq<int>): (r: seq<int>)
    ensures StrictlySorted(r)
    ensures forall y :: y in r <==> y in input
  {
    if input == [] then []
    else
      var init := input[..|input| - 1];
      assert input == init + [input[|input| - 1]];
      InsertUnique(SortAndRemoveDuplicates(init), input[|input| - 1])
  }

  /** The head of a strictly ascending list is its least element. */
  lemma HeadIsLeast(s: seq<int>, y: int)
    requires StrictlySorted(s) && y in s
    ensures s[0] <= y
  {
    var i :| 0 <= i < |s| && s[i] == y;
    assert i == 0 || s[0] < s[i];
  }

  /** A set of keys has only one strictly ascending listing, so the result of
      `SortAndRemoveDuplicates` is determined by the set of input keys. */
  lemma {:induction false} StrictlySortedUnique(s: seq<int>, t: seq<int>)
    requires StrictlySorted(s) && StrictlySorted(t)
    requires forall y :: y in s <==> y in t
    ensures s == t
  {
    assert s != [] ==> s[0] in s && s[0] in t;
    assert t != [] ==> t[0] in t && t[0] in s;
    if s != [] && t != [] {
      HeadIsLeast(s, t[0]);
      HeadIsLeast(t, s[0]);
      forall y ensures y in s[1..] <==> y in t[1..] {
        assert y in s[1..] <==> y in s && y != s[0];
        assert y in t[1..] <==> y in t && y != t[0];
      }
      StrictlySortedUnique(s[1..], t[1..]);
    }
  }

  /** So `SortAndRemoveDuplicates` returns the one strictly ascending list
      holding exactly the input's elements. */
  lemma SortedDistinctOf(input: seq<int>, sorted: seq<int>)
    requires StrictlySorted(sorted)
    requires forall y :: y in sorted <==> y in input
    ensures SortAndRemoveDuplicates(input) == sorted
  {
    StrictlySortedUnique(SortAndRemoveDuplicates(input), sorted);
  }
}
