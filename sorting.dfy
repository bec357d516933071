/** Ascending order of the line numbers listed in a duplicate message. */
module Sorting {

  predicate Sorted(s: seq<nat>) {
    forall i, j :: 0 <= i < j < |s| ==> s[i] <= s[j]
  }

  /** `s` with `x` placed before the first element not smaller than it. */
  function Insert(x: nat, s: seq<nat>): (r: seq<nat>)
    requires Sorted(s)
    ensures Sorted(r) && multiset(r) == multiset(s) + multiset{x}
  {
    if s == [] || x <= s[0] then [x] + s
    else
      var rest := Insert(x, s[1..]);
      LowerBound(s[0], rest, s[1..] + [x]);
      SortedCons(s[0], rest);
      assert s == [s[0]] + s[1..];
      [s[0]] + rest
  }

  lemma SortedCons(h: nat, t: seq<nat>)
    requires Sorted(t)
    requires forall k :: 0 <= k < |t| ==> h <= t[k]
    ensures Sorted([h] + t)
  {
  }

  /** A bound on every element carries over to any rearrangement. */
  lemma LowerBound(h: nat, t: seq<nat>, u: seq<nat>)
    requires multiset(t) == multiset(u)
    requires forall k :: 0 <= k < |u| ==> h <= u[k]
    ensures forall k :: 0 <= k < |t| ==> h <= t[k]
  {
    forall k | 0 <= k < |t| ensures h <= t[k] {
      assert t[k] in multiset(u);
    }
  }

  /** Insertion sort: the ascending rearrangement of `s`. */
  function Sort(s: seq<nat>): (r: seq<nat>)
    ensures Sorted(r) && multiset(r) == multiset(s)
  {
    if s == [] then []
    else
      assert s == [s[0]] + s[1..];
      Insert(s[0], Sort(s[1..]))
  }

  /** A multiset has one ascending arrangement. */
  lemma {:induction false} SortedPermutationUnique(a: seq<nat>, b: seq<nat>)
    requires Sorted(a) && Sorted(b) && multiset(a) == multiset(b)
    ensures a == b
  {
    if a != [] {
      assert a[0] in multiset(b);
      assert b != [];
      assert b[0] in multiset(a);
      assert a[0] == b[0];
      calc {
        multiset(a[1..]);
        { assert a == [a[0]] + a[1..]; }
        multiset(a) - multiset{a[0]};
        { assert b == [b[0]] + b[1..]; }
        multiset(b[1..]);
      }
      SortedPermutationUnique(a[1..], b[1..]);
    } else {
      assert |multiset(b)| == 0;
    }
  }

  /** Sorting an ascending list leaves it unchanged. */
  lemma SortOfSorted(s: seq<nat>)
    requires Sorted(s)
    ensures Sort(s) == s
  {
    SortedPermutationUnique(Sort(s), s);
  }
}
