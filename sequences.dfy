/** Sequences without repeated elements, and when two of them hold the
    same elements in possibly different orders. */
module Sequences {

  ghost predicate Distinct<T>(s: seq<T>) {
    forall a, b :: 0 <= a < b < |s| ==> s[a] != s[b]
  }

  /** In a sequence without repetitions every element occurs once. */
  lemma {:induction false} DistinctMultiplicity<T>(s: seq<T>, x: T)
    requires Distinct(s)
    ensures multiset(s)[x] <= 1
    ensures x in s ==> multiset(s)[x] == 1
  {
    if s != [] {
      assert s == [s[0]] + s[1..];
      DistinctMultiplicity(s[1..], x);
      if x == s[0] {
        assert x !in s[1..];
      }
    }
  }

  /** An element found at two positions occurs twice. */
  lemma RepeatedMultiplicity<T>(s: seq<T>, a: nat, b: nat)
    requires a < b < |s| && s[a] == s[b]
    ensures multiset(s)[s[a]] >= 2
  {
    assert s == s[..a] + [s[a]] + s[a + 1..b] + [s[b]] + s[b + 1..];
  }

  /** A rearrangement of a sequence without repetitions has none. */
  lemma DistinctPermutation<T>(s: seq<T>, t: seq<T>)
    requires Distinct(s) && multiset(s) == multiset(t)
    ensures Distinct(t)
  {
    forall a, b | 0 <= a < b < |t| ensures t[a] != t[b] {
      if t[a] == t[b] {
        RepeatedMultiplicity(t, a, b);
        DistinctMultiplicity(s, t[a]);
      }
    }
  }

  /** Removing one position keeps a sequence free of repetitions and
      removes exactly the element found there. */
  lemma RemoveAt<T>(t: seq<T>, j: nat)
    requires Distinct(t) && j < |t|
    ensures Distinct(t[..j] + t[j + 1..])
    ensures forall y :: y in t[..j] + t[j + 1..] <==> y in t && y != t[j]
  {
    var t' := t[..j] + t[j + 1..];
    forall a, b | 0 <= a < b < |t'| ensures t'[a] != t'[b] {
      var a' := if a < j then a else a + 1;
      var b' := if b < j then b else b + 1;
      assert t'[a] == t[a'] && t'[b] == t[b'];
    }
    forall y ensures y in t' <==> y in t && y != t[j] {
      if y in t && y != t[j] {
        var b :| 0 <= b < |t| && t[b] == y;
        if b < j {
          assert t'[b] == y;
        } else {
          assert t'[b - 1] == y;
        }
      }
      if y in t' {
        var b :| 0 <= b < |t'| && t'[b] == y;
        var b' := if b < j then b else b + 1;
        assert t[b'] == y && b' != j;
      }
    }
  }

  lemma HeadIsElement<T>(t: seq<T>)
    ensures t != [] ==> t[0] in t
  {
  }

  lemma MultisetRemoveAt<T>(t: seq<T>, j: nat)
    requires j < |t|
    ensures multiset(t) == multiset(t[..j] + t[j + 1..]) + multiset{t[j]}
    ensures j == 0 ==> t[..j] + t[j + 1..] == t[1..]
  {
    assert t == t[..j] + [t[j]] + t[j + 1..];
  }

  /** Dropping the same element from two sequences with equal elements
      leaves sequences with equal elements. */
  lemma RemoveFromBoth<T>(s: seq<T>, t: seq<T>, j: nat)
    requires Distinct(s) && Distinct(t) && s != [] && j < |t| && t[j] == s[0]
    requires forall x :: x in s <==> x in t
    ensures Distinct(s[1..]) && Distinct(t[..j] + t[j + 1..])
    ensures forall y :: y in s[1..] <==> y in t[..j] + t[j + 1..]
  {
    RemoveAt(t, j);
    RemoveAt(s, 0);
    assert s[..0] + s[1..] == s[1..];
    forall y ensures y in s[1..] <==> y in t[..j] + t[j + 1..] {
      assert y in s[..0] + s[1..] <==> y in s && y != s[0];
    }
  }

  /** Two sequences without repetitions that hold the same elements are
      rearrangements of each other. */
  lemma {:induction false} SameElementsSameMultiset<T>(s: seq<T>, t: seq<T>)
    requires Distinct(s) && Distinct(t)
    requires forall x :: x in s <==> x in t
    ensures multiset(s) == multiset(t)
  {
    if s == [] {
      HeadIsElement(t);
    } else {
      var x := s[0];
      assert x in t;
      var j :| 0 <= j < |t| && t[j] == x;
      var t' := t[..j] + t[j + 1..];
      RemoveFromBoth(s, t, j);
      SameElementsSameMultiset(s[1..], t');
      MultisetRemoveAt(t, j);
      MultisetRemoveAt(s, 0);
    }
  }
}
