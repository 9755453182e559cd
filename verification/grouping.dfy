/**
  Grouping a sequence by a string key and walking the groups in descending
  key order: `sort(key=...)` then `itertools.groupby` into a dictionary, and
  `keys.sort(reverse=True)`.
*/
module Grouping {
  import opened Ordering
  import Classify

  /** `list(group)` for one key: the elements with that key, in their original order. */
  function OfKey<T(==,!new)>(xs: seq<T>, key: T -> string, name: string): (r: seq<T>)
    ensures forall i :: 0 <= i < |r| ==> key(r[i]) == name
  {
    if |xs| == 0 then []
    else (if key(xs[0]) == name then [xs[0]] else []) + OfKey(xs[1..], key, name)
  }

  /** The selection keeps every element with the key, as often as it occurs, and nothing else. */
  lemma {:induction false} OfKeyCount<T(!new)>(xs: seq<T>, key: T -> string, name: string)
    ensures forall x :: multiset(OfKey(xs, key, name))[x] == if key(x) == name then multiset(xs)[x] else 0
    decreases |xs|
  {
    if |xs| > 0 {
      OfKeyCount(xs[1..], key, name);
      assert xs == [xs[0]] + xs[1..];
    }
  }

  /** Selecting a key from a concatenation selects it from each part: the original order is kept. */
  lemma {:induction false} OfKeyAppend<T(!new)>(a: seq<T>, b: seq<T>, key: T -> string, name: string)
    ensures OfKey(a + b, key, name) == OfKey(a, key, name) + OfKey(b, key, name)
    decreases |a|
  {
    if |a| > 0 {
      OfKeyAppend(a[1..], b, key, name);
      var head := if key(a[0]) == name then [a[0]] else [];
      assert OfKey(a + b, key, name) == head + OfKey(a[1..] + b, key, name) by {
        assert (a + b)[0] == a[0];
        assert (a + b)[1..] == a[1..] + b;
      }
      assert OfKey(a, key, name) == head + OfKey(a[1..], key, name);
    } else {
      assert a + b == b;
    }
  }

  /** Some element of `xs` has key `n`. */
  predicate Occurs<T>(xs: seq<T>, key: T -> string, n: string) {
    exists i :: 0 <= i < |xs| && key(xs[i]) == n
  }

  /** The keys that occur, once each. */
  function KeysOf<T>(xs: seq<T>, key: T -> string): (r: seq<string>)
    ensures Classify.Distinct(r)
    ensures forall n :: n in r <==> Occurs(xs, key, n)
  {
    if |xs| == 0 then []
    else
      var rest := KeysOf(xs[1..], key);
      assert forall n :: Occurs(xs, key, n) <==> key(xs[0]) == n || Occurs(xs[1..], key, n) by {
        forall n | Occurs(xs, key, n)
          ensures key(xs[0]) == n || Occurs(xs[1..], key, n)
        {
          var i :| 0 <= i < |xs| && key(xs[i]) == n;
          if i > 0 {
            assert key(xs[1..][i - 1]) == n;
          }
        }
        forall n | Occurs(xs[1..], key, n)
          ensures Occurs(xs, key, n)
        {
          var i :| 0 <= i < |xs| - 1 && key(xs[1..][i]) == n;
          assert key(xs[i + 1]) == n;
        }
      }
      if key(xs[0]) in rest then rest else [key(xs[0])] + rest
  }

  /** `itertools.groupby` after sorting by the key, collected into a dictionary by key. */
  function Groups<T(==,!new)>(xs: seq<T>, key: T -> string): (r: map<string, seq<T>>)
    ensures forall n :: n in r <==> Occurs(xs, key, n)
    ensures forall n :: n in r ==> r[n] == OfKey(xs, key, n)
  {
    map n | n in KeysOf(xs, key) :: OfKey(xs, key, n)
  }

  /** Every group is non-empty, and every element of a group has the group's key and comes from `xs`. */
  lemma GroupsNonEmpty<T(!new)>(xs: seq<T>, key: T -> string)
    ensures forall n :: n in Groups(xs, key) ==> |Groups(xs, key)[n]| > 0
    ensures forall n :: n in Groups(xs, key) ==> forall i :: 0 <= i < |Groups(xs, key)[n]| ==>
      key(Groups(xs, key)[n][i]) == n && Groups(xs, key)[n][i] in multiset(xs)
  {
    var groups := Groups(xs, key);
    forall n | n in groups
      ensures |groups[n]| > 0
    {
      assert Occurs(xs, key, n);
      var i :| 0 <= i < |xs| && key(xs[i]) == n;
      OfKeyCount(xs, key, n);
      assert xs[i] in multiset(xs);
      assert multiset(OfKey(xs, key, n))[xs[i]] > 0;
    }
    forall n, i | n in groups && 0 <= i < |groups[n]|
      ensures groups[n][i] in multiset(xs)
    {
      OfKeyCount(xs, key, n);
      assert groups[n][i] in multiset(OfKey(xs, key, n));
    }
  }

  // ---------------------------------------------------------------------------
  // Descending order of keys
  // ---------------------------------------------------------------------------

  /** `s[::-1]` */
  function Reverse(s: seq<string>): (r: seq<string>)
    ensures |r| == |s|
    ensures forall i :: 0 <= i < |s| ==> r[i] == s[|s| - 1 - i]
    ensures multiset(r) == multiset(s)
  {
    if |s| == 0 then []
    else
      assert s == [s[0]] + s[1..];
      Reverse(s[1..]) + [s[0]]
  }

  /** Every key strictly follows every later one. */
  predicate Descending(s: seq<string>) {
    forall i, j :: 0 <= i < j < |s| ==> Below(s[j], s[i]) && s[i] != s[j]
  }

  /** `pkeys.sort(reverse=True)` on distinct keys. */
  function DescendingOrder(names: seq<string>): (r: seq<string>)
    requires Classify.Distinct(names)
    ensures multiset(r) == multiset(names)
    ensures Descending(r)
  {
    var sorted := SortStrings(names);
    assert Classify.Distinct(sorted) by {
      DistinctPermutation(sorted, names);
    }
    Reverse(sorted)
  }

  /** The order depends only on which keys occur, not on the order they were found in. */
  lemma DescendingOrderCanonical(a: seq<string>, b: seq<string>)
    requires Classify.Distinct(a) && Classify.Distinct(b)
    requires forall n :: n in a <==> n in b
    ensures DescendingOrder(a) == DescendingOrder(b)
  {
    DistinctPermutation(a, b);
    SortedUnique(SortStrings(a), SortStrings(b));
  }

  /** A distinct sequence holds each value at most once. */
  lemma {:induction false} DistinctCount(s: seq<string>, x: string)
    requires Classify.Distinct(s)
    ensures multiset(s)[x] == if x in s then 1 else 0
    decreases |s|
  {
    if |s| > 0 {
      assert s == [s[0]] + s[1..];
      assert Classify.Distinct(s[1..]) by {
        forall i, j | 0 <= i < j < |s| - 1
          ensures s[1..][i] != s[1..][j]
        {
          assert s[1..][i] == s[i + 1] && s[1..][j] == s[j + 1];
        }
      }
      DistinctCount(s[1..], x);
      if s[0] == x {
        assert x !in s[1..] by {
          forall j | 0 <= j < |s| - 1
            ensures s[1..][j] != x
          {
            assert s[j + 1] != s[0];
          }
        }
      }
    }
  }

  /**
    Against a distinct sequence, a sequence is a rearrangement of it exactly
    when it is itself distinct and holds the same elements.
  */
  lemma DistinctPermutation(a: seq<string>, b: seq<string>)
    requires Classify.Distinct(b)
    ensures multiset(a) == multiset(b) <==> Classify.Distinct(a) && (forall n :: n in a <==> n in b)
  {
    if multiset(a) == multiset(b) {
      forall i, j | 0 <= i < j < |a|
        ensures a[i] != a[j]
      {
        if a[i] == a[j] {
          assert a == a[..i] + [a[i]] + a[i + 1..j] + [a[j]] + a[j + 1..];
          assert multiset(a)[a[i]] >= 2;
          DistinctCount(b, a[i]);
          assert false;
        }
      }
      forall n
        ensures n in a <==> n in b
      {
        assert n in a <==> n in multiset(a);
        assert n in b <==> n in multiset(b);
      }
    }
    if Classify.Distinct(a) && (forall n :: n in a <==> n in b) {
      forall n
        ensures multiset(a)[n] == multiset(b)[n]
      {
        DistinctCount(a, n);
        DistinctCount(b, n);
      }
    }
  }
}
