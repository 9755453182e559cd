/**
  Python 2's ordering of byte strings and its `list.sort`, which is stable.
  `SortStrings` is `lines.sort()`; `SortByKey` is `lines.sort(key=...)` with
  integer keys.
*/
module Ordering {

  /** `a <= b` on Python strings: lexicographic by character code, a prefix first. */
  predicate Below(a: string, b: string)
    decreases |a|
  {
    |a| == 0 || (|b| > 0 && (a[0] < b[0] || (a[0] == b[0] && Below(a[1..], b[1..]))))
  }

  lemma {:induction false} BelowReflexive(a: string)
    ensures Below(a, a)
    decreases |a|
  {
    if |a| > 0 {
      BelowReflexive(a[1..]);
    }
  }

  lemma {:induction false} BelowAntisymmetric(a: string, b: string)
    requires Below(a, b) && Below(b, a)
    ensures a == b
    decreases |a|
  {
    if |a| > 0 {
      BelowAntisymmetric(a[1..], b[1..]);
      assert a == [a[0]] + a[1..] && b == [b[0]] + b[1..];
    }
  }

  lemma {:induction false} BelowTransitive(a: string, b: string, c: string)
    requires Below(a, b) && Below(b, c)
    ensures Below(a, c)
    decreases |a|
  {
    if |a| > 0 && a[0] == b[0] && b[0] == c[0] {
      BelowTransitive(a[1..], b[1..], c[1..]);
    }
  }

  lemma {:induction false} BelowTotal(a: string, b: string)
    ensures Below(a, b) || Below(b, a)
    decreases |a|
  {
    if |a| > 0 && |b| > 0 && a[0] == b[0] {
      BelowTotal(a[1..], b[1..]);
    }
  }

  /** Every string precedes every later one. */
  predicate SortedStrings(s: seq<string>) {
    forall i, j :: 0 <= i < j < |s| ==> Below(s[i], s[j])
  }

  /** Inserts `x` into the sorted `s` before the first string it does not follow. */
  function InsertString(x: string, s: seq<string>): (r: seq<string>)
    requires SortedStrings(s)
    ensures SortedStrings(r)
    ensures multiset(r) == multiset(s) + multiset{x}
    ensures r[0] == x || r[0] == s[0]
  {
    if |s| == 0 then
      [x]
    else if Below(x, s[0]) then
      SortedCons(x, s);
      [x] + s
    else
      BelowTotal(x, s[0]);
      var rest := InsertString(x, s[1..]);
      assert s == [s[0]] + s[1..];
      assert Below(s[0], rest[0]) by {
        if rest[0] != x {
          assert Below(s[0], s[1]);
        }
      }
      SortedCons(s[0], rest);
      [s[0]] + rest
  }

  /** A string below the head of a sorted list can go in front of it. */
  lemma SortedCons(h: string, t: seq<string>)
    requires SortedStrings(t)
    requires |t| > 0 ==> Below(h, t[0])
    ensures SortedStrings([h] + t)
  {
    var r := [h] + t;
    forall i, j | 0 <= i < j < |r|
      ensures Below(r[i], r[j])
    {
      if i == 0 && j > 1 {
        BelowTransitive(h, t[0], t[j - 1]);
      }
    }
  }

  /** `sorted(xs)` for strings. */
  function SortStrings(xs: seq<string>): (r: seq<string>)
    ensures SortedStrings(r)
    ensures multiset(r) == multiset(xs)
  {
    if |xs| == 0 then []
    else
      assert xs == [xs[0]] + xs[1..];
      InsertString(xs[0], SortStrings(xs[1..]))
  }

  /** The head of a sorted list is below each of its strings. */
  lemma SortedHeadLeast(a: seq<string>, x: string)
    requires SortedStrings(a) && x in multiset(a)
    ensures Below(a[0], x)
  {
    var i :| 0 <= i < |a| && a[i] == x;
    if i == 0 {
      BelowReflexive(x);
    }
  }

  /** Taking off the head takes one copy of it out of the multiset. */
  lemma MultisetTail<T>(a: seq<T>)
    requires |a| > 0
    ensures multiset(a[1..]) == multiset(a) - multiset{a[0]}
  {
    assert a == [a[0]] + a[1..];
  }

  /** Two sorted arrangements of the same strings are the same sequence. */
  lemma {:induction false} SortedUnique(a: seq<string>, b: seq<string>)
    requires SortedStrings(a) && SortedStrings(b)
    requires multiset(a) == multiset(b)
    ensures a == b
    decreases |a|
  {
    if |a| == 0 {
      assert |b| == |multiset(b)| == 0;
    } else {
      assert a[0] in multiset(a);
      assert b[0] in multiset(b);
      SortedHeadLeast(b, a[0]);
      SortedHeadLeast(a, b[0]);
      BelowAntisymmetric(a[0], b[0]);
      MultisetTail(a);
      MultisetTail(b);
      SortedUnique(a[1..], b[1..]);
      ConsEqual(a, b);
    }
  }

  /** Two sequences with equal heads and equal tails are equal. */
  lemma ConsEqual<T>(a: seq<T>, b: seq<T>)
    requires |a| > 0 && |b| > 0 && a[0] == b[0] && a[1..] == b[1..]
    ensures a == b
  {
    assert a == [a[0]] + a[1..] && b == [b[0]] + b[1..];
  }

  /** Sorting is idempotent. */
  lemma SortStringsIdempotent(xs: seq<string>)
    ensures SortStrings(SortStrings(xs)) == SortStrings(xs)
  {
    SortedUnique(SortStrings(SortStrings(xs)), SortStrings(xs));
  }

  // ---------------------------------------------------------------------------
  // Stable sort by an integer key
  // ---------------------------------------------------------------------------

  /** A line of a table together with its integer sort key. */
  datatype Keyed = Keyed(key: int, text: string)

  predicate SortedByKey(s: seq<Keyed>) {
    forall i, j :: 0 <= i < j < |s| ==> s[i].key <= s[j].key
  }

  /** The lines of `s` whose key is `k`, in their order in `s`. */
  function WithKey(s: seq<Keyed>, k: int): seq<Keyed>
  {
    if |s| == 0 then []
    else (if s[0].key == k then [s[0]] else []) + WithKey(s[1..], k)
  }

  /** Inserts `x` into the key-sorted `s` before every line whose key is not smaller. */
  function InsertByKey(x: Keyed, s: seq<Keyed>): (r: seq<Keyed>)
    requires SortedByKey(s)
    ensures SortedByKey(r)
    ensures multiset(r) == multiset(s) + multiset{x}
    ensures r[0] == x || r[0] == s[0]
  {
    if |s| == 0 || x.key <= s[0].key then
      SortedByKeyCons(x, s);
      [x] + s
    else
      var rest := InsertByKey(x, s[1..]);
      assert s == [s[0]] + s[1..];
      assert s[0].key <= rest[0].key by {
        if rest[0] != x {
          assert s[0].key <= s[1].key;
        }
      }
      SortedByKeyCons(s[0], rest);
      [s[0]] + rest
  }

  /** A line whose key is at most the head's can go in front of a key-sorted list. */
  lemma SortedByKeyCons(h: Keyed, t: seq<Keyed>)
    requires SortedByKey(t)
    requires |t| > 0 ==> h.key <= t[0].key
    ensures SortedByKey([h] + t)
  {
    var r := [h] + t;
    forall i, j | 0 <= i < j < |r|
      ensures r[i].key <= r[j].key
    {
      if i == 0 && j > 1 {
        assert t[0].key <= t[j - 1].key;
      }
    }
  }

  /** Inserting `x` puts it ahead of the lines that share its key. */
  lemma {:induction false} InsertByKeyStable(x: Keyed, s: seq<Keyed>, k: int)
    requires SortedByKey(s)
    ensures WithKey(InsertByKey(x, s), k) == (if x.key == k then [x] else []) + WithKey(s, k)
    decreases |s|
  {
    if |s| == 0 || x.key <= s[0].key {
      WithKeyCons(x, s, k);
    } else {
      var rest := InsertByKey(x, s[1..]);
      InsertByKeyStable(x, s[1..], k);
      assert InsertByKey(x, s) == [s[0]] + rest;
      WithKeyCons(s[0], rest, k);
      assert s == [s[0]] + s[1..];
      WithKeyCons(s[0], s[1..], k);
      var hx: seq<Keyed> := if x.key == k then [x] else [];
      var h0: seq<Keyed> := if s[0].key == k then [s[0]] else [];
      var tail := WithKey(s[1..], k);
      assert h0 == [] || hx == [];
      SwapEmpty(h0, hx, tail);
    }
  }

  /** When one of two fronts is empty, they can be put on in either order. */
  lemma SwapEmpty<T>(a: seq<T>, b: seq<T>, t: seq<T>)
    requires a == [] || b == []
    ensures a + (b + t) == b + (a + t)
  {
    if a == [] {
      assert a + (b + t) == b + t == b + (a + t);
    } else {
      assert a + (b + t) == a + t == b + (a + t);
    }
  }

  /** The lines with key `k` of a list with a head. */
  lemma WithKeyCons(y: Keyed, t: seq<Keyed>, k: int)
    ensures WithKey([y] + t, k) == (if y.key == k then [y] else []) + WithKey(t, k)
  {
    assert ([y] + t)[1..] == t;
  }

  /** `xs.sort(key=...)`: ascending by key, lines with equal keys keep their order. */
  function SortByKey(xs: seq<Keyed>): (r: seq<Keyed>)
    ensures SortedByKey(r)
    ensures multiset(r) == multiset(xs)
    ensures forall k :: WithKey(r, k) == WithKey(xs, k)
  {
    if |xs| == 0 then []
    else
      assert xs == [xs[0]] + xs[1..];
      var r := InsertByKey(xs[0], SortByKey(xs[1..]));
      assert forall k :: WithKey(r, k) == WithKey(xs, k) by {
        forall k ensures WithKey(r, k) == WithKey(xs, k) {
          InsertByKeyStable(xs[0], SortByKey(xs[1..]), k);
        }
      }
      r
  }

  /** The texts of keyed lines. */
  function Texts(s: seq<Keyed>): (r: seq<string>)
    ensures |r| == |s|
    ensures forall i :: 0 <= i < |s| ==> r[i] == s[i].text
  {
    if |s| == 0 then [] else [s[0].text] + Texts(s[1..])
  }
}
