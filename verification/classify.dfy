/**
  The factory pattern shared by `make_concept` and `make_mapping`: try every
  variant in declaration order, keep the ones whose test accepts the input,
  and accept the outcome only when at most one variant was kept.
*/
module Classify {
  import opened Wrappers
  import opened Exceptions

  /** The elements of `ks` that satisfy `p`, in order. */
  function Filter<K(!new)>(ks: seq<K>, p: K -> bool): (r: seq<K>)
    ensures forall k :: k in r <==> k in ks && p(k)
  {
    if |ks| == 0 then []
    else (if p(ks[0]) then [ks[0]] else []) + Filter(ks[1..], p)
  }

  /** Filtering keeps the input's order: the filter of a concatenation is the concatenation of the filters. */
  lemma {:induction false} FilterAppend<K(!new)>(a: seq<K>, b: seq<K>, p: K -> bool)
    ensures Filter(a + b, p) == Filter(a, p) + Filter(b, p)
    decreases |a|
  {
    if |a| == 0 {
      assert a + b == b;
    } else {
      assert (a + b)[0] == a[0] && (a + b)[1..] == a[1..] + b;
      FilterAppend(a[1..], b, p);
    }
  }

  /** Filtering keeps every passing element as often as it occurs, and no other. */
  lemma {:induction false} FilterCount<K(!new)>(ks: seq<K>, p: K -> bool, k: K)
    ensures multiset(Filter(ks, p))[k] == if p(k) then multiset(ks)[k] else 0
    decreases |ks|
  {
    if |ks| > 0 {
      FilterCount(ks[1..], p, k);
      assert ks == [ks[0]] + ks[1..];
    }
  }

  /** A list of at most one element that holds `x` is `[x]`. */
  lemma OnlyMember<K>(ks: seq<K>, x: K)
    requires |ks| <= 1 && x in ks
    ensures ks == [x]
  {
  }

  /** The first `i` elements of a list are its head followed by the first `i - 1` elements of its tail. */
  lemma FrontOfTail<K>(s: seq<K>, i: nat)
    requires 0 < i < |s|
    ensures |s[..i]| > 0 && s[..i][0] == s[0] && s[..i][1..] == s[1..][..i - 1] && s[1..][i - 1] == s[i]
  {
  }

  /** The first `false` in a list that holds one. */
  lemma FirstFalse(flags: seq<bool>) returns (i: nat)
    requires exists j :: 0 <= j < |flags| && !flags[j]
    ensures i < |flags| && !flags[i]
    ensures forall j :: 0 <= j < i ==> flags[j]
  {
    i := 0;
    while flags[i]
      invariant i < |flags|
      invariant forall j :: 0 <= j < i ==> flags[j]
      decreases |flags| - i
    {
      i := i + 1;
    }
  }

  predicate Distinct<K(==)>(ks: seq<K>) {
    forall i, j :: 0 <= i < j < |ks| ==> ks[i] != ks[j]
  }

  /** A filter no element passes is empty. */
  lemma {:induction false} FilterNone<K(!new)>(ks: seq<K>, p: K -> bool)
    requires forall k :: k in ks ==> !p(k)
    ensures Filter(ks, p) == []
  {
    if |ks| > 0 {
      FilterNone(ks[1..], p);
    }
  }

  /** When no two distinct variants both pass, the filter keeps at most one. */
  lemma {:induction false} FilterAtMostOne<K(!new)>(ks: seq<K>, p: K -> bool)
    requires Distinct(ks)
    requires forall a, b :: a in ks && b in ks && p(a) && p(b) ==> a == b
    ensures |Filter(ks, p)| <= 1
  {
    if |ks| > 0 {
      FilterAtMostOne(ks[1..], p);
      if p(ks[0]) {
        assert forall k :: k in ks[1..] ==> k != ks[0];
        FilterNone(ks[1..], p);
      }
    }
  }

  /**
    The end of both factories: no candidate gives `None`, one gives that
    candidate, and several raise `ValueError`.
  */
  function Single<T>(built: seq<T>, what: string): Result<Option<T>, Exception>
  {
    if |built| == 0 then Success(None)
    else if |built| == 1 then Success(Some(built[0]))
    else Failure(ValueError("multiple matching " + what + " types found"))
  }
}
