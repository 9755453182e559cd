/**
  Python's `str` operations used by the generator: prefix tests, `split`,
  `join`, `replace` and `strip`, over strings as sequences of characters.
*/
module Text {
  import opened Wrappers

  /** `s.startswith(prefix)` */
  predicate StartsWith(s: string, prefix: string) {
    |prefix| <= |s| && s[..|prefix|] == prefix
  }

  /** `s.endswith(suffix)` */
  predicate EndsWith(s: string, suffix: string) {
    |suffix| <= |s| && s[|s| - |suffix|..] == suffix
  }

  /** `sub` occurs in `s` starting at index `i`. */
  predicate OccursAt(s: string, sub: string, i: int) {
    0 <= i && i + |sub| <= |s| && s[i..i + |sub|] == sub
  }

  /** `sub in s` */
  predicate Contains(s: string, sub: string) {
    exists i | 0 <= i <= |s| :: OccursAt(s, sub, i)
  }

  /** The index of the first occurrence of `sep` in `s`, as `s.find(sep)`. */
  function IndexOf(s: string, sep: string): (r: Option<nat>)
    requires sep != ""
    ensures r.Some? ==> OccursAt(s, sep, r.value)
    ensures r.Some? ==> forall j :: 0 <= j < r.value ==> !OccursAt(s, sep, j)
    ensures r.None? <==> !Contains(s, sep)
    decreases |s|
  {
    if |s| < |sep| then
      None
    else if s[..|sep|] == sep then
      assert OccursAt(s, sep, 0);
      Some(0)
    else
      OccursAtTail(s, sep);
      match IndexOf(s[1..], sep)
      case None => None
      case Some(i) => Some(i + 1)
  }

  /** Past the first character, `sep` occurs in `s` where it occurs in `s[1..]`, one place on. */
  lemma OccursAtTail(s: string, sep: string)
    requires |s| > 0
    ensures forall j :: 1 <= j ==> (OccursAt(s, sep, j) <==> OccursAt(s[1..], sep, j - 1))
  {
    forall j | 1 <= j
      ensures OccursAt(s, sep, j) <==> OccursAt(s[1..], sep, j - 1)
    {
      if j + |sep| <= |s| {
        var t := s[1..];
        var a, b := s[j..j + |sep|], t[j - 1..j - 1 + |sep|];
        assert forall k :: 0 <= k < |sep| ==> a[k] == b[k];
        assert a == b;
      }
    }
  }

  /** `s.split(sep)`: the pieces between non-overlapping occurrences of `sep`, scanned left to right. */
  function Split(s: string, sep: string): (r: seq<string>)
    requires sep != ""
    ensures |r| >= 1
    decreases |s|
  {
    match IndexOf(s, sep)
    case None => [s]
    case Some(i) => [s[..i]] + Split(s[i + |sep|..], sep)
  }

  /** `sep.join(xs)` */
  function Join(xs: seq<string>, sep: string): string
  {
    if |xs| == 0 then ""
    else if |xs| == 1 then xs[0]
    else xs[0] + sep + Join(xs[1..], sep)
  }

  /** `s.replace(old, new)`: Python replaces the same occurrences that `split` cuts at. */
  function Replace(s: string, target: string, replacement: string): string
    requires target != ""
  {
    Join(Split(s, target), replacement)
  }

  /** The last piece of `s.split(sep)`: the text after the last occurrence of `sep`. */
  function AfterLast(s: string, sep: string): string
    requires sep != ""
  {
    var pieces := Split(s, sep);
    pieces[|pieces| - 1]
  }

  /** `s.lstrip(chars)` */
  function StripLeft(s: string, chars: set<char>): (r: string)
    ensures EndsWith(s, r)
    ensures r == "" || r[0] !in chars
    ensures forall k :: 0 <= k < |s| - |r| ==> s[k] in chars
    decreases |s|
  {
    if |s| > 0 && s[0] in chars then StripLeft(s[1..], chars) else s
  }

  /** `s.rstrip(chars)` */
  function StripRight(s: string, chars: set<char>): (r: string)
    ensures StartsWith(s, r)
    ensures r == "" || r[|r| - 1] !in chars
    ensures forall k :: |r| <= k < |s| ==> s[k] in chars
    decreases |s|
  {
    if |s| > 0 && s[|s| - 1] in chars then StripRight(s[..|s| - 1], chars) else s
  }

  /** `s.strip(chars)` */
  function Strip(s: string, chars: set<char>): (r: string)
    ensures r == "" || (r[0] !in chars && r[|r| - 1] !in chars)
    ensures exists i, j :: TrimmedAt(s, chars, i, j) && r == s[i..j]
  {
    var left := StripLeft(s, chars);
    StripIsSlice(s, chars, left, StripRight(left, chars));
    StripRight(left, chars)
  }

  /** Stripping both ends cuts off a run of `chars` at each end. */
  lemma StripIsSlice(s: string, chars: set<char>, left: string, r: string)
    requires left == StripLeft(s, chars) && r == StripRight(left, chars)
    ensures exists i, j :: TrimmedAt(s, chars, i, j) && r == s[i..j]
  {
    var i := |s| - |left|;
    var j := i + |r|;
    SuffixPrefixSlice(s, left, r);
    forall k | j <= k < |s|
      ensures s[k] in chars
    {
      assert left[k - i] in chars;
    }
    assert TrimmedAt(s, chars, i, j);
  }

  /** A prefix of a suffix is a slice. */
  lemma SuffixPrefixSlice(s: string, left: string, r: string)
    requires EndsWith(s, left) && StartsWith(left, r)
    ensures left == s[|s| - |left|..] && r == s[|s| - |left|..|s| - |left| + |r|]
    ensures forall k :: |s| - |left| <= k < |s| ==> s[k] == left[k - (|s| - |left|)]
  {
  }

  /** Everything of `s` before `i` and from `j` on is in `chars`. */
  predicate TrimmedAt(s: string, chars: set<char>, i: int, j: int) {
    && 0 <= i <= j <= |s|
    && (forall k :: 0 <= k < i ==> s[k] in chars)
    && (forall k :: j <= k < |s| ==> s[k] in chars)
  }

  /** Appending a character to a string appends it to what `lstrip` leaves, unless nothing is left. */
  lemma {:induction false} StripLeftSnoc(s: string, c: char, chars: set<char>)
    ensures StripLeft(s + [c], chars) == if StripLeft(s, chars) == "" then StripLeft([c], chars) else StripLeft(s, chars) + [c]
    decreases |s|
  {
    if |s| == 0 {
      assert s + [c] == [c];
    } else if s[0] in chars {
      assert (s + [c])[1..] == s[1..] + [c];
      StripLeftSnoc(s[1..], c, chars);
    }
  }

  /** Wrapping a string in a stripped character on both sides changes nothing that `strip` returns. */
  lemma StripWrapped(s: string, c: char, chars: set<char>)
    requires c in chars
    ensures Strip([c] + s + [c], chars) == Strip(s, chars)
  {
    assert ([c] + s + [c])[1..] == s + [c];
    StripLeftSnoc(s, c, chars);
    var left := StripLeft(s, chars);
    if left != "" {
      assert (left + [c])[..|left|] == left;
    }
  }

  /** `'{}'.format(o)` and `'%s' % o` for a string that may be `None`. */
  function Show(o: Option<string>): string
  {
    match o
    case None => "None"
    case Some(s) => s
  }

  /** The characters Python 2's `str.strip()` removes when given no argument. */
  const WHITESPACE: set<char> := {' ', '\t', '\n', '\r', '\U{0B}', '\U{0C}'}

  // ---------------------------------------------------------------------------
  // Facts about the operations above
  // ---------------------------------------------------------------------------

  /** The text before the first occurrence of `sep` does not contain `sep`. */
  lemma PrefixBeforeFirstOccurrence(s: string, sep: string, i: nat)
    requires sep != "" && i <= |s|
    requires forall j :: 0 <= j < i ==> !OccursAt(s, sep, j)
    ensures !Contains(s[..i], sep)
  {
    forall j | 0 <= j && j + |sep| <= i
      ensures !OccursAt(s[..i], sep, j)
    {
      assert s[..i][j..j + |sep|] == s[j..j + |sep|];
      assert !OccursAt(s, sep, j);
    }
  }

  /** A single-character separator occurs exactly where its character does. */
  lemma ContainsChar(s: string, c: char)
    ensures Contains(s, [c]) <==> c in s
  {
    if c in s {
      var i :| 0 <= i < |s| && s[i] == c;
      assert OccursAt(s, [c], i);
    }
    if Contains(s, [c]) {
      var i :| 0 <= i <= |s| && OccursAt(s, [c], i);
      assert i < |s| && s[i..i + 1] == [c];
      assert s[i] == c;
    }
  }

  /** No piece of a split contains the separator. */
  lemma {:induction false} SplitPiecesFree(s: string, sep: string)
    requires sep != ""
    ensures forall k :: 0 <= k < |Split(s, sep)| ==> !Contains(Split(s, sep)[k], sep)
    decreases |s|
  {
    match IndexOf(s, sep)
    case None =>
    case Some(i) =>
      PrefixBeforeFirstOccurrence(s, sep, i);
      SplitPiecesFree(s[i + |sep|..], sep);
  }

  /** Joining the pieces of a split restores the original string. */
  lemma {:induction false} JoinSplit(s: string, sep: string)
    requires sep != ""
    ensures Join(Split(s, sep), sep) == s
    decreases |s|
  {
    match IndexOf(s, sep)
    case None =>
    case Some(i) =>
      var rest := s[i + |sep|..];
      JoinSplit(rest, sep);
      SplitFirst(s, sep);
      JoinCons(s[..i], Split(rest, sep), sep);
  }

  /** A split with an occurrence is the text before it, then the split of the text after it. */
  lemma SplitFirst(s: string, sep: string)
    requires sep != "" && IndexOf(s, sep).Some?
    ensures var i := IndexOf(s, sep).value;
      && Split(s, sep) == [s[..i]] + Split(s[i + |sep|..], sep)
      && s == s[..i] + sep + s[i + |sep|..]
  {
    var i := IndexOf(s, sep).value;
    assert s[i..i + |sep|] == sep;
    assert s == s[..i] + s[i..i + |sep|] + s[i + |sep|..];
  }

  /** Joining a list with a head puts the separator after the head. */
  lemma JoinCons(x: string, xs: seq<string>, sep: string)
    requires |xs| >= 1
    ensures Join([x] + xs, sep) == x + sep + Join(xs, sep)
  {
    assert ([x] + xs)[1..] == xs;
  }

  /** How many times `c` occurs in `s`. */
  function Count(s: string, c: char): nat
  {
    if |s| == 0 then 0 else (if s[0] == c then 1 else 0) + Count(s[1..], c)
  }

  /** `Count` is the multiplicity of `c` in the multiset of `s`'s characters. */
  lemma {:induction false} CountIsMultiplicity(s: string, c: char)
    ensures Count(s, c) == multiset(s)[c]
    decreases |s|
  {
    if |s| > 0 {
      CountIsMultiplicity(s[1..], c);
      assert s == [s[0]] + s[1..];
    }
  }

  /** Counting over a concatenation adds the counts. */
  lemma {:induction false} CountAppend(s: string, t: string, c: char)
    ensures Count(s + t, c) == Count(s, c) + Count(t, c)
    decreases |s|
  {
    if |s| > 0 {
      CountAppend(s[1..], t, c);
      assert (s + t)[1..] == s[1..] + t;
    } else {
      assert s + t == t;
    }
  }

  /** How many times `c` occurs in all the strings of `xs` together. */
  function SumCounts(xs: seq<string>, c: char): nat
  {
    if |xs| == 0 then 0 else Count(xs[0], c) + SumCounts(xs[1..], c)
  }

  /** `n * k`, by repeated addition. */
  function Times(n: nat, k: nat): nat
  {
    if n == 0 then 0 else k + Times(n - 1, k)
  }

  /** Joining adds the pieces' occurrences of `c` and those of one separator between neighbours. */
  lemma {:induction false} JoinCount(xs: seq<string>, sep: string, c: char)
    requires |xs| >= 1
    ensures Count(Join(xs, sep), c) == SumCounts(xs, c) + Times(|xs| - 1, Count(sep, c))
    decreases |xs|
  {
    if |xs| > 1 {
      JoinCount(xs[1..], sep, c);
      CountAppend(xs[0], sep, c);
      CountAppend(xs[0] + sep, Join(xs[1..], sep), c);
    }
  }

  /** Joins of equally many pieces with the same characters have the same characters. */
  lemma JoinSameCharacters(a: seq<string>, b: seq<string>, sep: string)
    requires |a| == |b| >= 1
    requires forall c :: SumCounts(a, c) == SumCounts(b, c)
    ensures multiset(Join(a, sep)) == multiset(Join(b, sep))
  {
    forall c
      ensures multiset(Join(a, sep))[c] == multiset(Join(b, sep))[c]
    {
      JoinCountSame(a, b, sep, c);
      CountIsMultiplicity(Join(a, sep), c);
      CountIsMultiplicity(Join(b, sep), c);
    }
  }

  /** Joins of equally many pieces holding `c` equally often hold `c` equally often. */
  lemma JoinCountSame(a: seq<string>, b: seq<string>, sep: string, c: char)
    requires |a| == |b| >= 1 && SumCounts(a, c) == SumCounts(b, c)
    ensures Count(Join(a, sep), c) == Count(Join(b, sep), c)
  {
    JoinCount(a, sep, c);
    JoinCount(b, sep, c);
  }

  /**
    The last piece of a split is what follows the last occurrence of the
    separator: it holds no separator, it ends the string, and it follows a
    separator whenever the string holds one.
  */
  lemma AfterLastIsLastPiece(s: string, sep: string)
    requires sep != ""
    ensures !Contains(AfterLast(s, sep), sep)
    ensures EndsWith(s, AfterLast(s, sep))
    ensures !Contains(s, sep) ==> AfterLast(s, sep) == s
    ensures Contains(s, sep) ==> EndsWith(s, sep + AfterLast(s, sep))
  {
    SplitPiecesFree(s, sep);
    AfterLastSuffix(s, sep);
  }

  /** The last piece ends the string, after a separator when there is one. */
  lemma {:induction false} AfterLastSuffix(s: string, sep: string)
    requires sep != ""
    ensures EndsWith(s, AfterLast(s, sep))
    ensures IndexOf(s, sep).None? ==> AfterLast(s, sep) == s
    ensures IndexOf(s, sep).Some? ==> EndsWith(s, sep + AfterLast(s, sep))
    decreases |s|, 1
  {
    if IndexOf(s, sep).Some? {
      AfterLastSuffixPast(s, sep, IndexOf(s, sep).value);
    }
  }

  /** `AfterLastSuffix` past the first occurrence, at `i`. */
  lemma {:induction false} AfterLastSuffixPast(s: string, sep: string, i: nat)
    requires sep != "" && IndexOf(s, sep) == Some(i)
    ensures EndsWith(s, sep + AfterLast(s, sep))
    decreases |s|, 0
  {
    var rest := s[i + |sep|..];
    SplitFirst(s, sep);
    AfterLastStep(s, sep, i);
    AfterLastSuffix(rest, sep);
    var d := AfterLast(rest, sep);
    if IndexOf(rest, sep).Some? {
      EndsWithAfter(s[..i] + sep, rest, sep + d);
    } else {
      EndsWithAfter(s[..i], sep + rest, sep + d);
      assert s == s[..i] + (sep + rest);
    }
  }

  /** Past an occurrence, the last piece is the last piece of what follows it. */
  lemma AfterLastStep(s: string, sep: string, i: nat)
    requires sep != "" && IndexOf(s, sep) == Some(i)
    ensures AfterLast(s, sep) == AfterLast(s[i + |sep|..], sep)
  {
    var ps, qs := Split(s, sep), Split(s[i + |sep|..], sep);
    assert ps == [s[..i]] + qs;
    LastOfCons(s[..i], qs);
    assert |ps| - 1 == |qs|;
    assert AfterLast(s, sep) == ps[|qs|];
  }

  /** The last element of a list with a head in front is the last element of the list. */
  lemma LastOfCons<T>(x: T, xs: seq<T>)
    requires |xs| > 0
    ensures ([x] + xs)[|xs|] == xs[|xs| - 1]
  {
  }

  /** A suffix of the second part of a concatenation is a suffix of the whole. */
  lemma EndsWithAfter(a: string, b: string, d: string)
    requires EndsWith(b, d)
    ensures EndsWith(a + b, d)
  {
    assert (a + b)[|a + b| - |d|..] == b[|b| - |d|..];
  }

  /** Splitting a join at a character no piece holds gives the pieces back. */
  lemma {:induction false} SplitJoin(xs: seq<string>, c: char)
    requires |xs| >= 1
    requires forall k :: 0 <= k < |xs| ==> c !in xs[k]
    ensures Split(Join(xs, [c]), [c]) == xs
    decreases |xs|
  {
    var s := Join(xs, [c]);
    if |xs| == 1 {
      ContainsChar(xs[0], c);
    } else {
      var tail := Join(xs[1..], [c]);
      assert s == xs[0] + [c] + tail;
      var i := |xs[0]|;
      assert OccursAt(s, [c], i) by {
        assert s[i..i + 1] == [c];
      }
      forall j | 0 <= j < i
        ensures !OccursAt(s, [c], j)
      {
        assert s[j] == xs[0][j];
      }
      match IndexOf(s, [c])
      case None =>
        assert false;
      case Some(k) =>
        assert k == i;
        assert s[i + 1..] == tail;
        assert s[..i] == xs[0];
        assert Split(s, [c]) == [xs[0]] + Split(tail, [c]);
        SplitJoin(xs[1..], c);
        assert xs == [xs[0]] + xs[1..];
    }
  }
}
