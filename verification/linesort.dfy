/**
  The two line sorters the generator applies to a rendered table body:
  `str_line_sort`, a plain sort of the newline-separated pieces, and
  `dict_line_sort`, a stable sort on the integer key in front of each
  entry's first colon that falls back to the plain sort when a key does
  not parse.
*/
module LineSort {
  import opened Wrappers
  import opened Text
  import opened Ordering
  import opened PyInt

  const NEWLINE: string := "\n"

  // ---------------------------------------------------------------------------
  // str_line_sort
  // ---------------------------------------------------------------------------

  /** `str_line_sort(st)`: the pieces of `st` between newlines, sorted and joined again. */
  function StrLineSort(st: string): string {
    Join(SortStrings(Split(st, NEWLINE)), NEWLINE)
  }

  /** The pieces of a split at a newline hold no newline. */
  lemma PiecesHaveNoNewline(st: string)
    ensures forall k :: 0 <= k < |Split(st, NEWLINE)| ==> '\n' !in Split(st, NEWLINE)[k]
  {
    SplitPiecesFree(st, NEWLINE);
    forall k | 0 <= k < |Split(st, NEWLINE)|
      ensures '\n' !in Split(st, NEWLINE)[k]
    {
      ContainsChar(Split(st, NEWLINE)[k], '\n');
    }
  }

  /** Joining lines without newlines and splitting again gives the lines back. */
  lemma LinesRoundTrip(lines: seq<string>)
    requires |lines| >= 1
    requires forall k :: 0 <= k < |lines| ==> '\n' !in lines[k]
    ensures Split(Join(lines, NEWLINE), NEWLINE) == lines
  {
    SplitJoin(lines, '\n');
  }

  /** A sorted arrangement of newline-free lines is newline-free. */
  lemma SortedLinesHaveNoNewline(lines: seq<string>)
    requires forall k :: 0 <= k < |lines| ==> '\n' !in lines[k]
    ensures forall k :: 0 <= k < |SortStrings(lines)| ==> '\n' !in SortStrings(lines)[k]
  {
    var sorted := SortStrings(lines);
    forall k | 0 <= k < |sorted|
      ensures '\n' !in sorted[k]
    {
      assert sorted[k] in multiset(lines);
    }
  }

  /**
    The lines of `str_line_sort(st)` are the lines of `st` in ascending
    order: the same lines, as many times each, and sorted.
  */
  lemma StrLineSortLines(st: string)
    ensures Split(StrLineSort(st), NEWLINE) == SortStrings(Split(st, NEWLINE))
    ensures multiset(Split(StrLineSort(st), NEWLINE)) == multiset(Split(st, NEWLINE))
    ensures SortedStrings(Split(StrLineSort(st), NEWLINE))
  {
    var pieces := Split(st, NEWLINE);
    PiecesHaveNoNewline(st);
    SortedLinesHaveNoNewline(pieces);
    assert |SortStrings(pieces)| == |pieces| by {
      assert |multiset(SortStrings(pieces))| == |multiset(pieces)|;
    }
    LinesRoundTrip(SortStrings(pieces));
  }

  /** `str_line_sort` moves characters but neither adds nor drops any, newlines included. */
  lemma StrLineSortCharacters(st: string)
    ensures multiset(StrLineSort(st)) == multiset(st)
    ensures multiset(StrLineSort(st))['\n'] == multiset(st)['\n']
  {
    var pieces := Split(st, NEWLINE);
    assert Join(pieces, NEWLINE) == st by {
      JoinSplit(st, NEWLINE);
    }
    JoinPermutation(SortStrings(pieces), pieces);
  }

  /** Joining two arrangements of the same lines gives strings with the same characters. */
  lemma JoinPermutation(a: seq<string>, b: seq<string>)
    requires |b| >= 1 && multiset(a) == multiset(b)
    ensures multiset(Join(a, NEWLINE)) == multiset(Join(b, NEWLINE))
  {
    SameLength(a, b);
    forall c ensures SumCounts(a, c) == SumCounts(b, c) {
      SumCountsPermutation(a, b, c);
    }
    JoinSameCharacters(a, b, NEWLINE);
  }

  /** Rearrangements have the same length. */
  lemma SameLength<T>(a: seq<T>, b: seq<T>)
    requires multiset(a) == multiset(b)
    ensures |a| == |b|
  {
    assert |multiset(a)| == |multiset(b)|;
  }

  /** How often a character occurs across a list of strings does not depend on the list's order. */
  lemma {:induction false} SumCountsPermutation(a: seq<string>, b: seq<string>, c: char)
    requires multiset(a) == multiset(b)
    ensures SumCounts(a, c) == SumCounts(b, c)
    decreases |a|
  {
    if |a| > 0 {
      var i := RemoveFirst(a, b);
      SumCountsPermutation(a[1..], b[..i] + b[i + 1..], c);
      SumCountsRemove(b, i, c);
    } else {
      assert |multiset(b)| == 0;
    }
  }

  /** The first element of `a` sits somewhere in its rearrangement `b`; taking both out leaves rearrangements. */
  lemma RemoveFirst<T>(a: seq<T>, b: seq<T>) returns (i: nat)
    requires |a| > 0 && multiset(a) == multiset(b)
    ensures i < |b| && b[i] == a[0]
    ensures multiset(a[1..]) == multiset(b[..i] + b[i + 1..])
  {
    assert a[0] in multiset(b);
    i :| 0 <= i < |b| && b[i] == a[0];
    assert b == b[..i] + [b[i]] + b[i + 1..];
    assert a == [a[0]] + a[1..];
    calc {
      multiset(a[1..]);
      multiset(a) - multiset{a[0]};
      multiset(b) - multiset{b[i]};
      multiset(b[..i] + b[i + 1..]);
    }
  }


  /** Taking one string out of a list takes out its occurrences of `c`. */
  lemma {:induction false} SumCountsRemove(b: seq<string>, i: nat, c: char)
    requires i < |b|
    ensures SumCounts(b, c) == Count(b[i], c) + SumCounts(b[..i] + b[i + 1..], c)
    decreases i
  {
    if i > 0 {
      SumCountsRemove(b[1..], i - 1, c);
      RemoveAtCons(b, i);
    } else {
      assert b[..0] + b[1..] == b[1..];
    }
  }

  /** Taking out an element past the head keeps the head and takes it out of the tail. */
  lemma RemoveAtCons<T>(b: seq<T>, i: nat)
    requires 0 < i < |b|
    ensures var r := b[..i] + b[i + 1..]; |r| > 0 && r[0] == b[0] && r[1..] == b[1..][..i - 1] + b[1..][i..]
  {
    var r := b[..i] + b[i + 1..];
    assert r[1..] == b[1..][..i - 1] + b[1..][i..];
  }

  /** Sorting the lines a second time changes nothing. */
  lemma StrLineSortIdempotent(st: string)
    ensures StrLineSort(StrLineSort(st)) == StrLineSort(st)
  {
    StrLineSortLines(st);
    SortStringsIdempotent(Split(st, NEWLINE));
  }

  // ---------------------------------------------------------------------------
  // dict_line_sort
  // ---------------------------------------------------------------------------

  /** The sort key of one entry: `int(line.split(':')[0].strip().replace('"', ''))`, `None` when `int` fails. */
  function SortKey(line: string): Option<int> {
    ParseInt(Replace(Strip(Split(line, ":")[0], WHITESPACE), "\"", ""))
  }

  /** `st.split('\n')[0:-2]`: every piece but the last two. */
  function Front(st: string): (r: seq<string>)
    ensures |r| == if |Split(st, NEWLINE)| >= 2 then |Split(st, NEWLINE)| - 2 else 0
    ensures forall k :: 0 <= k < |r| ==> r[k] == Split(st, NEWLINE)[k]
  {
    var pieces := Split(st, NEWLINE);
    if |pieces| >= 2 then pieces[..|pieces| - 2] else []
  }

  /** Every line has an integer key. */
  predicate AllKeyed(lines: seq<string>) {
    forall k :: 0 <= k < |lines| ==> SortKey(lines[k]).Some?
  }

  /** The lines paired with their keys, in order. */
  function KeyLines(lines: seq<string>): (r: seq<Keyed>)
    requires AllKeyed(lines)
    ensures |r| == |lines|
    ensures forall k :: 0 <= k < |lines| ==> r[k] == Keyed(SortKey(lines[k]).value, lines[k])
  {
    if |lines| == 0 then []
    else
      var rest := lines[1..];
      assert AllKeyed(rest) by {
        forall k | 0 <= k < |rest| ensures SortKey(rest[k]).Some? {
          assert rest[k] == lines[k + 1];
        }
      }
      [Keyed(SortKey(lines[0]).value, lines[0])] + KeyLines(rest)
  }

  /**
    `dict_line_sort(st)`. When every piece but the last two has an integer
    key, those pieces are sorted stably by key and joined, and the last two
    pieces are gone; when some key fails to parse, the whole of `st` goes
    through `str_line_sort`.
  */
  function DictLineSort(st: string): string {
    var front := Front(st);
    if AllKeyed(front) then Join(Texts(SortByKey(KeyLines(front))), NEWLINE) else StrLineSort(st)
  }

  /** The lines of `lines` whose key is `k`, in order. */
  function LinesWithKey(lines: seq<string>, k: int): seq<string>
    requires AllKeyed(lines)
  {
    if |lines| == 0 then []
    else (if SortKey(lines[0]).value == k then [lines[0]] else []) + LinesWithKey(lines[1..], k)
  }

  /** A key that fails to parse anywhere before the last two pieces sends the whole string through the plain sort. */
  lemma DictLineSortFallback(st: string, i: nat)
    requires i < |Front(st)| && SortKey(Front(st)[i]).None?
    ensures DictLineSort(st) == StrLineSort(st)
  {
  }

  /**
    Only the lines before the last two pieces decide the path, and on the
    integer path the last two pieces never reach the output: any two tails
    give the same result.
  */
  lemma DictLineSortIgnoresTail(a: seq<string>, t1: seq<string>, t2: seq<string>)
    requires |t1| == 2 && |t2| == 2
    requires forall k :: 0 <= k < |a| + 2 ==> '\n' !in (a + t1)[k] && '\n' !in (a + t2)[k]
    ensures AllKeyed(a) ==> DictLineSort(Join(a + t1, NEWLINE)) == DictLineSort(Join(a + t2, NEWLINE))
    ensures !AllKeyed(a) ==> DictLineSort(Join(a + t1, NEWLINE)) == StrLineSort(Join(a + t1, NEWLINE))
  {
    FrontOfJoin(a, t1);
    FrontOfJoin(a, t2);
  }

  /** Splitting a join and dropping the last two pieces leaves the lines before them. */
  lemma FrontOfJoin(a: seq<string>, tail: seq<string>)
    requires |tail| == 2
    requires forall k :: 0 <= k < |a| + 2 ==> '\n' !in (a + tail)[k]
    ensures Front(Join(a + tail, NEWLINE)) == a
  {
    LinesRoundTrip(a + tail);
    assert (a + tail)[..|a|] == a;
  }

  /** Every keyed line carries the key its text parses to. */
  predicate KeysMatch(s: seq<Keyed>) {
    forall i :: 0 <= i < |s| ==> SortKey(s[i].text) == Some(s[i].key)
  }

  lemma {:induction false} TextsWithKey(s: seq<Keyed>, k: int)
    requires KeysMatch(s)
    ensures AllKeyed(Texts(s))
    ensures Texts(WithKey(s, k)) == LinesWithKey(Texts(s), k)
    decreases |s|
  {
    if |s| > 0 {
      TextsWithKey(s[1..], k);
      assert Texts(s)[1..] == Texts(s[1..]);
      assert Texts(WithKey(s, k)) == Texts((if s[0].key == k then [s[0]] else []) + WithKey(s[1..], k));
      TextsAppend(if s[0].key == k then [s[0]] else [], WithKey(s[1..], k));
    }
  }

  lemma TextsAppend(a: seq<Keyed>, b: seq<Keyed>)
    ensures Texts(a + b) == Texts(a) + Texts(b)
  {
    var l := Texts(a + b);
    var r := Texts(a) + Texts(b);
    assert |l| == |r|;
    forall i | 0 <= i < |l|
      ensures l[i] == r[i]
    {
      if i < |a| {
        assert (a + b)[i] == a[i];
      } else {
        assert (a + b)[i] == b[i - |a|];
      }
    }
  }

  /** Pairing lines with their keys and reading the texts back gives the lines. */
  lemma KeyLinesTexts(lines: seq<string>)
    requires AllKeyed(lines)
    ensures Texts(KeyLines(lines)) == lines
  {
  }

  /**
    The integer path: the lines of the result are the lines before the last
    two pieces, each as often as before, ascending by key, and lines that
    share a key keep their order.
  */
  lemma DictLineSortByKey(st: string)
    requires AllKeyed(Front(st)) && |Front(st)| >= 1
    ensures var lines := Split(DictLineSort(st), NEWLINE);
      && multiset(lines) == multiset(Front(st))
      && AllKeyed(lines)
      && (forall i, j :: 0 <= i < j < |lines| ==> SortKey(lines[i]).value <= SortKey(lines[j]).value)
      && (forall k :: LinesWithKey(lines, k) == LinesWithKey(Front(st), k))
  {
    var front := Front(st);
    var keyed := KeyLines(front);
    var sorted := SortByKey(keyed);
    var lines := Split(DictLineSort(st), NEWLINE);
    assert lines == Texts(sorted) by {
      SortedLinesRoundTrip(st);
    }
    assert multiset(lines) == multiset(front) by {
      KeyLinesTexts(front);
      TextsMultiset(sorted, keyed);
    }
    SortedLinesKeys(front);
  }

  /** The sorted texts are keyed, ascend by key, and keep the order of lines that share a key. */
  lemma SortedLinesKeys(front: seq<string>)
    requires AllKeyed(front)
    ensures var lines := Texts(SortByKey(KeyLines(front)));
      && AllKeyed(lines)
      && (forall i, j :: 0 <= i < j < |lines| ==> SortKey(lines[i]).value <= SortKey(lines[j]).value)
      && (forall k :: LinesWithKey(lines, k) == LinesWithKey(front, k))
  {
    var keyed := KeyLines(front);
    var sorted := SortByKey(keyed);
    SortedKeysMatch(front);
    assert KeysMatch(keyed);
    KeyLinesTexts(front);
    forall k
      ensures LinesWithKey(Texts(sorted), k) == LinesWithKey(front, k)
    {
      TextsWithKey(sorted, k);
      TextsWithKey(keyed, k);
    }
  }

  /** After sorting, every line still carries its own key. */
  lemma SortedKeysMatch(lines: seq<string>)
    requires AllKeyed(lines)
    ensures KeysMatch(SortByKey(KeyLines(lines)))
  {
    var keyed := KeyLines(lines);
    var sorted := SortByKey(keyed);
    forall i | 0 <= i < |sorted|
      ensures SortKey(sorted[i].text) == Some(sorted[i].key)
    {
      var j := IndexOfMember(keyed, sorted[i]);
      assert keyed[j] == Keyed(SortKey(lines[j]).value, lines[j]);
    }
  }

  /** An element of a rearrangement of `s` sits at some index of `s`. */
  lemma IndexOfMember<T>(s: seq<T>, x: T) returns (j: nat)
    requires x in multiset(s)
    ensures j < |s| && s[j] == x
  {
    assert x in s;
    j :| 0 <= j < |s| && s[j] == x;
  }

  /** The sorted lines come back unchanged from splitting their join. */
  lemma SortedLinesRoundTrip(st: string)
    requires AllKeyed(Front(st)) && |Front(st)| >= 1
    ensures var texts := Texts(SortByKey(KeyLines(Front(st))));
      Split(Join(texts, NEWLINE), NEWLINE) == texts
  {
    var front := Front(st);
    var keyed := KeyLines(front);
    var sorted := SortByKey(keyed);
    assert |sorted| == |keyed| by {
      assert |multiset(sorted)| == |multiset(keyed)|;
    }
    assert forall j :: 0 <= j < |keyed| ==> '\n' !in keyed[j].text by {
      PiecesHaveNoNewline(st);
    }
    TextsNewlineFree(sorted, keyed);
    LinesRoundTrip(Texts(sorted));
  }

  /** Rearranging newline-free lines leaves them newline-free. */
  lemma TextsNewlineFree(sorted: seq<Keyed>, keyed: seq<Keyed>)
    requires multiset(sorted) == multiset(keyed)
    requires forall j :: 0 <= j < |keyed| ==> '\n' !in keyed[j].text
    ensures forall i :: 0 <= i < |sorted| ==> '\n' !in Texts(sorted)[i]
  {
    forall i | 0 <= i < |sorted|
      ensures '\n' !in Texts(sorted)[i]
    {
      assert sorted[i] in multiset(keyed);
      var j :| 0 <= j < |keyed| && keyed[j] == sorted[i];
    }
  }

  /** Texts of two arrangements of the same keyed lines are arrangements of the same texts. */
  lemma {:induction false} TextsMultiset(a: seq<Keyed>, b: seq<Keyed>)
    requires multiset(a) == multiset(b)
    ensures multiset(Texts(a)) == multiset(Texts(b))
    decreases |a|
  {
    if |a| > 0 {
      var i := RemoveFirst(a, b);
      var rest := b[..i] + b[i + 1..];
      assert multiset(Texts(a)) == multiset{a[0].text} + multiset(Texts(a[1..])) by {
        assert Texts(a) == [a[0].text] + Texts(a[1..]);
      }
      assert multiset(Texts(b)) == multiset{a[0].text} + multiset(Texts(rest)) by {
        assert b == b[..i] + ([b[i]] + b[i + 1..]);
        TextsAppend(b[..i], [b[i]] + b[i + 1..]);
        TextsAppend([b[i]], b[i + 1..]);
        TextsAppend(b[..i], b[i + 1..]);
      }
      TextsMultiset(a[1..], rest);
    } else {
      assert |multiset(b)| == 0;
    }
  }


  /**
    On a table body of entries each followed by a newline, the integer path
    keeps every entry but the last: the last entry and the empty piece after
    the final newline are the two pieces dropped.
  */
  lemma DictLineSortDropsLastEntry(entries: seq<string>)
    requires |entries| >= 1
    requires forall k :: 0 <= k < |entries| ==> '\n' !in entries[k]
    ensures Front(Join(entries + [""], NEWLINE)) == entries[..|entries| - 1]
  {
    var front, tail := EntriesAndTail(entries);
    assert Front(Join(front + tail, NEWLINE)) == front by {
      FrontOfJoin(front, tail);
    }
  }

  /**
    When the string has at most one newline, the integer path keeps no line:
    no key is parsed, so the integer path is taken whatever the text, and the
    result is empty.
  */
  lemma DictLineSortNothingKept(st: string)
    requires |Split(st, NEWLINE)| <= 2
    ensures Front(st) == [] && DictLineSort(st) == ""
  {
    assert AllKeyed(Front(st));
    assert |SortByKey(KeyLines(Front(st)))| == 0 by {
      assert |multiset(SortByKey(KeyLines(Front(st))))| == 0;
    }
  }

  /**
    A table of a single entry, one newline and a newline-free tail: the integer
    path drops the entry, whatever its key, and leaves nothing.
  */
  lemma DictLineSortOneEntry(e: string, t: string)
    requires '\n' !in e && '\n' !in t
    ensures DictLineSort(e + NEWLINE + t) == ""
  {
    assert Join([e, t], NEWLINE) == e + NEWLINE + t by {
      assert [e, t][1..] == [t];
    }
    LinesRoundTrip([e, t]);
    DictLineSortNothingKept(e + NEWLINE + t);
  }

  /** The entries and the empty piece after the final newline, as all but the last entry and a two-piece tail. */
  lemma EntriesAndTail(entries: seq<string>) returns (front: seq<string>, tail: seq<string>)
    requires |entries| >= 1
    requires forall k :: 0 <= k < |entries| ==> '\n' !in entries[k]
    ensures front == entries[..|entries| - 1] && |tail| == 2 && entries + [""] == front + tail
    ensures forall k :: 0 <= k < |front| + 2 ==> '\n' !in (front + tail)[k]
  {
    front, tail := entries[..|entries| - 1], [entries[|entries| - 1], ""];
    assert entries + [""] == front + tail by {
      assert entries == front + [entries[|entries| - 1]];
    }
    forall k | 0 <= k < |front| + 2
      ensures '\n' !in (front + tail)[k]
    {
      assert (front + tail)[k] == (entries + [""])[k];
    }
  }
}
