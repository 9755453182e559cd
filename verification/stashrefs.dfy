/**
  The STASH cross-reference writer: each retrieved cross-reference (a stash
  code, its grid code and an optional field code) becomes one line of the
  `STASH_TRANS` dictionary literal. The module file is a value here: the
  text appended to it, together with the exception, if any, that stopped
  the writing part-way (the file keeps what was written before it).
*/
module StashRefs {
  import opened Wrappers
  import opened Exceptions
  import opened Text
  import opened PyInt

  /** `HEADER`: the module's docstring. */
  const HEADER: string := "\n\"\"\"\nAuto-generated from SciTools/iris-code-generators:tools/gen_stash_refs.py\nRelates grid code and field code to the stash code.\n\n\"\"\"\n"

  /** `CODE_PREAMBLE`: the `Stash` named tuple. */
  const CODE_PREAMBLE: string := "from collections import namedtuple\n\n\nStash = namedtuple('Stash', 'grid_code field_code')\n\n\n"

  const OPEN_TRANS: string := "STASH_TRANS = {\n"
  const CLOSE_TRANS: string := "}\n"
  const INDENT: string := "    "
  /** How every entry line ends. */
  const LINE_END: string := "),\n"

  /** Everything written before the first entry. */
  const MODULE_START: string := HEADER + CODE_PREAMBLE + OPEN_TRANS

  /** The raised exceptions: `None.replace` and `int(None)`. */
  const NO_REPLACE: Exception := AttributeError("'NoneType' object has no attribute 'replace'")
  const INT_OF_NONE: Exception := TypeError("int() argument must be a string or a number, not 'NoneType'")

  /** One query row: `xref.get('stash')`, `xref.get('grid')`, `xref.get('lbfcn')`. */
  datatype Xref = Xref(stash: Option<string>, grid: Option<string>, lbfcn: Option<string>)

  /** What was appended to the module file, and the exception that ended the writing, if any. */
  datatype Written = Written(text: string, raised: Option<Exception>)

  /** The field code as written: kept verbatim when `int()` accepts it, `0` when it is missing or not an integer. */
  function FieldCode(lbfcn: Option<string>): (r: string)
    ensures ParseInt(r).Some?
    ensures lbfcn.Some? && ParseInt(lbfcn.value).Some? ==> r == lbfcn.value
    ensures lbfcn.None? || ParseInt(lbfcn.value).None? ==> ParseInt(r) == Some(0)
  {
    if lbfcn.Some? && ParseInt(lbfcn.value).Some? then lbfcn.value
    else
      assert Strip("0", WHITESPACE) == "0" by {
        assert StripLeft("0", WHITESPACE) == "0";
        assert StripRight("0", WHITESPACE) == "0";
      }
      "0"
  }

  /** Normalising the field code twice changes nothing. */
  lemma FieldCodeIdempotent(lbfcn: Option<string>)
    ensures FieldCode(Some(FieldCode(lbfcn))) == FieldCode(lbfcn)
  {
  }

  /** The cross-reference has both a stash code and a grid code, so writing its line raises nothing. */
  predicate Writes(x: Xref) {
    x.stash.Some? && x.grid.Some?
  }

  /**
    The line for one cross-reference. The stash code and grid code are
    written verbatim, quotes and all, whether or not they are well formed;
    a missing stash code raises at `stash.replace` and a missing grid code
    at `int(grid)`.
  */
  function Entry(x: Xref): (r: Result<string, Exception>)
    ensures r.Success? <==> Writes(x)
    ensures x.stash.None? ==> r == Failure(NO_REPLACE)
    ensures x.stash.Some? && x.grid.None? ==> r == Failure(INT_OF_NONE)
    ensures r.Success? ==> StartsWith(r.value, INDENT + x.stash.value + ": Stash(" + x.grid.value + ", ")
    ensures r.Success? ==> EndsWith(r.value, LINE_END)
  {
    if x.stash.None? then Failure(NO_REPLACE)
    else if x.grid.None? then Failure(INT_OF_NONE)
    else
      var line := INDENT + x.stash.value + ": Stash(" + x.grid.value + ", " + FieldCode(x.lbfcn) + "),\n";
      assert line == (INDENT + x.stash.value + ": Stash(" + x.grid.value + ", ") + (FieldCode(x.lbfcn) + "),\n");
      Success(line)
  }

  // ---------------------------------------------------------------------------
  // Reading a line back
  // ---------------------------------------------------------------------------

  /** The text before the first `c` and the text after it, if `c` occurs. */
  function SplitAtFirst(s: string, c: char): (r: Option<(string, string)>)
    ensures r.Some? ==> r.value.0 + [c] + r.value.1 == s && c !in r.value.0
    ensures r.None? ==> c !in s
  {
    if |s| == 0 then None
    else if s[0] == c then
      assert s == [] + [c] + s[1..];
      Some(([], s[1..]))
    else
      match SplitAtFirst(s[1..], c)
      case None => None
      case Some((before, after)) =>
        assert s == [s[0]] + s[1..];
        Some(([s[0]] + before, after))
  }

  /** Splitting at the first `c` finds the boundary after a prefix free of `c`. */
  lemma {:induction false} SplitAtFirstPrefix(a: string, c: char, b: string)
    requires c !in a
    ensures SplitAtFirst(a + [c] + b, c) == Some((a, b))
    decreases |a|
  {
    if |a| == 0 {
      assert a + [c] + b == [c] + b;
    } else {
      assert (a + [c] + b)[1..] == a[1..] + [c] + b;
      SplitAtFirstPrefix(a[1..], c, b);
      assert [a[0]] + a[1..] == a;
    }
  }

  /** The stash code, grid code and field code of a written line. */
  datatype Fields = Fields(stash: string, grid: string, fieldCode: string)

  /** The part of a line after the stash code's colon. */
  function CodesPart(grid: string, code: string): string {
    " Stash(" + grid + ", " + code + "),\n"
  }

  /** Reads the part of a line after the stash code's colon back into the grid code and the field code. */
  function ParseCodes(afterStash: string): (r: Option<(string, string)>)
    ensures r.Some? ==> ',' !in r.value.0
  {
    if !StartsWith(afterStash, " Stash(") then None
    else
      match SplitAtFirst(afterStash[7..], ',')
      case None => None
      case Some((grid, afterGrid)) =>
        if |afterGrid| >= 4 && afterGrid[0] == ' ' && afterGrid[|afterGrid| - 3..] == "),\n" then
          Some((grid, afterGrid[1..|afterGrid| - 3]))
        else None
  }

  /** Reads a line of the dictionary literal back into its three codes. */
  function ParseEntry(line: string): (r: Option<Fields>)
    ensures r.Some? ==> ':' !in r.value.stash && ',' !in r.value.grid
  {
    if !StartsWith(line, INDENT) then None
    else
      match SplitAtFirst(line[|INDENT|..], ':')
      case None => None
      case Some((stash, afterStash)) =>
        match ParseCodes(afterStash)
        case None => None
        case Some((grid, code)) => Some(Fields(stash, grid, code))
  }

  /** The codes part of a line reads back as its grid code and field code, provided the grid code has no comma. */
  lemma ParseCodesRoundTrip(grid: string, code: string)
    requires ',' !in grid
    ensures ParseCodes(CodesPart(grid, code)) == Some((grid, code))
  {
    var afterStash := CodesPart(grid, code);
    var tail := " " + code + "),\n";
    assert afterStash[7..] == grid + [','] + tail;
    SplitAtFirstPrefix(grid, ',', tail);
    assert tail[1..|tail| - 3] == code;
  }

  /**
    A written line reads back as the stash code, the grid code and the
    normalised field code, provided the stash code has no colon and the
    grid code no comma.
  */
  lemma EntryRoundTrip(x: Xref)
    requires Writes(x)
    requires ':' !in x.stash.value && ',' !in x.grid.value
    ensures ParseEntry(Entry(x).value) == Some(Fields(x.stash.value, x.grid.value, FieldCode(x.lbfcn)))
  {
    var stash, grid, code := x.stash.value, x.grid.value, FieldCode(x.lbfcn);
    EntryAfterIndent(x);
    SplitAtFirstPrefix(stash, ':', CodesPart(grid, code));
    ParseCodesRoundTrip(grid, code);
  }

  /** After the indent, a line is the stash code, a colon and the codes part. */
  lemma EntryAfterIndent(x: Xref)
    requires Writes(x)
    ensures StartsWith(Entry(x).value, INDENT)
    ensures Entry(x).value[|INDENT|..] == x.stash.value + [':'] + CodesPart(x.grid.value, FieldCode(x.lbfcn))
  {
    LineShape(INDENT, x.stash.value, x.grid.value, FieldCode(x.lbfcn));
  }

  /** A line regrouped as its indent, then the stash code, the colon and the codes part. */
  lemma LineShape(indent: string, stash: string, grid: string, code: string)
    ensures var line := indent + stash + ": Stash(" + grid + ", " + code + "),\n";
      |line| >= |indent| && line[..|indent|] == indent && line[|indent|..] == stash + [':'] + CodesPart(grid, code)
  {
    var line := indent + stash + ": Stash(" + grid + ", " + code + "),\n";
    var rest := stash + [':'] + CodesPart(grid, code);
    assert line == indent + rest;
  }

  // ---------------------------------------------------------------------------
  // The loop over the cross-references
  // ---------------------------------------------------------------------------


  /** The lines written for `xrefs` in order, up to the first exception. */
  function Entries(xrefs: seq<Xref>): (r: Written)
    ensures r.raised.None? <==> forall i :: 0 <= i < |xrefs| ==> Writes(xrefs[i])
    ensures r.raised.Some? ==> r.raised.value in {NO_REPLACE, INT_OF_NONE}
    ensures r.text == "" || EndsWith(r.text, LINE_END)
    decreases |xrefs|
  {
    if |xrefs| == 0 then Written("", None)
    else
      match Entry(xrefs[0])
      case Failure(e) => Written("", Some(e))
      case Success(line) =>
        var rest := Entries(xrefs[1..]);
        assert forall i :: 1 <= i < |xrefs| ==> xrefs[i] == xrefs[1..][i - 1];
        if rest.text == "" then
          assert line + rest.text == line;
          Written(line + rest.text, rest.raised)
        else
          EndsWithAfter(line, rest.text, LINE_END);
          Written(line + rest.text, rest.raised)
  }

  /** The lines follow the input order: the entries of `a + b` are those of `a`, then, unless `a` raised, those of `b`. */
  lemma {:induction false} EntriesAppend(a: seq<Xref>, b: seq<Xref>)
    ensures Entries(a + b) ==
      if Entries(a).raised.Some? then Entries(a)
      else Written(Entries(a).text + Entries(b).text, Entries(b).raised)
    decreases |a|
  {
    if |a| == 0 {
      assert a + b == b;
    } else {
      assert (a + b)[0] == a[0];
      assert (a + b)[1..] == a[1..] + b;
      EntriesAppend(a[1..], b);
      if Writes(a[0]) {
        var line := Entry(a[0]).value;
        assert line + (Entries(a[1..]).text + Entries(b).text) == (line + Entries(a[1..]).text) + Entries(b).text;
      }
    }
  }

  /** One cross-reference writes its line or raises its exception. */
  lemma EntriesSingle(x: Xref)
    ensures Entries([x]) == match Entry(x) case Success(line) => Written(line, None) case Failure(e) => Written("", Some(e))
  {
    if Entry(x).Success? {
      assert [x][1..] == [];
      assert Entry(x).value + "" == Entry(x).value;
    }
  }

  lemma DropTake<T>(s: seq<T>, i: nat)
    requires 0 < i <= |s|
    ensures s[..i][1..] == s[1..][..i - 1]
  {
  }

  /** The exception is that of the first cross-reference missing its stash or grid code, and nothing after it is written. */
  lemma {:induction false} EntriesStopAtFirstFailure(xrefs: seq<Xref>, i: nat)
    requires i < |xrefs| && !Writes(xrefs[i])
    requires forall j :: 0 <= j < i ==> Writes(xrefs[j])
    ensures Entries(xrefs) == Written(Entries(xrefs[..i]).text, Some(Entry(xrefs[i]).error))
    decreases i
  {
    if i == 0 {
      assert xrefs[..0] == [];
    } else {
      var rest := xrefs[1..];
      assert Writes(xrefs[0]);
      assert rest[i - 1] == xrefs[i];
      assert forall j :: 0 <= j < i - 1 ==> rest[j] == xrefs[j + 1];
      EntriesStopAtFirstFailure(rest, i - 1);
      DropTake(xrefs, i);
      assert xrefs[..i][0] == xrefs[0];
    }
  }

  /**
    The start followed by whole entry lines never ends with the closing
    brace: its last two characters are the opening `{` and a newline, or the
    `,` and newline that end an entry.
  */
  lemma OpenEndsOpen(body: string)
    requires body == "" || EndsWith(body, LINE_END)
    ensures !EndsWith(MODULE_START + body, CLOSE_TRANS)
  {
    var t := MODULE_START + body;
    if body == "" {
      assert t == MODULE_START;
      assert t[|t| - 2] == '{';
    } else {
      assert t[|t| - 2] == body[|body| - 2] == ',';
    }
  }

  /** `write_cross_reference_module` after `prep_module_file`: the text appended to the module file. */
  function WriteCrossReferenceModule(xrefs: seq<Xref>): (r: Written)
    ensures StartsWith(r.text, MODULE_START)
    ensures r.raised.None? <==> forall i :: 0 <= i < |xrefs| ==> Writes(xrefs[i])
    ensures r.raised.Some? ==> r.raised.value in {NO_REPLACE, INT_OF_NONE}
    ensures r.raised.None? <==> EndsWith(r.text, CLOSE_TRANS)
  {
    var body := Entries(xrefs);
    if body.raised.Some? then
      OpenEndsOpen(body.text);
      Written(MODULE_START + body.text, body.raised)
    else
      Written(MODULE_START + body.text + CLOSE_TRANS, None)
  }

  /** The lines of cross-references that all write, one per cross-reference and in input order. */
  function Lines(xrefs: seq<Xref>): (r: seq<string>)
    requires forall i :: 0 <= i < |xrefs| ==> Writes(xrefs[i])
    ensures |r| == |xrefs|
    ensures forall i :: 0 <= i < |xrefs| ==> r[i] == Entry(xrefs[i]).value
  {
    seq(|xrefs|, i requires 0 <= i < |xrefs| => Entry(xrefs[i]).value)
  }

  /** When nothing raises, the entries are the lines joined. */
  lemma {:induction false} EntriesJoin(xrefs: seq<Xref>)
    requires forall i :: 0 <= i < |xrefs| ==> Writes(xrefs[i])
    ensures Entries(xrefs) == Written(Join(Lines(xrefs), ""), None)
    decreases |xrefs|
  {
    if |xrefs| > 0 {
      EntriesJoin(xrefs[1..]);
      var lines := Lines(xrefs);
      assert lines[1..] == Lines(xrefs[1..]) by {
        forall k | 0 <= k < |xrefs| - 1
          ensures lines[1..][k] == Lines(xrefs[1..])[k]
        {
          assert xrefs[1..][k] == xrefs[k + 1];
        }
      }
      assert lines[0] + "" == lines[0];
    }
  }

  /** A complete module: the start, then one line per cross-reference in input order, then the closing brace. */
  lemma WriteComplete(xrefs: seq<Xref>)
    requires forall i :: 0 <= i < |xrefs| ==> Writes(xrefs[i])
    ensures WriteCrossReferenceModule(xrefs) == Written(MODULE_START + Join(Lines(xrefs), "") + CLOSE_TRANS, None)
  {
    EntriesJoin(xrefs);
  }

  /** An aborted module: the start and the lines before the first cross-reference that raised, with no closing brace. */
  lemma WriteAborted(xrefs: seq<Xref>, i: nat)
    requires i < |xrefs| && !Writes(xrefs[i])
    requires forall j :: 0 <= j < i ==> Writes(xrefs[j])
    ensures WriteCrossReferenceModule(xrefs) == Written(MODULE_START + Join(Lines(xrefs[..i]), ""), Some(Entry(xrefs[i]).error))
  {
    EntriesStopAtFirstFailure(xrefs, i);
    EntriesJoin(xrefs[..i]);
  }
}
