/**
  `bodc_udunit_fix`: the textual rewrites that bring a units string served by
  the BODC vocabulary into udunits syntax.
*/
module Units {
  import opened Wrappers
  import opened Text

  const QUOTE: set<char> := {'"'}
  const CANONICAL_SLASH := "'canonical_units': '/"
  const CANONICAL_ONE := "'canonical_units': '1/"

  /** The four replacements after the quotes are stripped, in order. */
  function Respell(u: string): string {
    var dimensionless := Replace(u, "Dmnless", "1");
    var counted := Replace(dimensionless, "#", "1");
    var degrees := Replace(counted, "deg", "degree");
    Replace(degrees, "degreeree", "degree")
  }

  /** A reciprocal canonical unit gains its numerator; everything else passes through. */
  function Canonical(u: string): string {
    if StartsWith(u, CANONICAL_SLASH) then CANONICAL_ONE + AfterLast(u, CANONICAL_SLASH) else u
  }

  /** `bodc_udunit_fix(units)` */
  function BodcUdunitFix(units: string): (r: string)
    ensures '#' !in r
  {
    var respelled := Respell(Strip(units, QUOTE));
    assert '#' !in respelled by {
      NoHashAfterRespell(Strip(units, QUOTE));
    }
    assert '#' !in Canonical(respelled) by {
      if StartsWith(respelled, CANONICAL_SLASH) {
        var pieces := Split(respelled, CANONICAL_SLASH);
        SplitPiecesWithout(respelled, CANONICAL_SLASH, '#');
        assert '#' !in pieces[|pieces| - 1];
      }
    }
    ReplaceKeepsOut(Canonical(respelled), "'dB'", "'1'", '#');
    Replace(Canonical(respelled), "'dB'", "'1'")
  }

  // ---------------------------------------------------------------------------
  // Facts about `replace`
  // ---------------------------------------------------------------------------

  /** Joining strings that lack `c` with a separator that lacks `c` gives a string that lacks `c`. */
  lemma {:induction false} JoinWithout(xs: seq<string>, sep: string, c: char)
    requires forall k :: 0 <= k < |xs| ==> c !in xs[k]
    requires c !in sep
    ensures c !in Join(xs, sep)
    decreases |xs|
  {
    if |xs| > 1 {
      JoinWithout(xs[1..], sep, c);
      assert Join(xs, sep) == xs[0] + sep + Join(xs[1..], sep);
    }
  }

  /** The pieces of a split hold only characters of the input. */
  lemma {:induction false} SplitPiecesWithout(s: string, sep: string, c: char)
    requires sep != "" && c !in s
    ensures forall k :: 0 <= k < |Split(s, sep)| ==> c !in Split(s, sep)[k]
    decreases |s|
  {
    match IndexOf(s, sep)
    case None =>
    case Some(i) =>
      SplitFirst(s, sep);
      assert c !in s[..i] && c !in s[i + |sep|..] by {
        assert forall x :: x in s[..i] ==> x in s;
        assert forall x :: x in s[i + |sep|..] ==> x in s;
      }
      SplitPiecesWithout(s[i + |sep|..], sep, c);
  }

  /** `replace` introduces a character only through the replacement. */
  lemma ReplaceKeepsOut(s: string, target: string, replacement: string, c: char)
    requires target != "" && c !in s && c !in replacement
    ensures c !in Replace(s, target, replacement)
  {
    SplitPiecesWithout(s, target, c);
    JoinWithout(Split(s, target), replacement, c);
  }

  /** Replacing a single character by a string without it removes every occurrence. */
  lemma ReplaceRemoves(s: string, c: char, replacement: string)
    requires c !in replacement
    ensures c !in Replace(s, [c], replacement)
  {
    var pieces := Split(s, [c]);
    SplitPiecesFree(s, [c]);
    forall k | 0 <= k < |pieces|
      ensures c !in pieces[k]
    {
      ContainsChar(pieces[k], c);
    }
    JoinWithout(pieces, replacement, c);
  }

  /** No `#` survives the replacements. */
  lemma NoHashAfterRespell(u: string)
    ensures '#' !in Respell(u)
  {
    var counted := Replace(Replace(u, "Dmnless", "1"), "#", "1");
    ReplaceRemoves(Replace(u, "Dmnless", "1"), '#', "1");
    ReplaceKeepsOut(counted, "deg", "degree", '#');
    ReplaceKeepsOut(Replace(counted, "deg", "degree"), "degreeree", "degree", '#');
  }

  /** A string missing one character of `target` does not contain `target`. */
  lemma AbsentBy(s: string, target: string, j: nat)
    requires j < |target| && target[j] !in s
    ensures !Contains(s, target)
  {
  }

  /** Replacing a target that does not occur changes nothing. */
  lemma ReplaceAbsent(s: string, target: string, replacement: string)
    requires target != "" && !Contains(s, target)
    ensures Replace(s, target, replacement) == s
  {
  }

  /** A string that starts with `target` and has no further occurrence splits into the empty string and the rest. */
  lemma SplitLeading(target: string, rest: string)
    requires target != "" && !Contains(rest, target)
    ensures Split(target + rest, target) == ["", rest]
  {
    var s := target + rest;
    assert s[..|target|] == target;
    assert IndexOf(s, target) == Some(0);
    assert s[|target|..] == rest;
  }

  /** Replacing a leading target that does not occur again. */
  lemma ReplaceLeading(target: string, rest: string, replacement: string)
    requires target != "" && !Contains(rest, target)
    ensures Replace(target + rest, target, replacement) == replacement + rest
  {
    SplitLeading(target, rest);
    assert Join(["", rest], replacement) == "" + replacement + Join([rest], replacement);
  }

  /** `strip` leaves a string alone when neither end is stripped. */
  lemma StripUnquoted(u: string)
    requires u == "" || (u[0] != '"' && u[|u| - 1] != '"')
    ensures Strip(u, QUOTE) == u
  {
  }

  // ---------------------------------------------------------------------------
  // What the rewrites do
  // ---------------------------------------------------------------------------

  /** The outer quotes are stripped: a quoted unit is fixed as the bare unit is. */
  lemma BodcStripsQuotes(u: string)
    ensures BodcUdunitFix("\"" + u + "\"") == BodcUdunitFix(u)
  {
    assert "\"" + u + "\"" == ['"'] + u + ['"'];
    StripWrapped(u, '"', QUOTE);
  }

  /** The replacements leave a string alone when it holds none of their targets. */
  lemma RespellPlain(u: string)
    requires 'D' !in u && '#' !in u && 'e' !in u
    ensures Respell(u) == u
  {
    AbsentBy(u, "Dmnless", 0);
    AbsentBy(u, "#", 0);
    AbsentBy(u, "deg", 1);
    AbsentBy(u, "degreeree", 1);
  }

  /** The last two steps leave a string without quotes alone. */
  lemma FinishPlain(u: string)
    requires '\'' !in u
    ensures Replace(Canonical(u), "'dB'", "'1'") == u
  {
    AbsentBy(u, "'dB'", 0);
    assert !StartsWith(u, CANONICAL_SLASH) by {
      if |CANONICAL_SLASH| <= |u| {
        assert u[0] == u[..|CANONICAL_SLASH|][0];
      }
    }
  }

  /** A unit without outer quotes whose respelling has no single quote is fixed to that respelling. */
  lemma FixedAsRespelled(u: string, respelled: string)
    requires u == "" || (u[0] != '"' && u[|u| - 1] != '"')
    requires Respell(u) == respelled && '\'' !in respelled
    ensures BodcUdunitFix(u) == respelled
  {
    StripUnquoted(u);
    FinishPlain(respelled);
  }

  /** `'degree'` is left as it is. */
  lemma BodcDegree()
    ensures BodcUdunitFix("degree") == "degree"
  {
    RespellDegree();
    FixedAsRespelled("degree", "degree");
  }

  lemma RespellDegree()
    ensures Respell("degree") == "degree"
  {
    assert Replace("degree", "Dmnless", "1") == "degree" by {
      AbsentBy("degree", "Dmnless", 0);
    }
    assert Replace("degree", "#", "1") == "degree" by {
      AbsentBy("degree", "#", 0);
    }
    DegreeGrows();
    assert Replace("degreeree", "degreeree", "degree") == "degree" by {
      ReplaceLeading("degreeree", "", "degree");
      assert "degreeree" + "" == "degreeree";
    }
  }

  /** The `deg` replacement alone turns `degree` into `degreeree`, which the next step repairs. */
  lemma DegreeGrows()
    ensures Replace("degree", "deg", "degree") == "degreeree"
  {
    AbsentBy("ree", "deg", 0);
    ReplaceLeading("deg", "ree", "degree");
    assert "deg" + "ree" == "degree";
    assert "degree" + "ree" == "degreeree";
  }

  /** A bare `'deg'` becomes `'degree'`. */
  lemma BodcDeg()
    ensures BodcUdunitFix("deg") == "degree"
  {
    RespellDeg();
    assert "deg"[0] == 'd' && "deg"[2] == 'g';
    assert '\'' !in "degree" by {
      assert "degree" == ['d', 'e', 'g', 'r', 'e', 'e'];
    }
    FixedAsRespelled("deg", "degree");
  }

  lemma RespellDeg()
    ensures Respell("deg") == "degree"
  {
    assert Replace("deg", "Dmnless", "1") == "deg" by {
      AbsentBy("deg", "Dmnless", 0);
    }
    assert Replace("deg", "#", "1") == "deg" by {
      AbsentBy("deg", "#", 0);
    }
    assert Replace("deg", "deg", "degree") == "degree" by {
      ReplaceLeading("deg", "", "degree");
      assert "deg" + "" == "deg";
    }
    assert Replace("degree", "degreeree", "degree") == "degree";
  }

  /** A `#` counts as the dimensionless unit `1`. */
  lemma BodcCount()
    ensures BodcUdunitFix("#") == "1"
  {
    RespellCount();
    FixedAsRespelled("#", "1");
  }

  lemma RespellCount()
    ensures Respell("#") == "1"
  {
    assert Replace("#", "Dmnless", "1") == "#" by {
      AbsentBy("#", "Dmnless", 0);
    }
    assert Replace("#", "#", "1") == "1" by {
      ReplaceLeading("#", "", "1");
      assert "#" + "" == "#";
    }
    RespellTail("1");
  }

  /** `Dmnless` is the dimensionless unit `1`. */
  lemma BodcDimensionless()
    ensures BodcUdunitFix("Dmnless") == "1"
  {
    RespellDimensionless();
    FixedAsRespelled("Dmnless", "1");
  }

  lemma RespellDimensionless()
    ensures Respell("Dmnless") == "1"
  {
    assert Replace("Dmnless", "Dmnless", "1") == "1" by {
      ReplaceLeading("Dmnless", "", "1");
      assert "Dmnless" + "" == "Dmnless";
    }
    assert Replace("1", "#", "1") == "1" by {
      AbsentBy("1", "#", 0);
    }
    RespellTail("1");
  }

  /** The two `deg` replacements leave a string without `d` alone. */
  lemma RespellTail(u: string)
    requires 'd' !in u
    ensures Replace(Replace(u, "deg", "degree"), "degreeree", "degree") == u
  {
    AbsentBy(u, "deg", 0);
    AbsentBy(u, "degreeree", 0);
  }

  /** A quoted decibel becomes the dimensionless `'1'`. */
  lemma BodcDecibel()
    ensures BodcUdunitFix("'dB'") == "'1'"
  {
    StripUnquoted("'dB'");
    RespellPlain("'dB'");
    assert Canonical("'dB'") == "'dB'";
    assert Replace("'dB'", "'dB'", "'1'") == "'1'" by {
      ReplaceLeading("'dB'", "", "'1'");
      assert "'dB'" + "" == "'dB'";
    }
  }

  /** A reciprocal canonical unit gains the numerator `1`. */
  lemma BodcReciprocal()
    ensures BodcUdunitFix("'canonical_units': '/s'") == "'canonical_units': '1/s'"
  {
    StripUnquoted("'canonical_units': '/s'");
    ReciprocalRespellStep();
    ReciprocalCanonicalStep();
    ReciprocalKeepsDecibelStep();
  }

  lemma ReciprocalRespellStep()
    ensures Respell("'canonical_units': '/s'") == "'canonical_units': '/s'"
  {
    RespellPlain("'canonical_units': '/s'");
  }

  lemma ReciprocalCanonicalStep()
    ensures Canonical("'canonical_units': '/s'") == "'canonical_units': '1/s'"
  {
    assert !Contains("s'", CANONICAL_SLASH);
    CanonicalReciprocal("s'");
    assert CANONICAL_SLASH + "s'" == "'canonical_units': '/s'";
    var c := Canonical(CANONICAL_SLASH + "s'");
    assert c == c[..|CANONICAL_ONE|] + c[|CANONICAL_ONE|..];
    assert CANONICAL_ONE + "s'" == "'canonical_units': '1/s'";
  }

  lemma ReciprocalKeepsDecibelStep()
    ensures Replace("'canonical_units': '1/s'", "'dB'", "'1'") == "'canonical_units': '1/s'"
  {
    AbsentBy("'canonical_units': '1/s'", "'dB'", 2);
  }

  /**
    A reciprocal canonical unit gains the numerator `1`; its denominator is
    what follows the last occurrence of the prefix, which is all of the rest
    when the prefix does not occur again.
  */
  lemma CanonicalReciprocal(rest: string)
    ensures StartsWith(Canonical(CANONICAL_SLASH + rest), CANONICAL_ONE)
    ensures var d := Canonical(CANONICAL_SLASH + rest)[|CANONICAL_ONE|..];
      && EndsWith(rest, d)
      && !Contains(d, CANONICAL_SLASH)
      && (Contains(rest, CANONICAL_SLASH) ==> EndsWith(rest, CANONICAL_SLASH + d))
      && (!Contains(rest, CANONICAL_SLASH) ==> d == rest)
  {
    var u := CANONICAL_SLASH + rest;
    assert u[..|CANONICAL_SLASH|] == CANONICAL_SLASH;
    assert OccursAt(u, CANONICAL_SLASH, 0);
    assert IndexOf(u, CANONICAL_SLASH) == Some(0);
    assert u[|CANONICAL_SLASH|..] == rest;
    AfterLastStep(u, CANONICAL_SLASH, 0);
    AfterLastIsLastPiece(rest, CANONICAL_SLASH);
    var d := AfterLast(rest, CANONICAL_SLASH);
    assert Canonical(u) == CANONICAL_ONE + d;
    assert Canonical(u)[|CANONICAL_ONE|..] == d;
  }
}
