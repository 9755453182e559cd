/**
  The subset of `str.format` the encoders use: templates made of literal
  text and named replacement fields, rendered against keyword arguments.
  A field without an argument raises `KeyError` naming the field.
*/
module Templates {
  import opened Wrappers
  import opened Exceptions

  datatype Piece = Lit(text: string) | Slot(field: string)

  type Template = seq<Piece>

  /** The keyword arguments of one `format` call. */
  type Arguments = map<string, string>

  /** Every replacement field of `t` has an argument. */
  predicate Covered(t: Template, env: Arguments) {
    forall i :: 0 <= i < |t| ==> t[i].Slot? ==> t[i].field in env
  }

  /** The text one piece renders to; a field without an argument is only ever rendered once `Render` has ruled it out. */
  function PieceText(p: Piece, env: Arguments): string {
    match p
    case Lit(s) => s
    case Slot(f) => if f in env then env[f] else ""
  }

  /** The rendering of a template whose fields all have arguments, piece by piece from the left. */
  function Fill(t: Template, env: Arguments): string {
    if |t| == 0 then "" else Fill(t[..|t| - 1], env) + PieceText(t[|t| - 1], env)
  }

  /** The position of the first replacement field without an argument, if any. */
  function FirstMissing(t: Template, env: Arguments): (r: Option<nat>)
    ensures r.None? <==> Covered(t, env)
    ensures r.Some? ==> r.value < |t| && t[r.value].Slot? && t[r.value].field !in env
    ensures r.Some? ==> Covered(t[..r.value], env)
  {
    if |t| == 0 then None
    else if t[0].Slot? && t[0].field !in env then Some(0)
    else
      var rest := FirstMissing(t[1..], env);
      if rest.None? then None
      else
        assert t[..rest.value + 1] == [t[0]] + t[1..][..rest.value];
        Some(rest.value + 1)
  }

  /** `template.format(**env)` */
  function Render(t: Template, env: Arguments): (r: Result<string, Exception>)
    ensures r.Success? <==> Covered(t, env)
    ensures r.Success? ==> r.value == Fill(t, env)
    ensures r.Failure? ==> exists i :: 0 <= i < |t| && t[i].Slot? && t[i].field !in env && r.error == KeyError(t[i].field)
  {
    var missing := FirstMissing(t, env);
    if missing.Some? then Failure(KeyError(t[missing.value].field)) else Success(Fill(t, env))
  }

  /** Rendering distributes over the concatenation of templates. */
  lemma {:induction false} FillAppend(a: Template, b: Template, env: Arguments)
    ensures Fill(a + b, env) == Fill(a, env) + Fill(b, env)
  {
    if |b| == 0 {
      assert a + b == a;
    } else {
      var front, last := b[..|b| - 1], b[|b| - 1];
      FillAppend(a, front, env);
      SplitLast(a, b);
      FillSnoc(a + front, last, env);
      FillSnoc(front, last, env);
    }
  }

  /** A non-empty sequence is its front and its last element, also after a prefix. */
  lemma SplitLast<T>(a: seq<T>, b: seq<T>)
    requires |b| > 0
    ensures b == b[..|b| - 1] + [b[|b| - 1]]
    ensures a + b == (a + b[..|b| - 1]) + [b[|b| - 1]]
  {
  }

  /** A template is covered exactly when both of its halves are. */
  lemma CoveredAppend(a: Template, b: Template, env: Arguments)
    ensures Covered(a + b, env) <==> Covered(a, env) && Covered(b, env)
  {
    if Covered(a + b, env) {
      forall i | 0 <= i < |a| && a[i].Slot?
        ensures a[i].field in env
      {
        assert (a + b)[i] == a[i];
      }
      forall i | 0 <= i < |b| && b[i].Slot?
        ensures b[i].field in env
      {
        assert (a + b)[|a| + i] == b[i];
      }
    }
  }

  /** A template of one piece renders to that piece's text. */
  lemma FillOne(p: Piece, env: Arguments)
    ensures Fill([p], env) == PieceText(p, env)
    ensures Covered([p], env) <==> (p.Slot? ==> p.field in env)
  {
    assert [p][..0] == [];
  }

  /** Rendering and coverage of a template assembled from four parts. */
  lemma FillConcat4(a: Template, b: Template, c: Template, d: Template, env: Arguments)
    ensures Fill(a + b + c + d, env) == Fill(a, env) + Fill(b, env) + Fill(c, env) + Fill(d, env)
    ensures Covered(a + b + c + d, env) <==> Covered(a, env) && Covered(b, env) && Covered(c, env) && Covered(d, env)
  {
    FillAppend(a, b, env);
    FillAppend(a + b, c, env);
    FillAppend(a + b + c, d, env);
    CoveredAppend(a, b, env);
    CoveredAppend(a + b, c, env);
    CoveredAppend(a + b + c, d, env);
  }

  /** Rendering and coverage of a template assembled from five parts. */
  lemma FillConcat5(a: Template, b: Template, c: Template, d: Template, e: Template, env: Arguments)
    ensures Fill(a + b + c + d + e, env) == Fill(a, env) + Fill(b, env) + Fill(c, env) + Fill(d, env) + Fill(e, env)
    ensures Covered(a + b + c + d + e, env) <==>
      Covered(a, env) && Covered(b, env) && Covered(c, env) && Covered(d, env) && Covered(e, env)
  {
    FillAppend(a, b, env);
    FillAppend(a + b, c, env);
    FillAppend(a + b + c, d, env);
    FillAppend(a + b + c + d, e, env);
    CoveredAppend(a, b, env);
    CoveredAppend(a + b, c, env);
    CoveredAppend(a + b + c, d, env);
    CoveredAppend(a + b + c + d, e, env);
  }

  /** Every argument of `sub` is passed, with the same value, in `env`. */
  predicate Extends(env: Arguments, sub: Arguments) {
    forall k :: k in sub ==> k in env && env[k] == sub[k]
  }

  /** Merging two argument maps with distinct names extends both. */
  lemma ExtendsUnion(a: Arguments, b: Arguments)
    requires a.Keys !! b.Keys
    ensures Extends(a + b, a) && Extends(a + b, b)
  {
  }

  /** Adding an argument under a new name extends the old arguments. */
  lemma ExtendsUpdate(sub: Arguments, k: string, v: string)
    requires k !in sub
    ensures Extends(sub[k := v], sub)
  {
  }

  /** Extra arguments change nothing in the rendering of a covered template. */
  lemma {:induction false} FillExtends(t: Template, sub: Arguments, env: Arguments)
    requires Covered(t, sub) && Extends(env, sub)
    ensures Covered(t, env) && Fill(t, env) == Fill(t, sub)
  {
    if |t| > 0 {
      var front := t[..|t| - 1];
      assert Covered(front, sub) by {
        forall i | 0 <= i < |front| && front[i].Slot?
          ensures front[i].field in sub
        {
          assert front[i] == t[i];
        }
      }
      FillExtends(front, sub, env);
      assert t[|t| - 1].Slot? ==> t[|t| - 1].field in sub;
    }
  }

  /** A literal renders to itself and needs no argument. */
  lemma FillLit(s: string, env: Arguments)
    ensures Covered([Lit(s)], env) && Fill([Lit(s)], env) == s
  {
    FillOne(Lit(s), env);
  }

  /** One step of rendering: the prefix of length `k + 1` adds piece `k`. */
  lemma FillStep(t: Template, k: nat, env: Arguments)
    requires k < |t|
    ensures Fill(t[..k + 1], env) == Fill(t[..k], env) + PieceText(t[k], env)
  {
    assert t[..k + 1][..k] == t[..k];
  }

  /** Appending one piece appends its text. */
  lemma FillSnoc(t: Template, p: Piece, env: Arguments)
    ensures Fill(t + [p], env) == Fill(t, env) + PieceText(p, env)
  {
    assert (t + [p])[..|t|] == t;
  }

  /** Rendering a template of 4 pieces, written out. */
  lemma Fill4(p0: Piece, p1: Piece, p2: Piece, p3: Piece, env: Arguments)
    ensures Fill([p0, p1, p2, p3], env) == PieceText(p0, env) + PieceText(p1, env) + PieceText(p2, env) + PieceText(p3, env)
  {
    assert Fill([p0], env) == PieceText(p0, env) by {
      FillSnoc([], p0, env);
      assert [] + [p0] == [p0];
    }
    assert Fill([p0, p1], env) == PieceText(p0, env) + PieceText(p1, env) by {
      FillSnoc([p0], p1, env);
      assert [p0] + [p1] == [p0, p1];
    }
    assert Fill([p0, p1, p2], env) == PieceText(p0, env) + PieceText(p1, env) + PieceText(p2, env) by {
      FillSnoc([p0, p1], p2, env);
      assert [p0, p1] + [p2] == [p0, p1, p2];
    }
    FillSnoc([p0, p1, p2], p3, env);
    assert [p0, p1, p2] + [p3] == [p0, p1, p2, p3];
  }

  /** Rendering a template of 3 pieces, written out. */
  lemma Fill3(p0: Piece, p1: Piece, p2: Piece, env: Arguments)
    ensures Fill([p0, p1, p2], env) == PieceText(p0, env) + PieceText(p1, env) + PieceText(p2, env)
  {
    assert Fill([p0], env) == PieceText(p0, env) by {
      FillSnoc([], p0, env);
      assert [] + [p0] == [p0];
    }
    assert Fill([p0, p1], env) == PieceText(p0, env) + PieceText(p1, env) by {
      FillSnoc([p0], p1, env);
      assert [p0] + [p1] == [p0, p1];
    }
    FillSnoc([p0, p1], p2, env);
    assert [p0, p1] + [p2] == [p0, p1, p2];
  }

  /** Rendering a template of 7 pieces, written out. */
  lemma Fill7(p0: Piece, p1: Piece, p2: Piece, p3: Piece, p4: Piece, p5: Piece, p6: Piece, env: Arguments)
    ensures Fill([p0, p1, p2, p3, p4, p5, p6], env) ==
      PieceText(p0, env) + PieceText(p1, env) + PieceText(p2, env) + PieceText(p3, env) + PieceText(p4, env) + PieceText(p5, env) + PieceText(p6, env)
  {
    Fill4(p0, p1, p2, p3, env);
    Fill3(p4, p5, p6, env);
    FillAppend([p0, p1, p2, p3], [p4, p5, p6], env);
    assert [p0, p1, p2, p3] + [p4, p5, p6] == [p0, p1, p2, p3, p4, p5, p6];
  }

  /** Rendering a template of 9 pieces, written out. */
  lemma Fill9(p0: Piece, p1: Piece, p2: Piece, p3: Piece, p4: Piece, p5: Piece, p6: Piece, p7: Piece, p8: Piece, env: Arguments)
    ensures Fill([p0, p1, p2, p3, p4, p5, p6, p7, p8], env) ==
      PieceText(p0, env) + PieceText(p1, env) + PieceText(p2, env) + PieceText(p3, env) + PieceText(p4, env) + PieceText(p5, env) + PieceText(p6, env) + PieceText(p7, env) + PieceText(p8, env)
  {
    Fill7(p0, p1, p2, p3, p4, p5, p6, env);
    assert Fill([p0, p1, p2, p3, p4, p5, p6, p7], env) == PieceText(p0, env) + PieceText(p1, env) + PieceText(p2, env) + PieceText(p3, env) + PieceText(p4, env) + PieceText(p5, env) + PieceText(p6, env) + PieceText(p7, env) by {
      FillSnoc([p0, p1, p2, p3, p4, p5, p6], p7, env);
      assert [p0, p1, p2, p3, p4, p5, p6] + [p7] == [p0, p1, p2, p3, p4, p5, p6, p7];
    }
    assert Fill([p0, p1, p2, p3, p4, p5, p6, p7, p8], env) == PieceText(p0, env) + PieceText(p1, env) + PieceText(p2, env) + PieceText(p3, env) + PieceText(p4, env) + PieceText(p5, env) + PieceText(p6, env) + PieceText(p7, env) + PieceText(p8, env) by {
      FillSnoc([p0, p1, p2, p3, p4, p5, p6, p7], p8, env);
      assert [p0, p1, p2, p3, p4, p5, p6, p7] + [p8] == [p0, p1, p2, p3, p4, p5, p6, p7, p8];
    }
  }

  /** Rendering a template of 11 pieces, written out. */
  lemma Fill11(p0: Piece, p1: Piece, p2: Piece, p3: Piece, p4: Piece, p5: Piece, p6: Piece, p7: Piece, p8: Piece, p9: Piece, p10: Piece, env: Arguments)
    ensures Fill([p0, p1, p2, p3, p4, p5, p6, p7, p8, p9, p10], env) ==
      PieceText(p0, env) + PieceText(p1, env) + PieceText(p2, env) + PieceText(p3, env) + PieceText(p4, env) + PieceText(p5, env) + PieceText(p6, env) + PieceText(p7, env) + PieceText(p8, env) + PieceText(p9, env) + PieceText(p10, env)
  {
    Fill9(p0, p1, p2, p3, p4, p5, p6, p7, p8, env);
    assert Fill([p0, p1, p2, p3, p4, p5, p6, p7, p8, p9], env) == PieceText(p0, env) + PieceText(p1, env) + PieceText(p2, env) + PieceText(p3, env) + PieceText(p4, env) + PieceText(p5, env) + PieceText(p6, env) + PieceText(p7, env) + PieceText(p8, env) + PieceText(p9, env) by {
      FillSnoc([p0, p1, p2, p3, p4, p5, p6, p7, p8], p9, env);
      assert [p0, p1, p2, p3, p4, p5, p6, p7, p8] + [p9] == [p0, p1, p2, p3, p4, p5, p6, p7, p8, p9];
    }
    assert Fill([p0, p1, p2, p3, p4, p5, p6, p7, p8, p9, p10], env) == PieceText(p0, env) + PieceText(p1, env) + PieceText(p2, env) + PieceText(p3, env) + PieceText(p4, env) + PieceText(p5, env) + PieceText(p6, env) + PieceText(p7, env) + PieceText(p8, env) + PieceText(p9, env) + PieceText(p10, env) by {
      FillSnoc([p0, p1, p2, p3, p4, p5, p6, p7, p8, p9], p10, env);
      assert [p0, p1, p2, p3, p4, p5, p6, p7, p8, p9] + [p10] == [p0, p1, p2, p3, p4, p5, p6, p7, p8, p9, p10];
    }
  }

  /** Rendering a template of 13 pieces, written out. */
  lemma Fill13(p0: Piece, p1: Piece, p2: Piece, p3: Piece, p4: Piece, p5: Piece, p6: Piece, p7: Piece, p8: Piece, p9: Piece, p10: Piece, p11: Piece, p12: Piece, env: Arguments)
    ensures Fill([p0, p1, p2, p3, p4, p5, p6, p7, p8, p9, p10, p11, p12], env) ==
      PieceText(p0, env) + PieceText(p1, env) + PieceText(p2, env) + PieceText(p3, env) + PieceText(p4, env) + PieceText(p5, env) + PieceText(p6, env) + PieceText(p7, env) + PieceText(p8, env) + PieceText(p9, env) + PieceText(p10, env) + PieceText(p11, env) + PieceText(p12, env)
  {
    Fill11(p0, p1, p2, p3, p4, p5, p6, p7, p8, p9, p10, env);
    assert Fill([p0, p1, p2, p3, p4, p5, p6, p7, p8, p9, p10, p11], env) == PieceText(p0, env) + PieceText(p1, env) + PieceText(p2, env) + PieceText(p3, env) + PieceText(p4, env) + PieceText(p5, env) + PieceText(p6, env) + PieceText(p7, env) + PieceText(p8, env) + PieceText(p9, env) + PieceText(p10, env) + PieceText(p11, env) by {
      FillSnoc([p0, p1, p2, p3, p4, p5, p6, p7, p8, p9, p10], p11, env);
      assert [p0, p1, p2, p3, p4, p5, p6, p7, p8, p9, p10] + [p11] == [p0, p1, p2, p3, p4, p5, p6, p7, p8, p9, p10, p11];
    }
    assert Fill([p0, p1, p2, p3, p4, p5, p6, p7, p8, p9, p10, p11, p12], env) == PieceText(p0, env) + PieceText(p1, env) + PieceText(p2, env) + PieceText(p3, env) + PieceText(p4, env) + PieceText(p5, env) + PieceText(p6, env) + PieceText(p7, env) + PieceText(p8, env) + PieceText(p9, env) + PieceText(p10, env) + PieceText(p11, env) + PieceText(p12, env) by {
      FillSnoc([p0, p1, p2, p3, p4, p5, p6, p7, p8, p9, p10, p11], p12, env);
      assert [p0, p1, p2, p3, p4, p5, p6, p7, p8, p9, p10, p11] + [p12] == [p0, p1, p2, p3, p4, p5, p6, p7, p8, p9, p10, p11, p12];
    }
  }
}
