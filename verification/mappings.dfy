/**
  The mapping classifier and entry renderer: a translation rule pairs a
  source concept with a target concept, exactly one mapping variant is
  keyed by each supported (source variant, target variant) pair, and each
  variant renders one entry of a generated lookup table.
*/
module Mappings {
  import opened Wrappers
  import opened Exceptions
  import opened Text
  import opened Concepts
  import opened Notations
  import opened Templates
  import Classify

  // ---------------------------------------------------------------------------
  // The dispatch table
  // ---------------------------------------------------------------------------

  /** The mapping variants, one per `Mapping` subclass, in declaration order. */
  datatype MappingKind =
    | StashCF
    | FieldcodeCF
    | CFFieldcode
    | Grib1LocalCF
    | Grib1LocalCFConstrained
    | CFGrib1Local
    | CFConstrainedGrib1Local
    | Grib2CF
    | CFGrib2

  const MAPPING_KINDS: seq<MappingKind> := [
    StashCF, FieldcodeCF, CFFieldcode, Grib1LocalCF, Grib1LocalCFConstrained,
    CFGrib1Local, CFConstrainedGrib1Local, Grib2CF, CFGrib2]

  /** The source-concept variant each mapping variant accepts. */
  function SourceKind(m: MappingKind): ConceptKind {
    match m
    case StashCF => Stash
    case FieldcodeCF => Fieldcode
    case CFFieldcode => CFPhenomDef
    case Grib1LocalCF => Grib1LocalParam
    case Grib1LocalCFConstrained => Grib1LocalParam
    case CFGrib1Local => CFPhenomDef
    case CFConstrainedGrib1Local => CFConstrainedPhenomDef
    case Grib2CF => Grib2Param
    case CFGrib2 => CFPhenomDef
  }

  /** The target-concept variant each mapping variant accepts. */
  function TargetKind(m: MappingKind): ConceptKind {
    match m
    case StashCF => CFPhenomDef
    case FieldcodeCF => CFPhenomDef
    case CFFieldcode => Fieldcode
    case Grib1LocalCF => CFPhenomDef
    case Grib1LocalCFConstrained => CFConstrainedPhenomDef
    case CFGrib1Local => Grib1LocalParam
    case CFConstrainedGrib1Local => Grib1LocalParam
    case Grib2CF => CFPhenomDef
    case CFGrib2 => Grib2Param
  }

  /** The table read the other way: the mapping variant keyed by a pair of concept variants, if any. */
  function MappingFor(source: ConceptKind, target: ConceptKind): Option<MappingKind> {
    match source
    case Stash => if target == CFPhenomDef then Some(StashCF) else None
    case Fieldcode => if target == CFPhenomDef then Some(FieldcodeCF) else None
    case CFPhenomDef =>
      if target == Fieldcode then Some(CFFieldcode)
      else if target == Grib1LocalParam then Some(CFGrib1Local)
      else if target == Grib2Param then Some(CFGrib2)
      else None
    case CFConstrainedPhenomDef => if target == Grib1LocalParam then Some(CFConstrainedGrib1Local) else None
    case Grib1LocalParam =>
      if target == CFPhenomDef then Some(Grib1LocalCF)
      else if target == CFConstrainedPhenomDef then Some(Grib1LocalCFConstrained)
      else None
    case Grib2Param => if target == CFPhenomDef then Some(Grib2CF) else None
    case _ => None
  }

  /** The class name, the key the generator groups mappings by. */
  function ClassName(m: MappingKind): string {
    match m
    case StashCF => "StashCFMapping"
    case FieldcodeCF => "FieldcodeCFMapping"
    case CFFieldcode => "CFFieldcodeMapping"
    case Grib1LocalCF => "Grib1LocalCFParamMapping"
    case Grib1LocalCFConstrained => "Grib1LocalCFConstrainedParamMapping"
    case CFGrib1Local => "CFGrib1LocalParamMapping"
    case CFConstrainedGrib1Local => "CFConstrainedGrib1LocalParamMapping"
    case Grib2CF => "Grib2CFParamMapping"
    case CFGrib2 => "CFGrib2ParamMapping"
  }

  const UM_CF_FILE := "../outputs/um_cf_map.py"
  const GRIB_CF_FILE := "../outputs/_grib_cf_map.py"

  /** `in_file`: the generated module the variant's table is appended to. */
  function InFile(m: MappingKind): string {
    if m in {StashCF, FieldcodeCF, CFFieldcode} then UM_CF_FILE else GRIB_CF_FILE
  }

  /** `container`: the opening of the variant's dictionary literal. */
  function Container(m: MappingKind): string {
    match m
    case StashCF => "\nSTASH_TO_CF = {"
    case FieldcodeCF => "\nLBFC_TO_CF = {"
    case CFFieldcode => "\nCF_TO_LBFC = {"
    case Grib1LocalCF => "\nGRIB1Local_TO_CF = {"
    case Grib1LocalCFConstrained => "\nGRIB1LocalConstrained_TO_CF = {"
    case CFGrib1Local => "\nCF_TO_GRIB1Local = {"
    case CFConstrainedGrib1Local => "\nCFConstrained_TO_GRIB1Local = {"
    case Grib2CF => "\nGRIB2_TO_CF = {"
    case CFGrib2 => "\nCF_TO_GRIB2 = {"
  }

  /** Every variant opens a dictionary literal of its own. */
  lemma ContainerOpens(m: MappingKind)
    ensures |Container(m)| > 0 && Container(m)[0] == '\n' && Container(m)[|Container(m)| - 1] == '{'
  {
  }

  /** `closure`: the same for every variant. */
  function Closure(m: MappingKind): string {
    "\n\t}\n"
  }

  /** `to_sort`: the same for every variant. */
  predicate ToSort(m: MappingKind) {
    true
  }

  // ---------------------------------------------------------------------------
  // Mappings and the factory
  // ---------------------------------------------------------------------------

  /** `<kind>Mapping.type_match(source, target)`; either concept may be `None`. */
  predicate MappingTypeMatch(m: MappingKind, source: Option<Concept>, target: Option<Concept>) {
    KeyedBy(m, KindOf(source), KindOf(target))
  }

  /** The variant of a concept that may be `None`. */
  function KindOf(c: Option<Concept>): Option<ConceptKind> {
    if c.None? then None else Some(c.value.kind)
  }

  /** `type_match` on the variants alone: both are present and are the pair `m` is keyed by. */
  predicate KeyedBy(m: MappingKind, sk: Option<ConceptKind>, tk: Option<ConceptKind>) {
    sk == Some(SourceKind(m)) && tk == Some(TargetKind(m))
  }

  /** A mapping object: the variant and the two concepts it was built from. */
  datatype Mapping = Mapping(kind: MappingKind, source: Concept, target: Concept)

  /** What every mapping object satisfies: its concepts are of the variants its class is keyed by. */
  predicate WellKeyed(m: Mapping) {
    m.source.kind == SourceKind(m.kind) && m.target.kind == TargetKind(m.kind)
  }

  /** One retrieved translation rule: its `mr:source` and `mr:target` fragments, either possibly absent. */
  datatype Binding = Binding(source: Option<Fragment>, target: Option<Fragment>)

  /** `make_concept` of a `mapping.get(...)` result; indexing `None` raises `TypeError`. */
  function ConceptOf(d: Option<Fragment>): (r: Result<Option<Concept>, Exception>)
    ensures d.None? ==> r.Failure? && r.error.TypeError?
    ensures d.Some? ==> r == MakeConcept(d.value)
  {
    if d.None? then Failure(TypeError("'NoneType' object has no attribute '__getitem__'"))
    else MakeConcept(d.value)
  }

  /** Builds a mapping of each accepting variant, in declaration order. */
  function BuildEach(ks: seq<MappingKind>, source: Option<Concept>, target: Option<Concept>): (r: seq<Mapping>)
    requires forall k :: k in ks ==> MappingTypeMatch(k, source, target)
    ensures |r| == |ks|
    ensures forall i :: 0 <= i < |ks| ==> r[i].kind == ks[i] && Some(r[i].source) == source && Some(r[i].target) == target
  {
    if |ks| == 0 then []
    else
      assert ks[0] in ks;
      assert MappingTypeMatch(ks[0], source, target);
      [Mapping(ks[0], source.value, target.value)] + BuildEach(ks[1..], source, target)
  }

  /** The variants whose test accepts a pair of concept variants, in declaration order: the table's entry, if any. */
  function MatchingMappings(sk: Option<ConceptKind>, tk: Option<ConceptKind>): (r: seq<MappingKind>)
    ensures |r| <= 1
    ensures r == [] <==> sk.None? || tk.None? || MappingFor(sk.value, tk.value).None?
    ensures r != [] ==> Some(r[0]) == MappingFor(sk.value, tk.value)
    ensures forall k :: k in r ==> KeyedBy(k, sk, tk)
  {
    MatchedShape(sk, tk);
    Classify.Filter(MAPPING_KINDS, k => KeyedBy(k, sk, tk))
  }

  /** The loop over the variants finds the table's entry, if any, and nothing else. */
  lemma MatchedShape(sk: Option<ConceptKind>, tk: Option<ConceptKind>)
    ensures var matched := Classify.Filter(MAPPING_KINDS, k => KeyedBy(k, sk, tk));
      && |matched| <= 1
      && (matched == [] <==> sk.None? || tk.None? || MappingFor(sk.value, tk.value).None?)
      && (matched != [] ==> Some(matched[0]) == MappingFor(sk.value, tk.value))
      && (forall k :: k in matched ==> KeyedBy(k, sk, tk))
  {
    var matched := Classify.Filter(MAPPING_KINDS, k => KeyedBy(k, sk, tk));
    MappingAtMostOne(sk, tk);
    MatchedIsTable(sk, tk);
    if |matched| > 0 {
      assert matched[0] in matched;
    } else if sk.Some? && tk.Some? && MappingFor(sk.value, tk.value).Some? {
      EveryMappingListed(MappingFor(sk.value, tk.value).value);
      assert false;
    }
  }

  /** The loop over the variants of `make_mapping` and its verdict, once both concepts are made. */
  function Classified(source: Option<Concept>, target: Option<Concept>): (r: Result<Option<Mapping>, Exception>)
    ensures r.Success?
    ensures r.value.None? <==> source.None? || target.None? || MappingFor(source.value.kind, target.value.kind).None?
    ensures r.value.Some? ==>
      && WellKeyed(r.value.value)
      && Some(r.value.value.kind) == MappingFor(source.value.kind, target.value.kind)
      && Some(r.value.value.source) == source
      && Some(r.value.value.target) == target
  {
    var matched := MatchingMappings(KindOf(source), KindOf(target));
    var built := BuildEach(matched, source, target);
    assert |matched| == 1 ==> matched[0] in matched && WellKeyed(built[0]);
    Classify.Single(built, "Mapping")
  }

  /** `make_mapping(mapping, fu_p)` */
  function MakeMapping(b: Binding): (r: Result<Option<Mapping>, Exception>)
    ensures r.Failure? ==> r.error.TypeError? || r.error.KeyError?
    ensures r.Success? ==> b.source.Some? && b.target.Some?
    ensures r.Success? ==> MakeConcept(b.source.value).Success? && MakeConcept(b.target.value).Success?
    ensures r.Success? ==> r == Classified(MakeConcept(b.source.value).value, MakeConcept(b.target.value).value)
  {
    var source :- ConceptOf(b.source);
    var target :- ConceptOf(b.target);
    Classified(source, target)
  }

  // ---------------------------------------------------------------------------
  // Entry templates and their arguments
  // ---------------------------------------------------------------------------

  const CFNAME: Template :=
    [Lit("CFname("), Slot("cfsname"), Lit(", "), Slot("lname"), Lit(", "), Slot("units"), Lit(")")]

  const G1LPARAM: Template :=
    [Lit("G1Lparam("), Slot("ed"), Lit(", "), Slot("t2version"), Lit(", "), Slot("centre"), Lit(", "), Slot("iParam"), Lit(")")]

  const G2PARAM: Template :=
    [Lit("G2param("), Slot("ed"), Lit(", "), Slot("disc"), Lit(", "), Slot("cat"), Lit(", "), Slot("num"), Lit(")")]

  const CONSTRAINED: Template :=
    [Lit("(CFname("), Slot("psname"), Lit(", "), Slot("plname"), Lit(", "), Slot("punits"),
     Lit("), DimensionCoordinate("), Slot("csname"), Lit(", "), Slot("cunits"), Lit(", ("), Slot("cpoints"), Lit(",)))")]

  /** The `str_elem` template of each variant, assembled from the pieces above. */
  function EntryTemplate(m: MappingKind): Template {
    match m
    case StashCF => [Lit("\t")] + [Slot("stash")] + [Lit(" : ")] + CFNAME + [Lit(",\n")]
    case FieldcodeCF => [Lit("\t")] + [Slot("fc")] + [Lit(" : ")] + CFNAME + [Lit(",\n")]
    case CFFieldcode => [Lit("\t")] + CFNAME + [Lit(" : ")] + [Slot("fc")] + [Lit(",\n")]
    case Grib1LocalCF => [Lit("\t")] + G1LPARAM + [Lit(": ")] + CFNAME + [Lit(",\n")]
    case Grib1LocalCFConstrained => [Lit("\t")] + G1LPARAM + [Lit(": ")] + CONSTRAINED + [Lit(",\n")]
    case CFGrib1Local => [Lit("\t")] + CFNAME + [Lit(":")] + G1LPARAM + [Lit(",\n")]
    case CFConstrainedGrib1Local => CONSTRAINED + [Lit(": ")] + G1LPARAM + [Lit(",\n")]
    case Grib2CF => [Lit("\t")] + G2PARAM + [Lit(": ")] + CFNAME + [Lit(",\n")]
    case CFGrib2 => [Lit("\t")] + CFNAME + [Lit(":")] + G2PARAM + [Lit(",\n ")]
  }

  function CFNameArgs(n: CFName): Arguments {
    map["cfsname" := Show(n.standardName), "lname" := Show(n.longName), "units" := Show(n.units)]
  }

  function G1LArgs(g: G1LParam): Arguments {
    map["ed" := Show(g.edition), "t2version" := Show(g.t2version), "centre" := Show(g.centre), "iParam" := Show(g.iparam)]
  }

  /** The GRIB2 arguments: `cat` is the category and `num` the parameter number. */
  function G2Args(g: G2Param): Arguments {
    map["ed" := Show(g.edition), "disc" := Show(g.discipline), "cat" := Show(g.category), "num" := Show(g.number)]
  }

  /** The constrained arguments: the phenomenon's long name is always the text `None`. */
  function ConstrainedArgs(phenom: Phenom, con: Constraint): Arguments {
    map["psname" := Show(phenom.standardName), "plname" := "None", "punits" := Show(phenom.units),
        "csname" := con.standardName, "cunits" := con.units, "cpoints" := con.points]
  }

  // ---------------------------------------------------------------------------
  // The rendered entries, written out
  // ---------------------------------------------------------------------------

  function CFNameText(n: CFName): string {
    "CFname(" + Show(n.standardName) + ", " + Show(n.longName) + ", " + Show(n.units) + ")"
  }

  function G1LText(g: G1LParam): string {
    "G1Lparam(" + Show(g.edition) + ", " + Show(g.t2version) + ", " + Show(g.centre) + ", " + Show(g.iparam) + ")"
  }

  /** A GRIB2 code as written: edition, discipline, then CATEGORY before NUMBER. */
  function G2Text(g: G2Param): string {
    "G2param(" + Show(g.edition) + ", " + Show(g.discipline) + ", " + Show(g.category) + ", " + Show(g.number) + ")"
  }

  /** A constrained phenomenon as written: no long name, and the points as a one-element tuple. */
  function ConstrainedText(phenom: Phenom, con: Constraint): string {
    "(CFname(" + Show(phenom.standardName) + ", " + "None" + ", " + Show(phenom.units) + "), DimensionCoordinate("
      + con.standardName + ", " + con.units + ", (" + con.points + ",)))"
  }

  /** The exception subscripting a `None` notation part raises. */
  const NONE_SUBSCRIPT := TypeError("'NoneType' object has no attribute '__getitem__'")

  /** `<kind>Mapping.encode()`: one table entry. */
  function Encode(getLabel: Labeller, m: Mapping): (r: Result<string, Exception>)
    requires WellKeyed(m)
    ensures m.kind == StashCF ==>
      r == Success("\t" + CodeNotation(getLabel, m.source) + " : " + CFNameText(PhenomNotation(getLabel, m.target)) + ",\n")
    ensures m.kind == FieldcodeCF ==>
      r == Success("\t" + CodeNotation(getLabel, m.source) + " : " + CFNameText(PhenomNotation(getLabel, m.target)) + ",\n")
    ensures m.kind == CFFieldcode ==>
      r == Success("\t" + CFNameText(PhenomNotation(getLabel, m.source)) + " : " + CodeNotation(getLabel, m.target) + ",\n")
    ensures m.kind == Grib1LocalCF ==>
      r == Success("\t" + G1LText(Grib1Notation(m.source)) + ": " + CFNameText(PhenomNotation(getLabel, m.target)) + ",\n")
    ensures m.kind == CFGrib1Local ==>
      r == Success("\t" + CFNameText(PhenomNotation(getLabel, m.source)) + ":" + G1LText(Grib1Notation(m.target)) + ",\n")
    ensures m.kind == Grib2CF ==>
      r == Success("\t" + G2Text(Grib2Notation(m.source)) + ": " + CFNameText(PhenomNotation(getLabel, m.target)) + ",\n")
    ensures m.kind == CFGrib2 ==>
      r == Success("\t" + CFNameText(PhenomNotation(getLabel, m.source)) + ":" + G2Text(Grib2Notation(m.target)) + ",\n ")
    ensures m.kind == Grib1LocalCFConstrained ==>
      var (phenom, con) := ConstrainedNotation(getLabel, m.target);
      r == if phenom.None? || con.None? then Failure(NONE_SUBSCRIPT)
           else Success("\t" + G1LText(Grib1Notation(m.source)) + ": " + ConstrainedText(phenom.value, con.value) + ",\n")
    ensures m.kind == CFConstrainedGrib1Local ==>
      var (phenom, con) := ConstrainedNotation(getLabel, m.source);
      r == if phenom.None? || con.None? then Failure(NONE_SUBSCRIPT)
           else Success(ConstrainedText(phenom.value, con.value) + ": " + G1LText(Grib1Notation(m.target)) + ",\n")
  {
    match m.kind
    case StashCF => EncodeCodeCF(StashCF, CodeNotation(getLabel, m.source), PhenomNotation(getLabel, m.target))
    case FieldcodeCF => EncodeCodeCF(FieldcodeCF, CodeNotation(getLabel, m.source), PhenomNotation(getLabel, m.target))
    case CFFieldcode => EncodeCFFieldcode(PhenomNotation(getLabel, m.source), CodeNotation(getLabel, m.target))
    case Grib1LocalCF => EncodeGrib1CF(Grib1Notation(m.source), PhenomNotation(getLabel, m.target))
    case Grib1LocalCFConstrained =>
      var (phenom, con) := ConstrainedNotation(getLabel, m.target);
      if phenom.None? || con.None? then Failure(NONE_SUBSCRIPT)
      else EncodeGrib1Constrained(Grib1Notation(m.source), phenom.value, con.value)
    case CFGrib1Local => EncodeCFGrib1(PhenomNotation(getLabel, m.source), Grib1Notation(m.target))
    case CFConstrainedGrib1Local =>
      var (phenom, con) := ConstrainedNotation(getLabel, m.source);
      if phenom.None? || con.None? then Failure(NONE_SUBSCRIPT)
      else EncodeConstrainedGrib1(phenom.value, con.value, Grib1Notation(m.target))
    case Grib2CF => EncodeGrib2CF(Grib2Notation(m.source), PhenomNotation(getLabel, m.target))
    case CFGrib2 => EncodeCFGrib2(PhenomNotation(getLabel, m.source), Grib2Notation(m.target))
  }

  /** The replacement field holding the code of a STASH or field-code entry. */
  function CodeField(m: MappingKind): string {
    if m == StashCF then "stash" else "fc"
  }

  /** The STASH and field-code entries: the code, then the phenomenon. */
  function EncodeCodeCF(m: MappingKind, code: string, n: CFName): (r: Result<string, Exception>)
    requires m == StashCF || m == FieldcodeCF
    ensures r == Success("\t" + code + " : " + CFNameText(n) + ",\n")
  {
    var args := CFNameArgs(n)[CodeField(m) := code];
    ExtendsUpdate(CFNameArgs(n), CodeField(m), code);
    LayoutCodeCF(m, code, n, args);
    Render(EntryTemplate(m), args)
  }

  lemma LayoutCodeCF(m: MappingKind, code: string, n: CFName, args: Arguments)
    requires m == StashCF || m == FieldcodeCF
    requires Extends(args, CFNameArgs(n)) && CodeField(m) in args && args[CodeField(m)] == code
    ensures Covered(EntryTemplate(m), args)
    ensures Fill(EntryTemplate(m), args) == "\t" + code + " : " + CFNameText(n) + ",\n"
  {
    PartCFName(n, args);
    FillOne(Slot(CodeField(m)), args);
    FillLit("\t", args);
    FillLit(" : ", args);
    FillLit(",\n", args);
    FillConcat5([Lit("\t")], [Slot(CodeField(m))], [Lit(" : ")], CFNAME, [Lit(",\n")], args);
  }

  /** The arguments of the first attempt at a CF-to-field-code entry: the long name is missing. */
  function CFFieldcodeFirstArgs(n: CFName, code: string): Arguments {
    map["fc" := code, "cfsname" := Show(n.standardName), "units" := Show(n.units)]
  }

  /**
    The CF-to-field-code entry. The first rendering is given no long name and
    fails on it; the `KeyError` handler renders again with all four fields.
  */
  function EncodeCFFieldcode(n: CFName, code: string): (r: Result<string, Exception>)
    ensures r == Success("\t" + CFNameText(n) + " : " + code + ",\n")
  {
    var first := Render(EntryTemplate(CFFieldcode), CFFieldcodeFirstArgs(n, code));
    FirstRenderMissesLongName(n, code);
    var args := CFNameArgs(n)["fc" := code];
    ExtendsUpdate(CFNameArgs(n), "fc", code);
    LayoutCFFieldcode(n, code, args);
    if first.Failure? && first.error.KeyError? then Render(EntryTemplate(CFFieldcode), args) else first
  }

  /** The first attempt always fails, naming the long-name field. */
  lemma FirstRenderMissesLongName(n: CFName, code: string)
    ensures Render(EntryTemplate(CFFieldcode), CFFieldcodeFirstArgs(n, code)) == Failure(KeyError("lname"))
  {
    var t := EntryTemplate(CFFieldcode);
    var env := CFFieldcodeFirstArgs(n, code);
    assert t[4] == Slot("lname");
    var r := Render(t, env);
    assert r.Failure?;
    var i :| 0 <= i < |t| && t[i].Slot? && t[i].field !in env && r.error == KeyError(t[i].field);
    assert t[i].field == "lname";
  }

  lemma LayoutCFFieldcode(n: CFName, code: string, args: Arguments)
    requires Extends(args, CFNameArgs(n)) && "fc" in args && args["fc"] == code
    ensures Covered(EntryTemplate(CFFieldcode), args)
    ensures Fill(EntryTemplate(CFFieldcode), args) == "\t" + CFNameText(n) + " : " + code + ",\n"
  {
    PartCFName(n, args);
    FillOne(Slot("fc"), args);
    FillLit("\t", args);
    FillLit(" : ", args);
    FillLit(",\n", args);
    FillConcat5([Lit("\t")], CFNAME, [Lit(" : ")], [Slot("fc")], [Lit(",\n")], args);
  }

  function EncodeGrib1CF(g: G1LParam, n: CFName): (r: Result<string, Exception>)
    ensures r == Success("\t" + G1LText(g) + ": " + CFNameText(n) + ",\n")
  {
    var args := G1LArgs(g) + CFNameArgs(n);
    ExtendsUnion(G1LArgs(g), CFNameArgs(n));
    LayoutGrib1CF(g, n, args);
    Render(EntryTemplate(Grib1LocalCF), args)
  }

  lemma LayoutGrib1CF(g: G1LParam, n: CFName, args: Arguments)
    requires Extends(args, G1LArgs(g)) && Extends(args, CFNameArgs(n))
    ensures Covered(EntryTemplate(Grib1LocalCF), args)
    ensures Fill(EntryTemplate(Grib1LocalCF), args) == "\t" + G1LText(g) + ": " + CFNameText(n) + ",\n"
  {
    PartG1L(g, args);
    PartCFName(n, args);
    FillLit("\t", args);
    FillLit(": ", args);
    FillLit(",\n", args);
    FillConcat5([Lit("\t")], G1LPARAM, [Lit(": ")], CFNAME, [Lit(",\n")], args);
  }

  function EncodeCFGrib1(n: CFName, g: G1LParam): (r: Result<string, Exception>)
    ensures r == Success("\t" + CFNameText(n) + ":" + G1LText(g) + ",\n")
  {
    var args := G1LArgs(g) + CFNameArgs(n);
    ExtendsUnion(G1LArgs(g), CFNameArgs(n));
    LayoutCFGrib1(n, g, args);
    Render(EntryTemplate(CFGrib1Local), args)
  }

  lemma LayoutCFGrib1(n: CFName, g: G1LParam, args: Arguments)
    requires Extends(args, G1LArgs(g)) && Extends(args, CFNameArgs(n))
    ensures Covered(EntryTemplate(CFGrib1Local), args)
    ensures Fill(EntryTemplate(CFGrib1Local), args) == "\t" + CFNameText(n) + ":" + G1LText(g) + ",\n"
  {
    PartCFName(n, args);
    PartG1L(g, args);
    FillLit("\t", args);
    FillLit(":", args);
    FillLit(",\n", args);
    FillConcat5([Lit("\t")], CFNAME, [Lit(":")], G1LPARAM, [Lit(",\n")], args);
  }

  function EncodeGrib2CF(g: G2Param, n: CFName): (r: Result<string, Exception>)
    ensures r == Success("\t" + G2Text(g) + ": " + CFNameText(n) + ",\n")
  {
    var args := G2Args(g) + CFNameArgs(n);
    ExtendsUnion(G2Args(g), CFNameArgs(n));
    LayoutGrib2CF(g, n, args);
    Render(EntryTemplate(Grib2CF), args)
  }

  lemma LayoutGrib2CF(g: G2Param, n: CFName, args: Arguments)
    requires Extends(args, G2Args(g)) && Extends(args, CFNameArgs(n))
    ensures Covered(EntryTemplate(Grib2CF), args)
    ensures Fill(EntryTemplate(Grib2CF), args) == "\t" + G2Text(g) + ": " + CFNameText(n) + ",\n"
  {
    PartG2(g, args);
    PartCFName(n, args);
    FillLit("\t", args);
    FillLit(": ", args);
    FillLit(",\n", args);
    FillConcat5([Lit("\t")], G2PARAM, [Lit(": ")], CFNAME, [Lit(",\n")], args);
  }

  /** The CF-to-GRIB2 entry, the one whose separator ends in a space. */
  function EncodeCFGrib2(n: CFName, g: G2Param): (r: Result<string, Exception>)
    ensures r == Success("\t" + CFNameText(n) + ":" + G2Text(g) + ",\n ")
  {
    var args := G2Args(g) + CFNameArgs(n);
    ExtendsUnion(G2Args(g), CFNameArgs(n));
    LayoutCFGrib2(n, g, args);
    Render(EntryTemplate(CFGrib2), args)
  }

  lemma LayoutCFGrib2(n: CFName, g: G2Param, args: Arguments)
    requires Extends(args, G2Args(g)) && Extends(args, CFNameArgs(n))
    ensures Covered(EntryTemplate(CFGrib2), args)
    ensures Fill(EntryTemplate(CFGrib2), args) == "\t" + CFNameText(n) + ":" + G2Text(g) + ",\n "
  {
    PartCFName(n, args);
    PartG2(g, args);
    FillLit("\t", args);
    FillLit(":", args);
    FillLit(",\n ", args);
    FillConcat5([Lit("\t")], CFNAME, [Lit(":")], G2PARAM, [Lit(",\n ")], args);
  }

  function EncodeGrib1Constrained(g: G1LParam, phenom: Phenom, con: Constraint): (r: Result<string, Exception>)
    ensures r == Success("\t" + G1LText(g) + ": " + ConstrainedText(phenom, con) + ",\n")
  {
    var args := G1LArgs(g) + ConstrainedArgs(phenom, con);
    ExtendsUnion(G1LArgs(g), ConstrainedArgs(phenom, con));
    LayoutGrib1Constrained(g, phenom, con, args);
    Render(EntryTemplate(Grib1LocalCFConstrained), args)
  }

  lemma LayoutGrib1Constrained(g: G1LParam, phenom: Phenom, con: Constraint, args: Arguments)
    requires Extends(args, G1LArgs(g)) && Extends(args, ConstrainedArgs(phenom, con))
    ensures Covered(EntryTemplate(Grib1LocalCFConstrained), args)
    ensures Fill(EntryTemplate(Grib1LocalCFConstrained), args) == "\t" + G1LText(g) + ": " + ConstrainedText(phenom, con) + ",\n"
  {
    PartG1L(g, args);
    PartConstrained(phenom, con, args);
    FillLit("\t", args);
    FillLit(": ", args);
    FillLit(",\n", args);
    FillConcat5([Lit("\t")], G1LPARAM, [Lit(": ")], CONSTRAINED, [Lit(",\n")], args);
  }

  /** The constrained-CF-to-GRIB1 entry, the one without a leading tab. */
  function EncodeConstrainedGrib1(phenom: Phenom, con: Constraint, g: G1LParam): (r: Result<string, Exception>)
    ensures r == Success(ConstrainedText(phenom, con) + ": " + G1LText(g) + ",\n")
  {
    var args := G1LArgs(g) + ConstrainedArgs(phenom, con);
    ExtendsUnion(G1LArgs(g), ConstrainedArgs(phenom, con));
    LayoutConstrainedGrib1(phenom, con, g, args);
    Render(EntryTemplate(CFConstrainedGrib1Local), args)
  }

  lemma LayoutConstrainedGrib1(phenom: Phenom, con: Constraint, g: G1LParam, args: Arguments)
    requires Extends(args, G1LArgs(g)) && Extends(args, ConstrainedArgs(phenom, con))
    ensures Covered(EntryTemplate(CFConstrainedGrib1Local), args)
    ensures Fill(EntryTemplate(CFConstrainedGrib1Local), args) == ConstrainedText(phenom, con) + ": " + G1LText(g) + ",\n"
  {
    PartConstrained(phenom, con, args);
    PartG1L(g, args);
    FillLit(": ", args);
    FillLit(",\n", args);
    FillConcat4(CONSTRAINED, [Lit(": ")], G1LPARAM, [Lit(",\n")], args);
  }

  /** The phenomenon part under any arguments that include its own. */
  lemma PartCFName(n: CFName, env: Arguments)
    requires Extends(env, CFNameArgs(n))
    ensures Covered(CFNAME, env) && Fill(CFNAME, env) == CFNameText(n)
  {
    RenderCFName(n);
    FillExtends(CFNAME, CFNameArgs(n), env);
  }

  lemma PartG1L(g: G1LParam, env: Arguments)
    requires Extends(env, G1LArgs(g))
    ensures Covered(G1LPARAM, env) && Fill(G1LPARAM, env) == G1LText(g)
  {
    RenderG1L(g);
    FillExtends(G1LPARAM, G1LArgs(g), env);
  }

  lemma PartG2(g: G2Param, env: Arguments)
    requires Extends(env, G2Args(g))
    ensures Covered(G2PARAM, env) && Fill(G2PARAM, env) == G2Text(g)
  {
    RenderG2(g);
    FillExtends(G2PARAM, G2Args(g), env);
  }

  lemma PartConstrained(phenom: Phenom, con: Constraint, env: Arguments)
    requires Extends(env, ConstrainedArgs(phenom, con))
    ensures Covered(CONSTRAINED, env) && Fill(CONSTRAINED, env) == ConstrainedText(phenom, con)
  {
    RenderConstrained(phenom, con);
    FillExtends(CONSTRAINED, ConstrainedArgs(phenom, con), env);
  }

  /** The phenomenon part renders to the standard name, the long name and the units. */
  lemma RenderCFName(n: CFName)
    ensures Covered(CFNAME, CFNameArgs(n)) && Fill(CFNAME, CFNameArgs(n)) == CFNameText(n)
  {
    Fill7(Lit("CFname("), Slot("cfsname"), Lit(", "), Slot("lname"), Lit(", "), Slot("units"), Lit(")"), CFNameArgs(n));
  }

  /** The GRIB1 part renders to the edition, the table version, the centre and the parameter. */
  lemma RenderG1L(g: G1LParam)
    ensures Covered(G1LPARAM, G1LArgs(g)) && Fill(G1LPARAM, G1LArgs(g)) == G1LText(g)
  {
    Fill9(Lit("G1Lparam("), Slot("ed"), Lit(", "), Slot("t2version"), Lit(", "), Slot("centre"), Lit(", "), Slot("iParam"), Lit(")"), G1LArgs(g));
  }

  /** The GRIB2 part renders category before number. */
  lemma RenderG2(g: G2Param)
    ensures Covered(G2PARAM, G2Args(g)) && Fill(G2PARAM, G2Args(g)) == G2Text(g)
  {
    Fill9(Lit("G2param("), Slot("ed"), Lit(", "), Slot("disc"), Lit(", "), Slot("cat"), Lit(", "), Slot("num"), Lit(")"), G2Args(g));
  }

  /** The constrained part renders the phenomenon, then the coordinate constraint. */
  lemma RenderConstrained(phenom: Phenom, con: Constraint)
    ensures Covered(CONSTRAINED, ConstrainedArgs(phenom, con))
    ensures Fill(CONSTRAINED, ConstrainedArgs(phenom, con)) == ConstrainedText(phenom, con)
  {
    Fill13(Lit("(CFname("), Slot("psname"), Lit(", "), Slot("plname"), Lit(", "), Slot("punits"), Lit("), DimensionCoordinate("),
           Slot("csname"), Lit(", "), Slot("cunits"), Lit(", ("), Slot("cpoints"), Lit(",)))"), ConstrainedArgs(phenom, con));
  }

  // ---------------------------------------------------------------------------
  // Facts about the table
  // ---------------------------------------------------------------------------

  /** Each variant is found again under its own pair. */
  lemma TableInverse(m: MappingKind)
    ensures MappingFor(SourceKind(m), TargetKind(m)) == Some(m)
  {
  }

  /** Whatever the pair lookup finds is keyed by that pair. */
  lemma MappingForInverse(source: ConceptKind, target: ConceptKind)
    requires MappingFor(source, target).Some?
    ensures SourceKind(MappingFor(source, target).value) == source
    ensures TargetKind(MappingFor(source, target).value) == target
  {
  }

  /** The nine pairs are distinct: no two variants share a (source, target) pair. */
  lemma PairsDistinct(m1: MappingKind, m2: MappingKind)
    requires SourceKind(m1) == SourceKind(m2) && TargetKind(m1) == TargetKind(m2)
    ensures m1 == m2
  {
    TableInverse(m1);
    TableInverse(m2);
  }

  /** The classifier's list holds every variant. */
  lemma EveryMappingListed(m: MappingKind)
    ensures m in MAPPING_KINDS
  {
    match m
    case StashCF => assert MAPPING_KINDS[0] == m;
    case FieldcodeCF => assert MAPPING_KINDS[1] == m;
    case CFFieldcode => assert MAPPING_KINDS[2] == m;
    case Grib1LocalCF => assert MAPPING_KINDS[3] == m;
    case Grib1LocalCFConstrained => assert MAPPING_KINDS[4] == m;
    case CFGrib1Local => assert MAPPING_KINDS[5] == m;
    case CFConstrainedGrib1Local => assert MAPPING_KINDS[6] == m;
    case Grib2CF => assert MAPPING_KINDS[7] == m;
    case CFGrib2 => assert MAPPING_KINDS[8] == m;
  }

  /** A variant's `type_match` accepts a pair exactly when the pair lookup names that variant. */
  lemma MatchedIsTable(sk: Option<ConceptKind>, tk: Option<ConceptKind>)
    ensures forall k :: KeyedBy(k, sk, tk) <==> sk.Some? && tk.Some? && MappingFor(sk.value, tk.value) == Some(k)
  {
    forall k ensures KeyedBy(k, sk, tk) <==> sk.Some? && tk.Some? && MappingFor(sk.value, tk.value) == Some(k) {
      if sk.Some? && tk.Some? {
        KeyedIsTable(sk.value, tk.value, k);
      }
    }
  }

  /** A variant is keyed by a pair of concept variants exactly when the pair lookup names it. */
  lemma KeyedIsTable(sk: ConceptKind, tk: ConceptKind, k: MappingKind)
    ensures SourceKind(k) == sk && TargetKind(k) == tk <==> MappingFor(sk, tk) == Some(k)
  {
    TableInverse(k);
    if MappingFor(sk, tk).Some? {
      MappingForInverse(sk, tk);
    }
  }

  /** At most one variant accepts a pair of concepts, so the multiple-match `ValueError` is unreachable. */
  lemma MappingAtMostOne(sk: Option<ConceptKind>, tk: Option<ConceptKind>)
    ensures |Classify.Filter(MAPPING_KINDS, k => KeyedBy(k, sk, tk))| <= 1
  {
    forall a, b | a in MAPPING_KINDS && b in MAPPING_KINDS && KeyedBy(a, sk, tk) && KeyedBy(b, sk, tk)
      ensures a == b
    {
      PairsDistinct(a, b);
    }
    Classify.FilterAtMostOne(MAPPING_KINDS, k => KeyedBy(k, sk, tk));
  }
}
