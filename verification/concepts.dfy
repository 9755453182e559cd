/**
  The concept classifier: a definition fragment retrieved from the mapping
  store is one side of a translation rule, and exactly one concept variant
  describes its shape. Each variant has a structural test (`type_match`)
  and a notation that reads its fields out, resolving internal references
  through an external label lookup.
*/
module Concepts {
  import opened Wrappers
  import opened Exceptions
  import opened Text
  import Classify

  // ---------------------------------------------------------------------------
  // Vocabulary
  // ---------------------------------------------------------------------------

  /** The equality operator of a property. */
  const OPEQ := "<http://www.openmath.org/cd/relation1.xhtml#eq>"

  const UM_FORMAT := "<http://www.metarelate.net/metOcean/format/um>"
  const CF_FORMAT := "<http://www.metarelate.net/metOcean/format/cf>"
  const GRIB_FORMAT := "<http://www.metarelate.net/metOcean/format/grib>"

  const STASH_CONCEPT := "<http://reference.metoffice.gov.uk/def/um/stash/concept/"
  const F3_STASH := "<http://reference.metoffice.gov.uk/def/um/umdp/F3/stash>"
  const FIELD_CODE := "<http://reference.metoffice.gov.uk/def/um/fieldcode/"
  const F3_LBFC := "<http://reference.metoffice.gov.uk/def/um/umdp/F3/lbfc>"

  const CF_UNITS := "<http://def.cfconventions.org/datamodel/units>"
  const CF_TYPE := "<http://def.cfconventions.org/datamodel/type>"
  const CF_STANDARD_NAME := "<http://def.cfconventions.org/datamodel/standard_name>"
  const CF_LONG_NAME := "<http://def.cfconventions.org/datamodel/long_name>"
  const CF_POINTS := "<http://def.cfconventions.org/datamodel/points>"

  const GRIB_EDITION := "<http://def.ecmwf.int/api/grib/keys/editionNumber>"
  const GRIB_TABLE2_VERSION := "<http://def.ecmwf.int/api/grib/keys/table2Version>"
  const GRIB_CENTRE := "<http://def.ecmwf.int/api/grib/keys/centre>"
  const GRIB_INDICATOR := "<http://def.ecmwf.int/api/grib/keys/indicatorOfParameter>"
  const GRIB_DISCIPLINE := "<http://def.ecmwf.int/api/grib/keys/discipline>"
  const GRIB_NUMBER := "<http://def.ecmwf.int/api/grib/keys/parameterNumber>"
  const GRIB_CATEGORY := "<http://def.ecmwf.int/api/grib/keys/parameterCategory>"

  /** The names a bare phenomenon must define. */
  const PHENOM_REQUIRED: set<string> := {CF_UNITS, CF_TYPE}
  /** The further names a bare phenomenon may define. */
  const PHENOM_EITHER_OR: set<string> := {CF_STANDARD_NAME, CF_LONG_NAME}
  /** The names the phenomenon component of a constrained phenomenon defines. */
  const CONSTRAINED_PHENOM: set<string> := {CF_UNITS, CF_TYPE, CF_STANDARD_NAME}
  /** The names the constraint component of a constrained phenomenon defines. */
  const CONSTRAINED_COORD: set<string> := {CF_UNITS, CF_TYPE, CF_STANDARD_NAME, CF_POINTS}

  const GRIB1_LOCAL_KEYS: set<string> := {GRIB_EDITION, GRIB_TABLE2_VERSION, GRIB_CENTRE, GRIB_INDICATOR}
  const GRIB2_KEYS: set<string> := {GRIB_EDITION, GRIB_DISCIPLINE, GRIB_NUMBER, GRIB_CATEGORY}

  /** The display labels the notations compare resolved property names with. */
  const LABEL_STANDARD_NAME := "\"standard_name\""
  const LABEL_LONG_NAME := "\"long_name\""
  const LABEL_UNITS := "\"units\""
  const LABEL_POINTS := "\"points\""

  // ---------------------------------------------------------------------------
  // Definition fragments
  // ---------------------------------------------------------------------------

  /**
    One `mr:hasProperty` entry. Every key may be absent (`None`); `component`
    is the nested `mr:hasComponent` record a CF property can carry.
  */
  datatype Property = Property(
    name: Option<string>,
    operator: Option<string>,
    value: Option<string>,
    component: Option<Component>)

  /**
    A component record, seen through its `mr:hasProperty` entry and whether
    it holds any other key: a record with neither is the empty dictionary.
  */
  datatype Component = Component(properties: PropertyList, otherKeys: bool)

  /** An `mr:hasProperty` entry that is either absent or a list. */
  datatype PropertyList = Missing | Listed(items: seq<Property>)

  /**
    A definition fragment: its `mr:hasFormat`, its `mr:hasProperty` and
    `mr:hasComponent` lists and its `component` identifier, each possibly
    absent.
  */
  datatype Fragment = Fragment(
    format: Option<string>,
    properties: PropertyList,
    components: Option<seq<Component>>,
    id: Option<string>)

  /** The label lookup of the store, an external collaborator; it is handed whatever `dict.get` returned. */
  type Labeller = Option<string> -> string

  /** Python truthiness of a string-valued key: present and non-empty. */
  predicate Truthy(o: Option<string>) {
    o.Some? && o.value != ""
  }

  /** `prop.get('mr:name', '')` */
  function NameOf(p: Property): string {
    p.name.GetOr("")
  }

  /** `record.get('mr:hasProperty', [])` */
  function Items(l: PropertyList): seq<Property> {
    match l
    case Missing => []
    case Listed(ps) => ps
  }

  function PropertiesOf(d: Fragment): seq<Property> {
    Items(d.properties)
  }

  function ComponentsOf(d: Fragment): seq<Component> {
    d.components.GetOr([])
  }

  /** A property that defines its name: its operator is the equality operator and it has a value. */
  predicate Defines(p: Property) {
    Truthy(p.operator) && Truthy(p.value) && p.operator.value == OPEQ
  }

  /** The keys of the `define` dictionary built from a property list. */
  function DefinedNames(ps: seq<Property>): set<string> {
    set p | p in ps && Defines(p) :: NameOf(p)
  }

  /** The set of `mr:name`s of a property list, absent names read as `''`. */
  function Names(ps: seq<Property>): set<string> {
    set p | p in ps :: NameOf(p)
  }

  // ---------------------------------------------------------------------------
  // The structural tests
  // ---------------------------------------------------------------------------

  /**
    The shape shared by the STASH-code and field-code tests: a UM fragment
    with one property and no components, whose value lies under
    `valuePrefix` and whose name is `nameUri`. The source assigns the
    operator instead of comparing it, so any non-empty operator passes.
  */
  predicate SingleCodeMatch(d: Fragment, valuePrefix: string, nameUri: string)
    requires valuePrefix != "" && nameUri != ""
  {
    var properties := PropertiesOf(d);
    if d.format == Some(UM_FORMAT) && |properties| == 1 && |ComponentsOf(d)| == 0 then
      var p := properties[0];
      var codeValue := if Truthy(p.value) then StartsWith(p.value.value, valuePrefix) else false;
      var codeName := if Truthy(p.name) then p.name.value == nameUri else false;
      var opEq := Truthy(p.operator);
      codeValue && codeName && opEq
    else
      false
  }

  predicate StashTypeMatch(d: Fragment) {
    SingleCodeMatch(d, STASH_CONCEPT, F3_STASH)
  }

  predicate FieldcodeTypeMatch(d: Fragment) {
    SingleCodeMatch(d, FIELD_CODE, F3_LBFC)
  }

  predicate CFPhenomDefTypeMatch(d: Fragment) {
    if d.format == Some(CF_FORMAT) && |ComponentsOf(d)| == 0 then
      var defined := DefinedNames(PropertiesOf(d));
      PHENOM_REQUIRED <= defined && defined <= PHENOM_REQUIRED + PHENOM_EITHER_OR
    else
      false
  }

  /**
    The two flags of the constrained-phenomenon scan over components: some
    component defines exactly the phenomenon names, and some component
    defines exactly the constraint names.
  */
  function ComponentFlags(comps: seq<Component>): (bool, bool)
  {
    if |comps| == 0 then
      (false, false)
    else
      var (phenom, constraint) := ComponentFlags(comps[..|comps| - 1]);
      var defined := DefinedNames(Items(comps[|comps| - 1].properties));
      if defined == CONSTRAINED_PHENOM then (true, constraint)
      else if defined == CONSTRAINED_COORD then (phenom, true)
      else (phenom, constraint)
  }

  predicate CFConstrainedPhenomDefTypeMatch(d: Fragment) {
    var flags := if d.format == Some(CF_FORMAT) && |PropertiesOf(d)| == 0 && |ComponentsOf(d)| == 2
      then ComponentFlags(ComponentsOf(d))
      else (false, false);
    flags.0 && flags.1
  }

  predicate CFTypeMatch(d: Fragment) {
    d.format == Some(CF_FORMAT) && !CFPhenomDefTypeMatch(d) && !CFConstrainedPhenomDefTypeMatch(d)
  }

  predicate Grib1LocalParamTypeMatch(d: Fragment) {
    d.format == Some(GRIB_FORMAT) && |ComponentsOf(d)| == 0 && Names(PropertiesOf(d)) == GRIB1_LOCAL_KEYS
  }

  predicate Grib2ParamTypeMatch(d: Fragment) {
    d.format == Some(GRIB_FORMAT) && |ComponentsOf(d)| == 0 && Names(PropertiesOf(d)) == GRIB2_KEYS
  }

  predicate GribTypeMatch(d: Fragment) {
    d.format == Some(GRIB_FORMAT) && |ComponentsOf(d)| == 0 && !Grib2ParamTypeMatch(d) && !Grib1LocalParamTypeMatch(d)
  }

  /** The concept variants, one per `Concept` subclass. */
  datatype ConceptKind =
    | Stash
    | Fieldcode
    | CFPhenomDef
    | CFConstrainedPhenomDef
    | CF
    | Grib
    | Grib1LocalParam
    | Grib2Param

  /** The variants in declaration order, the order `__subclasses__()` lists them. */
  const CONCEPT_KINDS: seq<ConceptKind> :=
    [Stash, Fieldcode, CFPhenomDef, CFConstrainedPhenomDef, CF, Grib, Grib1LocalParam, Grib2Param]

  /** `<kind>Concept.type_match(definition, fu_p)` */
  predicate TypeMatch(k: ConceptKind, d: Fragment) {
    match k
    case Stash => StashTypeMatch(d)
    case Fieldcode => FieldcodeTypeMatch(d)
    case CFPhenomDef => CFPhenomDefTypeMatch(d)
    case CFConstrainedPhenomDef => CFConstrainedPhenomDefTypeMatch(d)
    case CF => CFTypeMatch(d)
    case Grib => GribTypeMatch(d)
    case Grib1LocalParam => Grib1LocalParamTypeMatch(d)
    case Grib2Param => Grib2ParamTypeMatch(d)
  }

  // ---------------------------------------------------------------------------
  // Concepts and the factory
  // ---------------------------------------------------------------------------

  /** The constructors that read `definition['mr:hasProperty']` rather than `.get`. */
  predicate ReadsProperties(k: ConceptKind) {
    k != CFConstrainedPhenomDef && k != CF
  }

  datatype ConceptRecord = ConceptRecord(kind: ConceptKind, definition: Fragment)

  /** What a constructor leaves behind: its test accepted the fragment and every key it indexed was present. */
  predicate Constructed(c: ConceptRecord) {
    && TypeMatch(c.kind, c.definition)
    && c.definition.id.Some?
    && (ReadsProperties(c.kind) ==> c.definition.properties.Listed?)
  }

  /** A concept object: only `make_concept` creates them. */
  type Concept = c: ConceptRecord | Constructed(c)
    witness ConceptRecord(
      Stash,
      Fragment(Some(UM_FORMAT), Listed([Property(Some(F3_STASH), Some(OPEQ), Some(STASH_CONCEPT), None)]), None, Some("")))

  /** The constructor `<kind>Concept(definition, fu_p)`, whose indexing raises `KeyError` on a missing key. */
  function Construct(k: ConceptKind, d: Fragment): (r: Result<Concept, Exception>)
    requires TypeMatch(k, d)
    ensures r.Success? <==> d.id.Some? && (ReadsProperties(k) ==> d.properties.Listed?)
    ensures r.Success? ==> r.value.kind == k && r.value.definition == d
    ensures r.Failure? ==> r.error.KeyError?
  {
    if ReadsProperties(k) && d.properties.Missing? then Failure(KeyError("mr:hasProperty"))
    else if d.id.None? then Failure(KeyError("component"))
    else Success(ConceptRecord(k, d))
  }

  /** Constructs each matched variant in order; the first `KeyError` propagates. */
  function ConstructEach(ks: seq<ConceptKind>, d: Fragment): (r: Result<seq<Concept>, Exception>)
    requires forall k :: k in ks ==> TypeMatch(k, d)
    ensures r.Success? ==> |r.value| == |ks|
    ensures r.Success? ==> forall i :: 0 <= i < |ks| ==> r.value[i].kind == ks[i] && r.value[i].definition == d
    ensures r.Failure? ==> r.error.KeyError?
  {
    if |ks| == 0 then
      Success([])
    else
      var c :- Construct(ks[0], d);
      var rest :- ConstructEach(ks[1..], d);
      Success([c] + rest)
  }

  /** The variants whose test accepts `d`, in declaration order. */
  function MatchingKinds(d: Fragment): (r: seq<ConceptKind>)
    ensures forall k :: k in r <==> TypeMatch(k, d)
    ensures |r| <= 1
  {
    var r := Classify.Filter(CONCEPT_KINDS, k => TypeMatch(k, d));
    AtMostOneKind(d);
    EveryKindListed();
    r
  }

  /**
    `make_concept(definition, fu_p)`. The first test reads
    `definition['mr:hasFormat']`, so a fragment without a format raises
    `KeyError` before any test can accept it.
  */
  function MakeConcept(d: Fragment): (r: Result<Option<Concept>, Exception>)
    ensures d.format.None? ==> r == Failure(KeyError("mr:hasFormat"))
    ensures r.Failure? ==> r.error.KeyError?
    ensures r == Success(None) <==> d.format.Some? && MatchingKinds(d) == []
    ensures r.Success? && r.value.Some? ==> r.value.value.definition == d
  {
    if d.format.None? then Failure(KeyError("mr:hasFormat"))
    else
      var built :- ConstructEach(MatchingKinds(d), d);
      Classify.Single(built, "Concept")
  }

  /** `make_concept` gives `None` exactly when the fragment has a format and no test accepts it. */
  lemma MakeConceptNone(d: Fragment)
    ensures MakeConcept(d) == Success(None) <==> d.format.Some? && forall k :: !TypeMatch(k, d)
  {
    var matched := MatchingKinds(d);
    if |matched| > 0 {
      assert matched[0] in matched;
    }
  }

  /** A concept that `make_concept` returns is of the one variant whose test accepted the fragment. */
  lemma MakeConceptKind(d: Fragment)
    requires MakeConcept(d).Success? && MakeConcept(d).value.Some?
    ensures MatchingKinds(d) == [MakeConcept(d).value.value.kind]
  {
    var matched := MatchingKinds(d);
    var c := MakeConcept(d).value.value;
    assert d.format.Some?;
    assert c.definition == d;
    assert TypeMatch(c.kind, d);
    assert c.kind in matched;
    Classify.OnlyMember(matched, c.kind);
  }

  // ---------------------------------------------------------------------------
  // Mutual exclusion of the tests
  // ---------------------------------------------------------------------------

  /** No fragment passes two different tests. */
  lemma KindsExclusive(d: Fragment, k1: ConceptKind, k2: ConceptKind)
    requires TypeMatch(k1, d) && TypeMatch(k2, d)
    ensures k1 == k2
  {
    FormatsDistinct();
    GribKeySetsDistinct();
    if k1 in {Stash, Fieldcode} && k2 in {Stash, Fieldcode} {
      assert F3_STASH != F3_LBFC by { assert |F3_STASH| != |F3_LBFC|; }
    }
  }

  lemma FormatsDistinct()
    ensures UM_FORMAT != CF_FORMAT && CF_FORMAT != GRIB_FORMAT && UM_FORMAT != GRIB_FORMAT
  {
    assert UM_FORMAT[43] != CF_FORMAT[43];
    assert |CF_FORMAT| != |GRIB_FORMAT| && |UM_FORMAT| != |GRIB_FORMAT|;
  }

  lemma GribKeySetsDistinct()
    ensures GRIB1_LOCAL_KEYS != GRIB2_KEYS
  {
    assert GRIB_TABLE2_VERSION != GRIB_EDITION by {
      assert GRIB_TABLE2_VERSION[37] != GRIB_EDITION[37];
    }
    assert |GRIB_TABLE2_VERSION| != |GRIB_DISCIPLINE|;
    assert |GRIB_TABLE2_VERSION| != |GRIB_NUMBER|;
    assert |GRIB_TABLE2_VERSION| != |GRIB_CATEGORY|;
    assert GRIB_TABLE2_VERSION in GRIB1_LOCAL_KEYS && GRIB_TABLE2_VERSION !in GRIB2_KEYS;
  }

  lemma EveryKindListed()
    ensures forall k :: k in CONCEPT_KINDS
  {
    forall k ensures k in CONCEPT_KINDS {
      match k
      case Stash => assert CONCEPT_KINDS[0] == k;
      case Fieldcode => assert CONCEPT_KINDS[1] == k;
      case CFPhenomDef => assert CONCEPT_KINDS[2] == k;
      case CFConstrainedPhenomDef => assert CONCEPT_KINDS[3] == k;
      case CF => assert CONCEPT_KINDS[4] == k;
      case Grib => assert CONCEPT_KINDS[5] == k;
      case Grib1LocalParam => assert CONCEPT_KINDS[6] == k;
      case Grib2Param => assert CONCEPT_KINDS[7] == k;
    }
  }

  lemma AtMostOneKind(d: Fragment)
    ensures |Classify.Filter(CONCEPT_KINDS, k => TypeMatch(k, d))| <= 1
  {
    forall a, b | a in CONCEPT_KINDS && b in CONCEPT_KINDS && TypeMatch(a, d) && TypeMatch(b, d)
      ensures a == b
    {
      KindsExclusive(d, a, b);
    }
    Classify.FilterAtMostOne(CONCEPT_KINDS, k => TypeMatch(k, d));
  }
}

module ConceptFacts {
  import opened Wrappers
  import opened Text
  import opened Concepts

  /** `d` with the operator of its first property replaced by `op`. */
  function WithOperator(d: Fragment, op: Option<string>): Fragment
    requires |PropertiesOf(d)| >= 1
  {
    var ps := PropertiesOf(d);
    d.(properties := Listed([ps[0].(operator := op)] + ps[1..]))
  }

  /** The STASH test spelled out: one property, named the F3 STASH key, valued under the STASH concept namespace, with some operator. */
  lemma StashTypeMatchIff(d: Fragment)
    ensures StashTypeMatch(d) <==>
      && d.format == Some(UM_FORMAT)
      && |PropertiesOf(d)| == 1
      && |ComponentsOf(d)| == 0
      && PropertiesOf(d)[0].value.Some?
      && StartsWith(PropertiesOf(d)[0].value.value, STASH_CONCEPT)
      && PropertiesOf(d)[0].name == Some(F3_STASH)
      && Truthy(PropertiesOf(d)[0].operator)
  {
  }

  /** The operator's value never matters to the STASH test: any two non-empty operators give the same verdict. */
  lemma StashOperatorIgnored(d: Fragment, op1: string, op2: string)
    requires |PropertiesOf(d)| >= 1
    requires op1 != "" && op2 != ""
    ensures StashTypeMatch(WithOperator(d, Some(op1))) == StashTypeMatch(WithOperator(d, Some(op2)))
  {
    var d1 := WithOperator(d, Some(op1));
    var d2 := WithOperator(d, Some(op2));
    assert |PropertiesOf(d1)| == |PropertiesOf(d2)|;
  }

  /** No fragment is both a STASH code and a field code: the two tests demand different property names. */
  lemma StashFieldcodeExclusive(d: Fragment)
    ensures !(StashTypeMatch(d) && FieldcodeTypeMatch(d))
  {
    if StashTypeMatch(d) && FieldcodeTypeMatch(d) {
      KindsExclusive(d, Stash, Fieldcode);
    }
  }

  /**
    The bare-phenomenon test as a statement about properties: a CF fragment
    without components, among whose defining properties some define units,
    some define type, and every one defines units, type, standard_name or
    long_name. Properties that do not define their name are ignored.
  */
  lemma CFPhenomDefIff(d: Fragment)
    ensures CFPhenomDefTypeMatch(d) <==>
      && d.format == Some(CF_FORMAT)
      && |ComponentsOf(d)| == 0
      && (exists p :: p in PropertiesOf(d) && Defines(p) && NameOf(p) == CF_UNITS)
      && (exists p :: p in PropertiesOf(d) && Defines(p) && NameOf(p) == CF_TYPE)
      && (forall p :: p in PropertiesOf(d) && Defines(p) ==>
            NameOf(p) in {CF_UNITS, CF_TYPE, CF_STANDARD_NAME, CF_LONG_NAME})
  {
    var ps := PropertiesOf(d);
    var defined := DefinedNames(ps);
    var allowed := {CF_UNITS, CF_TYPE, CF_STANDARD_NAME, CF_LONG_NAME};
    assert PHENOM_REQUIRED + PHENOM_EITHER_OR == allowed;
    assert PHENOM_REQUIRED <= defined <==> CF_UNITS in defined && CF_TYPE in defined;
    assert CF_UNITS in defined <==> exists p :: p in ps && Defines(p) && NameOf(p) == CF_UNITS;
    assert CF_TYPE in defined <==> exists p :: p in ps && Defines(p) && NameOf(p) == CF_TYPE;
    assert defined <= allowed <==> forall p :: p in ps && Defines(p) ==> NameOf(p) in allowed by {
      if defined <= allowed {
        forall p | p in ps && Defines(p) ensures NameOf(p) in allowed {
          assert NameOf(p) in defined;
        }
      }
    }
  }

  /** The names a component defines. */
  function ComponentNames(c: Component): set<string> {
    DefinedNames(Items(c.properties))
  }

  /** Some component of `comps` defines exactly `names`. */
  predicate SomeComponentDefines(comps: seq<Component>, names: set<string>) {
    exists i :: 0 <= i < |comps| && ComponentNames(comps[i]) == names
  }

  /** A component defining `names` is either among the front components or is the last one. */
  lemma SomeComponentDefinesSnoc(comps: seq<Component>, names: set<string>)
    requires |comps| > 0
    ensures SomeComponentDefines(comps, names) <==>
      SomeComponentDefines(comps[..|comps| - 1], names) || ComponentNames(comps[|comps| - 1]) == names
  {
    var front := comps[..|comps| - 1];
    assert forall i :: 0 <= i < |front| ==> front[i] == comps[i];
  }

  /** Between two components, one defining `names` is the first or the second. */
  lemma SomeComponentDefinesPair(comps: seq<Component>, names: set<string>)
    requires |comps| == 2
    ensures SomeComponentDefines(comps, names) <==> ComponentNames(comps[0]) == names || ComponentNames(comps[1]) == names
  {
  }

  /** The two name sets differ: only the constraint's component defines points. */
  lemma ConstrainedSetsDistinct()
    ensures CONSTRAINED_PHENOM != CONSTRAINED_COORD
  {
    assert CF_POINTS in CONSTRAINED_COORD;
    assert |CF_POINTS| != |CF_UNITS| && |CF_POINTS| != |CF_TYPE| && |CF_POINTS| != |CF_STANDARD_NAME|;
  }

  /** The scan raises its phenomenon flag exactly when some component defines exactly {units, type, standard_name}. */
  lemma {:induction false} PhenomFlagIff(comps: seq<Component>)
    ensures ComponentFlags(comps).0 <==> SomeComponentDefines(comps, CONSTRAINED_PHENOM)
    decreases |comps|
  {
    if |comps| > 0 {
      PhenomFlagIff(comps[..|comps| - 1]);
      SomeComponentDefinesSnoc(comps, CONSTRAINED_PHENOM);
    }
  }

  /** The scan raises its constraint flag exactly when some component defines exactly those names and points. */
  lemma {:induction false} CoordFlagIff(comps: seq<Component>)
    ensures ComponentFlags(comps).1 <==> SomeComponentDefines(comps, CONSTRAINED_COORD)
    decreases |comps|
  {
    if |comps| > 0 {
      CoordFlagIff(comps[..|comps| - 1]);
      SomeComponentDefinesSnoc(comps, CONSTRAINED_COORD);
      ConstrainedSetsDistinct();
    }
  }

  /**
    The constrained-phenomenon test: a CF fragment with no properties and
    exactly two components, one defining exactly {units, type,
    standard_name} and the other exactly those names and points.
  */
  lemma CFConstrainedIff(d: Fragment)
    ensures CFConstrainedPhenomDefTypeMatch(d) <==>
      && d.format == Some(CF_FORMAT)
      && |PropertiesOf(d)| == 0
      && |ComponentsOf(d)| == 2
      && ((ComponentNames(ComponentsOf(d)[0]) == CONSTRAINED_PHENOM && ComponentNames(ComponentsOf(d)[1]) == CONSTRAINED_COORD)
       || (ComponentNames(ComponentsOf(d)[0]) == CONSTRAINED_COORD && ComponentNames(ComponentsOf(d)[1]) == CONSTRAINED_PHENOM))
  {
    var cs := ComponentsOf(d);
    if d.format == Some(CF_FORMAT) && |PropertiesOf(d)| == 0 && |cs| == 2 {
      PhenomFlagIff(cs);
      CoordFlagIff(cs);
      SomeComponentDefinesPair(cs, CONSTRAINED_PHENOM);
      SomeComponentDefinesPair(cs, CONSTRAINED_COORD);
      ConstrainedSetsDistinct();
    }
  }

  /** Every CF fragment is exactly one of: a bare phenomenon, a constrained phenomenon, a residual CF concept. */
  lemma CFExactlyOne(d: Fragment)
    requires d.format == Some(CF_FORMAT)
    ensures |MatchingKinds(d)| == 1
    ensures MatchingKinds(d)[0] in {CFPhenomDef, CFConstrainedPhenomDef, CF}
  {
    var m := MatchingKinds(d);
    var k := if CFPhenomDefTypeMatch(d) then CFPhenomDef
             else if CFConstrainedPhenomDefTypeMatch(d) then CFConstrainedPhenomDef
             else CF;
    assert TypeMatch(k, d);
    SingletonMember(m, k);
  }

  /**
    A GRIB fragment without components is exactly one of: a GRIB1 local
    parameter, a GRIB2 parameter, a residual GRIB concept; with components
    it is none of them, nor anything else.
  */
  lemma GribExactlyOne(d: Fragment)
    requires d.format == Some(GRIB_FORMAT)
    ensures |ComponentsOf(d)| == 0 ==> |MatchingKinds(d)| == 1 && MatchingKinds(d)[0] in {Grib, Grib1LocalParam, Grib2Param}
    ensures |ComponentsOf(d)| > 0 ==> MatchingKinds(d) == []
  {
    FormatsDistinct();
    var m := MatchingKinds(d);
    if |ComponentsOf(d)| == 0 {
      var k := if Grib1LocalParamTypeMatch(d) then Grib1LocalParam
               else if Grib2ParamTypeMatch(d) then Grib2Param
               else Grib;
      assert TypeMatch(k, d);
      SingletonMember(m, k);
    } else {
      forall k ensures !TypeMatch(k, d) {
        GribRefusesComponents(k, d);
      }
      NoMatchEmpty(d);
    }
  }

  /** A UM fragment is a STASH code, a field code or nothing. */
  lemma UMAtMostCode(d: Fragment)
    requires d.format == Some(UM_FORMAT)
    ensures forall k :: k in MatchingKinds(d) ==> k in {Stash, Fieldcode}
  {
    forall k | k in MatchingKinds(d) ensures k in {Stash, Fieldcode} {
      KindFormat(k, d);
    }
  }

  /** The format each test demands, and the GRIB tests' refusal of components. */
  lemma KindFormat(k: ConceptKind, d: Fragment)
    requires TypeMatch(k, d)
    ensures k in {Stash, Fieldcode} ==> d.format == Some(UM_FORMAT)
    ensures k in {CFPhenomDef, CFConstrainedPhenomDef, CF} ==> d.format == Some(CF_FORMAT)
    ensures k in {Grib, Grib1LocalParam, Grib2Param} ==> d.format == Some(GRIB_FORMAT) && |ComponentsOf(d)| == 0
  {
  }

  lemma SingletonMember(m: seq<ConceptKind>, k: ConceptKind)
    requires |m| <= 1 && k in m
    ensures |m| == 1 && m[0] == k
  {
  }

  lemma NoMatchEmpty(d: Fragment)
    requires forall k :: !TypeMatch(k, d)
    ensures MatchingKinds(d) == []
  {
  }

  lemma GribRefusesComponents(k: ConceptKind, d: Fragment)
    requires d.format == Some(GRIB_FORMAT) && |ComponentsOf(d)| > 0
    ensures !TypeMatch(k, d)
  {
    FormatsDistinct();
  }
}
