/**
  The notations of the concept variants: what each concept reads out of its
  definition fragment for the encoders, with internal references resolved
  through the store's label lookup.
*/
module Notations {
  import opened Wrappers
  import opened Exceptions
  import opened Text
  import opened Concepts

  // ---------------------------------------------------------------------------
  // Last occurrences
  // ---------------------------------------------------------------------------

  /** The index of the last element of `s` satisfying `p`, if any. */
  function LastIndex<T>(s: seq<T>, p: T -> bool): (r: Option<nat>)
    ensures r.None? <==> forall i :: 0 <= i < |s| ==> !p(s[i])
    ensures r.Some? ==> r.value < |s| && p(s[r.value])
    ensures r.Some? ==> forall j :: r.value < j < |s| ==> !p(s[j])
  {
    if |s| == 0 then None
    else if p(s[|s| - 1]) then Some(|s| - 1)
    else LastIndex(s[..|s| - 1], p)
  }

  /** Whether property `q`'s name resolves to the display label `lab`. */
  predicate LabelledAs(getLabel: Labeller, q: Property, lab: string) {
    getLabel(q.name) == lab
  }

  /** The last property whose name resolves to `lab`: the one a loop that keeps overwriting leaves behind. */
  function LastLabelled(getLabel: Labeller, ps: seq<Property>, lab: string): Option<nat> {
    LastIndex(ps, q => LabelledAs(getLabel, q, lab))
  }

  // ---------------------------------------------------------------------------
  // STASH codes and field codes
  // ---------------------------------------------------------------------------

  /** The notation of a STASH or field-code concept: the label of its one property's value. */
  function CodeNotation(getLabel: Labeller, c: Concept): (r: string)
    requires c.kind == Stash || c.kind == Fieldcode
    ensures |PropertiesOf(c.definition)| == 1
    ensures r == getLabel(PropertiesOf(c.definition)[0].value)
  {
    getLabel(PropertiesOf(c.definition)[0].value)
  }

  // ---------------------------------------------------------------------------
  // Bare phenomena
  // ---------------------------------------------------------------------------

  /**
    What one scan over a property list leaves in its four variables; each
    starts as `None` and is overwritten by every property whose name
    resolves to that variable's label.
  */
  datatype Scanned = Scanned(
    standardName: Option<string>,
    longName: Option<string>,
    units: Option<string>,
    points: Option<string>)

  /** A resolved standard name; a label that is still a reference (`<...>`) counts as none. */
  function ResolveStandardName(getLabel: Labeller, value: Option<string>): (r: Option<string>)
    ensures r.None? <==> StartsWith(getLabel(value), "<")
    ensures r.Some? ==> r.value == getLabel(value)
  {
    var sn := getLabel(value);
    if StartsWith(sn, "<") then None else Some(sn)
  }

  /** The standard name the property at `i` (if any) contributes. */
  function StandardNameAt(getLabel: Labeller, ps: seq<Property>, i: Option<nat>): Option<string>
    requires i.Some? ==> i.value < |ps|
  {
    if i.None? then None else ResolveStandardName(getLabel, ps[i.value].value)
  }

  /** The raw value of the property at `i` (if any). */
  function RawAt(ps: seq<Property>, i: Option<nat>): Option<string>
    requires i.Some? ==> i.value < |ps|
  {
    if i.None? then None else ps[i.value].value
  }

  /** The resolved value of the property at `i` (if any). */
  function LabelAt(getLabel: Labeller, ps: seq<Property>, i: Option<nat>): Option<string>
    requires i.Some? ==> i.value < |ps|
  {
    if i.None? then None else Some(getLabel(ps[i.value].value))
  }

  /**
    The scan over a property list, as a fold over ever longer prefixes.
    Every variable is decided by the LAST property whose name resolves to
    its label; the long name is kept raw, the others are resolved.
  */
  function Scan(getLabel: Labeller, ps: seq<Property>): (r: Scanned)
    ensures r.standardName == StandardNameAt(getLabel, ps, LastLabelled(getLabel, ps, LABEL_STANDARD_NAME))
    ensures r.longName == RawAt(ps, LastLabelled(getLabel, ps, LABEL_LONG_NAME))
    ensures r.units == LabelAt(getLabel, ps, LastLabelled(getLabel, ps, LABEL_UNITS))
    ensures r.points == LabelAt(getLabel, ps, LastLabelled(getLabel, ps, LABEL_POINTS))
  {
    if |ps| == 0 then
      Scanned(None, None, None, None)
    else
      var acc := Scan(getLabel, ps[..|ps| - 1]);
      var p := ps[|ps| - 1];
      var n := getLabel(p.name);
      if n == LABEL_STANDARD_NAME then acc.(standardName := ResolveStandardName(getLabel, p.value))
      else if n == LABEL_LONG_NAME then acc.(longName := p.value)
      else if n == LABEL_UNITS then acc.(units := Some(getLabel(p.value)))
      else if n == LABEL_POINTS then acc.(points := Some(getLabel(p.value)))
      else acc
  }

  // ---------------------------------------------------------------------------
  // Bare phenomena
  // ---------------------------------------------------------------------------

  /** The notation of a bare phenomenon: standard name, long name, units, each possibly `None`. */
  datatype CFName = CFName(standardName: Option<string>, longName: Option<string>, units: Option<string>)

  /** `CFPhenomDefConcept.notation()`: its scan loop does not look at points. */
  function PhenomNotation(getLabel: Labeller, c: Concept): (r: CFName)
    requires c.kind == CFPhenomDef
    ensures r.standardName.Some? ==> !StartsWith(r.standardName.value, "<")
    ensures r.longName.Some? ==>
      exists p :: p in PropertiesOf(c.definition) && p.value == r.longName && getLabel(p.name) == LABEL_LONG_NAME
    ensures r.units.Some? ==>
      exists p :: p in PropertiesOf(c.definition) && getLabel(p.name) == LABEL_UNITS && r.units.value == getLabel(p.value)
    ensures var ps := PropertiesOf(c.definition); var k := LastLabelled(getLabel, ps, LABEL_STANDARD_NAME);
      r.standardName.None? <==> k.None? || StartsWith(getLabel(ps[k.value].value), "<")
  {
    var ps := PropertiesOf(c.definition);
    var s := Scan(getLabel, ps);
    var i := LastLabelled(getLabel, ps, LABEL_LONG_NAME);
    assert i.Some? ==> ps[i.value] in ps;
    var j := LastLabelled(getLabel, ps, LABEL_UNITS);
    assert j.Some? ==> ps[j.value] in ps;
    CFName(s.standardName, s.longName, s.units)
  }

  // ---------------------------------------------------------------------------
  // Constrained phenomena
  // ---------------------------------------------------------------------------

  /** The phenomenon dictionary `{'cfsn': ..., 'units': ...}`. */
  datatype Phenom = Phenom(standardName: Option<string>, units: Option<string>)

  /** The constraint dictionary `{'cfsn': ..., 'units': ..., 'points': ...}`; all three are non-empty. */
  datatype Constraint = Constraint(standardName: string, units: string, points: string)

  /** The scan of one component's properties. */
  function ScanComponent(getLabel: Labeller, comp: Component): Scanned {
    Scan(getLabel, Items(comp.properties))
  }

  /** A component reads as the constraint exactly when its points, standard name and units are all non-empty. */
  predicate IsConstraint(getLabel: Labeller, comp: Component) {
    var s := ScanComponent(getLabel, comp);
    Truthy(s.points) && Truthy(s.standardName) && Truthy(s.units)
  }

  function PhenomOf(getLabel: Labeller, comp: Component): Phenom {
    var s := ScanComponent(getLabel, comp);
    Phenom(s.standardName, s.units)
  }

  function ConstraintOf(getLabel: Labeller, comp: Component): Constraint
    requires IsConstraint(getLabel, comp)
  {
    var s := ScanComponent(getLabel, comp);
    Constraint(s.standardName.value, s.units.value, s.points.value)
  }

  /** The component the `phenom` variable ends up describing: the last one that is not a constraint. */
  function LastPhenom(getLabel: Labeller, comps: seq<Component>): Option<nat> {
    LastIndex(comps, comp => !IsConstraint(getLabel, comp))
  }

  /** The component the `constraint` variable ends up describing: the last constraint. */
  function LastConstraint(getLabel: Labeller, comps: seq<Component>): Option<nat> {
    LastIndex(comps, comp => IsConstraint(getLabel, comp))
  }

  /**
    The loop over components, as a fold over ever longer prefixes: each
    component overwrites either the phenomenon or the constraint.
  */
  function ConstrainedFold(getLabel: Labeller, comps: seq<Component>): (r: (Option<Phenom>, Option<Constraint>))
    ensures var i := LastPhenom(getLabel, comps);
      r.0 == if i.None? then None else Some(PhenomOf(getLabel, comps[i.value]))
    ensures var i := LastConstraint(getLabel, comps);
      r.1 == if i.None? then None else Some(ConstraintOf(getLabel, comps[i.value]))
  {
    if |comps| == 0 then
      (None, None)
    else
      var (phenom, constraint) := ConstrainedFold(getLabel, comps[..|comps| - 1]);
      var comp := comps[|comps| - 1];
      if IsConstraint(getLabel, comp) then
        LastAfterConstraint(getLabel, comps);
        (phenom, Some(ConstraintOf(getLabel, comp)))
      else
        LastAfterPhenom(getLabel, comps);
        (Some(PhenomOf(getLabel, comp)), constraint)
  }

  /** A constraint at the end is the last constraint and leaves the last phenomenon where it was. */
  lemma LastAfterConstraint(getLabel: Labeller, comps: seq<Component>)
    requires |comps| > 0 && IsConstraint(getLabel, comps[|comps| - 1])
    ensures LastConstraint(getLabel, comps) == Some(|comps| - 1)
    ensures LastPhenom(getLabel, comps) == LastPhenom(getLabel, comps[..|comps| - 1])
    ensures var i := LastPhenom(getLabel, comps); i.Some? ==> i.value < |comps| - 1 && comps[i.value] == comps[..|comps| - 1][i.value]
  {
  }

  /** A phenomenon at the end is the last phenomenon and leaves the last constraint where it was. */
  lemma LastAfterPhenom(getLabel: Labeller, comps: seq<Component>)
    requires |comps| > 0 && !IsConstraint(getLabel, comps[|comps| - 1])
    ensures LastPhenom(getLabel, comps) == Some(|comps| - 1)
    ensures LastConstraint(getLabel, comps) == LastConstraint(getLabel, comps[..|comps| - 1])
    ensures var i := LastConstraint(getLabel, comps); i.Some? ==> i.value < |comps| - 1 && comps[i.value] == comps[..|comps| - 1][i.value]
  {
  }

  /** `CFConstrainedPhenomDefConcept.notation()`: the pair `(phenom, constraint)`. */
  function ConstrainedNotation(getLabel: Labeller, c: Concept): (r: (Option<Phenom>, Option<Constraint>))
    requires c.kind == CFConstrainedPhenomDef
    ensures r.0.Some? || r.1.Some?
    ensures r.0.None? <==> forall comp :: comp in ComponentsOf(c.definition) ==> IsConstraint(getLabel, comp)
    ensures r.1.None? <==> forall comp :: comp in ComponentsOf(c.definition) ==> !IsConstraint(getLabel, comp)
    ensures r.1.Some? ==> r.1.value.standardName != "" && r.1.value.units != "" && r.1.value.points != ""
  {
    var comps := ComponentsOf(c.definition);
    assert |comps| == 2;
    var r := ConstrainedFold(getLabel, comps);
    assert r.0.Some? || r.1.Some? by {
      if !IsConstraint(getLabel, comps[0]) {
        assert LastPhenom(getLabel, comps).Some?;
      } else {
        assert LastConstraint(getLabel, comps).Some?;
      }
    }
    r
  }

  // ---------------------------------------------------------------------------
  // GRIB parameter codes
  // ---------------------------------------------------------------------------

  /** `(ed, t2version, centre, iparam)` of a GRIB1 local parameter; a value may be absent. */
  datatype G1LParam = G1LParam(edition: Option<string>, t2version: Option<string>, centre: Option<string>, iparam: Option<string>)

  /** `(ed, disc, param, cat)` of a GRIB2 parameter, in the order the notation returns them. */
  datatype G2Param = G2Param(edition: Option<string>, discipline: Option<string>, number: Option<string>, category: Option<string>)

  /** The raw value the last property named `key` carries: the one the notation loop's last assignment leaves. */
  function KeyValue(ps: seq<Property>, key: string): (r: Option<string>)
    requires key in Names(ps)
    ensures exists i :: && 0 <= i < |ps| && NameOf(ps[i]) == key && r == ps[i].value
                        && forall j :: i < j < |ps| ==> NameOf(ps[j]) != key
  {
    assert exists n :: 0 <= n < |ps| && NameOf(ps[n]) == key;
    var i := LastIndex(ps, q => NameOf(q) == key);
    ps[i.value].value
  }

  /** `Grib1LocalParamConcept.notation()` */
  function Grib1Notation(c: Concept): (r: G1LParam)
    requires c.kind == Grib1LocalParam
    ensures var ps := PropertiesOf(c.definition);
      && r.edition == KeyValue(ps, GRIB_EDITION)
      && r.t2version == KeyValue(ps, GRIB_TABLE2_VERSION)
      && r.centre == KeyValue(ps, GRIB_CENTRE)
      && r.iparam == KeyValue(ps, GRIB_INDICATOR)
  {
    var ps := PropertiesOf(c.definition);
    G1LParam(KeyValue(ps, GRIB_EDITION), KeyValue(ps, GRIB_TABLE2_VERSION), KeyValue(ps, GRIB_CENTRE), KeyValue(ps, GRIB_INDICATOR))
  }

  /** `Grib2ParamConcept.notation()` */
  function Grib2Notation(c: Concept): (r: G2Param)
    requires c.kind == Grib2Param
    ensures var ps := PropertiesOf(c.definition);
      && r.edition == KeyValue(ps, GRIB_EDITION)
      && r.discipline == KeyValue(ps, GRIB_DISCIPLINE)
      && r.number == KeyValue(ps, GRIB_NUMBER)
      && r.category == KeyValue(ps, GRIB_CATEGORY)
  {
    var ps := PropertiesOf(c.definition);
    G2Param(KeyValue(ps, GRIB_EDITION), KeyValue(ps, GRIB_DISCIPLINE), KeyValue(ps, GRIB_NUMBER), KeyValue(ps, GRIB_CATEGORY))
  }

  // ---------------------------------------------------------------------------
  // General CF concepts
  // ---------------------------------------------------------------------------

  /** The direction a general CF or GRIB notation is asked for; any other string is `Unrecognised`. */
  datatype Direction = Test | Assign | Unrecognised

  /** A property whose nested component is truthy: a component record that is not the empty dictionary. */
  predicate HasSubComponent(p: Property) {
    p.component.Some? && (p.component.value.properties.Listed? || p.component.value.otherKeys)
  }

  /** What `for prop in None` raises: a truthy nested component without `mr:hasProperty`. */
  const NONE_ITERATION := TypeError("'NoneType' object is not iterable")

  /**
    `_cfprop` goes through: every property has a name, and every truthy
    nested component carries a property list that goes through in turn.
  */
  predicate Renders(ps: seq<Property>)
    decreases ps
  {
    forall i :: 0 <= i < |ps| ==>
      && ps[i].name.Some?
      && (!EndsWith(ps[i].name.value, "/type>") && HasSubComponent(ps[i]) ==>
            var sub := ps[i].component;
            assert sub < ps[i] && sub.value < sub && sub.value.properties < sub.value;
            && sub.value.properties.Listed?
            && Renders(sub.value.properties.items))
  }

  /** `Renders` of a non-empty list: its head and nested component, then its tail. */
  lemma RendersCons(ps: seq<Property>)
    requires |ps| > 0
    ensures Renders(ps) <==>
      && ps[0].name.Some?
      && (!EndsWith(ps[0].name.value, "/type>") && HasSubComponent(ps[0]) ==>
            ps[0].component.value.properties.Listed? && Renders(ps[0].component.value.properties.items))
      && Renders(ps[1..])
    ensures Renders(ps) ==>
      ((forall i :: 0 <= i < |ps| ==> !EndsWith(ps[i].name.value, "/type>")) <==>
        !EndsWith(ps[0].name.value, "/type>") && forall i :: 0 <= i < |ps[1..]| ==> !EndsWith(ps[1..][i].name.value, "/type>"))
  {
    if ps[0].name.Some? && Renders(ps[1..]) {
      forall i | 1 <= i < |ps| ensures ps[i] == ps[1..][i - 1] { }
    }
  }

  /** A display label with its double quotes stripped from both ends. */
  function Unquoted(s: string): string {
    Strip(s, {'"'})
  }

  /**
    The loop of `_cfprop`, from the front: the pair of the type text (the
    last type property wins, `''` when there is none) and the concatenated
    element texts. A property without a name raises `AttributeError` when
    its name is tested for the `/type>` suffix, and a truthy nested
    component without `mr:hasProperty` raises `TypeError` when the inner
    call loops over `None`.
  */
  function CfPropParts(getLabel: Labeller, ps: seq<Property>, eq: string): (r: Result<(string, string), Exception>)
    decreases ps
    ensures r.Success? <==> Renders(ps)
    ensures r.Failure? ==> r.error.AttributeError? || r.error == NONE_ITERATION
    ensures r.Success? ==> (r.value.0 == "" <==> forall i :: 0 <= i < |ps| ==> !EndsWith(ps[i].name.value, "/type>"))
  {
    if |ps| == 0 then
      Success(("", ""))
    else
      RendersCons(ps);
      var p := ps[0];
      if p.name.None? then
        Failure(AttributeError("'NoneType' object has no attribute 'endswith'"))
      else
        var head: Result<(string, string), Exception> :=
          if EndsWith(p.name.value, "/type>") then
            Success((Unquoted(getLabel(Some(p.value.GetOr("")))) + "(", ""))
          else if HasSubComponent(p) then
            var comp := p.component;
            assert comp < p && comp.value < comp && comp.value.properties < comp.value;
            var (st, se) :- if comp.value.properties.Missing? then Failure(NONE_ITERATION)
              else CfPropParts(getLabel, comp.value.properties.items, eq);
            Success(("", Unquoted(getLabel(p.name)) + " " + eq + " " + st + se + ")" + ","))
          else
            var name := Unquoted(getLabel(p.name));
            var val := getLabel(Some(p.value.GetOr("")));
            if val != "" then Success(("", name + " " + eq + " " + val + ","))
            else Success(("", name + " " + eq + " {" + name + "},"));
        var (t0, e0) :- head;
        var (t, e) :- CfPropParts(getLabel, ps[1..], eq);
        Success((if t != "" then t else t0, e0 + e))
  }

  /** `_cfprop(props, fu_p, eq)`: type text, element texts and a closing parenthesis. */
  function CfProp(getLabel: Labeller, ps: seq<Property>, eq: string): (r: Result<string, Exception>)
    ensures r.Success? <==> Renders(ps)
    ensures r.Failure? ==> r.error.AttributeError? || r.error == NONE_ITERATION
    ensures r.Success? ==> EndsWith(r.value, ")")
  {
    var (t, e) :- CfPropParts(getLabel, ps, eq);
    Success(t + e + ")")
  }

  /**
    A named property whose nested component holds keys but no
    `mr:hasProperty` makes `_cfprop` loop over `None` and raise `TypeError`.
  */
  lemma CfPropBareComponent(getLabel: Labeller, name: string, ps: seq<Property>)
    requires !EndsWith(name, "/type>")
    ensures CfProp(getLabel, [Property(Some(name), None, None, Some(Component(Missing, true)))] + ps, "=")
      == Failure(NONE_ITERATION)
  {
    var qs := [Property(Some(name), None, None, Some(Component(Missing, true)))] + ps;
    assert qs[0] == Property(Some(name), None, None, Some(Component(Missing, true)));
  }

  /** The text each component of a general CF concept opens with. */
  function CFLead(dir: Direction): string
    requires dir != Unrecognised
  {
    if dir == Test then "\n        engine.cube." else "\n        python engine.bucket.append("
  }

  /** The components loop: each component opens with `lead`, then its `_cfprop` when it has properties. */
  function ComponentNotations(getLabel: Labeller, comps: seq<Component>, lead: string): (r: Result<string, Exception>)
    ensures r.Success? <==> forall i :: 0 <= i < |comps| ==> Renders(Items(comps[i].properties))
    ensures r.Failure? ==> r.error.AttributeError? || r.error == NONE_ITERATION
    ensures r.Success? && |comps| > 0 ==> StartsWith(r.value, lead)
  {
    if |comps| == 0 then
      Success("")
    else
      var ps := Items(comps[0].properties);
      var head :- if |ps| > 0 then CfProp(getLabel, ps, "=") else Success("");
      var rest :- ComponentNotations(getLabel, comps[1..], lead);
      Success(lead + head + rest)
  }

  /** `CFConcept.notation(direction)` */
  function CFNotation(getLabel: Labeller, c: Concept, dir: Direction): (r: Result<string, Exception>)
    requires c.kind == CF
    ensures dir == Unrecognised ==> r == Failure(UnboundLocalError("prop_notation"))
    ensures dir != Unrecognised && |PropertiesOf(c.definition)| > 0 && |ComponentsOf(c.definition)| > 0 ==>
      r.Failure? && r.error.ValueError?
    ensures r.Failure? && dir != Unrecognised && (|PropertiesOf(c.definition)| == 0 || |ComponentsOf(c.definition)| == 0) ==>
      r.error.AttributeError? || r.error == NONE_ITERATION
    ensures r.Success? ==> StartsWith(r.value, CFLead(dir)) && EndsWith(r.value, ")")
    ensures r.Success? <==>
      && dir != Unrecognised
      && (|ComponentsOf(c.definition)| == 0 ==> Renders(PropertiesOf(c.definition)))
      && (|ComponentsOf(c.definition)| > 0 ==>
            && |PropertiesOf(c.definition)| == 0
            && forall i :: 0 <= i < |ComponentsOf(c.definition)| ==> Renders(Items(ComponentsOf(c.definition)[i].properties)))
  {
    var ps := PropertiesOf(c.definition);
    var comps := ComponentsOf(c.definition);
    if dir == Unrecognised then
      Failure(UnboundLocalError("prop_notation"))
    else if |comps| == 0 then
      var p :- CfProp(getLabel, ps, "=");
      Success(CFLead(dir) + p + (if dir == Assign then ")" else ""))
    else if |ps| == 0 then
      var body :- ComponentNotations(getLabel, comps, CFLead(dir));
      Success(body + ")")
    else
      Failure(ValueError("components and properties cannot coexist on"))
  }

  // ---------------------------------------------------------------------------
  // General GRIB concepts
  // ---------------------------------------------------------------------------

  /** The text one property contributes to a general GRIB notation; a property whose label strips to nothing contributes nothing. */
  function GribLine(getLabel: Labeller, p: Property, dir: Direction): (r: string)
    ensures r != "" <==> Unquoted(getLabel(p.name)) != "" && dir != Unrecognised
    ensures r != "" ==> r[0] == '\n'
  {
    var name := Unquoted(getLabel(p.name));
    var op := p.operator == Some(OPEQ);
    if name != "" && op && Truthy(p.value) then
      match dir
      case Test => "\n        factbase." + name + "(" + p.value.value + ")"
      case Assign => "\n        python engine.agrib." + name + " = " + p.value.value
      case Unrecognised => ""
    else if name != "" then
      match dir
      case Test => "\n        factbase." + name
      case Assign => "\n        python engine.agrib." + name + " = {" + Show(p.name) + "} "
      case Unrecognised => ""
    else
      ""
  }

  function GribLines(getLabel: Labeller, ps: seq<Property>, dir: Direction): (r: string)
    ensures r == "" <==> forall i :: 0 <= i < |ps| ==> GribLine(getLabel, ps[i], dir) == ""
    ensures r != "" ==> r[0] == '\n'
  {
    if |ps| == 0 then "" else GribLine(getLabel, ps[0], dir) + GribLines(getLabel, ps[1..], dir)
  }

  /** `GribConcept.notation(direction)` */
  function GribNotation(getLabel: Labeller, c: Concept, dir: Direction): (r: Result<string, Exception>)
    requires c.kind == Grib
    ensures r.Failure? <==> dir == Unrecognised
    ensures r.Failure? ==> r.error == UnboundLocalError("r_val")
    ensures r.Success? ==>
      (r.value == "" <==> forall p :: p in PropertiesOf(c.definition) ==> Unquoted(getLabel(p.name)) == "")
    ensures r.Success? && r.value != "" ==> r.value[0] == '\n'
  {
    var ps := PropertiesOf(c.definition);
    var lines := GribLines(getLabel, ps, dir);
    if dir == Unrecognised then Failure(UnboundLocalError("r_val")) else Success(lines)
  }
}
