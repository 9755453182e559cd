/**
  The assembling half of the translation generator's `main`: the mappings
  made from one format's imports or exports are grouped by class, the groups
  are walked in descending class-name order, and each group's encoded
  entries are sorted, wrapped in the class's dictionary literal and appended
  to the class's output module. Output modules are values here: a map from
  path to text.
*/
module Generate {
  import opened Wrappers
  import opened Exceptions
  import opened Text
  import opened Ordering
  import opened LineSort
  import opened Concepts
  import opened Mappings
  import Classify
  import opened Grouping
  import opened Outputs


  // ---------------------------------------------------------------------------
  // Grouping by class
  // ---------------------------------------------------------------------------

  const NONE_TYPE := "NoneType"

  /** `type(m).__name__` of what `make_mapping` returned. */
  function TypeName(o: Option<Mapping>): string {
    if o.None? then NONE_TYPE else ClassName(o.value.kind)
  }

  /** Distinct classes have distinct names, and no class is called `NoneType`. */
  lemma ClassNamesDistinct(a: MappingKind, b: MappingKind)
    ensures ClassName(a) == ClassName(b) <==> a == b
    ensures ClassName(a) != NONE_TYPE
  {
    if a != b {
      NamesDiffer(a, b);
    }
  }

  /** Each class name differs from every other. */
  lemma NamesDiffer(a: MappingKind, b: MappingKind)
    requires a != b
    ensures ClassName(a) != ClassName(b)
  {
  }

  /** The groups of one format and direction, by class name. */
  function Ports(maps: seq<Option<Mapping>>): (r: map<string, seq<Option<Mapping>>>)
    ensures forall n :: n in r <==> Occurs(maps, TypeName, n)
    ensures forall n :: n in r ==> r[n] == OfKey(maps, TypeName, n)
  {
    Groups(maps, TypeName)
  }

  // ---------------------------------------------------------------------------
  // One group
  // ---------------------------------------------------------------------------

  /** What `make_mapping` can return: `None`, or a mapping whose concepts fit its class. */
  predicate Made(o: Option<Mapping>) {
    o.Some? ==> WellKeyed(o.value)
  }

  /**
    `m.encode()` with the label lookup fixed. The walk is written over any
    encoder; `EncoderFor` is the one the generator uses.
  */
  type Encoder = Mapping --> Result<string, Exception>

  function EncoderFor(getLabel: Labeller): Encoder {
    m requires WellKeyed(m) => Encode(getLabel, m)
  }

  /** What the walk relies on: every made mapping can be encoded, and the only exception is a missing constraint's subscript. */
  ghost predicate EncoderOk(encode: Encoder) {
    forall m :: WellKeyed(m) ==> encode.requires(m) && (encode(m).Failure? ==> encode(m).error == NONE_SUBSCRIPT)
  }

  /** `Encode` is such an encoder. */
  lemma EncoderForOk(getLabel: Labeller)
    ensures EncoderOk(EncoderFor(getLabel))
  {
    forall m | WellKeyed(m)
      ensures EncoderFor(getLabel).requires(m)
      ensures EncoderFor(getLabel)(m).Failure? ==> EncoderFor(getLabel)(m).error == NONE_SUBSCRIPT
    {
      EncodeFailure(getLabel, m);
    }
  }

  /** The only exception an encoding raises is the subscript of a missing constraint. */
  lemma EncodeFailure(getLabel: Labeller, m: Mapping)
    requires WellKeyed(m)
    ensures Encode(getLabel, m).Failure? ==> Encode(getLabel, m).error == NONE_SUBSCRIPT
  {
  }

  /** Every member of the group is a mapping the encoder accepts. */
  ghost predicate Encodable(encode: Encoder, group: seq<Option<Mapping>>) {
    forall i :: 0 <= i < |group| ==> group[i].Some? && encode.requires(group[i].value)
  }

  /** `map_str += m.encode()` over a group, stopping at the first exception. */
  function EncodeAll(encode: Encoder, group: seq<Option<Mapping>>): (r: Result<string, Exception>)
    requires Encodable(encode, group)
    ensures r.Success? <==> forall i :: 0 <= i < |group| ==> encode(group[i].value).Success?
    ensures r.Failure? ==>
      exists i :: (0 <= i < |group| && encode(group[i].value) == Failure(r.error) &&
        forall j :: 0 <= j < i ==> encode(group[j].value).Success?)
    decreases |group|
  {
    if |group| == 0 then Success("")
    else
      var entry :- encode(group[0].value);
      var rest :- EncodeAll(encode, group[1..]);
      Success(entry + rest)
  }

  /** Encoding a concatenation concatenates the encodings, entry by entry in order. */
  lemma {:induction false} EncodeAllAppend(encode: Encoder, a: seq<Option<Mapping>>, b: seq<Option<Mapping>>)
    requires Encodable(encode, a) && Encodable(encode, b)
    requires EncodeAll(encode, a).Success? && EncodeAll(encode, b).Success?
    ensures Encodable(encode, a + b)
    ensures EncodeAll(encode, a + b) == Success(EncodeAll(encode, a).value + EncodeAll(encode, b).value)
    decreases |a|
  {
    if |a| == 0 {
      assert a + b == b;
      assert "" + EncodeAll(encode, b).value == EncodeAll(encode, b).value;
    } else {
      assert (a + b)[0] == a[0] && (a + b)[1..] == a[1..] + b;
      EncodeAllAppend(encode, a[1..], b);
      var entry := encode(a[0].value).value;
      assert EncodeAll(encode, a).value == entry + EncodeAll(encode, a[1..]).value;
      assert entry + (EncodeAll(encode, a[1..]).value + EncodeAll(encode, b).value)
        == (entry + EncodeAll(encode, a[1..]).value) + EncodeAll(encode, b).value;
    }
  }

  /** One entry on its own is that mapping's encoding. */
  lemma EncodeAllSingle(encode: Encoder, m: Mapping)
    requires encode.requires(m)
    ensures Encodable(encode, [Some(m)])
    ensures EncodeAll(encode, [Some(m)]) == encode(m)
  {
    assert [Some(m)][1..] == [];
    if encode(m).Success? {
      assert encode(m).value + "" == encode(m).value;
    }
  }

  /** The dictionary literal of one class: lines 184-192 for a non-empty group. */
  function Chunk(encode: Encoder, group: seq<Option<Mapping>>): (r: Result<string, Exception>)
    requires |group| > 0 && Encodable(encode, group)
    ensures r.Success? <==> EncodeAll(encode, group).Success?
    ensures r.Failure? ==> r.error == EncodeAll(encode, group).error
    ensures r.Success? ==>
      r.value == Container(group[0].value.kind) + DictLineSort(EncodeAll(encode, group).value) + "\n\t}\n"
  {
    var k := group[0].value.kind;
    ContainerOpens(k);
    var entries :- EncodeAll(encode, group);
    var sorted := if ToSort(k) then DictLineSort(entries) else entries;
    var wrapped := if Container(k) != "" then Container(k) + sorted else sorted;
    Success(if Closure(k) != "" then wrapped + Closure(k) else wrapped)
  }

  /**
    A group of one mapping whose entry holds a single newline comes out as an
    empty dictionary, whatever the entry's key: `dict_line_sort` keeps no line.
  */
  lemma ChunkOfOneEntry(encode: Encoder, m: Mapping, e: string, t: string)
    requires encode.requires(m) && encode(m) == Success(e + NEWLINE + t)
    requires '\n' !in e && '\n' !in t
    ensures Chunk(encode, [Some(m)]) == Success(Container(m.kind) + "\n\t}\n")
  {
    EncodeAllSingle(encode, m);
    DictLineSortOneEntry(e, t);
    assert [Some(m)][0].value.kind == m.kind;
    assert Container(m.kind) + "" + "\n\t}\n" == Container(m.kind) + "\n\t}\n";
  }

  /** The members of a group all carry its name and all come from the factory. */
  predicate GroupOk(name: string, group: seq<Option<Mapping>>) {
    |group| > 0 && forall i :: 0 <= i < |group| ==> TypeName(group[i]) == name && Made(group[i])
  }

  /** The body of the loop over `pkeys` for one group name. */
  function EmitGroup(encode: Encoder, files: Files, name: string, group: seq<Option<Mapping>>): (r: Result<Files, Exception>)
    requires EncoderOk(encode) && GroupOk(name, group)
    ensures name == NONE_TYPE ==> r == Success(files)
    ensures name != NONE_TYPE ==> Encodable(encode, group)
    ensures name != NONE_TYPE ==>
      var path := InFile(group[0].value.kind);
      && (r.Success? <==> EncodeAll(encode, group).Success?)
      && (r.Failure? ==> r.error == EncodeAll(encode, group).error)
      && (r.Success? ==> r.value.Keys == files.Keys + {path})
      && (r.Success? ==> r.value[path] == Existing(files, path) + Chunk(encode, group).value)
      && (r.Success? ==> forall f :: f in files && f != path ==> r.value[f] == files[f])
  {
    if name == NONE_TYPE then Success(files)
    else
      assert Encodable(encode, group) by {
        GroupOfOneClass(name, group);
      }
      var path := InFile(group[0].value.kind);
      assert Managed(path) by {
        InFilesManaged();
      }
      if !Managed(path) then
        Failure(ValueError(name + " writing to unmanaged file " + path))
      else
        var chunk :- Chunk(encode, group);
        Success(files[path := Existing(files, path) + chunk])
  }

  /** Every member of a named group is a mapping of the same class. */
  lemma GroupOfOneClass(name: string, group: seq<Option<Mapping>>)
    requires |group| > 0 && name != NONE_TYPE
    requires forall i :: 0 <= i < |group| ==> TypeName(group[i]) == name
    ensures group[0].Some?
    ensures forall i :: 0 <= i < |group| ==> group[i].Some? && group[i].value.kind == group[0].value.kind
  {
    ClassNamesDistinct(StashCF, StashCF);
    forall i | 0 <= i < |group|
      ensures group[i].Some? && group[i].value.kind == group[0].value.kind
    {
      if group[i].Some? && group[0].Some? {
        ClassNamesDistinct(group[i].value.kind, group[0].value.kind);
      }
      ClassNamesDistinct(if group[i].Some? then group[i].value.kind else StashCF, StashCF);
    }
  }

  // ---------------------------------------------------------------------------
  // The walk over one format and direction
  // ---------------------------------------------------------------------------

  /**
    The modules as a walk leaves them, and the exception it raised, if any.
    Each group's chunk is appended as soon as it is built, so an exception
    leaves the chunks of the earlier groups in place.
  */
  datatype Run = Run(files: Files, raised: Option<Exception>)

  /** A group's step as a run: the updated modules, or the modules as they were and the exception. */
  function Step(files: Files, r: Result<Files, Exception>): Run {
    match r
    case Success(next) => Run(next, None)
    case Failure(e) => Run(files, Some(e))
  }

  /**
    What the walk does to the modules: it keeps every module and adds only
    managed ones, keeps what each module held as a prefix, and raises only
    the subscript error of an encoding.
  */
  predicate Grows(files: Files, r: Run) {
    && files.Keys <= r.files.Keys
    && (forall f :: f in r.files ==> f in files || Managed(f))
    && (forall f :: f in files ==> StartsWith(r.files[f], files[f]))
    && (r.raised.Some? ==> r.raised.value == NONE_SUBSCRIPT)
  }

  /** Every module is a prefix of itself. */
  lemma GrowsNothing(files: Files, raised: Option<Exception>)
    requires raised.Some? ==> raised.value == NONE_SUBSCRIPT
    ensures Grows(files, Run(files, raised))
  {
    assert forall f :: f in files ==> files[f][..|files[f]|] == files[f];
  }

  /** A group's step only appends to managed modules, and fails only when an encoding does. */
  lemma EmitGroupGrows(encode: Encoder, files: Files, name: string, group: seq<Option<Mapping>>)
    requires EncoderOk(encode) && GroupOk(name, group)
    ensures Grows(files, Step(files, EmitGroup(encode, files, name, group)))
  {
    var r := EmitGroup(encode, files, name, group);
    if name != NONE_TYPE {
      GroupOfOneClass(name, group);
      InFilesManaged();
      var path := InFile(group[0].value.kind);
      if r.Failure? {
        var i :| 0 <= i < |group| && encode(group[i].value) == Failure(EncodeAll(encode, group).error);
        assert WellKeyed(group[i].value);
        GrowsNothing(files, Some(r.error));
      } else {
        forall f | f in files
          ensures StartsWith(r.value[f], files[f])
        {
          if f == path {
            assert r.value[f] == files[f] + Chunk(encode, group).value;
          }
          assert r.value[f][..|files[f]|] == files[f];
        }
      }
    } else {
      GrowsNothing(files, None);
    }
  }

  lemma StartsWithTransitive(a: string, b: string, c: string)
    requires StartsWith(a, b) && StartsWith(b, c)
    ensures StartsWith(a, c)
  {
    assert a[..|c|] == a[..|b|][..|c|];
  }

  /** A walk of two steps grows the modules if each step does. */
  lemma GrowsTransitive(files: Files, next: Files, r: Run)
    requires Grows(files, Run(next, None)) && Grows(next, r)
    ensures Grows(files, r)
  {
    forall f | f in files
      ensures StartsWith(r.files[f], files[f])
    {
      StartsWithTransitive(r.files[f], next[f], files[f]);
    }
  }

  /** The groups are well formed: non-empty, named after their members, and made by the factory. */
  predicate PortsOk(ports: map<string, seq<Option<Mapping>>>) {
    forall n :: n in ports ==> GroupOk(n, ports[n])
  }

  /** Every name in `names` is a group of `ports`. */
  predicate Named(ports: map<string, seq<Option<Mapping>>>, names: seq<string>) {
    forall i :: 0 <= i < |names| ==> names[i] in ports
  }

  /** The loop over `pkeys`, stopping at the first exception. */
  function EmitNames(encode: Encoder, files: Files, ports: map<string, seq<Option<Mapping>>>, names: seq<string>): (r: Run)
    requires EncoderOk(encode) && PortsOk(ports) && Named(ports, names)
    ensures Grows(files, r)
    decreases |names|
  {
    if |names| == 0 then
      GrowsNothing(files, None);
      Run(files, None)
    else
      EmitGroupGrows(encode, files, names[0], ports[names[0]]);
      var step := Step(files, EmitGroup(encode, files, names[0], ports[names[0]]));
      if step.raised.Some? then step
      else
        var r := EmitNames(encode, step.files, ports, names[1..]);
        GrowsTransitive(files, step.files, r);
        r
  }

  // ---------------------------------------------------------------------------
  // What the walk writes
  // ---------------------------------------------------------------------------

  /** The module the group called `name` writes to: its class's `in_file`. */
  function Target(ports: map<string, seq<Option<Mapping>>>, name: string): string
    requires PortsOk(ports) && name in ports && name != NONE_TYPE
  {
    InFile(ports[name][0].value.kind)
  }

  /** The dictionary literal of the group called `name`. */
  function ChunkOf(encode: Encoder, ports: map<string, seq<Option<Mapping>>>, name: string): Result<string, Exception>
    requires EncoderOk(encode) && PortsOk(ports) && name in ports && name != NONE_TYPE
  {
    GroupOfOneClass(name, ports[name]);
    Chunk(encode, ports[name])
  }

  /** The step for the group called `name` goes through: always for `NoneType`, otherwise when its chunk encodes. */
  predicate Encodes(encode: Encoder, ports: map<string, seq<Option<Mapping>>>, name: string)
    requires EncoderOk(encode) && PortsOk(ports) && name in ports
  {
    name == NONE_TYPE || ChunkOf(encode, ports, name).Success?
  }

  /** Every group called in `names` goes through. */
  predicate AllEncode(encode: Encoder, ports: map<string, seq<Option<Mapping>>>, names: seq<string>)
    requires EncoderOk(encode) && PortsOk(ports) && Named(ports, names)
  {
    forall i :: 0 <= i < |names| ==> Encodes(encode, ports, names[i])
  }

  /** What the group called `name` appends to module `f`: its chunk when it writes there, and nothing for `NoneType`. */
  function AppendedBy(encode: Encoder, ports: map<string, seq<Option<Mapping>>>, name: string, f: string): string
    requires EncoderOk(encode) && PortsOk(ports) && name in ports && Encodes(encode, ports, name)
  {
    if name == NONE_TYPE || Target(ports, name) != f then "" else ChunkOf(encode, ports, name).value
  }

  /** What the groups called in `names` append to module `f`, one after another in that order. */
  function Appended(encode: Encoder, ports: map<string, seq<Option<Mapping>>>, names: seq<string>, f: string): string
    requires EncoderOk(encode) && PortsOk(ports) && Named(ports, names) && AllEncode(encode, ports, names)
    decreases |names|
  {
    if |names| == 0 then ""
    else AppendedBy(encode, ports, names[0], f) + Appended(encode, ports, names[1..], f)
  }

  /** Some group called in `names`, other than `NoneType`, writes to module `f`. */
  predicate WritesTo(ports: map<string, seq<Option<Mapping>>>, names: seq<string>, f: string)
    requires PortsOk(ports) && Named(ports, names)
  {
    exists i :: 0 <= i < |names| && names[i] != NONE_TYPE && Target(ports, names[i]) == f
  }

  /** One group's step: the module it writes to gains its chunk, and nothing else changes. */
  lemma EmitGroupWrites(encode: Encoder, files: Files, ports: map<string, seq<Option<Mapping>>>, name: string)
    requires EncoderOk(encode) && PortsOk(ports) && name in ports
    ensures var step := Step(files, EmitGroup(encode, files, name, ports[name]));
      && (step.raised.None? <==> Encodes(encode, ports, name))
      && (step.raised.Some? ==> step.files == files && step.raised == Some(ChunkOf(encode, ports, name).error))
      && (step.raised.None? ==> forall f :: f in step.files <==> f in files || (name != NONE_TYPE && Target(ports, name) == f))
      && (step.raised.None? ==> forall f :: Existing(step.files, f) == Existing(files, f) + AppendedBy(encode, ports, name, f))
  {
    EmitGroupRaises(encode, files, ports, name);
    if Encodes(encode, ports, name) {
      EmitGroupAppends(encode, files, ports, name);
    }
  }

  /** A group's step raises exactly when its chunk does not encode, with the chunk's exception, and then writes nothing. */
  lemma EmitGroupRaises(encode: Encoder, files: Files, ports: map<string, seq<Option<Mapping>>>, name: string)
    requires EncoderOk(encode) && PortsOk(ports) && name in ports
    ensures var step := Step(files, EmitGroup(encode, files, name, ports[name]));
      && (step.raised.None? <==> Encodes(encode, ports, name))
      && (step.raised.Some? ==> step.files == files && step.raised == Some(ChunkOf(encode, ports, name).error))
  {
    if name != NONE_TYPE {
      GroupOfOneClass(name, ports[name]);
    }
  }

  /** A group's step that goes through adds only its own module and appends its chunk there. */
  lemma EmitGroupAppends(encode: Encoder, files: Files, ports: map<string, seq<Option<Mapping>>>, name: string)
    requires EncoderOk(encode) && PortsOk(ports) && name in ports && Encodes(encode, ports, name)
    ensures var r := EmitGroup(encode, files, name, ports[name]);
      && r.Success?
      && (forall f :: f in r.value <==> f in files || (name != NONE_TYPE && Target(ports, name) == f))
      && (forall f :: Existing(r.value, f) == Existing(files, f) + AppendedBy(encode, ports, name, f))
  {
    EmitGroupKeys(encode, files, ports, name);
    EmitGroupChunk(encode, files, ports, name);
  }

  /** The modules after a group's step that goes through: the ones before, and the group's own unless it is `NoneType`. */
  lemma EmitGroupKeys(encode: Encoder, files: Files, ports: map<string, seq<Option<Mapping>>>, name: string)
    requires EncoderOk(encode) && PortsOk(ports) && name in ports && Encodes(encode, ports, name)
    ensures var r := EmitGroup(encode, files, name, ports[name]);
      && r.Success?
      && (forall f :: f in r.value <==> f in files || (name != NONE_TYPE && Target(ports, name) == f))
  {
    if name != NONE_TYPE {
      GroupOfOneClass(name, ports[name]);
    }
  }

  /** What a group's step that goes through appends to each module. */
  lemma EmitGroupChunk(encode: Encoder, files: Files, ports: map<string, seq<Option<Mapping>>>, name: string)
    requires EncoderOk(encode) && PortsOk(ports) && name in ports && Encodes(encode, ports, name)
    ensures var r := EmitGroup(encode, files, name, ports[name]);
      && r.Success?
      && (forall f :: Existing(r.value, f) == Existing(files, f) + AppendedBy(encode, ports, name, f))
  {
    if name == NONE_TYPE {
      KeepAppendsNothing(files);
    } else {
      EmitClassChunk(encode, files, ports, name);
    }
  }

  /** The step of a group other than `NoneType` that goes through appends its chunk to its own module only. */
  lemma EmitClassChunk(encode: Encoder, files: Files, ports: map<string, seq<Option<Mapping>>>, name: string)
    requires EncoderOk(encode) && PortsOk(ports) && name in ports && name != NONE_TYPE && Encodes(encode, ports, name)
    ensures var r := EmitGroup(encode, files, name, ports[name]);
      && r.Success?
      && (forall f :: Existing(r.value, f) == Existing(files, f) + (if f == Target(ports, name) then ChunkOf(encode, ports, name).value else ""))
  {
    GroupOfOneClass(name, ports[name]);
    var r := EmitGroup(encode, files, name, ports[name]);
    UpdateAppends(files, r.value, Target(ports, name), ChunkOf(encode, ports, name).value);
  }

  /**
    When every group goes through, the walk raises nothing, writes exactly
    the modules some group writes to besides the ones it had, and each
    module ends up as its old text followed by the chunks written there in
    the order of `names`.
  */
  lemma {:induction false} EmitNamesComplete(encode: Encoder, files: Files, ports: map<string, seq<Option<Mapping>>>, names: seq<string>)
    requires EncoderOk(encode) && PortsOk(ports) && Named(ports, names) && AllEncode(encode, ports, names)
    ensures EmitNames(encode, files, ports, names).raised.None?
    ensures forall f :: f in EmitNames(encode, files, ports, names).files <==> f in files || WritesTo(ports, names, f)
    ensures forall f :: Existing(EmitNames(encode, files, ports, names).files, f) == Existing(files, f) + Appended(encode, ports, names, f)
    decreases |names|
  {
    if |names| == 0 {
      assert forall f :: Existing(files, f) + "" == Existing(files, f);
    } else {
      var n := names[0];
      EmitGroupWrites(encode, files, ports, n);
      var next := Step(files, EmitGroup(encode, files, n, ports[n])).files;
      var rest := names[1..];
      assert Named(ports, rest) && AllEncode(encode, ports, rest);
      EmitNamesComplete(encode, next, ports, rest);
      var r := EmitNames(encode, files, ports, names);
      assert r == EmitNames(encode, next, ports, rest);
      forall f
        ensures f in r.files <==> f in files || WritesTo(ports, names, f)
      {
        WritesToCons(ports, names, f);
      }
      ComposeAppends(files, next, r.files,
        f => AppendedBy(encode, ports, n, f), f => Appended(encode, ports, rest, f), f => Appended(encode, ports, names, f));
    }
  }

  /** A group writes to `f` when the first one does or one of the rest does. */
  lemma WritesToCons(ports: map<string, seq<Option<Mapping>>>, names: seq<string>, f: string)
    requires PortsOk(ports) && Named(ports, names) && |names| > 0
    ensures Named(ports, names[1..])
    ensures WritesTo(ports, names, f) <==>
      (names[0] != NONE_TYPE && Target(ports, names[0]) == f) || WritesTo(ports, names[1..], f)
  {
    if WritesTo(ports, names[1..], f) {
      var i :| 0 <= i < |names[1..]| && names[1..][i] != NONE_TYPE && Target(ports, names[1..][i]) == f;
      assert names[i + 1] == names[1..][i];
    }
    if WritesTo(ports, names, f) {
      var i :| 0 <= i < |names| && names[i] != NONE_TYPE && Target(ports, names[i]) == f;
      if i > 0 {
        assert names[1..][i - 1] == names[i];
      }
    }
  }

  /**
    When a group fails, the walk raises its exception and leaves the modules
    as the groups before it wrote them.
  */
  lemma {:induction false} EmitNamesAborted(encode: Encoder, files: Files, ports: map<string, seq<Option<Mapping>>>, names: seq<string>, i: nat)
    requires EncoderOk(encode) && PortsOk(ports) && Named(ports, names)
    requires i < |names| && !Encodes(encode, ports, names[i])
    requires forall j :: 0 <= j < i ==> Encodes(encode, ports, names[j])
    ensures Named(ports, names[..i])
    ensures EmitNames(encode, files, ports, names)
      == Run(EmitNames(encode, files, ports, names[..i]).files, Some(ChunkOf(encode, ports, names[i]).error))
    decreases i, 1
  {
    if i == 0 {
      EmitNamesStops(encode, files, ports, names);
      assert names[..0] == [];
    } else {
      EmitNamesAbortedLater(encode, files, ports, names, i);
    }
  }

  /** `EmitNamesAborted` when the failing group is not the first: the first group goes through, and the rest of the walk aborts. */
  lemma {:induction false} EmitNamesAbortedLater(encode: Encoder, files: Files, ports: map<string, seq<Option<Mapping>>>, names: seq<string>, i: nat)
    requires EncoderOk(encode) && PortsOk(ports) && Named(ports, names)
    requires 0 < i < |names| && !Encodes(encode, ports, names[i])
    requires forall j :: 0 <= j < i ==> Encodes(encode, ports, names[j])
    ensures Named(ports, names[..i])
    ensures EmitNames(encode, files, ports, names)
      == Run(EmitNames(encode, files, ports, names[..i]).files, Some(ChunkOf(encode, ports, names[i]).error))
    decreases i, 0
  {
    var rest, front := names[1..], names[..i];
    assert rest[i - 1] == names[i];
    assert front[0] == names[0] && front[1..] == rest[..i - 1];
    var next := EmitNamesGoesOn(encode, files, ports, names);
    EmitNamesAborted(encode, next, ports, rest, i - 1);
    var next' := EmitNamesGoesOn(encode, files, ports, front);
  }

  /** A walk whose first group fails raises that group's exception and writes nothing. */
  lemma EmitNamesStops(encode: Encoder, files: Files, ports: map<string, seq<Option<Mapping>>>, names: seq<string>)
    requires EncoderOk(encode) && PortsOk(ports) && Named(ports, names)
    requires |names| > 0 && !Encodes(encode, ports, names[0])
    ensures EmitNames(encode, files, ports, names) == Run(files, Some(ChunkOf(encode, ports, names[0]).error))
  {
    EmitGroupRaises(encode, files, ports, names[0]);
  }

  /** A walk whose first group goes through is the walk over the other groups from the modules that group leaves. */
  lemma EmitNamesGoesOn(encode: Encoder, files: Files, ports: map<string, seq<Option<Mapping>>>, names: seq<string>) returns (next: Files)
    requires EncoderOk(encode) && PortsOk(ports) && Named(ports, names)
    requires |names| > 0 && Encodes(encode, ports, names[0])
    ensures next == Step(files, EmitGroup(encode, files, names[0], ports[names[0]])).files
    ensures Named(ports, names[1..])
    ensures EmitNames(encode, files, ports, names) == EmitNames(encode, next, ports, names[1..])
  {
    EmitGroupRaises(encode, files, ports, names[0]);
    next := Step(files, EmitGroup(encode, files, names[0], ports[names[0]])).files;
  }

  /** The names of the groups of one format and direction in descending order: `pkeys` after the reverse sort. */
  function PortNames(maps: seq<Option<Mapping>>): (r: seq<string>)
    ensures Descending(r)
    ensures forall n :: n in r <==> n in Ports(maps)
  {
    var r := DescendingOrder(KeysOf(maps, TypeName));
    assert forall n :: n in r <==> n in multiset(KeysOf(maps, TypeName));
    r
  }

  /** The groups of one format and direction are well formed when the factory made every mapping. */
  lemma PortsWellFormed(maps: seq<Option<Mapping>>)
    requires forall i :: 0 <= i < |maps| ==> Made(maps[i])
    ensures PortsOk(Ports(maps)) && Named(Ports(maps), PortNames(maps))
  {
    var ports := Ports(maps);
    GroupsNonEmpty(maps, TypeName);
    forall n, i | n in ports && 0 <= i < |ports[n]|
      ensures Made(ports[n][i])
    {
      var x := ports[n][i];
      assert x in multiset(maps);
    }
  }

  /** Every group of one format and direction goes through. */
  predicate PortsEncode(encode: Encoder, maps: seq<Option<Mapping>>)
    requires EncoderOk(encode) && forall i :: 0 <= i < |maps| ==> Made(maps[i])
  {
    PortsWellFormed(maps);
    AllEncode(encode, Ports(maps), PortNames(maps))
  }

  /** What the groups of one format and direction append to module `f`. */
  function PortsAppended(encode: Encoder, maps: seq<Option<Mapping>>, f: string): string
    requires EncoderOk(encode) && forall i :: 0 <= i < |maps| ==> Made(maps[i])
    requires PortsEncode(encode, maps)
  {
    PortsWellFormed(maps);
    Appended(encode, Ports(maps), PortNames(maps), f)
  }

  /**
    The groups of one format and direction, appended in descending
    class-name order. When every group encodes, each module is its old text
    followed by the chunks of the groups other than `NoneType` that write to
    it; otherwise the walk raises the first failing group's exception and
    the modules keep the chunks of the groups before it.
  */
  function EmitPorts(encode: Encoder, files: Files, maps: seq<Option<Mapping>>): (r: Run)
    requires EncoderOk(encode)
    requires forall i :: 0 <= i < |maps| ==> Made(maps[i])
    ensures PortsOk(Ports(maps)) && Named(Ports(maps), PortNames(maps))
    ensures Grows(files, r)
    ensures r.raised.None? <==> PortsEncode(encode, maps)
    ensures r.raised.None? ==> forall f :: Existing(r.files, f) == Existing(files, f) + PortsAppended(encode, maps, f)
    ensures r.raised.None? ==> forall f :: f in r.files <==> f in files || WritesTo(Ports(maps), PortNames(maps), f)
    ensures r.raised.Some? ==> exists i :: AbortsAt(encode, files, Ports(maps), PortNames(maps), i, r)
  {
    PortsWellFormed(maps);
    EmitNamesOutcome(encode, files, Ports(maps), PortNames(maps));
    EmitNames(encode, files, Ports(maps), PortNames(maps))
  }

  /**
    The walk over `names` stopped at the `i`-th group: the groups before it
    all go through, it does not, its exception is raised, and the modules
    hold what the groups before it wrote.
  */
  ghost predicate AbortsAt(encode: Encoder, files: Files, ports: map<string, seq<Option<Mapping>>>, names: seq<string>, i: int, r: Run)
    requires EncoderOk(encode) && PortsOk(ports) && Named(ports, names)
  {
    && 0 <= i < |names|
    && (forall j :: 0 <= j < i ==> Encodes(encode, ports, names[j]))
    && !Encodes(encode, ports, names[i])
    && r.raised == Some(ChunkOf(encode, ports, names[i]).error)
    && (assert Named(ports, names[..i]) && AllEncode(encode, ports, names[..i]);
        forall f :: Existing(r.files, f) == Existing(files, f) + Appended(encode, ports, names[..i], f))
  }

  /** The walk over `names` either goes through every group, or stops at the first that fails. */
  lemma EmitNamesOutcome(encode: Encoder, files: Files, ports: map<string, seq<Option<Mapping>>>, names: seq<string>)
    requires EncoderOk(encode) && PortsOk(ports) && Named(ports, names)
    ensures var r := EmitNames(encode, files, ports, names);
      && (r.raised.None? <==> AllEncode(encode, ports, names))
      && (r.raised.None? ==> forall f :: Existing(r.files, f) == Existing(files, f) + Appended(encode, ports, names, f))
      && (r.raised.None? ==> forall f :: f in r.files <==> f in files || WritesTo(ports, names, f))
      && (r.raised.Some? ==> exists i :: AbortsAt(encode, files, ports, names, i, r))
  {
    var r := EmitNames(encode, files, ports, names);
    if AllEncode(encode, ports, names) {
      EmitNamesComplete(encode, files, ports, names);
    } else {
      var i := FirstFailure(encode, ports, names);
      EmitNamesAborted(encode, files, ports, names, i);
      var before := EmitNames(encode, files, ports, names[..i]);
      EmitNamesComplete(encode, files, ports, names[..i]);
      assert AbortsAt(encode, files, ports, names, i, r);
    }
  }

  /** The first group that does not go through. */
  lemma FirstFailure(encode: Encoder, ports: map<string, seq<Option<Mapping>>>, names: seq<string>) returns (i: nat)
    requires EncoderOk(encode) && PortsOk(ports) && Named(ports, names) && !AllEncode(encode, ports, names)
    ensures i < |names| && !Encodes(encode, ports, names[i])
    ensures forall j :: 0 <= j < i ==> Encodes(encode, ports, names[j])
  {
    var flags := seq(|names|, j requires 0 <= j < |names| => Encodes(encode, ports, names[j]));
    var j :| 0 <= j < |names| && !Encodes(encode, ports, names[j]);
    assert !flags[j];
    i := Classify.FirstFalse(flags);
    assert !flags[i];
    forall k | 0 <= k < i
      ensures Encodes(encode, ports, names[k])
    {
      assert flags[k];
    }
  }

  // ---------------------------------------------------------------------------
  // The whole run
  // ---------------------------------------------------------------------------

  /** `make_mapping` with the triple store fixed. */
  type Maker = Binding -> Result<Option<Mapping>, Exception>

  /** What the run relies on: the factory returns `None` or a well-keyed mapping, or raises `TypeError` or `KeyError`. */
  ghost predicate MakerOk(make: Maker) {
    forall b :: (make(b).Success? ==> Made(make(b).value)) && (make(b).Failure? ==> make(b).error.TypeError? || make(b).error.KeyError?)
  }

  /** `make_mapping` is such a factory. */
  lemma MakeMappingOk()
    ensures MakerOk(MakeMapping)
  {
    forall b: Binding
      ensures MakeMapping(b).Success? ==> Made(MakeMapping(b).value)
    {
    }
  }

  /** `[make_mapping(amap, fu_p) for amap in bindings]`, stopping at the first exception. */
  function MakeAll(make: Maker, bindings: seq<Binding>): (r: Result<seq<Option<Mapping>>, Exception>)
    ensures r.Success? <==> forall i :: 0 <= i < |bindings| ==> make(bindings[i]).Success?
    ensures r.Success? ==> |r.value| == |bindings| && forall i :: 0 <= i < |bindings| ==> r.value[i] == make(bindings[i]).value
    ensures r.Failure? ==>
      exists i :: (0 <= i < |bindings| && make(bindings[i]) == Failure(r.error) &&
        forall j :: 0 <= j < i ==> make(bindings[j]).Success?)
    decreases |bindings|
  {
    if |bindings| == 0 then Success([])
    else
      var first :- make(bindings[0]);
      var rest :- MakeAll(make, bindings[1..]);
      Success([first] + rest)
  }

  /** The bindings retrieved for one format, into and out of CF. */
  datatype Retrieved = Retrieved(imports: seq<Binding>, exports: seq<Binding>)

  /** Every binding of both formats makes a mapping or `None` without raising. */
  predicate AllMade(make: Maker, um: Retrieved, grib: Retrieved) {
    && MakeAll(make, um.imports).Success? && MakeAll(make, um.exports).Success?
    && MakeAll(make, grib.imports).Success? && MakeAll(make, grib.exports).Success?
  }

  /** All mappings are made before anything is written: um imports, um exports, grib imports, grib exports. */
  function MakeLists(make: Maker, um: Retrieved, grib: Retrieved): (r: Result<seq<seq<Option<Mapping>>>, Exception>)
    requires MakerOk(make)
    ensures r.Success? <==> AllMade(make, um, grib)
    ensures r.Success? ==> r.value == [MakeAll(make, um.imports).value, MakeAll(make, um.exports).value,
                                       MakeAll(make, grib.imports).value, MakeAll(make, grib.exports).value]
    ensures r.Success? ==> forall k, i :: 0 <= k < |r.value| && 0 <= i < |r.value[k]| ==> Made(r.value[k][i])
    ensures r.Failure? ==> r.error.TypeError? || r.error.KeyError?
  {
    var umImports :- MadeAll(make, um.imports);
    var umExports :- MadeAll(make, um.exports);
    var gribImports :- MadeAll(make, grib.imports);
    var gribExports :- MadeAll(make, grib.exports);
    Success([umImports, umExports, gribImports, gribExports])
  }

  /** `MakeAll` with what the factory's contract says about its results and errors. */
  function MadeAll(make: Maker, bindings: seq<Binding>): (r: Result<seq<Option<Mapping>>, Exception>)
    requires MakerOk(make)
    ensures r == MakeAll(make, bindings)
    ensures r.Success? ==> forall i :: 0 <= i < |r.value| ==> Made(r.value[i])
    ensures r.Failure? ==> r.error.TypeError? || r.error.KeyError?
  {
    MakeAll(make, bindings)
  }

  /** Every list holds only what the factory returns. */
  predicate ListsMade(lists: seq<seq<Option<Mapping>>>) {
    forall k, i :: 0 <= k < |lists| && 0 <= i < |lists[k]| ==> Made(lists[k][i])
  }

  /** The four walks in order, stopping at the first exception. */
  function Walk(encode: Encoder, files: Files, lists: seq<seq<Option<Mapping>>>): (r: Run)
    requires EncoderOk(encode) && ListsMade(lists)
    ensures Grows(files, r)
    decreases |lists|
  {
    if |lists| == 0 then
      GrowsNothing(files, None);
      Run(files, None)
    else
      var step := EmitPorts(encode, files, lists[0]);
      if step.raised.Some? then step
      else
        var r := Walk(encode, step.files, lists[1..]);
        GrowsTransitive(files, step.files, r);
        r
  }

  /** Every group of every walk goes through. */
  predicate WalkEncodes(encode: Encoder, lists: seq<seq<Option<Mapping>>>)
    requires EncoderOk(encode) && ListsMade(lists)
    decreases |lists|
  {
    |lists| == 0 || (PortsEncode(encode, lists[0]) && WalkEncodes(encode, lists[1..]))
  }

  /** What the walks append to module `f`, one walk after another. */
  function WalkAppended(encode: Encoder, lists: seq<seq<Option<Mapping>>>, f: string): string
    requires EncoderOk(encode) && ListsMade(lists) && WalkEncodes(encode, lists)
    decreases |lists|
  {
    if |lists| == 0 then ""
    else PortsAppended(encode, lists[0], f) + WalkAppended(encode, lists[1..], f)
  }

  /**
    The walks raise nothing exactly when every group of every walk goes
    through, and then each module is its old text followed by what the walks
    append to it.
  */
  lemma {:induction false} WalkComplete(encode: Encoder, files: Files, lists: seq<seq<Option<Mapping>>>)
    requires EncoderOk(encode) && ListsMade(lists)
    ensures Walk(encode, files, lists).raised.None? <==> WalkEncodes(encode, lists)
    ensures WalkEncodes(encode, lists) ==>
      forall f :: Existing(Walk(encode, files, lists).files, f) == Existing(files, f) + WalkAppended(encode, lists, f)
    decreases |lists|
  {
    if |lists| == 0 {
      assert forall f :: Existing(files, f) + "" == Existing(files, f);
    } else {
      var step := EmitPorts(encode, files, lists[0]);
      var rest := lists[1..];
      assert ListsMade(rest);
      if step.raised.None? {
        WalkComplete(encode, step.files, rest);
        if WalkEncodes(encode, lists) {
          ComposeAppends(files, step.files, Walk(encode, files, lists).files,
            f => PortsAppended(encode, lists[0], f), f => WalkAppended(encode, rest, f), f => WalkAppended(encode, lists, f));
        }
      }
    }
  }

  /**
    When walk `k` is the first in which some group fails, the walks stop
    there: the result is walk `k` run on the modules the earlier walks left,
    so it raises that walk's exception and the modules hold the earlier
    walks' chunks followed by what walk `k` wrote before its failing group.
  */
  lemma {:induction false} WalkAborted(encode: Encoder, files: Files, lists: seq<seq<Option<Mapping>>>, k: nat)
    requires EncoderOk(encode) && ListsMade(lists) && k < |lists|
    requires ListsMade(lists[..k]) && WalkEncodes(encode, lists[..k]) && !PortsEncode(encode, lists[k])
    ensures Walk(encode, files, lists) == EmitPorts(encode, Walk(encode, files, lists[..k]).files, lists[k])
    ensures Walk(encode, files, lists).raised.Some?
    decreases k, 1
  {
    if k == 0 {
      assert lists[..0] == [];
    } else {
      WalkAbortedLater(encode, files, lists, k);
    }
  }

  /** `WalkAborted` when the failing walk is not the first: the first walk goes through, and the later walks abort. */
  lemma {:induction false} WalkAbortedLater(encode: Encoder, files: Files, lists: seq<seq<Option<Mapping>>>, k: nat)
    requires EncoderOk(encode) && ListsMade(lists) && 0 < k < |lists|
    requires ListsMade(lists[..k]) && WalkEncodes(encode, lists[..k]) && !PortsEncode(encode, lists[k])
    ensures Walk(encode, files, lists) == EmitPorts(encode, Walk(encode, files, lists[..k]).files, lists[k])
    ensures Walk(encode, files, lists).raised.Some?
    decreases k, 0
  {
    var next := WalkPrefixGoesOn(encode, files, lists, k);
    var next' := WalkGoesOn(encode, files, lists);
    WalkAborted(encode, next, lists[1..], k - 1);
  }

  /** The first `k` walks, all going through, are the first walk followed by the next `k - 1` walks. */
  lemma WalkPrefixGoesOn(encode: Encoder, files: Files, lists: seq<seq<Option<Mapping>>>, k: nat) returns (next: Files)
    requires EncoderOk(encode) && ListsMade(lists) && 0 < k < |lists|
    requires ListsMade(lists[..k]) && WalkEncodes(encode, lists[..k])
    ensures next == EmitPorts(encode, files, lists[0]).files
    ensures PortsEncode(encode, lists[0]) && ListsMade(lists[1..]) && ListsMade(lists[1..][..k - 1])
    ensures WalkEncodes(encode, lists[1..][..k - 1]) && lists[1..][k - 1] == lists[k]
    ensures Walk(encode, files, lists[..k]) == Walk(encode, next, lists[1..][..k - 1])
  {
    Classify.FrontOfTail(lists, k);
    next := WalkGoesOn(encode, files, lists[..k]);
    assert ListsMade(lists[1..]);
  }

  /** Walks whose first walk goes through are the later walks run on the modules the first one leaves. */
  lemma WalkGoesOn(encode: Encoder, files: Files, lists: seq<seq<Option<Mapping>>>) returns (next: Files)
    requires EncoderOk(encode) && ListsMade(lists)
    requires |lists| > 0 && PortsEncode(encode, lists[0])
    ensures next == EmitPorts(encode, files, lists[0]).files
    ensures ListsMade(lists[1..])
    ensures Walk(encode, files, lists) == Walk(encode, next, lists[1..])
    ensures WalkEncodes(encode, lists) <==> WalkEncodes(encode, lists[1..])
  {
    next := EmitPorts(encode, files, lists[0]).files;
    assert ListsMade(lists[1..]) by {
      forall k, i | 0 <= k < |lists| - 1 && 0 <= i < |lists[1..][k]| ensures Made(lists[1..][k][i]) {
        assert lists[1..][k] == lists[k + 1];
      }
    }
  }

  /** Growing the initial modules keeps exactly the managed modules, each still opening with its header. */
  lemma GrowsFromStart(r: Run)
    requires Grows(InitialFiles(), r)
    ensures r.files.Keys == BUILT_FILES.Keys
    ensures forall f :: f in BUILT_FILES ==> StartsWith(r.files[f], HEADER + Join(BUILT_FILES[f], ""))
  {
    BuiltFilesManaged();
  }

  /** The four mapping lists `main` makes: UM imports, UM exports, GRIB imports, GRIB exports. */
  function MadeLists(um: Retrieved, grib: Retrieved): (r: seq<seq<Option<Mapping>>>)
    requires AllMade(MakeMapping, um, grib)
    ensures ListsMade(r) && |r| == 4
  {
    MakeMappingOk();
    MakeLists(MakeMapping, um, grib).value
  }

  /** Every group of the four walks encodes with the label lookup `getLabel`. */
  predicate Encoded(getLabel: Labeller, um: Retrieved, grib: Retrieved)
    requires AllMade(MakeMapping, um, grib)
  {
    EncoderForOk(getLabel);
    WalkEncodes(EncoderFor(getLabel), MadeLists(um, grib))
  }

  /** What the four walks append to module `f`. */
  function WalkText(getLabel: Labeller, um: Retrieved, grib: Retrieved, f: string): string
    requires AllMade(MakeMapping, um, grib) && Encoded(getLabel, um, grib)
  {
    EncoderForOk(getLabel);
    WalkAppended(EncoderFor(getLabel), MadeLists(um, grib), f)
  }

  /** The four walks `main` runs on the started modules with the label lookup `getLabel`. */
  function Walked(getLabel: Labeller, um: Retrieved, grib: Retrieved): Run
    requires AllMade(MakeMapping, um, grib)
  {
    EncoderForOk(getLabel);
    Walk(EncoderFor(getLabel), InitialFiles(), MadeLists(um, grib))
  }

  /**
    When every mapping is made, `main`'s outcome is the four walks on the
    started modules, so `WalkComplete` and `WalkAborted` say what it
    writes: all the chunks, or the chunks up to the first failing group.
  */
  lemma GenerateWalks(getLabel: Labeller, um: Retrieved, grib: Retrieved)
    requires AllMade(MakeMapping, um, grib)
    ensures Generate(getLabel, um, grib) == Success(Walked(getLabel, um, grib))
  {
  }

  /**
    `main` without the triple store: every mapping is made first (UM
    imports, UM exports, GRIB imports, GRIB exports), and an exception there
    aborts before anything is written. Then the managed modules are started
    with their header and definitions, and the four walks append to them in
    the same order. An encoding exception stops the walks and leaves the
    modules as far as they were written.
  */
  function Generate(getLabel: Labeller, um: Retrieved, grib: Retrieved): (r: Result<Run, Exception>)
    ensures r.Success? <==> AllMade(MakeMapping, um, grib)
    ensures r.Failure? ==> r.error.TypeError? || r.error.KeyError?
    ensures r.Success? ==> r.value.files.Keys == BUILT_FILES.Keys
    ensures r.Success? ==> forall f :: f in BUILT_FILES ==> StartsWith(r.value.files[f], HEADER + Join(BUILT_FILES[f], ""))
    ensures r.Success? ==> (r.value.raised.None? <==> Encoded(getLabel, um, grib))
    ensures r.Success? && r.value.raised.Some? ==> r.value.raised.value == NONE_SUBSCRIPT
    ensures r.Success? && r.value.raised.None? ==>
      forall f :: f in BUILT_FILES ==> r.value.files[f] == HEADER + Join(BUILT_FILES[f], "") + WalkText(getLabel, um, grib, f)
  {
    MakeMappingOk();
    EncoderForOk(getLabel);
    var lists :- MakeLists(MakeMapping, um, grib);
    var run := Walk(EncoderFor(getLabel), InitialFiles(), lists);
    GrowsFromStart(run);
    WalkComplete(EncoderFor(getLabel), InitialFiles(), lists);
    Success(run)
  }
}
