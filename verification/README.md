# Iris translation generators, modelled in Dafny

This project models the code generators that build Iris's metadata translation
tables. The tables map Met Office UM STASH codes, UM field codes and GRIB
parameters to CF names and back. A translation rule is retrieved from the
metOcean triple store as a pair of concept definitions. From such a pair the
generator:

* classifies each concept. The concept kinds are STASH code, field code, bare CF
  phenomenon, constrained CF phenomenon, general CF concept, GRIB concept,
  GRIB1 local parameter and GRIB2 parameter. The classifier is `make_concept`
  in `tools/translator/concepts.py`.
* classifies the pair into one of nine mapping classes (`make_mapping`), and
  encodes each mapping as one line of a Python dictionary literal. Both are in
  `tools/translator/mappings.py`.
* groups the mappings by class. Within a group, the lines are sorted by their
  integer key when every kept line's key parses as an integer
  (`dict_line_sort`). That path also drops the table's last entry. Otherwise
  the group's text is sorted line by line as plain strings (`str_line_sort`).
  Each group is appended as a dictionary to one of the two output modules
  `um_cf_map.py` and `_grib_cf_map.py`. Each module starts with a licence
  header and a few namedtuple definitions. This is `tools/generate_translations.py`.

It also models the STASH cross-reference module writer in
`tools/gen_stash_refs.py`. This writer turns `(stash, grid, lbfcn)` records into
the `STASH_TRANS` dictionary.

The modules follow the program's structure:

| file | module | models |
|---|---|---|
| `wrappers.dfy` | `Wrappers`, `Exceptions` | `Option`, `Result`, and the Python exceptions the code raises |
| `text.dfy` | `Text` | `str.split`, `join`, `replace`, `strip`, `startswith` |
| `pyint.dfy` | `PyInt` | `int(s)` on decimal text, and `str(n)` |
| `ordering.dfy` | `Ordering` | Python 2 string order, `list.sort()`, and stable `sort(key=...)` |
| `classify.dfy` | `Classify` | the "try every class's `type_match`" loop and its one-match verdict |
| `templates.dfy` | `Templates` | `str.format(**kwargs)`, including the `KeyError` on a missing field |
| `concepts.dfy` | `Concepts`, `ConceptFacts` | the concept classes, their `type_match` tests and `make_concept` |
| `notations.dfy` | `Notations` | the concept classes' `notation()` methods |
| `mappings.dfy` | `Mappings` | the mapping classes, `make_mapping` and `encode()` |
| `linesort.dfy` | `LineSort` | `str_line_sort` and `dict_line_sort` |
| `units.dfy` | `Units` | `bodc_udunit_fix` |
| `grouping.dfy` | `Grouping` | `sort(key=type)` and `groupby`, plus the reverse-sorted key walk |
| `outputs.dfy` | `Outputs` | the header, the namedtuple preambles and `BUILT_FILES` |
| `generate.dfy` | `Generate` | `main()`: make all mappings, write the headers, append every group |
| `stashrefs.dfy` | `StashRefs` | `write_cross_reference_module` as a function from records to module text |

The model has no I/O:

* A triple-store fragment is a `Fragment` value.
* The label lookup `get_label` is a function parameter (`Labeller`).
* An output file is a string in a map from path to contents.

An exception is a `Failure` carrying the Python exception class and its message
or key.

## Model

| member | source | states |
|---|---|---|
| Concepts.MakeConcept | tools/translator/concepts.py:22-43 | `make_concept` raises `KeyError('mr:hasFormat')` when the definition has no format, because every class's `type_match` reads that key first (line 76 and its twins). With a format, it returns `None` exactly when no concept class accepts the definition, and a returned concept is built on that definition. The only exception it can raise is `KeyError`, so the multiple-match `ValueError` is unreachable. |
| Concepts.MakeConceptNone | tools/translator/concepts.py:28-36 | `make_concept` gives `None` exactly when the definition has a format and every class's `type_match` rejects it. |
| Concepts.MakeConceptKind | tools/translator/concepts.py:28-43 | A returned concept is of the only class whose `type_match` accepts the definition. |
| Concepts.MatchingKinds | tools/translator/concepts.py:28-35 | The classes whose `type_match` accepts a definition are exactly those kept, and there is at most one of them. |
| Concepts.Construct | tools/translator/concepts.py:62-66 | A concept constructor succeeds exactly when the definition has a `component` key and, for classes that read it, an `mr:hasProperty` list. Otherwise it raises `KeyError`. |
| Concepts.ConstructEach | tools/translator/concepts.py:36-43 | It builds one concept per accepting class, in order, or raises the first `KeyError`. |
| Concepts.KindsExclusive | tools/translator/concepts.py:72-494 | No definition passes the `type_match` tests of two different concept classes. |
| Concepts.AtMostOneKind | tools/translator/concepts.py:28-40 | The filter over all concept classes keeps at most one, so the `ValueError` branch of `make_concept` never fires. |
| Concepts.EveryKindListed | tools/translator/concepts.py:28-32 | The classifier's list of classes contains every concept class. |
| Concepts.FormatsDistinct | tools/translator/concepts.py:72-494 | The UM, CF and GRIB format URIs are pairwise distinct. |
| Concepts.GribKeySetsDistinct | tools/translator/concepts.py:440-494 | The GRIB1 local and GRIB2 parameter tests demand different sets of property names. |
| ConceptFacts.StashTypeMatchIff | tools/translator/concepts.py:72-101 | A definition is a STASH code exactly when it has the UM format, no components and one property. That property must be named the F3 STASH key, have a value in the STASH concept namespace, and carry a non-empty operator. |
| ConceptFacts.StashOperatorIgnored | tools/translator/concepts.py:92 | The STASH test assigns the operator instead of comparing it, so any two non-empty operators give the same verdict. |
| ConceptFacts.StashFieldcodeExclusive | tools/translator/concepts.py:72-148 | No definition is both a STASH code and a field code. |
| ConceptFacts.CFPhenomDefIff | tools/translator/concepts.py:175-205 | A definition is a bare CF phenomenon exactly when it has the CF format and no components, and its `=`-properties define units and type. Every name they define must be units, type, standard name or long name. The long name alone may stand in for the standard name. |
| ConceptFacts.PhenomFlagIff | tools/translator/concepts.py:249-275 | The constrained test raises its phenomenon flag exactly when some component defines exactly {units, type, standard name}. |
| ConceptFacts.CoordFlagIff | tools/translator/concepts.py:249-275 | The constrained test raises its coordinate flag exactly when some component defines exactly {units, type, standard name, points}. |
| ConceptFacts.CFConstrainedIff | tools/translator/concepts.py:241-277 | A definition is a constrained CF phenomenon exactly when it has the CF format, no properties and two components. One component must be the phenomenon and the other the coordinate, in either order. |
| ConceptFacts.CFExactlyOne | tools/translator/concepts.py:175-362 | Every CF-format definition is exactly one of: a bare phenomenon, a constrained phenomenon, or a general CF concept. |
| ConceptFacts.GribExactlyOne | tools/translator/concepts.py:405-494 | A GRIB-format definition without components is exactly one of the three GRIB classes. One with components is none of them. |
| ConceptFacts.UMAtMostCode | tools/translator/concepts.py:72-148 | A UM-format definition is a STASH code, a field code, or unclassified. |
| ConceptFacts.KindFormat | tools/translator/concepts.py:72-494 | Each concept class accepts only its own format. The GRIB classes refuse definitions with components. |
| ConceptFacts.NoMatchEmpty | tools/translator/concepts.py:28-36 | A definition that no test accepts yields an empty match list, hence `None`. |
| ConceptFacts.GribRefusesComponents | tools/translator/concepts.py:405-494 | No class accepts a GRIB definition that has components. |
| Notations.LastIndex | tools/translator/concepts.py:160-173 | It finds the last position satisfying a test. Every later position fails the test, and `None` means no position passes. |
| Notations.CodeNotation | tools/translator/concepts.py:67-70 | The notation of a STASH or field-code concept is the label of its single property's value. |
| Notations.ResolveStandardName | tools/translator/concepts.py:167-168 | A standard-name label that still begins with `<` counts as no standard name. |
| Notations.Scan | tools/translator/concepts.py:160-173 | Each of the four notation fields comes from the last property whose name has the field's label, because later assignments overwrite earlier ones. |
| Notations.PhenomNotation | tools/translator/concepts.py:160-173 | A bare phenomenon's notation holds the last standard name (never a `<` reference), the raw long name and the units label. |
| Notations.ConstrainedFold | tools/translator/concepts.py:219-239 | The phenomenon is the last component that is not a constraint. The constraint is the last component with points, standard name and units all non-empty. |
| Notations.ConstrainedNotation | tools/translator/concepts.py:219-239 | At least one of phenomenon and constraint is present. The phenomenon is absent exactly when every component is a constraint. The constraint is absent exactly when none is. A constraint's three fields are non-empty. |
| Notations.KeyValue | tools/translator/concepts.py:427-438 | The value read for a key is that of some property with that name. |
| Notations.Grib1Notation | tools/translator/concepts.py:427-438 | The GRIB1 notation is (edition, table version, centre, parameter), each taken from the property of that name. |
| Notations.Grib2Notation | tools/translator/concepts.py:466-477 | The GRIB2 notation is (edition, discipline, parameter, category), in that order, each taken from the property of that name. |
| Notations.CfPropParts | tools/translator/concepts.py:280-306 | `_cfprop` succeeds exactly when every property, nested ones included, has a name and every truthy nested component that is not a type property has an `mr:hasProperty` list. A missing name raises `AttributeError`; a missing list makes the inner call loop over `None` and raise `TypeError`. The type text is empty exactly when no property name ends in `/type>`. |
| Notations.CfPropBareComponent | tools/translator/concepts.py:291-294 | A named property whose nested component holds keys but no `mr:hasProperty` makes `_cfprop` raise `TypeError` for iterating over `None`. |
| Notations.CfProp | tools/translator/concepts.py:280-306 | `_cfprop` succeeds exactly when its properties render as above, and its text then ends with `)`. Its only exceptions are that `AttributeError` and that `TypeError`. |
| Notations.ComponentNotations | tools/translator/concepts.py:323-346 | The components loop succeeds exactly when each component's properties render; for a component without `mr:hasProperty`, the direction's lead is still written and only its `_cfprop` call is skipped. Its only exceptions are `_cfprop`'s `AttributeError` and `TypeError`. Its text starts with the direction's lead. |
| Notations.CFNotation | tools/translator/concepts.py:319-351 | An unrecognised direction raises `UnboundLocalError` on `prop_notation`. Properties together with components raise `ValueError`. Otherwise it succeeds exactly when the properties, or each component's properties, render; it then starts with the direction's lead and ends with `)`, and fails only with `_cfprop`'s `AttributeError` or `TypeError`. |
| Notations.GribLine | tools/translator/concepts.py:377-395 | A property contributes a line exactly when its label, unquoted, is non-empty and the direction is recognised. A contributed line starts with a newline. |
| Notations.GribLines | tools/translator/concepts.py:377-395 | The lines are empty exactly when no property contributes one. |
| Notations.GribNotation | tools/translator/concepts.py:375-403 | A general GRIB notation fails exactly when the direction is unrecognised, with `UnboundLocalError` on `r_val`. Otherwise it is the properties' lines. |
| Mappings.ConceptOf | tools/translator/mappings.py:25-26 | A missing `mr:source` or `mr:target` raises `TypeError`. A present one goes to `make_concept`. |
| Mappings.BuildEach | tools/translator/mappings.py:27-33 | It builds one mapping per accepting class, in order, each on the given source and target. |
| Mappings.Classified | tools/translator/mappings.py:27-40 | The result is `None` exactly when a concept is `None` or no class is keyed by the pair of concept classes. Otherwise it is a mapping of that class on those concepts. |
| Mappings.MakeMapping | tools/translator/mappings.py:20-40 | `make_mapping` raises only `TypeError` (a missing end) or `KeyError` (a concept constructor). When it succeeds, both ends were present, both concepts were made, and the result is their classification. |
| Mappings.Encode | tools/translator/mappings.py:74-355 | Each mapping class encodes to its dictionary line, written out field by field. A constrained mapping whose notation lacks its phenomenon or its constraint raises `TypeError`. |
| Mappings.EncodeCodeCF | tools/translator/mappings.py:74-112 | A STASH or field-code entry is a tab, the code, ` : `, then the `CFname(...)` text and `,\n`. |
| Mappings.EncodeCFFieldcode | tools/translator/mappings.py:137-146 | The CF-to-field-code entry succeeds, with the long name included, even though the first `format` call raises `KeyError`. |
| Mappings.FirstRenderMissesLongName | tools/translator/mappings.py:138-140 | The first `format` call of the CF-to-field-code entry always raises `KeyError('lname')`. |
| Mappings.EncodeGrib1CF | tools/translator/mappings.py:173-181 | A GRIB1-to-CF entry is `G1Lparam(...)`, `: `, then `CFname(...)`. |
| Mappings.EncodeCFGrib1 | tools/translator/mappings.py:244-252 | A CF-to-GRIB1 entry is `CFname(...)`, then `:` with no space, then `G1Lparam(...)`. |
| Mappings.EncodeGrib2CF | tools/translator/mappings.py:315-322 | A GRIB2-to-CF entry writes `G2param` with the category before the number. |
| Mappings.EncodeCFGrib2 | tools/translator/mappings.py:348-355 | A CF-to-GRIB2 entry ends with `,\n ` (a trailing space). |
| Mappings.EncodeGrib1Constrained | tools/translator/mappings.py:206-217 | A GRIB1-to-constrained entry writes `None` for the phenomenon's long name and the points as a one-element tuple. |
| Mappings.EncodeConstrainedGrib1 | tools/translator/mappings.py:277-288 | The constrained-to-GRIB1 entry has no leading tab. |
| Mappings.RenderCFName | tools/translator/mappings.py:77-79 | Formatting the `CFname` template with a name's fields gives standard name, long name and units, in that order. |
| Mappings.RenderG1L | tools/translator/mappings.py:176-179 | Formatting the `G1Lparam` template gives edition, table version, centre and parameter. |
| Mappings.RenderG2 | tools/translator/mappings.py:318-320 | Formatting the `G2param` template gives edition, discipline, category and number. |
| Mappings.RenderConstrained | tools/translator/mappings.py:209-215 | Formatting the constrained template gives the phenomenon, then the coordinate constraint. |
| Mappings.TableInverse | tools/translator/mappings.py:82-363 | Each mapping class is found again under its own (source class, target class) pair. |
| Mappings.MappingForInverse | tools/translator/mappings.py:82-363 | Whatever class the pair lookup finds accepts exactly that pair. |
| Mappings.PairsDistinct | tools/translator/mappings.py:82-363 | No two mapping classes accept the same pair of concept classes. |
| Mappings.MatchingMappings | tools/translator/mappings.py:27-33 | The loop over the mapping classes collects at most one class: none when a concept is missing or the pair lookup has no entry, otherwise the class the lookup names. |
| Mappings.MatchedIsTable | tools/translator/mappings.py:27-33 | A class's `type_match` accepts a pair of concept classes exactly when the pair lookup names that class. |
| Mappings.KeyedIsTable | tools/translator/mappings.py:27-33 | A mapping class is keyed by a pair of concept classes exactly when the pair lookup names it. |
| Mappings.MappingAtMostOne | tools/translator/mappings.py:27-38 | At most one mapping class accepts a pair, so the multiple-match `ValueError` is unreachable. |
| Mappings.EveryMappingListed | tools/translator/mappings.py:27-29 | The classifier's list contains each mapping class. |
| Templates.Render | tools/translator/mappings.py:137-146 | `format` succeeds exactly when every replacement field has an argument. It then gives the pieces rendered in order. Otherwise it raises `KeyError` naming a missing field. |
| Templates.FirstMissing | tools/translator/mappings.py:137-146 | It finds the first field without an argument. Every field before it has one, and `None` means all are covered. |
| Templates.FillExtends | tools/translator/mappings.py:77-79 | Extra keyword arguments do not change a formatted string. |
| Templates.FillAppend | tools/translator/mappings.py:77-79 | Formatting a concatenation of templates concatenates the results. |
| LineSort.StrLineSortLines | tools/generate_translations.py:79-83 | The lines of the result are the input's lines, sorted and each kept as often as before. |
| LineSort.StrLineSortCharacters | tools/generate_translations.py:79-83 | `str_line_sort` keeps every character, newlines included, as often as before. |
| LineSort.StrLineSortIdempotent | tools/generate_translations.py:79-83 | Sorting the lines a second time changes nothing. |
| LineSort.LinesRoundTrip | tools/generate_translations.py:80-82 | Joining newline-free lines with newlines and splitting again gives the lines back. |
| LineSort.Front | tools/generate_translations.py:86 | `split('\n')[0:-2]` keeps every piece but the last two, in order. |
| LineSort.KeyLines | tools/generate_translations.py:88 | Each line is paired with the integer its key text parses to. |
| LineSort.DictLineSortByKey | tools/generate_translations.py:85-92 | When at least one line is kept and every kept line has an integer key, the result's lines are the kept lines, each as often as before, ascending by key. Lines with equal keys keep their input order. When no line is kept, the result is empty (`DictLineSortNothingKept`). |
| LineSort.DictLineSortNothingKept | tools/generate_translations.py:85-89 | When the text has at most one newline, `[0:-2]` keeps no line, no key is parsed, and the result is empty whatever the text. |
| LineSort.DictLineSortOneEntry | tools/generate_translations.py:85-89 | A one-entry table (a newline-free entry, one newline and a newline-free tail) sorts to the empty string, whatever the entry's key, including a non-integer one. |
| LineSort.DictLineSortFallback | tools/generate_translations.py:90-91 | When some kept line's key is not an integer, the whole string goes through `str_line_sort`. |
| LineSort.DictLineSortIgnoresTail | tools/generate_translations.py:86-91 | When every line before the last two pieces has an integer key, the last two pieces do not affect the result. When one does not, the whole string goes through `str_line_sort`. |
| LineSort.DictLineSortDropsLastEntry | tools/generate_translations.py:86 | On a body of newline-terminated entries, the integer path keeps every entry but the last. |
| LineSort.SortedLinesKeys | tools/generate_translations.py:88 | The stably sorted lines ascend by key and keep the order of lines that share one. |
| Units.BodcUdunitFix | tools/generate_translations.py:103-118 | The fixed units never contain `#`. |
| Units.BodcStripsQuotes | tools/generate_translations.py:108 | Surrounding double quotes make no difference to the result, for every unit text, including one that itself starts or ends with a quote. |
| Text.StripLeftSnoc | tools/generate_translations.py:108 | Appending a character to the text appends it to what `lstrip` leaves, unless nothing is left. |
| Text.StripWrapped | tools/generate_translations.py:108 | Wrapping the text in a stripped character on both sides does not change the result of `strip`. |
| Units.BodcDegree | tools/generate_translations.py:111-112 | `degree` is left unchanged: the second replace undoes the first's doubling. |
| Units.BodcDeg | tools/generate_translations.py:111 | `deg` becomes `degree`. |
| Units.BodcCount | tools/generate_translations.py:110 | `#` becomes `1`. |
| Units.BodcDimensionless | tools/generate_translations.py:109 | `Dmnless` becomes `1`. |
| Units.BodcDecibel | tools/generate_translations.py:117 | `'dB'` becomes `'1'`. |
| Units.BodcReciprocal | tools/generate_translations.py:113-115 | A canonical unit written `/s` gains the numerator `1`. |
| Units.CanonicalReciprocal | tools/generate_translations.py:113-115 | A canonical unit starting with `/` gains the numerator `1`. The new denominator is the text after the last `'canonical_units': '/` in the rest, so it is a suffix of the rest that holds no further such marker, and it is the whole rest when there is no further marker. |
| Units.ReplaceAbsent | tools/generate_translations.py:109-117 | A replace whose target does not occur changes nothing. |
| Ordering.SortStrings | tools/generate_translations.py:81 | `list.sort()` returns the same strings, each as often, in ascending order. |
| Ordering.SortedUnique | tools/generate_translations.py:81 | There is only one sorted arrangement of a list of strings. |
| Ordering.SortStringsIdempotent | tools/generate_translations.py:81 | Sorting sorted strings changes nothing. |
| Ordering.SortByKey | tools/generate_translations.py:88 | `sort(key=...)` is a stable rearrangement, ascending by key. |
| Ordering.InsertByKeyStable | tools/generate_translations.py:88 | Inserting by key keeps the order of elements that share the key. |
| Ordering.BelowTotal | tools/generate_translations.py:81 | Python 2 string order compares any two strings. |
| Ordering.BelowAntisymmetric | tools/generate_translations.py:81 | Two strings that are each at most the other are equal. |
| Ordering.BelowTransitive | tools/generate_translations.py:81 | String order is transitive. |
| PyInt.ParseIntToString | tools/generate_translations.py:88 | `int(str(n)) == n` for every integer. |
| PyInt.NatToString | tools/generate_translations.py:88 | `str(n)` of a natural number is a non-empty digit string whose value is `n`. |
| Text.Split | tools/generate_translations.py:80 | `split` gives at least one piece. |
| Text.SplitPiecesFree | tools/generate_translations.py:80 | No piece of a split contains the separator. |
| Text.AfterLastIsLastPiece | tools/generate_translations.py:114 | `split(sep)[-1]` is a suffix of the string without the separator. It follows the last occurrence of the separator, and it is the whole string when the separator does not occur. |
| Text.JoinSplit | tools/generate_translations.py:80-82 | Joining the pieces of a split gives the original string. |
| Text.SplitJoin | tools/generate_translations.py:80-82 | With a single-character separator, splitting a join of separator-free pieces gives the pieces. |
| Text.Strip | tools/generate_translations.py:108 | `strip(chars)` gives a slice of the input whose both ends are outside `chars`, and everything cut off at either end is in `chars`. |
| Text.IndexOf | tools/translator/concepts.py:167-168 | It finds the first occurrence of a substring, and `None` means it does not occur. |
| Classify.Filter | tools/translator/concepts.py:28-35 | The kept classes are exactly the listed ones that pass the test. |
| Classify.FilterAppend | tools/translator/concepts.py:28-35 | Filtering a concatenation concatenates the filtered parts, so the kept classes stay in list order. |
| Classify.FilterCount | tools/translator/concepts.py:28-35 | Each element that passes is kept as often as it is listed, and one that fails is dropped. |
| Classify.FilterAtMostOne | tools/translator/mappings.py:27-38 | If no two distinct classes both pass, at most one is kept. |
| Grouping.OfKey | tools/generate_translations.py:141-143 | A group holds only elements of its class. |
| Grouping.OfKeyCount | tools/generate_translations.py:141-143 | A group holds every element of its class, each as often as in the input. |
| Grouping.KeysOf | tools/generate_translations.py:141-143 | The group names are distinct and are exactly the class names that occur. |
| Grouping.Groups | tools/generate_translations.py:141-143 | Each occurring class name keys its group, and no other name is a key. |
| Grouping.GroupsNonEmpty | tools/generate_translations.py:141-143 | Every group is non-empty and drawn from the input, so `ports[map_set][0]` exists. |
| Grouping.DescendingOrder | tools/generate_translations.py:168-170 | `pkeys.sort(reverse=True)` visits every group name once, in descending order. |
| Grouping.DescendingOrderCanonical | tools/generate_translations.py:168-170 | The visiting order depends only on the set of names, not on the dictionary's order. |
| Grouping.DistinctPermutation | tools/generate_translations.py:168-170 | Against a duplicate-free list, another list is a rearrangement of it exactly when it is itself duplicate-free and has the same elements. |
| Outputs.InitialFiles | tools/generate_translations.py:159-164 | The written files are exactly the managed ones. Each holds the header followed by its preamble pieces. |
| Outputs.BuiltFilesManaged | tools/generate_translations.py:74-76 | Both output modules are managed files. |
| Outputs.InFilesManaged | tools/translator/mappings.py:65-342 | Every mapping class appends to a managed file. |
| Generate.ClassNamesDistinct | tools/generate_translations.py:143 | Different mapping classes have different `__name__`s, and none is `NoneType`. |
| Generate.Ports | tools/generate_translations.py:141-143 | The port dictionary has a key for each occurring type name, holding that type's mappings. |
| Generate.EncoderForOk | tools/translator/mappings.py:74-355 | Encoding a mapping object fails only with `TypeError` (a constrained notation with a missing part). |
| Generate.EncodeAll | tools/generate_translations.py:184-186 | The group's text is built exactly when every mapping encodes. Otherwise the first failure is raised. |
| Generate.EncodeAllAppend | tools/generate_translations.py:184-186 | Encoding two runs of mappings concatenates their texts. |
| Generate.Chunk | tools/generate_translations.py:184-192 | A group's chunk is its class's container, its line-sorted entries, and the closing `}`. |
| Generate.ChunkOfOneEntry | tools/generate_translations.py:184-192 | A group of one mapping whose entry holds a single newline becomes its container followed directly by the closing `}`: an empty dictionary, whatever the entry's key. |
| Generate.GroupOfOneClass | tools/generate_translations.py:175-183 | A group not named `NoneType` holds mapping objects of a single class. |
| Generate.EmitNames | tools/generate_translations.py:171-194 | The walk over group names only appends to managed files, keeps each file's contents as a prefix, and raises nothing but the encoder's `TypeError`. |
| Generate.EmitGroupWrites | tools/generate_translations.py:175-194 | One group's step raises exactly when its chunk fails to encode, and then writes nothing. Otherwise it adds only its own module and appends its chunk there, and `NoneType` writes nothing. |
| Generate.EmitGroupRaises | tools/generate_translations.py:184-186 | A group's step raises exactly when its chunk fails to encode, with that exception, leaving the modules unchanged. |
| Generate.EmitGroupKeys | tools/generate_translations.py:175-194 | A group's step that goes through adds its class's `in_file` and no other module; `NoneType` adds none. |
| Generate.EmitGroupChunk | tools/generate_translations.py:175-194 | A group's step that goes through appends its chunk to its class's module and nothing to any other. |
| Generate.EmitNamesComplete | tools/generate_translations.py:171-194 | When every group encodes, the walk raises nothing, adds exactly the modules some group writes to, and each module becomes its old text followed by the chunks written there, in walk order. |
| Generate.EmitNamesAborted | tools/generate_translations.py:171-194 | When the `i`-th group is the first that fails, the walk raises its exception and leaves the modules as the first `i` groups wrote them. |
| Generate.EmitNamesAbortedLater | tools/generate_translations.py:171-194 | The same, for a failing group after the first: the walk past the first group is the walk of the remaining groups. |
| Generate.EmitNamesStops | tools/generate_translations.py:184-186 | When the first group fails, the walk raises that group's exception and leaves the modules unchanged. |
| Generate.EmitNamesGoesOn | tools/generate_translations.py:171-194 | When the first group encodes, the walk is that group's step followed by the walk of the remaining groups. |
| Generate.EmitNamesOutcome | tools/generate_translations.py:171-194 | The walk raises nothing exactly when every group encodes, and then gives the full contents; otherwise it stops at the first failing group with that group's exception and the earlier groups' output. |
| Generate.EmitPorts | tools/generate_translations.py:166-194 | One direction's walk, in descending class-name order, raises nothing exactly when every group encodes. Then each module is its old text followed by the chunks of the groups other than `NoneType` that write to it, and only those modules are added. Otherwise it raises the first failing group's exception and keeps the earlier groups' chunks. The unmanaged-file `ValueError` never fires. |
| Generate.MakeMappingOk | tools/translator/mappings.py:20-40 | `make_mapping` yields a mapping object or `None`, or raises `TypeError` or `KeyError`. |
| Generate.MakeAll | tools/generate_translations.py:138 | The list comprehension succeeds exactly when every binding succeeds, element for element. Otherwise it raises the first failure. |
| Generate.MakeLists | tools/generate_translations.py:130-153 | All four mapping lists are made before anything is written: UM imports, UM exports, GRIB imports, GRIB exports. Any error is a `TypeError` or `KeyError`. |
| Generate.Walk | tools/generate_translations.py:166-194 | The four walks only append to managed files and keep each file's existing contents as a prefix. |
| Generate.WalkAborted | tools/generate_translations.py:166-194 | When walk `k` is the first with a failing group, the four walks stop there. The result is walk `k` run on the modules as the earlier walks left them, so it raises that walk's exception and keeps the earlier walks' output and walk `k`'s chunks before its failing group. |
| Generate.WalkAbortedLater | tools/generate_translations.py:166-194 | The same, for a failing walk after the first. |
| Generate.WalkPrefixGoesOn | tools/generate_translations.py:166-194 | When the first `k` walks all go through, running them is the first walk followed by the next `k - 1`. |
| Generate.WalkGoesOn | tools/generate_translations.py:166-194 | When the first walk goes through, the four walks are that walk followed by the rest, and every walk goes through exactly when every later one does. |
| Generate.WalkComplete | tools/generate_translations.py:166-194 | The four walks raise nothing exactly when every group of every walk encodes. Then each module is its old text followed by what each walk appends to it, in order. |
| Generate.GrowsFromStart | tools/generate_translations.py:159-194 | After the walks, the files are the managed ones, each still starting with its header and preambles. |
| Generate.GenerateWalks | tools/generate_translations.py:121-199 | With every mapping made, `main()`'s outcome is the four walks run on the freshly started modules, so `WalkComplete` and `WalkAborted` give its files in both cases. |
| Generate.Generate | tools/generate_translations.py:121-199 | `main()` fails before writing exactly when a mapping cannot be made, with `TypeError` or `KeyError`. Otherwise it writes exactly the managed files, each beginning with the header and its preambles. The walks then raise nothing exactly when every group encodes, and each file is the header, its preambles and the walks' chunks for it. An encoding `TypeError` is returned with the partly written files, which `GenerateWalks` and `WalkAborted` describe. |
| StashRefs.FieldCode | tools/gen_stash_refs.py:58-62 | A field code that `int()` parses is written verbatim. A missing or non-numeric one becomes `0`. |
| StashRefs.FieldCodeIdempotent | tools/gen_stash_refs.py:58-62 | Normalising a field code twice is the same as once. |
| StashRefs.Entry | tools/gen_stash_refs.py:43-64 | A record gives a line exactly when it has a stash and a grid. A missing stash raises `AttributeError`, and a missing grid raises `TypeError`. |
| StashRefs.ParseEntry | tools/gen_stash_refs.py:63-64 | It reads stash, grid and field code back out of an entry line. |
| StashRefs.EntryRoundTrip | tools/gen_stash_refs.py:63-64 | Reading a written line back gives the record's stash, its grid and its normalised field code. |
| StashRefs.Entries | tools/gen_stash_refs.py:43-64 | The loop completes exactly when every record has a stash and a grid. Otherwise it raises one of those two errors. Whatever it has written is empty or ends with an entry line's `),` and newline. |
| StashRefs.EntriesAppend | tools/gen_stash_refs.py:43-64 | Records are written in input order. |
| StashRefs.EntriesStopAtFirstFailure | tools/gen_stash_refs.py:43-64 | At the first record missing a stash or grid, the file keeps every earlier line and that record's exception is raised. |
| StashRefs.WriteCrossReferenceModule | tools/gen_stash_refs.py:37-65 | The module always begins with the docstring, the preamble and `STASH_TRANS = {`. It ends with `}` exactly when no exception was raised. |
| StashRefs.OpenEndsOpen | tools/gen_stash_refs.py:37-64 | A module that stops after the opening line or after an entry line does not end with the closing `}`. |
| StashRefs.WriteComplete | tools/gen_stash_refs.py:37-65 | With complete records, the module is the opening text, one line per record in order, then `}`. |
| StashRefs.WriteAborted | tools/gen_stash_refs.py:37-65 | With an incomplete record at position `i`, the file holds the opening text and the first `i` lines, with no closing brace. |

## Left out

- The metOcean triple store (`FusekiServer`, `retrieve_mappings`, `get_label`, `stash_grid_codes`). Query results are `Fragment` and `Binding` values, the records are `Xref` values, and `get_label` is a `Labeller` parameter.
- `STASH.from_msi` and the grid `int()` check in `gen_stash_refs.py` only print a warning for a malformed non-missing value, so only their exceptions on a missing value are modelled. Printing, `time()` and the timing messages are left out.
- `gen_helpers.prep_module_file` is not part of this model: the module text starts empty.
- File handles are left out. An output module is a string, `open(..., 'w')` sets it and `open(..., 'a')` appends.
- Grouping.DescendingOrder: `sort(key=type)` in Python 2 orders type objects by an implementation detail. Only its grouping effect is modelled, and the walk order comes from `pkeys.sort(reverse=True)`.
- A nested `mr:hasComponent` value is a `Component`: its property list, or none, and one flag saying whether it holds any other key. The other keys themselves are never read; the flag only decides whether the dictionary is truthy in `_cfprop`.
- The `valuemaps` and `amap` attributes of mapping objects are not read by `encode()` and are not modelled.
- PyInt.ParseIntToString: `int()` is modelled for base-10 text only: surrounding whitespace, an optional sign and decimal digits. Python 2 accepts more, for example other whitespace characters. The keys written here are always base-10 text.
- LineSort.DictLineSortFallback: the fallback path needs no proof beyond the definition, so this lemma has an empty body.
- Commented-out code (the alternative `for map_set in ports` loop) is not modelled.
- Where the code and its description differ, the code is followed:
  - `gen_stash_refs.py` only warns about a non-integer grid, but a missing grid reaches `int(None)` and raises an uncaught `TypeError`.
  - `dict_line_sort` drops the last entry whenever every entry but the last has an integer key (`[0:-2]`, see `LineSort.DictLineSortDropsLastEntry`). That includes every one-entry table, whatever its key: such a group is written as an empty dictionary (`LineSort.DictLineSortOneEntry`, `Generate.ChunkOfOneEntry`).
