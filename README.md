# DRYML core in Dafny

This project models two parts of DRYML, a library that saves and reloads Python objects described by a *definition* (class, positional arguments, keyword arguments with a `dry_id` identity). The model then proves properties of both parts.

- **The selector** (`src/dryml/dry_selector.py`):
  - the structural matcher `match_objects` and its three component checks;
  - the selector call `DrySelector.__call__`;
  - lifting a definition into a selector (`def_to_sel`, `from_def` with its cache, `build`).
- **The archive protocol and object identity** (`src/dryml/dry_object.py`):
  - `file_resolve`;
  - the save and load steps of `DryObjectFile`;
  - the module-level `load_object` with its process-wide repo slot, `save_object` and `change_object_cls`;
  - `DryObject.__init__`/`definition`, and `DryObjectFactory`.

Files and modules:

| file | module | contents |
|---|---|---|
| `config.dfy` | `DryConfig` | The value grammar: scalars, lists, insertion-ordered dicts, definitions, live objects, classes, named callables, nested selectors. Python exceptions as `Result`. Classes with acyclic bases and `issubclass`. Dicts as association lists. The contract taken for `DryObjectDef.equal`, a recursive equality. |
| `objects.dfy` | `DryObjects` | `file_resolve`. The archive as a `map` from entry names to blobs. Reading an archive as functions of its entries. `DryObjectFile` as a class whose save methods write entries. `IdSupply` (uuid4). `DryObject`. The repo slot as the class `ObjectLoader`. Callbacks and `DryObjectFactory`. |
| `selector.dfy` | `DrySelectors` | `Match`, `ClsCompare`, `ArgsCompare`, `KwargsCompare`, `SelectDef`/`Select`/`SelectObject`/`SelectFile` (the selector call). The lifting functions, the `SelectorCache` class with the imperative `FromDef`/`DefToSel`, and `Build`. |
| `selector_properties.dfy` | `SelectorProperties` | What the matcher and the selector promise, proved about `Match` and `SelectDef`. |

How Python concepts are represented:

- **Exceptions.** A raised exception is `Err(e)`, with `e` one of `TypeError`, `ValueError`, `KeyError`, `RuntimeError`, `ImportError` or `UnpicklingError`.
- **Callables.** A callable pattern is a name. A parameter `call: (string, Value) -> bool` says what each callable answers.
- **Classes.** A class is `Class(path, generation, bases)`. Two implementations of one qualified path are told apart by `generation`, as after a module reload.
- **Class resolution.** `get_current_cls` looks classes up in a `Modules` table (importable now / after a reload). A missing path is `ImportError`.
- **Serialization.** `pickle` and `dill` are `Pickle`/`Unpickle`. `Unpickle` inverts `Pickle` and fails on other bytes.
- **Object hooks.** The save and load hooks of a DryObject subclass are modelled by the object's `content`. This is the map of archive entries outside the four names the format reserves.

## Model

| member | source | states |
|---|---|---|
| DryConfig.Lookup | src/dryml/dry_selector.py:133-140 | `value_object[key]` finds a value exactly when `key in value_object` |
| DryConfig.SetKey | src/dryml/dry_object.py:262-265 | `dry_kwargs['dry_id'] = v`: afterwards the key maps to `v`, and the key set gains exactly that key |
| DryConfig.SetKeyOther | src/dryml/dry_object.py:262-265 | setting `dry_id` leaves the value of every other keyword unchanged |
| DryConfig.SetKeyExisting | src/dryml/dry_object.py:264-265 | re-setting a key to the value it already holds leaves the dict unchanged (so a built object keeps its definition's kwargs) |
| DryConfig.LookupDistinct | src/dryml/dry_selector.py:133-140 | in a dict with distinct keys, each entry's key finds that entry's value |
| DryConfig.IsSubclass | src/dryml/dry_selector.py:99-104 | issubclass: the class itself or, through its bases, any ancestor |
| DryConfig.AtomEq | src/dryml/dry_selector.py:165-169 | Python `==` on scalars: True equals 1, False equals 0, other scalars by value |
| DryConfig.Keys | src/dryml/dry_selector.py:132-137 | the keys of a dict, against which `key in value_object` is decided |
| DryConfig.DefEqual | src/dryml/dry_selector.py:118-123 | the assumed `DryObjectDef.equal`: classes matching by the comparison mode, positional arguments equal in order, keyword arguments equal key by key in any order, recursively at every depth |
| SelectorProperties.SubclassTransitive | src/dryml/dry_selector.py:99-104 | issubclass is transitive |
| SelectorProperties.BaseIsSuperclass | src/dryml/dry_selector.py:99-104 | a class is a subclass of each of its direct bases |
| SelectorProperties.SubclassAntisymmetric | src/dryml/dry_selector.py:99-104 | two classes that are subclasses of each other are the same class |
| SelectorProperties.SubclassRank | src/dryml/dry_selector.py:99-104 | a subclass is the base itself or strictly contains it in its ancestry |
| SelectorProperties.TypePattern | src/dryml/dry_selector.py:99-104 | a type pattern gives True iff the candidate is that class or a subclass of it; it raises iff the candidate is not a class |
| SelectorProperties.TypePatternMatchesDescendants | src/dryml/dry_selector.py:99-104 | a class pattern matches itself and every class below it |
| SelectorProperties.SiblingsDoNotMatch | src/dryml/dry_selector.py:99-104 | a class pattern does not match a sibling class that shares its base |
| SelectorProperties.TypePatternIgnoresCallables | src/dryml/dry_selector.py:99-117 | a type pattern is never treated as a generic callable: the callables' verdicts cannot change its result |
| SelectorProperties.SelectorPatternDelegates | src/dryml/dry_selector.py:105-112 | a nested selector pattern is answered by that selector's call, and the result does not depend on the comparison mode |
| SelectorProperties.DefinitionDecides | src/dryml/dry_selector.py:118-123 | unless the pattern is a class, selector or callable, a definition on either side makes the result exactly `equal(...)` of that definition |
| SelectorProperties.DefEqualReflexive | src/dryml/dry_selector.py:118-123 | definition equality is reflexive in both modes, at every depth |
| SelectorProperties.DefEqualSymmetric | src/dryml/dry_selector.py:118-123 | definition equality is symmetric in both modes, at every depth |
| SelectorProperties.SameArgumentsEqual | src/dryml/dry_selector.py:118-123 | the same arguments under two classes that match in the comparison mode give equal definitions |
| SelectorProperties.NestedDictOrderIgnored | src/dryml/dry_selector.py:118-123 | a nested dict argument is compared without regard to key order |
| SelectorProperties.NestedReloadEqualByName | src/dryml/dry_selector.py:118-123 | by name, a nested definition under a reloaded class of the same path is still equal |
| SelectorProperties.DefinitionMatchesItself | src/dryml/dry_selector.py:118-123 | a definition matches itself, and by name it also matches the same definition under a reloaded class of the same path |
| SelectorProperties.EntriesIff | src/dryml/dry_selector.py:132-144 | the key loop gives True iff every pattern key is in the candidate and its value matches |
| SelectorProperties.EntriesSameLookups | src/dryml/dry_selector.py:132-144 | the key loop depends only on the candidate's values under the pattern's keys, errors included |
| SelectorProperties.DictPatternNeedsDict | src/dryml/dry_selector.py:124-131 | a dict pattern against a value that is neither a dict nor a definition gives False |
| SelectorProperties.DictPatternIff | src/dryml/dry_selector.py:124-144 | a dict pattern matches a dict iff every pattern key is present and its value matches recursively |
| SelectorProperties.DictMissingKeyFails | src/dryml/dry_selector.py:133-137 | a pattern key missing from the candidate rules out a match |
| SelectorProperties.DictExtraKeysPreserveMatch | src/dryml/dry_selector.py:124-144 | adding keys to a matching candidate keeps it matching |
| SelectorProperties.DictExtraKeysIgnored | src/dryml/dry_selector.py:124-144 | candidate keys the pattern does not mention never change the result |
| SelectorProperties.DictSubsetExample | src/dryml/dry_selector.py:124-144 | `{a: 1}` matches `{a: 1, b: 2}`; `{a: 1, z: 9}` does not |
| SelectorProperties.ItemsIff | src/dryml/dry_selector.py:157-164 | the positional loop gives True iff every position matches |
| SelectorProperties.SequencePatternNeedsIterable | src/dryml/dry_selector.py:145-149 | a sequence pattern against anything that is not a non-string iterable gives False |
| SelectorProperties.SequenceLengthMismatch | src/dryml/dry_selector.py:150-156 | a length mismatch always gives False |
| SelectorProperties.SequencePatternIff | src/dryml/dry_selector.py:145-164 | with equal lengths, a sequence pattern matches iff every position matches |
| SelectorProperties.SequencePatternAgainstDict | src/dryml/dry_selector.py:145-164 | a non-empty sequence pattern against a dict of the same length raises KeyError (`value_object[0]`) |
| SelectorProperties.SequenceLengthExample | src/dryml/dry_selector.py:150-164 | `[1, 2]` matches neither `[1, 2, 3]` nor `[1]`, and matches `[1, 2]` |
| SelectorProperties.ScalarPattern | src/dryml/dry_selector.py:165-171 | a scalar pattern matches exactly the scalars that are `==` to it (True == 1) |
| SelectorProperties.PlainMatchesItself | src/dryml/dry_selector.py:97-171 | a pattern built only from scalars, lists and dicts matches itself |
| SelectorProperties.PlainLiftsToItself | src/dryml/dry_selector.py:9-24 | `def_to_sel` leaves data made of scalars, lists and dicts unchanged |
| SelectorProperties.PlainItemsLift | src/dryml/dry_selector.py:18-19 | mapping `def_to_sel` over a list of plain data gives the same list |
| SelectorProperties.PlainEntriesLift | src/dryml/dry_selector.py:20-21 | mapping `def_to_sel` over a dict of plain data gives the same dict |
| SelectorProperties.PlainIsLiftable | src/dryml/dry_selector.py:9-24 | plain data never makes `def_to_sel` raise |
| SelectorProperties.LiftedValueMatches | src/dryml/dry_selector.py:9-24 | the pattern `def_to_sel` makes from a value matches that value, nested definitions included |
| SelectorProperties.LiftedItemsMatch | src/dryml/dry_selector.py:18-19 | each lifted list element matches the element it came from |
| SelectorProperties.LiftedEntriesMatch | src/dryml/dry_selector.py:20-21 | each lifted dict value matches the candidate value under its key |
| SelectorProperties.LiftedDefSelects | src/dryml/dry_selector.py:31-59 | the selector `from_def(d)` returns selects `d` |
| SelectorProperties.SelectIsConjunction | src/dryml/dry_selector.py:240-278 | the call gives True iff each component that is not None passes |
| SelectorProperties.WildcardSelectsEverything | src/dryml/dry_selector.py:240-278 | a selector whose components are all None selects every definition and object |
| SelectorProperties.NoneComponentIsWildcard | src/dryml/dry_selector.py:240-266 | a component holding None is skipped exactly like a missing one (`self.cls is not None`) |
| SelectorProperties.SelectNonDefinitions | src/dryml/dry_selector.py:227-238 | a Mapping raises RuntimeError; any other value that is not a definition or object gives False |
| SelectorProperties.ClsCompareKinds | src/dryml/dry_selector.py:173-194 | a type gives a subclass test, a callable its verdict, a string equality with the class path, a selector False; any other matcher raises ValueError |
| SelectorProperties.GreeterExample | src/dryml/dry_selector.py:218-278 | class Greeter with kwargs `{msg: "hi"}` selects a Greeter definition with msg "hi" and extra dry_id, and not one with msg "bye" |
| SelectorProperties.SelectSavedArchive | src/dryml/dry_selector.py:230-231 | selecting an archive saved from a definition with a current class is selecting that definition |
| SelectorProperties.LiftedSelectsSavedArchive | src/dryml/dry_selector.py:31-59 | `from_def(d)` selects the archive saved from `d` |
| SelectorProperties.UnreadableArchiveRaises | src/dryml/dry_selector.py:230-231 | an archive whose definition cannot be read makes the call raise the same error |
| DrySelectors.Match | src/dryml/dry_selector.py:97-171 | match_objects, branches in the source order: type, selector, callable, a definition on either side, dict, non-string iterable, plain `==`; an exception is `Err` |
| DrySelectors.MatchEntries | src/dryml/dry_selector.py:132-144 | the key loop: False at the first key missing from the candidate or whose value does not match, an exception passed on |
| DrySelectors.MatchItems | src/dryml/dry_selector.py:157-164 | the positional loop: False at the first position that does not match |
| DrySelectors.ClsCompare | src/dryml/dry_selector.py:173-194 | cls_compare: subclass test for a type, the verdict of a callable, path equality for a str, ValueError for anything else |
| DrySelectors.ArgsCompare | src/dryml/dry_selector.py:196-205 | args_compare: match_objects on the args with cls_str_compare left at True |
| DrySelectors.KwargsCompare | src/dryml/dry_selector.py:207-216 | kwargs_compare: match_objects on the kwargs with cls_str_compare left at True |
| DrySelectors.Given | src/dryml/dry_selector.py:240-266 | `component is not None` |
| DrySelectors.SelectDef | src/dryml/dry_selector.py:240-278 | class, then args, then kwargs; a None component is skipped; the first check that is not True decides |
| DrySelectors.Select | src/dryml/dry_selector.py:218-238 | a definition or object is matched, a Mapping raises RuntimeError, anything else gives False |
| DrySelectors.SelectObject | src/dryml/dry_selector.py:230-231 | a live DryObject is matched through `definition()` |
| DrySelectors.SelectFile | src/dryml/dry_selector.py:230-231 | a DryObjectFile is matched through `definition()` with update on and reload off |
| DrySelectors.Liftable | src/dryml/dry_selector.py:9-24 | the values def_to_sel accepts: plain data, objects, definitions, and lists and dicts of those |
| DrySelectors.LiftValue | src/dryml/dry_selector.py:9-24 | `def_to_sel` succeeds iff the value is liftable, else raises RuntimeError; scalars stay the same; lists keep their length; dicts keep their keys in order; objects and definitions become nested selectors |
| DrySelectors.LiftItems | src/dryml/dry_selector.py:18-19 | mapping over a list succeeds iff every element lifts, and keeps the length |
| DrySelectors.LiftEntries | src/dryml/dry_selector.py:20-21 | mapping over a dict succeeds iff every value lifts, and keeps the keys in order |
| DrySelectors.LiftDef | src/dryml/dry_selector.py:31-59 | the selector for `d` has d's class as its class pattern, a list pattern of d's arity and a dict pattern with d's keys |
| DrySelectors.LiftItemsAt | src/dryml/dry_selector.py:18-19 | each position of a lifted list is the lifted element |
| DrySelectors.LiftEntriesAt | src/dryml/dry_selector.py:20-21 | each position of a lifted dict keeps its key and holds the lifted value |
| DrySelectors.SelectorCache.FromDef | src/dryml/dry_selector.py:31-59 | from_def answers as `LiftDef`; a cached definition gets the cached selector with the cache unchanged; otherwise the new selector is stored; the cache only grows and every entry stays the lift of its key |
| DrySelectors.SelectorCache.DefToSel | src/dryml/dry_selector.py:9-24 | def_to_sel with a cache answers as `LiftValue` and keeps the cache valid |
| DrySelectors.SelectorCache.LiftAll | src/dryml/dry_selector.py:18-19 | the loop over list elements answers as `LiftItems`, stopping at the first error |
| DrySelectors.SelectorCache.LiftAllEntries | src/dryml/dry_selector.py:20-21 | the loop over dict entries answers as `LiftEntries`, stopping at the first error |
| DrySelectors.SelectorCache.constructor | src/dryml/dry_selector.py:35-37 | a new cache is empty |
| DrySelectors.Build | src/dryml/dry_selector.py:61-89 | objects and definitions are lifted with a fresh cache, a Mapping raises RuntimeError (`from_dict`), anything else raises TypeError |
| DryObjects.FileResolve | src/dryml/dry_object.py:19-22 | the name is kept iff the path is exact or it has an extension; otherwise `.dry` is appended |
| DryObjects.HasExtension | src/dryml/dry_object.py:20 | `os.path.splitext(file)[1] != ""` on POSIX |
| DryObjects.ResolvedNameHasExtension | src/dryml/dry_object.py:19-22 | the name `file_resolve` produces has an extension iff the basename has a character other than a dot |
| DryObjects.ExtensionMeansNonDotBasename | src/dryml/dry_object.py:19-22 | a name with an extension has a non-dot character in its basename |
| DryObjects.FileResolveIdempotentIff | src/dryml/dry_object.py:19-22 | resolving twice equals resolving once iff the basename has a non-dot character (`""`, `"dir/"`, `"."` keep growing) |
| DryObjects.FileResolveKeeps | src/dryml/dry_object.py:19-22 | an exact path or a name with an extension is returned unchanged |
| DryObjects.FileResolveBareName | src/dryml/dry_object.py:19-22 | `model` becomes `model.dry`; with exact_path set, `model` is kept |
| DryObjects.FileResolveForeignExtension | src/dryml/dry_object.py:19-22 | `a.zip` is kept: any extension stops the suffix, not only `.dry` |
| DryObjects.FileResolveLeadingDot | src/dryml/dry_object.py:19-22 | `.bashrc` becomes `.bashrc.dry`: a leading dot is not an extension |
| DryObjects.FileResolveEmptyName | src/dryml/dry_object.py:19-22 | `""` becomes `.dry` |
| DryObjects.FileResolveDotDryGrows | src/dryml/dry_object.py:19-22 | `.dry` becomes `.dry.dry`: its leading dot is not an extension, so the name grows again |
| DryObjects.Unpickle | src/dryml/dry_object.py:67-70 | decoding inverts the encoder and raises UnpicklingError on any other bytes |
| DryObjects.ReadEntry | src/dryml/dry_object.py:68 | opening an entry the archive lacks raises KeyError |
| DryObjects.ReadPickled | src/dryml/dry_object.py:67-70 | reading an entry succeeds iff it is present and pickled, and the value is what was pickled; a missing entry raises KeyError |
| DryObjects.LoadMetaData | src/dryml/dry_object.py:67-70 | the meta data is what `meta_data.pkl` holds; without that entry KeyError |
| DryObjects.FileVersion | src/dryml/dry_object.py:126-128 | the version is the `version` key of the stored meta data dict; the record save_meta_data writes gives 1 |
| DryObjects.IsVersionOne | src/dryml/dry_object.py:128 | `version == 1` holds exactly for 1 and True |
| DryObjects.StoredClass | src/dryml/dry_object.py:94 | the class `cls_def.dill` holds, when it holds a class |
| DryObjects.LoadClassDefV1 | src/dryml/dry_object.py:82-95 | without update the stored class; with update the current class of its path, a resolver failure becoming RuntimeError |
| DryObjects.CurrentCls | src/dryml/dry_object.py:75 | the resolver fails with ImportError iff the path is not importable, and otherwise returns a class of the same path |
| DryObjects.MetaVersion | src/dryml/dry_object.py:128 | `meta_data['version']` succeeds iff the meta data is a dict with a version key |
| DryObjects.StarArgs | src/dryml/dry_object.py:124 | `*args`: a list passes its items, a str its characters, a dict its keys; anything else is not iterable |
| DryObjects.MakeDef | src/dryml/dry_object.py:124 | the definition is assembled iff args can be unpacked with `*` and kwargs is a dict, from exactly those; TypeError otherwise |
| DryObjects.WithClass | src/dryml/dry_object.py:139-140 | `as_cls` replaces the class and keeps args and kwargs |
| DryObjects.LoadDefinitionV1 | src/dryml/dry_object.py:110-124 | the class is read first and its error wins; a definition read holds that class, the unpacked args and the stored kwargs |
| DryObjects.Definition | src/dryml/dry_object.py:126-132 | the version gate: a meta data error passes through, a version other than 1 raises RuntimeError, version 1 reads the definition |
| DryObjects.DefinitionToLoadV1 | src/dryml/dry_object.py:134-140 | the definition read, with its class replaced by as_cls when given |
| DryObjects.DefinitionToLoad | src/dryml/dry_object.py:151-160 | load_object reads what `definition()` reads with the same flags, then applies as_cls; the errors are the same |
| DryObjects.Content | src/dryml/dry_object.py:146 | an object's own entries are the archive entries outside the four reserved names |
| DryObjects.ClassToStore | src/dryml/dry_object.py:72-77 | the class saved is the current one; without update a class that is not current is refused with ValueError |
| DryObjects.WithDefinition | src/dryml/dry_object.py:97-108 | the class, args and kwargs entries are written and every other entry is kept |
| DryObjects.SavedV1 | src/dryml/dry_object.py:162-179 | a completed save holds the four format entries and every entry the object's hooks wrote |
| DryObjects.SavedArchiveEntries | src/dryml/dry_object.py:162-177 | a completed save holds the four format entries, with meta data `{version: 1}` and the stored class |
| DryObjects.ReadBackStored | src/dryml/dry_object.py:110-132 | read back without update, a saved archive gives the saved args and kwargs under the stored class |
| DryObjects.ReadBackUpdated | src/dryml/dry_object.py:82-132 | read back with update, the class is the one currently at the stored path, and a failed lookup is RuntimeError |
| DryObjects.ContentRoundTrip | src/dryml/dry_object.py:146-175 | what the save hook wrote is what the load hook reads back |
| DryObjects.SavedDefinitionLoadsBack | src/dryml/dry_object.py:110-177 | an archive saved from a definition with a current class loads back as that definition, with or without update |
| DryObjects.UnsupportedVersionRejected | src/dryml/dry_object.py:126-160 | any version but 1 makes `definition` and `load_object` raise RuntimeError |
| DryObjects.TrueIsVersionOne | src/dryml/dry_object.py:128-156 | the version test is Python `==`: True passes as 1; 2 and "1" do not |
| DryObjects.ChangedClassRefused | src/dryml/dry_object.py:72-80 | without update a changed class is refused with ValueError; with update the current class is stored |
| DryObjects.UpdatedClassKeepsPath | src/dryml/dry_object.py:82-95 | with update, the loaded class has the stored class's path |
| DryObjects.ClassDefChoice | src/dryml/dry_object.py:82-95 | without update the stored class is returned as is; with update the resolver's answer, any resolver failure becoming RuntimeError |
| DryObjects.AsClsOverrides | src/dryml/dry_object.py:134-140 | `as_cls` replaces only the class, and never makes a failed read succeed |
| DryObjects.IdSupply.Fresh | src/dryml/dry_object.py:262-263 | uuid4 returns an identifier never issued before, and records it |
| DryObjects.IdSupply.constructor | src/dryml/dry_object.py:262-263 | no identifier is issued at first |
| DryObjects.GivenId | src/dryml/dry_object.py:253-254 | the dry_id a definition carries, None when the key is missing |
| DryObjects.DryObject.constructor | src/dryml/dry_object.py:253-265 | dry_id is the given one or a fresh identifier when None; every other keyword is kept; the object always ends with a dry_id |
| DryObjects.DryObject.Definition | src/dryml/dry_object.py:267-271 | the definition is the object's class with its stored args and kwargs |
| DryObjects.DryObject.LoadObjectImp | src/dryml/dry_object.py:273-275 | a subclass load hook (the base hook does nothing): it takes the archive's non-reserved entries and changes nothing else |
| DryObjects.DryObject.SaveObjectImp | src/dryml/dry_object.py:277-279 | a subclass save hook (the base hook does nothing): it writes the object's own entries over the archive |
| DryObjects.BuildObject | src/dryml/dry_object.py:143 | building gives a new object of the definition's class and args, keeping its dry_id or drawing a fresh one |
| DryObjects.DryObjectFile.constructor | src/dryml/dry_object.py:38-43 | an opened archive holds its entries |
| DryObjects.DryObjectFile.Create | src/dryml/dry_object.py:235-236 | an archive opened for writing starts empty |
| DryObjects.DryObjectFile.SaveMetaData | src/dryml/dry_object.py:57-65 | writes `{version: 1}` under `meta_data.pkl` and nothing else |
| DryObjects.DryObjectFile.SaveClassDefV1 | src/dryml/dry_object.py:72-80 | a resolver failure propagates; a changed class without update raises ValueError and writes nothing; otherwise the current class is written |
| DryObjects.DryObjectFile.SaveDefinitionV1 | src/dryml/dry_object.py:97-108 | writes class, args and kwargs, or on a class failure nothing |
| DryObjects.DryObjectFile.SaveObjectV1 | src/dryml/dry_object.py:162-177 | the archive becomes meta data, definition (with `as_cls`) and the object's entries; a changed class is refused whatever `update` says, leaving only the meta data written |
| DryObjects.DryObjectFile.LoadObjectV1 | src/dryml/dry_object.py:134-149 | a read error propagates; otherwise a new object built from the definition (with `as_cls`) holding the archive's own entries |
| DryObjects.DryObjectFile.LoadObject | src/dryml/dry_object.py:151-160 | the same behind the version gate: any version but 1 raises RuntimeError |
| DryObjects.SaveObject | src/dryml/dry_object.py:232-240 | the archive is emptied; version 1 writes the complete archive; any other version raises ValueError |
| DryObjects.GetObj | src/dryml/dry_object.py:209 | the repo answers iff it holds the definition |
| DryObjects.ActiveRepo | src/dryml/dry_object.py:193-200 | a repo passed while one is active is refused with RuntimeError; otherwise the passed repo, else the active one, is consulted |
| DryObjects.RepoHit | src/dryml/dry_object.py:206-217 | a lookup hits iff a repo is active and holds the definition |
| DryObjects.SecondRepoRefused | src/dryml/dry_object.py:193-200 | even the active repo itself is refused when passed again |
| DryObjects.RepoHitExact | src/dryml/dry_object.py:206-217 | the repo returns its own instance for the definition; the same definition with another dry_id is a different key, answered only when the repo holds that key itself |
| DryObjects.ObjectLoader.constructor | src/dryml/dry_object.py:180 | the slot starts empty |
| DryObjects.ObjectLoader.LoadObject | src/dryml/dry_object.py:180-229 | conflict raises and leaves the slot; the lookup definition is read with update on and reload off; a hit returns the repo's object and loads nothing; a miss loads from disk; a normal return restores the slot; an exception after activation leaves the repo active |
| DryObjects.ObjectLoader.ChangeObjectCls | src/dryml/dry_object.py:243-248 | a changed class is refused; otherwise, with no repo active, a new object of the new class with the same args, dry_id and own entries |
| DryObjects.ApplyCallbacks | src/dryml/dry_object.py:298-300 | the callbacks applied one after another, in list order |
| DryObjects.ApplyCallbacksAppend | src/dryml/dry_object.py:298-300 | running two lists of callbacks in turn is running their concatenation |
| DryObjects.ApplyCallbacksSnoc | src/dryml/dry_object.py:293-300 | a callback added last runs last |
| DryObjects.CallbackList.constructor | src/dryml/dry_object.py:286 | a new callback list is empty |
| DryObjects.DryObjectFactory.constructor | src/dryml/dry_object.py:290-291 | a factory keeps its definition and its (possibly shared) callback list |
| DryObjects.DryObjectFactory.AddCallback | src/dryml/dry_object.py:293-294 | the callback is appended to the list |
| DryObjects.DryObjectFactory.Call | src/dryml/dry_object.py:296-301 | builds, then applies each callback once in insertion order; a definition without dry_id gives each object a fresh identity |
| DryObjects.NewFactory | src/dryml/dry_object.py:286-291 | a definition carrying dry_id is refused with ValueError; otherwise the factory holds the definition and list |

## Left out

- Printing and `verbosity` (including the unconditional print of each dict key in `match_objects`): output only. The matcher has no verbosity parameter, so its result cannot depend on it.
- Zip mechanics (`zipfile`, `io.BytesIO`, opening, closing, context managers), `load_zipfile`, and the existence check that raises ValueError for a missing path. Archives are entry maps that are already open.
- `pickle`/`dill`: abstract; classes are stored by reference (`TypeRef`), not as code.
- `get_current_cls`, `DryObjectDef`/`DryArgs`/`DryKwargs`, `DryRepo` and `utils`: their source is not part of this model. They appear as contracts taken as given: the `Modules` table, `DefEqual`, `BuildObject`, `GetObj`, and the capability tests as the constructors of `Value`.
- `StoredClass`: a stored value that is not a class is modelled as TypeError, because what the unseen code does with it is not known.
- `MakeDef`: `*args` over a list, a str or a dict is modelled (`StarArgs`). Other iterables, such as sets and generators, are not values of the model.
- `MetaVersion`: only dict meta data is subscriptable; `meta_data['version']` on any other value is modelled as TypeError.
- `DryObject.constructor`: `dry_args=None`/`dry_kwargs=None` are given as the empty list/dict (the argument handlers are not part of this model), and `super().__init__` is not modelled.
- `BuildObject`: the constructor rejecting its arguments, and recursive building of nested definitions, are not modelled.
- `Match`: a callable is total and returns a bool, and an exception it raises is not modelled. Floats and non-string dict keys are not modelled.
- `FromDef`: the cache is keyed by the definition's value rather than its `id()`. This hides two consequences of id() keying:
  - Two equal but distinct definitions get separate entries in the source. Here they share one, which gives the same selector.
  - The opposite hazard. `def_to_sel` passes the temporary `val.definition()` (dry_selector.py line 15), and the cache keeps only the selector (line 57). The temporary can therefore be freed once `from_def` returns. A later temporary, such as the definition of the next object in `args == [o1, o2]`, may reuse its `id()`, and line 41 would then return the earlier object's selector. The model's `r == LiftDef(d)` holds only because it keys by value.
  - Reference cycles are not modelled; datatypes are acyclic.
- `from_dict`: only its unconditional RuntimeError is modelled; the code after it never runs.
- `ObjectLoader.LoadObject`: the file argument is the opened archive; `exact_path` resolution is modelled separately by `FileResolve`.
- `DryObjectFactory.Call`: a callback is modelled by what it does to the object's own entries. A callback that changes other fields, or adds callbacks while the loop runs, is not modelled.
- `save_self` is a one-line delegation to `save_object` and is not modelled separately.
- `DefEqual`: the source of `DryObjectDef.equal` is not part of this model. It is taken as recursive equality: classes by the comparison mode at every depth, sequences in order, dicts by key in any order, scalars by Python `==`, live objects by identity.
- `NewFactory`: `'dry_id' in obj_def` is read as a test on the definition's keyword arguments. How `DryObjectDef` implements `in` is not part of this model; if it tested the definition's own keys (`cls`, `dry_args`, `dry_kwargs`, as indexed at dry_selector.py lines 45-53), the refusal would never happen.
- `DryObject.LoadObjectImp`, `DryObject.SaveObjectImp`: the base hooks do nothing. The model stands one subclass hook in for them: it copies every entry the format does not reserve. Hooks that write reserved names, or that ignore entries they did not write, are not modelled, and `ContentRoundTrip` holds because of this choice.
- `ObjectLoader.LoadObject`: nested loads are not composed. A load hook that itself calls `load_object` while a repo is active would see the slot set; the model's hooks do not load objects.

## Behaviour of the code worth knowing

- Any repo passed to `load_object` while one is active is refused with RuntimeError, even the active repo itself (lines 193-196, `SecondRepoRefused`).
- The dict matcher returns False at the first pattern key that is missing or does not match. Later keys are not examined (lines 132-144, `DictMissingKeyFails`, `EntriesIff`).
- `save_object_v1` writes the meta data before the class check. A save refused with ValueError leaves an archive holding only `meta_data.pkl` (lines 162-168, `SaveObjectV1`, `SaveObject`).
- `file_resolve` appends `.dry` again on every call to a name whose last component has no character other than a dot, such as `""`, `"dir/"` or `".."`. For every other name, resolving twice is resolving once (lines 19-22, `FileResolveIdempotentIff`).
- The slot reset in `load_object` (lines 226-227) is not in a `finally`. An exception after a repo was activated leaves it active, and the next call passing a repo is refused (`ObjectLoader.LoadObject`).
- `load_object` reads the lookup definition with `definition()`'s defaults, update on and reload off, whatever the caller passed (line 204, `ObjectLoader.LoadObject`).
