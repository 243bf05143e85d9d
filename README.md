# kodi-addon-checker, modelled in Dafny

This project models the core of kodi-addon-checker, the tool that checks a
Kodi add-on, or a repository of add-ons, before it is submitted to Kodi's
official repository. The checker walks the add-on's folder and reads its
`addon.xml`. It compares the add-on with the published branches of the
repository. It reports what it finds as records of three levels: ERROR
(problem), WARN (warning) and INFO (information).

The modules follow the source files:

- `Versions`: `AddonVersion`. This is the legacy `~beta` rewrite, lower-casing and the
  PEP 440 subset `packaging.version.parse` accepts. It covers parsing, printing and
  ordering, and proves `parse(str(v)) == v`.
- `KodiVersions`: `KodiVersion` and the list of branch names.
- `Addons`: `Addon` and `AddonDependency`.
- `Repositories`: `Repository`, meaning `in`, `find` and `rdepends` over a
  downloaded catalog.
- `Orders` and `Branches`: the three-way orderings and the descending sort of
  branch names.
- `CheckDependencies`, `CheckAddonBranches`, `CheckOldAddon`, `AllowedVersions`,
  `SchemaValidation`, `CheckArtwork` and `CheckFiles`: one module per checker.
  Each checker returns the sequence of records it would pass to `report.add`,
  plus the exception that ends it, if any (`Records.Run`).
- `HandleFiles`: the file index, the recursive search and the text search, over
  a directory tree given as a value.
- `Records`, `Reports`, `Reporters`, `Configs` and `Common`: records, the counting report, the reporter
  registry, the configuration and the shared helpers. `Report`, `ReportManager`, `Config` and the
  checker's ignore list are classes, because the source updates them in place.
- `Outcome`, `Text` and `Paths` are helpers. They hold Python's exceptions as a
  `Result`, the `str` built-ins the source uses, and `os.path.join`,
  `normpath`/`basename`, `split` and `PurePath.suffix`.

The file system, the network, XML parsing, the image library and the XML
schema library are parameters of the model. They appear as a directory tree
value, a downloaded catalog, parsed elements, and functions such as
`disk.open` and `st.validate`.

Python's `re` patterns are modelled as predicates one by one. The model
includes `$` matching before a final newline, and the characters
`re.IGNORECASE` folds.

## Model

| member | source | states |
|---|---|---|
| Records.LevelsDistinct | kodi_addon_checker/record.py:9-11 | the three levels "ERROR", "WARN" and "INFO" are pairwise distinct |
| Records.Text | kodi_addon_checker/record.py:27-32 | `str(record)` is the level, then ": ", then the message, and nothing else |
| Records.TextInjective | kodi_addon_checker/record.py:27-32 | two records with standard levels and the same text are the same record |
| Common.RelativePathByLength | kodi_addon_checker/common/__init__.py:47-51 | the prefix is cut by its length alone: two `REL_PATH` settings of equal length give every path the same printed form, whether or not they match its start |
| Common.RelativePathOfPrefix | kodi_addon_checker/common/__init__.py:50-51 | when `REL_PATH` is a prefix of the path, the result is "." followed by the remainder |
| Common.RelativePathDefault | kodi_addon_checker/common/__init__.py:47-51 | with the default empty `REL_PATH` the result is "." before the whole path |
| Common.FirstTransparentFinds | kodi_addon_checker/common/__init__.py:28-29 | the generator's `next` gives the first index whose alpha is below 255, and raises exactly when there is none |
| Common.HasTransparencyMeans | kodi_addon_checker/common/__init__.py:19-34 | `has_transparency` holds exactly when the mode is "RGBA" and some alpha value is below 255 |
| Common.OpaqueImages | kodi_addon_checker/common/__init__.py:19-34 | an RGB image, and an RGBA image with every alpha at 255, have no transparency |
| Reports.CounterOf | kodi_addon_checker/report.py:33-38 | "ERROR" selects the problem counter, "WARN" the warning counter, and every other level the information counter |
| Reports.Report.constructor | kodi_addon_checker/report.py:14-22 | a new report keeps its artifact name and has all three counts at zero |
| Reports.Report.AddRecord | kodi_addon_checker/report.py:30-38 | the record goes to exactly the enabled reporters, in registration order; exactly the counter its level selects goes up by one, so the total goes up by one |
| Reports.Report.AddReport | kodi_addon_checker/report.py:39-42 | each count goes up by the sub-report's count, taken before the update, so a report added to itself doubles; nothing is forwarded |
| Reports.Add | kodi_addon_checker/report.py:24-42 | the `isinstance` dispatch: a record is forwarded to the enabled reporters and raises by one exactly the counter its level selects; a report is not forwarded and each counter grows by the sub-report's count of it, taken before the call |
| Reports.CountsPartition | kodi_addon_checker/report.py:33-38 | every record lands in exactly one counter, so the three counts add up to the number of records |
| Reports.CountOfAppend | kodi_addon_checker/report.py:33-38 | one more record raises only the count of its own counter, by one |
| Reports.AddAll | kodi_addon_checker/report.py:30-38 | adding records one by one to a fresh report leaves in each counter the number of records with that level |
| Reporters.EnabledIn | kodi_addon_checker/reporter.py:37-38 | the instances of the enabled entries, in the order of the key list; an instance is returned exactly when some listed name has it and is enabled |
| Reporters.NoneEnabled | kodi_addon_checker/reporter.py:37-38 | with no entry enabled, no reporter is returned |
| Reporters.AllEnabled | kodi_addon_checker/reporter.py:37-38 | with every entry enabled, every instance is returned, in key order |
| Reporters.ReportManager.constructor | kodi_addon_checker/reporter.py:19-20 | the class-level registry starts empty |
| Reporters.ReportManager.Register | kodi_addon_checker/reporter.py:22-24 | the name maps to a fresh instance and the flag; a new name goes to the end of the key order, a name already present keeps its place and loses its old instance and flag |
| Reporters.ReportManager.Enable | kodi_addon_checker/reporter.py:26-34 | every registered entry keeps its instance and is enabled exactly when its name is listed; no entry is added or removed, and unknown names are ignored |
| Reporters.ReportManager.EnabledReporters | kodi_addon_checker/reporter.py:36-38 | an instance is returned exactly when it belongs to an enabled entry |
| Reporters.EnabledAs | kodi_addon_checker/reporter.py:33-34 | the registry after `enable(names)`: the same keys and instances, each flag set to whether the name is listed |
| Reporters.EnableEmpty | kodi_addon_checker/reporter.py:33-34 | `enable([])` leaves no reporter enabled |
| Reporters.EnableEvery | kodi_addon_checker/reporter.py:33-38 | enabling every registered name returns every instance, in registration order |
| Reporters.EnabledInUnrelated | kodi_addon_checker/reporter.py:37-38 | an entry under a name outside the key list does not change the result |
| Reporters.RegisterNew | kodi_addon_checker/reporter.py:23-24 | registering a new enabled name appends its instance to the enabled reporters; a new disabled name leaves them unchanged |
| Configs.Merge | kodi_addon_checker/config.py:33-37 | the keys are the file's keys and the non-`None` command-line keys; a non-`None` command-line value wins, and otherwise the file's value stays |
| Configs.MergeNullArgs | kodi_addon_checker/config.py:34-35 | command-line values that are all `None` leave the file's entries as they are |
| Configs.Config.constructor | kodi_addon_checker/config.py:23 | the configuration starts as the command-line values, or `{}` without any |
| Configs.NewConfig | kodi_addon_checker/config.py:17-24 | the new configuration is what loading the file over the command-line values gives; an exception of the load escapes and no configuration is made |
| Configs.Config.LoadConfig | kodi_addon_checker/config.py:26-37 | without a repository path, or when the file is missing or holds `null`, the configuration is unchanged; an object becomes the merge of the file and the non-`None` values; another top level replaces the configuration; on malformed JSON (`ValueError`) or a key written into a non-object (`TypeError`) the exception is returned and the configuration stays |
| Configs.LoadOutcome | kodi_addon_checker/config.py:30-37 | loading fails exactly for malformed JSON, with `ValueError`, and for a top level that is neither an object nor `null` while some command-line value is not `None`, with `TypeError` |
| Configs.IsEnabledAfterLoad | kodi_addon_checker/config.py:23-40 | after loading, `is_enabled(key)` is the non-`None` command-line value, else the file's value, else `None` for a `None` command-line value that no file object replaced, else `False`; it raises `AttributeError` when the file's top level replaced the dict |
| Configs.GetAfterLoad | kodi_addon_checker/config.py:23-43 | after loading, `config[key]` is the non-`None` command-line value, else the file's value, else `None`; it raises `AttributeError` when the file's top level replaced the dict |
| Configs.Substrings | kodi_addon_checker/config.py:62-65 | when `reporter` is one string, `name in reporters` selects exactly the registered names that occur in it |
| Configs.KeysIn | kodi_addon_checker/reporter.py:33-34 | when `reporter` is a JSON object, `name in reporters` selects exactly the registered names that are its keys |
| Configs.ProcessConfig | kodi_addon_checker/config.py:60-65 | a configuration that is no dict raises `AttributeError` at `config["reporter"]`; a `None` reporter value changes nothing; a list enables exactly the listed names, a string the names it contains, an object its keys; a boolean or number raises `TypeError`, leaving every flag unchanged, exactly when some reporter is registered |
| KodiVersions.ValidKodiVersionsDistinct | kodi_addon_checker/__init__.py:11-22 | the list of Kodi branch names holds no name twice |
| KodiVersions.IndexOf | kodi_addon_checker/KodiVersion.py:21 | `list.index`: `ValueError` exactly when the name is absent, otherwise the first position holding it |
| KodiVersions.IndexOfDistinct | kodi_addon_checker/KodiVersion.py:21 | in a list without repetitions `index` returns the one position that holds the element |
| KodiVersions.NewKodiVersion | kodi_addon_checker/KodiVersion.py:12-16 | the constructor succeeds exactly for the listed names and keeps the name; any other name raises `ValueError` |
| KodiVersions.RankOfValid | kodi_addon_checker/KodiVersion.py:21 | a valid version has a position in the list, and that position holds its name |
| KodiVersions.ForeignOperand | kodi_addon_checker/KodiVersion.py:18-42 | the four orderings against a non-KodiVersion raise `TypeError`; `==` is false and `!=` true |
| KodiVersions.OrderIsPositions | kodi_addon_checker/KodiVersion.py:18-42 | `<`, `<=`, `>`, `>=` are the comparisons of list positions; `==` holds exactly when the positions agree; `!=` is its negation |
| KodiVersions.TotalOrder | kodi_addon_checker/versions.py:59-83 | exactly one of `<`, `==`, `>` holds; `<=` is antisymmetric and transitive; `a > b` is `b < a` |
| KodiVersions.MatrixAfterLeia | tests/test_versions.py:27-28 | `KodiVersion("matrix") > KodiVersion("leia")` |
| Addons.NewDependency | kodi_addon_checker/addons/AddonDependency.py:13-19 | raises exactly when a `version` attribute is present and its AddonVersion raises, with that exception; otherwise the raw `addon` id, no version exactly when the attribute is absent, the AddonVersion of it when present, and the raw `optional` attribute |
| Addons.NoVersionNeverFails | kodi_addon_checker/addons/AddonDependency.py:16-18 | an import without a `version` attribute always yields a dependency, without a version |
| Addons.NewAddon | kodi_addon_checker/addons/Addon.py:17-23 | succeeds exactly when every import yields a dependency; then the raw id and version and one dependency per import in document order; otherwise the exception of one of the imports |
| Addons.SameIsEquivalence | kodi_addon_checker/addons/Addon.py:25-30 | add-on `==` is reflexive, symmetric and transitive, ignores the dependencies, and compares version text: "1.0" and "1.0.0" differ |
| Addons.DependsOn | kodi_addon_checker/addons/Addon.py:32-42 | true exactly when some dependency carries the given id |
| Addons.NoDependencies | kodi_addon_checker/addons/Addon.py:39-42 | an add-on without dependencies depends on nothing |
| Orders.CompareTextEqual | kodi_addon_checker/check_addon_branches.py:34 | Python's string ordering ties exactly on equal strings |
| Orders.CompareTextFlip | kodi_addon_checker/check_addon_branches.py:34 | swapping the operands flips the string ordering |
| Orders.CompareTextChains | kodi_addon_checker/check_addon_branches.py:34 | the string ordering is transitive |
| Orders.CompareTextPrefix | kodi_addon_checker/check_addon_branches.py:34 | a string sorts before every longer string it is a prefix of |
| Versions.CompareLaws | kodi_addon_checker/versions.py:22-46 | packaging's version comparison is reflexive, flips when the operands swap, and is transitive |
| Versions.CompareReleaseZeroPadding | kodi_addon_checker/versions.py:25 | a trailing zero release segment never changes a comparison (1.0 == 1.0.0) |
| Versions.Parse | kodi_addon_checker/versions.py:20 | `parse` fails only with `InvalidVersion`, fails on text not starting with a digit, and yields a non-empty release |
| Versions.SeparatedPreNumber | kodi_addon_checker/versions.py:20 | a `-` between the pre-release letter and its number belongs to the pre-release: `1.0a-1` is the alpha pre-release 1 with no post-release |
| Versions.ParseWellFormed | kodi_addon_checker/versions.py:20 | whatever `parse` accepts is a well-formed version |
| Versions.ParseRender | kodi_addon_checker/versions.py:20 | `parse(str(v)) == v` for every well-formed version |
| Versions.Normalize | kodi_addon_checker/versions.py:17-20 | the text handed to `parse` has no upper case; with a legacy `~beta`/`~alpha` marker no `~` is left; without one it is the lower-cased input |
| Versions.AddonVersionOf | kodi_addon_checker/versions.py:17 | an absent attribute raises `TypeError`; a present one is `AddonVersion` of its text |
| Versions.ForeignOperand | kodi_addon_checker/versions.py:22-46 | ordering an AddonVersion against anything else raises `TypeError`; `==` is false and `!=` true |
| Versions.OperatorLaws | kodi_addon_checker/versions.py:22-46 | between AddonVersions no operator raises; exactly one of `<`, `==`, `>` holds; `<=`/`>=` are the unions; `a > b` is `b < a`; `!=` negates `==` |
| Versions.OrderLaws | kodi_addon_checker/versions.py:22-33 | `<` is irreflexive and transitive, `<=` transitive, `==` an equivalence compatible with `<` |
| Versions.CaseInsensitive | kodi_addon_checker/versions.py:17-20 | when the legacy marker is detected alike in `s` and `s.lower()`, both give the same AddonVersion |
| Versions.UpperCaseMarkerKept | kodi_addon_checker/versions.py:17-18 | `1.0~BETA1` carries no marker the test sees, so no `~` is removed |
| Versions.TildeRejected | kodi_addon_checker/versions.py:20 | `1.0~beta1` with its `~` kept is no version |
| Versions.UpperCaseMarkerRejected | kodi_addon_checker/versions.py:17-20 | `AddonVersion("1.0~BETA1")` raises `InvalidVersion` |
| Versions.LowerCaseMarkerRemoved | kodi_addon_checker/versions.py:17-18 | `1.0~beta1` carries the marker and becomes `1.0beta1` |
| Versions.BetaSpelling | kodi_addon_checker/versions.py:20 | `1.0beta1` parses as release 1.0, beta pre-release 1 |
| Versions.LowerCaseMarkerAccepted | kodi_addon_checker/versions.py:15-20 | the legacy `1.0~beta1` is read as the beta pre-release 1.0b1 |
| Versions.CaseMattersForUpperCaseMarker | kodi_addon_checker/versions.py:17-20 | `AddonVersion("1.0~BETA1")` differs from `AddonVersion("1.0~beta1")`: case matters for the marker |
| Versions.PlainRender | kodi_addon_checker/versions.py:20 | the canonical text of a well-formed version holds no `~` and no upper case |
| Versions.Canonical | kodi_addon_checker/versions.py:17-20 | `AddonVersion(str(v))` is `v` for every well-formed version |
| Versions.TestedComparisons | tests/test_versions.py:7-16 | 1.0.1, 1.1.0 and 2.0.0 each compare greater than 1.0.0 |
| Versions.PatchIsNewer | tests/test_versions.py:7-8 | `AddonVersion("1.0.1") > AddonVersion("1.0.0")` |
| Versions.MinorIsNewer | tests/test_versions.py:11-12 | `AddonVersion("1.1.0") > AddonVersion("1.0.0")` |
| Versions.MajorIsNewer | tests/test_versions.py:15-16 | `AddonVersion("2.0.0") > AddonVersion("1.0.0")` |
| Versions.LocalComparisons | tests/test_versions.py:19-24 | the comparisons of the tested local labels |
| Versions.LocalLabelIsCompared | tests/test_versions.py:19-20 | `AddonVersion("1.0.0+matrix.1") > AddonVersion("1.0.0+leia.1")` |
| Versions.ReleaseBeatsLocal | tests/test_versions.py:23-24 | `AddonVersion("0.5.4.1") > AddonVersion("0.5.4+matrix.1")` |
| Paths.JoinParts | kodi_addon_checker/check_files.py:58 | `os.path.join`: an absolute second part is the result; otherwise the result starts with the first part and ends with the second, one separator longer exactly when the first part is non-empty and does not end with `/` |
| Paths.Split | kodi_addon_checker/check_files.py:129 | `rsplit(".")` without a limit: at least one piece, no piece holds the separator, and a single piece exactly when the text has none |
| Paths.JoinSplit | kodi_addon_checker/check_files.py:129 | joining the pieces with the separator gives back the text |
| Paths.SplitAppend | kodi_addon_checker/check_files.py:129-130 | a text ending in a separator and a piece without one splits into the text's pieces and that last piece |
| Paths.SplitNoSep | kodi_addon_checker/check_files.py:129-130 | a text without the separator is its own single piece |
| Paths.NormFoldAppend | kodi_addon_checker/check_files.py:78 | `normpath` keeps a plain last component as the last component |
| Paths.NormFoldEmpty | kodi_addon_checker/check_files.py:78 | `normpath` drops an empty last component (a trailing separator) |
| Paths.FolderNameOfJoin | kodi_addon_checker/check_files.py:78 | `basename(normpath(p))` is the plain name itself, after a directory is joined in front, and after a trailing `/` |
| Paths.SuffixIsEnding | kodi_addon_checker/handle_files.py:67 | `PurePath(name).suffix` is empty, or a dot and at least one further character, none a dot, that ends a longer name |
| Repositories.NewRepository | kodi_addon_checker/addons/Repository.py:56-75 | a failed download leaves a repository without add-ons; otherwise it succeeds exactly when every import of every entry can be read, and then holds one add-on per `addon` element, in order, each read from its element |
| Repositories.ContainsIn | kodi_addon_checker/addons/Repository.py:77-81 | the early-return scan finds the id exactly when some entry carries it |
| Repositories.Contains | kodi_addon_checker/addons/Repository.py:77-81 | `id in repo`: `AttributeError` exactly when the download failed, else whether some entry carries the id |
| Repositories.Instances | kodi_addon_checker/addons/Repository.py:86-89 | the collected instances are exactly the entries with the id |
| Repositories.InstancesKeepDuplicates | kodi_addon_checker/addons/Repository.py:86-89 | every entry with the id is collected as often as it occurs, others never |
| Repositories.CollectInstances | kodi_addon_checker/addons/Repository.py:86-89 | the loop builds the instances of the id, in catalog order |
| Repositories.InstancesAppend | kodi_addon_checker/addons/Repository.py:87-89 | one more entry adds itself to the instances exactly when it carries the id |
| Repositories.Key | kodi_addon_checker/addons/Repository.py:95 | the sort key `AddonVersion(addon.version)` can only raise `TypeError` (no version) or `InvalidVersion` |
| Repositories.SortKeys | kodi_addon_checker/addons/Repository.py:95 | the loop computes every key before any comparison, or stops with the first exception |
| Repositories.Keys | kodi_addon_checker/addons/Repository.py:95 | keys exist exactly when every entry's key can be computed, one per entry and in order |
| Repositories.KeysFirstError | kodi_addon_checker/addons/Repository.py:95 | the first entry whose key raises decides the exception |
| Repositories.KeysAllOk | kodi_addon_checker/addons/Repository.py:95 | when every key is computed, these are the keys |
| Repositories.KeysErrorOfFirst | kodi_addon_checker/addons/Repository.py:95 | an exception from the keys is that of the first entry whose key raises |
| Repositories.FirstMaximumOf | kodi_addon_checker/addons/Repository.py:95-96 | the scan returns the position a stable descending sort moves to the front |
| Repositories.FirstMaximumFrom | kodi_addon_checker/addons/Repository.py:95-96 | the position found has no greater key, and every earlier key is smaller |
| Repositories.FirstMaximumIndex | kodi_addon_checker/addons/Repository.py:95-96 | the front position of a stable descending sort is a first maximum |
| Repositories.FirstMaximumUnique | kodi_addon_checker/addons/Repository.py:95-96 | there is only one first maximum, so the sort's choice is determined |
| Repositories.Find | kodi_addon_checker/addons/Repository.py:83-96 | `find` computes `Highest` |
| Repositories.Highest | kodi_addon_checker/addons/Repository.py:83-96 | `AttributeError` exactly when the download failed |
| Repositories.HighestFinds | kodi_addon_checker/addons/Repository.py:83-96 | `None` without matching entries, the first key's exception when a version cannot be read, else the first maximum of the matching entries |
| Repositories.FoundIsHighest | kodi_addon_checker/addons/Repository.py:84-96 | a returned add-on has the id, is in the catalog, and no entry with the id has a higher version |
| Repositories.EntryNotAbove | kodi_addon_checker/addons/Repository.py:95-96 | no entry has a key above the first maximum's |
| Repositories.KeyNotAbove | kodi_addon_checker/addons/Repository.py:95-96 | no key is above the first maximum's |
| Repositories.FindNoneIffAbsent | kodi_addon_checker/addons/Repository.py:77-92 | `find(id)` is `None` exactly when `id in repo` is false |
| Repositories.ReadableFindsHighest | kodi_addon_checker/addons/Repository.py:84-96 | when the id is present and all its versions are readable, `find` returns an entry with the id that no other exceeds |
| Repositories.RDependsIn | kodi_addon_checker/addons/Repository.py:98-103 | the entries that depend on the id, each as often as in the catalog, others never |
| Repositories.RDepends | kodi_addon_checker/addons/Repository.py:98-103 | `AttributeError` exactly when the download failed, else the dependants in the catalog |
| CheckDependencies.Extension | kodi_addon_checker/check_dependencies.py:78-89 | leia adds `script.module.pycryptodome`, krypton adds the two inputstream ids, any other branch adds nothing |
| CheckDependencies.IgnoreList.constructor | kodi_addon_checker/check_dependencies.py:17-28 | the shared list starts as the common ignore list |
| CheckDependencies.IgnoreList.GetIgnoreList | kodi_addon_checker/check_dependencies.py:78-89 | the shared list is extended in place for leia and krypton, and the same list is returned |
| CheckDependencies.IgnoreAfterCall | kodi_addon_checker/check_dependencies.py:78-89 | one more call extends the list by its branch's additions |
| CheckDependencies.IgnoreAfterMembers | kodi_addon_checker/check_dependencies.py:78-89 | after a history of calls an id is ignored exactly when it is a common one or some earlier call's branch added it, whichever branch is checked now |
| CheckDependencies.RepeatedCallsDuplicate | kodi_addon_checker/check_dependencies.py:80-82 | every leia call adds one more copy of `script.module.pycryptodome` |
| CheckDependencies.CompareAsWritten | kodi_addon_checker/check_dependencies.py:62 | comparing the entry's raw version text with the declared AddonVersion raises `TypeError` whenever a minimum is declared |
| CheckDependencies.CompareVersions | kodi_addon_checker/check_dependencies.py:62-66 | the corrected comparison: raises exactly when the entry's version cannot be read; at most one record, at the problem level (information when optional), exactly when the available version is below the minimum |
| CheckDependencies.ComparisonAlwaysRaises | kodi_addon_checker/check_dependencies.py:62 | as written, a dependency with a minimum that is neither skipped nor missing never passes: the check raises |
| CheckDependencies.ChainLevel | kodi_addon_checker/check_dependencies.py:48-66 | the chain adds at most one record: information when optional, else a problem, or a warning when no minimum is declared |
| CheckDependencies.ChainCases | kodi_addon_checker/check_dependencies.py:48-60 | nothing when skipped, `AttributeError` without a catalog, a problem (information when optional) when not in the catalog, one record when no minimum is declared |
| CheckDependencies.MinimumMet | kodi_addon_checker/check_dependencies.py:62-66 | with the id's versions readable, a dependency with a minimum passes silently exactly when some entry of the id meets the minimum |
| CheckDependencies.ChainOfFound | kodi_addon_checker/check_dependencies.py:62 | with a minimum, the chain ends in the comparison with the entry `find` returned |
| CheckDependencies.SatisfiedDependencyRaises | kodi_addon_checker/check_dependencies.py:62 | for a catalog holding exactly the required version, the check as written raises `TypeError` while the corrected one reports nothing |
| CheckDependencies.Advice | kodi_addon_checker/check_dependencies.py:68-75 | at most one record, a warning, and only when the branch has an advised version for the id |
| CheckDependencies.LooseVersionDiffers | kodi_addon_checker/check_dependencies.py:71 | as written, `LooseVersion(v) != dependency.version` is the reflected `AddonVersion.__ne__` against another class: always true |
| CheckDependencies.VersionDiffers | kodi_addon_checker/check_dependencies.py:71 | the corrected test holds exactly when no version is declared, the advised text is no version, or the declared version is not equal, in the PEP 440 order, to the advised one |
| CheckDependencies.AdviceAlwaysFires | kodi_addon_checker/check_dependencies.py:68-73 | as written, every `xbmc.python` import on a branch of the table gets the advice |
| CheckDependencies.AdvisedVersionOnLeia | kodi_addon_checker/check_dependencies.py:68-73 | an import declaring exactly the advised leia version is advised as written, and not by the corrected test |
| CheckDependencies.AdvisedDifferentVersionOnLeia | kodi_addon_checker/check_dependencies.py:68-73 | with the corrected test, an import declaring 2.25.0 on leia, where 2.26.0 is advised, is advised |
| CheckDependencies.DependenciesRun | kodi_addon_checker/check_dependencies.py:47-75 | the loop raises exactly when some dependency's step raises |
| CheckDependencies.RunConcatenates | kodi_addon_checker/check_dependencies.py:47-75 | without an exception, the records are those of the dependencies concatenated in order |
| CheckDependencies.RunDependencies | kodi_addon_checker/check_dependencies.py:47-75 | the loop over the dependencies computes `DependenciesRun` |
| CheckDependencies.ReadsUnique | kodi_addon_checker/addons/Addon.py:17-23 | an element reads as at most one add-on |
| CheckDependencies.CheckAddonDependencies | kodi_addon_checker/check_dependencies.py:36-75 | an unreadable import raises before anything is reported or the ignore list touched; otherwise the list is extended for the branch and the records are those of each dependency in order, with the corrected comparisons of lines 62 and 71 (see Findings) |
| Branches.HeadAboveTail | kodi_addon_checker/check_addon_branches.py:34 | the first name of a descending sequence is not below any later one |
| Branches.Insert | kodi_addon_checker/check_addon_branches.py:34 | inserting into a descending sequence keeps it descending and adds exactly that branch |
| Branches.SortDescending | kodi_addon_checker/check_addon_branches.py:34 | `sorted(..., reverse=True)` is descending by name and a permutation of the items |
| Branches.SortedVisitsAll | kodi_addon_checker/check_addon_branches.py:34 | the loop visits exactly the dict's branches |
| Branches.NameOrderExample | kodi_addon_checker/check_addon_branches.py:34 | names compare as strings: matrix is visited before leia |
| CheckAddonBranches.IsPythonAbiCompatibleAsWritten | kodi_addon_checker/check_addon_branches.py:63-70 | as written, the lookup raises for every pair of branches |
| CheckAddonBranches.IsPythonAbiCompatible | kodi_addon_checker/check_addon_branches.py:63-70 | the corrected lookup raises `KeyError` exactly when a branch is missing from the table, else says whether the two `min_compatible` entries agree |
| CheckAddonBranches.AbiLookupExamples | kodi_addon_checker/check_addon_branches.py:69-70 | as written matrix raises `KeyError` and leia `TypeError`; a table of `min_compatible` versions answers the same lookups |
| CheckAddonBranches.BothVersions | kodi_addon_checker/check_addon_branches.py:86-87 | both versions exist exactly when both constructions succeed; otherwise the first exception, the submitted one first |
| CheckAddonBranches.CheckVersionHigher | kodi_addon_checker/check_addon_branches.py:73-99 | raises exactly when a version cannot be built; otherwise at most one record: a problem exactly when the submitted version is below the published one or equal in `pr` mode, else an information exactly in `pr` mode |
| CheckAddonBranches.HigherRecords | kodi_addon_checker/check_addon_branches.py:86-99 | the records of the version-higher check follow that rule |
| CheckAddonBranches.CheckVersionLower | kodi_addon_checker/check_addon_branches.py:103-129 | raises exactly when a version cannot be built; otherwise at most one record: a problem exactly when the submitted version is above the published one or equal in `pr` mode, else an information exactly in `pr` mode |
| CheckAddonBranches.LowerRecords | kodi_addon_checker/check_addon_branches.py:116-129 | the records of the version-lower check follow that rule |
| CheckAddonBranches.PublishedVersion | kodi_addon_checker/check_addon_branches.py:40 | the raw version of the entry `find` returns |
| CheckAddonBranches.LowerBranch | kodi_addon_checker/check_addon_branches.py:38-40 | a branch at or below the target clears the flag exactly when it holds the id, and only then adds a record, at most one |
| CheckAddonBranches.UpperBranch | kodi_addon_checker/check_addon_branches.py:45-48 | with the corrected ABI lookup of lines 69-70 (see Findings), a higher branch clears the flag exactly when it holds the id and is not ABI compatible; a compatible one is skipped |
| CheckAddonBranches.BranchVisit | kodi_addon_checker/check_addon_branches.py:34-48 | a branch name that is no Kodi version raises `ValueError`; otherwise the lower-branch visit at or below the target and the upper-branch visit above it |
| CheckAddonBranches.VisitShape | kodi_addon_checker/check_addon_branches.py:34-48 | a branch adds at most one record, only when it clears the flag, and clears it exactly when it holds the id and is at or below the target or ABI incompatible above it |
| CheckAddonBranches.CompatibleBranchSkipped | kodi_addon_checker/check_addon_branches.py:45-46 | a higher ABI-compatible branch adds nothing and leaves the flag set |
| CheckAddonBranches.ScanFrom | kodi_addon_checker/check_addon_branches.py:34-48 | the loop raises exactly when some visit raises; otherwise the flag is cleared exactly when some visit clears it |
| CheckAddonBranches.ScanBound | kodi_addon_checker/check_addon_branches.py:34-48 | at most one record per visited branch |
| CheckAddonBranches.ScanBranches | kodi_addon_checker/check_addon_branches.py:33-48 | the loop computes `ScanFrom` over the sorted items |
| CheckAddonBranches.CheckForExistingAddon | kodi_addon_checker/check_addon_branches.py:22-51 | the check computes `ExistingAddonRun`, which uses the corrected ABI lookup of lines 69-70 (see Findings) |
| CheckAddonBranches.RecordBound | kodi_addon_checker/check_addon_branches.py:22-51 | at most one record per branch plus the closing one |
| CheckAddonBranches.NewAddonExactly | kodi_addon_checker/check_addon_branches.py:50-51 | without an exception, "This is a new addon" closes the report exactly when no branch cleared the flag |
| CheckAddonBranches.ClosingRecord | kodi_addon_checker/check_addon_branches.py:50-51 | the closing record is added exactly when no visit cleared the flag |
| CheckOldAddon.VersionRecords | kodi_addon_checker/check_old_addon.py:61-74 | the records of `_check_versions` follow its rule for the two versions |
| CheckOldAddon.CheckVersions | kodi_addon_checker/check_old_addon.py:49-74 | raises exactly when a version cannot be built; otherwise in `pr` mode a problem unless the submitted version is greater (then nothing), and outside it one record, a problem exactly when the submitted version is lower and an information else |
| CheckOldAddon.Stops | kodi_addon_checker/check_old_addon.py:33 | the loop stops at a branch exactly when it is at or below the target and holds the id; it raises only for a name that is no Kodi version or a repository without a catalog |
| CheckOldAddon.FirstHolder | kodi_addon_checker/check_old_addon.py:32-35 | the branch the search stops at is one of the items and holds the id |
| CheckOldAddon.FirstHolderIsFirst | kodi_addon_checker/check_old_addon.py:32-35 | every item before the one the search stops at does not hold the id |
| CheckOldAddon.FirstStop | kodi_addon_checker/check_old_addon.py:32-35 | the early-return loop: an item it returns is one of the items and is accepted by the test |
| CheckOldAddon.FirstStopAt | kodi_addon_checker/check_old_addon.py:32-35 | the position the loop returns at, with every earlier item tested and passed over |
| CheckOldAddon.NoHolder | kodi_addon_checker/check_old_addon.py:32-37 | a search without result and without exception passed only branches that do not hold the id |
| CheckOldAddon.HigherBranchPassed | kodi_addon_checker/check_old_addon.py:33 | a branch above the target is passed over, even one without a catalog (`and` short-circuits) |
| CheckOldAddon.OneRecord | kodi_addon_checker/check_old_addon.py:32-37 | at most one record; "This is a new addon" exactly when the search found no holder |
| CheckOldAddon.CheckForExistingAddon | kodi_addon_checker/check_old_addon.py:21-37 | the check computes `OldAddonRun` |
| AllowedVersions.ValidIffShaped | kodi_addon_checker/check_allowed_versions.py:23-24 | the pattern accepts exactly 2 to 6 dot-separated digit runs, then optionally a run of `[+~\w]`, then optionally `.digits`, then optionally one newline |
| AllowedVersions.ValidChars | kodi_addon_checker/check_allowed_versions.py:23-24 | an accepted version holds only digits, letters, `_`, `+`, `~`, `.` and a final newline, starts with a digit and has at least 3 characters |
| AllowedVersions.AcceptedExamples | tests/test_allowed_versions.py:6-15 | `1.0.1`, `1.0.1+matrix.1` and `1.0.1+matrix.2` are accepted |
| AllowedVersions.LocalVersionAccepted | kodi_addon_checker/check_allowed_versions.py:23 | `1.0.1+matrix.` followed by any digit run is accepted |
| AllowedVersions.RejectedExamples | tests/test_allowed_versions.py:18-23 | `someinvalidversion`, `2.3.0-backported-Leia`, the empty string and `1` are rejected |
| AllowedVersions.TrailingNewlineAccepted | kodi_addon_checker/check_allowed_versions.py:23 | `$` lets `1.0.0` with one trailing newline through |
| AllowedVersions.CheckVersion | kodi_addon_checker/check_allowed_versions.py:27-41 | a missing version gives the one "Missing version" problem; a present one gives nothing exactly when it is valid, and otherwise the one invalid-version problem naming it; at most one record, always a problem |
| AllowedVersions.DashReported | kodi_addon_checker/check_allowed_versions.py:38-41 | a version containing `-` is always reported as invalid |
| SchemaValidation.Reversed | kodi_addon_checker/schema_validation.py:128 | `xs[::-1]` has the same length and holds the elements back to front |
| SchemaValidation.EligibleInIsOlder | kodi_addon_checker/schema_validation.py:128-129 | in a list without repetitions the branches tried are the target first, then every older one newest first, and no newer one |
| SchemaValidation.EligibleInUnknown | kodi_addon_checker/schema_validation.py:129 | an unknown branch name raises `ValueError` |
| SchemaValidation.EligibleIsOlder | kodi_addon_checker/schema_validation.py:127-129 | for the release list: a known branch and those before it, newest first; `ValueError` for an unknown name |
| SchemaValidation.FirstExistingIsFirst | kodi_addon_checker/schema_validation.py:130-135 | `None` exactly when no tried branch has its schema file; otherwise an existing path of a branch before which none has one |
| SchemaValidation.CheckVersion | kodi_addon_checker/schema_validation.py:127-135 | the loop with its early return computes `SchemaFor` |
| SchemaValidation.RaisedStops | kodi_addon_checker/schema_validation.py:88-110 | an exception, once raised, ends the loop |
| SchemaValidation.VisitChild | kodi_addon_checker/schema_validation.py:89-110 | the loop body for one child computes `Visit` |
| SchemaValidation.ValidationChecks | kodi_addon_checker/schema_validation.py:44-112 | the loop over the children computes `Checks` |
| SchemaValidation.FoundSchemaExists | kodi_addon_checker/schema_validation.py:93-99 | a schema path `check_version` returns exists, so the "doesn't exist" branch is never taken |
| SchemaValidation.ValidSummary | kodi_addon_checker/schema_validation.py:88-112 | without an exception, `valid` survives the loop exactly when every extension element has a known point and a missing or passed schema |
| SchemaValidation.CountSummary | kodi_addon_checker/schema_validation.py:93-95 | without an exception, `metadatacount` counts the metadata elements whose schema was found |
| SchemaValidation.FailedSummary | kodi_addon_checker/schema_validation.py:101-103 | without an exception, `failed` lists the failing points in document order |
| SchemaValidation.VisitRecords | kodi_addon_checker/schema_validation.py:106-110 | an unknown point adds one problem and clears `valid`; a known point without a schema adds one problem and changes neither `valid` nor the count |
| SchemaValidation.ChecksRecords | kodi_addon_checker/schema_validation.py:88-110 | the loop only adds problems |
| SchemaValidation.Closing | kodi_addon_checker/schema_validation.py:31-41 | "Valid XML file found" exactly when the loop and the root both pass; "Metadata missing" exactly when the count is 0; the failed points exactly when not valid and some point failed |
| SchemaValidation.ValidExactly | kodi_addon_checker/schema_validation.py:23-41 | "Valid XML file found" is reported exactly when every extension element passes and so does the root that remains |
| CheckArtwork.Declared | kodi_addon_checker/check_artwork.py:91 | no more images than asset elements |
| CheckArtwork.DeclaredSelects | kodi_addon_checker/check_artwork.py:91 | an image is listed exactly when some asset element of that tag carries it |
| CheckArtwork.Assests | kodi_addon_checker/check_artwork.py:89-107 | the for-else computes `AssetsOf` |
| CheckArtwork.IconFallback | kodi_addon_checker/check_artwork.py:95-97 | no declared icon gives the fallback `icon.png` |
| CheckArtwork.FanartFallback | kodi_addon_checker/check_artwork.py:98-105 | no declared fanart gives nothing for module, metadata, context and language add-ons, and the fallback `fanart.jpg` otherwise |
| CheckArtwork.DeclaredVerbatim | kodi_addon_checker/check_artwork.py:91-107 | declared images are used as they are, in document order, and are no fallback; screenshots never have one |
| CheckArtwork.IconRules | kodi_addon_checker/check_artwork.py:110-127 | an icon gives one size record, last, information exactly for 256x256 and 512x512 and a problem otherwise; before it a transparency problem exactly when the icon has transparency |
| CheckArtwork.FanartRules | kodi_addon_checker/check_artwork.py:130-143 | fanart gives one record, information exactly for 1280x720, 1920x1080 and 3840x2160 and a problem otherwise |
| CheckArtwork.IconRecordsNotImage | kodi_addon_checker/check_artwork.py:117-127 | no icon record reads "Image ..." |
| CheckArtwork.FanartRecordsNotImage | kodi_addon_checker/check_artwork.py:139-143 | no fanart record reads "Image ..." |
| CheckArtwork.OpenRecordsNotImage | kodi_addon_checker/check_artwork.py:56-72 | the records after opening an icon or fanart never read "Image ..." |
| CheckArtwork.OpenRecordsLevels | kodi_addon_checker/check_artwork.py:56-72 | the records after opening an image are problems or information |
| CheckArtwork.FallbackMustBeDeclared | kodi_addon_checker/check_artwork.py:51-55 | an existing fallback icon or fanart is reported as existing, and as needing a declaration exactly when the branch is not gotham, helix, isengard or jarvis |
| CheckArtwork.MissingImages | kodi_addon_checker/check_artwork.py:47-86 | an empty tag gives only a warning, any other image no warning; a missing file is information for a fallback and a problem for a declared image |
| CheckArtwork.CheckImageType | kodi_addon_checker/check_artwork.py:42-86 | the loop over the images computes `ImageTypeRecords` |
| CheckArtwork.CheckImage | kodi_addon_checker/check_artwork.py:48-86 | one loop pass appends the image's records |
| CheckArtwork.ImageNamesAccepted | kodi_addon_checker/check_artwork.py:33 | `a.jpg`, `b.jpeg`, `c.png` with one final newline and `d.gif` match the pattern |
| CheckArtwork.ImageNamesRejectedAtStart | kodi_addon_checker/check_artwork.py:33 | the look-ahead rejects names starting with `icon.png` or `fanart.jpg`, `fanart.jpg.png` included |
| CheckArtwork.ImageNamesRejectedCase | kodi_addon_checker/check_artwork.py:33 | the extensions are case-sensitive: `e.PNG` and `g.txt` do not match |
| CheckArtwork.ImageNamesRejectedNewlines | kodi_addon_checker/check_artwork.py:33 | `$` lets one final newline through, not two |
| CheckArtwork.CorruptRecordsExactly | kodi_addon_checker/check_artwork.py:32-39 | the index scan gives exactly one problem per matching file that does not open, naming its relative path, and nothing else |
| CheckArtwork.ArtworkOrder | kodi_addon_checker/check_artwork.py:28-39 | icon first, then fanart, then screenshots, then the image files of the index |
| CheckArtwork.CheckArtwork | kodi_addon_checker/check_artwork.py:22-39 | the check computes `ArtworkRecords` |
| CheckArtwork.ScanIndex | kodi_addon_checker/check_artwork.py:32-39 | the loop over the index appends each entry's record |
| CheckArtwork.ScanEntry | kodi_addon_checker/check_artwork.py:33-39 | one loop pass appends the entry's record |
| HandleFiles.WalkStartsAtTop | kodi_addon_checker/handle_files.py:49 | the walk is top-down: the directory comes before everything below it |
| HandleFiles.PrunedWalkSkipsGit | kodi_addon_checker/handle_files.py:49-51 | removing ".git" from `folders` keeps the walk out of every ".git" directory |
| HandleFiles.PrunedFoldersSkipGit | kodi_addon_checker/handle_files.py:49-51 | the walk of the sub-directories left after the removal never enters ".git" |
| HandleFiles.GitWalkedUnpruned | kodi_addon_checker/handle_files.py:36 | without the removal a ".git" folder is walked like any other |
| HandleFiles.StepEntries | kodi_addon_checker/handle_files.py:52-53 | one entry per file of a walked directory, with that directory and the file's name |
| HandleFiles.CreateFileIndex | kodi_addon_checker/handle_files.py:42-54 | the loops build the entries of the pruned walk |
| HandleFiles.EntriesExactly | kodi_addon_checker/handle_files.py:49-53 | the index holds an entry exactly for each file of the walk, with the directory it was listed in |
| HandleFiles.EntryOrigin | kodi_addon_checker/handle_files.py:52-53 | the file of the walk an entry stands for |
| HandleFiles.EntryIn | kodi_addon_checker/handle_files.py:52-53 | every file of the walk has its entry |
| HandleFiles.EntriesCount | kodi_addon_checker/handle_files.py:49-53 | one entry per file of the walk |
| HandleFiles.SingleFileIndex | kodi_addon_checker/handle_files.py:42-54 | a directory with one file and no folder indexes as that file under the given path |
| HandleFiles.FindFilesRecursive | kodi_addon_checker/handle_files.py:31-39 | draining the generator yields `Found` for the unpruned walk |
| HandleFiles.StepFoundExactly | kodi_addon_checker/handle_files.py:37-39 | a directory yields exactly the joined paths of its files whose name contains the name |
| HandleFiles.FoundExactly | kodi_addon_checker/handle_files.py:36-39 | every file of the walk whose name contains the name is yielded, not only the first, and nothing else |
| HandleFiles.BothMatchesYielded | kodi_addon_checker/handle_files.py:36-39 | two matching files of one directory are both yielded, in listing order |
| HandleFiles.FindInFile | kodi_addon_checker/handle_files.py:57-79 | the nested loops compute `SearchResults` |
| HandleFiles.SearchStep | kodi_addon_checker/handle_files.py:66-78 | the loop over one directory's files appends their results |
| HandleFiles.SearchFile | kodi_addon_checker/handle_files.py:67-78 | one file, searched or skipped by the type filter, appends its results |
| HandleFiles.SearchLine | kodi_addon_checker/handle_files.py:74-77 | the loop over the terms appends one result per term the line contains |
| HandleFiles.LineHitsExactly | kodi_addon_checker/handle_files.py:74-77 | a line gives a result exactly for the terms it contains, with the stripped line and its number |
| HandleFiles.LineHitsInTermOrder | kodi_addon_checker/handle_files.py:74-77 | a line holding every term gives one result per term, in term order |
| HandleFiles.LineWithoutTerms | kodi_addon_checker/handle_files.py:74-77 | a line holding no term gives no result |
| HandleFiles.FileHitsExactly | kodi_addon_checker/handle_files.py:71-77 | each result of a file names a line by its 1-based number and carries it stripped, and every term a line contains gives one |
| HandleFiles.FileResultsExactly | kodi_addon_checker/handle_files.py:67-78 | a file contributes results exactly when the type filter lets it through |
| HandleFiles.StepHitsFrom | kodi_addon_checker/handle_files.py:66-78 | the results of a directory are those of its files |
| HandleFiles.StepHitOrigin | kodi_addon_checker/handle_files.py:66-78 | the file of a directory a result comes from |
| HandleFiles.WalkHitsFrom | kodi_addon_checker/handle_files.py:65-78 | the results of the walk are those of its files, each in the directory it was listed in |
| HandleFiles.WalkHitOrigin | kodi_addon_checker/handle_files.py:65-78 | the file of the walk a result comes from |
| HandleFiles.WalkHitIn | kodi_addon_checker/handle_files.py:65-78 | a result of one walked file is a result of the walk |
| HandleFiles.WalkHitsExactly | kodi_addon_checker/handle_files.py:65-78 | every result reports a line holding the term in a file the filter lets through, and every such occurrence gives a result |
| HandleFiles.SearchResultsExactly | kodi_addon_checker/handle_files.py:57-79 | no term gives no result at all; otherwise one result per term occurrence in a line of a walked file the whitelist lets through |
| HandleFiles.WhitelistFilters | kodi_addon_checker/handle_files.py:67 | an empty whitelist lets every file through, a non-empty one exactly the files whose suffix it lists |
| CheckFiles.ExtensionsAreWords | kodi_addon_checker/check_files.py:122-126 | no alternative of the whitelist is empty or starts with a dot |
| CheckFiles.FoldChar | kodi_addon_checker/check_files.py:132 | under `re.IGNORECASE` a character matches as itself or a lower-case ASCII letter, never as a capital; ASCII capitals match as their lower case |
| CheckFiles.FoldLower | kodi_addon_checker/check_files.py:132 | lower-casing a character first does not change what it matches |
| CheckFiles.Fold | kodi_addon_checker/check_files.py:132 | a text is folded character by character |
| CheckFiles.WordAfterDot | kodi_addon_checker/check_files.py:132 | an alternative matches right after the dot exactly when the characters there fold to it |
| CheckFiles.NoMatchWithoutDot | kodi_addon_checker/check_files.py:122-126 | skipping the optional `\.` never matches an ending |
| CheckFiles.MatchAfterDot | kodi_addon_checker/check_files.py:122-126 | a match after the dot means the rest is accepted |
| CheckFiles.ListedAfterDot | kodi_addon_checker/check_files.py:122-126 | an accepted rest makes the group and `$` match after the dot |
| CheckFiles.EndingAccepted | kodi_addon_checker/check_files.py:122-132 | the ending `.x` matches the whitelist pattern exactly when `x` folds to an empty or listed extension, possibly followed by one newline |
| CheckFiles.AcceptedIgnoresCase | kodi_addon_checker/check_files.py:132 | an ending is accepted exactly when its lower-case form is |
| CheckFiles.FoldLowerSame | kodi_addon_checker/check_files.py:132 | folding the lower-case form of a text gives the same text |
| CheckFiles.EndingAfterLastDot | kodi_addon_checker/check_files.py:129-131 | the ending is a dot and what follows the last dot of the name |
| CheckFiles.NoDotNoEnding | kodi_addon_checker/check_files.py:129-130 | a name without a dot has no ending |
| CheckFiles.CheckFileWhitelist | kodi_addon_checker/check_files.py:112-135 | the check computes `WhitelistRecords` |
| CheckFiles.CheckFileEnding | kodi_addon_checker/check_files.py:129-135 | one loop pass appends the file's records |
| CheckFiles.WhitelistVerdict | kodi_addon_checker/check_files.py:129-135 | a name ending in a dot and `x` is warned about, with its relative path, exactly when `x` is not accepted |
| CheckFiles.NoDotNoRecord | kodi_addon_checker/check_files.py:129-130 | a name without a dot adds nothing |
| CheckFiles.GitignoreNotListed | kodi_addon_checker/check_files.py:122-126 | `gitignore` is no alternative of the whitelist |
| CheckFiles.GitignoreWarned | tests/test_check_files.py:42-49 | a `.gitignore` file is warned about as non whitelisted |
| CheckFiles.EmptyEndingAccepted | kodi_addon_checker/check_files.py:122-132 | a name ending in a dot has the ending "." and is accepted |
| CheckFiles.EndingIgnoresCase | kodi_addon_checker/check_files.py:132 | a file passes exactly when the same name with a lower-case ending passes |
| CheckFiles.UpperCaseAccepted | kodi_addon_checker/check_files.py:132 | `icon.PNG` passes |
| CheckFiles.TrailingNewlineAccepted | kodi_addon_checker/check_files.py:122-132 | `$` also matches before a final newline, so `py` followed by a newline passes |
| CheckFiles.WhitelistRecordsExactly | kodi_addon_checker/check_files.py:128-135 | outside a module: exactly one warning per file whose ending is not whitelisted, and nothing else |
| CheckFiles.WhitelistInOrder | kodi_addon_checker/check_files.py:118-135 | the warnings follow the order of the index; in a module only the one notice |
| CheckFiles.MatchesFolderRecords | kodi_addon_checker/check_files.py:70-86 | one record: information exactly when the id equals the folder name or a mismatch is allowed, with the matching message, the advice naming the id, or the mismatch problem |
| CheckFiles.FolderNamedAfterId | kodi_addon_checker/check_files.py:78-79 | an add-on in a folder named after its id matches, written as a name, under a directory, or with a trailing `/` |
| CheckFiles.MissingIdNeverMatches | kodi_addon_checker/check_files.py:77-86 | a missing id never matches: a problem, or the advice naming "None" when a mismatch is allowed |
| CheckFiles.AddonXmlRecords | kodi_addon_checker/check_files.py:52-67 | "Not found addon.xml" first when the file is missing, then "Created by" the provider, then the folder-match record |
| CheckFiles.CheckLanguageDirectories | kodi_addon_checker/check_files.py:89-109 | the check computes `LanguageRun` |
| CheckFiles.CheckLanguageEntry | kodi_addon_checker/check_files.py:98-109 | one loop pass appends the sub-directory's records |
| CheckFiles.LanguageEntryExactly | kodi_addon_checker/check_files.py:99-109 | a sub-directory gets the problem of its layout exactly when `supported` rules that layout out |
| CheckFiles.LanguageRecordsExactly | kodi_addon_checker/check_files.py:95-109 | for a language directory nothing is raised; with `supported` each old-style sub-directory gets one problem, without it each new-style one, and nothing else |
| CheckFiles.LanguageStepsExactly | kodi_addon_checker/check_files.py:98-109 | the loop adds exactly the problems of the sub-directories in the wrong layout |
| CheckFiles.LanguageProblemOrigin | kodi_addon_checker/check_files.py:98-109 | each record of the loop is the problem of a sub-directory in the wrong layout |
| CheckFiles.LanguageProblemIn | kodi_addon_checker/check_files.py:98-109 | the problem of each sub-directory in the wrong layout is added |
| CheckFiles.EachDirectoryFlaggedOnce | kodi_addon_checker/check_files.py:99-109 | every sub-directory is reported under exactly one of the two settings of `supported` |
| CheckFiles.LanguageInOrder | kodi_addon_checker/check_files.py:96-109 | sub-directories are reported in listing order; without a language folder nothing is reported |

## Findings

| source | as written | input that shows it | evidently intended | confidence | as-written member | corrected member |
|---|---|---|---|---|---|---|
| kodi_addon_checker/check_dependencies.py:62 | `repo_addons.find(id).version < dependency.version` puts the entry's raw version string on the left of an `AddonVersion`. Python falls back to the reflected `AddonVersion.__gt__`, which raises `TypeError` | a catalog holding `script.module.six` 1.0.0 and an add-on importing it with `version="1.0.0"` | compare `AddonVersion(found.version)` with the declared minimum and report a version below it | not executed | CheckDependencies.CompareAsWritten (CheckDependencies.ComparisonAlwaysRaises, CheckDependencies.SatisfiedDependencyRaises) | CheckDependencies.CompareVersions (CheckDependencies.MinimumMet) |
| kodi_addon_checker/check_dependencies.py:71 | `LooseVersion(version) != dependency.version` compares objects of two unrelated classes, so it is always true | an import of `xbmc.python` with `version="2.26.0"` on leia | advise only when the declared version is not the advised one | not executed | CheckDependencies.LooseVersionDiffers (CheckDependencies.AdviceAlwaysFires, CheckDependencies.AdvisedVersionOnLeia) | CheckDependencies.VersionDiffers (CheckDependencies.AdvisedDifferentVersionOnLeia) |
| kodi_addon_checker/check_addon_branches.py:69-70 | `VERSION_ATTRB['xbmc.python'][upper_branch]["min_compatible"]` raises `KeyError` for matrix and later branches, and `TypeError` for the others, because their entries are version strings | a submission to leia when matrix holds the same id | a table of `min_compatible` versions per branch, compared for the two branches | not executed | CheckAddonBranches.IsPythonAbiCompatibleAsWritten (CheckAddonBranches.AbiLookupExamples) | CheckAddonBranches.IsPythonAbiCompatible |

## Left out

- `check_for_invalid_xml_files`, `check_for_invalid_json_files` (check_files.py:21-49): validity depends on the XML and JSON parsers of the standard library, which are not part of this model.
- `check_file_permission` (check_files.py:138-148): depends on `os.access` and the POSIX-only decorator.
- check_addon_xml's `except ET.ParseError` branch (check_files.py:64-65): nothing in the `try` block parses XML, so the branch cannot be reached and is not modelled.
- `find_file` and `addon_file_exists` (handle_files.py:18-28, 82-88): the `re.match` of a file name against the pattern `addon\.xml` is given as the boolean `addonXmlFound` of `CheckFiles.AddonXmlRecords`. The model does not list directories.
- `SchemaValidation.FoundSchemaExists`: the "%s doesn't exist" record (schema_validation.py:97-99) is proved unreachable, because `check_version` only returns paths that exist.
- The docstring of `find_files_recursive` says it returns only the first occurrence. The code yields every match, and `HandleFiles.FoundExactly` follows the code.
- The docstring of `check_file_whitelist` says `.gitignore` is ignored. The code warns about it (see the test at tests/test_check_files.py:42-49), and `CheckFiles.GitignoreWarned` follows the code.
- Reading files: the lines of a searched file are part of the directory tree value. Text decoding and `open` errors are not modelled.
- Images: `Image.open` and `im.size`/`mode`/alpha are the oracle `disk.open`, which returns a picture or `None` for an `IOError`.
- `CheckArtwork.FanartRecords`: `fanart_sizes_str` (check_artwork.py:137) is written out as the constant it evaluates to. The " or ".join is not computed.
- `Text.Lower` lowers ASCII letters only, which is where it is used for version strings and paths. The whitelist match folds the four further characters Python's `re.IGNORECASE` folds (`CheckFiles.FoldChar`).
- Versions: only the PEP 440 subset is modelled, and any other text is `InvalidVersion`. The subset is a release; an `a`/`alpha`/`b`/`beta`/`c`/`rc` pre-release right after it, whose number may follow one `-`, `_` or `.`; the implicit `-N` or the `.postN` post-release; and a `+` local label whose segments are separated by `.`, `-` or `_`. packaging's other forms are not modelled: epochs, a `v` prefix, surrounding whitespace, a separator before the pre-release letter or one after it with no number, `pre`/`preview`, `post`/`rev`/`r` without a leading `.`, a separator after `post`, and `.dev`. Non-ASCII characters that packaging's case-insensitive pattern lets match a Latin letter (such as `ſ` for `s`) are rejected too. The `InvalidVersion` outcomes (of `Repositories.Key`, `Repositories.Highest`, `CheckAddonBranches.BothVersions` and the like) are those of packaging 22 and later, whose `parse` raises; the source pins no packaging release, and earlier releases return a `LegacyVersion` that sorts below every PEP 440 version and raises nothing, which is not modelled.
- `CheckDependencies.LooseVersionDiffers`: `LooseVersion` comes from `distutils`. It is modelled only as far as it matters here: against an AddonVersion the `!=` reflects to `AddonVersion.__ne__`.
- Repository download: the HTTP session, retries, rate limiting and gzip decoding (Repository.py:21-70) are left out. The catalog that came back, or `None` for a failed request, is a parameter.
- `_get_addon_name` (check_addon_branches.py:54-60, check_old_addon.py:40-46): parsing addon.xml is left out. The id and version it reads are the `Submission` parameter.
- Logging calls (`LOGGER.info`, `LOGGER.warn`) and `print` in `_validate` are left out: they do not change the report.
- The command line, plugin loading, the console, log and array reporters' output, the git comments, and the checkers check_entrypoint, check_string, check_url, pylint_checks and check_py3_compatibility are not part of this model.
- The `KodiVersion` class in versions.py:52-86 is a copy of KodiVersion.py. It is modelled once, in `KodiVersions`.
- `HandleFiles.Walk`: `folders.remove(".git")` takes out only the first ".git" entry. Directory listings are modelled without repeated names, so a second ".git" cannot occur.
- `CheckArtwork.CheckImageType`: line 53 compares the branch name with the four old names as strings. The model keeps that string test and does not parse the name as a `KodiVersion`.
- `AllowedVersions.IsSuffixChar`: Python's `\w` and `\d` in a `str` pattern accept every Unicode letter and decimal digit; the model's classes are the ASCII letters and digits and `_`. A version with other letters or digits (`1.0.0+é`, Arabic-Indic digits) is rejected by the model where Python accepts it.
- `AllowedVersions.ValidIffShaped`: its "digit" and "`\w` character" are the ASCII ones of `AllowedVersions.IsSuffixChar` and `Text.IsDigit`, so it characterises the pattern on ASCII text only.
- `AllowedVersions.ValidChars`: "letters" and "digits" are ASCII letters and digits, for the same reason.
- `AllowedVersions.CheckVersion`: a version with non-ASCII letters or digits is reported as invalid, where Python's pattern accepts it, for the same reason.
- `CheckDependencies.CheckAddonDependencies`: the top-level run uses the corrected comparisons of check_dependencies.py:62 and :71 (`CompareVersions`, `VersionDiffers`). As written, line 62 raises `TypeError` for every found dependency that declares a minimum version; that behaviour is stated by `CheckDependencies.ComparisonAlwaysRaises` and not by the run.
- `CheckAddonBranches.UpperBranch`: the ABI test is the corrected lookup `IsPythonAbiCompatible` over the table parameter. As written, check_addon_branches.py:69-70 raises `KeyError` or `TypeError` for every higher branch that holds the id; that is stated by `CheckAddonBranches.AbiLookupExamples` and not by the visit.
- `CheckAddonBranches.CheckForExistingAddon`: runs the corrected ABI lookup as `UpperBranch` does, so the `TypeError` of the code as written does not occur in the run.
- `Record.add` (record.py:24-25) has the empty body `pass`: records are values here, and calling it changes nothing, so it has no member.
