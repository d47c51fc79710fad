# Game library scanner and cover manager, modelled in Dafny

This project models the two computational cores of a Windows game launcher:

- **The library scanner**, `buscar_juegos` in `core/scanner.py`. It walks a library folder and classifies every `.exe` it finds:
  - it excludes installers, updaters, redistributables and similar by name or by folder;
  - it groups the remaining executables by the first folder below the library root;
  - it picks one executable per group (`_best_exe_for_group`);
  - it adds the `.lnk` shortcuts lying in the root, deduplicated against the executables already chosen;
  - it sorts the entries by lower-cased display name.

  With `debug`, it also returns the list of skipped paths and the reasons for skipping them.
- **The cover manager**, `core/cover_manager.py`. It covers:
  - the sanitised file name under which a game's custom cover is stored (`_safe_name`);
  - the registered custom cover of a game (`get_custom_cover_path`);
  - a cover image found in the game's folder (`find_folder_cover`);
  - the best cover overall (`get_best_cover`);
  - the registration of a new custom cover in the settings (`set_custom_cover`).

The filesystem is an input: a `Paths.Disk` value holds the regular files, the directories, the directory listings, the file sizes and the shortcut targets. The directory walk is a sequence of `Scanner.WalkDir`, in the order `os.walk` reports it. The settings document is an in-memory map.

Pure logic (exclusion, executable choice, `_safe_name`, the cover priority chains) is written as functions. The loops are written as methods proved equal to those functions:

- the walk and grouping loop;
- the deduplication loop;
- the per-group emission loop;
- the shortcut loop;
- the two searches of `find_folder_cover`.

The settings update of `set_custom_cover` is a method of the class `Covers.CoverStore`, which owns the settings map and the set of files.

Where the documentation and the code disagree, the model follows the code. The scanner's docstring (`core/scanner.py:95`) says that executables directly in the root become individual entries. In the code they form one group keyed `None`, which yields a single entry, and the model does the same.

`_safe_name` does not return `"game"` exactly when the filtered and stripped name is empty, because the name `"game"` itself also gives `"game"`. The model proves both halves that do hold:

- `Covers.SafeNameOfBlank`: a blank filtered name gives `"game"`;
- `Covers.SafeNameGameOnlyFrom`: `"game"` comes only from a blank filtered name or from `"game"`.

Modules:

| file | module | contents |
|---|---|---|
| wrappers.dfy | `Wrappers` | `Option`, `Result` |
| text.dfy | `Text` | `str.lower`, `str.isspace`, `strip`, `startswith`, `endswith`, `in` |
| paths.dfy | `Paths` | `os.path.join`, `basename`, `dirname`, `splitext`, first component of `relpath`; `Disk` |
| exclusion.dfy | `Exclusion` | `_is_excluded_by_name`, `_is_excluded_by_folder` |
| exclusion_examples.dfy | `ExclusionExamples` | the filters on `UNINST.EXE`, `Updater.exe`, `setup.exe`, `mysetup.exe` |
| selection.dfy | `Selection` | `_best_exe_for_group` and its four rules |
| ordering.dfy | `Ordering` | the stable sort by string key |
| scanner.dfy | `Scanner` | `buscar_juegos`: specification folds and the imperative `Scan` |
| scanner_facts.dfy | `ScannerFacts` | what the scan result satisfies |
| covers.dfy | `Covers` | the cover manager |

## Model

| member | source | states |
|---|---|---|
| Exclusion.NameAlternatives | core/scanner.py:27-33 | a name filter match is a match of one of the 23 listed alternatives, `setup` only as a whole word |
| Exclusion.ExclusionIgnoresCase | core/scanner.py:39-46 | both filters give the same verdict on texts with the same lower-cased form (`re.IGNORECASE`) |
| Exclusion.FolderExclusionInContext | core/scanner.py:34-46 | the folder filter is unanchored: any path containing an excluded path is excluded |
| Exclusion.NameLiteralInContext | core/scanner.py:39-43 | a plain name alternative found in a name excludes every name containing it |
| Exclusion.NameMatchExcludes | core/scanner.py:42-43 | one matching alternative excludes a name |
| Exclusion.ContainsWordFromWitness | core/scanner.py:28 | a whole-word occurrence of `setup` has a position with non-word characters (or text ends) on both sides |
| ExclusionExamples.UninstallerExcluded | core/scanner.py:27-28 | `UNINST.EXE` is excluded by name although it is upper case |
| ExclusionExamples.UpdaterExcluded | core/scanner.py:29 | `Updater.exe` is excluded by name, through `updat` |
| ExclusionExamples.SetupWordExcluded | core/scanner.py:28 | `setup.exe` is excluded: `setup` stands between word boundaries |
| ExclusionExamples.MySetupHasNoSetupWord | core/scanner.py:28 | in `mysetup.exe`, `setup` is not a whole word |
| ExclusionExamples.MySetupNotExcluded | core/scanner.py:27-43 | `mysetup.exe` is not excluded by name at all |
| ExclusionExamples.NoNameAlternativeWithout | core/scanner.py:27-33 | a text without `a`, `n`, `r`, `d` and without the word `setup` matches no name alternative |
| Paths.Stem | core/scanner.py:64 | `splitext(...)[0]` is a nonempty prefix of a nonempty name: either the part before the last `.`, when that part is not all dots, or the whole name, which happens only when every `.` follows nothing but dots |
| Paths.StemCutsLastExtension | core/scanner.py:64 | only the last extension is cut: `game.bin.exe` has the stem `game.bin` |
| Paths.RelTopOfDirPath | core/scanner.py:107-111 | the first component of the relative path of a walked directory below the root is its first component |
| Paths.DirnameOfJoin | core/scanner.py:149 | the dirname of `join(d, name)` is `d` |
| Selection.TokensAreWords | core/scanner.py:69 | the folder words are nonempty and contain no whitespace, `_`, `-` or `.` |
| Selection.TokensOfWord | core/scanner.py:69 | a folder name with no delimiter is its own single word |
| Selection.TokensSplitAt | core/scanner.py:69 | splitting at one delimiter: the words of `a`, a delimiter, then `b` are the words of `a` followed by the words of `b` |
| Selection.FirstExact | core/scanner.py:63-66 | the index of the first stem equal to the folder name, every earlier stem being different |
| Selection.FirstSharing | core/scanner.py:70-74 | the index of the first stem containing a word of at least three characters, no earlier stem doing so |
| Selection.FirstLargest | core/scanner.py:82 | the index of the first candidate of maximal size (`max` keeps the first maximum) |
| Selection.BestExe | core/scanner.py:57-84 | the choice is None exactly for an empty list, otherwise an element of the list |
| Selection.ExactNameWins | core/scanner.py:60-66 | the first candidate whose lower-cased stem equals the lower-cased folder name is chosen, whatever follows |
| Selection.TokenMatchWins | core/scanner.py:68-74 | without an exact match, the first candidate sharing a folder word of length three or more is chosen |
| Selection.SingleCandidateChosen | core/scanner.py:76-78 | a single candidate is chosen |
| Selection.NoNameEvidence | core/scanner.py:76-84 | with two or more candidates and no name evidence, the choice is the first largest when every size is known, else the first candidate |
| Selection.LargestWins | core/scanner.py:80-82 | the first candidate of maximal size is chosen when all sizes are known |
| Selection.UnknownSizeChoosesFirst | core/scanner.py:81-84 | one unreadable size makes the first candidate the choice |
| Selection.UniqueExactMatchIgnoresOrder | core/scanner.py:62-66 | a unique exact match is chosen whatever order the candidates come in |
| Ordering.LexLeTotal | core/scanner.py:200 | string comparison is total |
| Ordering.LexLeTransitive | core/scanner.py:200 | string comparison is transitive |
| Ordering.LexLeAntisymmetric | core/scanner.py:200 | string comparison is antisymmetric |
| Ordering.SortBySorted | core/scanner.py:200 | the sorted list is ordered by key |
| Ordering.SortByPermutes | core/scanner.py:200 | the sorted list is a permutation of the input |
| Ordering.SortByStable | core/scanner.py:200 | elements of equal key keep their input order |
| Ordering.SortByKeepsPairwise | core/scanner.py:200 | sorting keeps any symmetric relation that holds between all pairs |
| Scanner.Dedup | core/scanner.py:129-133 | the deduplicated group has the same elements and no repeats |
| Scanner.DedupKeepsFirstOrder | core/scanner.py:129-133 | the deduplicated group lists the paths in the order of their first occurrences |
| Scanner.DedupOfDistinct | core/scanner.py:129-133 | a group without repeats is left as it is |
| Scanner.AddFile | core/scanner.py:112-124 | one file's step of the walk loop equals the specification fold |
| Scanner.AddDir | core/scanner.py:112-124 | the loop over one directory's files equals the specification fold |
| Scanner.GroupFiles | core/scanner.py:105-124 | the walk loop builds the grouping and the skipped list of the specification |
| Scanner.Unique | core/scanner.py:129-133 | the deduplication loop computes `Dedup` |
| Scanner.EmitOne | core/scanner.py:134-152 | one group's emission equals the specification step |
| Scanner.EmitAll | core/scanner.py:127-152 | the group loop yields the specification's games, skipped list and chosen set |
| Scanner.EmitNext | core/scanner.py:127-152 | one iteration of the group loop takes the state after the first n groups to the state after n + 1 |
| Scanner.AddLinks | core/scanner.py:159-195 | the shortcut loop equals the specification fold |
| Scanner.Scan | core/scanner.py:86-204 | the result is the specification's sorted games, with the skipped list exactly when `debug` is set |
| Scanner.LinkName | core/scanner.py:174-175 | a shortcut whose target lies outside the root is named after the target's stem |
| ScannerFacts.KeysInOrderFacts | core/scanner.py:124 | group keys are listed once each, exactly the keys that received an executable |
| ScannerFacts.GroupPartitions | core/scanner.py:105-124 | the skipped list is every excluded `.exe` in walk order; a group holds exactly the admitted executables of its key, in walk order |
| ScannerFacts.WalkFilesClassified | core/scanner.py:112-124 | a walked `.exe` the name filter excludes is skipped as `excluded_by_name`; else one in an excluded folder is skipped as `excluded_by_folder`; else it is in the group of its directory's key |
| ScannerFacts.GroupSkipsFromWalk | core/scanner.py:112-122 | every skip of the walk is a walked `.exe` that a filter excludes, marked `excluded_by_name` exactly when the name filter excludes it and `excluded_by_folder` otherwise, so no skip comes from a non-`.exe` file |
| ScannerFacts.SkippedExactly | core/scanner.py:112-122 | a skip is in the walk's skipped list exactly when it records a walked `.exe` that a filter excludes, with the reason of the first filter that does |
| ScannerFacts.GroupMembersAdmitted | core/scanner.py:112-124 | every group member is a walked `.exe` passing both filters |
| ScannerFacts.GroupsHoldAdmitted | core/scanner.py:105-124 | under a well-formed walk, a path is a walked `.exe` passing both filters exactly when it is in the group of the key read off its path |
| ScannerFacts.GroupKeysDistinct | core/scanner.py:124-127 | groups are visited once each and none is empty |
| ScannerFacts.ChosenInGroup | core/scanner.py:129-135 | a group's choice exists exactly when the group is nonempty and is one of its executables |
| ScannerFacts.OneGamePerGroup | core/scanner.py:127-152 | each nonempty group adds exactly one entry, not a shortcut, and no skip |
| ScannerFacts.KeyOfRootFile | core/scanner.py:108-109 | a file in the root has no group key |
| ScannerFacts.KeyOfNestedFile | core/scanner.py:110-111 | a file below the root has the first folder below the root as its key |
| ScannerFacts.DirKey | core/scanner.py:107-111 | a walked directory's key is its first component, None for the root |
| ScannerFacts.EventsKeyed | core/scanner.py:105-124 | every admitted executable is grouped under the key read off its own path |
| ScannerFacts.GroupMembersKeyed | core/scanner.py:124 | every group member's path lies under its group's folder, and a folder key is a nonempty name |
| ScannerFacts.GroupKeysNamed | core/scanner.py:107-111 | a folder group's key is a nonempty name |
| ScannerFacts.ScanTargetsDistinct | core/scanner.py:138-183 | no two entries resolve to the same executable |
| ScannerFacts.ScanGamesAdmitted | core/scanner.py:112-152 | every entry that is not a shortcut is a walked `.exe` passing both filters, with `folder` its dirname and `resolved_path` its path |
| ScannerFacts.ScanGamesChosen | core/scanner.py:127-152 | every entry that is not a shortcut is `_best_exe_for_group` of its deduplicated group, named after the group's folder, or after its stem for the root group |
| ScannerFacts.ExcludedRootLeavesShortcuts | core/scanner.py:120-122 | when the root itself matches the folder filter, only shortcuts remain |
| ScannerFacts.LinkStepFacts | core/scanner.py:162-195 | one shortcut step only appends and keeps the chosen set exact; an unresolved shortcut becomes an entry with no target, named after the shortcut, in the root's folder of that name or else the root; one to an excluded exe is skipped as `lnk_points_to_excluded_exe`; any other leaves an entry resolving to its target |
| ScannerFacts.LinkPassAccounts | core/scanner.py:159-195 | after the shortcut loop, every `.lnk` of the listing has the outcome of one step |
| ScannerFacts.ShortcutsAccounted | core/scanner.py:159-200 | in the sorted result, every root `.lnk` has its outcome: an unresolved one is its own entry, one to an excluded exe is skipped, any other has an entry resolving to its target |
| ScannerFacts.AdmittedNameNotExcluded | core/scanner.py:117-119 | an admitted executable passes the name filter |
| ScannerFacts.ScanLinksSound | core/scanner.py:159-195 | no entry resolves to an exe the name filter excludes; every shortcut entry comes from a root `.lnk` when shortcuts are asked for, with the folder of its target, or with no target, the shortcut's name and the folder of that name or the root |
| ScannerFacts.ExcludedTargetNotListed | core/scanner.py:165-168 | a shortcut to an exe the name filter excludes never becomes an entry |
| ScannerFacts.GamesPerGroup | core/scanner.py:127-152 | the group pass yields one entry per group keyed by an admitted executable |
| ScannerFacts.ScanResultOrdered | core/scanner.py:200 | the result is sorted by lower-cased name, a permutation of the collected entries, stable among equal names |
| ScannerFacts.LinkNameBelowRoot | core/scanner.py:174-175 | a shortcut to an executable below the root is named after its top-level folder |
| ScannerFacts.OutsideTargetNamedDots | core/scanner.py:174-175 | under `D:\Games`, a shortcut to `D:\Apps\game.exe` is named `..` as written and `game` when corrected |
| Text.Strip | core/cover_manager.py:32 | the stripped text neither starts nor ends with whitespace |
| Covers.KeepValid | core/cover_manager.py:31-32 | a character is in the filtered name exactly when it is in the name and is not one of `<>:"/\|?*`, newline, CR and tab |
| Covers.KeepValidConcat | core/cover_manager.py:31-32 | filtering works character by character in order: the filtered concatenation is the concatenation of the filtered parts |
| Covers.KeepValidChar | core/cover_manager.py:31-32 | one character is dropped exactly when it is invalid |
| Covers.ReplaceSpaces | core/cover_manager.py:33 | each space becomes `_`, every other character stays |
| Covers.GameIsSafe | core/cover_manager.py:34-35 | the fallback `game` is itself a safe name |
| Covers.SafeNameIsSafe | core/cover_manager.py:29-36 | the safe name has no invalid character and no space, is nonempty, and neither starts nor ends with whitespace |
| Covers.SafeNameOfBlank | core/cover_manager.py:32-35 | a name that filters and strips to nothing becomes `game` |
| Covers.SafeNameGameOnlyFrom | core/cover_manager.py:32-36 | `game` comes only from a name that filters and strips to nothing or to `game` |
| Covers.SafeNameIdempotent | core/cover_manager.py:29-36 | the safe name of a safe name is itself |
| Covers.CoverFile | core/cover_manager.py:59-60 | the stored cover is a nonempty `.png` path |
| Covers.CustomCoverPath | core/cover_manager.py:38-48 | a found custom cover is an existing nonempty file; the lookup fails exactly when `custom_covers` is not an object |
| Covers.RegisteredCoverWins | core/cover_manager.py:40-43 | a registered cover that exists is returned |
| Covers.StoredCoverFallback | core/cover_manager.py:44-48 | otherwise `covers/<safe>.png` is returned when it exists, else None |
| Covers.FirstExisting | core/cover_manager.py:88-91 | the index of the first fixed name present in the folder, no earlier one being present |
| Covers.FirstImage | core/cover_manager.py:93-95 | the index of the first listed `.jpg`/`.png` name, case-insensitively, no earlier one qualifying |
| Covers.FolderCover | core/cover_manager.py:80-96 | None for a non-directory; a failed listing only for a directory; a found cover lies in the folder |
| Covers.NoFolderCover | core/cover_manager.py:87-96 | a listable folder with none of the fixed names and no listed image has no cover |
| Covers.FindExisting | core/cover_manager.py:88-91 | the early-return loop over the fixed names computes `FirstExisting` |
| Covers.FindImage | core/cover_manager.py:93-95 | the early-return loop over the listing computes `FirstImage` |
| Covers.FindFolderCover | core/cover_manager.py:80-96 | the search returns exactly `FolderCover` |
| Covers.FixedNameOrder | core/cover_manager.py:87-91 | the first fixed name present in a directory is its cover |
| Covers.ListedImageFallback | core/cover_manager.py:92-95 | without a fixed name, the first listed image is the cover |
| Covers.BestCover | core/cover_manager.py:98-111 | a best cover is always a path, never None |
| Covers.CustomCoverFirst | core/cover_manager.py:105-107 | a custom cover is the best cover |
| Covers.FolderCoverSecond | core/cover_manager.py:108-110 | without one, the folder's cover is |
| Covers.DefaultCoverLast | core/cover_manager.py:111 | without either, `assets/default_cover.png` is |
| Covers.WithCustomCoverScope | core/cover_manager.py:73-76 | registering fails exactly when `custom_covers` is not an object, and leaves all other settings and other games' covers unchanged |
| Covers.WithCustomCoverSteps | core/cover_manager.py:73-76 | the update is the `setdefault` of an empty object followed by the key assignment, which fails on a non-object |
| Covers.RegisteredCoverFound | core/cover_manager.py:59-78 | once saved and registered, the cover is what the custom cover lookup returns |
| Covers.WithCustomCoverIdempotent | core/cover_manager.py:73-77 | registering the same cover twice is registering it once |
| Covers.CoverStore.SetCustomCover | core/cover_manager.py:50-78 | a missing source fails and changes nothing; otherwise the cover file is written and registered and its path returned, and the lookup then finds it |

## Left out

- File I/O is not modelled. This covers the PIL conversion and thumbnailing, the `shutil.copy2` fallback, the reading and writing of `settings.json`, and the `os.makedirs` calls at import.
  - Writing the cover is modelled only as the destination joining the set of files.
  - The settings document is the map `_load_settings` would return. A settings file that fails to parse, which loads as `{}`, and a document whose root is not an object are outside the model.
- The base directory, derived from `__file__` and made absolute, is a parameter.
- The filesystem is an input (`Paths.Disk`). The order of `os.walk` and `os.listdir` is taken as given, and so are the files, directories, sizes and shortcut targets.
  - `_resolve_lnk` is a pywin32 COM call. It is modelled as a map from shortcut paths to targets.
- The model does not normalise paths.
  - `os.path.abspath` is the identity.
  - Paths are compared as exact strings: drive letters, UNC prefixes, `/` as an alternative separator and case-insensitive Windows paths are not modelled.
- `Text.Lower`: lower-casing covers ASCII and the Latin-1 capitals only.
  - `Text.IsWordChar` likewise recognises word characters for `\b` only in ASCII and Latin-1.
- Scanner.Scan: an exception raised in the middle of the shortcut loop is not modelled. On Windows, `relpath` raises for a target on another drive, and the source then silently abandons the remaining shortcuts. Only a root listing that fails is modelled, as "no shortcuts".
- Scanner.LinkName: the display name of a shortcut whose target lies outside the root is the target's stem, not the `..` the source computes. See Findings; `Scanner.LinkNameAsWritten` keeps the code as written.
- Covers.CustomCoverPath: a registered value that is not a string is treated as not registered.
- ScannerFacts.ScanTargetsDistinct assumes a well-formed walk, as `os.walk` produces. Every walked directory's components are nonempty names without separators, the first is not `.`, and file names contain no separator. `ScannerFacts.GroupMembersKeyed`, `ScannerFacts.EventsKeyed`, `ScannerFacts.GroupKeysNamed`, `ScannerFacts.GroupsHoldAdmitted`, `ScannerFacts.ScanGamesChosen`, `ScannerFacts.AdmittedNameNotExcluded`, `ScannerFacts.ScanLinksSound` and `ScannerFacts.ExcludedTargetNotListed` make the same assumption.
- Covers.SafeNameGameOnlyFrom: this is weaker than an if-and-only-if, because the name `game` also gives `game`.

## Findings

| source | as written | input that shows it | evidently intended | confidence | as-written member | corrected member |
|---|---|---|---|---|---|---|
| core/scanner.py:174-175 | a resolved shortcut is named after the first component of the target folder's path relative to the root, which is `..` for any target outside the root | root `D:\Games`, shortcut to `D:\Apps\game.exe`: display name `..` | the executable's stem (`game`), as for a target directly in the root | medium, not executed | Scanner.LinkNameAsWritten, ScannerFacts.OutsideTargetNamedDots | Scanner.LinkName, ScannerFacts.LinkNameBelowRoot |
