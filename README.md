# dotsctl install engine, modelled in Dafny

`dotsctl.py` installs dotfiles described by metadata embedded in the files
themselves. A source file carries a block that starts after a line containing
`:dotsctl:` and ends at a line `...`. The block is YAML naming what to install:
`mkdir` (directories), `symlink` (a mapping of link path to target), `dest` or
`destdir` (where to link the file itself), `strip_extension` and `dpkg`.

This project models the engine behind the `install` and `packages_list`
subcommands, as four layers:

- `Scanner` (`scanner.dfy`) models `_source_load`. It searches the first 30 lines
  for the marker. Then it collects the block with the marker's column cut off
  each line and trailing whitespace stripped, and hands the block to the YAML
  loader. The loader is a parameter `parse`.
- `Reconciler` (`reconciler.dfy`) models `install_mkdir`, `install_symlink_one`
  and `install_symlink`:
  - The filesystem is a class `FileSystem` over a map from path to the entry
    `lstat` reports (`Dir`, `File`, `Symlink(target)`, `Other`).
  - The class also holds the verbose log (MKDIR and SYMLINK events) and the
    "will not overwrite regular file" warnings.
  - Each install step is a method over a `FileSystem`. Its postcondition equates
    the new state and outcome with a function of the old state.
  - `ReconcilerFacts` (`reconciler_facts.dfy`) proves what those functions
    guarantee.
- `Planner` (`planner.dfy`) models `install_one`. It runs the mkdir step, then
  the symlink mapping, then derives `dest` from `destdir`, then makes the link
  for `dest`, stripping the extension when wanted.
- `Sources` (`sources.dfy`) models `sources_foreach`, which gathers metadata from
  every file under the configured roots and sorts it by path. `Commands`
  (`commands.dfy`) builds `install` and `packages_list` on top of it. `Ordering`
  (`ordering.dfy`) models Python's string order, `sorted`, and the facts needed
  about them.

`Paths` (`paths.dfy`) writes out `os.path.basename`, `dirname`, `join` and
`splitext` for POSIX paths. `expanduser`, `abspath` and `relpath` are
uninterpreted: they are function-valued fields of a `PathOps` parameter.

The model follows dotsctl.py as written:

- `destdir` replaces `dest`; it is not combined with it.
- `destdir` is a single string.
- Nested `dotsctl` units and package-install actions do not exist in the code,
  so they are not modelled.
- An existing directory named by `mkdir` is skipped silently.

## Model

| member | source | states |
|---|---|---|
| Scanner.IndexOf | dotsctl.py:82 | `str.index`: the column returned holds the marker and no earlier column does; no result means the marker occurs nowhere |
| Scanner.RStripSpec | dotsctl.py:93 | `rstrip()` keeps a prefix that does not end in whitespace and drops only whitespace |
| Scanner.SourceLoad | dotsctl.py:62-99 | the two loops of `_source_load` compute `Load`: no header gives "no metadata", a broken block gives its error, and otherwise the loader's result |
| Scanner.HeaderIsFirstMarkerLine | dotsctl.py:72-85 | the header is found at line h with indent c exactly when h is within the first 30 lines, all earlier lines decode and lack the marker, and c is the first occurrence of `:dotsctl:` on line h |
| Scanner.NoHeaderWithoutMarker | dotsctl.py:72-89 | "no metadata" is returned exactly when no line qualifies as the header: no marker in the first page before an undecodable line |
| Scanner.HeaderReadsFirstPage | dotsctl.py:64-72 | the header search depends only on the first 30 lines: two files that agree there get the same header |
| Scanner.CollectIsBlock | dotsctl.py:91-96 | the collected lines are exactly the following input lines, each with `indent` characters dropped and right-stripped, ending with and including the first `...` |
| Scanner.CollectUnterminated | dotsctl.py:92-96 | collection reports an unterminated block exactly when every line to the end of the file decodes and none strips to `...` |
| Scanner.CollectAsWrittenHangs | dotsctl.py:92-96 | the loop as written, with no `...` after the header, is still running after any number of lines |
| Scanner.CollectAsWrittenAgrees | dotsctl.py:92-96 | in every other case the loop as written ends within the file with the same result as the corrected collection |
| Scanner.ScanFindsBlock | dotsctl.py:82-96 | a block is found exactly when a header line exists and the block (without the marker line) follows it |
| Paths.Basename | dotsctl.py:187 | the base name is a suffix of the path containing no `/` |
| Paths.BasenameAfterSlash | dotsctl.py:187 | the base name is the whole path or starts right after a `/`, so it runs from the last slash |
| Paths.Dirname | dotsctl.py:134 | the directory part is a prefix of the path, strictly shorter when the base name is not empty; it is empty for a path without `/`; it ends in a slash only when it is all slashes |
| Paths.DirnameSlashes | dotsctl.py:134 | the directory part ends at or before the start of the base name with only slashes in between; it is non-empty whenever the path has a `/`; when it is all slashes (the root) it reaches the base name; with `Dirname`'s contract this fixes `dirname` |
| Paths.SplitExt | dotsctl.py:192 | root and extension concatenate to the path; the extension is empty or a dot followed by no `/` and no further dot; it is non-empty exactly when some dot of the base name follows a character other than a dot |
| Paths.JoinBasename | dotsctl.py:185-188 | joining a directory with a name and taking the base name gives the name back |
| Paths.SplitExtOfName | dotsctl.py:192 | `dir/stem.ext` splits into `dir/stem` and `.ext` when the stem is not all dots |
| Paths.DirnameOfName | dotsctl.py:207 | the directory of `dir/name` is `dir`, for a non-empty `dir` without a trailing `/` and a `name` without `/` |
| Reconciler.FileSystem.IsDirectory | dotsctl.py:124 | `os.path.isdir` follows symlinks (up to 40) and reports a directory at the end of the chain |
| Reconciler.FileSystem.Lstat | dotsctl.py:137-140 | `lstat` reports the entry itself, or that there is none |
| Reconciler.FileSystem.MakeDirectories | dotsctl.py:128 | `os.makedirs(exist_ok=True)` changes the entries as `MakeDirs` says and nothing else |
| Reconciler.FileSystem.Unlink | dotsctl.py:157 | removes exactly the entry at the path |
| Reconciler.FileSystem.CreateSymlink | dotsctl.py:160 | adds exactly a symlink with the given target at a free path |
| Reconciler.FileSystem.Log | dotsctl.py:105-109 | appends one event to the log and changes nothing else |
| Reconciler.FileSystem.Warn | dotsctl.py:146 | appends one warning and changes nothing else |
| Reconciler.InstallMkdirPath | dotsctl.py:123-129 | one expanded path: left alone when already a directory, otherwise MKDIR logged and `makedirs` run |
| Reconciler.InstallMkdir | dotsctl.py:112-129 | the recursive walk over strings and nested lists changes the filesystem and log as `MkdirValue` of the old state |
| Reconciler.MkdirItemsFailed | dotsctl.py:115-118 | an exception on one list element ends the whole list |
| Reconciler.InstallLink | dotsctl.py:137-160 | the check-then-act on the `lstat` result changes the state as `LinkStep` |
| Reconciler.InstallSymlinkOne | dotsctl.py:132-160 | the parent directory step, then the link step, as `SymlinkOne` of the old state |
| Reconciler.InstallSymlink | dotsctl.py:163-167 | each pair in mapping order, link path expanded, as `SymlinkPairs` of the old state |
| Reconciler.SymlinkPairsFailed | dotsctl.py:165-167 | an exception on one pair ends the mapping |
| ReconcilerFacts.StatExtends | dotsctl.py:124 | where `stat` resolves a path, adding directories does not change the answer |
| ReconcilerFacts.StatAvoids | dotsctl.py:157-160 | replacing the entry at a path nothing links to does not change how other paths resolve |
| ReconcilerFacts.MakeDirsSpec | dotsctl.py:128 | `makedirs` keeps every existing entry, adds only directories, and on success leaves a directory at the path |
| ReconcilerFacts.MkdirPathEffect | dotsctl.py:123-128 | an existing directory: no change and nothing logged; otherwise exactly MKDIR logged; no warnings; a directory there on success |
| ReconcilerFacts.MkdirValueOnlyDirs | dotsctl.py:112-129 | whatever its argument, `install_mkdir` only adds directories and logs only MKDIR events |
| ReconcilerFacts.MkdirValueFlattens | dotsctl.py:115-121 | `install_mkdir` equals flattening the nested list into strings in order, creating each, and raising "Bad mkdirs metadata" at the first leaf that is neither a string nor a list |
| ReconcilerFacts.MkdirPathsMakeDirs | dotsctl.py:123-128 | after successful creation every named (expanded) path is a directory |
| ReconcilerFacts.MkdirPathsExisting | dotsctl.py:124-125 | paths that are all directories already change nothing and log nothing |
| ReconcilerFacts.MkdirValueIdempotent | dotsctl.py:112-129 | a second identical `install_mkdir` after a successful one changes nothing and logs nothing |
| ReconcilerFacts.SymlinkOneRefusesFile | dotsctl.py:144-147 | a regular file at the link path stays; no SYMLINK is logged; a warning names the path |
| ReconcilerFacts.SymlinkOneRejectsOther | dotsctl.py:153-155 | a directory or other entry at the link path stays, nothing beyond the parent step happens, and "Unknown existing file type" is raised |
| ReconcilerFacts.SymlinkOneInstalls | dotsctl.py:144-160 | otherwise success leaves exactly `Symlink(target)` at the link path, logs SYMLINK only when the entry was absent or pointed elsewhere, keeps all other entries, adds only directories |
| ReconcilerFacts.LinkStepInstalls | dotsctl.py:137-160 | with the parent in place, a successful link step replaces only the link path's entry and logs only a change |
| ReconcilerFacts.SymlinkOneIdempotent | dotsctl.py:148-152 | a second identical `install_symlink_one` succeeds and changes neither the filesystem nor the log |
| ReconcilerFacts.SymlinkOneAppends | dotsctl.py:132-160 | the log and the warnings are only appended to |
| ReconcilerFacts.SymlinkPairsAppends | dotsctl.py:163-167 | the same for a whole symlink mapping |
| Planner.EffectiveDest | dotsctl.py:183-188 | with `destdir` the destination is `destdir` followed by the installed file's base name, with a `/` added between them exactly when `destdir` is not empty and does not already end in `/`; without it, `dest` is used as given |
| Planner.DestdirOverridesDest | dotsctl.py:183-188 | with `destdir`, any `dest` value is ignored |
| Planner.LinkFor | dotsctl.py:190-209 | the link path is the expanded dest less exactly its `splitext` extension when stripping is wanted (`strip_extension`, else the extension is `.py`) and less nothing otherwise; the target is `relpath(abspath(filename), dirname(link))` |
| Planner.PythonLinkStripped | dotsctl.py:199-205 | a `.py` dest with no `strip_extension` key is linked without `.py`, the target relative to its directory |
| Planner.OtherLinkKept | dotsctl.py:199-205 | any other extension is kept when `strip_extension` is absent or false |
| Planner.ExplicitStripDropped | dotsctl.py:203-205 | `strip_extension: true` drops any one-dot extension of `dir/stem.ext` |
| Planner.HiddenNameKept | dotsctl.py:192-205 | even with `strip_extension: true`, a hidden name such as `dir/.bashrc` is kept whole, since it has no extension |
| Planner.ExplicitNoStripKept | dotsctl.py:203-205 | `strip_extension: false` keeps even `.py` |
| Planner.InstallOne | dotsctl.py:170-215 | `install_one` changes the state as `InstallOneSpec`: mkdir, symlink mapping, destdir, dest link, stopping at the first exception |
| Planner.InstallOneOrder | dotsctl.py:176-215 | the mkdir step comes first and adds only directories and MKDIR events; the symlink mapping follows, and a failure there ends `install_one` before the dest link; the dest link's records follow the mapping's; a mkdir failure ends `install_one`; records are only appended |
| Planner.InstallOneRelinksTwice | dotsctl.py:170-215 | a run is not idempotent when the symlink mapping and `dest` name the same link path with different targets: with the parent a directory and the path missing, a first `install_one` passes and logs two SYMLINK events, and a second identical call passes, leaves the same entries and logs two more (for example `symlink {/h/x: a}` with `dest /h/x` under an existing `/h`) |
| Planner.SharedLinkRun | dotsctl.py:170-215 | from any state where the parent is a directory and the path is missing or already links to the file, such a run passes, leaves the path linked to the file, keeps the warnings and logs exactly two SYMLINK events for it |
| Planner.InstallOneThroughDest | dotsctl.py:176-215 | when the mkdir step and the symlink mapping pass and there is a destination, `install_one` ends with exactly the `install_symlink_one` call for that destination's link |
| Planner.DestOnly | dotsctl.py:190-215 | metadata with only `dest` makes exactly one `install_symlink_one` call |
| Planner.LinkIntoNewDir | dotsctl.py:132-160 | linking into a missing directory whose parent exists creates that directory, then the link, logged as MKDIR then SYMLINK |
| Planner.MkdirUnderDir | dotsctl.py:123-128 | a missing directory under an existing one is created alone and logged |
| Planner.MakeDirsUnderDir | dotsctl.py:128 | `makedirs` of a path whose parent is a directory creates just that path |
| Planner.PythonToolScenario | dotsctl.py:170-215 | a file whose only key is `dest: dir/tool.py`, with `dir` missing: exactly `dir` and the link `dir/tool` are added, logged as MKDIR then SYMLINK |
| Ordering.BelowIrreflexive | dotsctl.py:251 | Python's string `<` is irreflexive |
| Ordering.BelowTransitive | dotsctl.py:251 | it is transitive |
| Ordering.BelowTotal | dotsctl.py:251 | any two different strings are ordered |
| Ordering.BelowAsymmetric | dotsctl.py:251 | it is asymmetric |
| Ordering.Insert | dotsctl.py:251 | inserting into an ascending sequence keeps it ascending and adds exactly one element |
| Ordering.SortBy | dotsctl.py:251 | `sorted`: the result is ascending by key and a permutation of the input |
| Ordering.AscendingDistinct | dotsctl.py:251 | ascending with distinct keys means strictly ascending |
| Ordering.IncreasingUnique | dotsctl.py:326 | two strictly increasing orderings of the same elements are equal, so the sorted output is determined by the set |
| Ordering.PermutationNoDuplicates | dotsctl.py:318-326 | a permutation of a duplicate-free sequence is duplicate-free |
| Ordering.SortIncreasing | dotsctl.py:326 | sorting a set's elements gives a strictly increasing list |
| Sources.Dedup | dotsctl.py:223-225 | the `pathname` roots, as dictionary keys, lose duplicates and keep every name |
| Sources.PathnameSources | dotsctl.py:223-225 | the loop filling `sources` from `pathname` computes `Dedup` |
| Sources.RecordOne | dotsctl.py:230-236 | one file: no metadata is skipped, a path already gathered raises "Multiple source loads", else its metadata is recorded |
| Sources.RecordGlobbed | dotsctl.py:240-248 | the loop over a root's glob results records each regular file in turn |
| Sources.RecordAll | dotsctl.py:229-248 | the loop over the roots: a root that is a file is recorded, any other is globbed |
| Sources.SourcesForeach | dotsctl.py:218-253 | roots from `pathname` or the configuration, gathered, then sorted by path |
| Sources.RecordFilesFailed | dotsctl.py:229-248 | an exception while gathering ends gathering |
| Sources.RecordFilesSpec | dotsctl.py:229-248 | gathering succeeds exactly when every visited file loads and no file with metadata is visited twice; then each entry is a file with its own metadata, paths are distinct, and the paths are exactly the files with metadata |
| Sources.RecordSourcesReach | dotsctl.py:229-248 | gathering over the roots is gathering over the files the roots reach, in order |
| Sources.SortedRegistry | dotsctl.py:250-252 | sorting keeps every entry and its metadata, and yields strictly ascending paths |
| Sources.CollectedSpec | dotsctl.py:218-253 | the result is Ok exactly when gathering is clean; then the paths are strictly ascending, each with its own file's metadata, and they are exactly the reached files with metadata |
| Commands.Install | dotsctl.py:289-292 | `install` applies `install_one` to every gathered file in sorted order, stopping at the first exception |
| Commands.InstallAllStep | dotsctl.py:251-252 | each further file is installed by `install_one` from the state the earlier files left |
| Commands.InstallAllFailed | dotsctl.py:251-252 | an exception in one `install_one` call ends the run |
| Commands.InstallAllAppends | dotsctl.py:251-252 | across all files, log and warnings are only appended to |
| Commands.InstallGathersFirst | dotsctl.py:229-253 | when gathering fails (a bad file or a duplicate), nothing is installed at all |
| Commands.AddPackages | dotsctl.py:323-324 | the `result.update` step computes `AddAll` |
| Commands.AddAllSpec | dotsctl.py:323-324 | the union stays duplicate-free and holds exactly the previous names and the new string items |
| Commands.AddAllStrings | dotsctl.py:323-324 | the update is flagged unsortable exactly when an item is not a string |
| Commands.UnionSpec | dotsctl.py:318-324 | the union over all files is duplicate-free and holds exactly the names some file lists under `dpkg` |
| Commands.UnionStrings | dotsctl.py:320-324 | the union is sortable exactly when every listed item is a string |
| Commands.PackagesList | dotsctl.py:307-327 | `packages_list` computes `PackagesSpec`: the distro check, gathering, the union, then the sorted names |
| Commands.PackagesListing | dotsctl.py:307-327 | a distro other than Debian raises "Unknown distro"; otherwise the output is strictly increasing and lists exactly the names some file lists, and succeeds exactly when all items are strings |

## Left out

- The command line: `argparse`, the `CLI` registry, `main`, `subc_add` and `subc_debug_meta`.
- Reading and writing `sources.yml`. The configured roots are an input list.
- `yaml.safe_load` is the parameter `parse`. It sees only the keys the engine reads. A document that is not a mapping, and `dest`, `destdir` or `symlink` values of the wrong type, are not modelled.
- `distro.id()` is the parameter `distroId`.
- The real `glob` walk and its hidden-file patch. `SourceTree.glob` supplies each root's file list.
- `os.path.expanduser`, `abspath` and `relpath` are uninterpreted. No path is normalised, so `a/../b` and `a/b/` are different keys.
- Intermediate symlinks inside a path are not resolved. Only the final component's chain is followed.
- No OS call fails except as modelled: `open` (dotsctl.py:66), `os.lstat` (dotsctl.py:138), `os.makedirs` (dotsctl.py:128), `os.symlink` and `os.unlink` raising PermissionError or another OSError (EACCES, EROFS, a missing parent) are not modelled. `open` never fails: `Load` gives a result (possibly an error from the block) for every file in `SourceTree.files`, and `MakeDirs` always creates under a directory.
- Printing is replaced by the event log and the warning list. The `log_verbose` flag is not modelled.
- The race between `lstat` and the change at dotsctl.py:142 needs a concurrent filesystem, which this model does not have.
- Line decoding is per line: a line either decodes or is `Undecodable`. Line terminators are dropped. Python's text reader decodes whole chunks, so an undecodable byte anywhere in the first chunk can make an earlier `readline()` raise. dotsctl.py then reports no metadata even when the marker is on line 1; the model does not capture this.
- Scanner.Collect: end of file before `...` is an error result. dotsctl.py loops forever there; see Findings.
- Planner.InstallOne: only per-call idempotence is proved (`ReconcilerFacts.MkdirValueIdempotent`, `ReconcilerFacts.SymlinkOneIdempotent`). A whole install run is not idempotent when two link steps in it name the same path with different targets: the mapping `symlink {/h/x: a}` together with `dest /h/x` relinks `/h/x` twice on every run, logging two SYMLINK events each time (`Planner.InstallOneRelinksTwice`, `Planner.SharedLinkRun`).
- ReconcilerFacts.SymlinkOneIdempotent: it needs two extra conditions. No other symlink may point at the link path, and the parent directory must not expand to the link path itself. Without them, the first call can change how the parent resolves.
- Commands.PackagesList: any non-string `dpkg` item is an error. dotsctl.py only fails where `set.update` or `sorted` raise, for example on a nested list or a mix of strings and numbers.
- Commands.PackagesListing: states the same approximation.
- Commands.Install: the callback of `sources_foreach` is fixed to `install_one` here, and to the `dpkg` lookup in `packages_list`. No general callback is modelled.

## Findings

| source | as written | input that shows it | evidently intended | confidence | as-written member | corrected member |
|---|---|---|---|---|---|---|
| dotsctl.py:92-96 | after the header, lines are read until one strips to `...`; at end of file `readline()` returns `""` forever | a file whose lines are `# :dotsctl:` and `#   dest: ~/bin/x`, with no `...` line | stop at end of file and report the unterminated block | high (not executed) | Scanner.CollectAsWrittenHangs | Scanner.CollectUnterminated |
