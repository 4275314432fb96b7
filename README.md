# Beautiful Atoms build script and import proxy, modelled in Dafny

This project models two pieces of the Beautiful Atoms Blender extension.

1. **The extension build script** (`scripts/build_extension.py`). It takes the
   Python packages installed in Blender's environment and pins them in
   `pyproject.toml`. It builds wheels and merges in wheels built on other
   platforms, then either zips the wheels or writes the extension manifest
   and has Blender assemble the extension archives. For a
   current-platform build it also deletes the archives of other platforms.
2. **The `batoms` import proxy** (`batoms_proxy/batoms/__init__.py`). This
   object stands in for the `batoms` module. On first use it finds the one
   enabled Blender extension whose module name ends in `.batoms`, imports it,
   and forwards to it the attribute lookups it cannot answer itself, `dir()`
   and calls.

The file system is a class `FileTree.FileSystem`. Its one field maps each
directory (a path, given as a list of components) to its files. Each
`pathlib`/`shutil` call the model keeps is a method on that class. Each
script function is a method that changes the tree, and its contract ties the
new tree to a function of the old one. The properties the script promises
are lemmas about those functions. Pure logic (platform naming, the `==`
split, the pyproject and manifest rewrites, the candidate filter) is
written as functions. The source's loops (the freeze filter, the glob loops,
the candidate search) are methods with loop invariants. Directory listings
come in an order the source does not fix, so those loops pick each next
entry with `:|`.

Everything outside the file tree is a parameter. This covers the `freeze`
lines, the parsed TOML files, the wheels `pip wheel` writes, whether `bpy`
imports, what Blender's extension build writes, the host's
`platform.system()`/`platform.machine()`, `addon_utils` and
`importlib.import_module`.

Files:

| file | contents |
|---|---|
| `results.dfy` | `Option`, `Result` and `Outcome` (return normally or raise) |
| `strings.dfy` | `startswith`, `endswith`, substring `in`, and `split("==")` with its round trip |
| `platform.dfy` | `get_platform_string` |
| `errors.dfy` | the exceptions of the build script |
| `toml.dfy` | parsed TOML values |
| `snapshot.dfy` | `get_installed_packages` as an insertion-ordered dict |
| `pyproject.dfy` | `generate_updated_pyproject` |
| `filesystem.dfy` | the directory tree and its operations |
| `workspace.dfy` | `clear_dirs`, `copy_source_code`, and the wheel clearing of `build_wheels` |
| `merge.dfy` | `merge_wheels` |
| `manifest.dfy` | `update_blender_manifest` |
| `assembly.dfy` | `compress_wheels` and `build_extension` |
| `pipeline.dfy` | `build_wheels` and `main`, and properties of a whole run |
| `proxy.dfy` | `_BatomsProxy` |

Two behaviours of the script are easy to misread:

- **pip failure.** The script calls `WheelCommand.main(options)` and drops
  the status it returns (scripts/build_extension.py:153). A failed pip run
  therefore continues with whatever wheels were written, and the model's
  pip parameter cannot fail.
- **Compress-only with extra wheels.** The `ValueError` of
  scripts/build_extension.py:364-368 is raised only after `clear_dirs`,
  `copy_source_code` and `build_wheels` have run
  (scripts/build_extension.py:355-363). `Pipeline.CompressRefusesExtras`
  states that order.

## Model

| member | source | states |
|---|---|---|
| Strings.JoinSplit | scripts/build_extension.py:78 | Joining the parts of `split("==")` with `==` gives back the line, so the split loses nothing. |
| Strings.SplitShape | scripts/build_extension.py:78 | The split is leftmost and non-overlapping: no part contains `==`, and every part but the last does not end in `=`. |
| Strings.SplitPin | scripts/build_extension.py:78 | `name==version` splits into exactly `[name, version]` when neither part contains `==` and the name does not end in `=`. |
| Platform.PlatformString | scripts/build_extension.py:29-45 | `get_platform_string(connector)` on the host's system and machine names: the Blender platform name joined by the connector, or `unsupported`. |
| Platform.PlatformStringCases | scripts/build_extension.py:29-45 | The mapping table: Linux x86_64, Darwin x86_64, other Darwin, Windows/Microsoft, and every other host falling to `unsupported`. |
| Platform.SupportedIff | scripts/build_extension.py:36-45 | The result differs from `unsupported` exactly for the recognised hosts, whatever the connector. |
| Platform.ConnectorIff | scripts/build_extension.py:29-45 | For the connectors `-` and `_`, the result contains the connector exactly when the host is recognised. |
| Snapshot.ParseLine | scripts/build_extension.py:78 | Unpacking `line.split("==")` into name and version, or the unpacking error when there are not exactly two parts. |
| Snapshot.SnapshotOf | scripts/build_extension.py:72-81 | `get_installed_packages` on the freeze lines: each line unpacked in turn, the packaging tools skipped, the others assigned into the dict. |
| Snapshot.Put | scripts/build_extension.py:80 | A dict assignment: the name now maps to the version and every other name keeps its lookup. |
| Snapshot.PutNames | scripts/build_extension.py:80 | Assignment adds the name to the key set and removes no key. |
| Snapshot.PutAppends | scripts/build_extension.py:80 | A new name is appended at the end (insertion order). |
| Snapshot.PutInPlace | scripts/build_extension.py:80 | A name already present keeps its position and only its version changes. |
| Snapshot.PutDistinct | scripts/build_extension.py:80 | Assignment keeps the keys distinct. |
| Snapshot.InstalledPackages | scripts/build_extension.py:72-81 | The freeze loop computes the snapshot function of the lines, including the unpacking error. |
| Snapshot.ErrorSticks | scripts/build_extension.py:75-78 | Once a line fails to unpack, every later line leaves the error unchanged (Python stops at the first raise). |
| Snapshot.SnapshotLookup | scripts/build_extension.py:75-81 | Each name maps to the version on its last freeze line, and the four packaging tools map to nothing. |
| Snapshot.SnapshotExcludesTools | scripts/build_extension.py:79 | `pip`, `wheel`, `setuptools` and `distribute` never appear in the snapshot. |
| Snapshot.SnapshotOkIff | scripts/build_extension.py:78 | The snapshot is produced exactly when every line splits into two parts. |
| Snapshot.SnapshotFirstError | scripts/build_extension.py:75-78 | The error reported carries the first line that splits into other than two parts. |
| Snapshot.SnapshotWellFormed | scripts/build_extension.py:72-81 | Snapshot names are distinct and exclude the packaging tools. No name holds `==` or ends in `=`, and no version holds `==`. |
| Snapshot.PinLinesRoundTrip | scripts/build_extension.py:78-99 | A well-formed snapshot rendered as `name==version` lines and re-read gives back the same snapshot. |
| Snapshot.SnapshotReparses | scripts/build_extension.py:72-99 | Re-reading the pins rendered from a snapshot reproduces that snapshot. |
| Pyproject.GroupIn | scripts/build_extension.py:89-91 | Python's `"blender-extension" in v` for each kind of TOML value: key of a table, substring of a string, element of an array, and the TypeError of any other value. |
| Pyproject.UpdatedPyproject | scripts/build_extension.py:84-101 | `generate_updated_pyproject`: the `.get` chain with `{}` defaults, the ValueError for a missing group, and the group replaced by the pins. |
| Pyproject.PinValues | scripts/build_extension.py:97-99 | One `name==version` string per pin, in snapshot order. |
| Pyproject.UpdatedIff | scripts/build_extension.py:89-101 | The rewrite succeeds exactly when `project.optional-dependencies.blender-extension` exists along a path of tables. |
| Pyproject.MissingGroupIsValueError | scripts/build_extension.py:89-95 | A missing `project`, missing dependencies or missing group gives the ValueError of the source. |
| Pyproject.UpdatedOnlyTouchesGroup | scripts/build_extension.py:97-101 | Every other key at all three levels is kept, and the group becomes the list of pins. |
| Pyproject.UpdatedIdempotent | scripts/build_extension.py:84-101 | Rewriting the rewritten document gives the same document. |
| Pyproject.PinnedGroupRoundTrip | scripts/build_extension.py:72-101 | The pinned group, re-read as freeze lines, is exactly the environment's snapshot. |
| FileTree.WithDirs | scripts/build_extension.py:255 | The tree after `mkdir(parents=True, exist_ok=True)`: the directory and its ancestors exist, new ones empty, old ones unchanged. |
| FileTree.WithoutTree | scripts/build_extension.py:254 | The tree after `rmtree`: exactly the directories not below the removed one remain, unchanged. |
| FileTree.WithTreeCopy | scripts/build_extension.py:210 | The tree after `copytree(src, dst, dirs_exist_ok=True)`: the target and its ancestors created, each source directory's files merged into its image below the target. |
| FileTree.FileSystem.Exists | scripts/build_extension.py:253 | `Path.exists()` holds exactly for recorded directories. |
| FileTree.FileSystem.Files | scripts/build_extension.py:229 | The files a glob reads, and none for a missing directory. |
| FileTree.FileSystem.MakeDirs | scripts/build_extension.py:255 | `mkdir(parents=True, exist_ok=True)` adds the directory and its ancestors and changes no file. |
| FileTree.FileSystem.RemoveTree | scripts/build_extension.py:254 | `rmtree` removes the directory and everything below it. |
| FileTree.FileSystem.CopyTree | scripts/build_extension.py:210 | `copytree(..., dirs_exist_ok=True)` recreates the source tree under the target, and copied files replace existing ones. |
| FileTree.FileSystem.Unlink | scripts/build_extension.py:124 | `unlink` removes exactly one name. |
| FileTree.FileSystem.WriteFile | scripts/build_extension.py:197-198 | A write adds or replaces exactly one file. |
| FileTree.FileSystem.WriteFiles | scripts/build_extension.py:153 | A tool's output lands in one directory and nothing else changes. |
| FileTree.CopyTreeFrame | scripts/build_extension.py:210 | A copy changes no directory outside its target. |
| FileTree.CopyTreeCopies | scripts/build_extension.py:210 | Every file below the source appears at the same relative place below the target with the same content. |
| Workspace.ClearOne | scripts/build_extension.py:253-255 | One iteration of `clear_dirs`: remove the directory if it exists, then create it. |
| Workspace.ClearAll | scripts/build_extension.py:249-256 | `clear_dirs(*dirs)`: the iterations applied to the directories in argument order. |
| Workspace.ClearedWheels | scripts/build_extension.py:121-124 | The clearing step of `build_wheels`: the wheels directory created and its `*.whl` files removed. |
| Workspace.ClearDirs | scripts/build_extension.py:249-256 | The loop performs remove-if-present then recreate, for each directory in turn. |
| Workspace.ClearOneEmpties | scripts/build_extension.py:253-255 | After clearing, the directory exists and holds neither files nor subdirectories. |
| Workspace.ClearAllEmpties | scripts/build_extension.py:249-256 | Each cleared directory is empty at the end unless a later argument is nested with it. |
| Workspace.CopySourceCode | scripts/build_extension.py:204-211 | A missing source raises and nothing changes; otherwise the tree is copied into the build directory. |
| Workspace.ClearedWheelsSpec | scripts/build_extension.py:121-124 | After clearing, the wheels directory exists and holds no `*.whl`; its other files and every other directory are untouched. |
| Workspace.ClearWheels | scripts/build_extension.py:121-124 | The unlink loop computes the cleared tree, whatever order the glob yields. |
| WheelMerge.MergeCheck | scripts/build_extension.py:221-238 | The two checks of `merge_wheels`: the first missing extra directory, else the first one whose wheel count differs from the primary's, else pass. |
| WheelMerge.Absorb | scripts/build_extension.py:241-245 | The copy loop for one extra directory: its wheels whose names the primary lacks are added, and the set of directories stays the same. |
| WheelMerge.MergeAll | scripts/build_extension.py:240-245 | The copy loops over every extra directory in argument order, keeping the set of directories. |
| WheelMerge.CheckExtraDirs | scripts/build_extension.py:221-238 | The two check loops report the first missing directory, else the first count mismatch with counts, else pass. |
| WheelMerge.MergeCheckIff | scripts/build_extension.py:221-238 | The merge proceeds exactly when every extra directory exists and holds as many wheels as the primary. |
| WheelMerge.MissingReportedFirst | scripts/build_extension.py:221-226 | A missing directory is reported as such even when counts also differ. |
| WheelMerge.MergeFrame | scripts/build_extension.py:240-245 | Only the primary directory changes; with the primary missing, nothing changes. |
| WheelMerge.MergeKeeps | scripts/build_extension.py:242-244 | A file the primary already had is never replaced, and it only gains extra directories' wheels. |
| WheelMerge.MergeUnion | scripts/build_extension.py:240-245 | The primary's wheels become its own wheels united with every extra directory's. |
| WheelMerge.MergeFirstWriter | scripts/build_extension.py:240-245 | A wheel the merge adds has the content from the first extra directory holding that name. |
| WheelMerge.MergeOutcome | scripts/build_extension.py:214-246 | On success: union by name, no overwrite, no non-wheel file gained, other directories unchanged, and no change with no extras. |
| WheelMerge.CopyNewWheels | scripts/build_extension.py:241-245 | The inner copy loop adds the extra directory's wheels whose names the primary lacks, in any glob order. |
| WheelMerge.MergeWheels | scripts/build_extension.py:214-246 | Both checks run before any copy; on failure the tree is unchanged, and on success it is the merged tree. |
| Manifest.WheelEntryInjective | scripts/build_extension.py:184 | Distinct wheel names give distinct `wheels/<name>` entries. |
| Manifest.WheelsList | scripts/build_extension.py:183-185 | The list holds `wheels/<name>` once for every wheel of the wheels directory and nothing else. |
| Manifest.ListedCount | scripts/build_extension.py:183-185 | The list has exactly as many entries as there are wheels. |
| Manifest.UpdatedManifest | scripts/build_extension.py:190 | `manifest_data["wheels"] = wheels_list` on the parsed manifest. |
| Manifest.ManifestFields | scripts/build_extension.py:190 | The manifest keeps every other field, and `wheels` becomes exactly the list, added if absent. |
| Manifest.ManifestIdempotent | scripts/build_extension.py:190 | Updating twice with the same list equals updating once. |
| Manifest.UpdateBlenderManifest | scripts/build_extension.py:177-201 | An unreadable manifest or a missing build directory raises with no change; otherwise `build/blender_manifest.toml` is header plus updated manifest. |
| Assembly.Compressed | scripts/build_extension.py:171-172 | The tree after `make_archive`: the export directory exists and holds the zip of the wheels directory under the platform-named archive name. |
| Assembly.Pruned | scripts/build_extension.py:286-288 | The export directory without the `batoms-*.zip` files that do not name the platform. |
| Assembly.Assembled | scripts/build_extension.py:267-289 | The tree after `build_extension`: both directories made, Blender's output written into the export directory, pruned for a current-platform build. |
| Assembly.CompressWheels | scripts/build_extension.py:160-174 | A missing wheels directory raises with no change; otherwise the export directory is created and gets the wheels archive. |
| Assembly.CompressedSpec | scripts/build_extension.py:171-172 | The archive holds exactly the wheels directory's files and its name contains the platform string; nothing else changes but that name. |
| Assembly.PrunedIff | scripts/build_extension.py:286-288 | A file survives pruning exactly when it is not a `batoms-*.zip` or its name contains the platform string, and keeps its content. |
| Assembly.PrunedArchivesNamePlatform | scripts/build_extension.py:283-288 | Every archive left after pruning names the platform. |
| Assembly.PrunedIdempotent | scripts/build_extension.py:286-288 | Pruning twice equals pruning once. |
| Assembly.AssembledExport | scripts/build_extension.py:267-289 | Into an export directory that starts empty, `build_extension` leaves exactly Blender's output, pruned for a current-platform build. |
| Assembly.AssembledSpec | scripts/build_extension.py:259-290 | Only the export directory changes; Blender's output is kept unless pruned; an earlier file Blender does not overwrite survives unless pruned; a current-platform build leaves no foreign archive. |
| Assembly.RemoveForeignArchives | scripts/build_extension.py:286-288 | The unlink loop computes the pruned directory, whatever order the glob yields. |
| Assembly.BuildExtension | scripts/build_extension.py:259-290 | The directories are made first; a failing assembler raises after that; otherwise output is written and, if current-only, pruned. |
| Pipeline.WheelsBuilt | scripts/build_extension.py:104-158 | `build_wheels` on a tree: the snapshot, the wheel clearing, the source check, the pyproject rewrite, pip's output and the merge, each error stopping the rest. |
| Pipeline.Prepared | scripts/build_extension.py:355-363 | The first three steps of `main`: `clear_dirs`, `copy_source_code` and `build_wheels`. |
| Pipeline.Finished | scripts/build_extension.py:364-372 | The rest of `main`: the compress-only branch with its extras check, or the manifest update, the `bpy` check and `build_extension`. |
| Pipeline.BuildRun | scripts/build_extension.py:353-372 | The `try` block of `main`: the prepared tree, then the finish, stopping at the first error. |
| Pipeline.BuildWheels | scripts/build_extension.py:104-158 | Snapshot first, then the wheel clearing, the source check, the pyproject rewrite, pip's output and the merge, each error stopping the rest. |
| Pipeline.RunBuild | scripts/build_extension.py:342-372 | The steps of `main` in source order, stopping at the first error; current-platform-only means no extra wheels; the listing order is reported. |
| Pipeline.PippedSpec | scripts/build_extension.py:121-153 | After the clearing step and pip's run, the wheels directory holds exactly pip's wheels, and no other directory's listing changed. |
| Pipeline.WheelsBuiltErrors | scripts/build_extension.py:117-138 | A malformed freeze line leaves the tree untouched; a pyproject error leaves the wheels cleared; success implies the pyproject was pinned. |
| Pipeline.WheelsBuiltContents | scripts/build_extension.py:117-157 | After `build_wheels` the wheels are exactly pip's wheels for the pinned pyproject plus the extras'; no stale wheel survives. |
| Pipeline.WheelsBuiltFrame | scripts/build_extension.py:104-158 | Whether `build_wheels` succeeds or stops at any of its errors, it changes the files of no directory other than the wheels directory and removes no directory. |
| Pipeline.CompressRefusesExtras | scripts/build_extension.py:355-368 | Compress-only with extra wheels always fails, after the wheels were built, with `CompressWithExtraWheels` and no archive. |
| Pipeline.ExportEmptyAfterPrepare | scripts/build_extension.py:355-363 | Outside the build directory, the export directory is empty after clearing, copying and building wheels. |
| Pipeline.FinishedCompress | scripts/build_extension.py:364-370 | From an empty export directory, the compress-only ending leaves only the platform-named archive of the wheels directory. |
| Pipeline.CompressOnlyExport | scripts/build_extension.py:355-370 | A successful compress-only run exports exactly one file: the platform-named archive of the wheels. |
| Pipeline.FullRunPasses | scripts/build_extension.py:355-372 | A successful full run passed every step, and its tree is the assembled tree over the manifest-updated build. |
| Pipeline.FinishedExport | scripts/build_extension.py:371-372 | From an empty export directory, the last two steps leave exactly Blender's output, pruned when no extras were given, so every archive left names the platform. |
| Pipeline.ExtensionExport | scripts/build_extension.py:351-372 | A successful full run exports what Blender built, minus the archives of other platforms when no extra wheels were given. |
| Pipeline.FinishedManifest | scripts/build_extension.py:371-372 | The last two steps leave the written manifest and the wheels directory as they were. |
| Pipeline.ManifestListsShippedWheels | scripts/build_extension.py:355-372 | The shipped manifest's `wheels` field lists each wheel of the shipped wheels directory exactly once. |
| Proxy.Candidates | batoms_proxy/batoms/__init__.py:53-61 | `possible_modules` after the loop: the names of loaded entries ending in `.batoms`, in order. |
| Proxy.Selection | batoms_proxy/batoms/__init__.py:44-75 | `_find_extension_module` on the add-on list: its three ImportErrors, or the one candidate. |
| Proxy.BareNameRejected | batoms_proxy/batoms/__init__.py:56-61 | A bare `batoms` does not qualify, nor does any name in which `.batoms` is followed by more text without a dot; for every channel, `bl_ext.<channel>.batoms` qualifies exactly when loaded. |
| Proxy.CandidatesIff | batoms_proxy/batoms/__init__.py:53-61 | A name is a candidate exactly when an entry carries it, ends in `.batoms` and is loaded. |
| Proxy.CandidatesAppend | batoms_proxy/batoms/__init__.py:53-61 | The filter keeps input order across a concatenation. |
| Proxy.SelectionSpec | batoms_proxy/batoms/__init__.py:44-75 | Success exactly when there is one candidate, giving that name; an empty list, no candidate and several candidates give their own errors. |
| Proxy.FindExtensionModule | batoms_proxy/batoms/__init__.py:35-75 | The search loop and its checks compute the selection. |
| Proxy.Resolution | batoms_proxy/batoms/__init__.py:82-84 | What a load on a fresh proxy yields: the selection error, the import error for the selected name, or the module imported under the one qualifying name. |
| Proxy.Registry.Modules | batoms_proxy/batoms/__init__.py:47 | Asking for the add-on list returns it and counts one query. |
| Proxy.BatomsProxy.constructor | batoms_proxy/batoms/__init__.py:31-33 | A new proxy has no module and no resolved name. |
| Proxy.BatomsProxy.LoadModule | batoms_proxy/batoms/__init__.py:77-84 | A loaded proxy is unchanged and never queries the registry; otherwise one query, and both fields set only on success. |
| Proxy.BatomsProxy.Forward | batoms_proxy/batoms/__init__.py:86-99 | Loading happens before forwarding. A loaded proxy forwards to its module with no registry query. A fresh one makes one query and, as `Resolution` says, returns the selection error or the import error with both fields unset, or sets both fields to the imported module and its name and forwards to it. |
| Proxy.BatomsProxy.GetAttr | batoms_proxy/batoms/__init__.py:86-89 | `__getattr__` forwards the attribute name after loading. A loaded proxy forwards to its module with no registry query. A fresh one makes one query and, as `Resolution` says, returns the selection error or the import error with both fields unset, or sets both fields to the imported module and its name and forwards to it. |
| Proxy.BatomsProxy.Dir | batoms_proxy/batoms/__init__.py:91-94 | `__dir__` forwards the listing after loading. A loaded proxy forwards to its module with no registry query. A fresh one makes one query and, as `Resolution` says, returns the selection error or the import error with both fields unset, or sets both fields to the imported module and its name and forwards to it. |
| Proxy.BatomsProxy.Call | batoms_proxy/batoms/__init__.py:96-99 | `__call__` forwards the positional and keyword arguments after loading. A loaded proxy forwards to its module with no registry query. A fresh one makes one query and, as `Resolution` says, returns the selection error or the import error with both fields unset, or sets both fields to the imported module and its name and forwards to it. |
| Proxy.BatomsProxy.Repr | batoms_proxy/batoms/__init__.py:101-106 | `__repr__`: the resolved name when one is set and non-empty, otherwise the not-loaded text. |
| Proxy.ReprSpec | batoms_proxy/batoms/__init__.py:101-106 | Before resolution the text is `<Proxy for 'batoms' (not yet loaded)>`, after it `<Proxy for NAME>`; the text is the first exactly when nothing is loaded. |

## Left out

- TOML text is not modelled. `toml.load` is a parsed document given as a parameter (`None` when unreadable), and `toml.dump`/`toml.dumps` are kept as the document they would render.
- Printing, `argparse` and `sys.exit(1)` are left out. `main`'s catch-all handler becomes the failure outcome `Pipeline.RunBuild` returns, and the parsed command line is `Pipeline.Options`, given with its defaults already applied.
- `get_blender_site_packages`, `freeze` and its options are left out; the model starts from the lines `freeze` yields.
- The temporary build directory of `build_wheels` is not modelled. Only the `copytree` into it is, because it raises when the source is missing. The pyproject written there reaches pip as the argument of the pip parameter.
- `Pipeline.Options` paths are taken as already resolved: each directory has one canonical component list. The script mixes the resolved repository root with the unresolved `--build-dir`, `--export-dir` and `--extra-wheels` values (scripts/build_extension.py:342-349), so two spellings of one directory (relative and absolute, `..`, symbolic links) are one directory to the script but two keys to the model.
- `index_url` is left out: the script only forwards it to pip.
- `get_blender_bin` is reduced to whether `bpy` imports; the binary path is not used.
- Blender's `--command extension build` is the files it writes, or a failure. The `--split-platform` naming of those files is Blender's.
- `shutil.make_archive` is modelled as one `ZipOf` of the wheels directory's files. Subdirectories of the wheels directory are not in the archive model.
- `Assembly.CompressWheels`: the archive is taken from the wheels directory before the archive is written. Writing an archive into the wheels directory itself is not modelled.
- Directories are not files: a directory named `*.whl` or `batoms-*.zip`, and a file and a directory sharing a name, are not modelled.
- Name matching and existence are case-sensitive, as on POSIX file systems. On Windows a glob matches regardless of case, so `*.whl` would also list `X.WHL` and `batoms-*.zip` would list `Batoms-x.ZIP`. On Windows and default macOS volumes, `exists()` also treats `A.whl` and `a.whl` as one file (scripts/build_extension.py:243). `FileTree.IsWheel`, `Assembly.IsArchive` and the name tests of the merge do not capture this.
- FileTree.WithTreeCopy reads the source tree as it was before the copy. When the target lies inside the source, `copytree` may also meet directories it has just created; that case is not modelled.
- The timestamps `shutil.copy2` preserves are left out.
- `Proxy.Addon`: each add-on entry carries the loaded state `addon_utils.check` reports. Two entries with the same name may carry different states, which `check` by name could not.
- `importlib.import_module` is a parameter returning a module or failing; attribute lookup, `dir()` and calls on the real module are left out, and the forwarding methods return the request they would forward.
- Proxy.BatomsProxy.GetAttr models the `__getattr__` hook, which Python reaches only for names the proxy does not define. `extension_name`, `_module`, `_resolved_name`, the proxy's own methods and the attributes every object has (`__doc__`, `__class__`, ...) are answered by the proxy itself, with no load and no registry query; the model has no operation for those lookups.
- The module-level code of the proxy is left out: the `addon_utils` import check and the replacement of `sys.modules["batoms"]` run at import time and only call the host.
- `custom_property.py` and the GUI menu files are declarations for Blender's UI and hold no build logic; they are not part of this model.
