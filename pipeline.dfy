/** `main` of the build script: the steps in order, the first exception
    ending the run. The parsed command line is `Options`; everything the
    script learns from outside the file tree is `Host`. */
module Pipeline {
  import opened Results
  import opened BuildErrors
  import opened Toml
  import opened FileTree
  import opened Snapshot
  import opened Pyproject
  import opened Workspace
  import opened WheelMerge
  import opened Manifest
  import opened Assembly
  import opened Platform
  import opened Strings

  /** The command line after defaults are filled in. */
  datatype Options = Options(
    source: Path,
    build: Path,
    exportDir: Path,
    extras: seq<Path>,
    onlyCompress: bool)

  /** The world outside the tree: the lines pip's `freeze` reports, the two
      TOML files as parsed (`None` when unreadable), the wheels `pip wheel`
      writes for a given pyproject (the script ignores its exit status, so
      it cannot fail the run), whether `bpy` imports, the files Blender's
      extension build writes (`None` when it exits non-zero), and the host's
      `platform.system()` and `platform.machine()`. */
  datatype Host = Host(
    freeze: seq<string>,
    pyproject: Option<Document>,
    pip: Document -> Dir,
    manifest: Option<Document>,
    blenderAvailable: bool,
    assembler: Option<Dir>,
    system: string,
    machine: string)

  /** How a stage ends, and the tree it leaves. */
  datatype Run = Run(outcome: Outcome<BuildError>, tree: Tree)

  function WheelsPath(o: Options): Path {
    o.build + [WheelsDir]
  }

  /** The tree once `pip wheel` has written `built` into the cleared wheels
      directory. */
  function Pipped(t: Tree, w: Path, built: Dir): (r: Tree)
    ensures w in r
  {
    var t1 := ClearedWheels(t, w);
    t1[w := t1[w] + built]
  }

  /** `build_wheels(source_code, pyproject, build_dir, index_url, extra_wheels_dirs)` */
  function WheelsBuilt(t: Tree, o: Options, h: Host): Run {
    match SnapshotOf(h.freeze)
    case Err(e) => Run(Fail(e), t)
    case Ok(pins) =>
      var w := WheelsPath(o);
      var t1 := ClearedWheels(t, w);
      if o.source !in t1 then Run(Fail(SourceMissing(o.source)), t1)
      else if h.pyproject.None? then Run(Fail(PyprojectUnreadable), t1)
      else match UpdatedPyproject(h.pyproject.value, pins)
        case Err(e) => Run(Fail(e), t1)
        case Ok(doc) =>
          var t2 := Pipped(t, w, h.pip(doc));
          var m := MergeCheck(t2, w, o.extras);
          if m.Fail? then Run(m, t2) else Run(Pass, MergeAll(t2, w, o.extras))
  }

  /** The first three steps of `main`: clear, copy the source, build the wheels. */
  function Prepared(t: Tree, o: Options, h: Host): Run {
    var t1 := ClearAll(t, [o.build, o.exportDir]);
    if o.source !in t1 then Run(Fail(SourceMissing(o.source)), t1)
    else WheelsBuilt(WithTreeCopy(t1, o.source, o.build), o, h)
  }

  /** The rest of `main` from the tree the wheels were built into; `listed`
      is the order in which the wheels directory was listed for the manifest. */
  function Finished(t: Tree, o: Options, h: Host, listed: seq<string>): Run {
    if o.onlyCompress then
      if |o.extras| > 0 then Run(Fail(CompressWithExtraWheels), t)
      else if WheelsPath(o) !in t then Run(Fail(WheelsDirMissing), t)
      else Run(Pass, Compressed(t, o.build, o.exportDir, WheelsArchiveName(h.system, h.machine)))
    else if h.manifest.None? then Run(Fail(ManifestUnreadable), t)
    else if o.build !in t then Run(Fail(NoSuchDirectory(o.build)), t)
    else
      var t1 := WithManifest(t, o.build, h.manifest.value, listed);
      if !h.blenderAvailable then Run(Fail(BlenderUnavailable), t1)
      else if h.assembler.None? then Run(Fail(AssemblerFailed), WithDirs(WithDirs(t1, o.build), o.exportDir))
      else Run(Pass, Assembled(t1, o.build, o.exportDir, h.assembler.value,
                               |o.extras| == 0, PlatformString(h.system, h.machine, "_")))
  }

  /** A whole run of `main`. */
  function BuildRun(t: Tree, o: Options, h: Host, listed: seq<string>): Run {
    var p := Prepared(t, o, h);
    if p.outcome.Fail? then p else Finished(p.tree, o, h, listed)
  }

  /** A run that succeeds got through the first three steps, and the rest
      of it ran on the tree they left. */
  lemma BuildRunPass(t: Tree, o: Options, h: Host, listed: seq<string>)
    requires BuildRun(t, o, h, listed).outcome.Pass?
    ensures Prepared(t, o, h).outcome.Pass?
    ensures BuildRun(t, o, h, listed) == Finished(Prepared(t, o, h).tree, o, h, listed)
  {
  }

  /** Does the run get as far as writing the manifest? */
  predicate ReachesManifest(t: Tree, o: Options, h: Host) {
    Prepared(t, o, h).outcome.Pass? && !o.onlyCompress
  }

  /** `build_wheels(...)` */
  method BuildWheels(fs: FileSystem, o: Options, h: Host) returns (r: Outcome<BuildError>)
    requires fs.Valid()
    modifies fs
    ensures fs.Valid()
    ensures Run(r, fs.dirs) == WheelsBuilt(old(fs.dirs), o, h)
  {
    ghost var t := fs.dirs;
    var existingPackages := InstalledPackages(h.freeze);
    if existingPackages.Err? {
      return Fail(existingPackages.error);
    }
    // Clear previous wheels
    var wheelsDir := WheelsPath(o);
    ClearWheels(fs, wheelsDir);
    // Temporary build environment: `copytree` of the source fails when it is missing
    if !fs.Exists(o.source) {
      return Fail(SourceMissing(o.source));
    }
    if h.pyproject.None? {
      return Fail(PyprojectUnreadable);
    }
    var updated := UpdatedPyproject(h.pyproject.value, existingPackages.value);
    if updated.Err? {
      return Fail(updated.error);
    }
    // Run pip wheel builder
    fs.WriteFiles(wheelsDir, h.pip(updated.value));
    assert fs.dirs == Pipped(t, wheelsDir, h.pip(updated.value));
    r := MergeWheels(fs, wheelsDir, o.extras);
  }

  /** `main()` once the arguments are parsed; `current_platform_only` is
      "no extra wheels were given". */
  method RunBuild(fs: FileSystem, o: Options, h: Host) returns (r: Outcome<BuildError>, ghost listed: seq<string>)
    requires fs.Valid()
    modifies fs
    ensures fs.Valid()
    ensures Run(r, fs.dirs) == BuildRun(old(fs.dirs), o, h, listed)
    ensures ReachesManifest(old(fs.dirs), o, h) ==>
              ListsWheels(listed, Listing(Prepared(old(fs.dirs), o, h).tree, WheelsPath(o)))
  {
    listed := [];
    ClearDirs(fs, [o.build, o.exportDir]);
    r := CopySourceCode(fs, o.source, o.build);
    if r.Fail? {
      return;
    }
    r := BuildWheels(fs, o, h);
    if r.Fail? {
      return;
    }
    if o.onlyCompress {
      if |o.extras| > 0 {
        return Fail(CompressWithExtraWheels), listed;
      }
      r := CompressWheels(fs, o.build, o.exportDir, h.system, h.machine);
      return;
    }
    r, listed := UpdateBlenderManifest(fs, o.build, h.manifest);
    if r.Fail? {
      return;
    }
    if !h.blenderAvailable {
      return Fail(BlenderUnavailable), listed;
    }
    var currentPlatformOnly := |o.extras| == 0;
    r := BuildExtension(fs, o.build, o.exportDir, h.assembler, currentPlatformOnly, h.system, h.machine);
  }

  /** The pyproject `pip wheel` is given: the loaded file with its
      `blender-extension` group pinned to the frozen environment. */
  function PinnedPyproject(h: Host): Option<Document> {
    if h.pyproject.None? || SnapshotOf(h.freeze).Err? then None
    else match UpdatedPyproject(h.pyproject.value, SnapshotOf(h.freeze).value)
      case Ok(doc) => Some(doc)
      case Err(_) => None
  }

  /** Where `build_wheels` stops: reading the environment comes before the
      old wheels are cleared, so a malformed freeze line leaves the tree as
      it was; any later error leaves the wheels directory cleared and
      nothing built. */
  lemma WheelsBuiltErrors(t: Tree, o: Options, h: Host)
    ensures SnapshotOf(h.freeze).Err? ==>
              WheelsBuilt(t, o, h) == Run(Fail(SnapshotOf(h.freeze).error), t)
    ensures SnapshotOf(h.freeze).Ok? && PinnedPyproject(h).None? ==>
              WheelsBuilt(t, o, h).outcome.Fail? &&
              WheelsBuilt(t, o, h).tree == ClearedWheels(t, WheelsPath(o))
    ensures WheelsBuilt(t, o, h).outcome.Pass? ==> PinnedPyproject(h).Some?
  {
  }

  /** Once pip has run, the wheels directory holds pip's wheels and no
      stale one, and every other directory lists what it did before. */
  lemma PippedSpec(t: Tree, w: Path, built: Dir)
    ensures var t2 := Pipped(t, w, built);
      && WheelNames(t2[w]) == WheelNames(built)
      && forall q :: q != w ==> Listing(t2, q) == Listing(t, q)
  {
    ClearedWheelsSpec(t, w);
    var t1 := ClearedWheels(t, w);
    var t2 := Pipped(t, w, built);
    assert t2[w] == t1[w] + built;
    forall n | n in WheelNames(t2[w]) ensures n in WheelNames(built) {
      assert n !in WheelNames(t1[w]);
    }
    forall q | q != w ensures Listing(t2, q) == Listing(t, q) {
      if q in t {
        assert t2[q] == t1[q];
      } else if q in t2 {
        assert t2[q] == t1[q] == map[];
      }
    }
  }

  /** A `build_wheels` that succeeds pinned the pyproject, and its tree is
      the merge over pip's output. */
  lemma WheelsBuiltPass(t: Tree, o: Options, h: Host)
    requires WheelsBuilt(t, o, h).outcome.Pass?
    ensures PinnedPyproject(h).Some?
    ensures var t2 := Pipped(t, WheelsPath(o), h.pip(PinnedPyproject(h).value));
      && MergeCheck(t2, WheelsPath(o), o.extras) == Pass
      && WheelsBuilt(t, o, h).tree == MergeAll(t2, WheelsPath(o), o.extras)
  {
    var pins := SnapshotOf(h.freeze).value;
    var doc := UpdatedPyproject(h.pyproject.value, pins).value;
    assert PinnedPyproject(h) == Some(doc);
  }

  lemma {:induction false} AllWheelsFrame(t: Tree, t': Tree, extras: seq<Path>)
    requires forall j :: 0 <= j < |extras| ==> Listing(t, extras[j]) == Listing(t', extras[j])
    ensures AllWheels(t, extras) == AllWheels(t', extras)
    decreases |extras|
  {
    if extras != [] {
      AllWheelsFrame(t, t', extras[..|extras| - 1]);
    }
  }

  /** The wheels directory `build_wheels` leaves holds, by name, exactly the
      wheels pip built for the pinned pyproject together with those of the
      extra directories: no wheel of an earlier build survives. */
  lemma WheelsBuiltContents(t: Tree, o: Options, h: Host)
    requires WheelsBuilt(t, o, h).outcome.Pass?
    requires forall j :: 0 <= j < |o.extras| ==> o.extras[j] != WheelsPath(o)
    ensures PinnedPyproject(h).Some?
    ensures WheelNames(Listing(WheelsBuilt(t, o, h).tree, WheelsPath(o))) ==
            WheelNames(h.pip(PinnedPyproject(h).value)) + AllWheels(t, o.extras)
  {
    WheelsBuiltPass(t, o, h);
    var w := WheelsPath(o);
    var built := h.pip(PinnedPyproject(h).value);
    var t2 := Pipped(t, w, built);
    PippedSpec(t, w, built);
    forall j | 0 <= j < |o.extras| ensures Listing(t, o.extras[j]) == Listing(t2, o.extras[j]) {
      assert o.extras[j] != w;
    }
    AllWheelsFrame(t, t2, o.extras);
    MergeOutcome(t2, w, o.extras);
    assert Listing(t2, w) == t2[w];
  }

  /** Asking for the wheels archive alongside extra wheels is refused, but
      only after the wheels were built and merged: the tree is the one the
      build left, and no archive is written. */
  lemma CompressRefusesExtras(t: Tree, o: Options, h: Host, listed: seq<string>)
    requires o.onlyCompress && |o.extras| > 0
    ensures BuildRun(t, o, h, listed).outcome.Fail?
    ensures BuildRun(t, o, h, listed).tree == Prepared(t, o, h).tree
    ensures Prepared(t, o, h).outcome.Pass? ==>
              BuildRun(t, o, h, listed).outcome == Fail(CompressWithExtraWheels)
  {
  }

  /** `build_wheels` writes into the wheels directory only, whether it
      succeeds or stops at any of its errors. */
  lemma WheelsBuiltFrame(t: Tree, o: Options, h: Host, q: Path)
    requires q != WheelsPath(o)
    ensures q in t ==> q in WheelsBuilt(t, o, h).tree
    ensures Listing(WheelsBuilt(t, o, h).tree, q) == Listing(t, q)
  {
    var w := WheelsPath(o);
    ClearedWheelsSpec(t, w);
    if SnapshotOf(h.freeze).Ok? {
      var t1 := ClearedWheels(t, w);
      assert Listing(t1, q) == Listing(t, q);
      if o.source in t1 && h.pyproject.Some? && UpdatedPyproject(h.pyproject.value, SnapshotOf(h.freeze).value).Ok? {
        var built := h.pip(UpdatedPyproject(h.pyproject.value, SnapshotOf(h.freeze).value).value);
        var t2 := Pipped(t, w, built);
        PippedSpec(t, w, built);
        MergeFrame(t2, w, o.extras);
      }
    }
  }

  /** The source copy and `build_wheels` leave the emptied export directory
      empty, unless it lies inside the build directory. */
  lemma ExportEmptyAfterPrepare(t: Tree, o: Options, h: Host)
    requires PrefixClosed(t)
    requires !IsPrefix(o.build, o.exportDir)
    requires Prepared(t, o, h).outcome.Pass?
    ensures o.exportDir in Prepared(t, o, h).tree
    ensures Listing(Prepared(t, o, h).tree, o.exportDir) == map[]
  {
    var ds := [o.build, o.exportDir];
    var t1 := ClearAll(t, ds);
    ClearAllEmpties(t, ds, 1);
    var t2 := WithTreeCopy(t1, o.source, o.build);
    CopyTreeFrame(t1, o.source, o.build, o.exportDir);
    assert o.exportDir in t2;
    assert Prepared(t, o, h) == WheelsBuilt(t2, o, h);
    WheelsBuiltFrame(t2, o, h, o.exportDir);
  }

  /** A successful compress-only run exports exactly one file: the archive
      of the wheels directory, named after the platform. */
  lemma CompressOnlyExport(t: Tree, o: Options, h: Host, listed: seq<string>)
    requires PrefixClosed(t)
    requires !IsPrefix(o.build, o.exportDir)
    requires o.onlyCompress && BuildRun(t, o, h, listed).outcome.Pass?
    ensures o.exportDir in BuildRun(t, o, h, listed).tree
    ensures Listing(BuildRun(t, o, h, listed).tree, o.exportDir) ==
            map[WheelsArchiveName(h.system, h.machine) :=
                ZipOf(Listing(Prepared(t, o, h).tree, WheelsPath(o)))]
  {
    BuildRunPass(t, o, h, listed);
    ExportEmptyAfterPrepare(t, o, h);
    FinishedCompress(Prepared(t, o, h).tree, o, h, listed);
  }

  /** What the compress-only ending leaves in an export directory it finds
      empty: the wheels archive alone. */
  lemma FinishedCompress(p: Tree, o: Options, h: Host, listed: seq<string>)
    requires o.exportDir in p && Listing(p, o.exportDir) == map[]
    requires o.onlyCompress && Finished(p, o, h, listed).outcome.Pass?
    ensures o.exportDir in Finished(p, o, h, listed).tree
    ensures Listing(Finished(p, o, h, listed).tree, o.exportDir) ==
            map[WheelsArchiveName(h.system, h.machine) := ZipOf(Listing(p, WheelsPath(o)))]
  {
    var name := WheelsArchiveName(h.system, h.machine);
    assert Finished(p, o, h, listed).tree == Compressed(p, o.build, o.exportDir, name);
    assert WithDirs(p, o.exportDir)[o.exportDir] == map[];
  }

  /** The shape of a successful full run. */
  lemma FullRunPasses(t: Tree, o: Options, h: Host, listed: seq<string>)
    requires !o.onlyCompress && BuildRun(t, o, h, listed).outcome.Pass?
    ensures Prepared(t, o, h).outcome.Pass?
    ensures h.manifest.Some? && h.blenderAvailable && h.assembler.Some?
    ensures o.build in Prepared(t, o, h).tree
    ensures BuildRun(t, o, h, listed).tree ==
            Assembled(WithManifest(Prepared(t, o, h).tree, o.build, h.manifest.value, listed),
                      o.build, o.exportDir, h.assembler.value,
                      |o.extras| == 0, PlatformString(h.system, h.machine, "_"))
  {
  }

  /** What the last two steps leave in an export directory they find empty:
      Blender's output, less the archives of other platforms when no extra
      wheels were given. */
  lemma FinishedExport(p: Tree, o: Options, h: Host, listed: seq<string>)
    requires o.exportDir in p && Listing(p, o.exportDir) == map[]
    requires o.exportDir != o.build
    requires !o.onlyCompress && Finished(p, o, h, listed).outcome.Pass?
    ensures h.assembler.Some?
    ensures o.exportDir in Finished(p, o, h, listed).tree
    ensures var e := Listing(Finished(p, o, h, listed).tree, o.exportDir);
      var platform := PlatformString(h.system, h.machine, "_");
      && e == (if |o.extras| == 0 then Pruned(h.assembler.value, platform) else h.assembler.value)
      && (|o.extras| == 0 ==> forall n :: n in e && IsArchive(n) ==> Contains(n, platform))
  {
    var t1 := WithManifest(p, o.build, h.manifest.value, listed);
    var platform := PlatformString(h.system, h.machine, "_");
    assert Finished(p, o, h, listed).tree ==
           Assembled(t1, o.build, o.exportDir, h.assembler.value, |o.extras| == 0, platform);
    AssembledExport(t1, o.build, o.exportDir, h.assembler.value, |o.extras| == 0, platform);
    if |o.extras| == 0 {
      PrunedArchivesNamePlatform(h.assembler.value, platform);
    }
  }

  /** A successful full run exports what Blender built, less, when no extra
      wheels were given, every archive of another platform: so each archive
      left names the current platform. */
  lemma ExtensionExport(t: Tree, o: Options, h: Host, listed: seq<string>)
    requires PrefixClosed(t)
    requires !IsPrefix(o.build, o.exportDir)
    requires !o.onlyCompress && BuildRun(t, o, h, listed).outcome.Pass?
    ensures h.assembler.Some?
    ensures o.exportDir in BuildRun(t, o, h, listed).tree
    ensures var e := Listing(BuildRun(t, o, h, listed).tree, o.exportDir);
      var platform := PlatformString(h.system, h.machine, "_");
      && e == (if |o.extras| == 0 then Pruned(h.assembler.value, platform) else h.assembler.value)
      && (|o.extras| == 0 ==> forall n :: n in e && IsArchive(n) ==> Contains(n, platform))
  {
    BuildRunPass(t, o, h, listed);
    ExportEmptyAfterPrepare(t, o, h);
    assert o.exportDir != o.build;
    FinishedExport(Prepared(t, o, h).tree, o, h, listed);
  }

  /** What the manifest step leaves in the build directory, when the
      assembly writes elsewhere. */
  lemma FinishedManifest(p: Tree, o: Options, h: Host, listed: seq<string>)
    requires o.exportDir != o.build && o.exportDir != WheelsPath(o)
    requires !o.onlyCompress && Finished(p, o, h, listed).outcome.Pass?
    ensures h.manifest.Some?
    ensures var r := Finished(p, o, h, listed).tree;
      && o.build in r
      && ManifestName in r[o.build]
      && r[o.build][ManifestName] == ManifestText(Header, UpdatedManifest(h.manifest.value, listed))
      && Listing(r, WheelsPath(o)) == Listing(p, WheelsPath(o))
  {
    assert WheelsPath(o) != o.build;
  }

  /** The manifest a successful full run leaves in the build directory is
      the given one with its `wheels` field listing exactly the wheels that
      directory ships, each once. */
  lemma ManifestListsShippedWheels(t: Tree, o: Options, h: Host, listed: seq<string>)
    requires ReachesManifest(t, o, h)
    requires ListsWheels(listed, Listing(Prepared(t, o, h).tree, WheelsPath(o)))
    requires o.exportDir != o.build && o.exportDir != WheelsPath(o)
    requires BuildRun(t, o, h, listed).outcome.Pass?
    ensures h.manifest.Some?
    ensures var r := BuildRun(t, o, h, listed).tree;
      && o.build in r
      && ManifestName in r[o.build]
      && r[o.build][ManifestName] == ManifestText(Header, UpdatedManifest(h.manifest.value, listed))
      && ListsWheels(listed, Listing(r, WheelsPath(o)))
      && |listed| == |WheelNames(Listing(r, WheelsPath(o)))|
  {
    FinishedManifest(Prepared(t, o, h).tree, o, h, listed);
    ListedCount(listed, Listing(BuildRun(t, o, h, listed).tree, WheelsPath(o)));
  }
}
