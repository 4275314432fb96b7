/** The two ways a build ends: `compress_wheels`, which packs the wheels
    alone, and `build_extension`, which has Blender assemble the extension
    archives and then drops the archives of other platforms. */
module Assembly {
  import opened Results
  import opened Strings
  import opened BuildErrors
  import opened FileTree
  import opened Platform
  import Manifest

  /** `f"batoms-wheels-{get_platform_string(connector='_')}.zip"` */
  function WheelsArchiveName(system: string, machine: string): string {
    "batoms-wheels-" + PlatformString(system, machine, "_") + ".zip"
  }

  /** The tree after `shutil.make_archive`: the export directory (created
      with its parents when missing) gains the archive of the wheels
      directory. */
  function Compressed(t: Tree, build: Path, exportDir: Path, name: string): (r: Tree)
    ensures exportDir in r
  {
    var made := WithDirs(t, exportDir);
    made[exportDir := made[exportDir][name := ZipOf(Listing(t, build + [Manifest.WheelsDir]))]]
  }

  /** `compress_wheels(build_dir, export_dir)` on a host reporting `system`
      and `machine`. */
  method CompressWheels(fs: FileSystem, build: Path, exportDir: Path, system: string, machine: string)
      returns (r: Outcome<BuildError>)
    requires fs.Valid()
    modifies fs
    ensures fs.Valid()
    ensures r == (if build + [Manifest.WheelsDir] in old(fs.dirs) then Pass else Fail(WheelsDirMissing))
    ensures r.Fail? ==> fs.dirs == old(fs.dirs)
    ensures r.Pass? ==> fs.dirs == Compressed(old(fs.dirs), build, exportDir, WheelsArchiveName(system, machine))
  {
    var wheelsDir := build + [Manifest.WheelsDir];
    if !fs.Exists(wheelsDir) {
      return Fail(WheelsDirMissing);
    }
    var zipName := WheelsArchiveName(system, machine);
    var contents := fs.Files(wheelsDir);
    fs.MakeDirs(exportDir);
    fs.WriteFile(exportDir, zipName, ZipOf(contents));
    r := Pass;
  }

  /** The archive holds exactly the files of the wheels directory, its name
      carries the platform, and nothing already in the tree changes except
      that one name of the export directory. */
  lemma CompressedSpec(t: Tree, build: Path, exportDir: Path, system: string, machine: string)
    ensures var name := WheelsArchiveName(system, machine);
      var r := Compressed(t, build, exportDir, name);
      && name in r[exportDir]
      && r[exportDir][name] == ZipOf(Listing(t, build + [Manifest.WheelsDir]))
      && r.Keys == t.Keys + Ancestors(exportDir)
      && (forall p :: p in t && p != exportDir ==> r[p] == t[p])
      && (forall n :: n in Listing(t, exportDir) && n != name ==> n in r[exportDir] && r[exportDir][n] == t[exportDir][n])
      && r[exportDir].Keys == Listing(t, exportDir).Keys + {name}
      && Contains(name, PlatformString(system, machine, "_"))
  {
    var name := WheelsArchiveName(system, machine);
    var p := PlatformString(system, machine, "_");
    assert OccursAt(name, p, |"batoms-wheels-"|);
  }

  /** Is `name` matched by the glob `batoms-*.zip`? */
  predicate IsArchive(name: string) {
    |name| >= |"batoms-"| + |".zip"| && StartsWith(name, "batoms-") && EndsWith(name, ".zip")
  }

  /** Is the file `name` removed when only the current platform is kept? */
  predicate Foreign(name: string, platform: string) {
    IsArchive(name) && !Contains(name, platform)
  }

  /** The export directory once the archives of other platforms are gone. */
  function Pruned(d: Dir, platform: string): Dir {
    map n | n in d && !Foreign(n, platform) :: d[n]
  }

  /** The tree after `build_extension`: both directories created, Blender's
      `output` written into the export directory, and, for a current-platform
      build, every archive not naming `platform` removed. */
  function Assembled(t: Tree, build: Path, exportDir: Path, output: Dir, currentOnly: bool, platform: string): (r: Tree)
    ensures exportDir in r
  {
    var made := WithDirs(WithDirs(t, build), exportDir);
    var out := made[exportDir := made[exportDir] + output];
    if currentOnly then out[exportDir := Pruned(out[exportDir], platform)] else out
  }

  /** Pruning keeps a file exactly when it is not an archive of another
      platform, and keeps its content. */
  lemma PrunedIff(d: Dir, platform: string, n: string)
    ensures n in Pruned(d, platform) <==> n in d && (!IsArchive(n) || Contains(n, platform))
    ensures n in Pruned(d, platform) ==> Pruned(d, platform)[n] == d[n]
  {
  }

  /** Every archive pruning leaves names the platform. */
  lemma PrunedArchivesNamePlatform(d: Dir, platform: string)
    ensures forall n :: n in Pruned(d, platform) && IsArchive(n) ==> Contains(n, platform)
  {
  }

  /** Pruning twice is pruning once. */
  lemma PrunedIdempotent(d: Dir, platform: string)
    ensures Pruned(Pruned(d, platform), platform) == Pruned(d, platform)
  {
  }

  /** After a current-platform build every archive left in the exportDir
      directory names the platform, and every other file there survives;
      otherwise the export directory keeps all Blender wrote. */
  lemma AssembledSpec(t: Tree, build: Path, exportDir: Path, output: Dir, currentOnly: bool, platform: string)
    ensures var r := Assembled(t, build, exportDir, output, currentOnly, platform);
      && build in r
      && r.Keys == t.Keys + Ancestors(build) + Ancestors(exportDir)
      && (forall p :: p in t && p != exportDir ==> r[p] == t[p])
      && (currentOnly ==> forall n :: n in r[exportDir] && IsArchive(n) ==> Contains(n, platform))
      && (forall n :: n in output && (!currentOnly || !Foreign(n, platform)) ==>
            n in r[exportDir] && r[exportDir][n] == output[n])
      && (forall n :: n in Listing(t, exportDir) && n !in output && (!currentOnly || !Foreign(n, platform)) ==>
            n in r[exportDir] && r[exportDir][n] == Listing(t, exportDir)[n])
      && (forall n :: n in r[exportDir] ==> n in output || n in Listing(t, exportDir))
  {
    var made := WithDirs(WithDirs(t, build), exportDir);
    var before := made[exportDir] + output;
    var out := made[exportDir := before];
    var r := Assembled(t, build, exportDir, output, currentOnly, platform);
    var last := if currentOnly then Pruned(before, platform) else before;
    assert r == out[exportDir := last];
    assert made[exportDir] == Listing(t, exportDir);
    forall p | p in t && p != exportDir ensures r[p] == t[p] {
      assert r[p] == made[p];
    }
    if currentOnly {
      PrunedArchivesNamePlatform(before, platform);
    }
    forall n | n in output && (!currentOnly || !Foreign(n, platform))
      ensures n in last && last[n] == output[n]
    {
      if currentOnly {
        PrunedIff(before, platform, n);
      }
    }
    forall n | n in Listing(t, exportDir) && n !in output && (!currentOnly || !Foreign(n, platform))
      ensures n in last && last[n] == Listing(t, exportDir)[n]
    {
      if currentOnly {
        PrunedIff(before, platform, n);
      }
    }
    forall n | n in last ensures n in output || n in Listing(t, exportDir) {
      if currentOnly {
        PrunedIff(before, platform, n);
      }
    }
  }

  /** Into an export directory that starts empty, `build_extension` leaves
      exactly Blender's output, pruned for a current-platform build. */
  lemma AssembledExport(t: Tree, build: Path, exportDir: Path, output: Dir, currentOnly: bool, platform: string)
    requires exportDir in t && t[exportDir] == map[]
    ensures Assembled(t, build, exportDir, output, currentOnly, platform)[exportDir] ==
            (if currentOnly then Pruned(output, platform) else output)
  {
    var made := WithDirs(WithDirs(t, build), exportDir);
    assert made[exportDir] == map[];
    assert made[exportDir] + output == output;
  }

  /** The prune loop's state: the archives still `pending` have not been
      looked at yet. */
  function PruneDone(d: Dir, platform: string, pending: set<string>): Dir {
    map n | n in d && (n in pending || !Foreign(n, platform)) :: d[n]
  }

  lemma PruneStart(d: Dir, platform: string)
    ensures PruneDone(d, platform, set n | n in d && IsArchive(n)) == d
  {
  }

  lemma PruneStep(d: Dir, platform: string, pending: set<string>, f: string)
    requires f in pending && pending <= d.Keys
    ensures f in PruneDone(d, platform, pending)
    ensures Foreign(f, platform) ==> PruneDone(d, platform, pending - {f}) == PruneDone(d, platform, pending) - {f}
    ensures !Foreign(f, platform) ==> PruneDone(d, platform, pending - {f}) == PruneDone(d, platform, pending)
  {
  }

  /** The loop over `export_dir.glob("batoms-*.zip")` that unlinks every
      archive whose name does not hold the platform string. */
  method RemoveForeignArchives(fs: FileSystem, exportDir: Path, platform: string)
    requires fs.Valid() && exportDir in fs.dirs
    modifies fs
    ensures fs.Valid()
    ensures fs.dirs == old(fs.dirs)[exportDir := Pruned(old(fs.dirs)[exportDir], platform)]
  {
    ghost var out := fs.dirs;
    var pending := set n | n in fs.Files(exportDir) && IsArchive(n);
    PruneStart(out[exportDir], platform);
    assert out[exportDir := out[exportDir]] == out;
    while pending != {}
      invariant pending <= out[exportDir].Keys
      invariant fs.Valid()
      invariant fs.dirs == out[exportDir := PruneDone(out[exportDir], platform, pending)]
      decreases pending
    {
      var zipFile :| zipFile in pending;
      PruneStep(out[exportDir], platform, pending, zipFile);
      if !Contains(zipFile, platform) {
        fs.Unlink(exportDir, zipFile);
      }
      pending := pending - {zipFile};
    }
    assert PruneDone(out[exportDir], platform, {}) == Pruned(out[exportDir], platform);
  }

  /** `build_extension(blender_bin, build_dir, export_dir, current_platform_only)`.
      Blender's run is the parameter `assembler`: the files it writes into
      the export directory, or `None` when it exits with an error. */
  method BuildExtension(fs: FileSystem, build: Path, exportDir: Path, assembler: Option<Dir>,
                        currentOnly: bool, system: string, machine: string)
      returns (r: Outcome<BuildError>)
    requires fs.Valid()
    modifies fs
    ensures fs.Valid()
    ensures r == (if assembler.None? then Fail(AssemblerFailed) else Pass)
    ensures r.Fail? ==> fs.dirs == WithDirs(WithDirs(old(fs.dirs), build), exportDir)
    ensures r.Pass? ==> fs.dirs == Assembled(old(fs.dirs), build, exportDir, assembler.value,
                                             currentOnly, PlatformString(system, machine, "_"))
  {
    fs.MakeDirs(build);
    fs.MakeDirs(exportDir);
    if assembler.None? {
      return Fail(AssemblerFailed);
    }
    fs.WriteFiles(exportDir, assembler.value);
    if currentOnly {
      var platformString := PlatformString(system, machine, "_");
      RemoveForeignArchives(fs, exportDir, platformString);
    }
    r := Pass;
  }
}
