/** `update_blender_manifest`: record the built wheels in the extension
    manifest written into the build directory. */
module Manifest {
  import opened Results
  import opened BuildErrors
  import opened Toml
  import opened FileTree

  const Header: string :=
    "# blender_manifest.toml generated by build_extension.py, please do not modify the wheels field.\n"
  const WheelsKey: string := "wheels"
  const WheelsDir: string := "wheels"
  const ManifestName: string := "blender_manifest.toml"

  /** `f.relative_to(build_dir).as_posix()` for the wheel `n` of `build_dir / "wheels"`. */
  function WheelEntry(n: string): string {
    WheelsDir + "/" + n
  }

  lemma WheelEntryInjective(a: string, b: string)
    ensures WheelEntry(a) == WheelEntry(b) <==> a == b
  {
    if WheelEntry(a) == WheelEntry(b) {
      assert a == WheelEntry(a)[|WheelsDir| + 1..];
      assert b == WheelEntry(b)[|WheelsDir| + 1..];
    }
  }

  /** No entry of `list` occurs twice. */
  predicate Distinct(list: seq<string>) {
    forall i, j :: 0 <= i < j < |list| ==> list[i] != list[j]
  }

  /** `list` names every wheel of `d` exactly once, in some order. */
  predicate ListsWheels(list: seq<string>, d: Dir) {
    && Distinct(list)
    && (set x | x in list) == (set n | n in WheelNames(d) :: WheelEntry(n))
  }

  /** The list comprehension over `wheels_dir.glob("*.whl")`; the order the
      directory yields its entries in is not fixed. */
  method WheelsList(fs: FileSystem, build: Path) returns (list: seq<string>)
    ensures ListsWheels(list, Listing(fs.dirs, build + [WheelsDir]))
  {
    var d := fs.Files(build + [WheelsDir]);
    var pending := WheelNames(d);
    list := [];
    while pending != {}
      invariant pending <= WheelNames(d)
      invariant Distinct(list)
      invariant (set x | x in list) == (set n | n in WheelNames(d) - pending :: WheelEntry(n))
      decreases pending
    {
      var wheel :| wheel in pending;
      ghost var done := set n | n in WheelNames(d) - pending :: WheelEntry(n);
      assert (set x | x in list) == done;
      forall x | x in list ensures x != WheelEntry(wheel) {
        assert x in done;
        var n :| n in WheelNames(d) - pending && x == WheelEntry(n);
        WheelEntryInjective(n, wheel);
      }
      ghost var before := list;
      list := list + [WheelEntry(wheel)];
      assert (set x | x in list) == (set x | x in before) + {WheelEntry(wheel)};
      assert (set n | n in WheelNames(d) - (pending - {wheel}) :: WheelEntry(n))
          == (set n | n in WheelNames(d) - pending :: WheelEntry(n)) + {WheelEntry(wheel)};
      pending := pending - {wheel};
    }
  }

  /** A list of the wheels has one entry per wheel. */
  lemma ListedCount(list: seq<string>, d: Dir)
    requires ListsWheels(list, d)
    ensures |list| == |WheelNames(d)|
  {
    DistinctCard(list);
    var image := set n | n in WheelNames(d) :: WheelEntry(n);
    ImageCard(WheelNames(d));
  }

  lemma {:induction false} DistinctCard(list: seq<string>)
    requires Distinct(list)
    ensures |set x | x in list| == |list|
  {
    if list != [] {
      var front := list[..|list| - 1];
      DistinctCard(front);
      assert (set x | x in list) == (set x | x in front) + {list[|list| - 1]};
    }
  }

  lemma {:induction false} ImageCard(names: set<string>)
    ensures |set n | n in names :: WheelEntry(n)| == |names|
    decreases |names|
  {
    if names != {} {
      var m :| m in names;
      ImageCard(names - {m});
      assert (set n | n in names :: WheelEntry(n)) == (set n | n in names - {m} :: WheelEntry(n)) + {WheelEntry(m)};
      forall n | n in names - {m} ensures WheelEntry(n) != WheelEntry(m) {
        WheelEntryInjective(n, m);
      }
    }
  }

  /** The list as a TOML array of strings. */
  function StrArray(list: seq<string>): (v: Value)
    ensures v.Arr? && |v.items| == |list|
    ensures forall i :: 0 <= i < |list| ==> v.items[i] == Str(list[i])
  {
    Arr(seq(|list|, i requires 0 <= i < |list| => Str(list[i])))
  }

  /** `manifest_data["wheels"] = wheels_list` */
  function UpdatedManifest(doc: Document, list: seq<string>): Document {
    doc[WheelsKey := StrArray(list)]
  }

  /** The manifest keeps every field but `wheels`, which becomes exactly the
      list, whether or not the manifest had one. */
  lemma ManifestFields(doc: Document, list: seq<string>)
    ensures var r := UpdatedManifest(doc, list);
      && r.Keys == doc.Keys + {WheelsKey}
      && (forall k :: k in doc && k != WheelsKey ==> r[k] == doc[k])
      && r[WheelsKey].Arr?
      && |r[WheelsKey].items| == |list|
      && (forall i :: 0 <= i < |list| ==> r[WheelsKey].items[i] == Str(list[i]))
  {
  }

  /** Updating twice with the same list is updating once. */
  lemma ManifestIdempotent(doc: Document, list: seq<string>)
    ensures UpdatedManifest(UpdatedManifest(doc, list), list) == UpdatedManifest(doc, list)
  {
  }

  /** The build directory after `build_dir / "blender_manifest.toml"` is written. */
  function WithManifest(t: Tree, build: Path, doc: Document, list: seq<string>): Tree
    requires build in t
  {
    t[build := t[build][ManifestName := ManifestText(Header, UpdatedManifest(doc, list))]]
  }

  /** `update_blender_manifest(build_dir, manifest)`. The manifest it reads is
      given already parsed (`None` when it cannot be read); `listed` is the
      wheel list in the order the directory produced it. */
  method UpdateBlenderManifest(fs: FileSystem, build: Path, manifest: Option<Document>)
      returns (r: Outcome<BuildError>, ghost listed: seq<string>)
    requires fs.Valid()
    modifies fs
    ensures fs.Valid()
    ensures ListsWheels(listed, Listing(old(fs.dirs), build + [WheelsDir]))
    ensures r == (if manifest.None? then Fail(ManifestUnreadable)
                  else if build !in old(fs.dirs) then Fail(NoSuchDirectory(build))
                  else Pass)
    ensures r.Fail? ==> fs.dirs == old(fs.dirs)
    ensures r.Pass? ==> fs.dirs == WithManifest(old(fs.dirs), build, manifest.value, listed)
  {
    var wheelsList := WheelsList(fs, build);
    listed := wheelsList;
    if manifest.None? {
      return Fail(ManifestUnreadable), listed;
    }
    var manifestData := UpdatedManifest(manifest.value, wheelsList);
    if !fs.Exists(build) {
      return Fail(NoSuchDirectory(build)), listed;
    }
    fs.WriteFile(build, ManifestName, ManifestText(Header, manifestData));
    r := Pass;
  }
}
