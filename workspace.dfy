/** Preparing the build workspace: `clear_dirs`, `copy_source_code` and the
    removal of stale wheels at the start of `build_wheels`. */
module Workspace {
  import opened Results
  import opened BuildErrors
  import opened FileTree

  /** Two different directories one of which lies inside the other. */
  predicate Nested(a: Path, b: Path) {
    a != b && (IsPrefix(a, b) || IsPrefix(b, a))
  }

  /** One iteration of `clear_dirs`: remove the directory if it exists, then
      recreate it. */
  function ClearOne(t: Tree, d: Path): Tree {
    WithDirs(if d in t then WithoutTree(t, d) else t, d)
  }

  /** `clear_dirs(*ds)` on the tree `t`. */
  function ClearAll(t: Tree, ds: seq<Path>): Tree
    decreases |ds|
  {
    if ds == [] then t else ClearOne(ClearAll(t, ds[..|ds| - 1]), ds[|ds| - 1])
  }

  lemma {:induction false} ClearAllClosed(t: Tree, ds: seq<Path>)
    requires PrefixClosed(t)
    ensures PrefixClosed(ClearAll(t, ds))
    decreases |ds|
  {
    if ds != [] {
      var prev := ClearAll(t, ds[..|ds| - 1]);
      ClearAllClosed(t, ds[..|ds| - 1]);
      RemoveTreeClosed(prev, ds[|ds| - 1]);
      MakeDirsClosed(if ds[|ds| - 1] in prev then WithoutTree(prev, ds[|ds| - 1]) else prev, ds[|ds| - 1]);
    }
  }

  /** A directory in the tree, empty of files and of subdirectories. */
  predicate EmptyDir(t: Tree, d: Path) {
    && d in t && t[d] == map[]
    && forall q :: q in t && IsPrefix(d, q) ==> q == d
  }

  /** Clearing one directory leaves it existing and empty, whatever it held. */
  lemma ClearOneEmpties(t: Tree, d: Path)
    requires PrefixClosed(t)
    ensures EmptyDir(ClearOne(t, d), d)
  {
    var mid := if d in t then WithoutTree(t, d) else t;
    var r := ClearOne(t, d);
    forall q | q in r && IsPrefix(d, q) ensures q == d {
      if q !in mid {
        var k :| 0 <= k <= |d| && q == d[..k];
      }
    }
  }

  /** Clearing a directory unrelated to `d` keeps `d` existing and empty. */
  lemma ClearOneKeepsEmpty(t: Tree, d: Path, e: Path)
    requires PrefixClosed(t) && EmptyDir(t, d) && d != e && !Nested(d, e)
    ensures EmptyDir(ClearOne(t, e), d)
  {
  }

  /** After `clear_dirs(*ds)` every listed directory that no later listed
      directory contains or lies in exists and is empty, whatever the tree
      held before. */
  lemma {:induction false} ClearAllEmpties(t: Tree, ds: seq<Path>, i: nat)
    requires PrefixClosed(t) && i < |ds|
    requires forall j :: i < j < |ds| ==> !Nested(ds[i], ds[j])
    ensures EmptyDir(ClearAll(t, ds), ds[i])
    decreases |ds|
  {
    var front := ds[..|ds| - 1];
    ClearAllClosed(t, front);
    var prev := ClearAll(t, front);
    if i == |ds| - 1 || ds[|ds| - 1] == ds[i] {
      ClearOneEmpties(prev, ds[|ds| - 1]);
    } else {
      assert forall j :: i < j < |front| ==> front[j] == ds[j];
      ClearAllEmpties(t, front, i);
      ClearOneKeepsEmpty(prev, ds[i], ds[|ds| - 1]);
    }
  }

  /** `clear_dirs(*dirs)` */
  method ClearDirs(fs: FileSystem, ds: seq<Path>)
    requires fs.Valid()
    modifies fs
    ensures fs.Valid() && fs.dirs == ClearAll(old(fs.dirs), ds)
  {
    var i := 0;
    while i < |ds|
      invariant 0 <= i <= |ds|
      invariant fs.Valid() && fs.dirs == ClearAll(old(fs.dirs), ds[..i])
    {
      assert ds[..i + 1][..i] == ds[..i];
      var directory := ds[i];
      if fs.Exists(directory) {
        fs.RemoveTree(directory);
      }
      fs.MakeDirs(directory);
      assert fs.dirs == ClearOne(ClearAll(old(fs.dirs), ds[..i]), directory);
      i := i + 1;
    }
    assert ds[..i] == ds;
  }

  /** `copy_source_code(source_code, build_dir)` */
  method CopySourceCode(fs: FileSystem, source: Path, build: Path) returns (r: Outcome<BuildError>)
    requires fs.Valid()
    modifies fs
    ensures fs.Valid()
    ensures r == (if source in old(fs.dirs) then Pass else Fail(SourceMissing(source)))
    ensures r.Pass? ==> fs.dirs == WithTreeCopy(old(fs.dirs), source, build)
    ensures r.Fail? ==> fs.dirs == old(fs.dirs)
  {
    if !fs.Exists(source) {
      return Fail(SourceMissing(source));
    }
    fs.CopyTree(source, build);
    return Pass;
  }

  /** The directory with every `*.whl` file removed. */
  function WithoutWheels(d: Dir): Dir {
    map n | n in d && !IsWheel(n) :: d[n]
  }

  /** The tree after the clearing step of `build_wheels`. */
  function ClearedWheels(t: Tree, w: Path): Tree {
    var made := WithDirs(t, w);
    made[w := WithoutWheels(made[w])]
  }

  /** After the clearing step the wheels directory exists and holds no wheel,
      its other files are untouched, and so is every other directory. */
  lemma ClearedWheelsSpec(t: Tree, w: Path)
    ensures var r := ClearedWheels(t, w);
      && w in r && WheelNames(r[w]) == {}
      && (forall n :: n in Listing(t, w) && !IsWheel(n) ==> n in r[w] && r[w][n] == t[w][n])
      && (forall n :: n in r[w] ==> n in Listing(t, w))
      && r.Keys == t.Keys + Ancestors(w)
      && (forall p :: p in t && p != w ==> r[p] == t[p])
  {
  }

  /** The directory's files except the wheels not in `pending`. */
  function KeepPending(d: Dir, pending: set<string>): Dir {
    map n | n in d && (!IsWheel(n) || n in pending) :: d[n]
  }

  lemma KeepAll(d: Dir)
    ensures KeepPending(d, WheelNames(d)) == d
  {
  }

  lemma KeepNone(d: Dir)
    ensures KeepPending(d, {}) == WithoutWheels(d)
  {
  }

  lemma KeepStep(d: Dir, pending: set<string>, f: string)
    requires f in pending && pending <= WheelNames(d)
    ensures f in KeepPending(d, pending)
    ensures KeepPending(d, pending) - {f} == KeepPending(d, pending - {f})
  {
  }

  /** The clearing step of `build_wheels`: create the wheels directory and
      unlink every `*.whl` in it, one file at a time. */
  method ClearWheels(fs: FileSystem, w: Path)
    requires fs.Valid()
    modifies fs
    ensures fs.Valid() && fs.dirs == ClearedWheels(old(fs.dirs), w)
  {
    fs.MakeDirs(w);
    ghost var made := fs.dirs;
    var pending := WheelNames(fs.Files(w));
    KeepAll(made[w]);
    assert made[w := KeepPending(made[w], pending)] == made;
    while pending != {}
      invariant fs.Valid()
      invariant pending <= WheelNames(made[w])
      invariant fs.dirs == made[w := KeepPending(made[w], pending)]
      decreases pending
    {
      var f :| f in pending;
      KeepStep(made[w], pending, f);
      fs.Unlink(w, f);
      pending := pending - {f};
    }
    KeepNone(made[w]);
  }
}
