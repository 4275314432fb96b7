/** An abstract file system: the directories that exist, each with the files
    directly inside it. Paths are sequences of components, a file is its name
    in its directory. The class stands for the host's file system; its
    methods are the `pathlib`/`shutil` calls the build script makes. */
module FileTree {
  import opened Strings
  import Toml

  type Path = seq<string>

  /** What a file holds. Wheels and Blender's archives are opaque bytes; the
      archive `compress_wheels` makes holds the wheel directory's files; the
      manifest written by `update_blender_manifest` is its header comment
      followed by the printed document (printing is not modelled). */
  datatype Content =
    | Bytes(data: seq<int>)
    | ZipOf(files: map<string, Content>)
    | ManifestText(header: string, doc: Toml.Document)

  /** The files directly inside one directory, by name. */
  type Dir = map<string, Content>

  type Tree = map<Path, Dir>

  predicate IsPrefix(a: Path, b: Path) {
    |a| <= |b| && b[..|a|] == a
  }

  /** Every ancestor of an existing directory exists. */
  ghost predicate PrefixClosed(t: Tree) {
    forall p, k :: p in t && 0 <= k <= |p| ==> p[..k] in t
  }

  /** The files of `d`; globbing a missing directory finds nothing. */
  function Listing(t: Tree, d: Path): Dir {
    if d in t then t[d] else map[]
  }

  /** `d` and every ancestor of it. */
  function Ancestors(d: Path): set<Path> {
    set k | 0 <= k <= |d| :: d[..k]
  }

  /** `Path(d).mkdir(parents=True, exist_ok=True)` */
  function WithDirs(t: Tree, d: Path): (r: Tree)
    ensures d in r
    ensures r.Keys == t.Keys + Ancestors(d)
    ensures forall p :: p in t ==> r[p] == t[p]
    ensures forall p :: p in r && p !in t ==> r[p] == map[]
  {
    assert d == d[..|d|];
    t + map p | p in Ancestors(d) && p !in t :: map[]
  }

  /** `shutil.rmtree(d)`: `d` and everything below it disappear. */
  function WithoutTree(t: Tree, d: Path): (r: Tree)
    ensures forall p :: p in r <==> p in t && !IsPrefix(d, p)
    ensures forall p :: p in r ==> r[p] == t[p]
  {
    map p | p in t && !IsPrefix(d, p) :: t[p]
  }

  /** `shutil.copytree(src, dst, dirs_exist_ok=True)`: every directory below
      `src` is recreated below `dst`, files land under the same names and
      replace existing ones. */
  function WithTreeCopy(t: Tree, src: Path, dst: Path): Tree {
    var base := WithDirs(t, dst);
    var images := set p | p in t && IsPrefix(src, p) :: dst + p[|src|..];
    map q | q in base.Keys + images ::
      Listing(base, q) + (if IsPrefix(dst, q) && src + q[|dst|..] in t then t[src + q[|dst|..]] else map[])
  }

  lemma MakeDirsClosed(t: Tree, d: Path)
    requires PrefixClosed(t)
    ensures PrefixClosed(WithDirs(t, d))
  {
    var r := WithDirs(t, d);
    forall p, k | p in r && 0 <= k <= |p| ensures p[..k] in r {
      if p !in t {
        var j :| 0 <= j <= |d| && p == d[..j];
        assert p[..k] == d[..k];
      }
    }
  }

  lemma RemoveTreeClosed(t: Tree, d: Path)
    requires PrefixClosed(t)
    ensures PrefixClosed(WithoutTree(t, d))
  {
  }

  lemma CopyTreeClosed(t: Tree, src: Path, dst: Path)
    requires PrefixClosed(t)
    ensures PrefixClosed(WithTreeCopy(t, src, dst))
  {
    var base := WithDirs(t, dst);
    MakeDirsClosed(t, dst);
    var r := WithTreeCopy(t, src, dst);
    forall q, k | q in r && 0 <= k <= |q| ensures q[..k] in r {
      if q !in base {
        var p :| p in t && IsPrefix(src, p) && q == dst + p[|src|..];
        if k <= |dst| {
          assert q[..k] == dst[..k];
          assert dst[..k] in Ancestors(dst);
        } else {
          var p' := p[..|src| + k - |dst|];
          assert p' in t;
          assert p'[..|src|] == p[..|src|];
          assert q[..k] == dst + p'[|src|..];
        }
      }
    }
  }

  /** A copy into `dst` leaves the files of every directory outside `dst` as
      they were. */
  lemma CopyTreeFrame(t: Tree, src: Path, dst: Path, q: Path)
    requires !IsPrefix(dst, q)
    ensures Listing(WithTreeCopy(t, src, dst), q) == Listing(t, q)
  {
    var base := WithDirs(t, dst);
    var r := WithTreeCopy(t, src, dst);
    if q in r {
      assert q in base.Keys;
      assert r[q] == Listing(base, q);
    } else {
      assert q !in base;
    }
  }

  /** Every file below `src` is found at the same relative place below
      `dst`, with the same content. */
  lemma CopyTreeCopies(t: Tree, src: Path, dst: Path, p: Path, f: string)
    requires src + p in t && f in t[src + p]
    ensures dst + p in WithTreeCopy(t, src, dst)
    ensures WithTreeCopy(t, src, dst)[dst + p][f] == t[src + p][f]
  {
    var q := dst + p;
    assert (src + p)[..|src|] == src;
    assert (src + p)[|src|..] == p;
    assert q[..|dst|] == dst && q[|dst|..] == p;
  }

  /** Is `name` matched by the glob `*.whl`? */
  predicate IsWheel(name: string) {
    EndsWith(name, ".whl")
  }

  /** The names `d.glob("*.whl")` reports. */
  function WheelNames(d: Dir): set<string> {
    set n | n in d && IsWheel(n)
  }

  class FileSystem {
    var dirs: Tree

    ghost predicate Valid()
      reads this
    {
      PrefixClosed(dirs)
    }

    constructor (initial: Tree)
      requires PrefixClosed(initial)
      ensures Valid() && dirs == initial
    {
      dirs := initial;
    }

    /** `Path(d).exists()` for a directory */
    function Exists(d: Path): (b: bool)
      reads this
      ensures b <==> d in dirs
    {
      d in dirs
    }

    /** The files of `d`, or none when it is missing. */
    function Files(d: Path): (f: Dir)
      reads this
      ensures d in dirs ==> f == dirs[d]
      ensures d !in dirs ==> f == map[]
    {
      Listing(dirs, d)
    }

    method MakeDirs(d: Path)
      requires Valid()
      modifies this
      ensures Valid() && dirs == WithDirs(old(dirs), d)
    {
      MakeDirsClosed(dirs, d);
      dirs := WithDirs(dirs, d);
    }

    method RemoveTree(d: Path)
      requires Valid() && d in dirs
      modifies this
      ensures Valid() && dirs == WithoutTree(old(dirs), d)
    {
      RemoveTreeClosed(dirs, d);
      dirs := WithoutTree(dirs, d);
    }

    method CopyTree(src: Path, dst: Path)
      requires Valid() && src in dirs
      modifies this
      ensures Valid() && dirs == WithTreeCopy(old(dirs), src, dst)
    {
      CopyTreeClosed(dirs, src, dst);
      dirs := WithTreeCopy(dirs, src, dst);
    }

    /** `(d / name).unlink()` */
    method Unlink(d: Path, name: string)
      requires Valid() && d in dirs && name in dirs[d]
      modifies this
      ensures Valid() && dirs == old(dirs)[d := old(dirs)[d] - {name}]
    {
      dirs := dirs[d := dirs[d] - {name}];
    }

    /** Write (or overwrite) the file `d / name`, as `open(..., "w")`,
        `shutil.copy2` and the external tools do. */
    method WriteFile(d: Path, name: string, c: Content)
      requires Valid() && d in dirs
      modifies this
      ensures Valid() && dirs == old(dirs)[d := old(dirs)[d][name := c]]
    {
      dirs := dirs[d := dirs[d][name := c]];
    }

    /** Files an external tool writes into `d` in one go. */
    method WriteFiles(d: Path, files: Dir)
      requires Valid() && d in dirs
      modifies this
      ensures Valid() && dirs == old(dirs)[d := old(dirs)[d] + files]
    {
      dirs := dirs[d := dirs[d] + files];
    }
  }
}
