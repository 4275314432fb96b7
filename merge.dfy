/** `merge_wheels`: bring the wheels built on other platforms into the
    primary wheels directory. */
module WheelMerge {
  import opened Results
  import opened BuildErrors
  import opened FileTree

  /** `len(list(d.glob("*.whl")))` */
  function WheelCount(t: Tree, d: Path): nat {
    |WheelNames(Listing(t, d))|
  }

  /** The first extra directory that does not exist. */
  function FirstMissing(t: Tree, extras: seq<Path>): Option<Path>
    decreases |extras|
  {
    if extras == [] then None
    else if extras[0] !in t then Some(extras[0])
    else FirstMissing(t, extras[1..])
  }

  /** The first extra directory whose wheel count is not `expected`. */
  function FirstMiscounted(t: Tree, extras: seq<Path>, expected: nat): Option<Path>
    decreases |extras|
  {
    if extras == [] then None
    else if WheelCount(t, extras[0]) != expected then Some(extras[0])
    else FirstMiscounted(t, extras[1..], expected)
  }

  /** The two checks `merge_wheels` makes before it copies anything: every
      extra directory exists, then every one holds as many wheels as the
      primary did. */
  function MergeCheck(t: Tree, primary: Path, extras: seq<Path>): Outcome<BuildError> {
    match FirstMissing(t, extras)
    case Some(e) => Fail(ExtraDirMissing(e))
    case None =>
      var expected := WheelCount(t, primary);
      match FirstMiscounted(t, extras, expected)
      case Some(e) => Fail(WheelCountMismatch(e, WheelCount(t, e), expected))
      case None => Pass
  }

  /** The wheels of `src` whose names `dst` does not have yet. */
  function NewWheels(src: Dir, dst: Dir): Dir {
    map n | n in src && IsWheel(n) && n !in dst :: src[n]
  }

  /** The copy loop for one extra directory. */
  function Absorb(t: Tree, primary: Path, e: Path): (r: Tree)
    ensures r.Keys == t.Keys
  {
    if primary in t then t[primary := t[primary] + NewWheels(Listing(t, e), t[primary])] else t
  }

  /** The tree after the copy loops over all extra directories. */
  function MergeAll(t: Tree, primary: Path, extras: seq<Path>): (r: Tree)
    ensures r.Keys == t.Keys
    decreases |extras|
  {
    if extras == [] then t
    else Absorb(MergeAll(t, primary, extras[..|extras| - 1]), primary, extras[|extras| - 1])
  }

  /** Every wheel name found in the extra directories. */
  function AllWheels(t: Tree, extras: seq<Path>): set<string>
    decreases |extras|
  {
    if extras == [] then {}
    else AllWheels(t, extras[..|extras| - 1]) + WheelNames(Listing(t, extras[|extras| - 1]))
  }

  /** The content of wheel `n` in the first extra directory that has it. */
  function FirstWheel(t: Tree, extras: seq<Path>, n: string): Option<Content>
    decreases |extras|
  {
    if extras == [] then None
    else match FirstWheel(t, extras[..|extras| - 1], n)
      case Some(c) => Some(c)
      case None =>
        var d := Listing(t, extras[|extras| - 1]);
        if n in WheelNames(d) then Some(d[n]) else None
  }

  lemma {:induction false} FirstMissingNone(t: Tree, extras: seq<Path>)
    ensures FirstMissing(t, extras) == None <==> forall j :: 0 <= j < |extras| ==> extras[j] in t
    decreases |extras|
  {
    if extras != [] {
      FirstMissingNone(t, extras[1..]);
      assert forall j :: 1 <= j < |extras| ==> extras[j] == extras[1..][j - 1];
    }
  }

  lemma {:induction false} FirstMissingAt(t: Tree, extras: seq<Path>, i: nat)
    requires i < |extras| && extras[i] !in t
    requires forall j :: 0 <= j < i ==> extras[j] in t
    ensures FirstMissing(t, extras) == Some(extras[i])
    decreases i
  {
    if i > 0 {
      FirstMissingAt(t, extras[1..], i - 1);
    }
  }

  lemma {:induction false} FirstMiscountedNone(t: Tree, extras: seq<Path>, expected: nat)
    ensures FirstMiscounted(t, extras, expected) == None <==>
            forall j :: 0 <= j < |extras| ==> WheelCount(t, extras[j]) == expected
    decreases |extras|
  {
    if extras != [] {
      FirstMiscountedNone(t, extras[1..], expected);
      assert forall j :: 1 <= j < |extras| ==> extras[j] == extras[1..][j - 1];
    }
  }

  lemma {:induction false} FirstMiscountedAt(t: Tree, extras: seq<Path>, expected: nat, i: nat)
    requires i < |extras| && WheelCount(t, extras[i]) != expected
    requires forall j :: 0 <= j < i ==> WheelCount(t, extras[j]) == expected
    ensures FirstMiscounted(t, extras, expected) == Some(extras[i])
    decreases i
  {
    if i > 0 {
      FirstMiscountedAt(t, extras[1..], expected, i - 1);
    }
  }

  /** The merge goes ahead exactly when every extra directory exists and
      holds as many wheels as the primary. */
  lemma MergeCheckIff(t: Tree, primary: Path, extras: seq<Path>)
    ensures MergeCheck(t, primary, extras) == Pass <==>
            forall j :: 0 <= j < |extras| ==>
              extras[j] in t && WheelCount(t, extras[j]) == WheelCount(t, primary)
  {
    FirstMissingNone(t, extras);
    FirstMiscountedNone(t, extras, WheelCount(t, primary));
  }

  /** A missing extra directory is reported before any count mismatch. */
  lemma MissingReportedFirst(t: Tree, primary: Path, extras: seq<Path>, i: nat)
    requires i < |extras| && extras[i] !in t
    ensures MergeCheck(t, primary, extras).Fail?
    ensures MergeCheck(t, primary, extras).error.ExtraDirMissing?
  {
    FirstMissingNone(t, extras);
  }

  /** Only the primary directory changes, and a missing primary means
      nothing changes. */
  lemma {:induction false} MergeFrame(t: Tree, primary: Path, extras: seq<Path>)
    ensures var r := MergeAll(t, primary, extras);
      && (forall p :: p in t && p != primary ==> r[p] == t[p])
      && (primary !in t ==> r == t)
    decreases |extras|
  {
    if extras != [] {
      MergeFrame(t, primary, extras[..|extras| - 1]);
    }
  }

  /** A file the primary already had is never replaced, and the only names
      it gains are the extra directories' wheels. */
  lemma {:induction false} MergeKeeps(t: Tree, primary: Path, extras: seq<Path>)
    requires primary in t
    ensures var r := MergeAll(t, primary, extras);
      && (forall n :: n in t[primary] ==> n in r[primary] && r[primary][n] == t[primary][n])
      && r[primary].Keys <= t[primary].Keys + AllWheels(t, extras)
    decreases |extras|
  {
    if extras != [] {
      var front := extras[..|extras| - 1];
      var e := extras[|extras| - 1];
      MergeKeeps(t, primary, front);
      MergeFrame(t, primary, front);
      var prev := MergeAll(t, primary, front);
      if e != primary {
        assert Listing(prev, e) == Listing(t, e);
      }
    }
  }

  /** The primary's wheels become its old wheels together with every extra
      directory's. */
  lemma {:induction false} MergeUnion(t: Tree, primary: Path, extras: seq<Path>)
    requires primary in t
    ensures WheelNames(MergeAll(t, primary, extras)[primary]) == WheelNames(t[primary]) + AllWheels(t, extras)
    decreases |extras|
  {
    if extras != [] {
      var front := extras[..|extras| - 1];
      var e := extras[|extras| - 1];
      MergeUnion(t, primary, front);
      MergeFrame(t, primary, front);
      var prev := MergeAll(t, primary, front);
      var r := MergeAll(t, primary, extras);
      assert r == Absorb(prev, primary, e);
      var src := Listing(prev, e);
      if e != primary {
        assert src == Listing(t, e);
      }
      assert WheelNames(r[primary]) == WheelNames(prev[primary]) + WheelNames(src);
    }
  }

  lemma {:induction false} FirstWheelSome(t: Tree, extras: seq<Path>, n: string)
    ensures FirstWheel(t, extras, n).Some? <==> n in AllWheels(t, extras)
    decreases |extras|
  {
    if extras != [] {
      FirstWheelSome(t, extras[..|extras| - 1], n);
    }
  }

  /** First writer wins: every wheel the merge adds has the content of the
      first extra directory, in the order given, that holds it. */
  lemma {:induction false} MergeFirstWriter(t: Tree, primary: Path, extras: seq<Path>, n: string)
    requires primary in t
    requires n in MergeAll(t, primary, extras)[primary] && n !in t[primary]
    ensures FirstWheel(t, extras, n) == Some(MergeAll(t, primary, extras)[primary][n])
    decreases |extras|
  {
    var front := extras[..|extras| - 1];
    var e := extras[|extras| - 1];
    var prev := MergeAll(t, primary, front);
    MergeFrame(t, primary, front);
    MergeKeeps(t, primary, front);
    MergeUnion(t, primary, front);
    if extras == [] {
    } else if n in prev[primary] {
      MergeFirstWriter(t, primary, front, n);
    } else {
      FirstWheelSome(t, front, n);
      assert e != primary;
      assert Listing(prev, e) == Listing(t, e);
    }
  }

  /** On success the primary holds the union, by file name, of its own
      wheels and every extra directory's; an existing file is never
      replaced, no other directory changes, and with no extra directory
      nothing changes at all. */
  lemma MergeOutcome(t: Tree, primary: Path, extras: seq<Path>)
    requires MergeCheck(t, primary, extras) == Pass
    ensures var r := MergeAll(t, primary, extras);
      && WheelNames(Listing(r, primary)) == WheelNames(Listing(t, primary)) + AllWheels(t, extras)
      && (forall n :: n in Listing(t, primary) ==> n in Listing(r, primary) && Listing(r, primary)[n] == t[primary][n])
      && (forall n :: n in Listing(r, primary) && !IsWheel(n) ==> n in Listing(t, primary))
      && r.Keys == t.Keys
      && (forall p :: p in t && p != primary ==> r[p] == t[p])
      && (extras == [] ==> r == t)
  {
    MergeFrame(t, primary, extras);
    if primary in t {
      MergeKeeps(t, primary, extras);
      MergeUnion(t, primary, extras);
    } else {
      MergeCheckIff(t, primary, extras);
      NoWheelsAnywhere(t, extras);
    }
  }

  lemma {:induction false} NoWheelsAnywhere(t: Tree, extras: seq<Path>)
    requires forall j :: 0 <= j < |extras| ==> WheelCount(t, extras[j]) == 0
    ensures AllWheels(t, extras) == {}
    decreases |extras|
  {
    if extras != [] {
      NoWheelsAnywhere(t, extras[..|extras| - 1]);
      assert WheelCount(t, extras[|extras| - 1]) == 0;
    }
  }

  /** The primary's files after the first `done` wheels of `src` were looked at. */
  function Partial(src: Dir, dst: Dir, pending: set<string>): Dir {
    dst + map n | n in src && IsWheel(n) && n !in dst && n !in pending :: src[n]
  }

  lemma PartialStart(src: Dir, dst: Dir)
    ensures Partial(src, dst, WheelNames(src)) == dst
  {
  }

  lemma PartialEnd(src: Dir, dst: Dir)
    ensures Partial(src, dst, {}) == dst + NewWheels(src, dst)
  {
  }

  lemma PartialStep(src: Dir, dst: Dir, pending: set<string>, f: string)
    requires f in pending && pending <= WheelNames(src)
    ensures f in Partial(src, dst, pending) <==> f in dst
    ensures f in dst ==> Partial(src, dst, pending - {f}) == Partial(src, dst, pending)
    ensures f !in dst ==> Partial(src, dst, pending - {f}) == Partial(src, dst, pending)[f := src[f]]
  {
  }

  /** The body of the copy loop for one extra directory: each wheel it
      lists is copied unless the primary has a file of that name. */
  method CopyNewWheels(fs: FileSystem, primary: Path, extraDir: Path)
    requires fs.Valid()
    requires primary in fs.dirs || WheelNames(Listing(fs.dirs, extraDir)) == {}
    modifies fs
    ensures fs.Valid()
    ensures fs.dirs == Absorb(old(fs.dirs), primary, extraDir)
  {
    ghost var before := fs.dirs;
    var src := fs.Files(extraDir);
    var pending := WheelNames(src);
    if primary in before {
      PartialStart(src, before[primary]);
      assert before[primary := Partial(src, before[primary], pending)] == before;
    }
    while pending != {}
      invariant pending <= WheelNames(src)
      invariant primary in before || pending == {}
      invariant fs.Valid()
      invariant primary !in before ==> fs.dirs == before
      invariant primary in before ==> fs.dirs == before[primary := Partial(src, before[primary], pending)]
      decreases pending
    {
      var wheel :| wheel in pending;
      PartialStep(src, before[primary], pending, wheel);
      if wheel !in fs.Files(primary) {
        fs.WriteFile(primary, wheel, src[wheel]);
      }
      pending := pending - {wheel};
    }
    if primary in before {
      PartialEnd(src, before[primary]);
    }
  }

  /** The checks at the head of `merge_wheels`, which read the tree and
      change nothing. */
  method CheckExtraDirs(fs: FileSystem, primary: Path, extras: seq<Path>) returns (r: Outcome<BuildError>)
    ensures r == MergeCheck(fs.dirs, primary, extras)
  {
    // Check if all extra wheels directories exist
    var i := 0;
    while i < |extras|
      invariant 0 <= i <= |extras|
      invariant forall j :: 0 <= j < i ==> extras[j] in fs.dirs
    {
      if !fs.Exists(extras[i]) {
        FirstMissingAt(fs.dirs, extras, i);
        return Fail(ExtraDirMissing(extras[i]));
      }
      i := i + 1;
    }
    FirstMissingNone(fs.dirs, extras);

    // Ensure all directories contain the same number of wheels
    var numCurrentWheels := |WheelNames(fs.Files(primary))|;
    i := 0;
    while i < |extras|
      invariant 0 <= i <= |extras|
      invariant forall j :: 0 <= j < i ==> WheelCount(fs.dirs, extras[j]) == numCurrentWheels
    {
      var wheelCount := |WheelNames(fs.Files(extras[i]))|;
      if numCurrentWheels != wheelCount {
        FirstMiscountedAt(fs.dirs, extras, numCurrentWheels, i);
        return Fail(WheelCountMismatch(extras[i], wheelCount, numCurrentWheels));
      }
      i := i + 1;
    }
    FirstMiscountedNone(fs.dirs, extras, numCurrentWheels);
    return Pass;
  }

  /** `merge_wheels(wheels_dir, extra_wheels_dirs)` */
  method MergeWheels(fs: FileSystem, primary: Path, extras: seq<Path>) returns (r: Outcome<BuildError>)
    requires fs.Valid()
    modifies fs
    ensures fs.Valid()
    ensures r == MergeCheck(old(fs.dirs), primary, extras)
    ensures r.Fail? ==> fs.dirs == old(fs.dirs)
    ensures r.Pass? ==> fs.dirs == MergeAll(old(fs.dirs), primary, extras)
  {
    ghost var t := fs.dirs;
    r := CheckExtraDirs(fs, primary, extras);
    if r.Fail? {
      return;
    }
    MergeCheckIff(t, primary, extras);

    // Merge wheels while avoiding duplicates
    var i := 0;
    while i < |extras|
      invariant 0 <= i <= |extras|
      invariant fs.Valid()
      invariant fs.dirs == MergeAll(t, primary, extras[..i])
    {
      assert extras[..i + 1][..i] == extras[..i];
      MergeFrame(t, primary, extras[..i]);
      var extraDir := extras[i];
      if primary !in fs.dirs {
        assert extraDir != primary && Listing(fs.dirs, extraDir) == Listing(t, extraDir);
        assert WheelCount(t, extraDir) == 0;
      }
      CopyNewWheels(fs, primary, extraDir);
      i := i + 1;
    }
    assert extras[..i] == extras;
  }
}
