/** The dependency snapshot (`get_installed_packages`): the `name==version`
    lines pip's `freeze` reports for Blender's site-packages, collected into an
    insertion-ordered dictionary without the packaging tools themselves.
    `freeze` and the site-packages lookup are not modelled: their output is
    the parameter `lines`. */
module Snapshot {
  import opened Results
  import opened Strings
  import opened BuildErrors

  datatype Pin = Pin(name: string, version: string)

  /** A Python dict from package name to version, in insertion order. */
  type Snapshot = seq<Pin>

  /** The packaging-tool family that never enters the snapshot. */
  const Excluded: set<string> := {"pip", "wheel", "setuptools", "distribute"}

  predicate DistinctNames(s: Snapshot) {
    forall i, j :: 0 <= i < j < |s| ==> s[i].name != s[j].name
  }

  function Names(s: Snapshot): set<string> {
    set p | p in s :: p.name
  }

  /** `d.get(n)` */
  function Lookup(s: Snapshot, n: string): Option<string>
    decreases |s|
  {
    if s == [] then None
    else if s[0].name == n then Some(s[0].version)
    else Lookup(s[1..], n)
  }

  /** `d[name] = version`: an existing key keeps its place and takes the new
      version, a new key goes last. */
  function Put(s: Snapshot, name: string, version: string): (r: Snapshot)
    ensures Lookup(r, name) == Some(version)
    ensures forall n :: n != name ==> Lookup(r, n) == Lookup(s, n)
    decreases |s|
  {
    if s == [] then [Pin(name, version)]
    else if s[0].name == name then [Pin(name, version)] + s[1..]
    else [s[0]] + Put(s[1..], name, version)
  }

  /** Assignment adds the name to the keys and removes none. */
  lemma {:induction false} PutNames(s: Snapshot, name: string, version: string)
    ensures Names(Put(s, name, version)) == Names(s) + {name}
    decreases |s|
  {
    if s != [] {
      var r := Put(s, name, version);
      assert Names(s) == {s[0].name} + Names(s[1..]);
      assert Names(r) == {r[0].name} + Names(r[1..]);
      if s[0].name != name {
        PutNames(s[1..], name, version);
      }
    }
  }

  /** A new key is appended. */
  lemma PutAppends(s: Snapshot, name: string, version: string)
    requires name !in Names(s)
    ensures Put(s, name, version) == s + [Pin(name, version)]
  {
    forall i | 0 <= i < |s| ensures s[i].name != name {
      assert s[i] in s;
    }
    PutAppendsAt(s, name, version);
  }

  lemma {:induction false} PutAppendsAt(s: Snapshot, name: string, version: string)
    requires forall i :: 0 <= i < |s| ==> s[i].name != name
    ensures Put(s, name, version) == s + [Pin(name, version)]
    decreases |s|
  {
    if s != [] {
      var tail := s[1..];
      forall i | 0 <= i < |tail| ensures tail[i].name != name {
        assert tail[i] == s[i + 1];
      }
      PutAppendsAt(tail, name, version);
      calc {
        Put(s, name, version);
        { assert s[0].name != name; }
        [s[0]] + Put(tail, name, version);
        [s[0]] + (tail + [Pin(name, version)]);
        { assert [s[0]] + tail == s; }
        s + [Pin(name, version)];
      }
    }
  }

  /** An existing key is overwritten where it stands. */
  lemma {:induction false} PutInPlace(s: Snapshot, name: string, version: string)
    requires DistinctNames(s) && name in Names(s)
    ensures |Put(s, name, version)| == |s|
    ensures forall i :: 0 <= i < |s| ==>
              Put(s, name, version)[i] == (if s[i].name == name then Pin(name, version) else s[i])
    decreases |s|
  {
    assert Names(s) == {s[0].name} + Names(s[1..]);
    if s[0].name == name {
      assert forall i :: 1 <= i < |s| ==> s[i].name != name;
    } else {
      PutInPlace(s[1..], name, version);
    }
  }

  /** Distinct keys stay distinct. */
  lemma {:induction false} PutDistinct(s: Snapshot, name: string, version: string)
    requires DistinctNames(s)
    ensures DistinctNames(Put(s, name, version))
  {
    var r := Put(s, name, version);
    if name in Names(s) {
      PutInPlace(s, name, version);
      forall i, j | 0 <= i < j < |r| ensures r[i].name != r[j].name {
        assert r[i].name == s[i].name && r[j].name == s[j].name;
      }
    } else {
      PutAppends(s, name, version);
      forall i, j | 0 <= i < j < |r| ensures r[i].name != r[j].name {
        if j == |s| {
          assert s[i] in s;
        }
      }
    }
  }

  /** One freeze line, unpacked as `pkg_name, version = pkg.split("==")`. */
  function ParseLine(line: string): Result<Pin, BuildError> {
    var parts := Split(line);
    if |parts| == 2 then Ok(Pin(parts[0], parts[1])) else Err(UnpackError(line))
  }

  /** The loop body once a line has been unpacked. */
  function Record(s: Snapshot, p: Pin): Snapshot {
    if p.name in Excluded then s else Put(s, p.name, p.version)
  }

  /** What `get_installed_packages` returns, or the error of the first line
      that does not unpack. */
  function SnapshotOf(lines: seq<string>): Result<Snapshot, BuildError>
    decreases |lines|
  {
    if lines == [] then Ok([])
    else
      var prev :- SnapshotOf(lines[..|lines| - 1]);
      var pin :- ParseLine(lines[|lines| - 1]);
      Ok(Record(prev, pin))
  }

  /** An error in a prefix is the error of the whole run. */
  lemma {:induction false} ErrorSticks(lines: seq<string>, k: nat)
    requires k <= |lines| && SnapshotOf(lines[..k]).Err?
    ensures SnapshotOf(lines) == SnapshotOf(lines[..k])
    decreases |lines| - k
  {
    if k < |lines| {
      var front := lines[..|lines| - 1];
      assert front[..k] == lines[..k];
      ErrorSticks(front, k);
    } else {
      assert lines[..k] == lines;
    }
  }

  /** `get_installed_packages`: the loop filling `pkg_dict`. */
  method InstalledPackages(lines: seq<string>) returns (r: Result<Snapshot, BuildError>)
    ensures r == SnapshotOf(lines)
  {
    var pkgDict: Snapshot := [];
    var i := 0;
    while i < |lines|
      invariant 0 <= i <= |lines|
      invariant SnapshotOf(lines[..i]) == Ok(pkgDict)
    {
      assert lines[..i + 1][..i] == lines[..i];
      var parts := Split(lines[i]);
      if |parts| != 2 {
        ErrorSticks(lines, i + 1);
        return Err(UnpackError(lines[i]));
      }
      var pkgName, version := parts[0], parts[1];
      if pkgName !in Excluded {
        pkgDict := Put(pkgDict, pkgName, version);
      }
      i := i + 1;
    }
    assert lines[..i] == lines;
    return Ok(pkgDict);
  }

  /** The version the last line naming `n` pins, if any: an independent
      reading of "a later duplicate overwrites an earlier one". */
  function LastVersion(lines: seq<string>, n: string): Option<string>
    decreases |lines|
  {
    if lines == [] then None
    else
      var parts := Split(lines[|lines| - 1]);
      if |parts| == 2 && parts[0] == n then Some(parts[1])
      else LastVersion(lines[..|lines| - 1], n)
  }

  /** Every parsed name maps to the version of its last line, and the
      packaging tools are never present. */
  lemma {:induction false} SnapshotLookup(lines: seq<string>, n: string)
    requires SnapshotOf(lines).Ok?
    ensures Lookup(SnapshotOf(lines).value, n) == (if n in Excluded then None else LastVersion(lines, n))
    decreases |lines|
  {
    if lines != [] {
      SnapshotLookup(lines[..|lines| - 1], n);
    }
  }

  /** The snapshot never holds a packaging tool. */
  lemma SnapshotExcludesTools(lines: seq<string>)
    requires SnapshotOf(lines).Ok?
    ensures Names(SnapshotOf(lines).value) !! Excluded
  {
    var s := SnapshotOf(lines).value;
    forall n | n in Excluded ensures n !in Names(s) {
      SnapshotLookup(lines, n);
      LookupNames(s, n);
    }
  }

  lemma {:induction false} LookupNames(s: Snapshot, n: string)
    ensures Lookup(s, n).Some? <==> n in Names(s)
    decreases |s|
  {
    if s != [] {
      LookupNames(s[1..], n);
      assert Names(s) == {s[0].name} + Names(s[1..]);
    }
  }

  /** The run fails exactly when some line does not unpack into two parts. */
  lemma {:induction false} SnapshotOkIff(lines: seq<string>)
    ensures (forall i :: 0 <= i < |lines| ==> |Split(lines[i])| == 2) <==> SnapshotOf(lines).Ok?
    decreases |lines|
  {
    if lines != [] {
      var front := lines[..|lines| - 1];
      var last := lines[|lines| - 1];
      SnapshotOkIff(front);
      assert SnapshotOf(lines).Ok? <==> SnapshotOf(front).Ok? && |Split(last)| == 2;
      assert forall j :: 0 <= j < |front| ==> front[j] == lines[j];
    }
  }

  /** The error names the first line that does not unpack. */
  lemma {:induction false} SnapshotFirstError(lines: seq<string>, i: nat)
    requires i < |lines| && |Split(lines[i])| != 2
    requires forall j :: 0 <= j < i ==> |Split(lines[j])| == 2
    ensures SnapshotOf(lines) == Err(UnpackError(lines[i]))
    decreases |lines|
  {
    var front := lines[..|lines| - 1];
    if i < |front| {
      assert front[i] == lines[i];
      assert forall j :: 0 <= j < i ==> front[j] == lines[j];
      SnapshotFirstError(front, i);
    } else {
      SnapshotOkIff(front);
      assert forall j :: 0 <= j < |front| ==> front[j] == lines[j];
    }
  }

  /** What a snapshot built by `SnapshotOf` looks like: distinct names, no
      packaging tool, and names and versions that print back unambiguously. */
  predicate WellFormed(s: Snapshot) {
    && DistinctNames(s)
    && Names(s) !! Excluded
    && AllPrintable(s)
  }

  /** Each name and version prints back unambiguously. */
  predicate PrintablePin(p: Pin) {
    NoSep(p.name) && !EndsWith(p.name, "=") && NoSep(p.version)
  }

  /** Every pin of `s` prints back unambiguously. */
  predicate AllPrintable(s: Snapshot) {
    forall i :: 0 <= i < |s| ==> PrintablePin(s[i])
  }

  /** One loop step keeps every pin printable. */
  lemma RecordPrintable(prev: Snapshot, pin: Pin)
    requires DistinctNames(prev) && AllPrintable(prev) && PrintablePin(pin)
    ensures AllPrintable(Record(prev, pin))
  {
    if pin.name !in Excluded {
      var s := Put(prev, pin.name, pin.version);
      if pin.name in Names(prev) {
        PutInPlace(prev, pin.name, pin.version);
        forall i | 0 <= i < |s| ensures PrintablePin(s[i]) {
          assert s[i] == pin || s[i] == prev[i];
        }
      } else {
        PutAppends(prev, pin.name, pin.version);
        forall i | 0 <= i < |s| ensures PrintablePin(s[i]) {
          assert s[i] == if i < |prev| then prev[i] else pin;
        }
      }
    }
  }

  /** One loop step keeps the snapshot well formed. */
  lemma RecordWellFormed(prev: Snapshot, pin: Pin)
    requires WellFormed(prev) && PrintablePin(pin)
    ensures WellFormed(Record(prev, pin))
  {
    RecordPrintable(prev, pin);
    if pin.name !in Excluded {
      PutDistinct(prev, pin.name, pin.version);
      PutNames(prev, pin.name, pin.version);
    }
  }

  lemma {:induction false} SnapshotWellFormed(lines: seq<string>)
    requires SnapshotOf(lines).Ok?
    ensures WellFormed(SnapshotOf(lines).value)
    decreases |lines|
  {
    if lines != [] {
      var front := lines[..|lines| - 1];
      SnapshotWellFormed(front);
      var line := lines[|lines| - 1];
      SplitShape(line);
      var pin := ParseLine(line).value;
      assert PrintablePin(pin) by {
        assert Split(line) == [pin.name, pin.version];
      }
      RecordWellFormed(SnapshotOf(front).value, pin);
    }
  }

  /** `f"{pkg}=={ver}"` */
  function PinLine(p: Pin): string {
    p.name + Sep + p.version
  }

  /** The snapshot written out as requirement lines, in dict order. */
  function PinLines(s: Snapshot): (r: seq<string>)
    ensures |r| == |s|
    ensures forall i :: 0 <= i < |s| ==> r[i] == PinLine(s[i])
  {
    seq(|s|, i requires 0 <= i < |s| => PinLine(s[i]))
  }

  /** A well-formed snapshot written out as `name==version` lines parses back
      into itself. */
  lemma {:induction false} PinLinesRoundTrip(s: Snapshot)
    requires WellFormed(s)
    ensures SnapshotOf(PinLines(s)) == Ok(s)
    decreases |s|
  {
    if s != [] {
      var front := s[..|s| - 1];
      var last := s[|s| - 1];
      FrontWellFormed(s);
      PinLinesRoundTrip(front);
      PinLinesSnoc(s);
      LastLineParses(s);
      RecordLast(s);
      SnapshotOfSnoc(PinLines(s), front, last);
    }
  }

  /** The lines of a snapshot are the lines of all but its last pin, then
      the last pin's line. */
  lemma PinLinesSnoc(s: Snapshot)
    requires s != []
    ensures PinLines(s)[..|s| - 1] == PinLines(s[..|s| - 1])
    ensures PinLines(s)[|s| - 1] == PinLine(s[|s| - 1])
  {
  }

  /** One more line that unpacks extends the snapshot by one loop step. */
  lemma SnapshotOfSnoc(lines: seq<string>, prev: Snapshot, pin: Pin)
    requires lines != []
    requires SnapshotOf(lines[..|lines| - 1]) == Ok(prev)
    requires ParseLine(lines[|lines| - 1]) == Ok(pin)
    ensures SnapshotOf(lines) == Ok(Record(prev, pin))
  {
  }

  /** The last pin's line unpacks into that pin. */
  lemma LastLineParses(s: Snapshot)
    requires AllPrintable(s) && s != []
    ensures ParseLine(PinLine(s[|s| - 1])) == Ok(s[|s| - 1])
  {
    var last := s[|s| - 1];
    assert PrintablePin(last);
    SplitPin(last.name, last.version);
  }

  /** Recording the last pin of a well-formed snapshot after the others
      rebuilds the snapshot. */
  lemma RecordLast(s: Snapshot)
    requires WellFormed(s) && s != []
    ensures Record(s[..|s| - 1], s[|s| - 1]) == s
  {
    var front := s[..|s| - 1];
    var last := s[|s| - 1];
    assert last.name !in Excluded by {
      assert last in s;
    }
    LastNameFresh(s);
    PutAppends(front, last.name, last.version);
    assert front + [last] == s;
  }

  lemma FrontWellFormed(s: Snapshot)
    requires WellFormed(s) && s != []
    ensures WellFormed(s[..|s| - 1])
  {
    var front := s[..|s| - 1];
    assert Names(front) <= Names(s) by {
      forall p | p in front ensures p in s {
      }
    }
  }

  lemma LastNameFresh(s: Snapshot)
    requires DistinctNames(s) && s != []
    ensures s[|s| - 1].name !in Names(s[..|s| - 1])
  {
  }

  /** Printing the snapshot and parsing it again changes nothing. */
  lemma SnapshotReparses(lines: seq<string>)
    requires SnapshotOf(lines).Ok?
    ensures SnapshotOf(PinLines(SnapshotOf(lines).value)) == SnapshotOf(lines)
  {
    SnapshotWellFormed(lines);
    PinLinesRoundTrip(SnapshotOf(lines).value);
  }
}
