/** The pyproject rewrite (`generate_updated_pyproject`): pin the snapshot as
    the `blender-extension` optional-dependency group. The document is the
    already-loaded TOML table; reading and writing the file is not modelled. */
module Pyproject {
  import opened Results
  import opened Strings
  import opened BuildErrors
  import opened Toml
  import opened Snapshot

  const ProjectKey: string := "project"
  const DepsKey: string := "optional-dependencies"
  const GroupKey: string := "blender-extension"

  /** `d.get(key, {})` on a table */
  function GetOr(d: map<string, Value>, key: string): Value {
    if key in d then d[key] else Table(map[])
  }

  /** `"blender-extension" in v`, with Python's meaning of `in` for each kind
      of value, or the TypeError a scalar raises. */
  function GroupIn(v: Value): Result<bool, BuildError> {
    match v
    case Table(f) => Ok(GroupKey in f)
    case Str(s) => Ok(Contains(s, GroupKey))
    case Arr(xs) => Ok(Str(GroupKey) in xs)
    case Scalar(_) => Err(DependenciesNotIterable)
  }

  /** The pinned requirement strings, in snapshot order. */
  function PinValues(s: Snapshot): (r: seq<Value>)
    ensures |r| == |s|
    ensures forall i :: 0 <= i < |s| ==> r[i] == Str(PinLine(s[i]))
  {
    seq(|s|, i requires 0 <= i < |s| => Str(PinLine(s[i])))
  }

  /** `generate_updated_pyproject` on the loaded document. */
  function UpdatedPyproject(doc: Document, pins: Snapshot): Result<Document, BuildError> {
    var project := GetOr(doc, ProjectKey);
    if !project.Table? then Err(ProjectNotTable)
    else
      var deps := GetOr(project.fields, DepsKey);
      var found :- GroupIn(deps);
      if !found then Err(MissingExtensionGroup)
      else if !deps.Table? then Err(DependenciesNotTable)
      else
        var newDeps := Table(deps.fields[GroupKey := Arr(PinValues(pins))]);
        Ok(doc[ProjectKey := Table(project.fields[DepsKey := newDeps])])
  }

  /** The document carries the group as a table entry of a table of a table. */
  predicate HasGroup(doc: Document) {
    && ProjectKey in doc && doc[ProjectKey].Table?
    && DepsKey in doc[ProjectKey].fields && doc[ProjectKey].fields[DepsKey].Table?
    && GroupKey in doc[ProjectKey].fields[DepsKey].fields
  }

  /** The group at its place in a document that has one. */
  function Group(doc: Document): Value
    requires HasGroup(doc)
  {
    doc[ProjectKey].fields[DepsKey].fields[GroupKey]
  }

  /** The rewrite succeeds exactly on documents that have the group. */
  lemma UpdatedIff(doc: Document, pins: Snapshot)
    ensures UpdatedPyproject(doc, pins).Ok? <==> HasGroup(doc)
  {
  }

  /** With the `project` and `optional-dependencies` tables in place or
      absent, a missing group is the ValueError of the source. */
  lemma MissingGroupIsValueError(doc: Document, pins: Snapshot)
    requires ProjectKey !in doc
          || (doc[ProjectKey].Table? && DepsKey !in doc[ProjectKey].fields)
          || (doc[ProjectKey].Table? && doc[ProjectKey].fields[DepsKey].Table? &&
              GroupKey !in doc[ProjectKey].fields[DepsKey].fields)
    ensures UpdatedPyproject(doc, pins) == Err(MissingExtensionGroup)
  {
  }

  /** Only the group changes: every other key of every table on the path is
      kept, and the group becomes the pinned list in snapshot order. */
  lemma UpdatedOnlyTouchesGroup(doc: Document, pins: Snapshot)
    requires HasGroup(doc)
    ensures var r := UpdatedPyproject(doc, pins).value;
      && r.Keys == doc.Keys
      && (forall k :: k in doc && k != ProjectKey ==> r[k] == doc[k])
      && r[ProjectKey].Table?
      && r[ProjectKey].fields.Keys == doc[ProjectKey].fields.Keys
      && (forall k :: k in doc[ProjectKey].fields && k != DepsKey ==>
            r[ProjectKey].fields[k] == doc[ProjectKey].fields[k])
      && HasGroup(r)
      && r[ProjectKey].fields[DepsKey].fields.Keys == doc[ProjectKey].fields[DepsKey].fields.Keys
      && (forall k :: k in doc[ProjectKey].fields[DepsKey].fields && k != GroupKey ==>
            r[ProjectKey].fields[DepsKey].fields[k] == doc[ProjectKey].fields[DepsKey].fields[k])
      && Group(r) == Arr(PinValues(pins))
  {
  }

  /** Rewriting the rewritten document again changes nothing more. */
  lemma UpdatedIdempotent(doc: Document, pins: Snapshot)
    requires UpdatedPyproject(doc, pins).Ok?
    ensures UpdatedPyproject(UpdatedPyproject(doc, pins).value, pins) == UpdatedPyproject(doc, pins)
  {
    var r := UpdatedPyproject(doc, pins).value;
    var p := r[ProjectKey].fields;
    var d := p[DepsKey].fields;
    assert d[GroupKey := Arr(PinValues(pins))] == d;
    assert p[DepsKey := Table(d)] == p;
    assert r[ProjectKey := Table(p)] == r;
  }

  /** The strings of a list of TOML strings. */
  function StrItems(vs: seq<Value>): seq<string>
    requires forall i :: 0 <= i < |vs| ==> vs[i].Str?
  {
    seq(|vs|, i requires 0 <= i < |vs| => vs[i].s)
  }

  /** The pinned group, read back as freeze lines, is the snapshot it was
      made from: the dependencies Blender will install are exactly those
      found in its environment. */
  lemma PinnedGroupRoundTrip(doc: Document, lines: seq<string>)
    requires SnapshotOf(lines).Ok?
    requires UpdatedPyproject(doc, SnapshotOf(lines).value).Ok?
    ensures var g := Group(UpdatedPyproject(doc, SnapshotOf(lines).value).value);
      && g.Arr?
      && (forall i :: 0 <= i < |g.items| ==> g.items[i].Str?)
      && SnapshotOf(StrItems(g.items)) == SnapshotOf(lines)
  {
    var pins := SnapshotOf(lines).value;
    UpdatedOnlyTouchesGroup(doc, pins);
    var g := Group(UpdatedPyproject(doc, pins).value);
    assert StrItems(g.items) == PinLines(pins);
    SnapshotReparses(lines);
  }
}
