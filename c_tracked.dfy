// The exports that follow references into other collections (CExporter/CExporter.cs):
// with an export tracker they write the definitions of what they refer to in front of
// their own array, and a Vector3 collection already exported in the session is not
// written again.
module CExportTracked {
  import opened Wrappers
  import opened Words
  import opened Text
  import opened Data
  import opened CFormat
  import opened CExport
  import opened ExportTracking

  /** Every instance of a valid arena refers only to well-typed instances of the arena. */
  lemma EntityValid(h: seq<Entity>, i: nat)
    requires HeapValid(h) && i < |h|
    ensures EntityOk(h, |h|, h[i])
  {
    assert EntityOk(h, i, h[i]);
    EntityOkGrows(h, h, i, |h|, h[i]);
  }

  /** The Vector3 collections of an array of Vector3ArrayAnimData are well typed. */
  predicate VectorsOk(h: seq<Entity>, ds: seq<Vector3ArrayAnimData>)
  {
    forall i :: 0 <= i < |ds| ==> RefOk(h, |h|, ds[i].vectors, Vector3sKind)
  }

  /** Instance ids that all denote Vector3 collections. */
  predicate IdsOk(h: seq<Entity>, ids: seq<nat>)
  {
    forall j :: 0 <= j < |ids| ==> RefOk(h, |h|, Ptr(ids[j]), Vector3sKind)
  }

  /** The text of an export, followed by a line break (`AppendLine`). */
  function Line(r: Result<string>): Result<string>
  {
    if r.Ok? then Ok(r.value + NewLine) else r
  }

  /** The tracked set after an export that added `ids`; no set without a tracker. */
  function Grown(seen: Option<set<nat>>, ids: set<nat>): Option<set<nat>>
  {
    if seen.None? then None else Some(seen.value + ids)
  }

  /** What a tracker has recorded of Vector3 collections; none without a tracker. */
  function Seen(tracker: ExportTracker?): Option<set<nat>>
    reads tracker
  {
    if tracker == null then None else Some(tracker.Exported(Points))
  }

  // ---------------------------------------------------------------------------------
  // Vector3ArrayAnimData

  function Vector3ArrayAnimDataInit(h: seq<Entity>, d: Vector3ArrayAnimData): string
  {
    "    { " + FormatInteger(d.frameNumber) + ", " + (if d.vectors.Null? then "NULL }" else NameText(NameOf(h, d.vectors)) + " }")
  }

  function Vector3ArrayAnimDataLines(h: seq<Entity>, ds: seq<Vector3ArrayAnimData>): (lines: seq<string>)
    ensures |lines| == |ds| && forall i :: 0 <= i < |ds| ==> lines[i] == Vector3ArrayAnimDataInit(h, ds[i])
  {
    seq(|ds|, i requires 0 <= i < |ds| => Vector3ArrayAnimDataInit(h, ds[i]))
  }

  /** The Vector3 collections referred to by an array of Vector3ArrayAnimData. */
  function PointIds(ds: seq<Vector3ArrayAnimData>): set<nat>
  {
    if ds == [] then {}
    else PointIds(ds[..|ds| - 1]) + (if ds[|ds| - 1].vectors.Ptr? then {ds[|ds| - 1].vectors.id} else {})
  }

  /**
   * The Vector3 collections an array refers to that are not in `seen` and so get defined
   * in front of it, in the order of their first reference.
   */
  function NewPoints(ds: seq<Vector3ArrayAnimData>, seen: set<nat>): seq<nat>
  {
    if ds == [] then []
    else
      var front := NewPoints(ds[..|ds| - 1], seen);
      var v := ds[|ds| - 1].vectors;
      if v.Ptr? && v.id !in seen + PointIds(ds[..|ds| - 1]) then front + [v.id] else front
  }

  /** Only collections the array refers to get defined. */
  lemma {:induction false} NewPointsOk(h: seq<Entity>, ds: seq<Vector3ArrayAnimData>, seen: set<nat>)
    requires VectorsOk(h, ds)
    ensures IdsOk(h, NewPoints(ds, seen))
  {
    if ds != [] {
      var front := ds[..|ds| - 1];
      assert VectorsOk(h, front) by {
        forall i | 0 <= i < |front| ensures RefOk(h, |h|, front[i].vectors, Vector3sKind) {
          assert front[i] == ds[i];
        }
      }
      NewPointsOk(h, front, seen);
      assert RefOk(h, |h|, ds[|ds| - 1].vectors, Vector3sKind);
    }
  }

  /** The static definitions of the given Vector3 collections, each followed by a line break. */
  function Definitions(h: seq<Entity>, render: Render, ids: seq<nat>): Result<string>
    requires IdsOk(h, ids)
  {
    if ids == [] then Ok("")
    else
      var front :- Definitions(h, render, ids[..|ids| - 1]);
      var d :- Vector3sText(h, render, Ptr(ids[|ids| - 1]), StaticLinkage);
      Ok(front + d + NewLine)
  }

  /** No instance twice. */
  predicate Distinct(ids: seq<nat>)
  {
    forall j, k :: 0 <= j < k < |ids| ==> ids[j] != ids[k]
  }

  /**
   * Every Vector3 collection the array refers to and that was not exported before is
   * defined once and only once; none exported before is defined again.
   */
  lemma {:induction false} NewPointsOnce(ds: seq<Vector3ArrayAnimData>, seen: set<nat>)
    ensures Distinct(NewPoints(ds, seen))
    ensures forall x :: x in NewPoints(ds, seen) <==> x in PointIds(ds) && x !in seen
  {
    if ds != [] {
      var front := ds[..|ds| - 1];
      NewPointsOnce(front, seen);
      var ids := NewPoints(front, seen);
      var v := ds[|ds| - 1].vectors;
      if v.Ptr? && v.id !in seen + PointIds(front) {
        assert NewPoints(ds, seen) == ids + [v.id];
        assert v.id !in ids;
        assert Distinct(ids + [v.id]) by {
          forall j, k | 0 <= j < k < |ids| + 1 ensures (ids + [v.id])[j] != (ids + [v.id])[k] {
            if k == |ids| {
              assert ids[j] in ids;
            }
          }
        }
      } else {
        assert NewPoints(ds, seen) == ids;
      }
    }
  }

  /** An array whose collections were all exported defines none. */
  lemma {:induction false} NothingNew(ds: seq<Vector3ArrayAnimData>, seen: set<nat>)
    requires PointIds(ds) <= seen
    ensures NewPoints(ds, seen) == []
  {
    if ds != [] {
      NothingNew(ds[..|ds| - 1], seen);
    }
  }

  /** Exporting the same array again with the same tracker defines no Vector3 collection. */
  lemma ExportedOnce(ds: seq<Vector3ArrayAnimData>, seen: set<nat>)
    ensures NewPoints(ds, seen + PointIds(ds)) == []
  {
    NothingNew(ds, seen + PointIds(ds));
  }

  /** The Vector3 collections defined for a prefix of an array are a prefix of those defined for the array. */
  lemma {:induction false} NewPointsPrefix(ds: seq<Vector3ArrayAnimData>, n: nat, seen: set<nat>)
    requires n <= |ds|
    ensures NewPoints(ds[..n], seen) <= NewPoints(ds, seen)
    decreases |ds|
  {
    if n < |ds| {
      var front := ds[..|ds| - 1];
      NewPointsPrefix(front, n, seen);
      assert front[..n] == ds[..n];
    } else {
      assert ds[..n] == ds;
    }
  }

  /** A definition that fails makes all definitions that include it fail the same way. */
  lemma {:induction false} DefinitionsPrefix(h: seq<Entity>, render: Render, ids: seq<nat>, n: nat)
    requires IdsOk(h, ids) && n <= |ids| && Definitions(h, render, ids[..n]).Err?
    ensures Definitions(h, render, ids) == Definitions(h, render, ids[..n])
    decreases |ids|
  {
    if n < |ids| {
      var front := ids[..|ids| - 1];
      assert front[..n] == ids[..n];
      DefinitionsPrefix(h, render, front, n);
    } else {
      assert ids[..n] == ids;
    }
  }

  lemma Vector3ArrayAnimDatasValid(h: seq<Entity>, coll: Ref)
    requires HeapValid(h) && RefOk(h, |h|, coll, Vector3ArrayAnimDatasKind) && coll.Ptr?
    ensures VectorsOk(h, h[coll.id].items.vector3ArrayAnimDatas)
  {
    EntityValid(h, coll.id);
  }

  function Vector3ArrayAnimDataDecl(h: seq<Entity>, coll: Ref): string
  {
    "static struct Vector3ArrayAnimData " + NameText(NameOf(h, coll))
  }

  /**
   * An array behind the definitions of the Vector3 collections it uses that `seen` does
   * not hold; the array alone when there is no tracker.
   */
  function WithDefinitions(h: seq<Entity>, render: Render, ds: seq<Vector3ArrayAnimData>, seen: Option<set<nat>>, body: string)
    : Result<string>
    requires VectorsOk(h, ds)
  {
    if seen.None? then Ok(body)
    else
      NewPointsOk(h, ds, seen.value);
      var previous :- Definitions(h, render, NewPoints(ds, seen.value));
      Ok(previous + body)
  }

  /**
   * The text Export(NamedCollection<Vector3ArrayAnimData>, ExportTracker) returns: with a
   * tracker, the static definitions of the Vector3 collections it had not recorded, then
   * the array; without one, the array alone.
   */
  function Vector3ArrayAnimDatasText(h: seq<Entity>, render: Render, coll: Ref, seen: Option<set<nat>>): Result<string>
    requires HeapValid(h) && RefOk(h, |h|, coll, Vector3ArrayAnimDatasKind)
  {
    if coll.Null? then Err(ArgumentNull("vector3ArrayAnimDataCollection"))
    else
      var ds := h[coll.id].items.vector3ArrayAnimDatas;
      if |ds| == 0 then Err(Argument(EmptyCollection))
      else
        Vector3ArrayAnimDatasValid(h, coll);
        WithDefinitions(h, render, ds, seen, ArrayText(Vector3ArrayAnimDataDecl(h, coll), Vector3ArrayAnimDataLines(h, ds)))
  }

  /** The Vector3 collections an export of `coll` records. */
  function PointsOf(h: seq<Entity>, coll: Ref): set<nat>
    requires RefOk(h, |h|, coll, Vector3ArrayAnimDatasKind)
  {
    if coll.Null? then {} else PointIds(h[coll.id].items.vector3ArrayAnimDatas)
  }

  /**
   * One element's dependency: the tracker records its Vector3 collection, and when that
   * was new, its static definition is added to the previous definitions.
   */
  method AddPoints(h: seq<Entity>, render: Render, ds: seq<Vector3ArrayAnimData>, i: nat, tracker: ExportTracker,
                   ghost seen: set<nat>, previous: string) returns (r: Result<string>)
    requires VectorsOk(h, ds) && i < |ds|
    requires tracker.Exported(Points) == seen + PointIds(ds[..i])
    requires IdsOk(h, NewPoints(ds[..i], seen)) && Definitions(h, render, NewPoints(ds[..i], seen)) == Ok(previous)
    modifies tracker
    ensures tracker.Exported(Points) == seen + PointIds(ds[..i + 1])
    ensures forall k :: k != Points ==> tracker.Exported(k) == old(tracker.Exported(k))
    ensures IdsOk(h, NewPoints(ds[..i + 1], seen)) && r == Definitions(h, render, NewPoints(ds[..i + 1], seen))
  {
    ghost var next := ds[..i + 1];
    assert next[..i] == ds[..i] && next[i] == ds[i];
    assert VectorsOk(h, next);
    NewPointsOk(h, next, seen);
    var vectors := ds[i].vectors;
    if vectors.Null? {
      return Ok(previous);
    }
    var added := tracker.Add(Points, vectors.id);
    if !added {
      return Ok(previous);
    }
    ghost var ids := NewPoints(ds[..i], seen);
    assert NewPoints(next, seen) == ids + [vectors.id];
    assert (ids + [vectors.id])[..|ids|] == ids;
    var d := ExportVector3s(h, render, vectors, StaticLinkage);
    if d.Err? {
      return Err(d.error);
    }
    return Ok(previous + d.value + NewLine);
  }

  /** A failing definition, as the element loop meets it, is the failure of the whole export. */
  lemma DefinitionsFail(h: seq<Entity>, render: Render, ds: seq<Vector3ArrayAnimData>, i: nat, seen: set<nat>)
    requires VectorsOk(h, ds) && i < |ds|
    requires IdsOk(h, NewPoints(ds[..i + 1], seen)) && Definitions(h, render, NewPoints(ds[..i + 1], seen)).Err?
    ensures IdsOk(h, NewPoints(ds, seen))
    ensures Definitions(h, render, NewPoints(ds, seen)) == Definitions(h, render, NewPoints(ds[..i + 1], seen))
  {
    NewPointsOk(h, ds, seen);
    NewPointsPrefix(ds, i + 1, seen);
    var ids := NewPoints(ds, seen);
    var n := |NewPoints(ds[..i + 1], seen)|;
    assert ids[..n] == NewPoints(ds[..i + 1], seen);
    DefinitionsPrefix(h, render, ids, n);
  }

  /**
   * Export(NamedCollection<Vector3ArrayAnimData>, ExportTracker). With a tracker, every
   * Vector3 collection referred to is recorded, and the ones it did not know are defined
   * in front of the array.
   */
  method ExportVector3ArrayAnimDatas(h: seq<Entity>, render: Render, coll: Ref, tracker: ExportTracker?) returns (r: Result<string>)
    requires HeapValid(h) && RefOk(h, |h|, coll, Vector3ArrayAnimDatasKind)
    modifies tracker
    ensures r == Vector3ArrayAnimDatasText(h, render, coll, old(Seen(tracker)))
    ensures tracker != null && r.Ok? ==> tracker.Exported(Points) == old(tracker.Exported(Points)) + PointsOf(h, coll)
    ensures tracker != null ==> forall k :: k != Points ==> tracker.Exported(k) == old(tracker.Exported(k))
  {
    if coll.Null? {
      return Err(ArgumentNull("vector3ArrayAnimDataCollection"));
    }
    var ds := h[coll.id].items.vector3ArrayAnimDatas;
    if |ds| == 0 {
      return Err(Argument(EmptyCollection));
    }
    Vector3ArrayAnimDatasValid(h, coll);
    r := WriteVector3ArrayAnimDatas(h, render, ds, Vector3ArrayAnimDataDecl(h, coll), tracker);
  }

  /** The element loop of the Vector3ArrayAnimData export. */
  method WriteVector3ArrayAnimDatas(h: seq<Entity>, render: Render, ds: seq<Vector3ArrayAnimData>, decl: string, tracker: ExportTracker?)
    returns (r: Result<string>)
    requires VectorsOk(h, ds) && |ds| > 0
    modifies tracker
    ensures r == WithDefinitions(h, render, ds, old(Seen(tracker)), ArrayText(decl, Vector3ArrayAnimDataLines(h, ds)))
    ensures tracker != null && r.Ok? ==> tracker.Exported(Points) == old(tracker.Exported(Points)) + PointIds(ds)
    ensures tracker != null ==> forall k :: k != Points ==> tracker.Exported(k) == old(tracker.Exported(k))
  {
    ghost var seen := if tracker == null then {} else tracker.Exported(Points);
    ghost var lines := Vector3ArrayAnimDataLines(h, ds);
    var previous := "";
    var sb := decl + ArrayOpening;
    var i := 0;
    assert ds[..0] == [] && lines[..0] == [];
    while true
      invariant 0 <= i < |ds|
      invariant sb == Written(decl, lines[..i])
      invariant tracker != null ==> tracker.Exported(Points) == seen + PointIds(ds[..i])
      invariant tracker != null ==> IdsOk(h, NewPoints(ds[..i], seen)) && Definitions(h, render, NewPoints(ds[..i], seen)) == Ok(previous)
      invariant tracker != null ==> forall k :: k != Points ==> tracker.Exported(k) == old(tracker.Exported(k))
      decreases |ds| - i
    {
      if tracker != null {
        var next := AddPoints(h, render, ds, i, tracker, seen, previous);
        if next.Err? {
          DefinitionsFail(h, render, ds, i, seen);
          return Err(next.error);
        }
        previous := next.value;
      }
      var item := Vector3ArrayAnimDataInit(h, ds[i]);
      assert item == lines[i];
      WrittenStep(decl, lines, i);
      sb := sb + item;
      i := i + 1;
      if i >= |ds| {
        assert ds[..i] == ds;
        sb := sb + Closing;
        if tracker != null {
          return Ok(previous + sb);
        }
        return Ok(sb);
      }
      sb := sb + ItemSeparator;
      assert sb == Written(decl, lines[..i]);
    }
  }

  // ---------------------------------------------------------------------------------
  // AnimFrame

  /** The run-time type of an animation frame. */
  function FrameTag(f: AnimFrame): nat
  {
    match f
    case PosRot(_, _) => 0
    case PosRotScale(_, _, _) => 1
    case VertNrm(_, _) => 2
  }

  /** GetCTypeFromAnimFrameType: the C structure of each frame type. */
  function CTypeOf(f: AnimFrame): string
  {
    match f
    case PosRot(_, _) => "AnimFrame_PosRot"
    case PosRotScale(_, _, _) => "AnimFrame_PosRotScale"
    case VertNrm(_, _) => "AnimFrame_VertNrm"
  }

  /** Two frames have the same C structure exactly when they have the same type. */
  lemma CTypeOfTag(f: AnimFrame, g: AnimFrame)
    ensures CTypeOf(f) == CTypeOf(g) <==> FrameTag(f) == FrameTag(g)
  {
    if FrameTag(f) != FrameTag(g) {
      assert |CTypeOf(f)| != |CTypeOf(g)|;
    }
  }

  /** An array field of a frame: "NULL" or the array's name, then a comma. */
  function FrameField(h: seq<Entity>, r: Ref): string
  {
    ArrayField(h, r) + ", "
  }

  /** What the frame visitor writes for a frame: its arrays, then their sizes. */
  function FrameInit(h: seq<Entity>, f: AnimFrame): string
  {
    match f
    case PosRot(p, q) =>
      "    { " + FrameField(h, p) + FrameField(h, q) + ArraySize(h, p) + ", " + ArraySize(h, q) + " }"
    case PosRotScale(p, q, s) =>
      "    { " + FrameField(h, p) + FrameField(h, q) + FrameField(h, s)
      + ArraySize(h, p) + ", " + ArraySize(h, q) + ", " + ArraySize(h, s) + " }"
    case VertNrm(v, n) =>
      "    { " + FrameField(h, v) + FrameField(h, n) + ArraySize(h, v) + ", " + ArraySize(h, n) + " }"
  }

  function FrameLines(h: seq<Entity>, fs: seq<AnimFrame>): (lines: seq<string>)
    ensures |lines| == |fs| && forall i :: 0 <= i < |fs| ==> lines[i] == FrameInit(h, fs[i])
  {
    seq(|fs|, i requires 0 <= i < |fs| => FrameInit(h, fs[i]))
  }

  /**
   * The previous definitions after a dependency: its text appended, or its failure. A
   * visitor that keeps no previous definitions exports no dependency.
   */
  function Add(previous: Option<string>, dependency: Result<string>): Result<Option<string>>
  {
    if previous.None? then Ok(None)
    else if dependency.Err? then Err(dependency.error)
    else Ok(Some(previous.value + dependency.value))
  }

  /** The definitions kept after a visit that answered `r`. */
  function Kept(r: Result<()>, previous: Option<string>): Result<Option<string>>
  {
    if r.Ok? then Ok(previous) else Err(r.error)
  }

  /** A position or scale array as a dependency; nothing for a null array. */
  function Vector3AnimDatasDependency(h: seq<Entity>, render: Render, r: Ref): Result<string>
    requires RefOk(h, |h|, r, Vector3AnimDatasKind)
  {
    if r.Null? then Ok("") else Line(Vector3AnimDatasText(h, render, r))
  }

  /** A rotation array as a dependency; nothing for a null array. */
  function Rotation3AnimDatasDependency(h: seq<Entity>, r: Ref): Result<string>
    requires RefOk(h, |h|, r, Rotation3AnimDatasKind)
  {
    if r.Null? then Ok("") else Line(Rotation3AnimDatasText(h, r))
  }

  /** A vertex or normal array as a dependency, exported with the tracker; nothing for a null array. */
  function Vector3ArrayAnimDatasDependency(h: seq<Entity>, render: Render, r: Ref, seen: Option<set<nat>>): Result<string>
    requires HeapValid(h) && RefOk(h, |h|, r, Vector3ArrayAnimDatasKind)
  {
    if r.Null? then Ok("") else Line(Vector3ArrayAnimDatasText(h, render, r, seen))
  }

  /** The Vector3 collections visiting a frame records, when the visitor keeps previous definitions. */
  function FramePoints(h: seq<Entity>, f: AnimFrame): set<nat>
    requires FrameOk(h, |h|, f)
  {
    if f.VertNrm? then PointsOf(h, f.vertices) + PointsOf(h, f.normals) else {}
  }

  /**
   * The previous definitions after a visit: the frame's arrays in field order, position,
   * rotation and scale arrays exported afresh each time, vertex and normal arrays through
   * the tracked export.
   */
  function VisitDefinitions(h: seq<Entity>, render: Render, f: AnimFrame, previous: Option<string>, seen: Option<set<nat>>)
    : Result<Option<string>>
    requires HeapValid(h) && FrameOk(h, |h|, f)
  {
    match f
    case PosRot(p, q) =>
      var a :- Add(previous, Vector3AnimDatasDependency(h, render, p));
      Add(a, Rotation3AnimDatasDependency(h, q))
    case PosRotScale(p, q, s) =>
      var a :- Add(previous, Vector3AnimDatasDependency(h, render, p));
      var b :- Add(a, Rotation3AnimDatasDependency(h, q));
      Add(b, Vector3AnimDatasDependency(h, render, s))
    case VertNrm(v, n) =>
      var a :- Add(previous, Vector3ArrayAnimDatasDependency(h, render, v, seen));
      Add(a, Vector3ArrayAnimDatasDependency(h, render, n, Grown(seen, PointsOf(h, v))))
  }

  /** The visit of a PosRotScale frame as its three dependencies in turn. */
  lemma PosRotScaleDefinitions(h: seq<Entity>, render: Render, positions: Ref, rotations: Ref, scales: Ref,
                               previous: Option<string>, a: Option<string>, b: Option<string>)
    requires HeapValid(h) && FrameOk(h, |h|, PosRotScale(positions, rotations, scales))
    ensures Add(previous, Vector3AnimDatasDependency(h, render, positions)).Err? ==>
      VisitDefinitions(h, render, PosRotScale(positions, rotations, scales), previous, None)
        == Add(previous, Vector3AnimDatasDependency(h, render, positions))
    ensures Add(previous, Vector3AnimDatasDependency(h, render, positions)) == Ok(a)
            && Add(a, Rotation3AnimDatasDependency(h, rotations)).Err? ==>
      VisitDefinitions(h, render, PosRotScale(positions, rotations, scales), previous, None)
        == Add(a, Rotation3AnimDatasDependency(h, rotations))
    ensures Add(previous, Vector3AnimDatasDependency(h, render, positions)) == Ok(a)
            && Add(a, Rotation3AnimDatasDependency(h, rotations)) == Ok(b) ==>
      VisitDefinitions(h, render, PosRotScale(positions, rotations, scales), previous, None)
        == Add(b, Vector3AnimDatasDependency(h, render, scales))
  {
  }

  /**
   * AnimFrameExporterVisitor: it writes each frame's initialiser into the array text and,
   * when it keeps previous definitions, the definitions of the arrays the frame uses.
   */
  class AnimFrameExporterVisitor {
    var sb: string
    const exportTracker: ExportTracker?
    var previousDefinitions: Option<string>

    constructor(sb: string, exportTracker: ExportTracker?, previousDefinitions: Option<string>)
      ensures this.sb == sb && this.exportTracker == exportTracker && this.previousDefinitions == previousDefinitions
    {
      this.sb := sb;
      this.exportTracker := exportTracker;
      this.previousDefinitions := previousDefinitions;
    }

    /** Appends the definition of a dependency to the previous definitions (`AppendLine`), or fails with it. */
    method Depend(dependency: Result<string>) returns (r: Result<()>)
      modifies this
      ensures sb == old(sb)
      ensures Kept(r, previousDefinitions) == Add(old(previousDefinitions), dependency)
    {
      if previousDefinitions.Some? {
        if dependency.Err? {
          return Err(dependency.error);
        }
        previousDefinitions := Some(previousDefinitions.value + dependency.value);
      }
      return Ok(());
    }

    /** The definition of a position or scale array, when previous definitions are kept. */
    method DependOnVector3AnimDatas(h: seq<Entity>, render: Render, r: Ref) returns (result: Result<()>)
      requires RefOk(h, |h|, r, Vector3AnimDatasKind)
      modifies this
      ensures sb == old(sb)
      ensures Kept(result, previousDefinitions) == Add(old(previousDefinitions), Vector3AnimDatasDependency(h, render, r))
    {
      var dependency: Result<string> := Ok("");
      if r.Ptr? && previousDefinitions.Some? {
        var d := ExportVector3AnimDatas(h, render, r);
        dependency := Line(d);
      }
      result := Depend(dependency);
    }

    /** The definition of a rotation array, when previous definitions are kept. */
    method DependOnRotation3AnimDatas(h: seq<Entity>, r: Ref) returns (result: Result<()>)
      requires RefOk(h, |h|, r, Rotation3AnimDatasKind)
      modifies this
      ensures sb == old(sb)
      ensures Kept(result, previousDefinitions) == Add(old(previousDefinitions), Rotation3AnimDatasDependency(h, r))
    {
      var dependency: Result<string> := Ok("");
      if r.Ptr? && previousDefinitions.Some? {
        var d := ExportRotation3AnimDatas(h, r);
        dependency := Line(d);
      }
      result := Depend(dependency);
    }

    /** The definition of a vertex or normal array through the tracked export, when previous definitions are kept. */
    method DependOnVector3ArrayAnimDatas(h: seq<Entity>, render: Render, r: Ref) returns (result: Result<()>)
      requires HeapValid(h) && RefOk(h, |h|, r, Vector3ArrayAnimDatasKind)
      modifies this, exportTracker
      ensures sb == old(sb)
      ensures Kept(result, previousDefinitions)
        == Add(old(previousDefinitions), Vector3ArrayAnimDatasDependency(h, render, r, old(Seen(exportTracker))))
      ensures exportTracker != null && result.Ok? && old(previousDefinitions).Some? ==>
        exportTracker.Exported(Points) == old(exportTracker.Exported(Points)) + PointsOf(h, r)
      ensures exportTracker != null && old(previousDefinitions).None? ==>
        exportTracker.Exported(Points) == old(exportTracker.Exported(Points))
      ensures exportTracker != null ==> forall k :: k != Points ==> exportTracker.Exported(k) == old(exportTracker.Exported(k))
    {
      var dependency: Result<string> := Ok("");
      if r.Ptr? && previousDefinitions.Some? {
        var d := ExportVector3ArrayAnimDatas(h, render, r, exportTracker);
        dependency := Line(d);
      }
      result := Depend(dependency);
    }

    /** VisitAnimFrame_PosRot. */
    method VisitPosRot(h: seq<Entity>, render: Render, positions: Ref, rotations: Ref) returns (r: Result<()>)
      requires HeapValid(h) && FrameOk(h, |h|, PosRot(positions, rotations))
      modifies this
      ensures Kept(r, previousDefinitions) == VisitDefinitions(h, render, PosRot(positions, rotations), old(previousDefinitions), None)
      ensures r.Ok? ==> sb == old(sb) + FrameInit(h, PosRot(positions, rotations))
    {
      r := DependOnVector3AnimDatas(h, render, positions);
      if r.Err? {
        return;
      }
      r := DependOnRotation3AnimDatas(h, rotations);
      if r.Err? {
        return;
      }
      sb := sb + FrameInit(h, PosRot(positions, rotations));
    }

    /** VisitAnimFrame_PosRotScale. */
    method VisitPosRotScale(h: seq<Entity>, render: Render, positions: Ref, rotations: Ref, scales: Ref) returns (r: Result<()>)
      requires HeapValid(h) && FrameOk(h, |h|, PosRotScale(positions, rotations, scales))
      modifies this
      ensures Kept(r, previousDefinitions)
        == VisitDefinitions(h, render, PosRotScale(positions, rotations, scales), old(previousDefinitions), None)
      ensures r.Ok? ==> sb == old(sb) + FrameInit(h, PosRotScale(positions, rotations, scales))
    {
      ghost var previous := previousDefinitions;
      r := DependOnVector3AnimDatas(h, render, positions);
      if r.Err? {
        PosRotScaleDefinitions(h, render, positions, rotations, scales, previous, None, None);
        return;
      }
      ghost var a := previousDefinitions;
      r := DependOnRotation3AnimDatas(h, rotations);
      if r.Err? {
        PosRotScaleDefinitions(h, render, positions, rotations, scales, previous, a, None);
        return;
      }
      ghost var b := previousDefinitions;
      r := DependOnVector3AnimDatas(h, render, scales);
      PosRotScaleDefinitions(h, render, positions, rotations, scales, previous, a, b);
      if r.Err? {
        return;
      }
      sb := sb + FrameInit(h, PosRotScale(positions, rotations, scales));
    }

    /** VisitAnimFrame_VertNrm: the vertex and normal arrays go through the tracked export. */
    method VisitVertNrm(h: seq<Entity>, render: Render, vertices: Ref, normals: Ref) returns (r: Result<()>)
      requires HeapValid(h) && FrameOk(h, |h|, VertNrm(vertices, normals))
      modifies this, exportTracker
      ensures Kept(r, previousDefinitions)
        == VisitDefinitions(h, render, VertNrm(vertices, normals), old(previousDefinitions), old(Seen(exportTracker)))
      ensures r.Ok? ==> sb == old(sb) + FrameInit(h, VertNrm(vertices, normals))
      ensures exportTracker != null && r.Ok? && old(previousDefinitions).Some? ==>
        exportTracker.Exported(Points) == old(exportTracker.Exported(Points)) + PointsOf(h, vertices) + PointsOf(h, normals)
      ensures exportTracker != null && old(previousDefinitions).None? ==>
        exportTracker.Exported(Points) == old(exportTracker.Exported(Points))
      ensures exportTracker != null ==> forall k :: k != Points ==> exportTracker.Exported(k) == old(exportTracker.Exported(k))
    {
      r := DependOnVector3ArrayAnimDatas(h, render, vertices);
      if r.Err? {
        return;
      }
      r := DependOnVector3ArrayAnimDatas(h, render, normals);
      if r.Err? {
        return;
      }
      sb := sb + FrameInit(h, VertNrm(vertices, normals));
    }

    /** AnimFrame.Accept with this visitor: the visit of the frame's own type. */
    method Accept(h: seq<Entity>, render: Render, f: AnimFrame) returns (r: Result<()>)
      requires HeapValid(h) && FrameOk(h, |h|, f)
      modifies this, exportTracker
      ensures Kept(r, previousDefinitions) == VisitDefinitions(h, render, f, old(previousDefinitions), old(Seen(exportTracker)))
      ensures r.Ok? ==> sb == old(sb) + FrameInit(h, f)
      ensures exportTracker != null && r.Ok? && old(previousDefinitions).Some? ==>
        exportTracker.Exported(Points) == old(exportTracker.Exported(Points)) + FramePoints(h, f)
      ensures exportTracker != null && old(previousDefinitions).None? ==>
        exportTracker.Exported(Points) == old(exportTracker.Exported(Points))
      ensures exportTracker != null ==> forall k :: k != Points ==> exportTracker.Exported(k) == old(exportTracker.Exported(k))
    {
      match f
      case PosRot(p, q) =>
        r := VisitPosRot(h, render, p, q);
      case PosRotScale(p, q, s) =>
        r := VisitPosRotScale(h, render, p, q, s);
      case VertNrm(v, n) =>
        r := VisitVertNrm(h, render, v, n);
    }
  }

  // ---------------------------------------------------------------------------------
  // Collections of frames

  predicate FramesOk(h: seq<Entity>, fs: seq<AnimFrame>)
  {
    forall i :: 0 <= i < |fs| ==> FrameOk(h, |h|, fs[i])
  }

  /** The Vector3 collections recorded while the dependencies of the frames are exported. */
  function FramesPoints(h: seq<Entity>, fs: seq<AnimFrame>): set<nat>
    requires FramesOk(h, fs)
  {
    if fs == [] then {} else FramesPoints(h, fs[..|fs| - 1]) + FramePoints(h, fs[|fs| - 1])
  }

  /** The previous definitions after visiting the frames in order, the tracker growing as it goes. */
  function FramesDefinitions(h: seq<Entity>, render: Render, fs: seq<AnimFrame>, previous: Option<string>, seen: Option<set<nat>>)
    : Result<Option<string>>
    requires HeapValid(h) && FramesOk(h, fs)
  {
    if fs == [] then Ok(previous)
    else
      var front :- FramesDefinitions(h, render, fs[..|fs| - 1], previous, seen);
      VisitDefinitions(h, render, fs[|fs| - 1], front, Grown(seen, FramesPoints(h, fs[..|fs| - 1])))
  }

  /** A frame whose dependencies fail makes the export of every collection holding it fail the same way. */
  lemma {:induction false} FramesDefinitionsPrefix(h: seq<Entity>, render: Render, fs: seq<AnimFrame>, n: nat,
                                                   previous: Option<string>, seen: Option<set<nat>>)
    requires HeapValid(h) && FramesOk(h, fs) && n <= |fs| && FramesDefinitions(h, render, fs[..n], previous, seen).Err?
    ensures FramesDefinitions(h, render, fs, previous, seen) == FramesDefinitions(h, render, fs[..n], previous, seen)
    decreases |fs|
  {
    if n < |fs| {
      var front := fs[..|fs| - 1];
      assert front[..n] == fs[..n];
      FramesDefinitionsPrefix(h, render, front, n, previous, seen);
    } else {
      assert fs[..n] == fs;
    }
  }

  /** One more frame visited, as the frame loop sees it. */
  lemma FramesDefinitionsNext(h: seq<Entity>, render: Render, fs: seq<AnimFrame>, i: nat, previous: Option<string>,
                              seen: Option<set<nat>>, kept: Option<string>)
    requires HeapValid(h) && FramesOk(h, fs) && i < |fs|
    requires FramesDefinitions(h, render, fs[..i], previous, seen) == Ok(kept)
    ensures FramesOk(h, fs[..i + 1])
    ensures FramesDefinitions(h, render, fs[..i + 1], previous, seen)
      == VisitDefinitions(h, render, fs[i], kept, Grown(seen, FramesPoints(h, fs[..i])))
    ensures FramesPoints(h, fs[..i + 1]) == FramesPoints(h, fs[..i]) + FramePoints(h, fs[i])
  {
    var next := fs[..i + 1];
    assert next[..i] == fs[..i] && next[i] == fs[i];
  }

  lemma AnimFramesValid(h: seq<Entity>, coll: Ref)
    requires HeapValid(h) && RefOk(h, |h|, coll, AnimFramesKind) && coll.Ptr?
    ensures forall i :: 0 <= i < |h[coll.id].items.frames| && h[coll.id].items.frames[i].Some?
                        ==> FrameOk(h, |h|, h[coll.id].items.frames[i].value)
  {
    EntityValid(h, coll.id);
  }

  /** The definitions kept by a visitor, as text: none when it keeps none. */
  function KeptText(previous: Option<string>): string
  {
    if previous.Some? then previous.value else ""
  }

  /**
   * The text Export(NamedCollection<AnimFrame>, ExportTracker) returns: the checks of a
   * homogeneous collection, then, with a tracker, the definitions the frames depend on,
   * then the array of frames, typed by the first frame's C structure.
   */
  function AnimFramesText(h: seq<Entity>, render: Render, animFrames: Ref, seen: Option<set<nat>>): Result<string>
    requires HeapValid(h) && RefOk(h, |h|, animFrames, AnimFramesKind)
  {
    if animFrames.Null? then Err(ArgumentNull("animFrames"))
    else
      var fs := h[animFrames.id].items.frames;
      if |fs| == 0 then Err(Argument(EmptyCollection))
      else if !Homogeneous(fs, FrameTag) then Err(Argument(StrayProblem(fs, FrameTag)))
      else
        AnimFramesValid(h, animFrames);
        var frames := Present(fs);
        var decl := "static struct " + CTypeOf(frames[0]) + " " + NameText(NameOf(h, animFrames));
        FramesArrayText(h, render, frames, decl, if seen.None? then None else Some(""), seen)
  }

  /** The Vector3 collections an export of a homogeneous collection of frames records. */
  function AnimFramesPoints(h: seq<Entity>, animFrames: Ref): set<nat>
    requires HeapValid(h) && RefOk(h, |h|, animFrames, AnimFramesKind)
  {
    if animFrames.Null? || !Homogeneous(h[animFrames.id].items.frames, FrameTag) then {}
    else
      AnimFramesValid(h, animFrames);
      FramesPoints(h, Present(h[animFrames.id].items.frames))
  }

  /** Export(NamedCollection<AnimFrame>, ExportTracker). */
  method ExportAnimFrames(h: seq<Entity>, render: Render, animFrames: Ref, tracker: ExportTracker?) returns (r: Result<string>)
    requires HeapValid(h) && RefOk(h, |h|, animFrames, AnimFramesKind)
    modifies tracker
    ensures r == AnimFramesText(h, render, animFrames, old(Seen(tracker)))
    ensures tracker != null && r.Ok? ==> tracker.Exported(Points) == old(tracker.Exported(Points)) + AnimFramesPoints(h, animFrames)
    ensures tracker != null ==> forall k :: k != Points ==> tracker.Exported(k) == old(tracker.Exported(k))
  {
    if animFrames.Null? {
      return Err(ArgumentNull("animFrames"));
    }
    var fs := h[animFrames.id].items.frames;
    if |fs| == 0 {
      return Err(Argument(EmptyCollection));
    }
    var check := CheckHomogeneous(fs, FrameTag);
    if check.Err? {
      return Err(check.error);
    }
    AnimFramesValid(h, animFrames);
    var frames := Present(fs);
    assert FramesOk(h, frames);
    var previous := if tracker != null then Some("") else None;
    var decl := "static struct " + CTypeOf(frames[0]) + " " + NameText(NameOf(h, animFrames));
    var visitor := new AnimFrameExporterVisitor(decl + ArrayOpening, tracker, previous);
    r := WriteFrames(h, render, frames, decl, visitor);
  }

  /** The definitions the frames depend on, then the array of frames. */
  function FramesArrayText(h: seq<Entity>, render: Render, frames: seq<AnimFrame>, decl: string,
                           previous: Option<string>, seen: Option<set<nat>>): Result<string>
    requires HeapValid(h) && FramesOk(h, frames)
  {
    var kept :- FramesDefinitions(h, render, frames, previous, seen);
    Ok(KeptText(kept) + ArrayText(decl, FrameLines(h, frames)))
  }

  /** A visitor that keeps previous definitions goes on keeping them. */
  lemma VisitKeepsSome(h: seq<Entity>, render: Render, f: AnimFrame, previous: string, seen: Option<set<nat>>)
    requires HeapValid(h) && FrameOk(h, |h|, f)
    ensures VisitDefinitions(h, render, f, Some(previous), seen).Ok? ==> VisitDefinitions(h, render, f, Some(previous), seen).value.Some?
  {
  }

  /**
   * The visitor's state after the first `i` frames: the definitions kept so far, and the
   * tracker grown by the Vector3 collections their dependencies recorded.
   */
  ghost predicate Visited(h: seq<Entity>, render: Render, frames: seq<AnimFrame>, i: nat, visitor: AnimFrameExporterVisitor,
                          previous: Option<string>, seen: Option<set<nat>>)
    reads visitor`previousDefinitions, visitor.exportTracker
    requires HeapValid(h) && FramesOk(h, frames) && i <= |frames|
  {
    FramesOk(h, frames[..i])
    && FramesDefinitions(h, render, frames[..i], previous, seen) == Ok(visitor.previousDefinitions)
    && (visitor.exportTracker == null ==> seen.None? && visitor.previousDefinitions.None?)
    && (visitor.exportTracker != null ==>
          seen.Some? && visitor.previousDefinitions.Some?
          && visitor.exportTracker.Exported(Points) == seen.value + FramesPoints(h, frames[..i]))
  }

  /** The visit of frame `i` by the frame loop, with what it does to the visitor's state. */
  method VisitNext(h: seq<Entity>, render: Render, frames: seq<AnimFrame>, i: nat, visitor: AnimFrameExporterVisitor,
                   ghost previous: Option<string>, ghost seen: Option<set<nat>>)
    returns (r: Result<()>)
    requires HeapValid(h) && FramesOk(h, frames) && i < |frames|
    requires Visited(h, render, frames, i, visitor, previous, seen)
    modifies visitor, visitor.exportTracker
    ensures r.Err? ==> FramesDefinitions(h, render, frames, previous, seen) == Err(r.error)
    ensures r.Ok? ==> Visited(h, render, frames, i + 1, visitor, previous, seen)
    ensures r.Ok? ==> visitor.sb == old(visitor.sb) + FrameInit(h, frames[i])
    ensures visitor.exportTracker != null ==>
      forall k :: k != Points ==> visitor.exportTracker.Exported(k) == old(visitor.exportTracker.Exported(k))
  {
    FramesDefinitionsNext(h, render, frames, i, previous, seen, visitor.previousDefinitions);
    assert Seen(visitor.exportTracker) == Grown(seen, FramesPoints(h, frames[..i]));
    if visitor.previousDefinitions.Some? {
      VisitKeepsSome(h, render, frames[i], visitor.previousDefinitions.value, Seen(visitor.exportTracker));
    }
    ghost var before := FramesPoints(h, frames[..i]);
    r := visitor.Accept(h, render, frames[i]);
    if r.Err? {
      FramesDefinitionsPrefix(h, render, frames, i + 1, previous, seen);
    } else if visitor.exportTracker != null {
      assert visitor.exportTracker.Exported(Points) == seen.value + before + FramePoints(h, frames[i]);
      assert seen.value + before + FramePoints(h, frames[i]) == seen.value + (before + FramePoints(h, frames[i]));
    }
  }

  /** The end of the frame loop: the closing line, after the definitions the frames needed. */
  method CloseFrames(h: seq<Entity>, render: Render, frames: seq<AnimFrame>, decl: string, visitor: AnimFrameExporterVisitor,
                     ghost previous: Option<string>, ghost seen: Option<set<nat>>)
    returns (r: Result<string>)
    requires HeapValid(h) && FramesOk(h, frames)
    requires Visited(h, render, frames, |frames|, visitor, previous, seen)
    requires visitor.sb + Closing == ArrayText(decl, FrameLines(h, frames))
    modifies visitor`sb
    ensures r == FramesArrayText(h, render, frames, decl, previous, seen)
    ensures visitor.exportTracker != null ==>
      seen.Some? && visitor.exportTracker.Exported(Points) == seen.value + FramesPoints(h, frames)
  {
    assert frames[..|frames|] == frames;
    visitor.sb := visitor.sb + Closing;
    r := Ok(KeptText(visitor.previousDefinitions) + visitor.sb);
  }

  /** The state of the frame loop before frame `i`: the visitor's state, and the text written so far. */
  ghost predicate Looping(h: seq<Entity>, render: Render, frames: seq<AnimFrame>, decl: string, i: nat,
                          visitor: AnimFrameExporterVisitor, previous: Option<string>, seen: Option<set<nat>>)
    reads visitor`sb, visitor`previousDefinitions, visitor.exportTracker
    requires HeapValid(h) && FramesOk(h, frames) && i <= |frames|
  {
    Visited(h, render, frames, i, visitor, previous, seen) && visitor.sb == Written(decl, FrameLines(h, frames)[..i])
  }

  /** One turn of the frame loop: the visit of frame `i`, then a separator unless it is the last. */
  method FrameStep(h: seq<Entity>, render: Render, frames: seq<AnimFrame>, decl: string, i: nat,
                   visitor: AnimFrameExporterVisitor, ghost previous: Option<string>, ghost seen: Option<set<nat>>)
    returns (r: Result<()>)
    requires HeapValid(h) && FramesOk(h, frames) && i < |frames|
    requires Looping(h, render, frames, decl, i, visitor, previous, seen)
    modifies visitor, visitor.exportTracker
    ensures r.Err? ==> FramesDefinitions(h, render, frames, previous, seen) == Err(r.error)
    ensures r.Ok? && i + 1 < |frames| ==> Looping(h, render, frames, decl, i + 1, visitor, previous, seen)
    ensures r.Ok? && i + 1 == |frames| ==>
      Visited(h, render, frames, i + 1, visitor, previous, seen) && visitor.sb + Closing == ArrayText(decl, FrameLines(h, frames))
    ensures visitor.exportTracker != null ==>
      forall k :: k != Points ==> visitor.exportTracker.Exported(k) == old(visitor.exportTracker.Exported(k))
  {
    ghost var lines := FrameLines(h, frames);
    r := VisitNext(h, render, frames, i, visitor, previous, seen);
    if r.Err? {
      return;
    }
    assert FrameInit(h, frames[i]) == lines[i];
    WrittenStep(decl, lines, i);
    if i + 1 < |frames| {
      visitor.sb := visitor.sb + ItemSeparator;
    }
  }

  /** The frame loop of the AnimFrame export, each frame written by the visitor. */
  method WriteFrames(h: seq<Entity>, render: Render, frames: seq<AnimFrame>, decl: string, visitor: AnimFrameExporterVisitor)
    returns (r: Result<string>)
    requires HeapValid(h) && FramesOk(h, frames) && |frames| > 0
    requires visitor.sb == decl + ArrayOpening
    requires visitor.previousDefinitions == if visitor.exportTracker == null then None else Some("")
    modifies visitor, visitor.exportTracker
    ensures r == FramesArrayText(h, render, frames, decl, old(visitor.previousDefinitions), old(Seen(visitor.exportTracker)))
    ensures visitor.exportTracker != null && r.Ok? ==>
      visitor.exportTracker.Exported(Points) == old(visitor.exportTracker.Exported(Points)) + FramesPoints(h, frames)
    ensures visitor.exportTracker != null ==>
      forall k :: k != Points ==> visitor.exportTracker.Exported(k) == old(visitor.exportTracker.Exported(k))
  {
    var tracker := visitor.exportTracker;
    ghost var previous := visitor.previousDefinitions;
    ghost var seen := Seen(tracker);
    ghost var lines := FrameLines(h, frames);
    var i := 0;
    assert frames[..0] == [] && lines[..0] == [];
    assert Looping(h, render, frames, decl, 0, visitor, previous, seen);
    while true
      invariant 0 <= i < |frames|
      invariant Looping(h, render, frames, decl, i, visitor, previous, seen)
      invariant tracker != null ==> forall k :: k != Points ==> tracker.Exported(k) == old(tracker.Exported(k))
      decreases |frames| - i
    {
      var visited := FrameStep(h, render, frames, decl, i, visitor, previous, seen);
      if visited.Err? {
        return Err(visited.error);
      }
      i := i + 1;
      if i >= |frames| {
        r := CloseFrames(h, render, frames, decl, visitor, previous, seen);
        return;
      }
    }
  }
}
