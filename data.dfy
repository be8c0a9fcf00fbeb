// The game structures the reader decodes and the exporter writes out. Structures that
// the tools share by reference (OBJECT, ATTACH, the animation heads and every named
// collection) live in an arena: a reference is the index of an instance, so two
// references are the same object exactly when their indices are equal.
module Data {
  import opened Wrappers
  import opened Words

  /** Single-precision values are kept as their IEEE-754 bit patterns. */
  type Single = u32

  datatype Vector3 = Vector3(x: Single, y: Single, z: Single)
  datatype Rotation3 = Rotation3(x: i32, y: i32, z: i32)
  datatype UV = UV(u: i16, v: i16)
  datatype PolyNormal = PolyNormal(unknown00: Single, unknown04: Single)
  datatype Material = Material(
    diffuseColor: u32, specularColor: u32, unknown08: Single, textureId: u32,
    unknown10: u16, flags: u8, unknown13: u8)
  datatype Vector3AnimData = Vector3AnimData(frameNumber: i32, vector: Vector3)
  datatype Rotation3AnimData = Rotation3AnimData(frameNumber: i32, rotation: Rotation3)

  /** A possibly null reference to an arena instance. */
  datatype Ref = Null | Ptr(id: nat)

  datatype Vector3ArrayAnimData = Vector3ArrayAnimData(frameNumber: i32, vectors: Ref)

  datatype Poly =
    | Triangle(v1: u16, v2: u16, v3: u16)
    | Quad(v1: u16, v2: u16, v3: u16, v4: u16)
    | Strip(isReversed: bool, vertices: seq<u16>)

  datatype Mesh = Mesh(
    materialIdAndPolyType: u16, polys: Ref, polyAttributes: i32, polyNormals: Ref,
    vertexColors: Ref, uv: Ref, nullMember: i32)

  datatype AnimFrame =
    | PosRot(positions: Ref, rotations: Ref)
    | PosRotScale(positions: Ref, rotations: Ref, scales: Ref)
    | VertNrm(vertices: Ref, normals: Ref)

  /** The elements of a named collection, one constructor per element type. */
  datatype Items =
    | Vector3s(vector3s: seq<Vector3>)
    | Colors(colors: seq<u32>)
    | Materials(materials: seq<Material>)
    | Meshes(meshes: seq<Mesh>)
    | PolyNormals(polyNormals: seq<PolyNormal>)
    | Rotation3AnimDatas(rotation3AnimDatas: seq<Rotation3AnimData>)
    | UVs(uvs: seq<UV>)
    | Vector3AnimDatas(vector3AnimDatas: seq<Vector3AnimData>)
    | Vector3ArrayAnimDatas(vector3ArrayAnimDatas: seq<Vector3ArrayAnimData>)
    | AnimFrames(frames: seq<Option<AnimFrame>>)
    | Polys(polys: seq<Option<Poly>>)
    | Attaches(refs: seq<Ref>)
    | Objects(refs: seq<Ref>)
    | AnimHeads(refs: seq<Ref>)
    | AnimHead2s(refs: seq<Ref>)
    | MaterialArrays(refs: seq<Ref>)
    | Vector3Arrays(refs: seq<Ref>)

  /** The number of elements of a collection. */
  function Count(items: Items): nat
  {
    match items
    case Vector3s(s) => |s|
    case Colors(s) => |s|
    case Materials(s) => |s|
    case Meshes(s) => |s|
    case PolyNormals(s) => |s|
    case Rotation3AnimDatas(s) => |s|
    case UVs(s) => |s|
    case Vector3AnimDatas(s) => |s|
    case Vector3ArrayAnimDatas(s) => |s|
    case AnimFrames(s) => |s|
    case Polys(s) => |s|
    case Attaches(s) => |s|
    case Objects(s) => |s|
    case AnimHeads(s) => |s|
    case AnimHead2s(s) => |s|
    case MaterialArrays(s) => |s|
    case Vector3Arrays(s) => |s|
  }

  /** An instance that can be shared by reference; every one of them has a (possibly null) name. */
  datatype Entity =
    | Attach(name: Option<string>, vertices: Ref, normals: Ref, meshes: Ref, materials: Ref,
             center: Vector3, radius: Single, nullMember: i32)
    | Object(name: Option<string>, flags: u32, attach: Ref, position: Vector3, rotation: Rotation3,
             scale: Vector3, child: Ref, sibling: Ref)
    | AnimHead(name: Option<string>, model: Ref, motion: Ref)
    | AnimHead2(name: Option<string>, frameData: Ref, frameCount: i32, motionFlags: u16, unknown0A: u16)
    | Collection(name: Option<string>, items: Items)

  /** The run-time type of an instance: ATTACH, OBJECT, ... or NamedCollection<T> for one T. */
  datatype Kind =
    | AttachKind | ObjectKind | AnimHeadKind | AnimHead2Kind
    | Vector3sKind | ColorsKind | MaterialsKind | MeshesKind | PolyNormalsKind
    | Rotation3AnimDatasKind | UVsKind | Vector3AnimDatasKind | Vector3ArrayAnimDatasKind
    | AnimFramesKind | PolysKind | AttachesKind | ObjectsKind | AnimHeadsKind
    | AnimHead2sKind | MaterialArraysKind | Vector3ArraysKind

  function ItemsKind(items: Items): Kind
  {
    match items
    case Vector3s(_) => Vector3sKind
    case Colors(_) => ColorsKind
    case Materials(_) => MaterialsKind
    case Meshes(_) => MeshesKind
    case PolyNormals(_) => PolyNormalsKind
    case Rotation3AnimDatas(_) => Rotation3AnimDatasKind
    case UVs(_) => UVsKind
    case Vector3AnimDatas(_) => Vector3AnimDatasKind
    case Vector3ArrayAnimDatas(_) => Vector3ArrayAnimDatasKind
    case AnimFrames(_) => AnimFramesKind
    case Polys(_) => PolysKind
    case Attaches(_) => AttachesKind
    case Objects(_) => ObjectsKind
    case AnimHeads(_) => AnimHeadsKind
    case AnimHead2s(_) => AnimHead2sKind
    case MaterialArrays(_) => MaterialArraysKind
    case Vector3Arrays(_) => Vector3ArraysKind
  }

  function KindOf(e: Entity): Kind
  {
    match e
    case Attach(_, _, _, _, _, _, _, _) => AttachKind
    case Object(_, _, _, _, _, _, _, _) => ObjectKind
    case AnimHead(_, _, _) => AnimHeadKind
    case AnimHead2(_, _, _, _, _) => AnimHead2Kind
    case Collection(_, items) => ItemsKind(items)
  }

  /**
   * A reference as the static types of the tools allow it: null, or an instance of
   * the declared type among the first `bound` instances of the arena.
   */
  predicate RefOk(h: seq<Entity>, bound: nat, r: Ref, k: Kind)
  {
    r.Null? || (r.id < bound && r.id < |h| && KindOf(h[r.id]) == k)
  }

  predicate RefsOk(h: seq<Entity>, bound: nat, rs: seq<Ref>, k: Kind)
  {
    forall i :: 0 <= i < |rs| ==> RefOk(h, bound, rs[i], k)
  }

  predicate MeshOk(h: seq<Entity>, bound: nat, m: Mesh)
  {
    RefOk(h, bound, m.polys, PolysKind) && RefOk(h, bound, m.polyNormals, PolyNormalsKind)
    && RefOk(h, bound, m.vertexColors, ColorsKind) && RefOk(h, bound, m.uv, UVsKind)
  }

  predicate FrameOk(h: seq<Entity>, bound: nat, f: AnimFrame)
  {
    match f
    case PosRot(p, r) =>
      RefOk(h, bound, p, Vector3AnimDatasKind) && RefOk(h, bound, r, Rotation3AnimDatasKind)
    case PosRotScale(p, r, s) =>
      RefOk(h, bound, p, Vector3AnimDatasKind) && RefOk(h, bound, r, Rotation3AnimDatasKind)
      && RefOk(h, bound, s, Vector3AnimDatasKind)
    case VertNrm(v, n) =>
      RefOk(h, bound, v, Vector3ArrayAnimDatasKind) && RefOk(h, bound, n, Vector3ArrayAnimDatasKind)
  }

  predicate ItemsOk(h: seq<Entity>, bound: nat, items: Items)
  {
    match items
    case Meshes(ms) => forall i :: 0 <= i < |ms| ==> MeshOk(h, bound, ms[i])
    case Vector3ArrayAnimDatas(ds) => forall i :: 0 <= i < |ds| ==> RefOk(h, bound, ds[i].vectors, Vector3sKind)
    case AnimFrames(fs) => forall i :: 0 <= i < |fs| ==> fs[i].Some? ==> FrameOk(h, bound, fs[i].value)
    case Attaches(rs) => RefsOk(h, bound, rs, AttachKind)
    case Objects(rs) => RefsOk(h, bound, rs, ObjectKind)
    case AnimHeads(rs) => RefsOk(h, bound, rs, AnimHeadKind)
    case AnimHead2s(rs) => RefsOk(h, bound, rs, AnimHead2Kind)
    case MaterialArrays(rs) => RefsOk(h, bound, rs, MaterialsKind)
    case Vector3Arrays(rs) => RefsOk(h, bound, rs, Vector3sKind)
    case _ => true
  }

  /** Every reference an instance holds is well typed and points below `bound`. */
  predicate EntityOk(h: seq<Entity>, bound: nat, e: Entity)
  {
    match e
    case Attach(_, vertices, normals, meshes, materials, _, _, _) =>
      RefOk(h, bound, vertices, Vector3sKind) && RefOk(h, bound, normals, Vector3sKind)
      && RefOk(h, bound, meshes, MeshesKind) && RefOk(h, bound, materials, MaterialsKind)
    case Object(_, _, attach, _, _, _, child, sibling) =>
      RefOk(h, bound, attach, AttachKind) && RefOk(h, bound, child, ObjectKind) && RefOk(h, bound, sibling, ObjectKind)
    case AnimHead(_, model, motion) =>
      RefOk(h, bound, model, ObjectKind) && RefOk(h, bound, motion, AnimHead2Kind)
    case AnimHead2(_, frameData, _, _, _) => RefOk(h, bound, frameData, AnimFramesKind)
    case Collection(_, items) => ItemsOk(h, bound, items)
  }

  /**
   * The arena of a reader: each instance refers only to instances created before it,
   * so the object graph has no cycles, and every reference has its declared type.
   */
  ghost predicate HeapValid(h: seq<Entity>)
  {
    forall i {:trigger EntityOk(h, i, h[i])} :: 0 <= i < |h| ==> EntityOk(h, i, h[i])
  }

  /** References stay well typed when the arena grows and the bound is raised. */
  lemma RefOkGrows(h: seq<Entity>, h': seq<Entity>, bound: nat, bound': nat, r: Ref, k: Kind)
    requires h <= h' && bound <= bound' && RefOk(h, bound, r, k)
    ensures RefOk(h', bound', r, k)
  {
  }

  lemma RefsOkGrows(h: seq<Entity>, h': seq<Entity>, bound: nat, bound': nat, rs: seq<Ref>, k: Kind)
    requires h <= h' && bound <= bound' && RefsOk(h, bound, rs, k)
    ensures RefsOk(h', bound', rs, k)
  {
    forall i | 0 <= i < |rs| ensures RefOk(h', bound', rs[i], k) {
      RefOkGrows(h, h', bound, bound', rs[i], k);
    }
  }

  lemma MeshesOkGrows(h: seq<Entity>, h': seq<Entity>, bound: nat, bound': nat, ms: seq<Mesh>)
    requires h <= h' && bound <= bound'
    requires forall i :: 0 <= i < |ms| ==> MeshOk(h, bound, ms[i])
    ensures forall i :: 0 <= i < |ms| ==> MeshOk(h', bound', ms[i])
  {
    forall i | 0 <= i < |ms| ensures MeshOk(h', bound', ms[i]) {
      assert MeshOk(h, bound, ms[i]);
    }
  }

  lemma FramesOkGrows(h: seq<Entity>, h': seq<Entity>, bound: nat, bound': nat, fs: seq<Option<AnimFrame>>)
    requires h <= h' && bound <= bound'
    requires forall i :: 0 <= i < |fs| ==> fs[i].Some? ==> FrameOk(h, bound, fs[i].value)
    ensures forall i :: 0 <= i < |fs| ==> fs[i].Some? ==> FrameOk(h', bound', fs[i].value)
  {
    forall i | 0 <= i < |fs| && fs[i].Some? ensures FrameOk(h', bound', fs[i].value) {
      assert FrameOk(h, bound, fs[i].value);
    }
  }

  lemma ItemsOkGrows(h: seq<Entity>, h': seq<Entity>, bound: nat, bound': nat, items: Items)
    requires h <= h' && bound <= bound' && ItemsOk(h, bound, items)
    ensures ItemsOk(h', bound', items)
  {
    match items
    case Meshes(ms) => MeshesOkGrows(h, h', bound, bound', ms);
    case AnimFrames(fs) => FramesOkGrows(h, h', bound, bound', fs);
    case Vector3ArrayAnimDatas(ds) =>
      forall i | 0 <= i < |ds| ensures RefOk(h', bound', ds[i].vectors, Vector3sKind) {
        assert RefOk(h, bound, ds[i].vectors, Vector3sKind);
      }
    case _ =>
  }

  /** An instance stays well formed when the arena grows and the bound is raised. */
  lemma EntityOkGrows(h: seq<Entity>, h': seq<Entity>, bound: nat, bound': nat, e: Entity)
    requires h <= h' && bound <= bound' && EntityOk(h, bound, e)
    ensures EntityOk(h', bound', e)
  {
    if e.Collection? {
      ItemsOkGrows(h, h', bound, bound', e.items);
    }
  }

  /** Appending a well-formed instance keeps the arena valid. */
  lemma HeapAppend(h: seq<Entity>, e: Entity)
    requires HeapValid(h) && EntityOk(h, |h|, e)
    ensures HeapValid(h + [e])
  {
    var h' := h + [e];
    forall i | 0 <= i < |h'| ensures EntityOk(h', i, h'[i]) {
      EntityOkGrows(h, h', i, i, h'[i]);
    }
  }

  // Record layouts of the plain value structures, as the reader takes them from
  // memory: little-endian fields back to back.

  function Vector3Of(b: seq<u8>): Vector3
    requires |b| == 12
  {
    var f := Fields(b, [4, 4, 4]);
    Vector3(f[0], f[1], f[2])
  }

  function Vector3Bytes(v: Vector3): (b: seq<u8>)
    ensures |b| == 12
  {
    Record([v.x, v.y, v.z], [4, 4, 4])
  }

  lemma Vector3RoundTrip(v: Vector3)
    ensures Vector3Of(Vector3Bytes(v)) == v
  {
    FieldsOfRecord([v.x, v.y, v.z], [4, 4, 4]);
  }

  function Rotation3Of(b: seq<u8>): Rotation3
    requires |b| == 12
  {
    var f := Fields(b, [4, 4, 4]);
    Rotation3(Int32(f[0]), Int32(f[1]), Int32(f[2]))
  }

  function Rotation3Bytes(r: Rotation3): (b: seq<u8>)
    ensures |b| == 12
  {
    Record([r.x % 0x1_0000_0000, r.y % 0x1_0000_0000, r.z % 0x1_0000_0000], [4, 4, 4])
  }

  lemma Rotation3RoundTrip(r: Rotation3)
    ensures Rotation3Of(Rotation3Bytes(r)) == r
  {
    FieldsOfRecord([r.x % 0x1_0000_0000, r.y % 0x1_0000_0000, r.z % 0x1_0000_0000], [4, 4, 4]);
    Int32Pattern(r.x);
    Int32Pattern(r.y);
    Int32Pattern(r.z);
  }

  function UVOf(b: seq<u8>): UV
    requires |b| == 4
  {
    var f := Fields(b, [2, 2]);
    UV(Int16(f[0]), Int16(f[1]))
  }

  function UVBytes(uv: UV): (b: seq<u8>)
    ensures |b| == 4
  {
    Record([uv.u % 0x1_0000, uv.v % 0x1_0000], [2, 2])
  }

  lemma UVRoundTrip(uv: UV)
    ensures UVOf(UVBytes(uv)) == uv
  {
    FieldsOfRecord([uv.u % 0x1_0000, uv.v % 0x1_0000], [2, 2]);
    Int16Pattern(uv.u);
    Int16Pattern(uv.v);
  }

  function PolyNormalOf(b: seq<u8>): PolyNormal
    requires |b| == 8
  {
    var f := Fields(b, [4, 4]);
    PolyNormal(f[0], f[1])
  }

  function PolyNormalBytes(n: PolyNormal): (b: seq<u8>)
    ensures |b| == 8
  {
    Record([n.unknown00, n.unknown04], [4, 4])
  }

  lemma PolyNormalRoundTrip(n: PolyNormal)
    ensures PolyNormalOf(PolyNormalBytes(n)) == n
  {
    FieldsOfRecord([n.unknown00, n.unknown04], [4, 4]);
  }

  const MaterialLayout: seq<nat> := [4, 4, 4, 4, 2, 1, 1]

  function MaterialOf(b: seq<u8>): Material
    requires |b| == 20
  {
    var f := Fields(b, MaterialLayout);
    Material(f[0], f[1], f[2], f[3], f[4], f[5], f[6])
  }

  function MaterialBytes(m: Material): (b: seq<u8>)
    ensures |b| == 20
  {
    Record([m.diffuseColor, m.specularColor, m.unknown08, m.textureId, m.unknown10, m.flags, m.unknown13], MaterialLayout)
  }

  lemma MaterialRoundTrip(m: Material)
    ensures MaterialOf(MaterialBytes(m)) == m
  {
    FieldsOfRecord([m.diffuseColor, m.specularColor, m.unknown08, m.textureId, m.unknown10, m.flags, m.unknown13], MaterialLayout);
  }

  function ColorOf(b: seq<u8>): u32
    requires |b| == 4
  {
    LE32(b)
  }

  function Vector3AnimDataOf(b: seq<u8>): Vector3AnimData
    requires |b| == 16
  {
    var f := Fields(b, [4, 4, 4, 4]);
    Vector3AnimData(Int32(f[0]), Vector3(f[1], f[2], f[3]))
  }

  function Vector3AnimDataBytes(d: Vector3AnimData): (b: seq<u8>)
    ensures |b| == 16
  {
    Record([d.frameNumber % 0x1_0000_0000, d.vector.x, d.vector.y, d.vector.z], [4, 4, 4, 4])
  }

  lemma Vector3AnimDataRoundTrip(d: Vector3AnimData)
    ensures Vector3AnimDataOf(Vector3AnimDataBytes(d)) == d
  {
    FieldsOfRecord([d.frameNumber % 0x1_0000_0000, d.vector.x, d.vector.y, d.vector.z], [4, 4, 4, 4]);
    Int32Pattern(d.frameNumber);
  }

  function Rotation3AnimDataOf(b: seq<u8>): Rotation3AnimData
    requires |b| == 16
  {
    var f := Fields(b, [4, 4, 4, 4]);
    Rotation3AnimData(Int32(f[0]), Rotation3(Int32(f[1]), Int32(f[2]), Int32(f[3])))
  }

  function Rotation3AnimDataBytes(d: Rotation3AnimData): (b: seq<u8>)
    ensures |b| == 16
  {
    Record([d.frameNumber % 0x1_0000_0000, d.rotation.x % 0x1_0000_0000,
            d.rotation.y % 0x1_0000_0000, d.rotation.z % 0x1_0000_0000], [4, 4, 4, 4])
  }

  lemma Rotation3AnimDataRoundTrip(d: Rotation3AnimData)
    ensures Rotation3AnimDataOf(Rotation3AnimDataBytes(d)) == d
  {
    FieldsOfRecord([d.frameNumber % 0x1_0000_0000, d.rotation.x % 0x1_0000_0000,
                    d.rotation.y % 0x1_0000_0000, d.rotation.z % 0x1_0000_0000], [4, 4, 4, 4]);
    Int32Pattern(d.frameNumber);
    Int32Pattern(d.rotation.x);
    Int32Pattern(d.rotation.y);
    Int32Pattern(d.rotation.z);
  }
}
