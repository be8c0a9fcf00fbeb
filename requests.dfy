// What the structure reader is asked to decode, and what each request yields, stated as
// functions and predicates of the image's memory. The reader class is proved against
// these.
module Requests {
  import opened Wrappers
  import opened Words
  import opened Text
  import opened AddressSpaces
  import opened Data
  import opened Polys
  import opened Decoding

  /**
   * One call of a decoding routine of the reader, with its arguments (the address
   * aside): the structure, array or pointer array it reads and the element counts
   * the caller supplies.
   */
  datatype Request =
    | AttachReq
    | AttachPointersReq(count: int)
    | AnimHeadReq
    | AnimHead2Req(vector3CountsByModel: seq<int>)
    | AnimHeadPointersReq(count: int)
    | AnimHead2PointersReq(vector3CountsByMotion: seq<seq<int>>)
    | ColorsReq(count: int)
    | MaterialsReq(count: int)
    | MaterialArraysReq(materialCounts: seq<int>)
    | MeshesReq(count: int)
    | ObjectReq
    | ObjectPointersReq(count: int)
    | PolyNormalsReq(count: int)
    | Rotation3AnimDatasReq(count: int)
    | UVsReq(count: int)
    | Vector3sReq(count: int)
    | Vector3AnimDatasReq(count: int)
    | Vector3ArrayAnimDatasReq(count: int, vector3Count: int)
    | Vector3ArraysReq(vector3Counts: seq<int>)
    | PosRotFramesReq(count: int)
    | PosRotScaleFramesReq(count: int)
    | VertNrmFramesReq(vector3CountsByModel: seq<int>)
    | PolysReq(count: int, polyType: int)

  /** The run-time type of what a request decodes to; the cache is consulted by this type. */
  function ReqKind(req: Request): Kind
  {
    match req
    case AttachReq => AttachKind
    case AttachPointersReq(_) => AttachesKind
    case AnimHeadReq => AnimHeadKind
    case AnimHead2Req(_) => AnimHead2Kind
    case AnimHeadPointersReq(_) => AnimHeadsKind
    case AnimHead2PointersReq(_) => AnimHead2sKind
    case ColorsReq(_) => ColorsKind
    case MaterialsReq(_) => MaterialsKind
    case MaterialArraysReq(_) => MaterialArraysKind
    case MeshesReq(_) => MeshesKind
    case ObjectReq => ObjectKind
    case ObjectPointersReq(_) => ObjectsKind
    case PolyNormalsReq(_) => PolyNormalsKind
    case Rotation3AnimDatasReq(_) => Rotation3AnimDatasKind
    case UVsReq(_) => UVsKind
    case Vector3sReq(_) => Vector3sKind
    case Vector3AnimDatasReq(_) => Vector3AnimDatasKind
    case Vector3ArrayAnimDatasReq(_, _) => Vector3ArrayAnimDatasKind
    case Vector3ArraysReq(_) => Vector3ArraysKind
    case PosRotFramesReq(_) => AnimFramesKind
    case PosRotScaleFramesReq(_) => AnimFramesKind
    case VertNrmFramesReq(_) => AnimFramesKind
    case PolysReq(_, _) => PolysKind
  }

  /** The prefix of the name a decoded instance gets; the address follows it in hexadecimal. */
  function Prefix(req: Request): string
  {
    match req
    case AttachReq => "attach_"
    case AttachPointersReq(_) => "MODELS_"
    case AnimHeadReq => "ah_"
    case AnimHead2Req(_) => "ah2_"
    case AnimHeadPointersReq(_) => "ACTIONS_"
    case AnimHead2PointersReq(_) => "MOTIONS_"
    case ColorsReq(_) => "colors_"
    case MaterialsReq(_) => "mat_"
    case MaterialArraysReq(_) => "MATERIALS_"
    case MeshesReq(_) => "mesh_"
    case ObjectReq => "obj_"
    case ObjectPointersReq(_) => "OBJECTS_"
    case PolyNormalsReq(_) => "pn_"
    case Rotation3AnimDatasReq(_) => "r3ad_"
    case UVsReq(_) => "uv_"
    case Vector3sReq(_) => "vec3_"
    case Vector3AnimDatasReq(_) => "v3ad_"
    case Vector3ArrayAnimDatasReq(_, _) => "v3aad_"
    case Vector3ArraysReq(_) => "POINTS_"
    case PosRotFramesReq(_) => "afpr_"
    case PosRotScaleFramesReq(_) => "afprs_"
    case VertNrmFramesReq(_) => "afpr_"
    case PolysReq(_, polyType) => if polyType == 0 then "tris_" else if polyType == 1 then "quads_" else "strips_"
  }

  function NameAt(req: Request, address: int): string
  {
    Prefix(req) + HexLong8(address)
  }

  /**
   * The initial capacity a decoder gives the list it fills, when it gives one: a
   * negative capacity is refused before anything is read.
   */
  function Capacity(req: Request): Option<int>
  {
    match req
    case AttachPointersReq(n) => Some(n)
    case AnimHeadPointersReq(n) => Some(n)
    case AnimHead2PointersReq(cs) => Some(|cs|)
    case ColorsReq(n) => Some(n)
    case MaterialsReq(n) => Some(n)
    case MaterialArraysReq(cs) => Some(|cs|)
    case MeshesReq(n) => Some(n)
    case ObjectPointersReq(n) => Some(n)
    case PolyNormalsReq(n) => Some(n)
    case Rotation3AnimDatasReq(n) => Some(n)
    case UVsReq(n) => Some(n)
    case Vector3sReq(n) => Some(n)
    case Vector3AnimDatasReq(n) => Some(n)
    case Vector3ArrayAnimDatasReq(n, _) => Some(n)
    case PosRotFramesReq(n) => Some(n)
    case PosRotScaleFramesReq(n) => Some(n)
    case VertNrmFramesReq(cs) => Some(|cs|)
    case PolysReq(n, _) => Some(n)
    case _ => None
  }

  predicate CapacityRefused(req: Request)
  {
    Capacity(req).Some? && Capacity(req).value < 0
  }

  // Arrays of plain values and of polygons: decoded record by record, following no pointer.

  predicate IsValueReq(req: Request)
  {
    req.ColorsReq? || req.MaterialsReq? || req.PolyNormalsReq? || req.Rotation3AnimDatasReq?
    || req.UVsReq? || req.Vector3sReq? || req.Vector3AnimDatasReq?
  }

  predicate IsPlainReq(req: Request)
  {
    IsValueReq(req) || req.PolysReq?
  }

  /** The size in bytes of one element of a value array. */
  function ValueSize(req: Request): nat
    requires IsValueReq(req)
  {
    match req
    case ColorsReq(_) => 4
    case MaterialsReq(_) => 20
    case PolyNormalsReq(_) => 8
    case Rotation3AnimDatasReq(_) => 16
    case UVsReq(_) => 4
    case Vector3sReq(_) => 12
    case Vector3AnimDatasReq(_) => 16
  }

  /** The elements of a value array, each decoded from its record. */
  function ValueItems(req: Request, recs: seq<seq<u8>>): (items: Items)
    requires IsValueReq(req) && forall i :: 0 <= i < |recs| ==> |recs[i]| == ValueSize(req)
    ensures ItemsKind(items) == ReqKind(req) && Count(items) == |recs|
  {
    var size := ValueSize(req);
    match req
    case ColorsReq(_) => Colors(seq(|recs|, i requires 0 <= i < |recs| => ColorOf(recs[i])))
    case MaterialsReq(_) => Materials(seq(|recs|, i requires 0 <= i < |recs| => MaterialOf(recs[i])))
    case PolyNormalsReq(_) =>
      assert size == 8;
      PolyNormals(seq(|recs|, i requires 0 <= i < |recs| => PolyNormalOf(recs[i])))
    case Rotation3AnimDatasReq(_) =>
      assert size == 16;
      Rotation3AnimDatas(seq(|recs|, i requires 0 <= i < |recs| => Rotation3AnimDataOf(recs[i])))
    case UVsReq(_) =>
      assert size == 4;
      UVs(seq(|recs|, i requires 0 <= i < |recs| => UVOf(recs[i])))
    case Vector3sReq(_) =>
      assert size == 12;
      Vector3s(seq(|recs|, i requires 0 <= i < |recs| => Vector3Of(recs[i])))
    case Vector3AnimDatasReq(_) =>
      assert size == 16;
      Vector3AnimDatas(seq(|recs|, i requires 0 <= i < |recs| => Vector3AnimDataOf(recs[i])))
  }

  /** `count` strips back to back from `pos`; each one's size depends on its own header. */
  function StripsAt(mem: Memory, pos: int, count: nat): (r: Result<seq<Poly>>)
    ensures r.Ok? ==> |r.value| == count
    decreases count
  {
    if count == 0 then Ok([])
    else
      var strip :- StripAt(mem, pos);
      var rest :- StripsAt(mem, pos + StripSize(strip), count - 1);
      Ok([strip] + rest)
  }

  /** One step of a run of strips: the first strip, then the rest after it. */
  lemma StripsAtUnfold(mem: Memory, pos: int, count: nat)
    requires count > 0
    ensures StripsAt(mem, pos, count)
         == if StripAt(mem, pos).Err? then Err(StripAt(mem, pos).error)
            else Consed(StripAt(mem, pos).value, StripsAt(mem, pos + StripSize(StripAt(mem, pos).value), count - 1))
  {
  }

  /** A loop over strips that has read `strips` and stands at `pos`, with `left` strips to go. */
  ghost predicate StripsLoop(mem: Memory, p0: int, count: nat, strips: seq<Poly>, pos: int, left: nat)
  {
    StripsAt(mem, p0, count) == Prepended(strips, StripsAt(mem, pos, left))
  }

  /** Such a loop reads the strip `next` at `pos` and goes on after it, or fails there. */
  lemma StripsStep(mem: Memory, p0: int, count: nat, strips: seq<Poly>, pos: int, left: nat, next: Result<Poly>)
    requires left > 0 && next == StripAt(mem, pos)
    requires StripsLoop(mem, p0, count, strips, pos, left)
    ensures next.Err? ==> StripsAt(mem, p0, count) == Err(next.error)
    ensures next.Ok? ==> next.value.Strip? && StripsLoop(mem, p0, count, strips + [next.value], pos + StripSize(next.value), left - 1)
  {
    StripsAtUnfold(mem, pos, left);
    if next.Ok? {
      PrependedConsed(strips, next.value, StripsAt(mem, pos + StripSize(next.value), left - 1));
    }
  }

  /** Polygon type 0 reads triangles, 1 quads and any other value strips. */
  function PolysAt(mem: Memory, address: int, count: nat, polyType: int): (r: Result<seq<Poly>>)
    ensures r.Ok? ==> |r.value| == count
  {
    if polyType == 0 then
      var recs :- RecordsAt(mem, address, count, 6);
      Ok(seq(|recs|, i requires 0 <= i < |recs| => TriangleOf(recs[i])))
    else if polyType == 1 then
      var recs :- RecordsAt(mem, address, count, 8);
      Ok(seq(|recs|, i requires 0 <= i < |recs| => QuadOf(recs[i])))
    else
      StripsAt(mem, address, count)
  }

  /** What a request that follows no pointer yields at `address`. */
  function PlainAt(mem: Memory, address: int, req: Request): (r: Result<Entity>)
    requires IsPlainReq(req)
    ensures CapacityRefused(req) ==> r == Err(ArgumentOutOfRange("capacity"))
    ensures r.Ok? ==> r.value.Collection? && KindOf(r.value) == ReqKind(req)
                      && r.value.name == Some(NameAt(req, address)) && Count(r.value.items) == req.count
  {
    PlainCapacity(req);
    if req.count < 0 then Err(ArgumentOutOfRange("capacity"))
    else if req.PolysReq? then
      var polys :- PolysAt(mem, address, req.count, req.polyType);
      Ok(Collection(Some(NameAt(req, address)), PolyItems(polys)))
    else
      var recs :- RecordsAt(mem, address, req.count, ValueSize(req));
      Ok(Collection(Some(NameAt(req, address)), ValueItems(req, recs)))
  }

  /** What a plain request decodes to holds no reference, so it is well formed in any arena. */
  lemma PlainEntityOk(h: seq<Entity>, bound: nat, e: Entity, req: Request)
    requires IsPlainReq(req) && e.Collection? && KindOf(e) == ReqKind(req)
    ensures EntityOk(h, bound, e)
  {
  }

  /** A plain request's capacity is its element count. */
  lemma PlainCapacity(req: Request)
    requires IsPlainReq(req)
    ensures Capacity(req) == Some(req.count)
  {
  }

  /** Polygons as the items of a POLYS array, every slot filled. */
  function PolyItems(polys: seq<Poly>): (items: Items)
    ensures items.Polys? && |items.polys| == |polys|
    ensures forall i :: 0 <= i < |polys| ==> items.polys[i] == Some(polys[i])
  {
    Polys(seq(|polys|, i requires 0 <= i < |polys| => Some(polys[i])))
  }

  // Structures that hold pointers.

  function I32At(mem: Memory, pos: int): Result<i32>
  {
    if U32At(mem, pos).Ok? then Ok(Int32(U32At(mem, pos).value)) else Err(U32At(mem, pos).error)
  }

  /** Three single-precision words, as their bit patterns. */
  function Vector3At(mem: Memory, pos: int): Result<Vector3>
  {
    var x :- U32At(mem, pos);
    var y :- U32At(mem, pos + 4);
    var z :- U32At(mem, pos + 8);
    Ok(Vector3(x, y, z))
  }

  /** Three signed 32-bit angles. */
  function Rotation3At(mem: Memory, pos: int): Result<Rotation3>
  {
    var x :- I32At(mem, pos);
    var y :- I32At(mem, pos + 4);
    var z :- I32At(mem, pos + 8);
    Ok(Rotation3(x, y, z))
  }

  /** The three words are the fields of the 12-byte record at `pos`. */
  lemma TripleBytes(mem: Memory, pos: int)
    ensures ReadBytes(mem, pos, 12).Ok?
            <==> U32At(mem, pos).Ok? && U32At(mem, pos + 4).Ok? && U32At(mem, pos + 8).Ok?
    ensures ReadBytes(mem, pos, 12).Err? ==>
              ReadBytes(mem, pos, 12).error
              == if U32At(mem, pos).Err? then U32At(mem, pos).error
                 else if U32At(mem, pos + 4).Err? then U32At(mem, pos + 4).error
                 else U32At(mem, pos + 8).error
    ensures ReadBytes(mem, pos, 12).Ok? ==>
              Fields(ReadBytes(mem, pos, 12).value, [4, 4, 4])
              == [U32At(mem, pos).value, U32At(mem, pos + 4).value, U32At(mem, pos + 8).value]
  {
    ReadBytesSplit(mem, pos, 4, 8);
    ReadBytesSplit(mem, pos + 4, 4, 4);
    U32AtBytes(mem, pos);
    U32AtBytes(mem, pos + 4);
    U32AtBytes(mem, pos + 8);
    if ReadBytes(mem, pos, 12).Ok? {
      var b := ReadBytes(mem, pos, 12).value;
      FieldsOfTriple(b);
      assert b[..4] == ReadBytes(mem, pos, 4).value;
      assert b[4..8] == ReadBytes(mem, pos + 4, 4).value;
      assert b[8..] == ReadBytes(mem, pos + 8, 4).value;
    }
  }

  lemma Vector3AtBytes(mem: Memory, pos: int)
    ensures Vector3At(mem, pos) == match ReadBytes(mem, pos, 12)
                                   case Err(e) => Err(e)
                                   case Ok(b) => Ok(Vector3Of(b))
  {
    TripleBytes(mem, pos);
  }

  lemma Rotation3AtBytes(mem: Memory, pos: int)
    ensures Rotation3At(mem, pos) == match ReadBytes(mem, pos, 12)
                                     case Err(e) => Err(e)
                                     case Ok(b) => Ok(Rotation3Of(b))
  {
    TripleBytes(mem, pos);
  }

  // Which request decoded each instance of the arena. A structure names the instances it
  // refers to by the pointer words of its record, but the cache hands back any earlier
  // instance of the requested type, whatever counts it was decoded with. What the reader
  // can promise is therefore relative to the arena's size when a reference was followed
  // (its mark): an instance older than the mark is the cache's, one at or past the mark
  // was decoded there and then, with exactly the request the structure makes.

  /** Where an instance of the arena comes from: its address, its request and the arena's size when its decoding began. */
  datatype Origin = Origin(address: int, req: Request, start: nat)

  /** The mark after following `r` from `mark`: one past `r` when it was decoded there and then. */
  function After(mark: nat, r: Ref): (next: nat)
    ensures mark <= next && (r.Ptr? && mark <= r.id ==> next == r.id + 1)
  {
    if r.Ptr? && mark <= r.id then r.id + 1 else mark
  }

  /** The mark after following each of `rs` in turn. */
  function AfterAll(mark: nat, rs: seq<Ref>): (next: nat)
    ensures mark <= next
  {
    if rs == [] then mark else After(AfterAll(mark, rs[..|rs| - 1]), rs[|rs| - 1])
  }

  /**
   * `r` is what following the pointer word `word` with `req` yields when the arena held
   * `mark` instances: null for word 0; otherwise an instance decoded at that address as the
   * requested type, and when it is newer than the mark, decoded by `req` itself.
   */
  predicate FetchedSince(origins: seq<Origin>, mark: nat, word: int, req: Request, r: Ref)
  {
    (r.Null? <==> word == 0)
    && (r.Ptr? ==> r.id < |origins| && origins[r.id].address == word
                   && (mark <= r.id ==> origins[r.id] == Origin(word, req, mark)))
  }

  /** The pointer word at `pos` can be read, and `r` is what following it with `req` yields. */
  predicate FetchedAt(mem: Memory, origins: seq<Origin>, mark: nat, pos: int, req: Request, r: Ref)
  {
    U32At(mem, pos).Ok? && FetchedSince(origins, mark, U32At(mem, pos).value as int, req, r)
  }

  lemma {:induction false} FetchedSinceGrows(origins: seq<Origin>, origins': seq<Origin>, mark: nat, word: int, req: Request, r: Ref)
    requires origins <= origins' && FetchedSince(origins, mark, word, req, r)
    ensures FetchedSince(origins', mark, word, req, r)
  {
    if r.Ptr? {
      assert origins'[r.id] == origins[r.id];
    }
  }

  lemma {:induction false} FetchedAtGrows(mem: Memory, origins: seq<Origin>, origins': seq<Origin>, mark: nat, pos: int, req: Request, r: Ref)
    requires origins <= origins' && FetchedAt(mem, origins, mark, pos, req, r)
    ensures FetchedAt(mem, origins', mark, pos, req, r)
  {
    FetchedSinceGrows(origins, origins', mark, U32At(mem, pos).value as int, req, r);
  }

  /**
   * The total number of vertices of a mesh's polygons, in order; the first missing
   * polygon makes the count fail.
   */
  function VertexTotal(polys: seq<Option<Poly>>): (r: Result<int>)
    ensures r.Err? ==> r.error == NullReference
  {
    if polys == [] then Ok(0)
    else
      var total :- VertexTotal(polys[..|polys| - 1]);
      var last := polys[|polys| - 1];
      if last.None? then Err(NullReference) else Ok(total + NumberOfVertices(last.value))
  }

  /** The count is defined exactly when every polygon is present. */
  lemma {:induction false} VertexTotalDefined(polys: seq<Option<Poly>>)
    ensures VertexTotal(polys).Ok? <==> forall i :: 0 <= i < |polys| ==> polys[i].Some?
    decreases |polys|
  {
    if polys != [] {
      var prefix := polys[..|polys| - 1];
      VertexTotalDefined(prefix);
      assert forall i :: 0 <= i < |prefix| ==> prefix[i] == polys[i];
    }
  }

  lemma {:induction false} VertexTotalMissing(polys: seq<Option<Poly>>, i: nat)
    requires i < |polys| && polys[i].None?
    ensures VertexTotal(polys) == Err(NullReference)
  {
    VertexTotalDefined(polys);
  }

  /**
   * The 44-byte ATTACH record: the vertex and normal arrays both sized by the count at +8,
   * the meshes and materials by the 16-bit counts at +20 and +22.
   */
  predicate AttachAt(mem: Memory, origins: seq<Origin>, start: nat, address: int, e: Entity)
  {
    (e.Attach? && I32At(mem, address + 8).Ok? && U16At(mem, address + 20).Ok? && U16At(mem, address + 22).Ok?
     && var m1 := After(start, e.vertices);
     var m2 := After(m1, e.normals);
     var m3 := After(m2, e.meshes);
     FetchedAt(mem, origins, start, address, Vector3sReq(I32At(mem, address + 8).value as int), e.vertices)
     && FetchedAt(mem, origins, m1, address + 4, Vector3sReq(I32At(mem, address + 8).value as int), e.normals)
     && FetchedAt(mem, origins, m2, address + 12, MeshesReq(U16At(mem, address + 20).value as int), e.meshes)
     && FetchedAt(mem, origins, m3, address + 16, MaterialsReq(U16At(mem, address + 22).value as int), e.materials)
     && Vector3At(mem, address + 24) == Ok(e.center) && U32At(mem, address + 36) == Ok(e.radius)
     && I32At(mem, address + 40) == Ok(e.nullMember)) == true
  }

  /** A well-typed ATTACH record read from `address`, named after it. */
  predicate AttachRead(mem: Memory, h: seq<Entity>, origins: seq<Origin>, start: nat, address: int, e: Entity)
  {
    (EntityOk(h, |h|, e) && AttachAt(mem, origins, start, address, e) && e.name == Some(NameAt(AttachReq, address))) == true
  }

  /**
   * The words of an ATTACH record and the references read from them, gathered while the
   * origins grew from `origins1` to `origins`, make an Attach record.
   */
  lemma AttachFrom(mem: Memory, h1: seq<Entity>, h: seq<Entity>, origins1: seq<Origin>, origins: seq<Origin>,
                   start: nat, address: int, count: i32, vn: (Ref, Ref), mm: (Ref, Ref), bounds: (Vector3, u32, i32))
    requires h1 <= h && origins1 <= origins && I32At(mem, address + 8) == Ok(count)
    requires RefOk(h1, |h1|, vn.0, Vector3sKind) && RefOk(h1, |h1|, vn.1, Vector3sKind)
    requires RefOk(h, |h|, mm.0, MeshesKind) && RefOk(h, |h|, mm.1, MaterialsKind)
    requires FetchedAt(mem, origins1, start, address, Vector3sReq(count as int), vn.0)
    requires FetchedAt(mem, origins1, After(start, vn.0), address + 4, Vector3sReq(count as int), vn.1)
    requires U16At(mem, address + 20).Ok? && U16At(mem, address + 22).Ok?
    requires FetchedAt(mem, origins, After(After(start, vn.0), vn.1), address + 12,
                       MeshesReq(U16At(mem, address + 20).value as int), mm.0)
    requires FetchedAt(mem, origins, After(After(After(start, vn.0), vn.1), mm.0), address + 16,
                       MaterialsReq(U16At(mem, address + 22).value as int), mm.1)
    requires Vector3At(mem, address + 24) == Ok(bounds.0) && U32At(mem, address + 36) == Ok(bounds.1)
    requires I32At(mem, address + 40) == Ok(bounds.2)
    ensures AttachRead(mem, h, origins, start, address,
                       Attach(Some(NameAt(AttachReq, address)), vn.0, vn.1, mm.0, mm.1, bounds.0, bounds.1, bounds.2))
  {
    RefOkGrows(h1, h, |h1|, |h|, vn.0, Vector3sKind);
    RefOkGrows(h1, h, |h1|, |h|, vn.1, Vector3sKind);
    FetchedAtGrows(mem, origins1, origins, start, address, Vector3sReq(count as int), vn.0);
    FetchedAtGrows(mem, origins1, origins, After(start, vn.0), address + 4, Vector3sReq(count as int), vn.1);
  }

  /** The 52-byte OBJECT record: its model, then its child and sibling objects. */
  predicate ObjectAt(mem: Memory, origins: seq<Origin>, start: nat, address: int, e: Entity)
  {
    (e.Object?
     && U32At(mem, address) == Ok(e.flags) && FetchedAt(mem, origins, start, address + 4, AttachReq, e.attach)
     && Vector3At(mem, address + 8) == Ok(e.position) && Rotation3At(mem, address + 20) == Ok(e.rotation)
     && Vector3At(mem, address + 32) == Ok(e.scale)
     && FetchedAt(mem, origins, After(start, e.attach), address + 44, ObjectReq, e.child)
     && FetchedAt(mem, origins, After(After(start, e.attach), e.child), address + 48, ObjectReq, e.sibling)) == true
  }

  /**
   * The 8-byte AnimHead record: a model that cannot be null, and the motion read with the
   * vertex counts of the model's object tree.
   */
  ghost predicate AnimHeadAt(mem: Memory, h: seq<Entity>, origins: seq<Origin>, start: nat, address: int, e: Entity)
  {
    (e.AnimHead? && e.model.Ptr? && FetchedAt(mem, origins, start, address, ObjectReq, e.model)
     && HeapValid(h) && RefOk(h, |h|, e.model, ObjectKind) && CountVerticesInObject(h, e.model).Ok?
     && FetchedAt(mem, origins, After(start, e.model), address + 4,
                  AnimHead2Req(CountVerticesInObject(h, e.model).value), e.motion)) == true
  }

  /** A well-typed ANIMHEAD record read from `address`, named after it. */
  ghost predicate AnimHeadRead(mem: Memory, h: seq<Entity>, origins: seq<Origin>, start: nat, address: int, e: Entity)
  {
    (EntityOk(h, |h|, e) && AnimHeadAt(mem, h, origins, start, address, e)
     && e.name == Some(NameAt(AnimHeadReq, address))) == true
  }

  /**
   * The model followed from `address`, the vertex counts of its tree, and the motion followed
   * with those counts, while the arena grew from `h1` to `h`, make an AnimHead record.
   */
  lemma AnimHeadFrom(mem: Memory, h1: seq<Entity>, h: seq<Entity>, origins1: seq<Origin>, origins: seq<Origin>, start: nat,
                     address: int, model: Ref, motionWord: u32, counts: seq<int>, motion: Ref)
    requires h1 <= h && origins1 <= origins && HeapValid(h1) && HeapValid(h)
    requires RefOk(h1, |h1|, model, ObjectKind) && FetchedAt(mem, origins1, start, address, ObjectReq, model)
    requires |h1| == After(start, model) && U32At(mem, address + 4) == Ok(motionWord)
    requires CountVerticesInObject(h1, model) == Ok(counts) && FetchedSince(origins, |h1|, motionWord, AnimHead2Req(counts), motion)
    requires RefOk(h, |h|, motion, AnimHead2Kind)
    ensures AnimHeadRead(mem, h, origins, start, address, AnimHead(Some(NameAt(AnimHeadReq, address)), model, motion))
  {
    var e := AnimHead(Some(NameAt(AnimHeadReq, address)), model, motion);
    RefOkGrows(h1, h, |h1|, |h|, model, ObjectKind);
    CountVerticesGrows(h1, h, model);
    FetchedAtGrows(mem, origins1, origins, start, address, ObjectReq, model);
    assert FetchedAt(mem, origins, After(start, e.model), address + 4, AnimHead2Req(counts), e.motion);
    assert EntityOk(h, |h|, e) && AnimHeadAt(mem, h, origins, start, address, e);
  }

  /** The motion flags the reader knows: 3, 7 and 0x30 select the layout of the frames. */
  predicate KnownMotionFlags(flags: u16)
  {
    flags == 3 || flags == 7 || flags == 0x30
  }

  /** The 12-byte AnimHead2 record, whose frames are read as its flags and the model's vertex counts say. */
  predicate AnimHead2At(mem: Memory, origins: seq<Origin>, start: nat, address: int, counts: seq<int>, e: Entity)
  {
    (e.AnimHead2?
     && I32At(mem, address + 4) == Ok(e.frameCount)
     && U16At(mem, address + 8) == Ok(e.motionFlags) && KnownMotionFlags(e.motionFlags)
     && FetchedAt(mem, origins, start, address, FramesRequest(e.motionFlags, counts), e.frameData)
     && U16At(mem, address + 10) == Ok(e.unknown0A)) == true
  }

  /** A well-typed ANIMHEAD2 record read from `address` with the model's vertex counts, named after it. */
  predicate AnimHead2Read(mem: Memory, h: seq<Entity>, origins: seq<Origin>, start: nat, address: int, counts: seq<int>,
                          e: Entity)
  {
    (EntityOk(h, |h|, e) && AnimHead2At(mem, origins, start, address, counts, e)
     && e.name == Some(NameAt(AnimHead2Req(counts), address))) == true
  }

  /** The words of an ANIMHEAD2 record and the frames followed with the request its flags select make an AnimHead2 record. */
  lemma AnimHead2From(mem: Memory, h: seq<Entity>, origins: seq<Origin>, start: nat, address: int, counts: seq<int>,
                      frameWord: u32, frameCount: i32, flags: u16, frames: Ref, unknown0A: u16)
    requires U32At(mem, address) == Ok(frameWord) && I32At(mem, address + 4) == Ok(frameCount)
    requires U16At(mem, address + 8) == Ok(flags) && KnownMotionFlags(flags) && U16At(mem, address + 10) == Ok(unknown0A)
    requires RefOk(h, |h|, frames, AnimFramesKind) && FetchedSince(origins, start, frameWord, FramesRequest(flags, counts), frames)
    ensures AnimHead2Read(mem, h, origins, start, address, counts,
                          AnimHead2(Some(NameAt(AnimHead2Req(counts), address)), frames, frameCount, flags, unknown0A))
  {
  }

  /** The request that reads the frames of an AnimHead2 with the given flags. */
  function FramesRequest(flags: u16, counts: seq<int>): (req: Request)
    requires KnownMotionFlags(flags)
    ensures IsFramesReq(req) && ReqKind(req) == AnimFramesKind
  {
    if flags == 3 then PosRotFramesReq(|counts|)
    else if flags == 7 then PosRotScaleFramesReq(|counts|)
    else VertNrmFramesReq(counts)
  }

  predicate IsPointersReq(req: Request)
  {
    req.AttachPointersReq? || req.AnimHeadPointersReq? || req.AnimHead2PointersReq?
    || req.MaterialArraysReq? || req.ObjectPointersReq? || req.Vector3ArraysReq?
  }

  /** The request a pointer array makes for its `i`-th element. */
  function ElementRequest(req: Request, i: nat): (element: Request)
    requires IsPointersReq(req) && i < PointerCount(req)
    ensures ReqKind(element) == ElementKind(req)
  {
    match req
    case AttachPointersReq(_) => AttachReq
    case AnimHeadPointersReq(_) => AnimHeadReq
    case AnimHead2PointersReq(cs) => AnimHead2Req(cs[i])
    case MaterialArraysReq(cs) => MaterialsReq(cs[i])
    case ObjectPointersReq(_) => ObjectReq
    case Vector3ArraysReq(cs) => Vector3sReq(cs[i])
  }

  /** The type of the elements of a pointer array. */
  function ElementKind(req: Request): Kind
    requires IsPointersReq(req)
  {
    match req
    case AttachPointersReq(_) => AttachKind
    case AnimHeadPointersReq(_) => AnimHeadKind
    case AnimHead2PointersReq(_) => AnimHead2Kind
    case MaterialArraysReq(_) => MaterialsKind
    case ObjectPointersReq(_) => ObjectKind
    case Vector3ArraysReq(_) => Vector3sKind
  }

  /** The number of pointers in a pointer array (none when the count is negative). */
  function PointerCount(req: Request): nat
    requires IsPointersReq(req)
  {
    match req
    case AttachPointersReq(n) => if n < 0 then 0 else n
    case AnimHeadPointersReq(n) => if n < 0 then 0 else n
    case AnimHead2PointersReq(cs) => |cs|
    case MaterialArraysReq(cs) => |cs|
    case ObjectPointersReq(n) => if n < 0 then 0 else n
    case Vector3ArraysReq(cs) => |cs|
  }

  predicate HasRefs(items: Items)
  {
    items.Attaches? || items.Objects? || items.AnimHeads? || items.AnimHead2s?
    || items.MaterialArrays? || items.Vector3Arrays?
  }

  /** Pointers at consecutive 4-byte slots from `address`, each followed with its element's request in turn. */
  predicate RefsLaidOut(mem: Memory, origins: seq<Origin>, start: nat, address: int, req: Request, rs: seq<Ref>)
    requires IsPointersReq(req) && |rs| <= PointerCount(req)
    decreases |rs|
  {
    rs == []
    || (var n := |rs| - 1;
        RefsLaidOut(mem, origins, start, address, req, rs[..n])
        && FetchedAt(mem, origins, AfterAll(start, rs[..n]), address + 4 * n, ElementRequest(req, n), rs[n]))
  }

  /** A pointer array: one 4-byte pointer per element. */
  predicate PointersAt(mem: Memory, origins: seq<Origin>, start: nat, address: int, req: Request, e: Entity)
    requires IsPointersReq(req)
  {
    e.Collection? && HasRefs(e.items) && |e.items.refs| == PointerCount(req)
    && RefsLaidOut(mem, origins, start, address, req, e.items.refs)
  }

  /** One more pointer, followed from the mark its predecessors leave, extends a laid-out run. */
  lemma {:induction false} RefRunSnoc(mem: Memory, origins: seq<Origin>, start: nat, address: int, req: Request, rs: seq<Ref>, r: Ref)
    requires IsPointersReq(req) && |rs| < PointerCount(req) && RefsLaidOut(mem, origins, start, address, req, rs)
    requires FetchedAt(mem, origins, AfterAll(start, rs), address + 4 * |rs|, ElementRequest(req, |rs|), r)
    ensures RefsLaidOut(mem, origins, start, address, req, rs + [r])
    ensures AfterAll(start, rs + [r]) == After(AfterAll(start, rs), r)
  {
    assert (rs + [r])[..|rs|] == rs;
  }

  /** A run of element references as the reader leaves it: each of the element kind, laid out in 4-byte slots. */
  predicate RefsRead(mem: Memory, h: seq<Entity>, origins: seq<Origin>, start: nat, address: int, req: Request, rs: seq<Ref>)
    requires IsPointersReq(req) && |rs| <= PointerCount(req)
  {
    (RefsOk(h, |h|, rs, ElementKind(req)) && RefsLaidOut(mem, origins, start, address, req, rs)
     && |h| == AfterAll(start, rs)) == true
  }

  /** The `i`-th element followed at the next slot, after the arena grew from `h` to `h'`, extends a run of references. */
  lemma {:induction false} RefsReadSnoc(mem: Memory, h: seq<Entity>, h': seq<Entity>, origins: seq<Origin>, origins': seq<Origin>,
                                        start: nat, address: int, req: Request, rs: seq<Ref>, i: nat, pos: int, r: Ref)
    requires IsPointersReq(req) && i == |rs| < PointerCount(req)
    requires h <= h' && origins <= origins' && RefsRead(mem, h, origins, start, address, req, rs)
    requires pos == address + 4 * i && RefOk(h', |h'|, r, ElementKind(req))
    requires FetchedAt(mem, origins', |h|, pos, ElementRequest(req, i), r) && |h'| == After(|h|, r)
    ensures RefsRead(mem, h', origins', start, address, req, rs + [r])
  {
    RefsOkGrows(h, h', |h|, |h'|, rs, ElementKind(req));
    RefsLaidOutGrows(mem, origins, origins', start, address, req, rs);
    RefRunSnoc(mem, origins', start, address, req, rs, r);
    assert RefsOk(h', |h'|, rs + [r], ElementKind(req)) by {
      forall j | 0 <= j < |rs| + 1 ensures RefOk(h', |h'|, (rs + [r])[j], ElementKind(req)) {
        if j < |rs| {
          assert RefOk(h', |h'|, rs[j], ElementKind(req));
        }
      }
    }
  }

  lemma {:induction false} RefsLaidOutGrows(mem: Memory, origins: seq<Origin>, origins': seq<Origin>, start: nat, address: int,
                                            req: Request, rs: seq<Ref>)
    requires IsPointersReq(req) && |rs| <= PointerCount(req)
    requires origins <= origins' && RefsLaidOut(mem, origins, start, address, req, rs)
    ensures RefsLaidOut(mem, origins', start, address, req, rs)
    decreases |rs|
  {
    if rs != [] {
      var n := |rs| - 1;
      RefsLaidOutGrows(mem, origins, origins', start, address, req, rs[..n]);
      FetchedAtGrows(mem, origins, origins', AfterAll(start, rs[..n]), address + 4 * n, ElementRequest(req, n), rs[n]);
    }
  }

  /** A position-and-rotation frame at `pos`: two array pointers, then their two counts. */
  predicate PosRotFrameAt(mem: Memory, origins: seq<Origin>, start: nat, pos: int, f: AnimFrame)
  {
    (f.PosRot? && I32At(mem, pos + 8).Ok? && I32At(mem, pos + 12).Ok?
     && FetchedAt(mem, origins, start, pos, Vector3AnimDatasReq(I32At(mem, pos + 8).value as int), f.positions)
     && FetchedAt(mem, origins, After(start, f.positions), pos + 4,
                  Rotation3AnimDatasReq(I32At(mem, pos + 12).value as int), f.rotations)) == true
  }

  /** A position, rotation and scale frame at `pos`: three array pointers, then their three counts. */
  predicate ScaledFrameAt(mem: Memory, origins: seq<Origin>, start: nat, pos: int, f: AnimFrame)
  {
    (f.PosRotScale? && I32At(mem, pos + 12).Ok? && I32At(mem, pos + 16).Ok? && I32At(mem, pos + 20).Ok?
     && FetchedAt(mem, origins, start, pos, Vector3AnimDatasReq(I32At(mem, pos + 12).value as int), f.positions)
     && FetchedAt(mem, origins, After(start, f.positions), pos + 4,
                  Rotation3AnimDatasReq(I32At(mem, pos + 16).value as int), f.rotations)
     && FetchedAt(mem, origins, After(After(start, f.positions), f.rotations), pos + 8,
                  Vector3AnimDatasReq(I32At(mem, pos + 20).value as int), f.scales)) == true
  }

  /** A well-typed frame with scales read from `pos`, the arena grown by its three arrays. */
  predicate ScaledFrameRead(mem: Memory, h: seq<Entity>, origins: seq<Origin>, start: nat, pos: int, f: AnimFrame)
  {
    (FrameOk(h, |h|, f) && ScaledFrameAt(mem, origins, start, pos, f) && |h| == FrameEnd(start, f)) == true
  }

  /**
   * A vertex frame at `pos`: the vertex and normal array pointers, then their counts; the
   * vertices hold `vertexCount` vectors each, the normals one vector.
   */
  predicate VertNrmFrameAt(mem: Memory, origins: seq<Origin>, start: nat, pos: int, vertexCount: int, f: AnimFrame)
  {
    (f.VertNrm? && I32At(mem, pos + 8).Ok? && I32At(mem, pos + 12).Ok?
     && FetchedAt(mem, origins, start, pos,
                  Vector3ArrayAnimDatasReq(I32At(mem, pos + 8).value as int, vertexCount), f.vertices)
     && FetchedAt(mem, origins, After(start, f.vertices), pos + 4,
                  Vector3ArrayAnimDatasReq(I32At(mem, pos + 12).value as int, 1), f.normals)) == true
  }

  /** The two pointers and the two counts read in turn from `pos` make a position-and-rotation frame. */
  lemma PosRotFrameFrom(mem: Memory, origins: seq<Origin>, start: nat, pos: int, pWord: u32, rWord: u32, p: Ref, r: Ref)
    requires U32At(mem, pos) == Ok(pWord) && U32At(mem, pos + 4) == Ok(rWord)
    requires CountWord(mem, pos + 8, Vector3AnimDataArray).Ok? && CountWord(mem, pos + 12, Rotation3AnimDataArray).Ok?
    requires FetchedSince(origins, start, pWord,
                          CountedRequest(Vector3AnimDataArray, CountWord(mem, pos + 8, Vector3AnimDataArray).value), p)
    requires FetchedSince(origins, After(start, p), rWord,
                          CountedRequest(Rotation3AnimDataArray, CountWord(mem, pos + 12, Rotation3AnimDataArray).value), r)
    ensures PosRotFrameAt(mem, origins, start, pos, PosRot(p, r))
  {
  }

  /**
   * The three pointers and the three counts read in turn from `pos` make a scaled frame; the
   * scales are followed after the arena grew from `origins` to `origins'`.
   */
  lemma ScaledFrameFrom(mem: Memory, h1: seq<Entity>, h: seq<Entity>, origins: seq<Origin>, origins': seq<Origin>,
                        start: nat, pos: int, pWord: u32, rWord: u32, sWord: u32, p: Ref, r: Ref, s: Ref)
    requires h1 <= h && origins <= origins'
    requires RefOk(h1, |h1|, p, Vector3AnimDatasKind) && RefOk(h1, |h1|, r, Rotation3AnimDatasKind)
    requires RefOk(h, |h|, s, Vector3AnimDatasKind) && |h| == After(After(After(start, p), r), s)
    requires U32At(mem, pos) == Ok(pWord) && U32At(mem, pos + 4) == Ok(rWord) && U32At(mem, pos + 8) == Ok(sWord)
    requires CountWord(mem, pos + 12, Vector3AnimDataArray).Ok? && CountWord(mem, pos + 16, Rotation3AnimDataArray).Ok?
    requires FetchedSince(origins, start, pWord,
                          CountedRequest(Vector3AnimDataArray, CountWord(mem, pos + 12, Vector3AnimDataArray).value), p)
    requires FetchedSince(origins, After(start, p), rWord,
                          CountedRequest(Rotation3AnimDataArray, CountWord(mem, pos + 16, Rotation3AnimDataArray).value), r)
    requires CountWord(mem, pos + 20, Vector3AnimDataArray).Ok?
    requires FetchedSince(origins', After(After(start, p), r), sWord,
                          CountedRequest(Vector3AnimDataArray, CountWord(mem, pos + 20, Vector3AnimDataArray).value), s)
    ensures ScaledFrameRead(mem, h, origins', start, pos, PosRotScale(p, r, s))
  {
    RefOkGrows(h1, h, |h1|, |h|, p, Vector3AnimDatasKind);
    RefOkGrows(h1, h, |h1|, |h|, r, Rotation3AnimDatasKind);
    var f := PosRotScale(p, r, s);
    assert FrameOk(h, |h|, f) && |h| == FrameEnd(start, f);
    FetchedSinceGrows(origins, origins', start, pWord,
                      CountedRequest(Vector3AnimDataArray, CountWord(mem, pos + 12, Vector3AnimDataArray).value), p);
    FetchedSinceGrows(origins, origins', After(start, p), rWord,
                      CountedRequest(Rotation3AnimDataArray, CountWord(mem, pos + 16, Rotation3AnimDataArray).value), r);
    var c1 := CountWord(mem, pos + 12, Vector3AnimDataArray).value;
    var c2 := CountWord(mem, pos + 16, Rotation3AnimDataArray).value;
    var c3 := CountWord(mem, pos + 20, Vector3AnimDataArray).value;
    assert I32At(mem, pos + 12).Ok? && I32At(mem, pos + 12).value as int == c1;
    assert I32At(mem, pos + 16).Ok? && I32At(mem, pos + 16).value as int == c2;
    assert I32At(mem, pos + 20).Ok? && I32At(mem, pos + 20).value as int == c3;
    assert FetchedAt(mem, origins', start, pos, Vector3AnimDatasReq(c1), p);
    assert FetchedAt(mem, origins', After(start, p), pos + 4, Rotation3AnimDatasReq(c2), r);
    assert FetchedAt(mem, origins', After(After(start, p), r), pos + 8, Vector3AnimDatasReq(c3), s);
    assert ScaledFrameAt(mem, origins', start, pos, f);
  }

  /** The two pointers and the two counts read in turn from `pos` make a vertex frame of `n`-vector arrays. */
  lemma VertNrmFrameFrom(mem: Memory, origins: seq<Origin>, start: nat, pos: int, n: int, vWord: u32, nWord: u32, v: Ref, nr: Ref)
    requires U32At(mem, pos) == Ok(vWord) && U32At(mem, pos + 4) == Ok(nWord)
    requires CountWord(mem, pos + 8, Vector3ArrayAnimDataArray(n)).Ok?
    requires CountWord(mem, pos + 12, Vector3ArrayAnimDataArray(1)).Ok?
    requires FetchedSince(origins, start, vWord,
                          CountedRequest(Vector3ArrayAnimDataArray(n), CountWord(mem, pos + 8, Vector3ArrayAnimDataArray(n)).value), v)
    requires FetchedSince(origins, After(start, v), nWord,
                          CountedRequest(Vector3ArrayAnimDataArray(1), CountWord(mem, pos + 12, Vector3ArrayAnimDataArray(1)).value), nr)
    ensures VertNrmFrameAt(mem, origins, start, pos, n, VertNrm(v, nr))
  {
  }

  /**
   * The `i`-th frame record at `pos`, in the layout the request selects: each array
   * pointer is followed as soon as the count after the pointers is read, the vertices
   * of a vertex frame with the `i`-th model's vertex count.
   */
  predicate FrameAt(mem: Memory, origins: seq<Origin>, start: nat, pos: int, req: Request, i: nat, f: AnimFrame)
  {
    match req
    case PosRotFramesReq(_) => PosRotFrameAt(mem, origins, start, pos, f)
    case PosRotScaleFramesReq(_) => ScaledFrameAt(mem, origins, start, pos, f)
    case VertNrmFramesReq(counts) => i < |counts| && VertNrmFrameAt(mem, origins, start, pos, counts[i], f)
    case _ => false
  }

  lemma {:induction false} FrameAtGrows(mem: Memory, origins: seq<Origin>, origins': seq<Origin>, start: nat, pos: int, req: Request, i: nat, f: AnimFrame)
    requires origins <= origins' && FrameAt(mem, origins, start, pos, req, i, f)
    ensures FrameAt(mem, origins', start, pos, req, i, f)
  {
    match req
    case PosRotFramesReq(_) =>
      FetchedAtGrows(mem, origins, origins', start, pos, Vector3AnimDatasReq(I32At(mem, pos + 8).value as int), f.positions);
      FetchedAtGrows(mem, origins, origins', After(start, f.positions), pos + 4,
                     Rotation3AnimDatasReq(I32At(mem, pos + 12).value as int), f.rotations);
    case PosRotScaleFramesReq(_) =>
      FetchedAtGrows(mem, origins, origins', start, pos, Vector3AnimDatasReq(I32At(mem, pos + 12).value as int), f.positions);
      FetchedAtGrows(mem, origins, origins', After(start, f.positions), pos + 4,
                     Rotation3AnimDatasReq(I32At(mem, pos + 16).value as int), f.rotations);
      FetchedAtGrows(mem, origins, origins', After(After(start, f.positions), f.rotations), pos + 8,
                     Vector3AnimDatasReq(I32At(mem, pos + 20).value as int), f.scales);
    case VertNrmFramesReq(counts) =>
      FetchedAtGrows(mem, origins, origins', start, pos,
                     Vector3ArrayAnimDatasReq(I32At(mem, pos + 8).value as int, counts[i]), f.vertices);
      FetchedAtGrows(mem, origins, origins', After(start, f.vertices), pos + 4,
                     Vector3ArrayAnimDatasReq(I32At(mem, pos + 12).value as int, 1), f.normals);
  }

  /** The mark after following a frame's arrays in turn. */
  function FrameEnd(mark: nat, f: AnimFrame): nat
  {
    match f
    case PosRot(p, r) => After(After(mark, p), r)
    case PosRotScale(p, r, s) => After(After(After(mark, p), r), s)
    case VertNrm(v, n) => After(After(mark, v), n)
  }

  /** The mark after following the arrays of each present frame in turn. */
  function FramesEnd(mark: nat, fs: seq<Option<AnimFrame>>): nat
  {
    if fs == [] then mark
    else
      var m := FramesEnd(mark, fs[..|fs| - 1]);
      if fs[|fs| - 1].Some? then FrameEnd(m, fs[|fs| - 1].value) else m
  }

  predicate IsFramesReq(req: Request)
  {
    req.PosRotFramesReq? || req.PosRotScaleFramesReq? || req.VertNrmFramesReq?
  }

  function FrameCount(req: Request): nat
    requires IsFramesReq(req)
  {
    match req
    case PosRotFramesReq(n) => if n < 0 then 0 else n
    case PosRotScaleFramesReq(n) => if n < 0 then 0 else n
    case VertNrmFramesReq(cs) => |cs|
  }

  /** The size of one frame record: 24 bytes with scales, 16 without. */
  function FrameSize(req: Request): nat
  {
    if req.PosRotScaleFramesReq? then 24 else 16
  }

  /** Frame records of 16 bytes (24 with scales), every one decoded. */
  predicate FramesAt(mem: Memory, origins: seq<Origin>, start: nat, address: int, req: Request, e: Entity)
    requires IsFramesReq(req)
  {
    e.Collection? && e.items.AnimFrames? && |e.items.frames| == FrameCount(req)
    && FramesLaidOut(mem, origins, start, address, req, e.items.frames)
  }

  /** Every frame is present and sits in its slot, its arrays followed after those of the frames before it. */
  predicate FramesLaidOut(mem: Memory, origins: seq<Origin>, start: nat, address: int, req: Request, fs: seq<Option<AnimFrame>>)
    decreases |fs|
  {
    fs == []
    || (var n := |fs| - 1;
        FramesLaidOut(mem, origins, start, address, req, fs[..n])
        && fs[n].Some? && FrameAt(mem, origins, FramesEnd(start, fs[..n]), address + FrameSize(req) * n, req, n, fs[n].value))
  }

  /** A frame read at the next slot, from the mark the frames before it leave, extends a laid-out run. */
  lemma {:induction false} FrameRunSnoc(mem: Memory, origins: seq<Origin>, start: nat, address: int, req: Request,
                                        fs: seq<Option<AnimFrame>>, pos: int, f: AnimFrame)
    requires FramesLaidOut(mem, origins, start, address, req, fs)
    requires pos == address + FrameSize(req) * |fs| && FrameAt(mem, origins, FramesEnd(start, fs), pos, req, |fs|, f)
    ensures FramesLaidOut(mem, origins, start, address, req, fs + [Some(f)])
    ensures FramesEnd(start, fs + [Some(f)]) == FrameEnd(FramesEnd(start, fs), f)
  {
    assert (fs + [Some(f)])[..|fs|] == fs;
  }

  /** One frame as the reader leaves it: well formed, laid out at `pos`, its arrays followed from the mark `start`. */
  predicate FrameRead(mem: Memory, h: seq<Entity>, origins: seq<Origin>, start: nat, pos: int, req: Request, i: nat, f: AnimFrame)
  {
    (FrameOk(h, |h|, f) && FrameAt(mem, origins, start, pos, req, i, f) && |h| == FrameEnd(start, f)) == true
  }

  /** A run of frames as the reader leaves it: each present and well formed, laid out in slots from `address`. */
  predicate FramesRead(mem: Memory, h: seq<Entity>, origins: seq<Origin>, start: nat, address: int, req: Request,
                       fs: seq<Option<AnimFrame>>)
  {
    ((forall j :: 0 <= j < |fs| ==> fs[j].Some? ==> FrameOk(h, |h|, fs[j].value))
     && FramesLaidOut(mem, origins, start, address, req, fs) && |h| == FramesEnd(start, fs)) == true
  }

  /** A frame read at the next slot, after the arena grew from `h` to `h'`, extends a run of frames. */
  lemma {:induction false} FramesReadSnoc(mem: Memory, h: seq<Entity>, h': seq<Entity>, origins: seq<Origin>, origins': seq<Origin>,
                                     start: nat, address: int, req: Request, fs: seq<Option<AnimFrame>>, pos: int, f: AnimFrame)
    requires h <= h' && origins <= origins' && FramesRead(mem, h, origins, start, address, req, fs)
    requires pos == address + FrameSize(req) * |fs| && FrameRead(mem, h', origins', |h|, pos, req, |fs|, f)
    ensures FramesRead(mem, h', origins', start, address, req, fs + [Some(f)])
  {
    FramesOkGrows(h, h', |h|, |h'|, fs);
    FramesLaidOutGrows(mem, origins, origins', start, address, req, fs);
    FrameRunSnoc(mem, origins', start, address, req, fs, pos, f);
  }

  lemma {:induction false} FramesLaidOutGrows(mem: Memory, origins: seq<Origin>, origins': seq<Origin>, start: nat, address: int,
                                              req: Request, fs: seq<Option<AnimFrame>>)
    requires origins <= origins' && FramesLaidOut(mem, origins, start, address, req, fs)
    ensures FramesLaidOut(mem, origins', start, address, req, fs)
    decreases |fs|
  {
    if fs != [] {
      var n := |fs| - 1;
      FramesLaidOutGrows(mem, origins, origins', start, address, req, fs[..n]);
      FrameAtGrows(mem, origins, origins', FramesEnd(start, fs[..n]), address + FrameSize(req) * n, req, n, fs[n].value);
    }
  }

  /** The POLYS array `r` refers to, when it is one. */
  predicate PolysIn(h: seq<Entity>, r: Ref)
  {
    r.Ptr? && r.id < |h| && h[r.id].Collection? && h[r.id].items.Polys?
  }

  /**
   * The 28-byte MESH record: its polygons, of the type in the top two bits of its first
   * word and as many as its second, cannot be null; the normal, colour and UV arrays are
   * sized by the total number of vertices of those polygons.
   */
  predicate MeshAt(mem: Memory, h: seq<Entity>, origins: seq<Origin>, start: nat, pos: int, m: Mesh)
  {
    (U16At(mem, pos) == Ok(m.materialIdAndPolyType) && U16At(mem, pos + 2).Ok?
     && FetchedAt(mem, origins, start, pos + 4,
                  PolysReq(U16At(mem, pos + 2).value as int, m.materialIdAndPolyType as int / 0x4000), m.polys)
     && PolysIn(h, m.polys) && VertexTotal(h[m.polys.id].items.polys).Ok?
     && var total := VertexTotal(h[m.polys.id].items.polys).value;
     var m1 := After(start, m.polys);
     var m2 := After(m1, m.polyNormals);
     I32At(mem, pos + 8) == Ok(m.polyAttributes)
     && FetchedAt(mem, origins, m1, pos + 12, PolyNormalsReq(total), m.polyNormals)
     && FetchedAt(mem, origins, m2, pos + 16, ColorsReq(total), m.vertexColors)
     && FetchedAt(mem, origins, After(m2, m.vertexColors), pos + 20, UVsReq(total), m.uv)
     && I32At(mem, pos + 24) == Ok(m.nullMember)) == true
  }

  lemma {:induction false} MeshAtGrows(mem: Memory, h: seq<Entity>, h': seq<Entity>, origins: seq<Origin>, origins': seq<Origin>,
                    start: nat, pos: int, m: Mesh)
    requires h <= h' && origins <= origins' && MeshAt(mem, h, origins, start, pos, m)
    ensures MeshAt(mem, h', origins', start, pos, m)
  {
    assert h'[m.polys.id] == h[m.polys.id];
    var total := VertexTotal(h[m.polys.id].items.polys).value;
    var m1 := After(start, m.polys);
    var m2 := After(m1, m.polyNormals);
    FetchedAtGrows(mem, origins, origins', start, pos + 4,
                   PolysReq(U16At(mem, pos + 2).value as int, m.materialIdAndPolyType as int / 0x4000), m.polys);
    FetchedAtGrows(mem, origins, origins', m1, pos + 12, PolyNormalsReq(total), m.polyNormals);
    FetchedAtGrows(mem, origins, origins', m2, pos + 16, ColorsReq(total), m.vertexColors);
    FetchedAtGrows(mem, origins, origins', After(m2, m.vertexColors), pos + 20, UVsReq(total), m.uv);
  }

  /**
   * The words of a MESH record from +8 on, and the three arrays it points to, each of `total`
   * elements, followed in turn from `mark`.
   */
  predicate MeshArraysRead(mem: Memory, h: seq<Entity>, origins: seq<Origin>, mark: nat, pos: int, total: int,
                           rest: (i32, Ref, Ref, Ref, i32))
  {
    (I32At(mem, pos + 8) == Ok(rest.0)
     && RefOk(h, |h|, rest.1, PolyNormalsKind) && RefOk(h, |h|, rest.2, ColorsKind) && RefOk(h, |h|, rest.3, UVsKind)
     && FetchedAt(mem, origins, mark, pos + 12, PolyNormalsReq(total), rest.1)
     && FetchedAt(mem, origins, After(mark, rest.1), pos + 16, ColorsReq(total), rest.2)
     && FetchedAt(mem, origins, After(After(mark, rest.1), rest.2), pos + 20, UVsReq(total), rest.3)
     && |h| == After(After(After(mark, rest.1), rest.2), rest.3) && I32At(mem, pos + 24) == Ok(rest.4)) == true
  }

  /**
   * The header words, the polygons followed from them, and the rest of the record read in
   * turn from `pos`, while the arena grew from `h1` to `h`, make a mesh as the reader leaves it.
   */
  lemma MeshFrom(mem: Memory, h1: seq<Entity>, h: seq<Entity>, origins1: seq<Origin>, origins: seq<Origin>, start: nat, pos: int,
                 header: (u16, u16, u32), polys: Ref, total: int, rest: (i32, Ref, Ref, Ref, i32))
    requires h1 <= h && origins1 <= origins
    requires U16At(mem, pos) == Ok(header.0) && U16At(mem, pos + 2) == Ok(header.1) && U32At(mem, pos + 4) == Ok(header.2)
    requires RefOk(h1, |h1|, polys, PolysKind) && polys.Ptr? && |h1| == After(start, polys)
    requires FetchedSince(origins1, start, header.2, PolysReq(header.1 as int, header.0 as int / 0x4000), polys)
    requires VertexTotal(h1[polys.id].items.polys) == Ok(total)
    requires MeshArraysRead(mem, h, origins, |h1|, pos, total, rest)
    ensures MeshRead(mem, h, origins, start, pos, Mesh(header.0, polys, rest.0, rest.1, rest.2, rest.3, rest.4))
  {
    var m := Mesh(header.0, polys, rest.0, rest.1, rest.2, rest.3, rest.4);
    PolysGrow(h1, h, polys, total);
    FetchedSinceGrows(origins1, origins, start, header.2 as int, PolysReq(header.1 as int, header.0 as int / 0x4000), polys);
    assert MeshOk(h, |h|, m) && |h| == MeshEnd(start, m);
    assert MeshAt(mem, h, origins, start, pos, m);
  }

  /** The polygons an arena holds, and their vertex total, stay as they are when it grows. */
  lemma PolysGrow(h1: seq<Entity>, h: seq<Entity>, polys: Ref, total: int)
    requires h1 <= h && RefOk(h1, |h1|, polys, PolysKind) && polys.Ptr? && VertexTotal(h1[polys.id].items.polys) == Ok(total)
    ensures RefOk(h, |h|, polys, PolysKind) && PolysIn(h, polys) && VertexTotal(h[polys.id].items.polys) == Ok(total)
  {
    assert h[polys.id] == h1[polys.id];
  }

  /** The mark after following a mesh's arrays in turn. */
  function MeshEnd(mark: nat, m: Mesh): nat
  {
    After(After(After(After(mark, m.polys), m.polyNormals), m.vertexColors), m.uv)
  }

  function MeshesEnd(mark: nat, ms: seq<Mesh>): nat
  {
    if ms == [] then mark else MeshEnd(MeshesEnd(mark, ms[..|ms| - 1]), ms[|ms| - 1])
  }

  /** Records at consecutive 28-byte slots from `address`, each read from the mark the ones before it leave. */
  predicate MeshesLaidOut(mem: Memory, h: seq<Entity>, origins: seq<Origin>, start: nat, address: int, ms: seq<Mesh>)
    decreases |ms|
  {
    ms == []
    || (var n := |ms| - 1;
        MeshesLaidOut(mem, h, origins, start, address, ms[..n])
        && MeshAt(mem, h, origins, MeshesEnd(start, ms[..n]), address + 28 * n, ms[n]))
  }

  predicate MeshesAt(mem: Memory, h: seq<Entity>, origins: seq<Origin>, start: nat, address: int, count: int, e: Entity)
  {
    e.Collection? && e.items.Meshes? && |e.items.meshes| == count
    && MeshesLaidOut(mem, h, origins, start, address, e.items.meshes)
  }

  /** Appending one more record at the next 28-byte slot keeps a run of meshes laid out in order. */
  lemma {:induction false} MeshRunSnoc(mem: Memory, h: seq<Entity>, origins: seq<Origin>, start: nat, address: int,
                                       ms: seq<Mesh>, pos: int, m: Mesh)
    requires MeshesLaidOut(mem, h, origins, start, address, ms)
    requires pos == address + 28 * |ms| && MeshAt(mem, h, origins, MeshesEnd(start, ms), pos, m)
    ensures MeshesLaidOut(mem, h, origins, start, address, ms + [m])
  {
    assert (ms + [m])[..|ms|] == ms;
  }

  /** One mesh as the reader leaves it: well formed, laid out at `pos`, its arrays followed from the mark `start`. */
  predicate MeshRead(mem: Memory, h: seq<Entity>, origins: seq<Origin>, start: nat, pos: int, m: Mesh)
  {
    (MeshOk(h, |h|, m) && MeshAt(mem, h, origins, start, pos, m) && |h| == MeshEnd(start, m)) == true
  }

  /** A run of meshes as the reader leaves it: each well formed, laid out in 28-byte slots from `address`. */
  predicate MeshesRead(mem: Memory, h: seq<Entity>, origins: seq<Origin>, start: nat, address: int, ms: seq<Mesh>)
  {
    ((forall j :: 0 <= j < |ms| ==> MeshOk(h, |h|, ms[j]))
     && MeshesLaidOut(mem, h, origins, start, address, ms) && |h| == MeshesEnd(start, ms)) == true
  }

  /** A mesh read at the next slot, after the arena grew from `h` to `h'`, extends a run of meshes. */
  lemma {:induction false} MeshesReadSnoc(mem: Memory, h: seq<Entity>, h': seq<Entity>, origins: seq<Origin>, origins': seq<Origin>,
                                    start: nat, address: int, ms: seq<Mesh>, pos: int, m: Mesh)
    requires h <= h' && origins <= origins' && MeshesRead(mem, h, origins, start, address, ms)
    requires pos == address + 28 * |ms| && MeshRead(mem, h', origins', |h|, pos, m)
    ensures MeshesRead(mem, h', origins', start, address, ms + [m])
  {
    MeshesOkGrows(h, h', |h|, |h'|, ms);
    MeshesLaidOutGrows(mem, h, h', origins, origins', start, address, ms);
    MeshRunSnoc(mem, h', origins', start, address, ms, pos, m);
    MeshesEndSnoc(start, ms, m);
  }

  lemma MeshesEndSnoc(start: nat, ms: seq<Mesh>, m: Mesh)
    ensures MeshesEnd(start, ms + [m]) == MeshEnd(MeshesEnd(start, ms), m)
  {
    assert (ms + [m])[..|ms|] == ms;
  }

  lemma {:induction false} MeshesLaidOutGrows(mem: Memory, h: seq<Entity>, h': seq<Entity>, origins: seq<Origin>,
                                              origins': seq<Origin>, start: nat, address: int, ms: seq<Mesh>)
    requires h <= h' && origins <= origins' && MeshesLaidOut(mem, h, origins, start, address, ms)
    ensures MeshesLaidOut(mem, h', origins', start, address, ms)
    decreases |ms|
  {
    if ms != [] {
      var n := |ms| - 1;
      var mark, pos := MeshesEnd(start, ms[..n]), address + 28 * n;
      assert MeshesLaidOut(mem, h, origins, start, address, ms[..n]) && MeshAt(mem, h, origins, mark, pos, ms[n]);
      MeshesLaidOutGrows(mem, h, h', origins, origins', start, address, ms[..n]);
      MeshAtGrows(mem, h, h', origins, origins', mark, pos, ms[n]);
    }
  }

  /** The 8-byte vertex-animation record: a frame number and a pointer to `vector3Count` vectors. */
  predicate Vector3ArrayAnimDataAt(mem: Memory, origins: seq<Origin>, start: nat, pos: int, vector3Count: int,
                                   d: Vector3ArrayAnimData)
  {
    I32At(mem, pos) == Ok(d.frameNumber) && FetchedAt(mem, origins, start, pos + 4, Vector3sReq(vector3Count), d.vectors)
  }

  /** The mark after following the vectors of each record in turn. */
  function VectorsEnd(mark: nat, ds: seq<Vector3ArrayAnimData>): nat
  {
    if ds == [] then mark else After(VectorsEnd(mark, ds[..|ds| - 1]), ds[|ds| - 1].vectors)
  }

  /** Records at consecutive 8-byte slots from `address`, each followed from the mark the ones before it leave. */
  predicate AnimDatasLaidOut(mem: Memory, origins: seq<Origin>, start: nat, address: int, vector3Count: int,
                             ds: seq<Vector3ArrayAnimData>)
    decreases |ds|
  {
    ds == []
    || (var n := |ds| - 1;
        AnimDatasLaidOut(mem, origins, start, address, vector3Count, ds[..n])
        && Vector3ArrayAnimDataAt(mem, origins, VectorsEnd(start, ds[..n]), address + 8 * n, vector3Count, ds[n]))
  }

  predicate Vector3ArrayAnimDatasAt(mem: Memory, origins: seq<Origin>, start: nat, address: int, count: int,
                                    vector3Count: int, e: Entity)
  {
    e.Collection? && e.items.Vector3ArrayAnimDatas? && |e.items.vector3ArrayAnimDatas| == count
    && AnimDatasLaidOut(mem, origins, start, address, vector3Count, e.items.vector3ArrayAnimDatas)
  }

  lemma {:induction false} AnimDataRunSnoc(mem: Memory, origins: seq<Origin>, start: nat, address: int, vector3Count: int,
                                           ds: seq<Vector3ArrayAnimData>, d: Vector3ArrayAnimData)
    requires AnimDatasLaidOut(mem, origins, start, address, vector3Count, ds)
    requires Vector3ArrayAnimDataAt(mem, origins, VectorsEnd(start, ds), address + 8 * |ds|, vector3Count, d)
    ensures AnimDatasLaidOut(mem, origins, start, address, vector3Count, ds + [d])
    ensures VectorsEnd(start, ds + [d]) == After(VectorsEnd(start, ds), d.vectors)
  {
    assert (ds + [d])[..|ds|] == ds;
  }

  /** A run of vertex-animation records as the reader leaves it: each vector array well typed, laid out in 8-byte slots. */
  predicate AnimDatasRead(mem: Memory, h: seq<Entity>, origins: seq<Origin>, start: nat, address: int, vector3Count: int,
                          ds: seq<Vector3ArrayAnimData>)
  {
    ((forall j :: 0 <= j < |ds| ==> RefOk(h, |h|, ds[j].vectors, Vector3sKind))
     && AnimDatasLaidOut(mem, origins, start, address, vector3Count, ds) && |h| == VectorsEnd(start, ds)) == true
  }

  /** The `i`-th record read at the next slot, after the arena grew from `h` to `h'`, extends a run of records. */
  lemma {:induction false} AnimDatasReadSnoc(mem: Memory, h: seq<Entity>, h': seq<Entity>, origins: seq<Origin>, origins': seq<Origin>,
                                             start: nat, address: int, vector3Count: int, ds: seq<Vector3ArrayAnimData>,
                                             i: nat, pos: int, frameNumber: i32, vectors: Ref)
    requires i == |ds| && pos == address + 8 * i
    requires h <= h' && origins <= origins' && AnimDatasRead(mem, h, origins, start, address, vector3Count, ds)
    requires I32At(mem, pos) == Ok(frameNumber) && RefOk(h', |h'|, vectors, Vector3sKind)
    requires FetchedAt(mem, origins', |h|, pos + 4, Vector3sReq(vector3Count), vectors) && |h'| == After(|h|, vectors)
    ensures AnimDatasRead(mem, h', origins', start, address, vector3Count, ds + [Vector3ArrayAnimData(frameNumber, vectors)])
  {
    var d := Vector3ArrayAnimData(frameNumber, vectors);
    forall j | 0 <= j < |ds| ensures RefOk(h', |h'|, ds[j].vectors, Vector3sKind) {
      RefOkGrows(h, h', |h|, |h'|, ds[j].vectors, Vector3sKind);
    }
    AnimDatasLaidOutGrows(mem, origins, origins', start, address, vector3Count, ds);
    AnimDataRunSnoc(mem, origins', start, address, vector3Count, ds, d);
    assert forall j :: 0 <= j < |ds| + 1 ==> (ds + [d])[j] == if j < |ds| then ds[j] else d;
  }

  lemma {:induction false} AnimDatasLaidOutGrows(mem: Memory, origins: seq<Origin>, origins': seq<Origin>, start: nat,
                                                 address: int, vector3Count: int, ds: seq<Vector3ArrayAnimData>)
    requires origins <= origins' && AnimDatasLaidOut(mem, origins, start, address, vector3Count, ds)
    ensures AnimDatasLaidOut(mem, origins', start, address, vector3Count, ds)
    decreases |ds|
  {
    if ds != [] {
      var n := |ds| - 1;
      AnimDatasLaidOutGrows(mem, origins, origins', start, address, vector3Count, ds[..n]);
      FetchedAtGrows(mem, origins, origins', VectorsEnd(start, ds[..n]), address + 8 * n + 4, Vector3sReq(vector3Count), ds[n].vectors);
    }
  }

  /**
   * `e` is what the structure or pointer-array request `req` decodes at `address` when the
   * arena held `start` instances: its fields are the words at the record's offsets and
   * each reference is what following its pointer word yields. The case analysis is stated
   * as one fact, so that proving it for one request does not expand the layouts of all
   * the others.
   */
  ghost predicate StructureAt(mem: Memory, h: seq<Entity>, origins: seq<Origin>, start: nat, e: Entity, address: int, req: Request)
  {
    (match req
     case AttachReq => AttachAt(mem, origins, start, address, e)
     case ObjectReq => ObjectAt(mem, origins, start, address, e)
     case AnimHeadReq => AnimHeadAt(mem, h, origins, start, address, e)
     case AnimHead2Req(counts) => AnimHead2At(mem, origins, start, address, counts, e)
     case MeshesReq(n) => MeshesAt(mem, h, origins, start, address, n, e)
     case Vector3ArrayAnimDatasReq(n, v) => Vector3ArrayAnimDatasAt(mem, origins, start, address, n, v, e)
     case PosRotFramesReq(_) => FramesAt(mem, origins, start, address, req, e)
     case PosRotScaleFramesReq(_) => FramesAt(mem, origins, start, address, req, e)
     case VertNrmFramesReq(_) => FramesAt(mem, origins, start, address, req, e)
     case _ => IsPointersReq(req) && PointersAt(mem, origins, start, address, req, e)) == true
  }

  /**
   * `e` is what `req` decodes at `address` when the arena held `start` instances: an
   * instance of the requested type, named after the address, that is the plain array the
   * memory holds there or the structure whose record is there.
   */
  ghost predicate DecodedAs(mem: Memory, h: seq<Entity>, origins: seq<Origin>, e: Entity, address: int, req: Request, start: nat)
  {
    KindOf(e) == ReqKind(req) && e.name == Some(NameAt(req, address))
    && if IsPlainReq(req) then PlainAt(mem, address, req) == Ok(e) else StructureAt(mem, h, origins, start, e, address, req)
  }

  /** The `id`-th instance of the arena is what its origin's request decodes at its address. */
  ghost predicate Traced(mem: Memory, h: seq<Entity>, origins: seq<Origin>, id: nat)
    requires id < |h| && id < |origins|
  {
    DecodedAs(mem, h, origins, h[id], origins[id].address, origins[id].req, origins[id].start)
    && origins[id].start <= id
  }

  /** Every instance of the arena is what its origin's request decodes. */
  ghost predicate ArenaTraced(mem: Memory, h: seq<Entity>, origins: seq<Origin>)
  {
    |origins| == |h| && forall id :: 0 <= id < |h| ==> Traced(mem, h, origins, id)
  }

  lemma {:induction false} AttachAtGrows(mem: Memory, origins: seq<Origin>, origins': seq<Origin>, start: nat, address: int, e: Entity)
    requires origins <= origins' && AttachAt(mem, origins, start, address, e)
    ensures AttachAt(mem, origins', start, address, e)
  {
    var m1 := After(start, e.vertices);
    var m2 := After(m1, e.normals);
    var count := I32At(mem, address + 8).value as int;
    FetchedAtGrows(mem, origins, origins', start, address, Vector3sReq(count), e.vertices);
    FetchedAtGrows(mem, origins, origins', m1, address + 4, Vector3sReq(count), e.normals);
    FetchedAtGrows(mem, origins, origins', m2, address + 12, MeshesReq(U16At(mem, address + 20).value as int), e.meshes);
    FetchedAtGrows(mem, origins, origins', After(m2, e.meshes), address + 16,
                   MaterialsReq(U16At(mem, address + 22).value as int), e.materials);
  }

  lemma {:induction false} ObjectAtGrows(mem: Memory, origins: seq<Origin>, origins': seq<Origin>, start: nat, address: int, e: Entity)
    requires origins <= origins' && ObjectAt(mem, origins, start, address, e)
    ensures ObjectAt(mem, origins', start, address, e)
  {
    FetchedAtGrows(mem, origins, origins', start, address + 4, AttachReq, e.attach);
    FetchedAtGrows(mem, origins, origins', After(start, e.attach), address + 44, ObjectReq, e.child);
    FetchedAtGrows(mem, origins, origins', After(After(start, e.attach), e.child), address + 48, ObjectReq, e.sibling);
  }

  lemma {:induction false} AnimHeadAtGrows(mem: Memory, h: seq<Entity>, h': seq<Entity>, origins: seq<Origin>, origins': seq<Origin>,
                        start: nat, address: int, e: Entity)
    requires h <= h' && HeapValid(h') && origins <= origins' && AnimHeadAt(mem, h, origins, start, address, e)
    ensures AnimHeadAt(mem, h', origins', start, address, e)
  {
    CountVerticesGrows(h, h', e.model);
    FetchedAtGrows(mem, origins, origins', start, address, ObjectReq, e.model);
    FetchedAtGrows(mem, origins, origins', After(start, e.model), address + 4,
                   AnimHead2Req(CountVerticesInObject(h, e.model).value), e.motion);
  }

  lemma {:induction false} StructureAtGrows(mem: Memory, h: seq<Entity>, h': seq<Entity>, origins: seq<Origin>, origins': seq<Origin>,
                         start: nat, e: Entity, address: int, req: Request)
    requires h <= h' && HeapValid(h') && origins <= origins' && StructureAt(mem, h, origins, start, e, address, req)
    ensures StructureAt(mem, h', origins', start, e, address, req)
  {
    if req.AttachReq? {
      AttachAtGrows(mem, origins, origins', start, address, e);
    } else if req.ObjectReq? {
      ObjectAtGrows(mem, origins, origins', start, address, e);
    } else if req.AnimHeadReq? {
      AnimHeadAtGrows(mem, h, h', origins, origins', start, address, e);
    } else if req.AnimHead2Req? {
      FetchedAtGrows(mem, origins, origins', start, address, FramesRequest(e.motionFlags, req.vector3CountsByModel), e.frameData);
    } else if req.MeshesReq? {
      MeshesLaidOutGrows(mem, h, h', origins, origins', start, address, e.items.meshes);
    } else if req.Vector3ArrayAnimDatasReq? {
      AnimDatasLaidOutGrows(mem, origins, origins', start, address, req.vector3Count, e.items.vector3ArrayAnimDatas);
    } else if IsFramesReq(req) {
      FramesLaidOutGrows(mem, origins, origins', start, address, req, e.items.frames);
    } else if IsPointersReq(req) {
      RefsLaidOutGrows(mem, origins, origins', start, address, req, e.items.refs);
    }
  }

  /** What a request decoded stays so described when the arena and its origins grow. */
  lemma {:induction false} DecodedAsGrows(mem: Memory, h: seq<Entity>, h': seq<Entity>, origins: seq<Origin>, origins': seq<Origin>,
                       e: Entity, address: int, req: Request, start: nat)
    requires h <= h' && HeapValid(h') && origins <= origins' && DecodedAs(mem, h, origins, e, address, req, start)
    ensures DecodedAs(mem, h', origins', e, address, req, start)
  {
    if !IsPlainReq(req) {
      StructureAtGrows(mem, h, h', origins, origins', start, e, address, req);
    }
  }

  /** Appending an instance with the origin it was decoded from keeps every instance traced. */
  lemma {:induction false} ArenaTracedAppend(mem: Memory, h: seq<Entity>, origins: seq<Origin>, e: Entity, origin: Origin)
    requires ArenaTraced(mem, h, origins) && HeapValid(h + [e]) && origin.start <= |h|
    requires DecodedAs(mem, h, origins, e, origin.address, origin.req, origin.start)
    ensures ArenaTraced(mem, h + [e], origins + [origin])
  {
    var h', origins' := h + [e], origins + [origin];
    forall id | 0 <= id < |h'| ensures Traced(mem, h', origins', id) {
      if id < |h| {
        assert Traced(mem, h, origins, id);
        assert h'[id] == h[id] && origins'[id] == origins[id];
        DecodedAsGrows(mem, h, h', origins, origins', h[id], origins[id].address, origins[id].req, origins[id].start);
      } else {
        DecodedAsGrows(mem, h, h', origins, origins', e, origin.address, origin.req, origin.start);
      }
    }
  }

  /**
   * The arrays a structure reaches through a pointer whose element count it reads just
   * before following it: mesh and material counts are 16-bit words, the counts of the
   * animation arrays 32-bit integers.
   */
  datatype CountedArray =
    | MeshArray
    | MaterialArray
    | Vector3AnimDataArray
    | Rotation3AnimDataArray
    | Vector3ArrayAnimDataArray(vector3Count: int)

  predicate ShortCount(a: CountedArray)
  {
    a.MeshArray? || a.MaterialArray?
  }

  function CountSize(a: CountedArray): nat
  {
    if ShortCount(a) then 2 else 4
  }

  /** The count of a counted array, read at `pos`. */
  function CountWord(mem: Memory, pos: int, a: CountedArray): Result<int>
  {
    if ShortCount(a) then
      var c :- U16At(mem, pos);
      Ok(c as int)
    else
      var c :- I32At(mem, pos);
      Ok(c as int)
  }

  function CountedKind(a: CountedArray): Kind
  {
    match a
    case MeshArray => MeshesKind
    case MaterialArray => MaterialsKind
    case Vector3AnimDataArray => Vector3AnimDatasKind
    case Rotation3AnimDataArray => Rotation3AnimDatasKind
    case Vector3ArrayAnimDataArray(_) => Vector3ArrayAnimDatasKind
  }

  /** The request that decodes a counted array of `count` elements. */
  function CountedRequest(a: CountedArray, count: int): (req: Request)
    ensures ReqKind(req) == CountedKind(a)
  {
    match a
    case MeshArray => MeshesReq(count)
    case MaterialArray => MaterialsReq(count)
    case Vector3AnimDataArray => Vector3AnimDatasReq(count)
    case Rotation3AnimDataArray => Rotation3AnimDatasReq(count)
    case Vector3ArrayAnimDataArray(n) => Vector3ArrayAnimDatasReq(count, n)
  }
}
