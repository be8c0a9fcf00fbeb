// The image reader: opens a PE image, keeps its export table, and decodes the game's
// structures from the mapped image, following their pointers. Every structure it has
// decoded is remembered by address, so reading an address again (with a compatible
// type) returns the same instance: the decoded data is a graph, not a tree.
module Reading {
  import opened Wrappers
  import opened Words
  import opened Text
  import opened ImageSections
  import opened AddressSpaces
  import opened Data
  import opened Polys
  import opened Decoding
  import opened Requests
  import PEHeaders

  /** What opening an image yields: the mapped image and the export dictionary. */
  function Loaded(file: seq<u8>): Result<(AddressSpace, map<seq<u8>, u32>)>
  {
    var headers :- PEHeaders.ParseHeaders(file);
    var table := PEHeaders.RawRead(file, headers.sectionTableOffset,
                                   SectionHeaderSize * headers.numberOfSections);
    var sections := PEHeaders.SectionSet(PEHeaders.Headers(table, headers.numberOfSections));
    var space := AddressSpace(file, headers.imageBase, sections);
    var tables :- PEHeaders.ReadExportTables(space, headers.imageBase, headers.exportDirectoryAddress);
    var exports :- PEHeaders.ExportMap(space, headers.imageBase, tables);
    Ok((space, exports))
  }

  class PEReader {
    /** The mapped image the virtual memory stream serves. */
    const space: AddressSpace
    /** Its memory: the byte, or the failure, at each address. */
    ghost const memory: Memory
    const exports: map<seq<u8>, u32>
    /** The position of the binary reader in the image's memory. */
    var position: int
    /** The cache: the instance decoded last at each address. */
    var knownObjects: map<int, nat>
    /** Every instance decoded so far; references are indices into it. */
    var heap: seq<Entity>
    /** Where each instance of the arena was decoded from, in the same order. */
    ghost var origins: seq<Origin>

    /**
     * The arena is well formed, every instance in it is what its origin's request decodes
     * from the image's memory, and the cache names each address's instance.
     */
    ghost predicate Valid()
      reads this`knownObjects, this`heap, this`origins
    {
      (Backs(space, memory) && HeapValid(heap) && 0 !in knownObjects
       && ArenaTraced(memory, heap, origins)
       && forall a :: a in knownObjects ==> knownObjects[a] < |heap| && origins[knownObjects[a]].address == a) == true
    }

    /** The arena and its origins only grow. */
    ghost predicate Extends(h0: seq<Entity>, o0: seq<Origin>)
      reads this`heap, this`origins
    {
      h0 <= heap && o0 <= origins
    }

    constructor (space: AddressSpace, exports: map<seq<u8>, u32>)
      ensures this.space == space && memory == MemoryOf(space) && this.exports == exports
      ensures position == 0 && knownObjects == map[] && heap == [] && origins == []
      ensures Valid()
    {
      this.space := space;
      memory := MemoryOf(space);
      this.exports := exports;
      position := 0;
      knownObjects := map[];
      heap := [];
      origins := [];
    }

    /** Opening an image: the header checks, the section table and the export table. */
    static method Open(file: seq<u8>) returns (r: Result<PEReader>)
      ensures r.Ok? <==> Loaded(file).Ok?
      ensures r.Err? ==> Loaded(file) == Err(r.error)
      ensures r.Ok? ==> fresh(r.value) && r.value.Valid() && r.value.heap == [] && r.value.knownObjects == map[]
                        && (r.value.space, r.value.exports) == Loaded(file).value
    {
      var headers :- PEHeaders.ParseHeaders(file);
      var table := PEHeaders.RawRead(file, headers.sectionTableOffset,
                                     SectionHeaderSize * headers.numberOfSections);
      var sections := PEHeaders.ReadSections(table, headers.numberOfSections);
      var space := AddressSpace(file, headers.imageBase, sections);
      var tables :- PEHeaders.ReadExportTables(space, headers.imageBase, headers.exportDirectoryAddress);
      var exports :- PEHeaders.BuildExports(space, headers.imageBase, tables);
      var reader := new PEReader(space, exports);
      return Ok(reader);
    }

    /** The address of an export, or 0 when the image exports no such name. */
    function GetExport(name: seq<u8>): (v: u32)
      reads this
      ensures name in exports ==> v == exports[name]
      ensures name !in exports ==> v == 0
    {
      PEHeaders.GetExport(exports, name)
    }

    /** The instance decoded last at `address`, or null when nothing was decoded there. */
    function GetKnownObject(address: int): (r: Ref)
      reads this
      ensures r.Ptr? <==> address in knownObjects
      ensures r.Ptr? ==> r.id == knownObjects[address]
    {
      if address in knownObjects then Ptr(knownObjects[address]) else Null
    }

    /** The cached instance at `address` when it has the requested type. */
    function Cached(address: int, k: Kind): Option<nat>
      reads this
    {
      if address in knownObjects && knownObjects[address] < |heap| && KindOf(heap[knownObjects[address]]) == k
      then Some(knownObjects[address])
      else None
    }

    // The binary reader's primitive reads: each one reads at the current position `at`
    // and moves past what it read.

    method ReadU16(ghost at: int) returns (r: Result<u16>)
      requires Backs(space, memory) && position == at
      modifies this`position
      ensures r == U16At(memory, at)
      ensures position == if r.Ok? then at + 2 else at
    {
      U16AtBytes(memory, at);
      var b :- ReadRecord(at, 2);
      r := Ok(LE16(b));
    }

    method ReadU32(ghost at: int) returns (r: Result<u32>)
      requires Backs(space, memory) && position == at
      modifies this`position
      ensures r == U32At(memory, at)
      ensures position == if r.Ok? then at + 4 else at
    {
      U32AtBytes(memory, at);
      var b :- ReadRecord(at, 4);
      r := Ok(LE32(b));
    }

    method ReadI32(ghost at: int) returns (r: Result<i32>)
      requires Backs(space, memory) && position == at
      modifies this`position
      ensures r == I32At(memory, at)
      ensures position == if r.Ok? then at + 4 else at
    {
      var u :- ReadU32(at);
      r := Ok(Int32(u));
    }

    method ReadRecord(ghost at: int, size: nat) returns (r: Result<seq<u8>>)
      requires Backs(space, memory) && position == at
      modifies this`position
      ensures r == ReadBytes(memory, at, size)
      ensures position == if r.Ok? then at + size else at
    {
      r := SpaceBytes(space, position, size);
      if r.Ok? {
        position := position + size;
      }
    }

    method ReadVector3(ghost at: int) returns (r: Result<Vector3>)
      requires Backs(space, memory) && position == at
      modifies this`position
      ensures r == Vector3At(memory, at)
      ensures position == if r.Ok? then at + 12 else at
    {
      Vector3AtBytes(memory, at);
      var b :- ReadRecord(at, 12);
      r := Ok(Vector3Of(b));
    }

    method ReadRotation3(ghost at: int) returns (r: Result<Rotation3>)
      requires Backs(space, memory) && position == at
      modifies this`position
      ensures r == Rotation3At(memory, at)
      ensures position == if r.Ok? then at + 12 else at
    {
      Rotation3AtBytes(memory, at);
      var b :- ReadRecord(at, 12);
      r := Ok(Rotation3Of(b));
    }

    // Consecutive fields read together. Each of these fails exactly when one of its
    // fields cannot be read.

    /** Two pointer words, at `at1` and at `at2`, the next word. */
    method ReadAddressPair(ghost at1: int, ghost at2: int) returns (r: Result<(u32, u32)>)
      requires Backs(space, memory) && position == at1 && at2 == at1 + 4
      modifies this`position
      ensures r.Ok? <==> U32At(memory, at1).Ok? && U32At(memory, at2).Ok?
      ensures r.Ok? ==> U32At(memory, at1) == Ok(r.value.0) && U32At(memory, at2) == Ok(r.value.1)
                        && position == at1 + 8
    {
      var first :- ReadU32(at1);
      var second :- ReadU32(at2);
      r := Ok((first, second));
    }

    /** The position, rotation and scale of the OBJECT at `address`. */
    method ReadTransform(ghost address: int) returns (r: Result<(Vector3, Rotation3, Vector3)>)
      requires Backs(space, memory) && position == address + 8
      modifies this`position
      ensures r.Ok? <==> Vector3At(memory, address + 8).Ok? && Rotation3At(memory, address + 20).Ok?
                         && Vector3At(memory, address + 32).Ok?
      ensures r.Ok? ==> Vector3At(memory, address + 8) == Ok(r.value.0) && Rotation3At(memory, address + 20) == Ok(r.value.1)
                        && Vector3At(memory, address + 32) == Ok(r.value.2) && position == address + 44
    {
      var translation :- ReadVector3(address + 8);
      var rotation :- ReadRotation3(address + 20);
      var scale :- ReadVector3(address + 32);
      r := Ok((translation, rotation, scale));
    }

    /** The centre, radius and trailing member of the ATTACH at `address`. */
    method ReadBounds(ghost address: int) returns (r: Result<(Vector3, u32, i32)>)
      requires Backs(space, memory) && position == address + 24
      modifies this`position
      ensures r.Ok? <==> Vector3At(memory, address + 24).Ok? && U32At(memory, address + 36).Ok?
                         && I32At(memory, address + 40).Ok?
      ensures r.Ok? ==> Vector3At(memory, address + 24) == Ok(r.value.0) && U32At(memory, address + 36) == Ok(r.value.1)
                        && I32At(memory, address + 40) == Ok(r.value.2) && position == address + 44
    {
      var center :- ReadVector3(address + 24);
      var radius :- ReadU32(address + 36);
      var nullMember :- ReadI32(address + 40);
      r := Ok((center, radius, nullMember));
    }

    /** The material word, polygon count and polygon pointer that open a MESH. */
    method ReadMeshHeader(ghost at: int) returns (r: Result<(u16, u16, u32)>)
      requires Backs(space, memory) && position == at
      modifies this`position
      ensures r.Ok? <==> U16At(memory, at).Ok? && U16At(memory, at + 2).Ok? && U32At(memory, at + 4).Ok?
      ensures r.Ok? ==> U16At(memory, at) == Ok(r.value.0) && U16At(memory, at + 2) == Ok(r.value.1)
                        && U32At(memory, at + 4) == Ok(r.value.2) && position == at + 8
    {
      var materialIdAndPolyType :- ReadU16(at);
      var polyCount :- ReadU16(at + 2);
      var polysAddress :- ReadU32(at + 4);
      r := Ok((materialIdAndPolyType, polyCount, polysAddress));
    }

    // Arrays that follow no pointer.

    /** The loop of the value-array readers: `count` records of `size` bytes. */
    method ReadRecords(count: nat, size: nat) returns (r: Result<seq<seq<u8>>>)
      requires Backs(space, memory)
      modifies this`position
      ensures r == RecordsAt(memory, old(position), count, size)
    {
      ghost var p0 := position;
      var records: seq<seq<u8>> := [];
      var i := 0;
      PrependedNothing(RecordsAt(memory, p0, count, size));
      while i < count
        invariant i <= count
        invariant RecordsAt(memory, p0, count, size) == Prepended(records, RecordsAt(memory, position, count - i, size))
      {
        RecordsStep(memory, p0, count, size, records, position, count - i);
        var b := ReadRecord(position, size);
        if b.Err? {
          return b.PropagateFailure();
        }
        records := records + [b.value];
        i := i + 1;
      }
      PrependedToEmpty(records);
      return Ok(records);
    }

    /** The loop of the strip reader: `count` 16-bit words. */
    method ReadWords(count: nat) returns (r: Result<seq<u16>>)
      requires Backs(space, memory)
      modifies this`position
      ensures r == WordsAt(memory, old(position), count)
      ensures r.Ok? ==> position == old(position) + 2 * count
    {
      ghost var p0 := position;
      var words: seq<u16> := [];
      var i := 0;
      PrependedNothing(WordsAt(memory, p0, count));
      while i < count
        invariant i <= count && position == p0 + 2 * i
        invariant WordsAt(memory, p0, count) == Prepended(words, WordsAt(memory, position, count - i))
      {
        WordsStep(memory, p0, count, words, position, count - i);
        var w := ReadU16(position);
        if w.Err? {
          return w.PropagateFailure();
        }
        words := words + [w.value];
        i := i + 1;
      }
      PrependedToEmpty(words);
      return Ok(words);
    }

    /** A strip: its header word, then as many index words as the header's low 15 bits say. */
    method ReadStrip() returns (r: Result<Poly>)
      requires Backs(space, memory)
      modifies this`position
      ensures r == StripAt(memory, old(position))
      ensures r.Ok? ==> position == old(position) + StripSize(r.value)
    {
      var header :- ReadU16(old(position));
      var vertices :- ReadWords(header % ReversedBit);
      return Ok(Strip(header >= ReversedBit, vertices));
    }

    method ReadStrips(count: nat) returns (r: Result<seq<Poly>>)
      requires Backs(space, memory)
      modifies this`position
      ensures r == StripsAt(memory, old(position), count)
    {
      ghost var p0 := position;
      var strips: seq<Poly> := [];
      var i := 0;
      PrependedNothing(StripsAt(memory, p0, count));
      while i < count
        invariant i <= count
        invariant StripsLoop(memory, p0, count, strips, position, count - i)
      {
        ghost var p := position;
        var strip := ReadStrip();
        StripsStep(memory, p0, count, strips, p, count - i, strip);
        if strip.Err? {
          return strip.PropagateFailure();
        }
        strips := strips + [strip.value];
        i := i + 1;
      }
      assert StripsLoop(memory, p0, count, strips, position, 0);
      PrependedToEmpty(strips);
      return Ok(strips);
    }

    /** The value-array and polygon-array readers. */
    method ReadPlain(address: int, req: Request) returns (r: Result<Entity>)
      requires Backs(space, memory) && IsPlainReq(req) && position == address
      modifies this`position
      ensures r == PlainAt(memory, address, req)
    {
      if req.count < 0 {
        return Err(ArgumentOutOfRange("capacity"));
      }
      var name := NameAt(req, address);
      if req.PolysReq? {
        var polys: seq<Poly>;
        if req.polyType == 0 {
          var records :- ReadRecords(req.count, 6);
          polys := seq(|records|, i requires 0 <= i < |records| => TriangleOf(records[i]));
        } else if req.polyType == 1 {
          var records :- ReadRecords(req.count, 8);
          polys := seq(|records|, i requires 0 <= i < |records| => QuadOf(records[i]));
        } else {
          polys :- ReadStrips(req.count);
        }
        return Ok(Collection(Some(name), Polys(seq(|polys|, i requires 0 <= i < |polys| => Some(polys[i])))));
      }
      var records :- ReadRecords(req.count, ValueSize(req));
      return Ok(Collection(Some(name), ValueItems(req, records)));
    }

    // Decoding through the cache.

    /**
     * Address 0 is a null reference; an address decoded before with the requested
     * type yields the same instance; any other address is decoded from its record,
     * remembered with the request that decoded it, and the reader's position restored.
     * `fuel` bounds the depth of nested decoding.
     */
    method Extract(address: int, req: Request, fuel: nat) returns (r: Result<Ref>)
      requires Valid()
      modifies this
      ensures Valid() && Extends(old(heap), old(origins)) && position == old(position)
      ensures r.Ok? ==> RefOk(heap, |heap|, r.value, ReqKind(req)) && FetchedSince(origins, old(|heap|), address, req, r.value)
                        && |heap| == After(old(|heap|), r.value)
      ensures r.Ok? ==> GetKnownObject(address) == r.value
      ensures address == 0 ==> r == Ok(Null) && heap == old(heap) && knownObjects == old(knownObjects)
      ensures address != 0 && old(Cached(address, ReqKind(req))).Some? ==>
                r == Ok(Ptr(old(Cached(address, ReqKind(req))).value))
                && heap == old(heap) && knownObjects == old(knownObjects)
      ensures address != 0 && old(Cached(address, ReqKind(req))).None? ==>
                (fuel == 0 ==> r == Err(RecursionLimit))
                && (0 < fuel && CapacityRefused(req) ==> r == Err(ArgumentOutOfRange("capacity")))
                && (r.Ok? ==> r.value.id == |heap| - 1 && origins[r.value.id] == Origin(address, req, old(|heap|))
                              && DecodedAs(memory, heap, origins, heap[r.value.id], address, req, old(|heap|)))
      decreases fuel, 1
    {
      if address == 0 {
        return Ok(Null);
      }
      var hit := Cached(address, ReqKind(req));
      if hit.Some? {
        return Ok(Ptr(hit.value));
      }
      r := ExtractNew(address, req, fuel);
    }

    /**
     * The cache miss of Extract: decodes the structure at `address`, leaving the position
     * where it was, and remembers the new instance under its address.
     */
    method ExtractNew(address: int, req: Request, fuel: nat) returns (r: Result<Ref>)
      requires Valid() && address != 0 && Cached(address, ReqKind(req)).None?
      modifies this
      ensures Valid() && Extends(old(heap), old(origins)) && position == old(position)
      ensures fuel == 0 ==> r == Err(RecursionLimit)
      ensures 0 < fuel && CapacityRefused(req) ==> r == Err(ArgumentOutOfRange("capacity"))
      ensures r.Ok? ==> r.value.Ptr? && old(|heap|) <= r.value.id == |heap| - 1
                        && origins[r.value.id] == Origin(address, req, old(|heap|))
                        && RefOk(heap, |heap|, r.value, ReqKind(req))
                        && address in knownObjects && knownObjects[address] == r.value.id
                        && DecodedAs(memory, heap, origins, heap[r.value.id], address, req, old(|heap|))
      decreases fuel, 0
    {
      if fuel == 0 {
        return Err(RecursionLimit);
      }
      ghost var origin := Origin(address, req, |heap|);
      var oldPosition := position;
      position := address;
      var e := Decode(address, req, fuel - 1);
      position := oldPosition;
      if e.Err? {
        return e.PropagateFailure();
      }
      var id := Remember(address, e.value, origin);
      r := Ok(Ptr(id));
    }

    /** A newly decoded instance joins the arena, with its origin, and the cache names it for its address. */
    method Remember(address: int, e: Entity, ghost origin: Origin) returns (id: nat)
      requires Valid() && address != 0 && origin.address == address && origin.start <= |heap|
      requires EntityOk(heap, |heap|, e) && DecodedAs(memory, heap, origins, e, address, origin.req, origin.start)
      modifies this`heap, this`origins, this`knownObjects
      ensures Valid() && id == |old(heap)|
      ensures heap == old(heap) + [e] && origins == old(origins) + [origin] && knownObjects == old(knownObjects)[address := id]
      ensures DecodedAs(memory, heap, origins, heap[id], address, origin.req, origin.start)
    {
      HeapAppend(heap, e);
      ArenaTracedAppend(memory, heap, origins, e, origin);
      id := |heap|;
      heap, origins, knownObjects := heap + [e], origins + [origin], knownObjects[address := id];
      assert Traced(memory, heap, origins, id);
    }

    /**
     * Extract as the structure readers use it: the reader stays valid, its position is
     * restored, and the result is a reference of the requested type `k`, null exactly
     * for address 0, decoded by `req` when it is new.
     */
    method Follow(address: int, req: Request, ghost k: Kind, fuel: nat) returns (r: Result<Ref>)
      requires Valid() && ReqKind(req) == k
      modifies this
      ensures Valid() && Extends(old(heap), old(origins)) && position == old(position)
      ensures r.Ok? ==> RefOk(heap, |heap|, r.value, k) && FetchedSince(origins, old(|heap|), address, req, r.value)
                        && |heap| == After(old(|heap|), r.value)
      ensures address == 0 ==> r == Ok(Null)
      decreases fuel, 2
    {
      r := Extract(address, req, fuel);
    }

    /** A pointer field: the pointer word at `at`, followed. */
    method FollowPointer(ghost at: int, req: Request, ghost k: Kind, fuel: nat) returns (r: Result<Ref>)
      requires Valid() && position == at && ReqKind(req) == k
      modifies this
      ensures Valid() && Extends(old(heap), old(origins))
      ensures r.Ok? ==> RefOk(heap, |heap|, r.value, k) && FetchedAt(memory, origins, old(|heap|), at, req, r.value)
                        && |heap| == After(old(|heap|), r.value) && position == at + 4
      ensures U32At(memory, at) == Ok(0) ==> r == Ok(Null) && position == at + 4
      decreases fuel, 3
    {
      var address :- ReadU32(at);
      r := Follow(address, req, k, fuel);
    }

    /** Two consecutive pointer fields, each followed as soon as it is read. */
    method FollowPointers(ghost at1: int, ghost at2: int, req1: Request, ghost k1: Kind, req2: Request, ghost k2: Kind,
                          fuel: nat) returns (r: Result<(Ref, Ref)>)
      requires Valid() && position == at1 && at2 == at1 + 4 && ReqKind(req1) == k1 && ReqKind(req2) == k2
      modifies this
      ensures Valid() && Extends(old(heap), old(origins))
      ensures r.Ok? ==> RefOk(heap, |heap|, r.value.0, k1) && RefOk(heap, |heap|, r.value.1, k2)
                        && FetchedAt(memory, origins, old(|heap|), at1, req1, r.value.0)
                        && FetchedAt(memory, origins, After(old(|heap|), r.value.0), at2, req2, r.value.1)
                        && |heap| == After(After(old(|heap|), r.value.0), r.value.1) && position == at1 + 8
      decreases fuel, 4
    {
      ghost var start := |heap|;
      var first :- FollowPointer(at1, req1, k1, fuel);
      ghost var h, o := heap, origins;
      var second :- FollowPointer(at2, req2, k2, fuel);
      RefOkGrows(h, heap, |h|, |heap|, first, k1);
      FetchedAtGrows(memory, o, origins, start, at1, req1, first);
      r := Ok((first, second));
    }

    /** Two pointers read earlier, followed in turn with the same request. */
    method FollowBoth(address1: int, address2: int, req: Request, ghost k: Kind, fuel: nat) returns (r: Result<(Ref, Ref)>)
      requires Valid() && ReqKind(req) == k
      modifies this
      ensures Valid() && Extends(old(heap), old(origins)) && position == old(position)
      ensures r.Ok? ==> RefOk(heap, |heap|, r.value.0, k) && RefOk(heap, |heap|, r.value.1, k)
                        && FetchedSince(origins, old(|heap|), address1, req, r.value.0)
                        && FetchedSince(origins, After(old(|heap|), r.value.0), address2, req, r.value.1)
                        && |heap| == After(After(old(|heap|), r.value.0), r.value.1)
      decreases fuel, 3
    {
      ghost var start := |heap|;
      var first :- Follow(address1, req, k, fuel);
      ghost var h, o := heap, origins;
      var second :- Follow(address2, req, k, fuel);
      RefOkGrows(h, heap, |h|, |heap|, first, k);
      FetchedSinceGrows(o, origins, start, address1, req, first);
      r := Ok((first, second));
    }

    /** A counted array: its count is read at `at`, then the pointer read earlier is followed with it. */
    method FollowCounted(address: int, ghost at: int, a: CountedArray, fuel: nat) returns (r: Result<Ref>)
      requires Valid() && position == at
      modifies this
      ensures Valid() && Extends(old(heap), old(origins))
      ensures r.Ok? ==> CountWord(memory, at, a).Ok? && RefOk(heap, |heap|, r.value, CountedKind(a))
                        && FetchedSince(origins, old(|heap|), address, CountedRequest(a, CountWord(memory, at, a).value), r.value)
                        && |heap| == After(old(|heap|), r.value) && position == at + CountSize(a)
      decreases fuel, 3
    {
      var count: int;
      if ShortCount(a) {
        var c :- ReadU16(at);
        count := c;
      } else {
        var c :- ReadI32(at);
        count := c;
      }
      assert CountWord(memory, at, a) == Ok(count);
      r := Follow(address, CountedRequest(a, count), CountedKind(a), fuel);
    }

    /** Two counted arrays whose pointers were read earlier; their counts follow each other from `at1`. */
    method FollowCountedPair(address1: int, address2: int, ghost at1: int, ghost at2: int,
                             a1: CountedArray, a2: CountedArray, fuel: nat) returns (r: Result<(Ref, Ref)>)
      requires Valid() && position == at1 && at2 == at1 + CountSize(a1)
      modifies this
      ensures Valid() && Extends(old(heap), old(origins))
      ensures r.Ok? ==> CountWord(memory, at1, a1).Ok? && CountWord(memory, at2, a2).Ok?
                        && RefOk(heap, |heap|, r.value.0, CountedKind(a1)) && RefOk(heap, |heap|, r.value.1, CountedKind(a2))
                        && FetchedSince(origins, old(|heap|), address1,
                                        CountedRequest(a1, CountWord(memory, at1, a1).value), r.value.0)
                        && FetchedSince(origins, After(old(|heap|), r.value.0), address2,
                                        CountedRequest(a2, CountWord(memory, at2, a2).value), r.value.1)
                        && |heap| == After(After(old(|heap|), r.value.0), r.value.1) && position == at2 + CountSize(a2)
      decreases fuel, 4
    {
      ghost var start := |heap|;
      var first :- FollowCounted(address1, at1, a1, fuel);
      ghost var h, o := heap, origins;
      var second :- FollowCounted(address2, at2, a2, fuel);
      RefOkGrows(h, heap, |h|, |heap|, first, CountedKind(a1));
      FetchedSinceGrows(o, origins, start, address1, CountedRequest(a1, CountWord(memory, at1, a1).value), first);
      r := Ok((first, second));
    }

    /** The decoder a request selects; a negative list capacity is refused first. */
    method Decode(address: int, req: Request, fuel: nat) returns (r: Result<Entity>)
      requires Valid() && position == address
      modifies this
      ensures Valid() && Extends(old(heap), old(origins))
      ensures r.Ok? ==> EntityOk(heap, |heap|, r.value) && DecodedAs(memory, heap, origins, r.value, address, req, old(|heap|))
      ensures CapacityRefused(req) ==> r == Err(ArgumentOutOfRange("capacity"))
      decreases fuel, 11
    {
      if CapacityRefused(req) {
        return Err(ArgumentOutOfRange("capacity"));
      }
      if IsPlainReq(req) {
        r := ReadPlain(address, req);
        if r.Ok? {
          PlainEntityOk(heap, |heap|, r.value, req);
        }
      } else {
        r := DecodeStructure(address, req, fuel);
      }
    }

    /** The structure readers and the pointer-array reader, by request. */
    method DecodeStructure(address: int, req: Request, fuel: nat) returns (r: Result<Entity>)
      requires Valid() && position == address && !IsPlainReq(req) && !CapacityRefused(req)
      modifies this
      ensures Valid() && Extends(old(heap), old(origins))
      ensures r.Ok? ==> EntityOk(heap, |heap|, r.value) && KindOf(r.value) == ReqKind(req)
                        && r.value.name == Some(NameAt(req, address))
                        && StructureAt(memory, heap, origins, old(|heap|), r.value, address, req)
      decreases fuel, 10
    {
      if req.AttachReq? {
        r := ReadAttach(address, fuel);
      } else if req.ObjectReq? {
        r := ReadObject(address, fuel);
      } else if req.AnimHeadReq? {
        r := ReadAnimHead(address, fuel);
      } else if req.AnimHead2Req? {
        r := ReadAnimHead2(address, req.vector3CountsByModel, fuel);
      } else if req.MeshesReq? {
        r := ReadMeshes(address, req.count, fuel);
      } else if req.Vector3ArrayAnimDatasReq? {
        r := ReadVector3ArrayAnimDatas(address, req.count, req.vector3Count, fuel);
      } else if IsFramesReq(req) {
        r := ReadFrames(address, req, fuel);
      } else {
        r := ReadPointers(address, req, fuel);
      }
    }

    method ReadAttach(address: int, fuel: nat) returns (r: Result<Entity>)
      requires Valid() && position == address
      modifies this
      ensures Valid() && Extends(old(heap), old(origins))
      ensures r.Ok? ==> AttachRead(memory, heap, origins, old(|heap|), address, r.value)
      decreases fuel, 7
    {
      ghost var start := |heap|;
      var vertices :- ReadAttachVertices(address, fuel);
      var vn := (vertices.1, vertices.2);
      ghost var h1, o1 := heap, origins;
      var mm :- ReadAttachArrays(address, fuel);
      var bounds :- ReadBounds(address);
      AttachFrom(memory, h1, heap, o1, origins, start, address, vertices.0, vn, mm, bounds);
      r := Ok(Attach(Some(NameAt(AttachReq, address)), vn.0, vn.1, mm.0, mm.1, bounds.0, bounds.1, bounds.2));
    }

    /** The vertex and normal arrays of the ATTACH at `address`, both sized by the count at +8. */
    method ReadAttachVertices(ghost address: int, fuel: nat) returns (r: Result<(i32, Ref, Ref)>)
      requires Valid() && position == address
      modifies this
      ensures Valid() && Extends(old(heap), old(origins))
      ensures r.Ok? ==> I32At(memory, address + 8) == Ok(r.value.0)
                        && RefOk(heap, |heap|, r.value.1, Vector3sKind) && RefOk(heap, |heap|, r.value.2, Vector3sKind)
                        && FetchedAt(memory, origins, old(|heap|), address, Vector3sReq(r.value.0 as int), r.value.1)
                        && FetchedAt(memory, origins, After(old(|heap|), r.value.1), address + 4,
                                     Vector3sReq(r.value.0 as int), r.value.2)
                        && |heap| == After(After(old(|heap|), r.value.1), r.value.2) && position == address + 12
      decreases fuel, 5
    {
      assert forall n :: ReqKind(Vector3sReq(n)) == Vector3sKind;
      var vertexArrays :- ReadAddressPair(address, address + 4);
      var verticesCount :- ReadI32(address + 8);
      var vn :- FollowBoth(vertexArrays.0, vertexArrays.1, Vector3sReq(verticesCount as int), Vector3sKind, fuel);
      r := Ok((verticesCount, vn.0, vn.1));
    }

    /** The meshes and materials of the ATTACH at `address`: both pointers, then each count and its array. */
    method ReadAttachArrays(ghost address: int, fuel: nat) returns (r: Result<(Ref, Ref)>)
      requires Valid() && position == address + 12
      modifies this
      ensures Valid() && Extends(old(heap), old(origins))
      ensures r.Ok? ==> RefOk(heap, |heap|, r.value.0, MeshesKind) && RefOk(heap, |heap|, r.value.1, MaterialsKind)
                        && U16At(memory, address + 20).Ok? && U16At(memory, address + 22).Ok?
                        && FetchedAt(memory, origins, old(|heap|), address + 12,
                                     MeshesReq(U16At(memory, address + 20).value as int), r.value.0)
                        && FetchedAt(memory, origins, After(old(|heap|), r.value.0), address + 16,
                                     MaterialsReq(U16At(memory, address + 22).value as int), r.value.1)
                        && |heap| == After(After(old(|heap|), r.value.0), r.value.1) && position == address + 24
      decreases fuel, 5
    {
      var addresses :- ReadAddressPair(address + 12, address + 16);
      r := FollowCountedPair(addresses.0, addresses.1, address + 20, address + 22, MeshArray, MaterialArray, fuel);
    }

    method ReadObject(address: int, fuel: nat) returns (r: Result<Entity>)
      requires Valid() && position == address
      modifies this
      ensures Valid() && Extends(old(heap), old(origins))
      ensures r.Ok? ==> EntityOk(heap, |heap|, r.value)
      ensures r.Ok? ==> ObjectAt(memory, origins, old(|heap|), address, r.value)
      ensures r.Ok? ==> r.value.name == Some(NameAt(ObjectReq, address))
      decreases fuel, 7
    {
      assert ReqKind(ObjectReq) == ObjectKind && ReqKind(AttachReq) == AttachKind;
      ghost var start := |heap|;
      var flags :- ReadU32(address);
      var attach :- FollowPointer(address + 4, AttachReq, AttachKind, fuel);
      ghost var h1, o1 := heap, origins;
      var transform :- ReadTransform(address);
      var links :- FollowPointers(address + 44, address + 48, ObjectReq, ObjectKind, ObjectReq, ObjectKind, fuel);
      RefOkGrows(h1, heap, |h1|, |heap|, attach, AttachKind);
      FetchedAtGrows(memory, o1, origins, start, address + 4, AttachReq, attach);
      r := Ok(Object(Some(NameAt(ObjectReq, address)), flags, attach, transform.0, transform.1, transform.2,
                     links.0, links.1));
    }

    /**
     * The motion is read with the vertex counts of the model's object tree; a null
     * model has no tree to count.
     */
    method ReadAnimHead(address: int, fuel: nat) returns (r: Result<Entity>)
      requires Valid() && position == address
      modifies this
      ensures Valid() && Extends(old(heap), old(origins))
      ensures r.Ok? ==> AnimHeadRead(memory, heap, origins, old(|heap|), address, r.value)
      ensures U32At(memory, address) == Ok(0) && U32At(memory, address + 4).Ok? ==> r == Err(NullReference)
      decreases fuel, 7
    {
      assert ReqKind(ObjectReq) == ObjectKind && forall cs :: ReqKind(AnimHead2Req(cs)) == AnimHead2Kind;
      ghost var start := |heap|;
      var model :- FollowPointer(address, ObjectReq, ObjectKind, fuel);
      ghost var h1, o1 := heap, origins;
      var motionAddress :- ReadU32(address + 4);
      var counts :- CountVerticesInObject(heap, model);
      var motion :- Follow(motionAddress, AnimHead2Req(counts), AnimHead2Kind, fuel);
      AnimHeadFrom(memory, h1, heap, o1, origins, start, address, model, motionAddress, counts, motion);
      r := Ok(AnimHead(Some(NameAt(AnimHeadReq, address)), model, motion));
    }

    /** The motion flags choose the layout of the frames; any other value is rejected. */
    method ReadAnimHead2(address: int, counts: seq<int>, fuel: nat) returns (r: Result<Entity>)
      requires Valid() && position == address
      modifies this
      ensures Valid() && Extends(old(heap), old(origins))
      ensures r.Ok? ==> AnimHead2Read(memory, heap, origins, old(|heap|), address, counts, r.value)
      ensures U32At(memory, address).Ok? && I32At(memory, address + 4).Ok? && U16At(memory, address + 8).Ok?
              && !KnownMotionFlags(U16At(memory, address + 8).value) ==>
                r == Err(UnexpectedData("Unexpected flags value in AnimHead2 @ 0x" + HexLong8(address)
                                        + ": 0x" + Hex(U16At(memory, address + 8).value, 4)))
      decreases fuel, 7
    {
      var frameAddress :- ReadU32(address);
      var frameCount :- ReadI32(address + 4);
      var flags :- ReadU16(address + 8);
      if !KnownMotionFlags(flags) {
        return Err(UnexpectedData("Unexpected flags value in AnimHead2 @ 0x" + HexLong8(address) + ": 0x" + Hex(flags, 4)));
      }
      var frames :- Follow(frameAddress, FramesRequest(flags, counts), AnimFramesKind, fuel);
      var unknown0A :- ReadU16(address + 10);
      AnimHead2From(memory, heap, origins, old(|heap|), address, counts, frameAddress, frameCount, flags, frames, unknown0A);
      r := Ok(AnimHead2(Some(NameAt(AnimHead2Req(counts), address)), frames, frameCount, flags, unknown0A));
    }

    /** One 28-byte MESH record; its arrays are sized by the vertices of its polygons. */
    method ReadMesh(ghost at: int, fuel: nat) returns (r: Result<Mesh>)
      requires Valid() && position == at
      modifies this
      ensures Valid() && Extends(old(heap), old(origins))
      ensures r.Ok? ==> MeshRead(memory, heap, origins, old(|heap|), at, r.value) && position == at + 28
      decreases fuel, 7
    {
      assert forall n, t :: ReqKind(PolysReq(n, t)) == PolysKind;
      ghost var start := |heap|;
      var header :- ReadMeshHeader(at);
      var polys :- Follow(header.2, PolysReq(header.1, header.0 / 0x4000), PolysKind, fuel);
      if polys.Null? {
        return Err(NullReference);
      }
      ghost var h1, o1 := heap, origins;
      var polyVertexCount :- SumVertices(heap[polys.id].items.polys);
      var arrays :- ReadMeshArrays(at, polyVertexCount, fuel);
      MeshFrom(memory, h1, heap, o1, origins, start, at, header, polys, polyVertexCount, arrays);
      r := Ok(Mesh(header.0, polys, arrays.0, arrays.1, arrays.2, arrays.3, arrays.4));
    }

    /**
     * The rest of the MESH at `at`: the polygon attributes, the three per-vertex arrays
     * and the trailing member.
     */
    method ReadMeshArrays(ghost at: int, polyVertexCount: int, fuel: nat) returns (r: Result<(i32, Ref, Ref, Ref, i32)>)
      requires Valid() && position == at + 8
      modifies this
      ensures Valid() && Extends(old(heap), old(origins))
      ensures r.Ok? ==> MeshArraysRead(memory, heap, origins, old(|heap|), at, polyVertexCount, r.value)
                        && position == at + 28
      decreases fuel, 5
    {
      assert ReqKind(PolyNormalsReq(polyVertexCount)) == PolyNormalsKind && ReqKind(ColorsReq(polyVertexCount)) == ColorsKind
             && ReqKind(UVsReq(polyVertexCount)) == UVsKind;
      ghost var start := |heap|;
      var polyAttributes :- ReadI32(at + 8);
      var polyNormals :- FollowPointer(at + 12, PolyNormalsReq(polyVertexCount), PolyNormalsKind, fuel);
      ghost var h1, o1 := heap, origins;
      var colorsAndUV :- FollowPointers(at + 16, at + 20, ColorsReq(polyVertexCount), ColorsKind,
                                        UVsReq(polyVertexCount), UVsKind, fuel);
      var nullMember :- ReadI32(at + 24);
      RefOkGrows(h1, heap, |h1|, |heap|, polyNormals, PolyNormalsKind);
      FetchedAtGrows(memory, o1, origins, start, at + 12, PolyNormalsReq(polyVertexCount), polyNormals);
      r := Ok((polyAttributes, polyNormals, colorsAndUV.0, colorsAndUV.1, nullMember));
    }

    method ReadMeshes(address: int, count: int, fuel: nat) returns (r: Result<Entity>)
      requires Valid() && position == address && 0 <= count
      modifies this
      ensures Valid() && Extends(old(heap), old(origins))
      ensures r.Ok? ==> EntityOk(heap, |heap|, r.value) && MeshesAt(memory, heap, origins, old(|heap|), address, count, r.value)
                        && r.value.name == Some(NameAt(MeshesReq(count), address))
      decreases fuel, 9
    {
      ghost var start := |heap|;
      var meshes: seq<Mesh> := [];
      while |meshes| < count
        invariant |meshes| <= count
        invariant Valid() && Extends(old(heap), old(origins))
        invariant position == address + 28 * |meshes|
        invariant MeshesRead(memory, heap, origins, start, address, meshes)
        decreases count - |meshes|
      {
        meshes :- ReadNextMesh(address, start, meshes, fuel);
      }
      r := Ok(Collection(Some(NameAt(MeshesReq(count), address)), Meshes(meshes)));
    }

    /** Reads the MESH record that follows `meshes` in an array starting at `address`. */
    method ReadNextMesh(ghost address: int, ghost start: nat, meshes: seq<Mesh>, fuel: nat) returns (r: Result<seq<Mesh>>)
      requires Valid() && position == address + 28 * |meshes|
      requires MeshesRead(memory, heap, origins, start, address, meshes)
      modifies this
      ensures Valid() && Extends(old(heap), old(origins))
      ensures r.Ok? ==> |r.value| == |meshes| + 1 && position == address + 28 * |r.value|
      ensures r.Ok? ==> MeshesRead(memory, heap, origins, start, address, r.value)
      decreases fuel, 8
    {
      ghost var h, o := heap, origins;
      ghost var at := address + 28 * |meshes|;
      var read :- ReadMesh(at, fuel);
      MeshesReadSnoc(memory, h, heap, o, origins, start, address, meshes, at, read);
      r := Ok(meshes + [read]);
    }

    method ReadVector3ArrayAnimDatas(address: int, count: int, vector3Count: int, fuel: nat) returns (r: Result<Entity>)
      requires Valid() && position == address && 0 <= count
      modifies this
      ensures Valid() && Extends(old(heap), old(origins))
      ensures r.Ok? ==> EntityOk(heap, |heap|, r.value)
                        && Vector3ArrayAnimDatasAt(memory, origins, old(|heap|), address, count, vector3Count, r.value)
                        && r.value.name == Some(NameAt(Vector3ArrayAnimDatasReq(count, vector3Count), address))
      decreases fuel, 7
    {
      assert ReqKind(Vector3sReq(vector3Count)) == Vector3sKind;
      ghost var start := |heap|;
      var animData: seq<Vector3ArrayAnimData> := [];
      var i := 0;
      while i < count
        invariant i <= count && |animData| == i
        invariant Valid() && Extends(old(heap), old(origins))
        invariant position == address + 8 * i
        invariant AnimDatasRead(memory, heap, origins, start, address, vector3Count, animData)
      {
        ghost var h, o := heap, origins;
        ghost var at := address + 8 * i;
        var frameNumber :- ReadI32(at);
        var vectors :- FollowPointer(at + 4, Vector3sReq(vector3Count), Vector3sKind, fuel);
        AnimDatasReadSnoc(memory, h, heap, o, origins, start, address, vector3Count, animData, i, at, frameNumber, vectors);
        animData := animData + [Vector3ArrayAnimData(frameNumber, vectors)];
        i := i + 1;
      }
      r := Ok(Collection(Some(NameAt(Vector3ArrayAnimDatasReq(count, vector3Count), address)),
                         Vector3ArrayAnimDatas(animData)));
    }

    /** One frame record, in the layout the request selects; `i` picks the frame's vertex count. */
    method ReadFrame(ghost at: int, req: Request, i: nat, fuel: nat) returns (r: Result<AnimFrame>)
      requires Valid() && position == at && IsFramesReq(req) && i < FrameCount(req)
      modifies this
      ensures Valid() && Extends(old(heap), old(origins))
      ensures r.Ok? ==> FrameOk(heap, |heap|, r.value) && FrameAt(memory, origins, old(|heap|), at, req, i, r.value)
                        && |heap| == FrameEnd(old(|heap|), r.value) && position == at + FrameSize(req)
      decreases fuel, 7
    {
      var addresses :- ReadAddressPair(at, at + 4);
      r := ReadFrameRest(at, req, i, addresses.0, addresses.1, fuel);
    }

    /** The rest of the frame record at `at`, whose two pointers were read, in the layout the request selects. */
    method ReadFrameRest(ghost at: int, req: Request, i: nat, address1: u32, address2: u32, fuel: nat)
      returns (r: Result<AnimFrame>)
      requires Valid() && position == at + 8 && IsFramesReq(req) && i < FrameCount(req)
      requires U32At(memory, at) == Ok(address1) && U32At(memory, at + 4) == Ok(address2)
      modifies this
      ensures Valid() && Extends(old(heap), old(origins))
      ensures r.Ok? ==> FrameOk(heap, |heap|, r.value) && FrameAt(memory, origins, old(|heap|), at, req, i, r.value)
                        && |heap| == FrameEnd(old(|heap|), r.value) && position == at + FrameSize(req)
      decreases fuel, 6
    {
      if req.PosRotFramesReq? {
        r := ReadPosRotFrame(at, address1, address2, fuel);
      } else if req.PosRotScaleFramesReq? {
        r := ReadScaledFrame(at, address1, address2, fuel);
      } else {
        r := ReadVertNrmFrame(at, req.vector3CountsByModel[i], address1, address2, fuel);
      }
    }

    /** The rest of a position-and-rotation frame at `at`, whose two pointers were read: the two counts. */
    method ReadPosRotFrame(ghost at: int, positionsAddress: u32, rotationsAddress: u32, fuel: nat) returns (r: Result<AnimFrame>)
      requires Valid() && position == at + 8
      requires U32At(memory, at) == Ok(positionsAddress) && U32At(memory, at + 4) == Ok(rotationsAddress)
      modifies this
      ensures Valid() && Extends(old(heap), old(origins))
      ensures r.Ok? ==> FrameOk(heap, |heap|, r.value) && PosRotFrameAt(memory, origins, old(|heap|), at, r.value)
                        && |heap| == FrameEnd(old(|heap|), r.value) && position == at + 16
      decreases fuel, 5
    {
      ghost var start := |heap|;
      var refs :- FollowCountedPair(positionsAddress, rotationsAddress, at + 8, at + 12,
                                    Vector3AnimDataArray, Rotation3AnimDataArray, fuel);
      PosRotFrameFrom(memory, origins, start, at, positionsAddress, rotationsAddress, refs.0, refs.1);
      r := Ok(PosRot(refs.0, refs.1));
    }

    /**
     * The rest of a vertex frame at `at`, whose two pointers were read: the two counts; the
     * vertex arrays hold `n` vectors each, the normal arrays one.
     */
    method ReadVertNrmFrame(ghost at: int, n: int, verticesAddress: u32, normalsAddress: u32, fuel: nat) returns (r: Result<AnimFrame>)
      requires Valid() && position == at + 8
      requires U32At(memory, at) == Ok(verticesAddress) && U32At(memory, at + 4) == Ok(normalsAddress)
      modifies this
      ensures Valid() && Extends(old(heap), old(origins))
      ensures r.Ok? ==> FrameOk(heap, |heap|, r.value) && VertNrmFrameAt(memory, origins, old(|heap|), at, n, r.value)
                        && |heap| == FrameEnd(old(|heap|), r.value) && position == at + 16
      decreases fuel, 5
    {
      ghost var start := |heap|;
      var refs :- FollowCountedPair(verticesAddress, normalsAddress, at + 8, at + 12,
                                    Vector3ArrayAnimDataArray(n), Vector3ArrayAnimDataArray(1), fuel);
      VertNrmFrameFrom(memory, origins, start, at, n, verticesAddress, normalsAddress, refs.0, refs.1);
      r := Ok(VertNrm(refs.0, refs.1));
    }

    /** The rest of a 24-byte frame with scales, once its first two pointers have been read. */
    method ReadScaledFrame(ghost at: int, positionsAddress: u32, rotationsAddress: u32, fuel: nat) returns (r: Result<AnimFrame>)
      requires Valid() && position == at + 8
      requires U32At(memory, at) == Ok(positionsAddress) && U32At(memory, at + 4) == Ok(rotationsAddress)
      modifies this
      ensures Valid() && Extends(old(heap), old(origins))
      ensures r.Ok? ==> ScaledFrameRead(memory, heap, origins, old(|heap|), at, r.value) && position == at + 24
      decreases fuel, 5
    {
      ghost var start := |heap|;
      var scalesAddress :- ReadU32(at + 8);
      var refs :- FollowCountedPair(positionsAddress, rotationsAddress, at + 12, at + 16, Vector3AnimDataArray, Rotation3AnimDataArray, fuel);
      ghost var h1, o1 := heap, origins;
      var scales :- FollowCounted(scalesAddress, at + 20, Vector3AnimDataArray, fuel);
      ScaledFrameFrom(memory, h1, heap, o1, origins, start, at, positionsAddress, rotationsAddress, scalesAddress, refs.0, refs.1, scales);
      r := Ok(PosRotScale(refs.0, refs.1, scales));
    }

    method ReadFrames(address: int, req: Request, fuel: nat) returns (r: Result<Entity>)
      requires Valid() && position == address && IsFramesReq(req)
      modifies this
      ensures Valid() && Extends(old(heap), old(origins))
      ensures r.Ok? ==> EntityOk(heap, |heap|, r.value) && FramesAt(memory, origins, old(|heap|), address, req, r.value)
                        && r.value.name == Some(NameAt(req, address))
      decreases fuel, 9
    {
      ghost var start := |heap|;
      var frames: seq<Option<AnimFrame>> := [];
      while |frames| < FrameCount(req)
        invariant |frames| <= FrameCount(req)
        invariant Valid() && Extends(old(heap), old(origins))
        invariant position == address + FrameSize(req) * |frames|
        invariant FramesRead(memory, heap, origins, start, address, req, frames)
        decreases FrameCount(req) - |frames|
      {
        frames :- ReadNextFrame(address, start, req, frames, fuel);
      }
      r := Ok(Collection(Some(NameAt(req, address)), AnimFrames(frames)));
    }

    /** Reads the frame record that follows `frames` in a frame array starting at `address`. */
    method ReadNextFrame(ghost address: int, ghost start: nat, req: Request, frames: seq<Option<AnimFrame>>, fuel: nat)
      returns (r: Result<seq<Option<AnimFrame>>>)
      requires Valid() && IsFramesReq(req) && |frames| < FrameCount(req)
      requires position == address + FrameSize(req) * |frames|
      requires FramesRead(memory, heap, origins, start, address, req, frames)
      modifies this
      ensures Valid() && Extends(old(heap), old(origins))
      ensures r.Ok? ==> |r.value| == |frames| + 1 && position == address + FrameSize(req) * |r.value|
      ensures r.Ok? ==> FramesRead(memory, heap, origins, start, address, req, r.value)
      decreases fuel, 8
    {
      ghost var h, o := heap, origins;
      ghost var at := address + FrameSize(req) * |frames|;
      var read :- ReadFrame(at, req, |frames|, fuel);
      FramesReadSnoc(memory, h, heap, o, origins, start, address, req, frames, at, read);
      r := Ok(frames + [Some(read)]);
    }

    /** The loop of the pointer-array readers: one pointer per element, each followed with its element's request in turn. */
    method ReadPointers(address: int, req: Request, fuel: nat) returns (r: Result<Entity>)
      requires Valid() && position == address && IsPointersReq(req)
      modifies this
      ensures Valid() && Extends(old(heap), old(origins))
      ensures r.Ok? ==> EntityOk(heap, |heap|, r.value) && PointersAt(memory, origins, old(|heap|), address, req, r.value)
                        && KindOf(r.value) == ReqKind(req) && r.value.name == Some(NameAt(req, address))
      decreases fuel, 7
    {
      ghost var start := |heap|;
      var refs: seq<Ref> := [];
      var i := 0;
      while i < PointerCount(req)
        invariant i <= PointerCount(req) && |refs| == i
        invariant Valid() && Extends(old(heap), old(origins))
        invariant position == address + 4 * i
        invariant RefsRead(memory, heap, origins, start, address, req, refs)
      {
        ghost var h, o := heap, origins;
        ghost var at := address + 4 * i;
        var element :- FollowPointer(at, ElementRequest(req, i), ElementKind(req), fuel);
        RefsReadSnoc(memory, h, heap, o, origins, start, address, req, refs, i, at, element);
        refs := refs + [element];
        i := i + 1;
      }
      r := Ok(Collection(Some(NameAt(req, address)), PointerItems(req, refs)));
    }

    /** The loop that sums the vertices of a mesh's polygons; a missing polygon cannot be counted. */
    static method SumVertices(polys: seq<Option<Poly>>) returns (r: Result<int>)
      ensures r == VertexTotal(polys)
    {
      var total := 0;
      var i := 0;
      while i < |polys|
        invariant i <= |polys|
        invariant VertexTotal(polys[..i]) == Ok(total)
      {
        if polys[i].None? {
          VertexTotalMissing(polys, i);
          return Err(NullReference);
        }
        assert polys[..i + 1][..i] == polys[..i];
        total := total + NumberOfVertices(polys[i].value);
        i := i + 1;
      }
      assert polys[..i] == polys;
      return Ok(total);
    }
  }

  /** The collection a pointer array fills. */
  function PointerItems(req: Request, refs: seq<Ref>): (items: Items)
    requires IsPointersReq(req)
    ensures HasRefs(items) && items.refs == refs && ItemsKind(items) == ReqKind(req)
  {
    match req
    case AttachPointersReq(_) => Attaches(refs)
    case AnimHeadPointersReq(_) => AnimHeads(refs)
    case AnimHead2PointersReq(_) => AnimHead2s(refs)
    case MaterialArraysReq(_) => MaterialArrays(refs)
    case ObjectPointersReq(_) => Objects(refs)
    case Vector3ArraysReq(_) => Vector3Arrays(refs)
  }
}
