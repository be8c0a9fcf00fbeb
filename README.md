# sadtools core, modelled in Dafny

sadtools reads the Windows build of Sonic Adventure DX. It treats the game's executable
or a DLL as a Portable Executable (PE) image and decodes the game's 3D structures from
it. Those structures are models (ATTACH), object trees (OBJECT), meshes, materials,
polygons and animations (AnimHead, AnimHead2, animation frames). It then exports them
as C source text. This project models the core of that pipeline and proves properties
of it:

- **The image.**
  - `ImageSections`: a section and its ordering.
  - `PEHeaders`: the header checks, the sorted section set and the export dictionary.
  - `AddressSpaces`: the virtual memory an image maps.
  - `VirtualMemory`: the `VirtualMemoryStream` that serves reads of virtual addresses
    from the file. Its read loop is modelled as written, and a corrected version is
    proved too (see Findings).
- **The reader** (`Reading.PEReader`): it opens an image, answers export queries and
  decodes structures.
  - Every decoded instance lives in an arena (`heap`). A reference is an index into it.
  - The address cache `knownObjects` makes a second read of the same address return
    the same instance.
  - `Requests` and `Decoding` describe what each decoder reads at an address.
  - `Data` holds the decoded entities. `Polys` holds the polygons and their on-disk words.
  - The vertex counting of an object tree is in `Decoding`.
- **The exporter.**
  - `CFormat`: the number, flag and name formatting.
  - `CExport`: the exports that need no tracker.
  - `CExportTracked`: the exports whose output depends on an `ExportTracker`. These are
    the vertex-animation arrays and the animation-frame arrays with their
    `AnimFrameExporterVisitor`.
  - `ExportTracking`: the tracker's sets of exported instances.
- **`Fnv`**: the 32-bit FNV-1a hash.

Integers are unbounded in Dafny, so the source's fixed widths are written out:
- `u8`, `u16`, `u32`, `i16` and `i32` are subset types;
- unchecked `uint` addition and multiplication wrap modulo 2^32 (`Words.AddU32`, `Words.MulU32`);
- a C# `int` is the two's-complement reading of a 32-bit pattern (`Words.Int32`).

Floats are kept as their 32-bit patterns. The exceptions the code throws become
`Err` values of `Wrappers.Result`, one constructor per exception type.

## Model

| member | source | states |
|---|---|---|
| ImageSections.HeaderBytes | PCTools/ImageSection.cs:24-35 | a section header laid out as PE/COFF places VirtualSize, VirtualAddress, SizeOfRawData and PointerToRawData is 40 bytes |
| ImageSections.FromHeaderBytes | PCTools/ImageSection.cs:24-35 | the constructor recovers exactly the four fields stored in a header, whatever its name and trailing fields |
| ImageSections.CompareTo | PCTools/ImageSection.cs:74-77 | negative, zero or positive exactly when the first virtual address is below, equal to or above the second |
| ImageSections.CompareToIsOrder | PCTools/ImageSection.cs:74-77 | the comparison is antisymmetric and transitive, as the sorted set needs |
| ImageSections.InsertSorted | PCTools/PEReader.cs:119-122 | adding a section to the sorted set keeps it sorted and adds nothing but that section |
| ImageSections.InsertPresent | PCTools/PEReader.cs:119-122 | a section whose virtual address is already present leaves the set unchanged |
| ImageSections.InsertAbsent | PCTools/PEReader.cs:119-122 | a section with a new virtual address is added exactly once |
| PEHeaders.RawRead | PCTools/PEReader.cs:69-70 | a stream read into a fresh buffer yields the file's bytes where it has them, and zeros past its end |
| PEHeaders.ParseHeaders | PCTools/PEReader.cs:68-111 | the DOS check fails exactly when the first word is not "MZ"; on success the PE signature, the 224-byte optional header size and the PE32 magic are those in the file, and the section table follows the optional header |
| PEHeaders.ParseMinimalImage | PCTools/PEReader.cs:68-111 | an image laid out as PE/COFF prescribes passes every check, and the reader recovers its section count, image base and export address |
| PEHeaders.Headers | PCTools/PEReader.cs:114-122 | the i-th section is the one described by the i-th 40-byte header of the table |
| PEHeaders.SectionSetSorted | PCTools/PEReader.cs:119-122 | the section set is sorted and holds only sections from the table |
| PEHeaders.InsertAddresses | PCTools/PEReader.cs:121 | adding a section adds its virtual address and no other |
| PEHeaders.SectionSetAddresses | PCTools/PEReader.cs:119-122 | the set holds exactly the virtual addresses of the headers |
| PEHeaders.SectionSetKept | PCTools/PEReader.cs:119-122 | every member is the first header with its virtual address; later duplicates are dropped |
| PEHeaders.ReadSections | PCTools/PEReader.cs:114-122 | the section loop yields the sorted set of the table's headers |
| PEHeaders.MappedBelowMaxEnd | PCTools/PEReader.cs:169 | no address at or past the end of the highest section is mapped, so the name loop ends |
| PEHeaders.CStringEnds | PCTools/PEReader.cs:165-172 | a collected export name is followed by a zero byte |
| PEHeaders.CStringMeaning | PCTools/PEReader.cs:165-172 | a collected name is the run of non-zero bytes at the pointer |
| PEHeaders.CStringOfRun | PCTools/PEReader.cs:165-172 | conversely, a run of non-zero bytes ended by a zero byte is collected as the name |
| PEHeaders.ReadCString | PCTools/PEReader.cs:165-172 | the byte loop collects the name the pure definition describes, failing as it fails |
| PEHeaders.Table | PCTools/PEReader.cs:137-155 | an export table has the requested size, an allocation past the array limit overflows, and an empty table reads nothing |
| PEHeaders.ReadExportTables | PCTools/PEReader.cs:129-155 | the tables read from the export directory have 4 name bytes and 2 ordinal bytes per name; the function table has the `uint` product of 4 and the function count, modulo 2^32, as its size |
| PEHeaders.FunctionAt | PCTools/PEReader.cs:174 | an ordinal reads the function table exactly when it lies inside it; otherwise the read is undefined |
| PEHeaders.ExportNames | PCTools/PEReader.cs:161-172 | one name (or failure) per name pointer |
| PEHeaders.EntriesMeaning | PCTools/PEReader.cs:161-175 | the i-th entry built is the export of the i-th name pointer and its ordinal |
| PEHeaders.EntriesStep | PCTools/PEReader.cs:161-175 | one more loop turn appends its entry, or the construction fails with it |
| PEHeaders.EntriesFailureSticks | PCTools/PEReader.cs:161-175 | a failing entry ends the construction; later entries are never read |
| PEHeaders.AssignLastWins | PCTools/PEReader.cs:174 | the dictionary holds exactly the exported names, each mapped to the value of its last entry |
| PEHeaders.ReadEntry | PCTools/PEReader.cs:163-174 | one loop turn: the name read byte by byte, then image base plus the ordinal's target modulo 2^32 |
| PEHeaders.BuildExports | PCTools/PEReader.cs:161-175 | the export loop builds the dictionary of every entry assigned in table order |
| PEHeaders.GetExport | PCTools/PEReader.cs:217-224 | the value of an exported name, 0 for a name not exported |
| AddressSpaces.FindSection | PCTools/VirtualMemoryStream.cs:353-365 | the section found maps the address; none is found only when no section maps it |
| AddressSpaces.FindSectionFirst | PCTools/VirtualMemoryStream.cs:353-365 | the lookup picks the earliest mapping section in set order, even when later ones overlap |
| AddressSpaces.SameSectionAhead | PCTools/VirtualMemoryStream.cs:189-196 | in a sorted set, the section of an address is also the section of every later address before its end |
| AddressSpaces.ByteAt | PCTools/VirtualMemoryStream.cs:189-250 | a byte read fails with an IOException for the address exactly when no section maps it; a mapped byte can fail only at the end of the file |
| AddressSpaces.MemoryOf | PCTools/VirtualMemoryStream.cs:158-254 | the memory of an image is the byte read at every address |
| AddressSpaces.ReadBytes | PCTools/VirtualMemoryStream.cs:158-254 | a read of n bytes yields n bytes or fails |
| AddressSpaces.ReadBytesMeaning | PCTools/VirtualMemoryStream.cs:158-254 | a successful read yields the bytes at pos, pos + 1, ... in order |
| AddressSpaces.ReadBytesFailure | PCTools/VirtualMemoryStream.cs:158-254 | a failed read fails as its first unreadable byte does, and every byte before it is readable |
| AddressSpaces.SpaceBytes | PCTools/VirtualMemoryStream.cs:158-254 | reading an image's bytes is reading its memory; it fails only outside the sections or past the end of the file |
| AddressSpaces.ReadBytesSplit | PCTools/VirtualMemoryStream.cs:158-254 | reading m + n bytes is reading m bytes and then the n after them |
| AddressSpaces.U16AtBytes | PCTools/PEReader.cs:992-993 | a 16-bit read is the little-endian value of the two bytes read |
| AddressSpaces.U32AtBytes | PCTools/PEReader.cs:267-268 | a 32-bit read is the little-endian value of the four bytes read |
| VirtualMemory.ReadTurn | PCTools/VirtualMemoryStream.cs:189-250 | one turn of the read loop as written; a turn that goes on leaves a smaller residual count |
| VirtualMemory.ChunkBytes | PCTools/VirtualMemoryStream.cs:209-246 | copying a section's raw part and clearing the rest yields exactly the image's bytes for that share of a read |
| VirtualMemory.FilledSplit | PCTools/VirtualMemoryStream.cs:189-250 | filling n1 bytes and then the n2 after them is filling n1 + n2 bytes |
| VirtualMemory.FirstUnmapped | PCTools/VirtualMemoryStream.cs:192 | the first address of a range that no section maps; every address before it is mapped |
| VirtualMemory.FirstUnmappedExtend | PCTools/VirtualMemoryStream.cs:189-250 | the first unmapped address grows one mapped chunk at a time |
| VirtualMemory.FillStep | PCTools/VirtualMemoryStream.cs:189-250 | the bytes filled so far and the next chunk are the bytes filled up to the chunk's end |
| VirtualMemory.FailStep | PCTools/VirtualMemoryStream.cs:192 | an unmapped address right after the filled bytes is the first unmapped one |
| VirtualMemory.ChunkMapped | PCTools/VirtualMemoryStream.cs:189-196 | every address of a share of a read that stays in one section is mapped |
| VirtualMemory.ReadInsideSection | PCTools/VirtualMemoryStream.cs:199-239 | a read that ends before the end of its section delivers the image's bytes, advances by the count and returns it |
| VirtualMemory.ReadTurnInside | PCTools/VirtualMemoryStream.cs:199-239 | such a read takes a single turn: the raw part copied, the rest cleared |
| VirtualMemory.ReadToSectionEnd | PCTools/VirtualMemoryStream.cs:241-253 | as written, a read ending exactly at its section's end (past the raw data) returns 0 or throws, never the count |
| VirtualMemory.ReadToSectionEndExample | PCTools/VirtualMemoryStream.cs:241-253 | a 16-byte section at 0x401000: reading its last 4 bytes fills the buffer and then throws for 0x401010 |
| VirtualMemory.VirtualMemoryStream.constructor | PCTools/VirtualMemoryStream.cs:50-55 | a stream over the file with the sorted sections, at position 0 |
| VirtualMemory.VirtualMemoryStream.Length | PCTools/VirtualMemoryStream.cs:91-98 | the stream is 2 GiB long whatever the image |
| VirtualMemory.VirtualMemoryStream.SetPosition | PCTools/VirtualMemoryStream.cs:107-120 | setting the position stores it unchecked |
| VirtualMemory.VirtualMemoryStream.Seek | PCTools/VirtualMemoryStream.cs:267-287 | the position becomes offset from the start, the current position or the 2 GiB end, and is returned; any other origin throws without moving |
| VirtualMemory.VirtualMemoryStream.SetLength | PCTools/VirtualMemoryStream.cs:296-299 | resizing is not supported |
| VirtualMemory.VirtualMemoryStream.Write | PCTools/VirtualMemoryStream.cs:314-317 | writing is not supported |
| VirtualMemory.VirtualMemoryStream.GetCurrentSection | PCTools/VirtualMemoryStream.cs:353-365 | the section holding the position, or an IOException naming the position when none does |
| VirtualMemory.VirtualMemoryStream.ReadUnderlying | PCTools/VirtualMemoryStream.cs:202-203 | the underlying read writes the file's bytes at the offset, none past the end of the file |
| VirtualMemory.VirtualMemoryStream.ZeroFill | PCTools/VirtualMemoryStream.cs:219-222 | the zero loop clears exactly the requested slice of the buffer |
| VirtualMemory.VirtualMemoryStream.Read | PCTools/VirtualMemoryStream.cs:158-254 | the argument checks in order (null buffer, negative offset, negative count, offset + count past the end), 0 for a zero count, otherwise the loop as written |
| VirtualMemory.VirtualMemoryStream.ReadSections | PCTools/VirtualMemoryStream.cs:189-253 | the loop of Read yields the result, position and buffer of the as-written definition |
| VirtualMemory.VirtualMemoryStream.ReadOneTurn | PCTools/VirtualMemoryStream.cs:191-250 | one loop turn makes the state change the as-written turn describes |
| VirtualMemory.VirtualMemoryStream.ReadAcrossSections | PCTools/VirtualMemoryStream.cs:158-254 | the corrected read: the same argument checks; then either all count bytes of the image are delivered and count returned, or it fails at the first unmapped address with the bytes before it in place |
| VirtualMemory.VirtualMemoryStream.ReadAcrossLoop | PCTools/VirtualMemoryStream.cs:189-253 | the corrected loop delivers the image's bytes up to the first unmapped address |
| VirtualMemory.VirtualMemoryStream.ReadNextChunk | PCTools/VirtualMemoryStream.cs:191-250 | one corrected turn places the next section's share after the bytes already in place, or fails at an unmapped address |
| VirtualMemory.VirtualMemoryStream.ReadChunk | PCTools/VirtualMemoryStream.cs:191-250 | a turn fails exactly when the position is unmapped; otherwise it places the current section's share of the request and moves past it |
| VirtualMemory.VirtualMemoryStream.CopySectionBytes | PCTools/VirtualMemoryStream.cs:199-246 | copying and clearing within one section yields the image's bytes there |
| Reading.PEReader.constructor | PCTools/PEReader.cs:52-65 | a reader over the mapped image with its export dictionary, an empty cache and an empty arena |
| Reading.PEReader.Open | PCTools/PEReader.cs:52-185 | opening succeeds exactly when the headers, the section table and the export table can be read; it fails as they fail |
| Reading.PEReader.GetExport | PCTools/PEReader.cs:217-224 | the address of an export, or 0 for a name not exported |
| Reading.PEReader.GetKnownObject | PCTools/PEReader.cs:235-242 | the instance decoded at an address, or null when none was |
| Reading.PEReader.ReadU16 | PCTools/PEReader.cs:993 | reading a word yields the memory's little-endian word and advances by 2 |
| Reading.PEReader.ReadU32 | PCTools/PEReader.cs:267 | reading a double word yields the memory's value and advances by 4 |
| Reading.PEReader.ReadI32 | PCTools/PEReader.cs:269 | reading an int yields the signed reading of the memory's double word and advances by 4 |
| Reading.PEReader.ReadRecord | PCTools/PEReader.cs:970-981 | reading a record yields the memory's bytes and advances by its size |
| Reading.PEReader.ReadVector3 | PCTools/PEReader.cs:1181-1188 | three single words from the memory, advancing by 12 |
| Reading.PEReader.ReadRotation3 | PCTools/PEReader.cs:1113-1120 | three signed angles from the memory, advancing by 12 |
| Reading.PEReader.ReadAddressPair | PCTools/PEReader.cs:267-268 | the two pointer words at consecutive addresses |
| Reading.PEReader.ReadTransform | PCTools/PEReader.cs:563-565 | the position, rotation and scale of an OBJECT at offsets 8, 20 and 32 |
| Reading.PEReader.ReadBounds | PCTools/PEReader.cs:279-281 | the centre, radius and trailing member of an ATTACH at offsets 24, 36 and 40 |
| Reading.PEReader.ReadMeshHeader | PCTools/PEReader.cs:992-994 | the material word, polygon count and polygon pointer that open a MESH |
| Reading.PEReader.ReadRecords | PCTools/PEReader.cs:689-703 | the loop of the value-array readers yields the records stored back to back |
| Reading.PEReader.ReadWords | PCTools/PEReader.cs:1129-1141 | the index loop of a strip yields the little-endian words stored there and advances by 2 per word |
| Reading.PEReader.ReadStrip | PCTools/PEReader.cs:1129-1141 | a strip is its header word (low 15 bits the count, bit 15 the direction) and that many indices |
| Reading.PEReader.ReadStrips | PCTools/PEReader.cs:1040-1072 | a strip array is its strips back to back, each sized by its own header |
| Reading.PEReader.ReadPlain | PCTools/PEReader.cs:449-463 | every value-array and polygon-array reader yields what the pure definition describes at the address |
| Reading.PEReader.Extract | PCTools/PEReader.cs:842-870 | address 0 is null and changes nothing; an address cached with the requested type yields that same instance and changes nothing; otherwise the instance is new, appended last, recorded with this address and request, decoded from them, and cached under the address; the position is restored, and recursion that runs out of fuel fails |
| Reading.PEReader.ExtractNew | PCTools/PEReader.cs:858-869 | the cache miss: the new instance is appended last, recorded with its address and request, decoded from them, and cached under the address; the position is restored |
| Reading.PEReader.Follow | PCTools/PEReader.cs:842-870 | a followed pointer yields a reference of the requested type, null exactly for address 0; an instance created by the call was decoded from this address with this request |
| Reading.PEReader.FollowPointer | PCTools/PEReader.cs:330 | a pointer field is the pointer word stored there, followed with the given request: null exactly for a zero word, else an instance of that address and, when new, decoded with that request |
| Reading.PEReader.FollowPointers | PCTools/PEReader.cs:566-567 | two consecutive pointer fields, each the word stored there followed with its own request, the second after the first |
| Reading.PEReader.FollowBoth | PCTools/PEReader.cs:270-271 | two pointers read earlier, followed in turn with the same request; each is null exactly for address 0 and otherwise of that address |
| Reading.PEReader.FollowCounted | PCTools/PEReader.cs:276-277 | a counted array: the count word stored there (16-bit or 32-bit), then the pointer followed with a request for that many elements |
| Reading.PEReader.FollowCountedPair | PCTools/PEReader.cs:274-277 | two counted arrays whose counts follow each other, each pointer followed with the request its count gives |
| Reading.PEReader.Decode | PCTools/PEReader.cs:257-787 | the decoder a request selects yields an instance of the requested type, named after its address, that is the plain array stored there or the structure whose record is there (fields at their offsets, references null exactly where the pointer word is 0); a negative capacity is refused first |
| Reading.PEReader.DecodeStructure | PCTools/PEReader.cs:257-381 | the structure and pointer-array readers yield an instance of the requested kind, named after the address, whose record and references are what the request describes there |
| Reading.PEReader.ReadAttach | PCTools/PEReader.cs:257-284 | an ATTACH is the 44-byte record at the address: the vertex and normal arrays followed with the count at +8, the meshes and materials with the 16-bit counts at +20 and +22, then the bounds |
| Reading.PEReader.ReadAttachArrays | PCTools/PEReader.cs:274-277 | the meshes and materials pointers, each followed with the 16-bit count stored after them |
| Reading.PEReader.ReadAttachVertices | PCTools/PEReader.cs:266-270 | the vertex and normal pointers, both followed with the count stored after them |
| Reading.PEReader.ReadObject | PCTools/PEReader.cs:553-570 | an OBJECT is the 52-byte record at the address: flags, the attach followed, position, rotation, scale, then child and sibling followed as objects; named "obj_" and the address in hex |
| Reading.PEReader.ReadAnimHead | PCTools/PEReader.cs:322-334 | an AnimHead is the model followed as an OBJECT and the motion followed with the vertex counts of the model's object tree; a null model throws |
| Reading.PEReader.ReadAnimHead2 | PCTools/PEReader.cs:350-381 | the frames are followed with the request the flags select (3: position and rotation, 7: with scales, 0x30: vertices and normals per model); any other flags value throws UnexpectedDataException |
| Reading.PEReader.ReadMesh | PCTools/PEReader.cs:990-1007 | a MESH is its 28-byte record: the polygons followed with the count and the type in the top two bits of the material word (never null), then the normal, colour and UV arrays followed with the polygons' vertex total; the reader then stands at the next record |
| Reading.PEReader.ReadMeshArrays | PCTools/PEReader.cs:1001-1005 | the polygon attributes, the normal, colour and UV arrays each followed with the given vertex total, and the trailing member |
| Reading.PEReader.ReadMeshes | PCTools/PEReader.cs:527-541 | a mesh array is its records laid out 28 bytes apart |
| Reading.PEReader.ReadNextMesh | PCTools/PEReader.cs:527-541 | one more mesh record at the next slot extends the laid-out run |
| Reading.PEReader.ReadVector3ArrayAnimDatas | PCTools/PEReader.cs:745-761 | a vertex-animation array is its 8-byte records, each a frame number and a pointer followed with the array's vector count |
| Reading.PEReader.ReadFrame | PCTools/PEReader.cs:881-961 | one frame record in the layout the request selects: its pointers followed with the counts stored after them (16 bytes, or 24 with scales); for vertices and normals, records of the model's vertex count of vectors and of one vector; the reader then stands at the next record |
| Reading.PEReader.ReadScaledFrame | PCTools/PEReader.cs:918-925 | the rest of a 24-byte frame with scales: positions, rotations and scales each followed with its own count |
| Reading.PEReader.ReadPosRotFrame | PCTools/PEReader.cs:890-895 | the rest of a 16-byte frame: positions and rotations each followed with its own count |
| Reading.PEReader.ReadVertNrmFrame | PCTools/PEReader.cs:950-954 | the rest of a vertex-and-normal frame: each pointer followed with the count stored after it, the vertex records holding the model's vertex count of vectors and the normal records one vector |
| Reading.PEReader.ReadFrames | PCTools/PEReader.cs:881-961 | a frame array is its frame records laid out in their slots |
| Reading.PEReader.ReadNextFrame | PCTools/PEReader.cs:881-961 | one more frame record at the next slot extends the laid-out run |
| Reading.PEReader.ReadPointers | PCTools/PEReader.cs:296-310 | a pointer array is one pointer per element, each followed in turn with the element request of its position |
| Reading.PEReader.SumVertices | PCTools/PEReader.cs:995-999 | the vertex-sum loop yields the total of the pure definition |
| Requests.VertexTotalDefined | PCTools/PEReader.cs:995-999 | the total is defined exactly when every polygon is present |
| Requests.VertexTotalMissing | PCTools/PEReader.cs:995-999 | a missing polygon makes the sum throw a NullReferenceException |
| Reading.PointerItems | PCTools/PEReader.cs:296-310 | a pointer array's collection holds exactly the references read, of the requested type |
| Requests.ValueItems | PCTools/PEReader.cs:449-761 | a value array holds one decoded element per record, of the requested type |
| Requests.StripsStep | PCTools/PEReader.cs:1040-1072 | a strip loop reads the next strip at its position and goes on after it, or fails there |
| Requests.PolysAt | PCTools/PEReader.cs:1040-1072 | a successful polygon-array read yields exactly count polygons |
| Requests.PlainAt | PCTools/PEReader.cs:449-463 | a negative capacity throws ArgumentOutOfRangeException; a successful read is a collection of the requested type |
| Requests.PlainEntityOk | PCTools/PEReader.cs:449-463 | a value array holds no reference, so it is well formed in any arena |
| Requests.PlainCapacity | PCTools/PEReader.cs:449-463 | a value array's capacity is its element count |
| Requests.PolyItems | PCTools/PEReader.cs:1040-1072 | a polygon array holds every polygon read, in order |
| Requests.Vector3AtBytes | PCTools/PEReader.cs:1181-1188 | a Vector3 is the three words of its 12-byte record |
| Requests.Rotation3AtBytes | PCTools/PEReader.cs:1113-1120 | a Rotation3 is the three signed words of its 12-byte record |
| Requests.FramesRequest | PCTools/PEReader.cs:363-376 | the motion flags select a frame request producing animation frames |
| Requests.ElementRequest | PCTools/PEReader.cs:296-787 | each pointer array requests elements of its element type |
| Requests.FrameRunSnoc | PCTools/PEReader.cs:881-961 | a frame read at the next slot extends a laid-out run of frames |
| Requests.MeshRunSnoc | PCTools/PEReader.cs:527-541 | a mesh read at the next 28-byte slot extends a laid-out run of meshes |
| Requests.CountedRequest | PCTools/PEReader.cs:275-276 | a counted array requests a collection of its kind |
| Decoding.RecordsAt | PCTools/PEReader.cs:689-703 | count records of the element size, or the failure of the first unreadable byte |
| Decoding.ReadBytesOfRun | PCTools/PEReader.cs:970-981 | readable bytes are read back as stored |
| Decoding.RecordsAtMeaning | PCTools/PEReader.cs:689-703 | a successful read of records is the records stored back to back |
| Decoding.RecordsAtOfLayout | PCTools/PEReader.cs:689-703 | conversely, records laid out back to back are read back one by one |
| Decoding.RecordsStep | PCTools/PEReader.cs:689-703 | a record loop reads one more record at its position, or fails with it |
| Decoding.WordsStep | PCTools/PEReader.cs:1134-1137 | a word loop reads one more word at its position, or fails with it |
| Decoding.WordsAtOfLayout | PCTools/PEReader.cs:1134-1137 | little-endian words stored from an address are read back |
| Decoding.StripAt | PCTools/PEReader.cs:1129-1141 | what the reader takes from memory for a strip is a strip |
| Decoding.StripAtOfToArray | Data/Strip.cs:65-80 | the words a strip encodes to are read back as that strip |
| Decoding.PolyRecordRoundTrip | PCTools/PEReader.cs:1096-1157 | a triangle's or quad's record is its vertex words, read back as the same polygon |
| Decoding.PreOrder | PCTools/PEReader.cs:796-824 | every member of the pre-order is an object, and the root comes first |
| Decoding.Concat | PCTools/PEReader.cs:813-821 | two count lists one after the other, or the first failure |
| Decoding.ConcatAssociative | PCTools/PEReader.cs:813-821 | joining count lists is associative, failures included |
| Decoding.CountsOfAppend | PCTools/PEReader.cs:796-824 | the counts of two object lists are their counts joined |
| Decoding.CountVerticesIsPreOrderFold | PCTools/PEReader.cs:796-824 | the recursive vertex count is the per-object contribution (none if ignored, 0 without a model, else the vertex count) over the tree's pre-order |
| Polys.NumberOfVertices | Data/Strip.cs:41-44 | 3 for a triangle, 4 for a quad, the length of a strip's index list |
| Polys.ToArray | Data/Strip.cs:65-80 | a triangle's or quad's vertices; a strip's header word then indices; more than 0x7FFF strip vertices overflow |
| Polys.ToArrayLength | Data/Triangle.cs:51-54 | a triangle or quad is as many words as it has vertices |
| Polys.StripToArray | Data/Strip.cs:65-80 | the array-filling encoding yields the strip's words, or the overflow |
| Polys.StripOfWords | PCTools/PEReader.cs:1129-1141 | the reader's strip from words has the header's low 15 bits as its vertex count |
| Polys.StripRoundTrip | Data/Strip.cs:65-80 | decoding the words of a strip gives the strip back |
| Polys.StripWordsRoundTrip | Data/Strip.cs:65-80 | encoding a decoded strip gives its words back |
| Polys.Accept | Data/Strip.cs:89-97 | a null visitor throws ArgumentNullException("visitor"); otherwise exactly the visit of the polygon's own type runs |
| Data.HeapAppend | PCTools/PEReader.cs:859-860 | appending a well-formed instance keeps the arena acyclic and well typed |
| Data.Vector3RoundTrip | PCTools/PEReader.cs:1181-1188 | a Vector3 is recovered from its 12 bytes |
| Data.Rotation3RoundTrip | PCTools/PEReader.cs:1113-1120 | a Rotation3 is recovered from its 12 bytes |
| Data.UVRoundTrip | PCTools/PEReader.cs:1166-1172 | a UV is recovered from its 4 bytes |
| Data.PolyNormalRoundTrip | PCTools/PEReader.cs:1081-1087 | a PolyNormal is recovered from its 8 bytes |
| Data.MaterialRoundTrip | PCTools/PEReader.cs:970-981 | a MATERIAL is recovered from its 20 bytes |
| Data.Vector3AnimDataRoundTrip | PCTools/PEReader.cs:715-732 | a Vector3AnimData is recovered from its 16 bytes |
| Data.Rotation3AnimDataRoundTrip | PCTools/PEReader.cs:634-651 | a Rotation3AnimData is recovered from its 16 bytes |
| Words.LE16Bytes16 | PCTools/PEReader.cs:993 | a 16-bit value is recovered from its little-endian bytes |
| Words.LE32Bytes32 | PCTools/PEReader.cs:267 | a 32-bit value is recovered from its little-endian bytes |
| Words.Int32 | PCTools/PEReader.cs:269 | a C# int is the two's-complement reading of its 32-bit pattern |
| Words.Int32Pattern | PCTools/PEReader.cs:269 | every int has exactly one 32-bit pattern |
| Words.Int16 | PCTools/PEReader.cs:1166-1172 | a C# short is the two's-complement reading of its 16-bit pattern |
| Words.AddU32 | PCTools/PEReader.cs:174 | unchecked uint addition wraps modulo 2^32 and is exact when it fits |
| Words.FieldsOfRecord | PCTools/PEReader.cs:970-981 | decoding a laid-out record gives every field back |
| Fnv.FnvFromSnoc | Data/FowlerNollVoHash.cs:29-40 | the hash is a left fold: one more byte is one more round (xor, then multiply by the prime modulo 2^32) |
| Fnv.FnvFromAppend | Data/FowlerNollVoHash.cs:29-40 | hashing a concatenation continues from the hash of the first part |
| Fnv.Fnv32 | Data/FowlerNollVoHash.cs:27-40 | the loop yields the FNV-1a hash of the first size bytes as a signed int; the offset basis when size is not positive |
| ExportTracking.ExportTracker.constructor | CExporter/ExportTracker.cs:20-45 | a new tracker has exported nothing |
| ExportTracking.ExportTracker.Add | CExporter/ExportTracker.cs:54-120 | true exactly when the instance was new; it is a member afterwards, and no other set changes |
| ExportTracking.AddTwice | CExporter/ExportTracker.cs:54-120 | adding the same instance twice answers false the second time; the tracker grows by that instance alone |
| CFormat.ValidateName | CExporter/CExporter.cs:1376-1402 | succeeds exactly for C identifiers; null, empty or bad characters throw ArgumentException |
| CFormat.FormatInteger | CExporter/CExporter.cs:1177-1295 | an optional minus sign and decimal digits that read back as the value |
| CFormat.FormatHex | CExporter/CExporter.cs:1302-1325 | "0x" and uppercase hex digits that read back as the value, exactly width digits for a value of that width |
| CFormat.FormatSingle | CExporter/CExporter.cs:1271-1285 | the round-trip digits, ".0" added when they have no point or exponent, then "f": the text always has a '.' or an 'E' before its final "f", and digits that already have one are kept as they are |
| CFormat.FlagsRoundTrip | CExporter/CExporter.cs:1125-1252 | compiling the C text of a flag word gives the word back: named bits plus the hex residue, zero as the "none" constant |
| CFormat.SetBitNamesNames | CExporter/CExporter.cs:1125-1252 | a bit is named in the text exactly when it is set |
| CFormat.SetBitNamesSum | CExporter/CExporter.cs:1125-1252 | the named set bits add up to the low named bits of the word |
| CFormat.ObjectFlagsRoundTrip | CExporter/CExporter.cs:1197-1252 | OBJECT flags as written compile back to the same 32 bits |
| CFormat.AnimHead2FlagsRoundTrip | CExporter/CExporter.cs:1125-1170 | AnimHead2 flags as written compile back to the same 16 bits |
| Text.ParseHexOfHex | CExporter/CExporter.cs:1302-1325 | the "X" format loses nothing: its digits read back as the value |
| Text.HexWidth | CExporter/CExporter.cs:1302-1325 | a value that fits in width digits is written with exactly width digits |
| Text.ParseDecimalOfDecimal | CExporter/CExporter.cs:1177-1190 | the invariant-culture integer text reads back exactly, negative values included |
| Text.JoinSnoc | CExporter/CExporter.cs:1169 | joining one more part appends the separator and the part |
| Text.SplitJoin | CExporter/CExporter.cs:1169 | splitting a joined text gives the parts back when no part holds the separator |
| CExport.ArrayTextReadBack | CExporter/CExporter.cs:569-583 | the initialisers of an array definition are read back in order from its text |
| CExport.ArrayTextEnd | CExporter/CExporter.cs:575-583 | no comma after the last initialiser: a line break, then the closing line |
| CExport.Initialisers | CExporter/CExporter.cs:571-581 | one initialiser per element, or the failure of an element that has none |
| CExport.InitialisersAppend | CExporter/CExporter.cs:571-581 | the initialisers of two runs are collected one after the other |
| CExport.WriteArray | CExporter/CExporter.cs:569-583 | the element loop writes the array definition of the elements, or fails with the first failing element |
| CExport.CheckNames | CExporter/CExporter.cs:1376-1402 | succeeds exactly when every non-null reference's name is a C identifier; otherwise fails with an invalid name |
| CExport.ExportMaterials | CExporter/CExporter.cs:263-307 | null throws ArgumentNullException("materials"), empty throws, else the linkage-qualified array of materials |
| CExport.ExportPolyNormals | CExporter/CExporter.cs:593-625 | null and empty rejected, else the array of poly normals |
| CExport.Rotation3AnimDatasText | CExporter/CExporter.cs:636-668 | null throws ArgumentNullException; the text exists exactly for a non-empty collection |
| CExport.ExportRotation3AnimDatas | CExporter/CExporter.cs:636-668 | the export yields that text |
| CExport.ExportColors | CExporter/CExporter.cs:678-706 | null and empty rejected, else one "0x" and eight hex digits per colour |
| CExport.ExportUVs | CExporter/CExporter.cs:715-747 | null and empty rejected, else the array of UVs |
| CExport.Vector3sText | CExporter/CExporter.cs:757-791 | null throws ArgumentNullException; the text exists exactly for a non-empty collection |
| CExport.ExportVector3s | CExporter/CExporter.cs:757-791 | the export yields that text |
| CExport.Vector3AnimDatasText | CExporter/CExporter.cs:814-846 | null throws ArgumentNullException; the text exists exactly for a non-empty collection |
| CExport.ExportVector3AnimDatas | CExporter/CExporter.cs:814-846 | the export yields that text |
| CExport.MeshInit | CExporter/CExporter.cs:349-436 | a mesh's initialiser exists exactly when its four array names are valid; a null poly array then throws NullReferenceException |
| CExport.ExportMeshes | CExporter/CExporter.cs:331-440 | null and empty rejected, else one initialiser per mesh |
| CExport.PointerInit | CExporter/CExporter.cs:1069-1118 | NULL for a null entry; otherwise "&name" for a structure or the name of an array, when the name is valid |
| CExport.ExportPointerCollection | CExporter/CExporter.cs:1069-1118 | null throws with the overload's parameter name; else the exported array of pointers |
| CExport.AttachCounts | CExporter/CExporter.cs:938-1052 | an ATTACH's vertex count is its vertex array's size, else its normal array's, else 0; a supplied material count replaces the material array's size |
| CExport.AttachText | CExporter/CExporter.cs:938-1052 | null throws; vertex and normal arrays of different lengths throw; every name is validated |
| CExport.ObjectText | CExporter/CExporter.cs:451-509 | null throws; the object, its attach, child and sibling must have valid names |
| CExport.AnimHeadText | CExporter/CExporter.cs:104-143 | null throws; a one-line definition holding the addresses of model and motion |
| CExport.AnimHead2Text | CExporter/CExporter.cs:166-195 | null throws; frames, frame count, flags as named constants, last word in hex |
| CExport.FirstStray | CExporter/CExporter.cs:549-566 | the first null or differently typed element from a position on |
| CExport.CheckHomogeneous | CExporter/CExporter.cs:549-566 | succeeds exactly when no element is null and all have the first one's type; otherwise the first problem met |
| CExport.Present | CExporter/CExporter.cs:549-566 | a collection without nulls, element for element |
| CExport.ListedJoin | CExporter/CExporter.cs:1652-1662 | the indices written so far and the next one are the decimals of the prefix, comma-separated |
| CExport.ListedStep | CExporter/CExporter.cs:1652-1662 | one index loop turn writes the next index and a separator, or ends the list after the last |
| CExport.VisitStrip | CExporter/CExporter.cs:1639-1663 | more than 0x7FFF vertices throw ArgumentException and an empty strip fails on its first index; otherwise the header line, then the comma-separated indices |
| CExport.AcceptPoly | CExporter/CExporter.cs:1615-1663 | each polygon's initialiser as the poly visitor writes it |
| CExport.ExportPolys | CExporter/CExporter.cs:537-584 | null, empty and inhomogeneous collections rejected, else the array of words |
| CExport.WritePolys | CExporter/CExporter.cs:569-583 | the poly loop writes the array definition of the polygons |
| CExport.StripInitWords | CExporter/CExporter.cs:1639-1663 | an exported strip holds exactly the words of its on-disk encoding |
| CExportTracked.EntityValid | PCTools/PEReader.cs:842-870 | every instance of a valid arena refers only to well-typed instances |
| CExportTracked.NewPointsOk | CExporter/CExporter.cs:886-902 | only Vector3 collections the array refers to get defined |
| CExportTracked.NewPointsOnce | CExporter/CExporter.cs:886-902 | each collection not exported before is defined once; none exported before is defined again |
| CExportTracked.NothingNew | CExporter/CExporter.cs:886-902 | an array whose collections were all exported defines none |
| CExportTracked.ExportedOnce | CExporter/CExporter.cs:865-922 | exporting the same array again with the same tracker defines nothing |
| CExportTracked.NewPointsPrefix | CExporter/CExporter.cs:886-902 | the collections defined for a prefix are a prefix of those for the whole array |
| CExportTracked.DefinitionsPrefix | CExporter/CExporter.cs:886-902 | a failing definition makes every longer run of definitions fail the same way |
| CExportTracked.AddPoints | CExporter/CExporter.cs:890-899 | one element's collection is recorded, and defined when it was new |
| CExportTracked.DefinitionsFail | CExporter/CExporter.cs:886-902 | a definition failing in the loop is the failure of the whole export |
| CExportTracked.ExportVector3ArrayAnimDatas | CExporter/CExporter.cs:865-922 | the text is the new collections' definitions then the array (the array alone without a tracker); the tracker records exactly the collections referred to |
| CExportTracked.WriteVector3ArrayAnimDatas | CExporter/CExporter.cs:886-921 | the element loop writes that text and grows the tracker by the collections referred to |
| CExportTracked.CTypeOfTag | CExporter/CExporter.cs:1351-1369 | two frames have the same C type exactly when they have the same run-time type |
| CExportTracked.PosRotScaleDefinitions | CExporter/CExporter.cs:1491-1545 | the visit of a scaled frame is its three dependencies in turn |
| CExportTracked.AnimFrameExporterVisitor.constructor | CExporter/CExporter.cs:1436-1441 | the visitor holds the text, the tracker and the previous definitions given |
| CExportTracked.AnimFrameExporterVisitor.Depend | CExporter/CExporter.cs:1449-1456 | a dependency's definition is appended to the previous definitions, or its failure returned |
| CExportTracked.AnimFrameExporterVisitor.DependOnVector3AnimDatas | CExporter/CExporter.cs:1449-1456 | a position or scale array is defined afresh when previous definitions are kept |
| CExportTracked.AnimFrameExporterVisitor.DependOnRotation3AnimDatas | CExporter/CExporter.cs:1458-1465 | a rotation array is defined afresh when previous definitions are kept |
| CExportTracked.AnimFrameExporterVisitor.DependOnVector3ArrayAnimDatas | CExporter/CExporter.cs:1553-1570 | a vertex or normal array goes through the tracked export, recording its collections |
| CExportTracked.AnimFrameExporterVisitor.VisitPosRot | CExporter/CExporter.cs:1447-1485 | the frame's dependencies, then its initialiser appended |
| CExportTracked.AnimFrameExporterVisitor.VisitPosRotScale | CExporter/CExporter.cs:1491-1545 | the frame's three dependencies, then its initialiser appended |
| CExportTracked.AnimFrameExporterVisitor.VisitVertNrm | CExporter/CExporter.cs:1551-1589 | the vertex and normal arrays through the tracked export, then the initialiser; the tracker grows by their collections |
| CExportTracked.AnimFrameExporterVisitor.Accept | CExporter/CExporter.cs:76 | the visit of the frame's own type |
| CExportTracked.FramesDefinitionsPrefix | CExporter/CExporter.cs:73-82 | a frame whose dependencies fail makes the whole export fail the same way |
| CExportTracked.FramesDefinitionsNext | CExporter/CExporter.cs:73-82 | one more frame visited extends the kept definitions and the recorded collections |
| CExportTracked.VisitKeepsSome | CExporter/CExporter.cs:64-68 | a visitor that keeps previous definitions goes on keeping them |
| CExportTracked.ExportAnimFrames | CExporter/CExporter.cs:34-93 | null, empty and inhomogeneous collections rejected; else the dependencies' definitions then the typed frame array; the tracker grows by the recorded collections |
| CExportTracked.VisitNext | CExporter/CExporter.cs:76 | the visit of frame i extends the visitor's state by that frame |
| CExportTracked.CloseFrames | CExporter/CExporter.cs:84-92 | the closing line, after the definitions the frames needed |
| CExportTracked.FrameStep | CExporter/CExporter.cs:73-82 | one loop turn: the visit, then a separator unless it was the last frame |
| CExportTracked.WriteFrames | CExporter/CExporter.cs:70-92 | the frame loop writes the definitions then the frame array, growing the tracker by the frames' collections |

## Left out

- I/O is not modelled. The file is a byte sequence, and a stream's position is a field.
- Reading.PEReader.Open: it takes the file's bytes, so the null-stream check of the constructor is not modelled.
- `Dispose`, `ThrowIfDisposed` and `ObjectDisposedException` are not modelled, because the model has no disposed state.
- `Flush` is not modelled, because it does nothing.
- Floating point is kept as 32-bit patterns. The "R" round-trip digits of a single are a function the caller supplies (`CFormat.Render`), because .NET's shortest round-trip conversion is not modelled.
- Export names are byte strings. `Encoding.Default` decoding is not modelled, because it depends on the machine's code page.
- AddressSpaces.ByteAt: the pure view of the image reads with the corrected stream (see Findings). Where a section's raw data runs past the end of the file, it reports `EndOfStream`. That failure is an abstraction of this model, not the source's behaviour. The stream's `Read` ignores what the file read returns and reports the full count (PCTools/VirtualMemoryStream.cs:202-205, 253), so there the source goes on with zero or stale bytes. The members affected are `AddressSpaces.ByteAt`, `PEHeaders.CString` and `Reading.PEReader.Open`. For example, `CString` (and so `Open`) fails with `EndOfStream` where the source's byte-by-byte name loop reads a 0 and ends the name.
- AddressSpaces.ByteAt: a section ends at its VirtualSize, both in the pure view and in the corrected read. The source differs when SizeOfRawData is larger than VirtualSize. A read that starts in the section and ends before the end of the raw data is copied whole from the file (PCTools/VirtualMemoryStream.cs:199-205), so it can return file bytes past VirtualSize. A read that runs past the end of the raw data first copies file bytes up to it (lines 208-213), also past VirtualSize. For example, take image base 0x400000 and a section at RVA 0x1000 with VirtualSize 0x1100 and SizeOfRawData 0x1200. A read of 0x20 bytes at 0x4020F0 returns 32 file bytes in the source and fails with `OutOfSection` here. The as-written `VirtualMemory.ReadTurn` keeps the source's behaviour.
- VirtualMemory.VirtualMemoryStream.ReadAcrossSections: it ends each section at its VirtualSize, as `AddressSpaces.ByteAt` above. So where SizeOfRawData is larger than VirtualSize, it fails or moves to the next section where the source still copies file bytes. This is a simplification of the model, separate from the correction under Findings.
- VirtualMemory.VirtualMemoryStream.ReadChunk: one turn of the corrected read, so it ends the section at VirtualSize, as `ReadAcrossSections`.
- Reading.PEReader.ReadU16: it reads through the corrected pure view (`AddressSpaces.ReadBytes`). The source reads through a BinaryReader over the as-written stream `Read` (PCTools/VirtualMemoryStream.cs:189-253, and `VirtualMemory.ReadTurn`). The two differ in two cases. First, a word that ends exactly at a section's end. There the stream's `Read` fills the bytes but then returns 0 when another section starts at that end, so BinaryReader throws EndOfStreamException. It throws IOException when no section starts there. The model returns the word. Second, a word that straddles two adjacent sections. There `Read` writes the second section's bytes over the start of the buffer and returns a residual count, and BinaryReader reads the rest from a position that has already moved on. The model returns the image's bytes. Take the single 16-byte section of the Findings row (RVA 0x1000, image base 0x400000): reading at 0x40100E throws IOException in the source and succeeds here.
- Reading.PEReader.ReadU32: it differs from the source in the same two cases as `Reading.PEReader.ReadU16`. For example, `ReadU32` at 0x40100C in that 16-byte section throws IOException in the source and returns `Ok(value)` here.
- Reading.PEReader.ReadI32: it differs from the source in the same two cases as `Reading.PEReader.ReadU16`, for an int ending at a section's end or straddling two sections.
- Reading.PEReader.ReadRecord: it differs from the source in the same two cases as `Reading.PEReader.ReadU16`. A record ending exactly at a section's end throws in the source. A record straddling two sections gets the next section's bytes at its start, where the model returns the image's bytes.
- Reading.PEReader.Extract: every decoder built on `ReadU16`, `ReadU32`, `ReadI32` and `ReadRecord` inherits those differences, so a structure whose fields meet a section boundary decodes here and fails or misreads in the source. The affected decoders are `ReadVector3`, `ReadRotation3`, `ReadAddressPair`, `ReadTransform`, `ReadBounds`, `ReadMeshHeader`, `ReadRecords`, `ReadWords`, `ReadStrip`, `ReadStrips`, `ReadPlain`, `Decode` and the structure readers.
- PEHeaders.ReadCString: it reads bytes through the pure view. The source's `ReadByte` is a one-byte stream `Read`. On a section's last byte, that `Read` returns 0 when another section follows, so `ReadByte` returns -1. The name loop (PCTools/PEReader.cs:168) then stops and drops that byte. When no section follows, the source throws IOException. The model keeps the byte and goes on into the next section.
- PEHeaders.Table: the export directory and the tables are read through the pure view. The source reads them with the as-written stream `Read` and ignores what it returns (PCTools/PEReader.cs:130, 139, 147, 155). A table that ends exactly at a section's end throws IOException in the source when no section follows; the model returns the bytes. A table straddling two sections has the second section's bytes written over its start in the source; the model returns the image's bytes. `PEHeaders.ReadExportTables` and `Reading.PEReader.Open` inherit both differences.
- VirtualMemory.VirtualMemoryStream.Seek: the stream position is an unbounded `int`, where the source keeps a C# `long` (PCTools/VirtualMemoryStream.cs:37). A `Seek` or a position update that would pass 2^63 wraps in the source and does not wrap here. The same holds for `VirtualMemory.VirtualMemoryStream.SetPosition`.
- VirtualMemory.VirtualMemoryStream.Read: `offset` and `count` are unbounded integers. In the source `offset + count > buffer.Length` is 32-bit arithmetic (PCTools/VirtualMemoryStream.cs:175). A sum above `int.MaxValue` wraps to a negative number, so the check passes and the source goes on into the loop. The model rejects those inputs with the `Argument` error.
- PEHeaders.ReadExportTables: the name and ordinal tables are sized with unbounded products, 4 and 2 bytes per name. In the source these are `uint` products that wrap modulo 2^32 once there are 2^30 names or more (PCTools/PEReader.cs:146-147, 154-155). The buffer is then shorter than the name count needs, and the loop over the names reads past it through raw pointers (lines 161-174), which has no defined result. The model fails such a directory with `Overflow` instead. The function table's size wraps as in the source.
- PEHeaders.Table: it is given the byte count the caller computed, so a name or ordinal table of 2^30 names or more overflows here, as `PEHeaders.ReadExportTables` above says.
- Reading.PEReader.Open: an export directory with 2^30 names or more fails with `Overflow`, as `PEHeaders.ReadExportTables` above says.
- CFormat.FormatSingle: for NaN and the infinities, the round-trip digits are "NaN", "Infinity" and "-Infinity". The result ("NaN.0f" and so on) is not a C literal. The model states only what the source guarantees: a '.' or an 'E' before the final "f".
- Reading.PEReader.Extract: the depth of nested decoding is bounded by a `fuel` parameter. When it runs out the result is `RecursionLimit`, which stands for the stack overflow unbounded recursion would give.
- Reading.PEReader.Extract: the `knownObject == null` case of the cache check is not modelled, because no decoder stores null.
- CFormat.ValidateName: the exception's message and parameter name are swapped in the source. The model keeps only the invalid name.
- CExportTracked.ExportVector3ArrayAnimDatas: the tracker's state after a failed export is not specified, except that the other kinds of instance are unchanged.
- CExportTracked.ExportAnimFrames: the tracker's state after a failed export is not specified, except that the other kinds of instance are unchanged.
- CExportTracked.AnimFrameExporterVisitor.Accept: the unknown-frame-type branch is not modelled, because the frame datatype has exactly three cases.
- CExportTracked.AnimFrameExporterVisitor.VisitPosRotScale: it does not state the tracker, because the position, rotation and scale arrays do not go through it.
- The GUI, `DecompilationOperation` and the other tools are not part of this model.

## Findings

| source | as written | input that shows it | evidently intended | confidence | as-written member | corrected member |
|---|---|---|---|---|---|---|
| PCTools/VirtualMemoryStream.cs:241-253 | A read that ends exactly at the end of its section (past the raw data) clears the bytes and then loops again with a count of 0 at the section's end. It returns 0 if a section starts there, and throws an IOException if none does. | One section of 16 bytes at RVA 0x1000, image base 0x400000, raw data 16 bytes. Reading 4 bytes at 0x40100C fills them and then throws for 0x401010. | Deliver the count bytes and return count. A read that goes on into the next section continues at the next buffer offset. (The corrected member also ends each section at its VirtualSize. That simplification is not part of this finding; see `AddressSpaces.ByteAt` under Left out.) | high, not executed | VirtualMemory.ReadToSectionEnd | VirtualMemory.VirtualMemoryStream.ReadAcrossSections |
