// The headers of a PE image as the image reader checks them (sections 3.1 to 3.4 of the
// Microsoft PE/COFF specification), the section table it turns into an ordered set, and
// the export table (section 6.3, ".edata") it turns into a name -> address map.
module PEHeaders {
  import opened Wrappers
  import opened Words
  import opened ImageSections
  import opened AddressSpaces

  const DosHeaderSize: nat := 64
  const MZMagic: u16 := 0x5A4D
  const PEMagic: u32 := 0x4550
  const FileHeaderSize: nat := 20
  /** sizeof(ImageOptionalHeader32), the only optional-header size accepted. */
  const OptionalHeaderSize: nat := 224
  const PE32Magic: u16 := 0x10B
  const ExportDirectorySize: nat := 40
  /** The largest byte-array length an x86 process can allocate without an overflow. */
  const MaxArrayLength: nat := 0x7FFF_FFFF

  /**
   * `n` bytes of the file from `pos` as a plain stream read leaves them in a fresh
   * buffer: the bytes the file has, zero past its end.
   */
  function RawRead(file: seq<u8>, pos: nat, n: nat): (b: seq<u8>)
    ensures |b| == n
    ensures pos + n <= |file| ==> b == file[pos..pos + n]
    ensures pos >= |file| ==> forall i :: 0 <= i < n ==> b[i] == 0
  {
    seq(n, i requires 0 <= i < n => if pos + i < |file| then file[pos + i] else 0)
  }

  /** What the reader keeps of the headers. */
  datatype ImageHeaders = ImageHeaders(
    numberOfSections: u16,
    imageBase: u32,
    exportDirectoryAddress: u32,
    sectionTableOffset: nat)

  /** AddressOfNewExeHeader: where the DOS header (at 0x3C) says the PE signature is. */
  function NewHeaderOffset(file: seq<u8>): u32
  {
    LE32(RawRead(file, 0x3C, 4))
  }

  predicate HasDosMagic(file: seq<u8>)
  {
    LE16(RawRead(file, 0, 2)) == MZMagic
  }

  /** The four bytes of the signature are in the file. */
  predicate HasSignatureBytes(file: seq<u8>)
  {
    NewHeaderOffset(file) + 4 <= |file|
  }

  predicate HasPESignature(file: seq<u8>)
    requires HasSignatureBytes(file)
  {
    var lfanew := NewHeaderOffset(file);
    LE32(file[lfanew..lfanew + 4]) == PEMagic
  }

  /** SizeOfOptionalHeader, at offset 16 of the COFF header that follows the signature. */
  predicate HasOptionalHeaderSize(file: seq<u8>)
  {
    LE16(RawRead(file, NewHeaderOffset(file) + 4 + 16, 2)) == OptionalHeaderSize
  }

  predicate HasPE32Magic(file: seq<u8>)
  {
    LE16(RawRead(file, NewHeaderOffset(file) + 24, 2)) == PE32Magic
  }

  /**
   * The header checks, in the order the reader makes them: the DOS magic, the PE
   * signature (a four-byte read that fails at the end of the file), the size of the
   * optional header and its PE32 magic. Each check that fails, the earlier ones
   * having passed, raises its own error. The section table follows the optional header.
   */
  function ParseHeaders(file: seq<u8>): (r: Result<ImageHeaders>)
    ensures !HasDosMagic(file) <==> r == Err(Argument(NoDosHeader))
    ensures HasDosMagic(file) && !HasSignatureBytes(file) <==> r == Err(EndOfStream)
    ensures HasDosMagic(file) && HasSignatureBytes(file) && !HasPESignature(file)
            <==> r == Err(Argument(NoPeHeader))
    ensures HasDosMagic(file) && HasSignatureBytes(file) && HasPESignature(file) && !HasOptionalHeaderSize(file)
            <==> r == Err(Argument(UnexpectedOptionalHeaderSize))
    ensures HasDosMagic(file) && HasSignatureBytes(file) && HasPESignature(file) && HasOptionalHeaderSize(file)
            && !HasPE32Magic(file)
            <==> r == Err(Argument(UnexpectedOptionalHeaderMagic))
    ensures r.Ok? <==> HasDosMagic(file) && HasSignatureBytes(file) && HasPESignature(file)
                       && HasOptionalHeaderSize(file) && HasPE32Magic(file)
    ensures r.Ok? ==> var lfanew := NewHeaderOffset(file);
      && r.value.numberOfSections == LE16(RawRead(file, lfanew + 4 + 2, 2))
      && r.value.imageBase == LE32(RawRead(file, lfanew + 24 + 28, 4))
      && r.value.exportDirectoryAddress == LE32(RawRead(file, lfanew + 24 + 96, 4))
      && r.value.sectionTableOffset == lfanew + 24 + OptionalHeaderSize
  {
    var dos := RawRead(file, 0, DosHeaderSize);
    assert dos[0..2] == RawRead(file, 0, 2);
    assert dos[0x3C..0x40] == RawRead(file, 0x3C, 4);
    if LE16(dos[0..2]) != MZMagic then Err(Argument(NoDosHeader))
    else
      var lfanew := LE32(dos[0x3C..0x40]);
      if lfanew + 4 > |file| then Err(EndOfStream)
      else if LE32(file[lfanew..lfanew + 4]) != PEMagic then Err(Argument(NoPeHeader))
      else
        var coff := RawRead(file, lfanew + 4, FileHeaderSize);
        assert coff[16..18] == RawRead(file, lfanew + 4 + 16, 2);
        assert coff[2..4] == RawRead(file, lfanew + 4 + 2, 2);
        if LE16(coff[16..18]) != OptionalHeaderSize then Err(Argument(UnexpectedOptionalHeaderSize))
        else
          var optional := RawRead(file, lfanew + 24, OptionalHeaderSize);
          assert optional[0..2] == RawRead(file, lfanew + 24, 2);
          assert optional[28..32] == RawRead(file, lfanew + 24 + 28, 4);
          assert optional[96..100] == RawRead(file, lfanew + 24 + 96, 4);
          if LE16(optional[0..2]) != PE32Magic then Err(Argument(UnexpectedOptionalHeaderMagic))
          else Ok(ImageHeaders(LE16(coff[2..4]), LE32(optional[28..32]), LE32(optional[96..100]),
                               lfanew + 24 + OptionalHeaderSize))
  }

  /** The smallest image the checks accept: a DOS header pointing just past itself, the signature, a COFF header and a PE32 optional header. */
  function MinimalImage(numberOfSections: u16, imageBase: u32, exportDirectoryAddress: u32): (file: seq<u8>)
    ensures |file| == DosHeaderSize + 4 + FileHeaderSize + OptionalHeaderSize
  {
    var dos := Bytes16(MZMagic) + Zeros(58) + Bytes32(DosHeaderSize as u32);
    var signature := Bytes32(PEMagic);
    var coff := Bytes16(0x14C) + Bytes16(numberOfSections) + Zeros(12) + Bytes16(OptionalHeaderSize as u16) + Zeros(2);
    var optional := Bytes16(PE32Magic) + Zeros(26) + Bytes32(imageBase) + Zeros(64) + Bytes32(exportDirectoryAddress) + Zeros(124);
    dos + signature + coff + optional
  }

  function Zeros(n: nat): (z: seq<u8>)
    ensures |z| == n && forall i :: 0 <= i < n ==> z[i] == 0
  {
    seq(n, i => 0)
  }

  /** An image laid out as the PE/COFF specification says is accepted, and the reader recovers the fields stored in it. */
  lemma ParseMinimalImage(numberOfSections: u16, imageBase: u32, exportDirectoryAddress: u32, rest: seq<u8>)
    ensures ParseHeaders(MinimalImage(numberOfSections, imageBase, exportDirectoryAddress) + rest)
      == Ok(ImageHeaders(numberOfSections, imageBase, exportDirectoryAddress, DosHeaderSize + 4 + FileHeaderSize + OptionalHeaderSize))
  {
    var image := MinimalImage(numberOfSections, imageBase, exportDirectoryAddress);
    var file := image + rest;
    var dos := RawRead(file, 0, DosHeaderSize);
    assert dos == image[0..64];
    assert dos[0..2] == Bytes16(MZMagic);
    assert dos[0x3C..0x40] == Bytes32(64);
    LE16Bytes16(MZMagic);
    LE32Bytes32(64);
    assert file[64..68] == Bytes32(PEMagic);
    LE32Bytes32(PEMagic);
    var coff := RawRead(file, 68, FileHeaderSize);
    assert coff == image[68..88];
    assert coff[2..4] == Bytes16(numberOfSections);
    assert coff[16..18] == Bytes16(OptionalHeaderSize as u16);
    LE16Bytes16(numberOfSections);
    LE16Bytes16(OptionalHeaderSize as u16);
    var optional := RawRead(file, 88, OptionalHeaderSize);
    assert optional == image[88..312];
    assert optional[0..2] == Bytes16(PE32Magic);
    assert optional[28..32] == Bytes32(imageBase);
    assert optional[96..100] == Bytes32(exportDirectoryAddress);
    LE16Bytes16(PE32Magic);
    LE32Bytes32(imageBase);
    LE32Bytes32(exportDirectoryAddress);
  }

  // The section table

  /** The section described by the `i`-th header of the table. */
  function HeaderAt(table: seq<u8>, i: nat): ImageSection
    requires SectionHeaderSize * (i + 1) <= |table|
  {
    FromHeader(table[SectionHeaderSize * i..SectionHeaderSize * (i + 1)])
  }

  /** The sections described by the `n` headers of the table, in table order. */
  function Headers(table: seq<u8>, n: nat): (hs: seq<ImageSection>)
    requires |table| == SectionHeaderSize * n
    ensures |hs| == n && forall i :: 0 <= i < n ==> hs[i] == HeaderAt(table, i)
  {
    seq(n, i requires 0 <= i < n => HeaderAt(table, i))
  }

  /** The sorted set after adding the headers `hs` in order. */
  function SectionSet(hs: seq<ImageSection>): seq<ImageSection>
  {
    if hs == [] then [] else Insert(SectionSet(hs[..|hs| - 1]), hs[|hs| - 1])
  }

  /** The virtual addresses present in a set of sections. */
  function Addresses(ss: seq<ImageSection>): set<u32>
  {
    set s | s in ss :: s.virtualAddress
  }

  /** No header before the `i`-th one has its virtual address. */
  predicate FirstWithAddress(hs: seq<ImageSection>, i: nat)
    requires i < |hs|
  {
    forall j :: 0 <= j < i ==> hs[j].virtualAddress != hs[i].virtualAddress
  }

  /** Every member of `ss` is one of the headers, the first with its virtual address. */
  ghost predicate Kept(hs: seq<ImageSection>, ss: seq<ImageSection>)
  {
    forall s :: s in ss ==> exists i :: 0 <= i < |hs| && s == hs[i] && FirstWithAddress(hs, i)
  }

  /** The set is sorted and holds nothing but headers. */
  lemma {:induction false} SectionSetSorted(hs: seq<ImageSection>)
    ensures Sorted(SectionSet(hs))
    ensures forall s :: s in SectionSet(hs) ==> s in hs
    decreases |hs|
  {
    if hs != [] {
      var prefix := hs[..|hs| - 1];
      SectionSetSorted(prefix);
      InsertSorted(SectionSet(prefix), hs[|hs| - 1]);
      forall s | s in SectionSet(hs) ensures s in hs {
        if s in prefix {
          var i :| 0 <= i < |prefix| && prefix[i] == s;
          assert hs[i] == s;
        }
      }
    }
  }

  /** Adding to the set adds the section's virtual address and no other. */
  lemma {:induction false} InsertAddresses(ss: seq<ImageSection>, s: ImageSection)
    ensures Addresses(Insert(ss, s)) == Addresses(ss) + {s.virtualAddress}
    decreases |ss|
  {
    if ss != [] && s.virtualAddress > ss[0].virtualAddress {
      InsertAddresses(ss[1..], s);
      assert ss == [ss[0]] + ss[1..];
      assert Addresses(ss) == {ss[0].virtualAddress} + Addresses(ss[1..]);
      assert Addresses(Insert(ss, s)) == {ss[0].virtualAddress} + Addresses(Insert(ss[1..], s));
    } else if ss != [] && s.virtualAddress == ss[0].virtualAddress {
      assert ss[0] in ss;
    }
  }

  /** The set holds exactly the virtual addresses of the headers: none is lost, none is made up. */
  lemma {:induction false} SectionSetAddresses(hs: seq<ImageSection>)
    ensures Addresses(SectionSet(hs)) == Addresses(hs)
    decreases |hs|
  {
    if hs != [] {
      var prefix := hs[..|hs| - 1];
      SectionSetAddresses(prefix);
      InsertAddresses(SectionSet(prefix), hs[|hs| - 1]);
      assert hs == prefix + [hs[|hs| - 1]];
      assert Addresses(hs) == Addresses(prefix) + {hs[|hs| - 1].virtualAddress};
    }
  }

  /** A header that is first with its virtual address among a prefix is first among all headers. */
  lemma FirstInPrefix(hs: seq<ImageSection>, k: nat, i: nat)
    requires i < k <= |hs| && FirstWithAddress(hs[..k], i)
    ensures FirstWithAddress(hs, i)
  {
    forall j | 0 <= j < i ensures hs[j].virtualAddress != hs[i].virtualAddress {
      assert hs[..k][j] == hs[j] && hs[..k][i] == hs[i];
    }
  }

  /** Each member of the set is the first header with its virtual address: later duplicates are dropped. */
  lemma {:induction false} SectionSetKept(hs: seq<ImageSection>)
    ensures Kept(hs, SectionSet(hs))
    decreases |hs|
  {
    if hs != [] {
      var k := |hs|;
      var prefix := hs[..k - 1];
      SectionSetKept(prefix);
      SectionSetSorted(prefix);
      var before := SectionSet(prefix);
      var h := hs[k - 1];
      InsertSorted(before, h);
      var after := Insert(before, h);
      forall s | s in after ensures exists i :: 0 <= i < k && s == hs[i] && FirstWithAddress(hs, i) {
        if s in before {
          var i :| 0 <= i < k - 1 && s == prefix[i] && FirstWithAddress(prefix, i);
          FirstInPrefix(hs, k - 1, i);
        } else {
          assert s == h;
          forall j | 0 <= j < k - 1 ensures hs[j].virtualAddress != h.virtualAddress {
            assert prefix[j] == hs[j];
            if hs[j].virtualAddress == h.virtualAddress {
              SectionSetAddresses(prefix);
              assert prefix[j] in prefix;
              assert h.virtualAddress in Addresses(before);
              var t :| t in before && t.virtualAddress == hs[j].virtualAddress;
              var m :| 0 <= m < |before| && before[m] == t;
              InsertPresent(before, h, m);
            }
          }
          assert FirstWithAddress(hs, k - 1);
        }
      }
    }
  }

  /** The section loop: each header of the table is added to the sorted set in turn. */
  method ReadSections(table: seq<u8>, numberOfSections: nat) returns (sections: seq<ImageSection>)
    requires |table| == SectionHeaderSize * numberOfSections
    ensures sections == SectionSet(Headers(table, numberOfSections))
    ensures Sorted(sections)
  {
    ghost var hs := Headers(table, numberOfSections);
    sections := [];
    var i := 0;
    while i < numberOfSections
      invariant 0 <= i <= numberOfSections
      invariant sections == SectionSet(hs[..i])
    {
      assert hs[..i + 1][..i] == hs[..i];
      sections := Insert(sections, HeaderAt(table, i));
      i := i + 1;
    }
    assert hs[..numberOfSections] == hs;
    SectionSetSorted(hs);
  }

  // Export names

  /** The end of the highest section: no address at or past it is mapped. */
  function MaxEnd(sections: seq<ImageSection>, imageBase: int): int
  {
    if sections == [] then imageBase
    else
      var rest := MaxEnd(sections[1..], imageBase);
      if EndOfSection(imageBase, sections[0]) > rest then EndOfSection(imageBase, sections[0]) else rest
  }

  lemma {:induction false} MappedBelowMaxEnd(sections: seq<ImageSection>, imageBase: int, addr: int)
    requires FindSection(sections, imageBase, addr).Some?
    ensures addr < MaxEnd(sections, imageBase)
  {
    if !Maps(imageBase, sections[0], addr) {
      MappedBelowMaxEnd(sections[1..], imageBase, addr);
    }
  }

  /**
   * The name the reader collects from `pos`: bytes up to, and not including, the first
   * zero byte; a byte that cannot be read ends the collection with its failure.
   */
  function CString(space: AddressSpace, pos: int): Result<seq<u8>>
    decreases MaxEnd(space.sections, space.imageBase) - pos
  {
    match ByteAt(space, pos)
    case Err(e) => Err(e)
    case Ok(b) =>
      if b == 0 then Ok([])
      else
        MappedBelowMaxEnd(space.sections, space.imageBase, pos);
        match CString(space, pos + 1)
        case Err(e) => Err(e)
        case Ok(rest) => Ok([b] + rest)
  }

  /** A collected name is followed by a zero byte... */
  lemma {:induction false} CStringEnds(space: AddressSpace, pos: int)
    requires CString(space, pos).Ok?
    ensures ByteAt(space, pos + |CString(space, pos).value|) == Ok(0)
    decreases MaxEnd(space.sections, space.imageBase) - pos
  {
    if ByteAt(space, pos).value != 0 {
      MappedBelowMaxEnd(space.sections, space.imageBase, pos);
      CStringEnds(space, pos + 1);
      assert pos + |CString(space, pos).value| == pos + 1 + |CString(space, pos + 1).value|;
    }
  }

  /** ...and it is the run of non-zero bytes at `pos`. */
  lemma {:induction false} CStringMeaning(space: AddressSpace, pos: int)
    requires CString(space, pos).Ok?
    ensures var name := CString(space, pos).value;
      forall i :: 0 <= i < |name| ==> name[i] != 0 && ByteAt(space, pos + i) == Ok(name[i])
    decreases MaxEnd(space.sections, space.imageBase) - pos
  {
    var b := ByteAt(space, pos).value;
    if b != 0 {
      MappedBelowMaxEnd(space.sections, space.imageBase, pos);
      CStringMeaning(space, pos + 1);
      var rest := CString(space, pos + 1).value;
      var name := CString(space, pos).value;
      assert name == [b] + rest;
      forall i | 0 <= i < |name| ensures name[i] != 0 && ByteAt(space, pos + i) == Ok(name[i]) {
        if i > 0 {
          assert name[i] == rest[i - 1];
          assert pos + i == (pos + 1) + (i - 1);
        }
      }
    }
  }

  /** Conversely, a run of non-zero bytes ended by a zero byte is collected as the name. */
  lemma {:induction false} CStringOfRun(space: AddressSpace, pos: int, name: seq<u8>)
    requires ByteAt(space, pos + |name|) == Ok(0)
    requires forall i :: 0 <= i < |name| ==> name[i] != 0 && ByteAt(space, pos + i) == Ok(name[i])
    ensures CString(space, pos) == Ok(name)
    decreases |name|
  {
    if name != [] {
      var b, rest := name[0], name[1..];
      forall i | 0 <= i < |rest| ensures rest[i] != 0 && ByteAt(space, pos + 1 + i) == Ok(rest[i]) {
        assert rest[i] == name[i + 1] && pos + 1 + i == pos + (i + 1);
      }
      assert pos + 1 + |rest| == pos + |name|;
      CStringOfRun(space, pos + 1, rest);
      assert ByteAt(space, pos) == Ok(b) && b != 0;
      assert CString(space, pos) == Ok([b] + rest);
      assert [b] + rest == name;
    }
  }

  /** The name-reading loop: one byte at a time until a zero byte. */
  method ReadCString(space: AddressSpace, pos: int) returns (r: Result<seq<u8>>)
    ensures r == CString(space, pos)
  {
    var name: seq<u8> := [];
    var p := pos;
    assert CString(space, pos).Ok? ==> [] + CString(space, pos).value == CString(space, pos).value;
    while true
      invariant CString(space, pos) == Prepended(name, CString(space, p))
      decreases MaxEnd(space.sections, space.imageBase) - p
    {
      var b := ByteAt(space, p);
      if b.Err? {
        return b.PropagateFailure();
      }
      if b.value == 0 {
        assert name + [] == name;
        return Ok(name);
      }
      MappedBelowMaxEnd(space.sections, space.imageBase, p);
      var rest := CString(space, p + 1);
      assert rest.Ok? ==> name + [b.value] + rest.value == name + ([b.value] + rest.value);
      name := name + [b.value];
      p := p + 1;
    }
  }

  // The export table

  datatype ExportDirectory = ExportDirectory(
    numberOfFunctions: u32,
    numberOfNames: u32,
    addressOfFunctions: u32,
    addressOfNames: u32,
    addressOfNameOrdinals: u32)

  /** The fields the reader uses from the 40-byte export directory. */
  function ExportDirectoryOf(b: seq<u8>): ExportDirectory
    requires |b| == ExportDirectorySize
  {
    ExportDirectory(LE32(b[20..24]), LE32(b[24..28]), LE32(b[28..32]), LE32(b[32..36]), LE32(b[36..40]))
  }

  /** The three tables the export map is built from, as read into their buffers. */
  datatype ExportTables = ExportTables(functions: seq<u8>, names: seq<u8>, ordinals: seq<u8>, numberOfNames: nat)
  {
    ghost predicate Valid()
    {
      |names| == 4 * numberOfNames && |ordinals| == 2 * numberOfNames
    }
  }

  /**
   * A table of `size` bytes read from `addr`: an allocation too large for an array
   * overflows, and an empty table reads nothing at all.
   */
  function Table(space: AddressSpace, addr: int, size: nat): (r: Result<seq<u8>>)
    ensures r.Ok? ==> |r.value| == size
    ensures size > MaxArrayLength <==> r == Err(Overflow)
    ensures size == 0 ==> r == Ok([])
  {
    if size > MaxArrayLength then Err(Overflow)
    else
      SpaceBytes(space, addr, size)
  }

  /**
   * Reads the export directory at the directory address and the three tables it points to.
   * The function table's size is the `uint` product of 4 and the function count, so it
   * wraps modulo 2^32. The ordinal buffer is allocated at 4 bytes per name but only 2
   * bytes per name are read into it and used, so it is modelled at its used length.
   */
  function ReadExportTables(space: AddressSpace, imageBase: u32, directoryAddress: u32): (r: Result<ExportTables>)
    ensures r.Ok? ==> r.value.Valid()
    ensures r.Ok? ==>
      var d := SpaceBytes(space, imageBase + directoryAddress, ExportDirectorySize);
      d.Ok? && |r.value.functions| == MulU32(4, ExportDirectoryOf(d.value).numberOfFunctions) as int
  {
    var dirBytes :- SpaceBytes(space, imageBase + directoryAddress, ExportDirectorySize);
    var dir := ExportDirectoryOf(dirBytes);
    var functions :- Table(space, imageBase + dir.addressOfFunctions, MulU32(4, dir.numberOfFunctions));
    var names :- Table(space, imageBase + dir.addressOfNames, 4 * dir.numberOfNames);
    var ordinals :- Table(space, imageBase + dir.addressOfNameOrdinals, 2 * dir.numberOfNames);
    Ok(ExportTables(functions, names, ordinals, dir.numberOfNames))
  }

  /** The value stored in the function table for the ordinal, or an undefined read past its end. */
  function FunctionAt(t: ExportTables, ordinal: u16): (r: Result<u32>)
    ensures r.Ok? <==> 4 * ordinal + 4 <= |t.functions|
    ensures r.Err? ==> r.error == OutsideBuffer
  {
    if 4 * ordinal + 4 <= |t.functions| then Ok(LE32(t.functions[4 * ordinal..4 * ordinal + 4])) else Err(OutsideBuffer)
  }

  /** Where the `i`-th name pointer points, relative to ImageBase. */
  function NamePointer(t: ExportTables, i: nat): u32
    requires t.Valid() && i < t.numberOfNames
  {
    LE32(t.names[4 * i..4 * i + 4])
  }

  /** The name each name pointer leads to (or the failure of reading it). */
  function ExportNames(space: AddressSpace, imageBase: u32, t: ExportTables): (ns: seq<Result<seq<u8>>>)
    requires t.Valid()
    ensures |ns| == t.numberOfNames
  {
    seq(t.numberOfNames, i requires 0 <= i < t.numberOfNames => CString(space, imageBase + NamePointer(t, i)))
  }

  /** The `i`-th export, given its name: ImageBase plus the address its ordinal selects, modulo 2^32. */
  function ExportEntry(imageBase: u32, t: ExportTables, name: Result<seq<u8>>, i: nat): (r: Result<(seq<u8>, u32)>)
    requires t.Valid() && i < t.numberOfNames
  {
    var n :- name;
    var target :- FunctionAt(t, LE16(t.ordinals[2 * i..2 * i + 2]));
    Ok((n, AddU32(imageBase, target)))
  }

  /** The first `n` entries in table order, or the failure of the first entry that cannot be read. */
  function Entries(imageBase: u32, t: ExportTables, ns: seq<Result<seq<u8>>>, n: nat): Result<seq<(seq<u8>, u32)>>
    requires t.Valid() && |ns| == t.numberOfNames && n <= t.numberOfNames
  {
    if n == 0 then Ok([])
    else
      var es :- Entries(imageBase, t, ns, n - 1);
      var e :- ExportEntry(imageBase, t, ns[n - 1], n - 1);
      Ok(es + [e])
  }

  lemma {:induction false} EntriesMeaning(imageBase: u32, t: ExportTables, ns: seq<Result<seq<u8>>>, n: nat)
    requires t.Valid() && |ns| == t.numberOfNames && n <= t.numberOfNames
    requires Entries(imageBase, t, ns, n).Ok?
    ensures |Entries(imageBase, t, ns, n).value| == n
    ensures forall i :: 0 <= i < n ==> ExportEntry(imageBase, t, ns[i], i) == Ok(Entries(imageBase, t, ns, n).value[i])
  {
    if n > 0 {
      EntriesMeaning(imageBase, t, ns, n - 1);
    }
  }

  /** One more entry: appended when it can be read, the construction's failure when it cannot. */
  lemma EntriesStep(imageBase: u32, t: ExportTables, ns: seq<Result<seq<u8>>>, i: nat, es: seq<(seq<u8>, u32)>)
    requires t.Valid() && |ns| == t.numberOfNames && i < t.numberOfNames
    requires Entries(imageBase, t, ns, i) == Ok(es)
    ensures var e := ExportEntry(imageBase, t, ns[i], i);
      Entries(imageBase, t, ns, i + 1) == if e.Ok? then Ok(es + [e.value]) else Err(e.error)
  {
  }

  /** A failing entry ends the construction: the later entries are never read. */
  lemma {:induction false} EntriesFailureSticks(imageBase: u32, t: ExportTables, ns: seq<Result<seq<u8>>>, i: nat, n: nat)
    requires t.Valid() && |ns| == t.numberOfNames && i <= n <= t.numberOfNames
    requires Entries(imageBase, t, ns, i).Err?
    ensures Entries(imageBase, t, ns, n) == Entries(imageBase, t, ns, i)
    decreases n
  {
    if n > i {
      EntriesFailureSticks(imageBase, t, ns, i, n - 1);
    }
  }

  /** The dictionary after assigning each entry in turn, a later assignment replacing an earlier one of the same name. */
  function Assign(es: seq<(seq<u8>, u32)>): map<seq<u8>, u32>
  {
    if es == [] then map[] else Assign(es[..|es| - 1])[es[|es| - 1].0 := es[|es| - 1].1]
  }

  /** The dictionary holds exactly the names of the entries, each mapped to the value of its last entry. */
  lemma {:induction false} AssignLastWins(es: seq<(seq<u8>, u32)>)
    ensures forall k :: k in Assign(es) <==> exists i :: 0 <= i < |es| && es[i].0 == k
    ensures forall i :: 0 <= i < |es| ==>
      ((forall j :: i < j < |es| ==> es[j].0 != es[i].0) ==> Assign(es)[es[i].0] == es[i].1)
    decreases |es|
  {
    if es != [] {
      var prefix := es[..|es| - 1];
      AssignLastWins(prefix);
      forall k ensures k in Assign(es) <==> exists i :: 0 <= i < |es| && es[i].0 == k {
        if k in Assign(prefix) {
          var i :| 0 <= i < |prefix| && prefix[i].0 == k;
          assert es[i] == prefix[i];
        }
        if exists i :: 0 <= i < |es| && es[i].0 == k {
          var i :| 0 <= i < |es| && es[i].0 == k;
          if i < |prefix| {
            assert prefix[i] == es[i];
          }
        }
      }
      forall i | 0 <= i < |es| && (forall j :: i < j < |es| ==> es[j].0 != es[i].0)
        ensures Assign(es)[es[i].0] == es[i].1
      {
        if i < |prefix| {
          assert prefix[i] == es[i];
          assert forall j :: i < j < |prefix| ==> prefix[j].0 != prefix[i].0 by {
            forall j | i < j < |prefix| ensures prefix[j].0 != prefix[i].0 {
              assert prefix[j] == es[j];
            }
          }
        }
      }
    }
  }

  /** The export dictionary: every entry assigned in table order. */
  function ExportMap(space: AddressSpace, imageBase: u32, t: ExportTables): Result<map<seq<u8>, u32>>
    requires t.Valid()
  {
    var es :- Entries(imageBase, t, ExportNames(space, imageBase, t), t.numberOfNames);
    Ok(Assign(es))
  }

  /** One turn of the export loop: the name read byte by byte, then the target through the ordinal. */
  method ReadEntry(space: AddressSpace, imageBase: u32, t: ExportTables, i: nat) returns (r: Result<(seq<u8>, u32)>)
    requires t.Valid() && i < t.numberOfNames
    ensures r == ExportEntry(imageBase, t, ExportNames(space, imageBase, t)[i], i)
  {
    var name := ReadCString(space, imageBase + NamePointer(t, i));
    assert name == ExportNames(space, imageBase, t)[i];
    if name.Err? {
      return name.PropagateFailure();
    }
    var target := FunctionAt(t, LE16(t.ordinals[2 * i..2 * i + 2]));
    if target.Err? {
      return target.PropagateFailure();
    }
    r := Ok((name.value, AddU32(imageBase, target.value)));
  }

  /** The export loop: each entry read in turn and stored in the dictionary. */
  method BuildExports(space: AddressSpace, imageBase: u32, t: ExportTables) returns (r: Result<map<seq<u8>, u32>>)
    requires t.Valid()
    ensures r == ExportMap(space, imageBase, t)
  {
    ghost var ns := ExportNames(space, imageBase, t);
    var exports: map<seq<u8>, u32> := map[];
    ghost var es: seq<(seq<u8>, u32)> := [];
    var i := 0;
    while i < t.numberOfNames
      invariant 0 <= i <= t.numberOfNames
      invariant Entries(imageBase, t, ns, i) == Ok(es)
      invariant exports == Assign(es)
    {
      var entry := ReadEntry(space, imageBase, t, i);
      EntriesStep(imageBase, t, ns, i, es);
      if entry.Err? {
        EntriesFailureSticks(imageBase, t, ns, i + 1, t.numberOfNames);
        return entry.PropagateFailure();
      }
      es := es + [entry.value];
      exports := exports[entry.value.0 := entry.value.1];
      i := i + 1;
    }
    r := Ok(exports);
  }

  /** The value of an export, 0 for a name that is not exported. */
  function GetExport(exports: map<seq<u8>, u32>, name: seq<u8>): (v: u32)
    ensures name in exports ==> v == exports[name]
    ensures name !in exports ==> v == 0
  {
    if name in exports then exports[name] else 0
  }
}
