// The virtual address space of a loaded PE image: each address is served by the first
// section (in virtual-address order) whose [start, start + VirtualSize) range holds it;
// inside a section, bytes below SizeOfRawData come from the file, the rest read as zero.
module AddressSpaces {
  import opened Wrappers
  import opened Words
  import opened ImageSections

  datatype AddressSpace = AddressSpace(file: seq<u8>, imageBase: int, sections: seq<ImageSection>)

  function StartOf(imageBase: int, s: ImageSection): int { imageBase + s.virtualAddress }
  function EndOfRawData(imageBase: int, s: ImageSection): int { StartOf(imageBase, s) + s.sizeOfRawData }
  function EndOfSection(imageBase: int, s: ImageSection): int { StartOf(imageBase, s) + s.virtualSize }

  /** The section's virtual range holds the address. */
  predicate Maps(imageBase: int, s: ImageSection, addr: int)
  {
    StartOf(imageBase, s) <= addr < EndOfSection(imageBase, s)
  }

  /** The first section, in set order, whose virtual range holds the address. */
  function FindSection(sections: seq<ImageSection>, imageBase: int, addr: int): (r: Option<ImageSection>)
    ensures r.Some? ==> r.value in sections && Maps(imageBase, r.value, addr)
    ensures r.None? ==> forall t :: t in sections ==> !Maps(imageBase, t, addr)
  {
    if sections == [] then None
    else if Maps(imageBase, sections[0], addr) then Some(sections[0])
    else FindSection(sections[1..], imageBase, addr)
  }

  /** FindSection picks the earliest section that maps the address, even when later ones overlap it. */
  lemma {:induction false} FindSectionFirst(sections: seq<ImageSection>, imageBase: int, addr: int, k: nat)
    requires k < |sections| && Maps(imageBase, sections[k], addr)
    requires forall j :: 0 <= j < k ==> !Maps(imageBase, sections[j], addr)
    ensures FindSection(sections, imageBase, addr) == Some(sections[k])
  {
    if k > 0 {
      FindSectionFirst(sections[1..], imageBase, addr, k - 1);
    }
  }

  /**
   * In a sorted set, the section that maps an address also maps, as the first one,
   * every later address up to its own end: a read may stay in it.
   */
  lemma {:induction false} SameSectionAhead(sections: seq<ImageSection>, imageBase: int, p: int, a: int)
    requires Sorted(sections)
    requires FindSection(sections, imageBase, p).Some?
    requires p <= a < EndOfSection(imageBase, FindSection(sections, imageBase, p).value)
    ensures FindSection(sections, imageBase, a) == FindSection(sections, imageBase, p)
  {
    if !Maps(imageBase, sections[0], p) {
      var s := FindSection(sections[1..], imageBase, p).value;
      SameSectionAhead(sections[1..], imageBase, p, a);
      var k :| 0 <= k < |sections[1..]| && sections[1..][k] == s;
      assert sections[k + 1] == s;
      assert sections[0].virtualAddress < s.virtualAddress;
    }
  }

  /** What a read of the underlying file yields at a file offset: nothing past its end. */
  function FileByte(file: seq<u8>, p: int): Option<u8>
  {
    if 0 <= p < |file| then Some(file[p]) else None
  }

  /** The byte a section holds at a virtual address: file data below the raw size, zero above. */
  function SectionByte(file: seq<u8>, imageBase: int, s: ImageSection, addr: int): Option<u8>
  {
    if addr < EndOfRawData(imageBase, s) then FileByte(file, addr - StartOf(imageBase, s) + s.pointerToRawData)
    else Some(0)
  }

  /**
   * The byte at a virtual address: an IOException when no section maps it, and an
   * end-of-stream failure when its section's raw data runs past the end of the file.
   */
  function ByteAt(space: AddressSpace, addr: int): (r: Result<u8>)
    ensures r == Err(OutOfSection(addr)) <==> FindSection(space.sections, space.imageBase, addr).None?
    ensures r.Err? ==> r.error == OutOfSection(addr) || r.error == EndOfStream
  {
    match FindSection(space.sections, space.imageBase, addr)
    case None => Err(OutOfSection(addr))
    case Some(s) =>
      match SectionByte(space.file, space.imageBase, s, addr)
      case None => Err(EndOfStream)
      case Some(b) => Ok(b)
  }

  /**
   * Memory as a reader sees it: the byte at each address, or why it cannot be read.
   * Everything decoded from an image is a function of the image's memory.
   */
  type Memory = m: imap<int, Result<u8>> | forall a :: a in m
    ghost witness imap a: int | true :: Ok(0)

  /** The memory of an address space: ByteAt at every address. */
  ghost function MemoryOf(space: AddressSpace): (mem: Memory)
    ensures Backs(space, mem)
  {
    imap a: int | true :: ByteAt(space, a)
  }

  /**
   * `mem` is the memory of `space`. The fact is used only where a byte of the address
   * space is actually read.
   */
  ghost predicate Backs(space: AddressSpace, mem: Memory)
  {
    forall a {:trigger ByteAt(space, a)} :: mem[a] == ByteAt(space, a)
  }

  /** `n` consecutive bytes from `pos`, or the failure of the first byte that cannot be read. */
  function ReadBytes(mem: Memory, pos: int, n: nat): (r: Result<seq<u8>>)
    ensures r.Ok? ==> |r.value| == n
    decreases n
  {
    if n == 0 then Ok([])
    else match mem[pos]
      case Err(e) => Err(e)
      case Ok(b) =>
        match ReadBytes(mem, pos + 1, n - 1)
        case Err(e) => Err(e)
        case Ok(rest) => Ok([b] + rest)
  }

  /** A successful read gives the bytes at `pos`, `pos + 1`, ... in order. */
  lemma {:induction false} ReadBytesMeaning(mem: Memory, pos: int, n: nat)
    requires ReadBytes(mem, pos, n).Ok?
    ensures forall i :: 0 <= i < n ==> mem[pos + i] == Ok(ReadBytes(mem, pos, n).value[i])
    decreases n
  {
    if n > 0 {
      ReadBytesMeaning(mem, pos + 1, n - 1);
      var r := ReadBytes(mem, pos, n).value;
      forall i | 0 <= i < n ensures mem[pos + i] == Ok(r[i]) {
        if i > 0 {
          assert pos + i == (pos + 1) + (i - 1);
        }
      }
    }
  }

  /**
   * A failed read fails with the failure of the first byte in the range that cannot be
   * read; `a` is that byte's address.
   */
  lemma {:induction false} ReadBytesFailure(mem: Memory, pos: int, n: nat) returns (a: int)
    requires ReadBytes(mem, pos, n).Err?
    ensures pos <= a < pos + n && mem[a] == Err(ReadBytes(mem, pos, n).error)
    ensures forall b :: pos <= b < a ==> mem[b].Ok?
    decreases n
  {
    if mem[pos].Err? {
      a := pos;
    } else {
      a := ReadBytesFailure(mem, pos + 1, n - 1);
    }
  }

  /** `n` consecutive bytes of an address space from `pos`: what ReadBytes gives on its memory. */
  function SpaceBytes(space: AddressSpace, pos: int, n: nat): (r: Result<seq<u8>>)
    ensures r.Ok? ==> |r.value| == n
    ensures forall mem: Memory {:trigger ReadBytes(mem, pos, n)} :: Backs(space, mem) ==> r == ReadBytes(mem, pos, n)
    ensures r.Err? ==> r.error.OutOfSection? || r.error == EndOfStream
    decreases n
  {
    if n == 0 then Ok([])
    else match ByteAt(space, pos)
      case Err(e) => Err(e)
      case Ok(b) =>
        match SpaceBytes(space, pos + 1, n - 1)
        case Err(e) => Err(e)
        case Ok(rest) => Ok([b] + rest)
  }

  function U8At(mem: Memory, pos: int): Result<u8> { mem[pos] }

  /** The little-endian word of the two bytes at `pos`, or the failure of the first unreadable one. */
  function U16At(mem: Memory, pos: int): Result<u16>
  {
    if mem[pos].Ok? && mem[pos + 1].Ok? then Ok(mem[pos].value as int + 0x100 * mem[pos + 1].value as int)
    else if mem[pos].Err? then Err(mem[pos].error) else Err(mem[pos + 1].error)
  }

  /** The little-endian double word of the four bytes at `pos`. */
  function U32At(mem: Memory, pos: int): Result<u32>
  {
    if mem[pos].Ok? && mem[pos + 1].Ok? && mem[pos + 2].Ok? && mem[pos + 3].Ok?
    then Ok(mem[pos].value as int + 0x100 * mem[pos + 1].value as int
            + 0x1_0000 * mem[pos + 2].value as int + 0x100_0000 * mem[pos + 3].value as int)
    else if mem[pos].Err? then Err(mem[pos].error) else if mem[pos + 1].Err? then Err(mem[pos + 1].error)
    else if mem[pos + 2].Err? then Err(mem[pos + 2].error) else Err(mem[pos + 3].error)
  }

  /** Reading `m + n` bytes is reading `m` bytes and then the `n` after them. */
  lemma {:induction false} ReadBytesSplit(mem: Memory, pos: int, m: nat, n: nat)
    ensures ReadBytes(mem, pos, m + n)
            == match ReadBytes(mem, pos, m)
               case Err(e) => Err(e)
               case Ok(a) =>
                 match ReadBytes(mem, pos + m, n)
                 case Err(e) => Err(e)
                 case Ok(b) => Ok(a + b)
    decreases m
  {
    if m > 0 {
      ReadBytesSplit(mem, pos + 1, m - 1, n);
      assert pos + 1 + (m - 1) == pos + m;
      if mem[pos].Ok? && ReadBytes(mem, pos + 1, m - 1).Ok? && ReadBytes(mem, pos + m, n).Ok? {
        var a := ReadBytes(mem, pos + 1, m - 1).value;
        assert [mem[pos].value] + (a + ReadBytes(mem, pos + m, n).value)
            == ([mem[pos].value] + a) + ReadBytes(mem, pos + m, n).value;
      }
    } else {
      if ReadBytes(mem, pos, n).Ok? {
        assert [] + ReadBytes(mem, pos, n).value == ReadBytes(mem, pos, n).value;
      }
    }
  }

  /** The word is the little-endian value of the two bytes ReadBytes yields. */
  lemma U16AtBytes(mem: Memory, pos: int)
    ensures U16At(mem, pos) == match ReadBytes(mem, pos, 2)
                               case Err(e) => Err(e)
                               case Ok(b) => Ok(LE16(b))
  {
    assert ReadBytes(mem, pos + 2, 0) == Ok([]);
    if mem[pos + 1].Ok? {
      assert ReadBytes(mem, pos + 1, 1) == Ok([mem[pos + 1].value] + []);
    }
  }

  /** The double word is the little-endian value of the four bytes ReadBytes yields. */
  lemma U32AtBytes(mem: Memory, pos: int)
    ensures U32At(mem, pos) == match ReadBytes(mem, pos, 4)
                               case Err(e) => Err(e)
                               case Ok(b) => Ok(LE32(b))
  {
    U16AtBytes(mem, pos);
    U16AtBytes(mem, pos + 2);
    ReadBytesSplit(mem, pos, 2, 2);
    if ReadBytes(mem, pos, 4).Ok? {
      var b := ReadBytes(mem, pos, 4).value;
      assert b[..2] == ReadBytes(mem, pos, 2).value && b[2..] == ReadBytes(mem, pos + 2, 2).value;
    }
  }
}
