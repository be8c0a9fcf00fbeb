// A read-only stream over the virtual address space of a PE image: seeking moves a
// virtual position, reading translates it through the section table into the file.
module VirtualMemory {
  import opened Wrappers
  import opened Words
  import opened ImageSections
  import opened AddressSpaces

  /** The stream claims a fixed length of 2 GiB, the 32-bit user address space. */
  const StreamLength: int := 0x8000_0000

  datatype SeekOrigin = Begin | Current | End | Undefined(code: int)

  /** `buf` after the underlying file stream, positioned at `filePos`, has read `n` bytes into it at `offset`: bytes past the end of the file are not written. */
  function Copied(buf: seq<u8>, offset: int, file: seq<u8>, filePos: int, n: int): (r: seq<u8>)
    ensures |r| == |buf|
  {
    seq(|buf|, i requires 0 <= i < |buf| =>
      if offset <= i < offset + n && 0 <= filePos + (i - offset) < |file| then file[filePos + (i - offset)] else buf[i])
  }

  /** `buf` with the positions offset+from .. offset+to-1 cleared. */
  function Zeroed(buf: seq<u8>, offset: int, from: int, to: int): (r: seq<u8>)
    ensures |r| == |buf|
  {
    seq(|buf|, i requires 0 <= i < |buf| => if offset + from <= i < offset + to then 0 else buf[i])
  }

  /** The outcome of one turn of the read loop: finished, or go on from a new position. */
  datatype Turn = Done(result: Result<int>, pos: int, buf: seq<u8>) | Again(pos: int, buf: seq<u8>, count: nat)

  /**
   * One turn of the read loop as the stream implements it, from virtual position `pos`
   * with `count` bytes still wanted at `offset`. A turn that reaches the end of its
   * section asks for another turn from the section's end with the residual count,
   * which will write again at the same offset.
   */
  function ReadTurn(space: AddressSpace, pos: int, buf: seq<u8>, offset: nat, count: nat): (t: Turn)
    requires offset + count <= |buf|
    ensures t.Again? ==> t.count < count && offset + t.count <= |t.buf|
  {
    match FindSection(space.sections, space.imageBase, pos)
    case None => Done(Err(OutOfSection(pos)), pos, buf)
    case Some(s) =>
      var start := StartOf(space.imageBase, s);
      var endOfRawData := EndOfRawData(space.imageBase, s);
      var endOfSection := EndOfSection(space.imageBase, s);
      var filePos := pos - start + s.pointerToRawData;
      if pos + count < endOfRawData then
        Done(Ok(count), pos + count, Copied(buf, offset, space.file, filePos, count))
      else
        var countInRawData := if pos < endOfRawData then endOfRawData - pos else 0;
        var buf1 := if pos < endOfRawData then Copied(buf, offset, space.file, filePos, countInRawData) else buf;
        if pos + count < endOfSection then
          Done(Ok(count), pos + count, Zeroed(buf1, offset, countInRawData, count))
        else
          var countInSection := endOfSection - pos;
          Again(endOfSection, Zeroed(buf1, offset, countInRawData, countInSection), count - countInSection)
  }

  /** Read as the stream implements it: the value returned, the new position and the new buffer. */
  function ReadFrom(space: AddressSpace, pos: int, buf: seq<u8>, offset: nat, count: nat): (Result<int>, int, seq<u8>)
    requires offset + count <= |buf|
    decreases count
  {
    match ReadTurn(space, pos, buf, offset, count)
    case Done(r, p, b) => (r, p, b)
    case Again(p, b, c) => ReadFrom(space, p, b, offset, c)
  }

  /** The byte the address space holds at `addr`, or `prior` where the file cannot supply it. */
  function ByteOr(space: AddressSpace, addr: int, prior: u8): u8
  {
    match ByteAt(space, addr)
    case Ok(b) => b
    case Err(_) => prior
  }

  /** `buf` with the `n` bytes of the address space from `pos` placed at `offset`. */
  function Filled(space: AddressSpace, buf: seq<u8>, offset: int, pos: int, n: int): (r: seq<u8>)
    ensures |r| == |buf|
  {
    seq(|buf|, i requires 0 <= i < |buf| =>
      if offset <= i < offset + n then ByteOr(space, pos + (i - offset), buf[i]) else buf[i])
  }

  /** The first address of [pos, pos + n) that no section maps. */
  function FirstUnmapped(space: AddressSpace, pos: int, n: nat): (r: Option<int>)
    ensures r.None? ==> forall a :: pos <= a < pos + n ==> FindSection(space.sections, space.imageBase, a).Some?
    ensures r.Some? ==> pos <= r.value < pos + n && FindSection(space.sections, space.imageBase, r.value).None?
    ensures r.Some? ==> forall a :: pos <= a < r.value ==> FindSection(space.sections, space.imageBase, a).Some?
    decreases n
  {
    if n == 0 then None
    else if FindSection(space.sections, space.imageBase, pos).None? then
      assert pos <= pos < pos + n && FindSection(space.sections, space.imageBase, pos).None?;
      Some(pos)
    else FirstUnmapped(space, pos + 1, n - 1)
  }

  /**
   * One section's share of a read: copying the raw part from the file and clearing the
   * rest yields exactly the bytes of the address space, provided the share does not
   * go past the section's end.
   */
  lemma ChunkBytes(space: AddressSpace, s: ImageSection, buf: seq<u8>, offset: nat, pos: int, n: nat)
    requires Sorted(space.sections)
    requires FindSection(space.sections, space.imageBase, pos) == Some(s)
    requires pos + n <= EndOfSection(space.imageBase, s) && offset + n <= |buf|
    ensures var endOfRawData := EndOfRawData(space.imageBase, s);
            var countInRawData := if pos < endOfRawData then (if n < endOfRawData - pos then n else endOfRawData - pos) else 0;
            var filePos := pos - StartOf(space.imageBase, s) + s.pointerToRawData;
            Zeroed(Copied(buf, offset, space.file, filePos, countInRawData), offset, countInRawData, n)
              == Filled(space, buf, offset, pos, n)
  {
    var endOfRawData := EndOfRawData(space.imageBase, s);
    var countInRawData := if pos < endOfRawData then (if n < endOfRawData - pos then n else endOfRawData - pos) else 0;
    var filePos := pos - StartOf(space.imageBase, s) + s.pointerToRawData;
    var lhs := Zeroed(Copied(buf, offset, space.file, filePos, countInRawData), offset, countInRawData, n);
    var rhs := Filled(space, buf, offset, pos, n);
    forall i | 0 <= i < |buf| ensures lhs[i] == rhs[i] {
      if offset <= i < offset + n {
        var a := pos + (i - offset);
        SameSectionAhead(space.sections, space.imageBase, pos, a);
        assert ByteOr(space, a, buf[i]) == match SectionByte(space.file, space.imageBase, s, a)
          case None => buf[i]
          case Some(b) => b;
      }
    }
  }

  /** Filling no bytes changes nothing. */
  lemma FilledNothing(space: AddressSpace, buf: seq<u8>, offset: int, pos: int)
    ensures Filled(space, buf, offset, pos, 0) == buf
  {
  }

  /** Filling n1 bytes and then the n2 that follow is filling n1 + n2 bytes. */
  lemma FilledSplit(space: AddressSpace, buf: seq<u8>, offset: int, pos: int, n1: nat, n2: nat)
    ensures Filled(space, Filled(space, buf, offset, pos, n1), offset + n1, pos + n1, n2)
         == Filled(space, buf, offset, pos, n1 + n2)
  {
  }

  /** FirstUnmapped grows one mapped chunk at a time. */
  lemma {:induction false} FirstUnmappedExtend(space: AddressSpace, pos: int, n1: nat, n2: nat)
    requires FirstUnmapped(space, pos, n1) == None
    ensures FirstUnmapped(space, pos + n1, n2) == FirstUnmapped(space, pos, n1 + n2)
    decreases n1
  {
    if n1 > 0 {
      FirstUnmappedExtend(space, pos + 1, n1 - 1, n2);
    }
  }

  /** One chunk more: the bytes filled so far and the chunk are the bytes filled up to its end. */
  lemma FillStep(space: AddressSpace, b0: seq<u8>, offset: int, p0: int, done: nat, n: nat, before: seq<u8>, after: seq<u8>)
    requires before == Filled(space, b0, offset, p0, done)
    requires after == Filled(space, before, offset + done, p0 + done, n)
    requires FirstUnmapped(space, p0, done) == None && FirstUnmapped(space, p0 + done, n) == None
    ensures after == Filled(space, b0, offset, p0, done + n)
    ensures FirstUnmapped(space, p0, done + n) == None
  {
    FilledSplit(space, b0, offset, p0, done, n);
    FirstUnmappedExtend(space, p0, done, n);
  }

  /** An unmapped address right after the bytes filled so far is the first unmapped one. */
  lemma FailStep(space: AddressSpace, p0: int, done: nat, count: nat)
    requires done < count && FirstUnmapped(space, p0, done) == None
    requires FindSection(space.sections, space.imageBase, p0 + done).None?
    ensures FirstUnmapped(space, p0, count) == Some(p0 + done)
  {
    FirstUnmappedExtend(space, p0, done, count - done);
  }

  /** Clearing an empty range changes nothing. */
  lemma ZeroedNothing(buf: seq<u8>, offset: int, n: int)
    ensures Zeroed(buf, offset, n, n) == buf
  {
  }

  /** Every address of a share of a read that stays inside one section is mapped. */
  lemma ChunkMapped(space: AddressSpace, s: ImageSection, pos: int, n: nat)
    requires Sorted(space.sections)
    requires FindSection(space.sections, space.imageBase, pos) == Some(s)
    requires pos + n <= EndOfSection(space.imageBase, s)
    ensures FirstUnmapped(space, pos, n) == None
  {
    forall a | pos <= a < pos + n ensures FindSection(space.sections, space.imageBase, a).Some? {
      SameSectionAhead(space.sections, space.imageBase, pos, a);
    }
  }

  /**
   * A read that ends before the end of the section it starts in delivers every byte
   * the address space holds there, advances the position by the count and returns it.
   */
  lemma ReadInsideSection(space: AddressSpace, pos: int, buf: seq<u8>, offset: nat, count: nat)
    requires Sorted(space.sections)
    requires offset + count <= |buf|
    requires FindSection(space.sections, space.imageBase, pos).Some?
    requires pos + count < EndOfSection(space.imageBase, FindSection(space.sections, space.imageBase, pos).value)
    ensures FirstUnmapped(space, pos, count) == None
    ensures ReadFrom(space, pos, buf, offset, count) == (Ok(count), pos + count, Filled(space, buf, offset, pos, count))
  {
    var s := FindSection(space.sections, space.imageBase, pos).value;
    ChunkMapped(space, s, pos, count);
    ChunkBytes(space, s, buf, offset, pos, count);
    ReadTurnInside(space, s, pos, buf, offset, count);
  }

  /** The single turn of a read that ends inside the section it starts in. */
  lemma ReadTurnInside(space: AddressSpace, s: ImageSection, pos: int, buf: seq<u8>, offset: nat, count: nat)
    requires offset + count <= |buf|
    requires FindSection(space.sections, space.imageBase, pos) == Some(s)
    requires pos + count < EndOfSection(space.imageBase, s)
    ensures var endOfRawData := EndOfRawData(space.imageBase, s);
            var countInRawData := if pos < endOfRawData then (if count < endOfRawData - pos then count else endOfRawData - pos) else 0;
            var filePos := pos - StartOf(space.imageBase, s) + s.pointerToRawData;
            ReadTurn(space, pos, buf, offset, count)
              == Done(Ok(count), pos + count, Zeroed(Copied(buf, offset, space.file, filePos, countInRawData), offset, countInRawData, count))
  {
    var endOfRawData := EndOfRawData(space.imageBase, s);
    var filePos := pos - StartOf(space.imageBase, s) + s.pointerToRawData;
    if pos + count < endOfRawData {
      ZeroedNothing(Copied(buf, offset, space.file, filePos, count), offset, count);
    } else if endOfRawData <= pos {
      CopiedNothing(buf, offset, space.file, filePos);
    }
  }

  /** Copying no bytes changes nothing. */
  lemma CopiedNothing(buf: seq<u8>, offset: int, file: seq<u8>, filePos: int)
    ensures Copied(buf, offset, file, filePos, 0) == buf
  {
  }

  /**
   * The read loop loses a read that ends exactly at the end of its section (when that
   * end is not inside the section's raw data): the residual count is zero when the loop
   * turns, so the call reports 0 bytes if a section starts right there, and an
   * IOException if none does, although every requested byte was inside the section.
   */
  lemma ReadToSectionEnd(space: AddressSpace, pos: int, buf: seq<u8>, offset: nat, count: nat)
    requires offset + count <= |buf| && count > 0
    requires FindSection(space.sections, space.imageBase, pos).Some?
    requires var s := FindSection(space.sections, space.imageBase, pos).value;
      pos + count == EndOfSection(space.imageBase, s) && EndOfRawData(space.imageBase, s) <= pos + count
    ensures ReadFrom(space, pos, buf, offset, count).0
      == if FindSection(space.sections, space.imageBase, pos + count).None? then Err(OutOfSection(pos + count)) else Ok(0)
    ensures ReadFrom(space, pos, buf, offset, count).0 != Ok(count)
  {
    var t := ReadTurn(space, pos, buf, offset, count);
    assert t.Again? && t.pos == pos + count && t.count == 0;
    var next := FindSection(space.sections, space.imageBase, pos + count);
    if next.Some? {
      assert ReadTurn(space, pos + count, t.buf, offset, 0).Done?;
    }
  }

  /**
   * A concrete instance: one section of 16 bytes at RVA 0x1000 in an image based at
   * 0x400000; reading its last 4 bytes fills the buffer and then fails.
   */
  lemma ReadToSectionEndExample()
    ensures var space := AddressSpace([0, 1, 2, 3, 4, 5, 6, 7, 8, 9, 10, 11, 12, 13, 14, 15], 0x40_0000,
                                      [ImageSection(0x10, 0x1000, 0x10, 0)]);
            ReadFrom(space, 0x40_100C, [0, 0, 0, 0], 0, 4) == (Err(OutOfSection(0x40_1010)), 0x40_1010, [12, 13, 14, 15])
  {
    var space := AddressSpace([0, 1, 2, 3, 4, 5, 6, 7, 8, 9, 10, 11, 12, 13, 14, 15], 0x40_0000,
                              [ImageSection(0x10, 0x1000, 0x10, 0)]);
    var t := ReadTurn(space, 0x40_100C, [0, 0, 0, 0], 0, 4);
    assert FindSection(space.sections, space.imageBase, 0x40_100C) == Some(space.sections[0]);
    assert Copied([0, 0, 0, 0], 0, space.file, 12, 4) == [12, 13, 14, 15];
    assert t == Again(0x40_1010, Zeroed([12, 13, 14, 15], 0, 4, 4), 0);
    ZeroedNothing([12, 13, 14, 15], 0, 4);
    assert FindSection(space.sections, space.imageBase, 0x40_1010) == None;
  }

  class VirtualMemoryStream {
    const underlying: seq<u8>
    const imageBase: int
    const sections: seq<ImageSection>
    var position: int

    ghost predicate Valid() { Sorted(sections) }

    /** The address space the stream reads: the file and the section table at the image base. */
    const space: AddressSpace := AddressSpace(underlying, imageBase, sections)

    /** A stream over `file`, positioned at address 0; the sections come from a sorted set. */
    constructor (file: seq<u8>, imageBase: int, sections: seq<ImageSection>)
      requires Sorted(sections)
      ensures Valid()
      ensures this.underlying == file && this.imageBase == imageBase && this.sections == sections
      ensures position == 0
    {
      this.underlying := file;
      this.imageBase := imageBase;
      this.sections := sections;
      this.position := 0;
    }

    function Length(): (n: int)
      ensures n == StreamLength
    {
      0x8000_0000
    }

    function Position(): int
      reads this
    {
      position
    }

    method SetPosition(value: int)
      modifies this`position
      ensures position == value
    {
      position := value;
    }

    /** Moves the position relative to the start, the current position or the end (2 GiB). */
    method Seek(offset: int, origin: SeekOrigin) returns (r: Result<int>)
      modifies this`position
      ensures origin == Begin ==> r == Ok(offset) && position == offset
      ensures origin == Current ==> r == Ok(old(position) + offset) && position == old(position) + offset
      ensures origin == End ==> r == Ok(StreamLength + offset) && position == StreamLength + offset
      ensures origin.Undefined? ==> r == Err(ArgumentOutOfRange("origin")) && position == old(position)
    {
      match origin {
        case Begin => position := offset;
        case Current => position := position + offset;
        case End => position := 0x8000_0000 + offset;
        case Undefined(_) => return Err(ArgumentOutOfRange("origin"));
      }
      return Ok(position);
    }

    /** The stream cannot be resized. */
    method SetLength(value: int) returns (r: Result<()>)
      ensures r == Err(NotSupported)
    {
      return Err(NotSupported);
    }

    /** The stream cannot be written. */
    method Write(buffer: array?<u8>, offset: int, count: int) returns (r: Result<()>)
      ensures r == Err(NotSupported)
    {
      return Err(NotSupported);
    }

    /** The section the current position lies in, or an IOException naming the position. */
    method GetCurrentSection() returns (r: Result<ImageSection>)
      ensures r.Ok? <==> FindSection(sections, imageBase, position).Some?
      ensures r.Ok? ==> r.value == FindSection(sections, imageBase, position).value
      ensures r.Err? ==> r.error == OutOfSection(position)
    {
      var i := 0;
      while i < |sections|
        invariant 0 <= i <= |sections|
        invariant FindSection(sections[i..], imageBase, position) == FindSection(sections, imageBase, position)
      {
        assert sections[i..][0] == sections[i] && sections[i..][1..] == sections[i + 1..];
        var start := imageBase + sections[i].virtualAddress;
        if position >= start && position < start + sections[i].virtualSize {
          return Ok(sections[i]);
        }
        i := i + 1;
      }
      return Err(OutOfSection(position));
    }

    /** The underlying file stream, positioned at `filePos`, reads `n` bytes into `buffer` at `offset`. */
    method ReadUnderlying(buffer: array<u8>, offset: nat, filePos: int, n: nat)
      requires offset + n <= buffer.Length
      modifies buffer
      ensures buffer[..] == Copied(old(buffer[..]), offset, underlying, filePos, n)
    {
      var i := 0;
      while i < n
        invariant 0 <= i <= n
        invariant buffer[..] == Copied(old(buffer[..]), offset, underlying, filePos, i)
      {
        if 0 <= filePos + i < |underlying| {
          buffer[offset + i] := underlying[filePos + i];
        }
        i := i + 1;
      }
    }

    /** Clears buffer[offset + from .. offset + to). */
    method ZeroFill(buffer: array<u8>, offset: nat, from: nat, to: nat)
      requires offset + to <= buffer.Length
      modifies buffer
      ensures buffer[..] == Zeroed(old(buffer[..]), offset, from, to)
    {
      var i := from;
      while i < to
        invariant buffer[..] == Zeroed(old(buffer[..]), offset, from, if i < to then i else to)
        invariant from <= i
      {
        buffer[offset + i] := 0;
        i := i + 1;
      }
    }

    /**
     * Stream.Read as implemented: argument checks first, nothing read for a zero
     * count, otherwise the result, new position and buffer that ReadFrom describes.
     */
    method Read(buffer: array?<u8>, offset: int, count: int) returns (r: Result<int>)
      requires Valid()
      modifies this`position, buffer
      ensures buffer == null ==> r == Err(ArgumentNull("buffer"))
      ensures buffer != null && offset < 0 ==> r == Err(ArgumentOutOfRange("offset"))
      ensures buffer != null && offset >= 0 && count < 0 ==> r == Err(ArgumentOutOfRange("count"))
      ensures buffer != null && offset >= 0 && count >= 0 && offset + count > buffer.Length
        ==> r == Err(Argument(OffsetPlusCountGreaterThanBufferLength))
      ensures (buffer == null || offset < 0 || count < 0 || offset + count > buffer.Length || count == 0)
        ==> position == old(position) && (buffer != null ==> buffer[..] == old(buffer[..]))
      ensures buffer != null && offset >= 0 && count == 0 && offset <= buffer.Length ==> r == Ok(0)
      ensures buffer != null && offset >= 0 && count > 0 && offset + count <= buffer.Length
        ==> (r, position, buffer[..]) == ReadFrom(space, old(position), old(buffer[..]), offset, count)
    {
      if buffer == null { return Err(ArgumentNull("buffer")); }
      if offset < 0 { return Err(ArgumentOutOfRange("offset")); }
      if count < 0 { return Err(ArgumentOutOfRange("count")); }
      if offset + count > buffer.Length { return Err(Argument(OffsetPlusCountGreaterThanBufferLength)); }
      if count == 0 { return Ok(0); }
      r := ReadSections(buffer, offset, count);
    }

    /** The loop of Read, for a non-empty request that fits the buffer. */
    method ReadSections(buffer: array<u8>, offset: nat, count: nat) returns (r: Result<int>)
      requires Valid()
      requires count > 0 && offset + count <= buffer.Length
      modifies this`position, buffer
      ensures (r, position, buffer[..]) == ReadFrom(space, old(position), old(buffer[..]), offset, count)
    {
      var remaining: nat := count;
      while true
        invariant remaining <= count
        invariant ReadFrom(space, position, buffer[..], offset, remaining)
               == ReadFrom(space, old(position), old(buffer[..]), offset, count)
        decreases remaining
      {
        var finished, result, next := ReadOneTurn(buffer, offset, remaining);
        if finished {
          return result;
        }
        remaining := next;
      }
    }

    /** One turn of the loop of Read: the state change that ReadTurn describes. */
    method ReadOneTurn(buffer: array<u8>, offset: nat, remaining: nat) returns (finished: bool, r: Result<int>, next: nat)
      requires Valid()
      requires offset + remaining <= buffer.Length
      modifies this`position, buffer
      ensures ReadTurn(space, old(position), old(buffer[..]), offset, remaining)
        == if finished then Done(r, position, buffer[..]) else Again(position, buffer[..], next)
    {
      var found := GetCurrentSection();
      if found.Err? {
        return true, found.PropagateFailure(), 0;
      }
      var section := found.value;
      var startOfSection := imageBase + section.virtualAddress;
      var endOfRawData := startOfSection + section.sizeOfRawData;
      var endOfSection := startOfSection + section.virtualSize;
      var filePos := position - startOfSection + section.pointerToRawData;
      if position + remaining < endOfRawData {
        ReadUnderlying(buffer, offset, filePos, remaining);
        position := position + remaining;
        return true, Ok(remaining), 0;
      }
      var countInRawData := 0;
      if position < endOfRawData {
        countInRawData := endOfRawData - position;
        ReadUnderlying(buffer, offset, filePos, countInRawData);
      }
      if position + remaining < endOfSection {
        ZeroFill(buffer, offset, countInRawData, remaining);
        position := position + remaining;
        return true, Ok(remaining), 0;
      }
      var countInSection := endOfSection - position;
      ZeroFill(buffer, offset, countInRawData, countInSection);
      position := position + countInSection;
      return false, Ok(0), remaining - countInSection;
    }

    /**
     * Read with the loop repaired: each turn takes at most what is left of its section,
     * the buffer offset moves on with the position, and the total is returned. It
     * delivers the bytes of the address space, and fails at the first address of the
     * request that no section maps.
     */
    method ReadAcrossSections(buffer: array?<u8>, offset: int, count: int) returns (r: Result<int>)
      requires Valid()
      modifies this`position, buffer
      ensures buffer == null ==> r == Err(ArgumentNull("buffer"))
      ensures buffer != null && offset < 0 ==> r == Err(ArgumentOutOfRange("offset"))
      ensures buffer != null && offset >= 0 && count < 0 ==> r == Err(ArgumentOutOfRange("count"))
      ensures buffer != null && offset >= 0 && count >= 0 && offset + count > buffer.Length
        ==> r == Err(Argument(OffsetPlusCountGreaterThanBufferLength))
      ensures (buffer == null || offset < 0 || count < 0 || offset + count > buffer.Length)
        ==> position == old(position) && (buffer != null ==> buffer[..] == old(buffer[..]))
      ensures buffer != null && offset >= 0 && count >= 0 && offset + count <= buffer.Length ==>
        match FirstUnmapped(space, old(position), count)
        case None =>
          r == Ok(count) && position == old(position) + count
          && buffer[..] == Filled(space, old(buffer[..]), offset, old(position), count)
        case Some(a) =>
          r == Err(OutOfSection(a)) && position == a
          && buffer[..] == Filled(space, old(buffer[..]), offset, old(position), a - old(position))
    {
      if buffer == null { return Err(ArgumentNull("buffer")); }
      if offset < 0 { return Err(ArgumentOutOfRange("offset")); }
      if count < 0 { return Err(ArgumentOutOfRange("count")); }
      if offset + count > buffer.Length { return Err(Argument(OffsetPlusCountGreaterThanBufferLength)); }
      r := ReadAcrossLoop(buffer, offset, count);
    }

    /** The loop of ReadAcrossSections, for a request that fits the buffer. */
    method ReadAcrossLoop(buffer: array<u8>, offset: nat, count: nat) returns (r: Result<int>)
      requires Valid()
      requires offset + count <= buffer.Length
      modifies this`position, buffer
      ensures match FirstUnmapped(space, old(position), count)
        case None =>
          r == Ok(count) && position == old(position) + count
          && buffer[..] == Filled(space, old(buffer[..]), offset, old(position), count)
        case Some(a) =>
          r == Err(OutOfSection(a)) && position == a
          && buffer[..] == Filled(space, old(buffer[..]), offset, old(position), a - old(position))
    {
      ghost var p0, b0 := position, buffer[..];
      var done: nat := 0;
      FilledNothing(space, b0, offset, p0);
      while done < count
        invariant done <= count
        invariant position == p0 + done
        invariant FirstUnmapped(space, p0, done) == None
        invariant buffer[..] == Filled(space, b0, offset, p0, done)
      {
        var next := ReadNextChunk(buffer, offset, count, p0, b0, done);
        if next.Err? {
          return Err(OutOfSection(position));
        }
        done := next.value;
      }
      return Ok(count);
    }

    /** One turn of ReadAcrossLoop: `done` bytes are in place, and the next section's share follows them. */
    method ReadNextChunk(buffer: array<u8>, offset: nat, count: nat, ghost p0: int, ghost b0: seq<u8>, done: nat)
      returns (r: Result<nat>)
      requires Valid() && done < count && offset + count <= buffer.Length
      requires position == p0 + done && FirstUnmapped(space, p0, done) == None
      requires buffer[..] == Filled(space, b0, offset, p0, done)
      modifies this`position, buffer
      ensures r.Err? ==> FirstUnmapped(space, p0, count) == Some(position) && position == p0 + done
                         && buffer[..] == Filled(space, b0, offset, p0, done)
      ensures r.Ok? ==> done < r.value <= count && position == p0 + r.value
                        && FirstUnmapped(space, p0, r.value) == None && buffer[..] == Filled(space, b0, offset, p0, r.value)
    {
      ghost var before := buffer[..];
      var step := ReadChunk(buffer, offset + done, count - done);
      if step.Err? {
        FailStep(space, p0, done, count);
        return Err(step.error);
      }
      var n := step.value;
      ghost var after := buffer[..];
      FillStep(space, b0, offset, p0, done, n, before, after);
      return Ok(done + n);
    }

    /**
     * One turn of the repaired loop: the part of the `wanted` bytes that the current
     * section holds is placed at `at`, and the position moves past it.
     */
    method ReadChunk(buffer: array<u8>, at: nat, wanted: nat) returns (r: Result<nat>)
      requires Valid()
      requires wanted > 0 && at + wanted <= buffer.Length
      modifies this`position, buffer
      ensures r.Err? <==> FindSection(sections, imageBase, old(position)).None?
      ensures r.Err? ==> r.error == OutOfSection(old(position)) && position == old(position) && buffer[..] == old(buffer[..])
      ensures r.Ok? ==>
        && 0 < r.value <= wanted && position == old(position) + r.value
        && buffer[..] == Filled(space, old(buffer[..]), at, old(position), r.value)
        && FirstUnmapped(space, old(position), r.value) == None
    {
      var found := GetCurrentSection();
      if found.Err? {
        return Err(OutOfSection(position));
      }
      var section := found.value;
      var endOfSection := imageBase + section.virtualAddress + section.virtualSize;
      var n := if wanted < endOfSection - position then wanted else endOfSection - position;
      CopySectionBytes(buffer, at, section, n);
      position := position + n;
      return Ok(n);
    }

    /** Copies `n` bytes of the section that holds the position into `buffer` at `at`, without moving. */
    method CopySectionBytes(buffer: array<u8>, at: nat, section: ImageSection, n: nat)
      requires Valid()
      requires FindSection(sections, imageBase, position) == Some(section)
      requires position + n <= EndOfSection(imageBase, section) && at + n <= buffer.Length
      modifies buffer
      ensures buffer[..] == Filled(space, old(buffer[..]), at, position, n)
      ensures FirstUnmapped(space, position, n) == None
    {
      var startOfSection := imageBase + section.virtualAddress;
      var endOfRawData := startOfSection + section.sizeOfRawData;
      var countInRawData := 0;
      if position < endOfRawData {
        countInRawData := if n < endOfRawData - position then n else endOfRawData - position;
      }
      ReadUnderlying(buffer, at, position - startOfSection + section.pointerToRawData, countInRawData);
      ZeroFill(buffer, at, countInRawData, n);
      ChunkBytes(space, section, old(buffer[..]), at, position, n);
      ChunkMapped(space, section, position, n);
    }
  }
}
