// The part of a PE section header that the virtual-memory view needs, and the
// ordered set of sections the image reader builds from the section table.
module ImageSections {
  import opened Words

  /** Size in bytes of one section header in the section table. */
  const SectionHeaderSize: nat := 40

  datatype ImageSection = ImageSection(
    virtualSize: u32,
    virtualAddress: u32,
    sizeOfRawData: u32,
    pointerToRawData: u32)

  /**
   * Builds a section from the 40 bytes of a section header: PhysicalAddressOrVirtualSize
   * at offset 8, VirtualAddress at 12, SizeOfRawData at 16 and PointerToRawData at 20
   * (section 4 of the Microsoft PE/COFF specification, "Section Table").
   */
  function FromHeader(h: seq<u8>): ImageSection
    requires |h| == SectionHeaderSize
  {
    ImageSection(LE32(h[8..12]), LE32(h[12..16]), LE32(h[16..20]), LE32(h[20..24]))
  }

  /** A section header laid out as the PE/COFF specification places its fields. */
  function HeaderBytes(name: seq<u8>, s: ImageSection, tail: seq<u8>): (h: seq<u8>)
    requires |name| == 8 && |tail| == 16
    ensures |h| == SectionHeaderSize
  {
    name + Bytes32(s.virtualSize) + Bytes32(s.virtualAddress)
      + Bytes32(s.sizeOfRawData) + Bytes32(s.pointerToRawData) + tail
  }

  /** The constructor recovers exactly the four fields stored in a header, whatever its name and trailing fields. */
  lemma FromHeaderBytes(name: seq<u8>, s: ImageSection, tail: seq<u8>)
    requires |name| == 8 && |tail| == 16
    ensures FromHeader(HeaderBytes(name, s, tail)) == s
  {
    var h := HeaderBytes(name, s, tail);
    assert h[8..12] == Bytes32(s.virtualSize);
    assert h[12..16] == Bytes32(s.virtualAddress);
    assert h[16..20] == Bytes32(s.sizeOfRawData);
    assert h[20..24] == Bytes32(s.pointerToRawData);
    LE32Bytes32(s.virtualSize);
    LE32Bytes32(s.virtualAddress);
    LE32Bytes32(s.sizeOfRawData);
    LE32Bytes32(s.pointerToRawData);
  }

  /** Sections are ordered by their virtual address and by nothing else. */
  function CompareTo(a: ImageSection, b: ImageSection): (r: int)
    ensures r < 0 <==> a.virtualAddress < b.virtualAddress
    ensures r == 0 <==> a.virtualAddress == b.virtualAddress
    ensures r > 0 <==> a.virtualAddress > b.virtualAddress
    ensures -1 <= r <= 1
  {
    if a.virtualAddress < b.virtualAddress then -1
    else if a.virtualAddress > b.virtualAddress then 1
    else 0
  }

  /** CompareTo is a total preorder: antisymmetric and transitive, as a sorted set requires. */
  lemma CompareToIsOrder(a: ImageSection, b: ImageSection, c: ImageSection)
    ensures CompareTo(a, b) == -CompareTo(b, a)
    ensures CompareTo(a, b) <= 0 && CompareTo(b, c) <= 0 ==> CompareTo(a, c) <= 0
  {
  }

  /** Strictly increasing virtual addresses: the order of a sorted set keyed by CompareTo. */
  ghost predicate Sorted(ss: seq<ImageSection>)
  {
    forall i, j :: 0 <= i < j < |ss| ==> ss[i].virtualAddress < ss[j].virtualAddress
  }

  /**
   * Adding to a sorted set ordered by CompareTo: a section whose virtual address is
   * already present is ignored, otherwise it is inserted at its place in the order.
   */
  function Insert(ss: seq<ImageSection>, s: ImageSection): seq<ImageSection>
  {
    if ss == [] then [s]
    else if s.virtualAddress < ss[0].virtualAddress then [s] + ss
    else if s.virtualAddress == ss[0].virtualAddress then ss
    else [ss[0]] + Insert(ss[1..], s)
  }

  /** Insert keeps the set sorted and adds nothing but the new section. */
  lemma {:induction false} InsertSorted(ss: seq<ImageSection>, s: ImageSection)
    requires Sorted(ss)
    ensures Sorted(Insert(ss, s))
    ensures forall t :: t in Insert(ss, s) ==> t in ss || t == s
  {
    if ss != [] && s.virtualAddress > ss[0].virtualAddress {
      InsertSorted(ss[1..], s);
      var rest := Insert(ss[1..], s);
      forall t | t in rest ensures ss[0].virtualAddress < t.virtualAddress {
        if t in ss[1..] {
          var k :| 0 <= k < |ss[1..]| && ss[1..][k] == t;
          assert ss[k + 1] == t;
        }
      }
    }
  }

  /** A section whose virtual address is already in the set leaves the set as it was. */
  lemma {:induction false} InsertPresent(ss: seq<ImageSection>, s: ImageSection, k: nat)
    requires Sorted(ss)
    requires k < |ss| && ss[k].virtualAddress == s.virtualAddress
    ensures Insert(ss, s) == ss
  {
    if k > 0 {
      InsertPresent(ss[1..], s, k - 1);
      assert [ss[0]] + ss[1..] == ss;
    }
  }

  /** A section with a new virtual address is added once. */
  lemma {:induction false} InsertAbsent(ss: seq<ImageSection>, s: ImageSection)
    requires Sorted(ss)
    requires forall t :: t in ss ==> t.virtualAddress != s.virtualAddress
    ensures multiset(Insert(ss, s)) == multiset(ss) + multiset{s}
  {
    if ss != [] && s.virtualAddress > ss[0].virtualAddress {
      InsertAbsent(ss[1..], s);
      assert [ss[0]] + ss[1..] == ss;
    }
  }
}
