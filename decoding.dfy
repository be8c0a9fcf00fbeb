// What the image reader takes from memory, as functions of its memory: runs of
// fixed-size records, strips, and the vertex counts of an object tree. The reader's
// methods are proved to compute these.
module Decoding {
  import opened Wrappers
  import opened Words
  import opened AddressSpaces
  import opened Data
  import opened Polys

  /** `count` consecutive records of `size` bytes from `pos`, or the failure of the first byte that cannot be read. */
  function RecordsAt(mem: Memory, pos: int, count: nat, size: nat): (r: Result<seq<seq<u8>>>)
    ensures r.Ok? ==> |r.value| == count && forall i :: 0 <= i < count ==> |r.value[i]| == size
    decreases count
  {
    if count == 0 then Ok([])
    else
      var first :- ReadBytes(mem, pos, size);
      var rest :- RecordsAt(mem, pos + size, count - 1, size);
      Ok([first] + rest)
  }

  /** `n` bytes are read back as stored: a run of readable bytes is what ReadBytes returns. */
  lemma {:induction false} ReadBytesOfRun(mem: Memory, pos: int, b: seq<u8>)
    requires forall i :: 0 <= i < |b| ==> mem[pos + i] == Ok(b[i])
    ensures ReadBytes(mem, pos, |b|) == Ok(b)
    decreases |b|
  {
    if b != [] {
      forall i | 0 <= i < |b[1..]| ensures mem[pos + 1 + i] == Ok(b[1..][i]) {
        assert pos + 1 + i == pos + (i + 1);
      }
      ReadBytesOfRun(mem, pos + 1, b[1..]);
      assert mem[pos] == Ok(b[0]);
      assert b == [b[0]] + b[1..];
    }
  }

  /** Memory that holds the records back to back, starting at `pos`. */
  ghost predicate HoldsRecords(mem: Memory, pos: int, records: seq<seq<u8>>, size: nat)
  {
    forall k :: 0 <= k < |records| ==> ReadBytes(mem, pos + size * k, size) == Ok(records[k])
  }

  /** A successful read of records is the records stored back to back from `pos`. */
  lemma {:induction false} RecordsAtMeaning(mem: Memory, pos: int, count: nat, size: nat)
    requires RecordsAt(mem, pos, count, size).Ok?
    ensures HoldsRecords(mem, pos, RecordsAt(mem, pos, count, size).value, size)
    decreases count
  {
    if count > 0 {
      var rs := RecordsAt(mem, pos, count, size).value;
      RecordsAtMeaning(mem, pos + size, count - 1, size);
      forall k | 0 <= k < |rs| ensures ReadBytes(mem, pos + size * k, size) == Ok(rs[k]) {
        if k > 0 {
          assert pos + size * k == pos + size + size * (k - 1);
        }
      }
    }
  }

  /** Records stored from `pos` start with the first one... */
  lemma HoldsRecordsFirst(mem: Memory, pos: int, records: seq<seq<u8>>, size: nat)
    requires HoldsRecords(mem, pos, records, size) && records != []
    ensures ReadBytes(mem, pos, size) == Ok(records[0])
  {
    var p := pos + size * 0;
    assert p == pos;
    assert ReadBytes(mem, p, size) == Ok(records[0]);
  }

  /** ...and the others follow one record later. */
  lemma HoldsRecordsRest(mem: Memory, pos: int, records: seq<seq<u8>>, size: nat)
    requires HoldsRecords(mem, pos, records, size) && records != []
    ensures HoldsRecords(mem, pos + size, records[1..], size)
  {
    var rest := records[1..];
    forall k | 0 <= k < |rest| ensures ReadBytes(mem, pos + size + size * k, size) == Ok(rest[k]) {
      assert pos + size + size * k == pos + size * (k + 1);
      assert rest[k] == records[k + 1];
    }
  }

  lemma RecordsAtCons(mem: Memory, pos: int, records: seq<seq<u8>>, size: nat)
    requires records != []
    requires ReadBytes(mem, pos, size) == Ok(records[0])
    requires RecordsAt(mem, pos + size, |records| - 1, size) == Ok(records[1..])
    ensures RecordsAt(mem, pos, |records|, size) == Ok(records)
  {
    var first, rest := records[0], records[1..];
    assert RecordsAt(mem, pos, |records|, size) == Ok([first] + rest);
    assert [first] + rest == records;
  }

  /** The records laid out back to back from `pos` are read back one by one. */
  lemma {:induction false} RecordsAtOfLayout(mem: Memory, pos: int, records: seq<seq<u8>>, size: nat)
    requires HoldsRecords(mem, pos, records, size)
    ensures RecordsAt(mem, pos, |records|, size) == Ok(records)
    decreases |records|
  {
    if records != [] {
      HoldsRecordsFirst(mem, pos, records, size);
      HoldsRecordsRest(mem, pos, records, size);
      RecordsAtOfLayout(mem, pos + size, records[1..], size);
      RecordsAtCons(mem, pos, records, size);
    }
  }

  /** The `count` 16-bit words from `pos`, little-endian. */
  function WordsAt(mem: Memory, pos: int, count: nat): (r: Result<seq<u16>>)
    ensures r.Ok? ==> |r.value| == count
    decreases count
  {
    if count == 0 then Ok([])
    else
      var first :- U16At(mem, pos);
      var rest :- WordsAt(mem, pos + 2, count - 1);
      Ok([first] + rest)
  }

  /** One step of a run of records: the first record, then the rest. */
  lemma RecordsAtUnfold(mem: Memory, pos: int, count: nat, size: nat)
    requires count > 0
    ensures RecordsAt(mem, pos, count, size)
         == if ReadBytes(mem, pos, size).Err? then Err(ReadBytes(mem, pos, size).error)
            else Consed(ReadBytes(mem, pos, size).value, RecordsAt(mem, pos + size, count - 1, size))
  {
  }

  /** One step of a run of words: the first word, then the rest. */
  lemma WordsAtUnfold(mem: Memory, pos: int, count: nat)
    requires count > 0
    ensures WordsAt(mem, pos, count)
         == if U16At(mem, pos).Err? then Err(U16At(mem, pos).error)
            else Consed(U16At(mem, pos).value, WordsAt(mem, pos + 2, count - 1))
  {
  }

  /** A loop over records that has read `records` and stands at `pos` reads one more, or fails there. */
  lemma RecordsStep(mem: Memory, p0: int, count: nat, size: nat, records: seq<seq<u8>>, pos: int, left: nat)
    requires left > 0
    requires RecordsAt(mem, p0, count, size) == Prepended(records, RecordsAt(mem, pos, left, size))
    ensures ReadBytes(mem, pos, size).Err? ==> RecordsAt(mem, p0, count, size) == Err(ReadBytes(mem, pos, size).error)
    ensures ReadBytes(mem, pos, size).Ok? ==>
              RecordsAt(mem, p0, count, size)
              == Prepended(records + [ReadBytes(mem, pos, size).value], RecordsAt(mem, pos + size, left - 1, size))
  {
    RecordsAtUnfold(mem, pos, left, size);
    if ReadBytes(mem, pos, size).Ok? {
      PrependedConsed(records, ReadBytes(mem, pos, size).value, RecordsAt(mem, pos + size, left - 1, size));
    }
  }

  /** A loop over words that has read `words` and stands at `pos` reads one more, or fails there. */
  lemma WordsStep(mem: Memory, p0: int, count: nat, words: seq<u16>, pos: int, left: nat)
    requires left > 0
    requires WordsAt(mem, p0, count) == Prepended(words, WordsAt(mem, pos, left))
    ensures U16At(mem, pos).Err? ==> WordsAt(mem, p0, count) == Err(U16At(mem, pos).error)
    ensures U16At(mem, pos).Ok? ==>
              WordsAt(mem, p0, count) == Prepended(words + [U16At(mem, pos).value], WordsAt(mem, pos + 2, left - 1))
  {
    WordsAtUnfold(mem, pos, left);
    if U16At(mem, pos).Ok? {
      PrependedConsed(words, U16At(mem, pos).value, WordsAt(mem, pos + 2, left - 1));
    }
  }

  /**
   * A strip as the reader takes it from memory: a header word whose low 15 bits are the
   * number of indices and whose bit 15 says the strip is reversed, then the indices.
   */
  function StripAt(mem: Memory, pos: int): (r: Result<Poly>)
    ensures r.Ok? ==> r.value.Strip?
  {
    var header :- U16At(mem, pos);
    var vertices :- WordsAt(mem, pos + 2, header % ReversedBit);
    Ok(Strip(header >= ReversedBit, vertices))
  }

  /** The number of bytes a strip occupies: its header and its indices. */
  function StripSize(p: Poly): nat
    requires p.Strip?
  {
    2 + 2 * |p.vertices|
  }

  /** Memory that holds the words, little-endian, from `pos`. */
  ghost predicate HoldsWords(mem: Memory, pos: int, w: seq<u16>)
  {
    forall k :: 0 <= k < |w| ==> ReadBytes(mem, pos + 2 * k, 2) == Ok(Bytes16(w[k]))
  }

  lemma HoldsWordsSplit(mem: Memory, pos: int, w: seq<u16>)
    requires HoldsWords(mem, pos, w) && w != []
    ensures U16At(mem, pos) == Ok(w[0])
    ensures HoldsWords(mem, pos + 2, w[1..])
  {
    assert ReadBytes(mem, pos + 2 * 0, 2) == Ok(Bytes16(w[0]));
    U16AtBytes(mem, pos);
    LE16Bytes16(w[0]);
    forall k | 0 <= k < |w[1..]| ensures ReadBytes(mem, pos + 2 + 2 * k, 2) == Ok(Bytes16(w[1..][k])) {
      assert pos + 2 + 2 * k == pos + 2 * (k + 1);
    }
  }

  lemma WordsAtCons(mem: Memory, pos: int, w: seq<u16>)
    requires w != []
    requires U16At(mem, pos) == Ok(w[0])
    requires WordsAt(mem, pos + 2, |w| - 1) == Ok(w[1..])
    ensures WordsAt(mem, pos, |w|) == Ok(w)
  {
    assert w == [w[0]] + w[1..];
  }

  /** Words stored little-endian from `pos` are read back. */
  lemma {:induction false} WordsAtOfLayout(mem: Memory, pos: int, w: seq<u16>)
    requires HoldsWords(mem, pos, w)
    ensures WordsAt(mem, pos, |w|) == Ok(w)
    decreases |w|
  {
    if w != [] {
      HoldsWordsSplit(mem, pos, w);
      WordsAtOfLayout(mem, pos + 2, w[1..]);
      WordsAtCons(mem, pos, w);
    }
  }

  /** The words of a strip, as its ToArray encodes them, are read back as that strip. */
  lemma StripAtOfToArray(mem: Memory, pos: int, isReversed: bool, vertices: seq<u16>)
    requires |vertices| <= MaxStripVertices
    requires HoldsWords(mem, pos, ToArray(Strip(isReversed, vertices)).value)
    ensures StripAt(mem, pos) == Ok(Strip(isReversed, vertices))
  {
    var w := ToArray(Strip(isReversed, vertices)).value;
    StripRoundTrip(isReversed, vertices);
    WordsAtOfLayout(mem, pos, w);
    assert WordsAt(mem, pos, |w|) == Ok(w);
    assert U16At(mem, pos) == Ok(w[0]);
    assert WordsAt(mem, pos + 2, w[0] % ReversedBit) == Ok(w[1..]);
  }

  function TriangleOf(b: seq<u8>): Poly
    requires |b| == 6
  {
    var f := Fields(b, [2, 2, 2]);
    Triangle(f[0], f[1], f[2])
  }

  function QuadOf(b: seq<u8>): Poly
    requires |b| == 8
  {
    var f := Fields(b, [2, 2, 2, 2]);
    Quad(f[0], f[1], f[2], f[3])
  }

  /** A triangle's or a quad's record is its words: reading the words of ToArray back gives the polygon. */
  lemma PolyRecordRoundTrip(p: Poly)
    requires !p.Strip?
    ensures p.Triangle? ==> TriangleOf(Record([p.v1, p.v2, p.v3], [2, 2, 2])) == p
    ensures p.Quad? ==> QuadOf(Record([p.v1, p.v2, p.v3, p.v4], [2, 2, 2, 2])) == p
  {
    if p.Triangle? {
      FieldsOfRecord([p.v1, p.v2, p.v3], [2, 2, 2]);
    } else {
      FieldsOfRecord([p.v1, p.v2, p.v3, p.v4], [2, 2, 2, 2]);
    }
  }

  // The vertex counts of an object tree

  /** Bit 6 of an OBJECT's flags: the model is left out of animation. */
  predicate Ignored(flags: u32)
  {
    (flags / 0x40) % 2 == 1
  }

  /**
   * The vertex count of each animatable model of the object tree at `r`, in pre-order
   * (the object, then its child's tree, then its sibling's tree): an ignored object adds
   * nothing but its descendants are still visited; an object without a model counts 0.
   * A null object, or a model whose vertex array is null, is a NullReferenceException.
   */
  function CountVerticesInObject(h: seq<Entity>, r: Ref): (counts: Result<seq<int>>)
    requires HeapValid(h) && RefOk(h, |h|, r, ObjectKind)
    decreases if r.Ptr? then r.id + 1 else 0
  {
    if r.Null? then Err(NullReference)
    else
      var obj := h[r.id];
      assert EntityOk(h, r.id, obj);
      var child := if obj.child.Null? then Ok([]) else CountVerticesInObject(h, obj.child);
      var sibling := if obj.sibling.Null? then Ok([]) else CountVerticesInObject(h, obj.sibling);
      Concat(Concat(OwnCount(h, obj), child), sibling)
  }

  /** The counts of an object tree do not change when the arena grows. */
  lemma {:induction false} CountVerticesGrows(h: seq<Entity>, h': seq<Entity>, r: Ref)
    requires HeapValid(h) && HeapValid(h') && h <= h' && RefOk(h, |h|, r, ObjectKind)
    ensures RefOk(h', |h'|, r, ObjectKind) && CountVerticesInObject(h', r) == CountVerticesInObject(h, r)
    decreases if r.Ptr? then r.id + 1 else 0
  {
    if r.Ptr? {
      var obj := h[r.id];
      assert h'[r.id] == obj;
      assert EntityOk(h, r.id, obj);
      OwnCountGrows(h, h', obj, r.id);
      if obj.child.Ptr? {
        CountVerticesGrows(h, h', obj.child);
      }
      if obj.sibling.Ptr? {
        CountVerticesGrows(h, h', obj.sibling);
      }
    }
  }

  lemma OwnCountGrows(h: seq<Entity>, h': seq<Entity>, obj: Entity, bound: nat)
    requires HeapValid(h) && h <= h' && bound <= |h| && EntityOk(h, bound, obj)
    ensures OwnCount(h', obj) == OwnCount(h, obj)
  {
    if obj.Object? && obj.attach.Ptr? {
      var attach := h[obj.attach.id];
      assert h'[obj.attach.id] == attach;
      assert EntityOk(h, obj.attach.id, attach);
      if attach.Attach? && attach.vertices.Ptr? {
        assert h'[attach.vertices.id] == h[attach.vertices.id];
      }
    }
  }

  /**
   * What one object adds to the counts: nothing when it is ignored, 0 without a model,
   * otherwise the size of its model's vertex array. (A reference to something other than
   * a model cannot occur in a valid arena; it is read as a null model's failure.)
   */
  function OwnCount(h: seq<Entity>, obj: Entity): Result<seq<int>>
  {
    if !obj.Object? || Ignored(obj.flags) then Ok([])
    else if obj.attach.Null? then Ok([0])
    else if obj.attach.id < |h| && h[obj.attach.id].Attach? then VertexCount(h, h[obj.attach.id].vertices)
    else Err(NullReference)
  }

  /** The number of elements of the vertex array of a model, as a one-element list. */
  function VertexCount(h: seq<Entity>, vertices: Ref): Result<seq<int>>
  {
    if vertices.Null? || vertices.id >= |h| || !h[vertices.id].Collection? then Err(NullReference)
    else Ok([Count(h[vertices.id].items)])
  }

  /** The objects of the tree at `r` in pre-order: the object, its child's tree, its sibling's tree. */
  function PreOrder(h: seq<Entity>, r: Ref): (objs: seq<Entity>)
    requires HeapValid(h) && RefOk(h, |h|, r, ObjectKind)
    ensures forall i :: 0 <= i < |objs| ==> objs[i].Object?
    ensures r.Ptr? ==> objs != [] && objs[0] == h[r.id]
    decreases if r.Ptr? then r.id + 1 else 0
  {
    if r.Null? then []
    else
      var obj := h[r.id];
      assert EntityOk(h, r.id, obj);
      [obj] + PreOrder(h, obj.child) + PreOrder(h, obj.sibling)
  }

  /** Two lists of counts one after the other, or the first failure. */
  function Concat(a: Result<seq<int>>, b: Result<seq<int>>): (r: Result<seq<int>>)
    ensures r.Ok? <==> a.Ok? && b.Ok?
    ensures r.Ok? ==> r.value == a.value + b.value
    ensures a.Err? ==> r == a
  {
    var x :- a;
    var y :- b;
    Ok(x + y)
  }

  lemma ConcatAssociative(a: Result<seq<int>>, b: Result<seq<int>>, c: Result<seq<int>>)
    ensures Concat(Concat(a, b), c) == Concat(a, Concat(b, c))
  {
    if a.Ok? && b.Ok? && c.Ok? {
      assert (a.value + b.value) + c.value == a.value + (b.value + c.value);
    }
  }

  /** The counts of a list of objects, each contributing as OwnCount says, or the first failure. */
  function CountsOf(h: seq<Entity>, objs: seq<Entity>): Result<seq<int>>
  {
    if objs == [] then Ok([])
    else Concat(OwnCount(h, objs[0]), CountsOf(h, objs[1..]))
  }

  lemma {:induction false} CountsOfAppend(h: seq<Entity>, a: seq<Entity>, b: seq<Entity>)
    ensures CountsOf(h, a + b) == Concat(CountsOf(h, a), CountsOf(h, b))
    decreases |a|
  {
    if a == [] {
      assert a + b == b;
      if CountsOf(h, b).Ok? {
        assert [] + CountsOf(h, b).value == CountsOf(h, b).value;
      }
    } else {
      assert (a + b)[1..] == a[1..] + b;
      assert (a + b)[0] == a[0];
      CountsOfAppend(h, a[1..], b);
      ConcatAssociative(OwnCount(h, a[0]), CountsOf(h, a[1..]), CountsOf(h, b));
    }
  }

  /** The walk over a possibly null reference: nothing for null. */
  function Subtree(h: seq<Entity>, r: Ref): Result<seq<int>>
    requires HeapValid(h) && RefOk(h, |h|, r, ObjectKind)
  {
    if r.Null? then Ok([]) else CountVerticesInObject(h, r)
  }

  lemma SubtreeUnfold(h: seq<Entity>, r: Ref)
    requires HeapValid(h) && RefOk(h, |h|, r, ObjectKind) && r.Ptr?
    ensures EntityOk(h, r.id, h[r.id])
    ensures Subtree(h, r) == Concat(Concat(OwnCount(h, h[r.id]), Subtree(h, h[r.id].child)), Subtree(h, h[r.id].sibling))
  {
    assert EntityOk(h, r.id, h[r.id]);
  }

  lemma PreOrderUnfold(h: seq<Entity>, r: Ref)
    requires HeapValid(h) && RefOk(h, |h|, r, ObjectKind) && r.Ptr?
    ensures EntityOk(h, r.id, h[r.id])
    ensures PreOrder(h, r) == [h[r.id]] + (PreOrder(h, h[r.id].child) + PreOrder(h, h[r.id].sibling))
  {
    assert EntityOk(h, r.id, h[r.id]);
  }

  lemma CountsOfCons(h: seq<Entity>, obj: Entity, rest: seq<Entity>)
    ensures CountsOf(h, [obj] + rest) == Concat(OwnCount(h, obj), CountsOf(h, rest))
  {
    assert ([obj] + rest)[1..] == rest;
  }

  /**
   * The recursive walk is the fold of the per-object contributions over the pre-order
   * list of the tree's objects: it yields the same counts, or the same failure.
   */
  lemma {:induction false} CountVerticesIsPreOrderFold(h: seq<Entity>, r: Ref)
    requires HeapValid(h) && RefOk(h, |h|, r, ObjectKind)
    ensures Subtree(h, r) == CountsOf(h, PreOrder(h, r))
    decreases if r.Ptr? then r.id + 1 else 0
  {
    if r.Ptr? {
      SubtreeUnfold(h, r);
      PreOrderUnfold(h, r);
      var obj := h[r.id];
      CountVerticesIsPreOrderFold(h, obj.child);
      CountVerticesIsPreOrderFold(h, obj.sibling);
      CountsOfAppend(h, PreOrder(h, obj.child), PreOrder(h, obj.sibling));
      CountsOfCons(h, obj, PreOrder(h, obj.child) + PreOrder(h, obj.sibling));
      ConcatAssociative(OwnCount(h, obj), Subtree(h, obj.child), Subtree(h, obj.sibling));
    }
  }
}
