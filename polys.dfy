// Polygons of a mesh and their 16-bit word encodings: a triangle or a quad is its
// vertex indices; a strip is a header word (15-bit vertex count, bit 15 set when the
// strip is reversed) followed by its vertex indices.
module Polys {
  import opened Wrappers
  import opened Words
  import opened Data

  /** The largest vertex count a strip header can hold (a checked conversion to `short`). */
  const MaxStripVertices: nat := 0x7FFF

  /** Bit 15 of a strip header: the strip is reversed. */
  const ReversedBit: nat := 0x8000

  function NumberOfVertices(p: Poly): (n: nat)
    ensures p.Triangle? ==> n == 3
    ensures p.Quad? ==> n == 4
    ensures p.Strip? ==> n == |p.vertices|
  {
    match p
    case Triangle(_, _, _) => 3
    case Quad(_, _, _, _) => 4
    case Strip(_, vertices) => |vertices|
  }

  /** The header word of a strip with `count` vertices. */
  function StripHeader(isReversed: bool, count: nat): u16
    requires count <= MaxStripVertices
  {
    if isReversed then count + ReversedBit else count
  }

  /**
   * The on-disk words of a polygon. A strip with more vertices than its header can
   * count fails with an OverflowException.
   */
  function ToArray(p: Poly): (r: Result<seq<u16>>)
    ensures r.Err? <==> p.Strip? && |p.vertices| > MaxStripVertices
    ensures r.Err? ==> r.error == Overflow
    ensures p.Triangle? ==> r == Ok([p.v1, p.v2, p.v3])
    ensures p.Quad? ==> r == Ok([p.v1, p.v2, p.v3, p.v4])
    ensures r.Ok? && p.Strip? ==>
      |r.value| == |p.vertices| + 1
      && r.value[0] % ReversedBit == |p.vertices|
      && (r.value[0] >= ReversedBit <==> p.isReversed)
      && forall i :: 0 <= i < |p.vertices| ==> r.value[i + 1] == p.vertices[i]
  {
    match p
    case Triangle(v1, v2, v3) => Ok([v1, v2, v3])
    case Quad(v1, v2, v3, v4) => Ok([v1, v2, v3, v4])
    case Strip(isReversed, vertices) =>
      if |vertices| > MaxStripVertices then Err(Overflow)
      else Ok([StripHeader(isReversed, |vertices|)] + vertices)
  }

  /** A triangle or a quad is as many words as it has vertices. */
  lemma ToArrayLength(p: Poly)
    requires !p.Strip?
    ensures ToArray(p).Ok? && |ToArray(p).value| == NumberOfVertices(p)
  {
  }

  /**
   * The strip encoding, filling a fresh array: the count goes into the header word,
   * bit 15 is or-ed in for a reversed strip, then the indices follow.
   */
  method StripToArray(isReversed: bool, vertices: seq<u16>) returns (r: Result<array<u16>>)
    ensures r.Ok? <==> ToArray(Strip(isReversed, vertices)).Ok?
    ensures r.Err? ==> r.error == Overflow
    ensures r.Ok? ==> fresh(r.value) && r.value[..] == ToArray(Strip(isReversed, vertices)).value
  {
    if |vertices| > MaxStripVertices {
      return Err(Overflow);
    }
    var a := new u16[|vertices| + 1];
    a[0] := |vertices|;
    if isReversed {
      a[0] := a[0] + ReversedBit;
    }
    for i := 0 to |vertices|
      invariant a[0] == StripHeader(isReversed, |vertices|)
      invariant forall k :: 0 <= k < i ==> a[k + 1] == vertices[k]
    {
      a[i + 1] := vertices[i];
    }
    assert a[..] == [StripHeader(isReversed, |vertices|)] + vertices;
    return Ok(a);
  }

  /**
   * How the image reader rebuilds a strip from its words: the low 15 bits of the
   * header are the count, bit 15 the direction, and the count words that follow are
   * the indices.
   */
  function StripOfWords(w: seq<u16>): (p: Poly)
    requires |w| >= 1 && |w| == w[0] % ReversedBit + 1
    ensures p.Strip? && |p.vertices| == w[0] % ReversedBit
  {
    Strip(w[0] >= ReversedBit, w[1..])
  }

  /** Decoding the words of a strip gives the strip back. */
  lemma StripRoundTrip(isReversed: bool, vertices: seq<u16>)
    requires |vertices| <= MaxStripVertices
    ensures var w := ToArray(Strip(isReversed, vertices)).value;
      |w| >= 1 && |w| == w[0] % ReversedBit + 1 && StripOfWords(w) == Strip(isReversed, vertices)
  {
    var w := ToArray(Strip(isReversed, vertices)).value;
    assert w[1..] == vertices;
  }

  /** Encoding a decoded strip gives its words back. */
  lemma StripWordsRoundTrip(w: seq<u16>)
    requires |w| >= 1 && |w| == w[0] % ReversedBit + 1
    ensures ToArray(StripOfWords(w)) == Ok(w)
  {
    var r := ToArray(StripOfWords(w)).value;
    assert r[0] == w[0];
    assert r == w;
  }

  /** The three visit operations of a polygon visitor, each yielding a value or an exception. */
  datatype PolyVisitor<R> = PolyVisitor(
    visitTriangle: Poly -> Result<R>,
    visitQuad: Poly -> Result<R>,
    visitStrip: Poly -> Result<R>)

  /** Double dispatch: a null visitor is rejected, otherwise the visit matching the polygon's type runs once. */
  function Accept<R>(p: Poly, visitor: Option<PolyVisitor<R>>): (r: Result<R>)
    ensures visitor.None? ==> r == Err(ArgumentNull("visitor"))
    ensures visitor.Some? && p.Triangle? ==> r == visitor.value.visitTriangle(p)
    ensures visitor.Some? && p.Quad? ==> r == visitor.value.visitQuad(p)
    ensures visitor.Some? && p.Strip? ==> r == visitor.value.visitStrip(p)
  {
    match visitor
    case None => Err(ArgumentNull("visitor"))
    case Some(v) =>
      match p
      case Triangle(_, _, _) => v.visitTriangle(p)
      case Quad(_, _, _, _) => v.visitQuad(p)
      case Strip(_, _) => v.visitStrip(p)
  }
}
