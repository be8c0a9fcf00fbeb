// Fixed-width integers of the on-disk formats, and their little-endian byte layout.
module Words {

  type u8 = x: int | 0 <= x < 0x100
  type u16 = x: int | 0 <= x < 0x1_0000
  type u32 = x: int | 0 <= x < 0x1_0000_0000

  /** The value of two little-endian bytes. */
  function LE16(s: seq<u8>): u16
    requires |s| == 2
  {
    s[0] as int + 0x100 * s[1] as int
  }

  /** The value of four little-endian bytes. */
  function LE32(s: seq<u8>): u32
    requires |s| == 4
  {
    LE16(s[..2]) + 0x1_0000 * LE16(s[2..])
  }

  /** The two little-endian bytes of a 16-bit value. */
  function Bytes16(v: u16): (s: seq<u8>)
  {
    [v % 0x100, v / 0x100]
  }

  lemma LE16Bytes16(v: u16)
    ensures LE16(Bytes16(v)) == v
  {
  }

  lemma Bytes16LE16(s: seq<u8>)
    requires |s| == 2
    ensures Bytes16(LE16(s)) == s
  {
  }

  /** The four little-endian bytes of a 32-bit value. */
  function Bytes32(v: u32): (s: seq<u8>)
  {
    Bytes16(v % 0x1_0000) + Bytes16(v / 0x1_0000)
  }

  lemma LE32Bytes32(v: u32)
    ensures LE32(Bytes32(v)) == v
  {
    var s := Bytes32(v);
    assert s[..2] == Bytes16(v % 0x1_0000);
    assert s[2..] == Bytes16(v / 0x1_0000);
  }

  type i16 = x: int | -0x8000 <= x < 0x8000
  type i32 = x: int | -0x8000_0000 <= x < 0x8000_0000

  /** Two's-complement reading of a 32-bit pattern (C# `int`). */
  function Int32(u: u32): (i: i32)
    ensures i % 0x1_0000_0000 == u
  {
    if u < 0x8000_0000 then u else u - 0x1_0000_0000
  }

  /** Two's-complement reading of a 16-bit pattern (C# `short`). */
  function Int16(u: u16): (i: i16)
    ensures i % 0x1_0000 == u
  {
    if u < 0x8000 then u else u - 0x1_0000
  }

  /** The reading is a bijection: every `int` has exactly one pattern. */
  lemma Int32Pattern(i: i32)
    ensures 0 <= i % 0x1_0000_0000 < 0x1_0000_0000 && Int32(i % 0x1_0000_0000) == i
  {
  }

  lemma Int16Pattern(i: i16)
    ensures 0 <= i % 0x1_0000 < 0x1_0000 && Int16(i % 0x1_0000) == i
  {
  }

  /** Unchecked `uint` addition: wraps modulo 2^32. */
  function AddU32(a: u32, b: u32): (r: u32)
    ensures r == (a + b) % 0x1_0000_0000
    ensures a + b < 0x1_0000_0000 ==> r == a + b
  {
    if a + b < 0x1_0000_0000 then a + b else a + b - 0x1_0000_0000
  }

  /** Unchecked `uint` multiplication: the low 32 bits of the product. */
  function MulU32(a: u32, b: u32): (r: u32)
    ensures r == (a * b) % 0x1_0000_0000
    ensures a * b < 0x1_0000_0000 ==> r == a * b
  {
    (a * b) % 0x1_0000_0000
  }

  /** The widths, in bytes, of the integer fields of the on-disk records. */
  predicate IsWidth(w: nat) { w == 1 || w == 2 || w == 4 }

  function Limit(w: nat): nat
  {
    if w == 1 then 0x100 else if w == 2 then 0x1_0000 else 0x1_0000_0000
  }

  /** The unsigned value of one little-endian field. */
  function FieldValue(b: seq<u8>): (v: nat)
    requires IsWidth(|b|)
    ensures v < Limit(|b|)
  {
    if |b| == 1 then b[0] else if |b| == 2 then LE16(b) else LE32(b)
  }

  /** The little-endian bytes of one field of width `w`. */
  function FieldBytes(v: nat, w: nat): (b: seq<u8>)
    requires IsWidth(w) && v < Limit(w)
    ensures |b| == w
  {
    if w == 1 then [v] else if w == 2 then Bytes16(v) else Bytes32(v)
  }

  lemma FieldRoundTrip(v: nat, w: nat)
    requires IsWidth(w) && v < Limit(w)
    ensures FieldValue(FieldBytes(v, w)) == v
  {
    if w == 2 { LE16Bytes16(v); } else if w == 4 { LE32Bytes32(v); }
  }

  predicate Widths(ws: seq<nat>) { forall i :: 0 <= i < |ws| ==> IsWidth(ws[i]) }

  function Size(ws: seq<nat>): nat
  {
    if ws == [] then 0 else ws[0] + Size(ws[1..])
  }

  /** The fields of a record laid out back to back with the given widths. */
  function Fields(b: seq<u8>, ws: seq<nat>): (vs: seq<nat>)
    requires Widths(ws) && |b| == Size(ws)
    ensures |vs| == |ws| && forall i :: 0 <= i < |ws| ==> vs[i] < Limit(ws[i])
  {
    if ws == [] then [] else [FieldValue(b[..ws[0]])] + Fields(b[ws[0]..], ws[1..])
  }

  /** The bytes of a record whose fields hold the given values. */
  function Record(vs: seq<nat>, ws: seq<nat>): (b: seq<u8>)
    requires Widths(ws) && |vs| == |ws|
    requires forall i :: 0 <= i < |ws| ==> vs[i] < Limit(ws[i])
    ensures |b| == Size(ws)
  {
    if ws == [] then [] else FieldBytes(vs[0], ws[0]) + Record(vs[1..], ws[1..])
  }

  /** Decoding a laid-out record gives every field back. */
  lemma {:induction false} FieldsOfRecord(vs: seq<nat>, ws: seq<nat>)
    requires Widths(ws) && |vs| == |ws|
    requires forall i :: 0 <= i < |ws| ==> vs[i] < Limit(ws[i])
    ensures Fields(Record(vs, ws), ws) == vs
  {
    if ws != [] {
      var b := Record(vs, ws);
      assert b[..ws[0]] == FieldBytes(vs[0], ws[0]);
      assert b[ws[0]..] == Record(vs[1..], ws[1..]);
      FieldRoundTrip(vs[0], ws[0]);
      FieldsOfRecord(vs[1..], ws[1..]);
      assert [vs[0]] + vs[1..] == vs;
    }
  }

  /** A record of three double words holds the values of its three 4-byte slices. */
  lemma FieldsOfTriple(b: seq<u8>)
    requires |b| == 12
    ensures Fields(b, [4, 4, 4]) == [LE32(b[..4]), LE32(b[4..8]), LE32(b[8..])]
  {
    var ws: seq<nat> := [4, 4, 4];
    assert ws[1..] == [4, 4] && ws[1..][1..] == [4] && ws[1..][1..][1..] == [];
    assert b[4..][..4] == b[4..8] && b[4..][4..] == b[8..] && b[8..][..4] == b[8..];
    assert Fields(b[8..], [4]) == [LE32(b[8..])] + Fields(b[8..][4..], []);
    assert Fields(b[4..], [4, 4]) == [LE32(b[4..8])] + Fields(b[8..], [4]);
    assert Fields(b, ws) == [LE32(b[..4])] + Fields(b[4..], [4, 4]);
  }
}
