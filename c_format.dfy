// The small renderings the C exporter builds its text from (CExporter/CExporter.cs):
// identifier checks, integers, fixed-width hexadecimal, single-precision literals and
// flag words written as or-ed named constants.
module CFormat {
  import opened Wrappers
  import opened Words
  import opened Text
  import opened Data

  predicate IsIdentifierStart(c: char)
  {
    ('A' <= c <= 'Z') || c == '_' || ('a' <= c <= 'z')
  }

  predicate IsIdentifierPart(c: char)
  {
    ('0' <= c <= '9') || IsIdentifierStart(c)
  }

  /** A C identifier: a letter or an underscore, then letters, digits and underscores. */
  predicate IsIdentifier(s: string)
  {
    |s| > 0 && IsIdentifierStart(s[0]) && forall i :: 1 <= i < |s| ==> IsIdentifierPart(s[i])
  }

  /** A name that is present and is a C identifier. */
  predicate ValidName(name: Option<string>)
  {
    name.Some? && IsIdentifier(name.value)
  }

  /** What appending a possibly null name to a StringBuilder adds: nothing for null. */
  function NameText(name: Option<string>): string
  {
    if name.Some? then name.value else ""
  }

  /** The exception ValidateName throws for `name`. */
  function InvalidNameError(name: Option<string>): Exception
  {
    Argument(InvalidName(NameText(name)))
  }

  /**
   * Accepts exactly the C identifiers; a null or empty name, a bad first character or a
   * bad later character is an ArgumentException.
   */
  method ValidateName(name: Option<string>) returns (r: Result<()>)
    ensures r.Ok? <==> ValidName(name)
    ensures r.Err? ==> r.error == InvalidNameError(name)
  {
    if name.None? || |name.value| == 0 {
      return Err(InvalidNameError(name));
    }
    var s := name.value;
    var ch := s[0];
    if !(('A' <= ch <= 'Z') || ch == '_' || ('a' <= ch <= 'z')) {
      return Err(InvalidNameError(name));
    }
    for i := 1 to |s|
      invariant forall k :: 1 <= k < i ==> IsIdentifierPart(s[k])
    {
      ch := s[i];
      if !(('0' <= ch <= '9') || ('A' <= ch <= 'Z') || ch == '_' || ('a' <= ch <= 'z')) {
        return Err(InvalidNameError(name));
      }
    }
    return Ok(());
  }

  /**
   * The invariant-culture "D" rendering of a `short`, `ushort` or `int` (FormatInt16,
   * FormatUInt16, FormatInt32): an optional minus sign and digits that read back as the value.
   */
  function FormatInteger(v: int): (s: string)
    ensures |s| >= 1 && (s[0] == '-' || IsDecimalDigit(s[0]))
    ensures forall k :: 1 <= k < |s| ==> IsDecimalDigit(s[k])
    ensures ParseDecimal(s) == v
  {
    ParseDecimalOfDecimal(v);
    Decimal(v)
  }

  /**
   * "0x" and the uppercase "X<width>" digits (FormatUInt8Hex, FormatUInt16Hex and
   * FormatUInt32Hex use widths 2, 4 and 8): the digits read back as the value, and a value
   * of the declared width is written with exactly `width` digits.
   */
  function FormatHex(v: nat, width: nat): (s: string)
    ensures |s| >= 2 + width && s[..2] == "0x" && HexDigits(s[2..])
    ensures ParseHex(s[2..]) == v
    ensures 1 <= width && v < Pow16(width) ==> |s| == 2 + width
  {
    ParseHexOfHex(v, width);
    var digits := Hex(v, width);
    assert ("0x" + digits)[2..] == digits;
    if 1 <= width && v < Pow16(width) then
      HexWidth(v, width);
      "0x" + digits
    else
      "0x" + digits
  }

  /** The widths of the three fixed-width integer types, in hexadecimal digits. */
  lemma HexWidths()
    ensures Pow16(2) == 0x100 && Pow16(4) == 0x1_0000 && Pow16(8) == 0x1_0000_0000
  {
    assert Pow16(1) == 16;
    assert Pow16(2) == 0x100;
    assert Pow16(3) == 0x1000;
    assert Pow16(4) == 0x1_0000;
    assert Pow16(6) == 0x100_0000 by {
      assert Pow16(5) == 0x10_0000;
    }
    assert Pow16(8) == 0x1_0000_0000 by {
      assert Pow16(7) == 0x1000_0000;
    }
  }

  /** The "R" (round-trip) digits of a single-precision value; the conversion itself is not modelled. */
  type Render = Single -> string

  /**
   * A single-precision C literal: the round-trip digits, with ".0" added when they hold
   * neither a decimal point nor an exponent, then the "f" suffix. The result has a '.' or an
   * 'E' before its final "f", and digits that already have one are kept unchanged. For a
   * finite value this is a C float literal; "NaN" and "Infinity" become text C does not accept.
   */
  function FormatSingle(render: Render, v: Single): (s: string)
    ensures |s| >= 1 && s[|s| - 1] == 'f'
    ensures '.' in s[..|s| - 1] || 'E' in s[..|s| - 1]
    ensures render(v) <= s
    ensures s == render(v) + "f" <==> ('.' in render(v) || 'E' in render(v))
  {
    var digits := render(v);
    var literal := if '.' !in digits && 'E' !in digits then digits + ".0" else digits;
    assert (literal + "f")[..|literal|] == literal;
    assert '.' !in digits && 'E' !in digits ==> literal[|digits|] == '.';
    literal + "f"
  }

  function FormatVector3(render: Render, v: Vector3): string
  {
    "{ " + FormatSingle(render, v.x) + ", " + FormatSingle(render, v.y) + ", " + FormatSingle(render, v.z) + " }"
  }

  function FormatRotation3(r: Rotation3): string
  {
    "{ " + FormatInteger(r.x) + ", " + FormatInteger(r.y) + ", " + FormatInteger(r.z) + " }"
  }

  // ---------------------------------------------------------------------------------
  // Flag words

  /** The named bits of OBJECT.Flags, bit 0 first. */
  const ObjectFlagNames: seq<string> := [
    "ObjectFlags_NoTranslate", "ObjectFlags_NoRotate", "ObjectFlags_NoScale", "ObjectFlags_NoDraw",
    "ObjectFlags_NoChildren", "ObjectFlags_UseZYXRotation", "ObjectFlags_NoAnimate", "ObjectFlags_80"]

  /** The named bits of AnimHead2.Flags, bit 0 first. */
  const AnimHead2FlagNames: seq<string> := [
    "AnimHead2Flags_HasPosition", "AnimHead2Flags_HasRotation", "AnimHead2Flags_HasScale",
    "AnimHead2Flags_08", "AnimHead2Flags_HasVertex", "AnimHead2Flags_HasNormal"]

  const ObjectFlagsNone: string := "ObjectFlags_None"
  const AnimHead2FlagsNone: string := "AnimHead2Flags_None"

  /** The separator of or-ed constants. */
  const FlagSeparator: string := " | "

  function Pow2(n: nat): (p: nat)
    ensures p >= 1
  {
    if n == 0 then 1 else 2 * Pow2(n - 1)
  }

  /** `flags & (1 << i)` is not zero. */
  predicate HasBit(flags: nat, i: nat)
  {
    if i == 0 then flags % 2 == 1 else HasBit(flags / 2, i - 1)
  }

  /** `flags & ((1 << n) - 1)`: the low `n` bits. */
  function LowBits(flags: nat, n: nat): (low: nat)
    ensures low <= flags
  {
    if n == 0 then 0 else flags % 2 + 2 * LowBits(flags / 2, n - 1)
  }

  /** The names of the set bits from bit `i` up to the last named one, in ascending order. */
  function SetBitNames(flags: nat, names: seq<string>, i: nat): seq<string>
    requires i <= |names|
    decreases |names| - i
  {
    if i == |names| then []
    else (if HasBit(flags, i) then [names[i]] else []) + SetBitNames(flags, names, i + 1)
  }

  /** `flags` with its low `n` bits cleared: the bits no constant names. */
  function Residue(flags: nat, n: nat): nat
  {
    flags - LowBits(flags, n)
  }

  /** The parts of a non-zero flag word: the set named bits, then the residue in "X8" hexadecimal if it is not zero. */
  function FlagParts(flags: nat, names: seq<string>): seq<string>
  {
    var residue := Residue(flags, |names|);
    SetBitNames(flags, names, 0) + (if residue != 0 then [FormatHex(residue, 8)] else [])
  }

  /** A flag word as C text: the "none" constant for zero, otherwise its parts or-ed together. */
  function FormatFlags(flags: nat, names: seq<string>, none: string): string
  {
    if flags == 0 then none else Join(FlagParts(flags, names), FlagSeparator)
  }

  function FormatObjectFlags(flags: u32): string
  {
    FormatFlags(flags, ObjectFlagNames, ObjectFlagsNone)
  }

  function FormatAnimHead2Flags(flags: u16): string
  {
    FormatFlags(flags, AnimHead2FlagNames, AnimHead2FlagsNone)
  }

  // Reading the C text back: what a C compiler computes from the or-ed constants.

  /** The position of `part` among `names`, or |names| when it is not one of them. */
  function IndexOf(names: seq<string>, part: string): (k: nat)
    ensures k <= |names|
    ensures k < |names| ==> names[k] == part && forall m :: 0 <= m < k ==> names[m] != part
    ensures k == |names| ==> part !in names
  {
    if names == [] then 0
    else if names[0] == part then 0
    else 1 + IndexOf(names[1..], part)
  }

  /** The value of one or-ed constant: a named bit, or a hexadecimal literal. */
  function FlagValue(part: string, names: seq<string>): nat
  {
    var k := IndexOf(names, part);
    if k < |names| then Pow2(k)
    else if |part| >= 2 && part[..2] == "0x" && HexDigits(part[2..]) then ParseHex(part[2..])
    else 0
  }

  function SumValues(parts: seq<string>, names: seq<string>): nat
  {
    if parts == [] then 0 else FlagValue(parts[0], names) + SumValues(parts[1..], names)
  }

  /** The value of C text made of or-ed constants (the bits are disjoint, so `|` adds them). */
  function ParseFlags(s: string, names: seq<string>, none: string): nat
  {
    if s == none then 0 else SumValues(Split(s, FlagSeparator), names)
  }

  /**
   * Constants the text of a flag word keeps apart: distinct names, none of them the
   * "none" constant, none holding a space or starting like a hexadecimal literal.
   */
  predicate Distinguishable(names: seq<string>, none: string)
  {
    && none !in names && |none| > 0 && none[0] != '0' && ' ' !in none
    && (forall i :: 0 <= i < |names| ==> |names[i]| > 0 && names[i][0] != '0' && ' ' !in names[i])
    && (forall i, j :: 0 <= i < j < |names| ==> names[i] != names[j])
  }

  lemma {:induction false} SumValuesAppend(a: seq<string>, b: seq<string>, names: seq<string>)
    ensures SumValues(a + b, names) == SumValues(a, names) + SumValues(b, names)
  {
    if a != [] {
      assert (a + b)[1..] == a[1..] + b;
      SumValuesAppend(a[1..], b, names);
    } else {
      assert a + b == b;
    }
  }

  /** One more low bit: the low k+1 bits are the low k bits plus bit k's weight when it is set. */
  lemma {:induction false} LowBitsNext(f: nat, k: nat)
    ensures LowBits(f, k + 1) == LowBits(f, k) + (if HasBit(f, k) then Pow2(k) else 0)
  {
    if k > 0 {
      LowBitsNext(f / 2, k - 1);
    }
  }

  /** The named set bits from bit `i` upward add up to the low |names| bits above bit `i`. */
  lemma {:induction false} SetBitNamesSum(flags: nat, names: seq<string>, i: nat)
    requires i <= |names| && forall a, b :: 0 <= a < b < |names| ==> names[a] != names[b]
    ensures SumValues(SetBitNames(flags, names, i), names) == LowBits(flags, |names|) - LowBits(flags, i)
    decreases |names| - i
  {
    if i < |names| {
      var here: seq<string> := if HasBit(flags, i) then [names[i]] else [];
      SetBitNamesSum(flags, names, i + 1);
      SumValuesAppend(here, SetBitNames(flags, names, i + 1), names);
      LowBitsNext(flags, i);
      if HasBit(flags, i) {
        assert IndexOf(names, names[i]) == i;
        assert SumValues(here, names) == Pow2(i);
      }
    }
  }

  /** The characters of a hexadecimal digit string one by one. */
  lemma {:induction false} HexDigitsAt(s: string, i: nat)
    requires HexDigits(s) && i < |s|
    ensures IsHexDigit(s[i])
    decreases |s|
  {
    if i < |s| - 1 {
      HexDigitsAt(s[..|s| - 1], i);
    }
  }

  /** A residue part is a hexadecimal literal that is none of the names and holds no space. */
  lemma ResiduePart(residue: nat, names: seq<string>)
    requires forall i :: 0 <= i < |names| ==> |names[i]| > 0 && names[i][0] != '0'
    ensures var part := FormatHex(residue, 8);
      part[0] == '0' && part !in names && ' ' !in part && FlagValue(part, names) == residue
  {
    var part := FormatHex(residue, 8);
    assert part[0] == part[..2][0] == '0';
    forall i | 0 <= i < |part| ensures part[i] != ' ' {
      if i >= 2 {
        HexDigitsAt(part[2..], i - 2);
        assert part[i] == part[2..][i - 2];
      } else {
        assert part[i] == part[..2][i];
      }
    }
  }

  lemma {:induction false} SetBitNamesAreNames(flags: nat, names: seq<string>, i: nat)
    requires i <= |names|
    ensures forall k :: 0 <= k < |SetBitNames(flags, names, i)| ==> SetBitNames(flags, names, i)[k] in names
    decreases |names| - i
  {
    if i < |names| {
      SetBitNamesAreNames(flags, names, i + 1);
    }
  }

  /** The parts of a word are names and a residue: none holds a space, none is the "none" constant. */
  lemma FlagPartsShape(flags: nat, names: seq<string>, none: string)
    requires Distinguishable(names, none)
    ensures forall i :: 0 <= i < |FlagParts(flags, names)| ==>
      Lacks(FlagParts(flags, names)[i], ' ') && FlagParts(flags, names)[i] != none
  {
    var residue := Residue(flags, |names|);
    var named := SetBitNames(flags, names, 0);
    SetBitNamesAreNames(flags, names, 0);
    ResiduePart(residue, names);
    var parts := FlagParts(flags, names);
    forall i | 0 <= i < |parts| ensures Lacks(parts[i], ' ') && parts[i] != none {
      if i < |named| {
        assert parts[i] == named[i] && named[i] in names;
      } else {
        assert parts[i] == FormatHex(residue, 8);
      }
    }
  }

  /**
   * Compiling the C text of a flag word gives the word back: the named constants and the
   * hexadecimal residue add up to the original bits, and zero is the "none" constant.
   */
  lemma FlagsRoundTrip(flags: nat, names: seq<string>, none: string)
    requires Distinguishable(names, none)
    ensures ParseFlags(FormatFlags(flags, names, none), names, none) == flags
  {
    if flags != 0 {
      var residue := Residue(flags, |names|);
      var named := SetBitNames(flags, names, 0);
      var tail: seq<string> := if residue != 0 then [FormatHex(residue, 8)] else [];
      var parts := FlagParts(flags, names);
      SetBitNamesSum(flags, names, 0);
      SumValuesAppend(named, tail, names);
      ResiduePart(residue, names);
      assert SumValues(parts, names) == flags;
      assert |parts| >= 1;
      FlagPartsShape(flags, names, none);
      var s := Join(parts, FlagSeparator);
      assert FirstAt(FlagSeparator, 0);
      SplitJoin(parts, FlagSeparator, 0);
      if |parts| == 1 {
        assert s == parts[0] != none;
      } else {
        assert s[|parts[0]|] == ' ';
        assert s != none;
      }
    }
  }

  lemma ObjectFlagNamesDistinguishable()
    ensures Distinguishable(ObjectFlagNames, ObjectFlagsNone)
  {
    var names := ObjectFlagNames;
    forall i | 0 <= i < |names| ensures |names[i]| > 0 && names[i][0] != '0' && ' ' !in names[i] {
      assert i == 0 || i == 1 || i == 2 || i == 3 || i == 4 || i == 5 || i == 6 || i == 7;
    }
  }

  lemma AnimHead2FlagNamesDistinguishable()
    ensures Distinguishable(AnimHead2FlagNames, AnimHead2FlagsNone)
  {
    var names := AnimHead2FlagNames;
    forall i | 0 <= i < |names| ensures |names[i]| > 0 && names[i][0] != '0' && ' ' !in names[i] {
      assert i == 0 || i == 1 || i == 2 || i == 3 || i == 4 || i == 5;
    }
    assert names[0][18] != names[1][18] && names[4][18] != names[5][18];
  }

  /** The OBJECT flags written by the exporter compile back to the same 32 bits. */
  lemma ObjectFlagsRoundTrip(flags: u32)
    ensures ParseFlags(FormatObjectFlags(flags), ObjectFlagNames, ObjectFlagsNone) == flags
  {
    ObjectFlagNamesDistinguishable();
    FlagsRoundTrip(flags, ObjectFlagNames, ObjectFlagsNone);
  }

  /** The AnimHead2 flags written by the exporter compile back to the same 16 bits. */
  lemma AnimHead2FlagsRoundTrip(flags: u16)
    ensures ParseFlags(FormatAnimHead2Flags(flags), AnimHead2FlagNames, AnimHead2FlagsNone) == flags
  {
    AnimHead2FlagNamesDistinguishable();
    FlagsRoundTrip(flags, AnimHead2FlagNames, AnimHead2FlagsNone);
  }

  /** Bit `k` of a flag word is named in its text exactly when it is set. */
  lemma {:induction false} SetBitNamesNames(flags: nat, names: seq<string>, i: nat, k: nat)
    requires i <= k < |names| && forall a, b :: 0 <= a < b < |names| ==> names[a] != names[b]
    ensures names[k] in SetBitNames(flags, names, i) <==> HasBit(flags, k)
    decreases |names| - i
  {
    var rest := SetBitNames(flags, names, i + 1);
    if k == i {
      if names[k] in rest {
        SetBitNamesAbove(flags, names, i + 1, names[k]);
      }
    } else {
      SetBitNamesNames(flags, names, i + 1, k);
      assert names[k] != names[i];
    }
  }

  /** The names listed from bit `i` upward are those of bits `i` and above. */
  lemma {:induction false} SetBitNamesAbove(flags: nat, names: seq<string>, i: nat, n: string)
    requires i <= |names| && n in SetBitNames(flags, names, i)
    ensures exists k :: i <= k < |names| && names[k] == n
    decreases |names| - i
  {
    if i < |names| {
      if n != names[i] || !HasBit(flags, i) {
        SetBitNamesAbove(flags, names, i + 1, n);
      }
    }
  }
}
