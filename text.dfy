// Text helpers shared by the reader and the C exporter: the invariant-culture
// renderings of integers ("D" and "X<n>" formats), line breaks and joining.
module Text {

  /** The line terminator of the platform the tools run on (Windows). */
  const NewLine: string := "\r\n"

  predicate IsHexDigit(c: char)
  {
    '0' <= c <= '9' || 'A' <= c <= 'F'
  }

  predicate IsDecimalDigit(c: char)
  {
    '0' <= c <= '9'
  }

  /** The uppercase hexadecimal digit of a value below 16. */
  function HexDigit(d: nat): (c: char)
    requires d < 16
    ensures IsHexDigit(c)
  {
    if d < 10 then (48 + d) as char else (55 + d) as char
  }

  function HexValue(c: char): (d: nat)
    requires IsHexDigit(c)
    ensures d < 16
  {
    if c <= '9' then c as int - 48 else c as int - 55
  }

  lemma HexValueDigit(d: nat)
    requires d < 16
    ensures HexValue(HexDigit(d)) == d
  {
  }

  /**
   * `v` in uppercase hexadecimal with at least `width` digits, left-padded with
   * zeros: the "X<width>" format of a non-negative integer.
   */
  function Hex(v: nat, width: nat): (s: string)
    ensures |s| >= 1 && |s| >= width
    ensures HexDigits(s)
    decreases v + width
  {
    if v < 16 && width <= 1 then
      assert [HexDigit(v)][..0] == [];
      [HexDigit(v)]
    else
      var high := Hex(v / 16, if width == 0 then 0 else width - 1);
      assert (high + [HexDigit(v % 16)])[..|high|] == high;
      high + [HexDigit(v % 16)]
  }

  /** Every character is a hexadecimal digit. */
  predicate HexDigits(s: string)
    decreases |s|
  {
    s == [] || (HexDigits(s[..|s| - 1]) && IsHexDigit(s[|s| - 1]))
  }

  /** The value of a string of hexadecimal digits, most significant first. */
  function ParseHex(s: string): nat
    requires HexDigits(s)
  {
    if s == [] then 0 else 16 * ParseHex(s[..|s| - 1]) + HexValue(s[|s| - 1])
  }

  function Pow16(n: nat): (p: nat)
    ensures p >= 1
  {
    if n == 0 then 1 else 16 * Pow16(n - 1)
  }

  /** Reading the digits back gives the value: the format loses nothing. */
  lemma {:induction false} ParseHexOfHex(v: nat, width: nat)
    ensures ParseHex(Hex(v, width)) == v
    decreases v + width
  {
    var s := Hex(v, width);
    if !(v < 16 && width <= 1) {
      var w := if width == 0 then 0 else width - 1;
      ParseHexOfHex(v / 16, w);
      assert s[..|s| - 1] == Hex(v / 16, w);
      HexValueDigit(v % 16);
    } else {
      assert s[..0] == [];
      HexValueDigit(v);
    }
  }

  /** A value that fits in `width` digits is written with exactly `width` digits. */
  lemma {:induction false} HexWidth(v: nat, width: nat)
    requires width >= 1 && v < Pow16(width)
    ensures |Hex(v, width)| == width
    decreases width
  {
    if width > 1 {
      HexWidth(v / 16, width - 1);
    }
  }

  /** The "X8" rendering of a C# `long`: a negative value shows its 64-bit two's complement. */
  function HexLong8(v: int): (s: string)
    ensures |s| >= 8
  {
    Hex(v % 0x1_0000_0000_0000_0000, 8)
  }

  function DecimalDigit(d: nat): (c: char)
    requires d < 10
    ensures IsDecimalDigit(c)
  {
    (48 + d) as char
  }

  /** The digits of a natural number, without leading zeros. */
  function Digits(n: nat): (s: string)
    ensures |s| >= 1 && forall i :: 0 <= i < |s| ==> IsDecimalDigit(s[i])
  {
    if n < 10 then [DecimalDigit(n)] else Digits(n / 10) + [DecimalDigit(n % 10)]
  }

  /** An integer as the invariant culture writes it: a minus sign, then the digits. */
  function Decimal(i: int): (s: string)
    ensures |s| >= 1
  {
    if i < 0 then "-" + Digits(-i) else Digits(i)
  }

  function DigitValue(c: char): (d: nat)
    requires IsDecimalDigit(c)
    ensures d < 10
  {
    c as int - 48
  }

  function ParseDigits(s: string): nat
    requires forall i :: 0 <= i < |s| ==> IsDecimalDigit(s[i])
  {
    if s == [] then 0 else 10 * ParseDigits(s[..|s| - 1]) + DigitValue(s[|s| - 1])
  }

  /** The value of a rendered integer, sign included. */
  function ParseDecimal(s: string): int
    requires |s| >= 1
    requires s[0] == '-' || IsDecimalDigit(s[0])
    requires forall i :: 1 <= i < |s| ==> IsDecimalDigit(s[i])
  {
    var magnitude: int := if s[0] == '-' then ParseDigits(s[1..]) else ParseDigits(s);
    if s[0] == '-' then -magnitude else magnitude
  }

  lemma {:induction false} ParseDigitsOfDigits(n: nat)
    ensures ParseDigits(Digits(n)) == n
  {
    var s := Digits(n);
    if n >= 10 {
      ParseDigitsOfDigits(n / 10);
      assert s[..|s| - 1] == Digits(n / 10);
    } else {
      assert s[..0] == [];
    }
  }

  /** Decimal is read back exactly, negative values included. */
  lemma ParseDecimalOfDecimal(i: int)
    ensures var s := Decimal(i);
      (s[0] == '-' || IsDecimalDigit(s[0])) && (forall k :: 1 <= k < |s| ==> IsDecimalDigit(s[k]))
      && ParseDecimal(s) == i
  {
    if i < 0 {
      ParseDigitsOfDigits(-i);
      assert Decimal(i)[1..] == Digits(-i);
    } else {
      ParseDigitsOfDigits(i);
    }
  }

  /** The parts separated by `sep`, with nothing before the first or after the last. */
  function Join(parts: seq<string>, sep: string): string
  {
    if |parts| == 0 then ""
    else if |parts| == 1 then parts[0]
    else parts[0] + sep + Join(parts[1..], sep)
  }

  /** Join grows at its end: the shape of a loop that appends a separator and then the next part. */
  lemma {:induction false} JoinSnoc(parts: seq<string>, sep: string, q: string)
    requires |parts| >= 1
    ensures Join(parts + [q], sep) == Join(parts, sep) + sep + q
  {
    if |parts| > 1 {
      JoinSnoc(parts[1..], sep, q);
      assert (parts + [q])[1..] == parts[1..] + [q];
    } else {
      assert (parts + [q])[1..] == [q];
    }
  }

  /** Splits `s` at every occurrence of `sep`, which must not be empty. */
  function Split(s: string, sep: string): (parts: seq<string>)
    requires |sep| > 0
    ensures |parts| >= 1
    decreases |s|
  {
    if |s| < |sep| then [s]
    else if s[..|sep|] == sep then [""] + Split(s[|sep|..], sep)
    else var rest := Split(s[1..], sep); [[s[0]] + rest[0]] + rest[1..]
  }

  /** `c` occurs nowhere in `s`. */
  predicate Lacks(s: string, c: char)
  {
    forall i :: 0 <= i < |s| ==> s[i] != c
  }

  /** `sep[j]` occurs in the separator at position `j` and nowhere before it. */
  predicate FirstAt(sep: string, j: nat)
  {
    j < |sep| && forall m :: 0 <= m < j ==> sep[m] != sep[j]
  }

  /** No separator can start inside a part that lacks the separator's character `sep[j]`. */
  lemma {:induction false} SplitPrefix(p: string, sep: string, j: nat, rest: string)
    requires FirstAt(sep, j) && Lacks(p, sep[j])
    requires forall m :: 0 <= m < |rest| && m < j ==> rest[m] != sep[j]
    ensures Split(p + rest, sep) == [p + Split(rest, sep)[0]] + Split(rest, sep)[1..]
    decreases |p|
  {
    var s := p + rest;
    if |p| > 0 {
      if |s| >= |sep| {
        if j < |p| {
          assert s[j] == p[j];
        } else {
          assert s[j] == rest[j - |p|];
        }
        assert s[..|sep|][j] == s[j] != sep[j];
      }
      assert s[1..] == p[1..] + rest;
      SplitPrefix(p[1..], sep, j, rest);
      var r := Split(rest, sep);
      if |s| < |sep| {
        assert r == [rest];
        assert Split(s, sep) == [p + r[0]] + r[1..];
      } else {
        var tail := Split(s[1..], sep);
        assert tail == [p[1..] + r[0]] + r[1..];
        assert Split(s, sep) == [[s[0]] + tail[0]] + tail[1..];
        assert [s[0]] + (p[1..] + r[0]) == p + r[0];
      }
    } else {
      var r := Split(rest, sep);
      assert s == rest && p + r[0] == r[0];
      assert [r[0]] + r[1..] == r;
    }
  }

  /** Splitting a joined text gives the parts back, when no part holds the separator's character `sep[j]`. */
  lemma {:induction false} SplitJoin(parts: seq<string>, sep: string, j: nat)
    requires |parts| >= 1 && FirstAt(sep, j)
    requires forall i :: 0 <= i < |parts| ==> Lacks(parts[i], sep[j])
    ensures Split(Join(parts, sep), sep) == parts
  {
    var p := parts[0];
    if |parts| == 1 {
      SplitPrefix(p, sep, j, "");
      assert p + "" == p;
    } else {
      var tail := Join(parts[1..], sep);
      SplitJoin(parts[1..], sep, j);
      assert (sep + tail)[..|sep|] == sep;
      assert (sep + tail)[|sep|..] == tail;
      SplitPrefix(p, sep, j, sep + tail);
      assert Join(parts, sep) == p + (sep + tail);
      var r := Split(sep + tail, sep);
      assert r == [""] + parts[1..];
      assert p + r[0] == p;
      assert [p] + parts[1..] == parts;
    }
  }
}
