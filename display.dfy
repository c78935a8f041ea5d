/**
 * The coordinate labels used in the game's messages: the column as a
 * letter counted from 'A' and the row as a 1-based decimal number, so the
 * cell (0, 0) reads "A1". A parser for labels is the partner of the
 * labelling: every label reads back as the cell it was made from.
 */
module Display {
  import opened Wrappers
  import opened Grid

  predicate IsDigit(c: char) {
    '0' as int <= c as int <= '9' as int
  }

  function DigitChar(d: int): (c: char)
    requires 0 <= d < 10
    ensures IsDigit(c) && DigitValue(c) == d
  {
    ('0' as int + d) as char
  }

  predicate AllDigits(s: string) {
    forall i :: 0 <= i < |s| ==> IsDigit(s[i])
  }

  function DigitValue(c: char): nat
    requires IsDigit(c)
  {
    c as int - '0' as int
  }

  /** The decimal digits of `n`, most significant first, with no leading zero. */
  function NatToDecimal(n: nat): (s: string)
    ensures |s| >= 1 && AllDigits(s)
    ensures s[0] == '0' ==> n == 0
    decreases n
  {
    if n < 10 then [DigitChar(n)] else NatToDecimal(n / 10) + [DigitChar(n % 10)]
  }

  /** How the game writes an integer: a minus sign before the digits when negative. */
  function IntToDecimal(n: int): string {
    if n < 0 then "-" + NatToDecimal(-n) else NatToDecimal(n)
  }

  /** The number a non-empty string of digits denotes. */
  function DecimalValue(s: string): nat
    requires AllDigits(s)
    decreases |s|
  {
    if s == [] then 0
    else 10 * DecimalValue(s[..|s| - 1]) + DigitValue(s[|s| - 1])
  }

  /** Reads an integer written as IntToDecimal writes it; None for anything else. */
  function ParseInt(s: string): Option<int> {
    if |s| >= 1 && AllDigits(s) then Some(DecimalValue(s))
    else if |s| >= 2 && s[0] == '-' && AllDigits(s[1..]) then Some(0 - DecimalValue(s[1..]))
    else None
  }

  /**
   * `get_display_coordinates`: the character with code 65 + x followed by
   * the decimal form of y + 1. None where the character does not exist,
   * that is below code 0 or above 0x10FFFF. The surrogate codes, which a
   * Dafny character cannot hold, are excluded.
   */
  function GetDisplayCoordinates(pos: Cell): (text: Option<string>)
    requires !(0xD800 <= 65 + pos.0 < 0xE000)
    ensures text.None? <==> 65 + pos.0 < 0 || 65 + pos.0 > 0x10FFFF
    ensures text.Some? ==> |text.value| >= 2 && text.value[0] as int == 65 + pos.0
  {
    var code := 65 + pos.0;
    if code < 0 || code > 0x10FFFF then None
    else Some([code as char] + IntToDecimal(pos.1 + 1))
  }

  /** Reads a label back: the letter gives the column, the number the row. */
  function ParseDisplayCoordinates(text: string): Option<Cell> {
    if |text| == 0 then None
    else
      match ParseInt(text[1..])
      case None => None
      case Some(number) => Some((text[0] as int - 65, number - 1))
  }

  /** The digits of a natural number read back as that number. */
  lemma {:induction false} DecimalRoundTrip(n: nat)
    ensures DecimalValue(NatToDecimal(n)) == n
    decreases n
  {
    if n >= 10 {
      var s := NatToDecimal(n);
      DecimalRoundTrip(n / 10);
      assert s[..|s| - 1] == NatToDecimal(n / 10);
    }
  }

  /** Every integer the game writes reads back as itself. */
  lemma IntRoundTrip(n: int)
    ensures ParseInt(IntToDecimal(n)) == Some(n)
  {
    if n < 0 {
      NegativeRoundTrip(n);
    } else {
      DecimalRoundTrip(n);
    }
  }

  /** A minus sign is not a digit, so a negative number reads back through its sign branch. */
  lemma NegativeRoundTrip(n: int)
    requires n < 0
    ensures ParseInt(IntToDecimal(n)) == Some(n)
  {
    var m: nat := -n;
    var t := NatToDecimal(m);
    assert IntToDecimal(n) == "-" + t;
    ParseSigned(t);
    DecimalRoundTrip(m);
  }

  lemma ParseSigned(t: string)
    requires |t| >= 1 && AllDigits(t)
    ensures ParseInt("-" + t) == Some(0 - DecimalValue(t))
  {
    var s := "-" + t;
    assert s[1..] == t;
    assert !IsDigit(s[0]);
  }

  /** Every label reads back as the cell it labels. */
  lemma DisplayRoundTrip(pos: Cell)
    requires !(0xD800 <= 65 + pos.0 < 0xE000)
    requires GetDisplayCoordinates(pos).Some?
    ensures ParseDisplayCoordinates(GetDisplayCoordinates(pos).value) == Some(pos)
  {
    var text := GetDisplayCoordinates(pos).value;
    assert text[1..] == IntToDecimal(pos.1 + 1);
    IntRoundTrip(pos.1 + 1);
  }

  /** Different cells get different labels. */
  lemma DisplayInjective(a: Cell, b: Cell)
    requires !(0xD800 <= 65 + a.0 < 0xE000) && !(0xD800 <= 65 + b.0 < 0xE000)
    requires GetDisplayCoordinates(a).Some? && GetDisplayCoordinates(a) == GetDisplayCoordinates(b)
    ensures a == b
  {
    DisplayRoundTrip(a);
    DisplayRoundTrip(b);
  }

  /** Every cell of a board up to 26 columns wide is labelled with a capital letter. */
  lemma BoardLabels(pos: Cell, size: int)
    requires size <= 26 && InBounds(pos, size)
    ensures GetDisplayCoordinates(pos).Some?
    ensures 'A' <= GetDisplayCoordinates(pos).value[0] <= 'Z'
  {
  }

  /** The corners of the usual 4 x 4 board, and a two-digit and a negative row. */
  lemma LabelExamples()
    ensures GetDisplayCoordinates((0, 0)) == Some("A1")
    ensures GetDisplayCoordinates((3, 3)) == Some("D4")
    ensures GetDisplayCoordinates((1, 9)) == Some("B10")
    ensures GetDisplayCoordinates((0, -3)) == Some("A-2")
  {
    assert NatToDecimal(1) == "1" && NatToDecimal(4) == "4" && NatToDecimal(2) == "2";
    assert NatToDecimal(10) == NatToDecimal(1) + "0" == "10";
    assert IntToDecimal(-2) == "-" + NatToDecimal(2) == "-2";
    assert (65 as char) == 'A' && (66 as char) == 'B' && (68 as char) == 'D';
    assert GetDisplayCoordinates((0, 0)) == Some([65 as char] + IntToDecimal(1));
    assert [65 as char] + IntToDecimal(1) == "A1";
    assert GetDisplayCoordinates((3, 3)) == Some([68 as char] + IntToDecimal(4));
    assert [68 as char] + IntToDecimal(4) == "D4";
    assert GetDisplayCoordinates((1, 9)) == Some([66 as char] + IntToDecimal(10));
    assert [66 as char] + IntToDecimal(10) == "B10";
    assert GetDisplayCoordinates((0, -3)) == Some([65 as char] + IntToDecimal(-2));
    assert [65 as char] + IntToDecimal(-2) == "A-2";
  }
}
