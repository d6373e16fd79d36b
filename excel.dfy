/**
 * Spreadsheet cells as the migration script sees them: empty, text, a whole
 * number or a date, read through a row keyed by column letter, and the
 * three conversions the script applies to them (`str`, `float(x or 0)` and
 * `to_date_str`).
 */
module Excel {
  import opened Common
  import opened Schema
  import opened Strings

  /** A date a spreadsheet can hold: a four-digit year and a proper month and day. */
  predicate ValidDay(d: Date) {
    1 <= d.year <= 9999 && WellFormedDate(d)
  }

  type SheetDate = d: Date | ValidDay(d) witness Date(2026, 2, 15)

  /** A cell value; dates are read at midnight. */
  datatype Cell = Blank | Text(s: string) | Number(n: int) | Day(d: SheetDate)

  /** One worksheet row: the cells by column letter. */
  type Row = map<char, Cell>

  /** `vals.get(col, default)`: a missing column reads as the default; a present empty cell reads as empty. */
  function Get(r: Row, col: char, default: Cell := Blank): (c: Cell)
    ensures col in r ==> c == r[col]
    ensures col !in r ==> c == default
  {
    if col in r then r[col] else default
  }

  /** Python truthiness of a cell value. */
  predicate CellTruthy(c: Cell) {
    match c
    case Blank => false
    case Text(s) => s != ""
    case Number(n) => n != 0
    case Day(_) => true
  }

  // ---------------------------------------------------------------
  // Dates
  // ---------------------------------------------------------------

  function Pow10(k: nat): (p: nat)
    ensures p >= 1
  {
    if k == 0 then 1 else 10 * Pow10(k - 1)
  }

  function Zeros(k: nat): (z: string)
    ensures |z| == k && forall i :: 0 <= i < k ==> z[i] == '0'
  {
    seq(k, _ => '0')
  }

  /** `n` in decimal, padded on the left with zeros to `width` digits, as `strftime` writes each date field. */
  function Pad(n: nat, width: nat): (s: string)
    ensures forall i :: 0 <= i < |s| ==> IsDigit(s[i])
    ensures |s| >= width
  {
    var digits := NatToString(n);
    if |digits| < width then Zeros(width - |digits|) + digits else digits
  }

  /** `strftime('%Y-%m-%d')`. */
  function IsoDate(d: Date): (s: string)
    requires ValidDay(d)
  {
    Pad(d.year, 4) + "-" + Pad(d.month, 2) + "-" + Pad(d.day, 2)
  }

  lemma {:induction false} ParseNatZeros(k: nat, s: string)
    requires forall i :: 0 <= i < |s| ==> IsDigit(s[i])
    ensures ParseNat(Zeros(k) + s) == ParseNat(s)
    decreases |s|, k
  {
    if s == [] {
      assert Zeros(k) + s == Zeros(k);
      if k > 0 {
        assert Zeros(k)[..k - 1] == Zeros(k - 1);
        ParseNatZeros(k - 1, s);
        assert Zeros(k - 1) + s == Zeros(k - 1);
      }
    } else {
      var init := s[..|s| - 1];
      assert (Zeros(k) + s)[..|Zeros(k) + s| - 1] == Zeros(k) + init;
      ParseNatZeros(k, init);
    }
  }

  lemma {:induction false} NatToStringWidth(n: nat, width: nat)
    requires width >= 1 && n < Pow10(width)
    ensures |NatToString(n)| <= width
    decreases n
  {
    if n >= 10 {
      assert n / 10 < Pow10(width - 1);
      NatToStringWidth(n / 10, width - 1);
    }
  }

  /** A padded field is exactly `width` digits long and reads back as the number. */
  lemma PadRoundTrip(n: nat, width: nat)
    requires width >= 1 && n < Pow10(width)
    ensures |Pad(n, width)| == width
    ensures ParseNat(Pad(n, width)) == n
  {
    var digits := NatToString(n);
    NatToStringWidth(n, width);
    ParseNatToString(n);
    if |digits| < width {
      ParseNatZeros(width - |digits|, digits);
    }
  }

  /**
   * The date string has the fixed `YYYY-MM-DD` shape and its three fields
   * read back as the date's year, month and day.
   */
  lemma IsoDateFields(d: Date)
    requires ValidDay(d)
    ensures var s := IsoDate(d);
            && |s| == 10 && s[4] == '-' && s[7] == '-'
            && s[..4] == Pad(d.year, 4) && s[5..7] == Pad(d.month, 2) && s[8..] == Pad(d.day, 2)
  {
    assert Pow10(2) == 100 && Pow10(4) == 10000;
    PadRoundTrip(d.year, 4);
    PadRoundTrip(d.month, 2);
    PadRoundTrip(d.day, 2);
    var s := IsoDate(d);
    var y, m, dd := Pad(d.year, 4), Pad(d.month, 2), Pad(d.day, 2);
    assert s == y + "-" + m + "-" + dd;
    assert s[..4] == y;
    assert s[5..7] == m;
    assert s[8..] == dd;
  }

  /** Reads a `YYYY-MM-DD` string back as a date. */
  function ParseIsoDate(s: string): (d: Date)
    requires |s| == 10
    requires forall i :: 0 <= i < 10 && i != 4 && i != 7 ==> IsDigit(s[i])
  {
    Date(ParseNat(s[..4]), ParseNat(s[5..7]), ParseNat(s[8..]))
  }

  /** Rendering a date and reading it back gives the date. */
  lemma IsoDateRoundTrip(d: Date)
    requires ValidDay(d)
    ensures |IsoDate(d)| == 10
    ensures forall i :: 0 <= i < 10 && i != 4 && i != 7 ==> IsDigit(IsoDate(d)[i])
    ensures ParseIsoDate(IsoDate(d)) == d
  {
    IsoDateFields(d);
    assert Pow10(2) == 100 && Pow10(4) == 10000;
    PadRoundTrip(d.year, 4);
    PadRoundTrip(d.month, 2);
    PadRoundTrip(d.day, 2);
    var s := IsoDate(d);
    forall i | 0 <= i < 10 && i != 4 && i != 7
      ensures IsDigit(s[i])
    {
      if i < 4 {
        assert s[i] == s[..4][i];
      } else if i < 7 {
        assert s[i] == s[5..7][i - 5];
      } else {
        assert s[i] == s[8..][i - 8];
      }
    }
  }

  // ---------------------------------------------------------------
  // Conversions
  // ---------------------------------------------------------------

  /** Python's `str(value)` of a cell: an empty cell becomes the text `None`. */
  function Str(c: Cell): (s: string)
    ensures c.Blank? ==> s == "None"
    ensures c.Text? ==> s == c.s
    ensures c.Number? ==> s == IntToString(c.n)
  {
    match c
    case Blank => "None"
    case Text(t) => t
    case Number(n) => IntToString(n)
    case Day(d) => IsoDate(d) + " 00:00:00"
  }

  /** The string is made of decimal digits only. */
  predicate AllDigits(s: string)
    decreases |s|
  {
    s == [] || (AllDigits(s[..|s| - 1]) && IsDigit(s[|s| - 1]))
  }

  lemma {:induction false} AllDigitsAt(s: string)
    requires AllDigits(s)
    ensures forall i :: 0 <= i < |s| ==> IsDigit(s[i])
    decreases |s|
  {
    if s != [] {
      AllDigitsAt(s[..|s| - 1]);
      assert forall i :: 0 <= i < |s| - 1 ==> s[i] == s[..|s| - 1][i];
    }
  }

  /** What `float(...)` accepts here: a number, or text holding a whole number. */
  predicate Parseable(c: Cell) {
    c.Number? || (c.Text? && Strip(c.s) != [] && AllDigits(Strip(c.s)))
  }

  /** `float(value)` on a cell that holds a whole number. */
  function NumValue(c: Cell): (n: int)
    requires Parseable(c)
    ensures c.Number? ==> n == c.n
    ensures c.Text? ==> n >= 0
  {
    if c.Number? then c.n
    else
      AllDigitsAt(Strip(c.s));
      ParseNat(Strip(c.s))
  }

  /** A cell that `float(value or 0)` accepts. */
  predicate NumericOrEmpty(c: Cell) {
    !CellTruthy(c) || Parseable(c)
  }

  /** `float(value or 0)`: an empty, blank or zero cell counts as 0. */
  function NumOrZero(c: Cell): (n: int)
    requires NumericOrEmpty(c)
    ensures !CellTruthy(c) ==> n == 0
    ensures CellTruthy(c) ==> n == NumValue(c)
  {
    if CellTruthy(c) then NumValue(c) else 0
  }

  /** `to_date_str`: an empty cell has no date; a date cell is written `YYYY-MM-DD`; anything else is its `str`. */
  function ToDateStr(c: Cell): (r: Option<string>)
    ensures r.None? <==> c.Blank?
    ensures c.Day? ==> r == Some(IsoDate(c.d))
    ensures c.Text? ==> r == Some(c.s)
  {
    match c
    case Blank => None
    case Day(d) => Some(IsoDate(d))
    case _ => Some(Str(c))
  }
}
