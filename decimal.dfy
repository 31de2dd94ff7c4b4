/** Decimal numerals as `Long.valueOf`, `Integer.valueOf`, `Short.valueOf` and
    `Byte.valueOf` read them with radix 10: an optional sign, then one or more
    ASCII digits, the whole string, within the width's range. */
module Decimal {
  import opened JavaLang

  predicate IsDigit(c: char) { '0' <= c <= '9' }

  predicate AllDigits(s: string) {
    forall i :: 0 <= i < |s| ==> IsDigit(s[i])
  }

  /** An optional '+' or '-' followed by one or more decimal digits, and nothing else. */
  predicate IsNumeral(s: string) {
    if |s| > 0 && (s[0] == '+' || s[0] == '-') then |s| > 1 && AllDigits(s[1..])
    else |s| > 0 && AllDigits(s)
  }

  function Pow10(n: nat): (r: nat)
    ensures r >= 1
  {
    if n == 0 then 1 else 10 * Pow10(n - 1)
  }

  /** The value of a digit string read most significant digit first; None if any
      character is not a digit. */
  function DigitsValue(ds: string): (r: Option<nat>)
    ensures r.Some? <==> AllDigits(ds)
    ensures r.Some? ==> r.value < Pow10(|ds|)
  {
    if ds == [] then Some(0)
    else
      var last := ds[|ds| - 1];
      match DigitsValue(ds[..|ds| - 1])
      case None => None
      case Some(v) =>
        if IsDigit(last) then Some(10 * v + (last as int - '0' as int)) else None
  }

  /** The value of a decimal numeral, or None when the string is not one. */
  function ParseDecimal(s: string): (r: Option<int>)
    ensures r.Some? <==> IsNumeral(s)
  {
    if |s| > 0 && (s[0] == '+' || s[0] == '-') then
      if |s| == 1 then None
      else
        match DigitsValue(s[1..])
        case None => None
        case Some(v) =>
          var n: int := if s[0] == '-' then -(v as int) else v;
          Some(n)
    else if s == [] then None
    else
      match DigitsValue(s)
      case None => None
      case Some(v) => Some(v)
  }

  function DigitChar(d: nat): (c: char)
    requires d < 10
    ensures IsDigit(c)
  {
    ('0' as int + d) as char
  }

  /** The canonical digits of a natural number, as `Long.toString` writes them. */
  function ShowDigits(n: nat): (s: string)
    ensures |s| > 0 && AllDigits(s)
  {
    if n < 10 then [DigitChar(n)] else ShowDigits(n / 10) + [DigitChar(n % 10)]
  }

  /** The canonical numeral of an integer: a '-' for negatives, no leading zeros. */
  function ShowDecimal(n: int): (s: string)
    ensures IsNumeral(s)
  {
    if n < 0 then "-" + ShowDigits(-n) else ShowDigits(n)
  }

  lemma {:induction false} DigitsRoundTrip(n: nat)
    ensures DigitsValue(ShowDigits(n)) == Some(n)
  {
    if n >= 10 {
      DigitsRoundTrip(n / 10);
      var s := ShowDigits(n);
      assert s[..|s| - 1] == ShowDigits(n / 10);
    }
  }

  /** Parsing inverts printing: every integer survives a round trip through its numeral. */
  lemma ParseShow(n: int)
    ensures ParseDecimal(ShowDecimal(n)) == Some(n)
  {
    if n < 0 {
      DigitsRoundTrip(-n);
      assert ShowDecimal(n)[1..] == ShowDigits(-n);
    } else {
      DigitsRoundTrip(n);
    }
  }

  /** A leading '+' changes nothing and a leading '-' negates. */
  lemma SignedNumerals(ds: string)
    requires |ds| > 0 && AllDigits(ds)
    ensures ParseDecimal("+" + ds) == ParseDecimal(ds)
    ensures ParseDecimal("-" + ds).Some? && ParseDecimal("-" + ds).value == -ParseDecimal(ds).value
  {
    assert ("+" + ds)[1..] == ds;
    assert ("-" + ds)[1..] == ds;
  }

  /** The four integer widths the binder coerces to. */
  datatype Width = LongWidth | IntegerWidth | ShortWidth | ByteWidth

  function MinValue(w: Width): int {
    match w
    case LongWidth => -0x8000_0000_0000_0000
    case IntegerWidth => -0x8000_0000
    case ShortWidth => -0x8000
    case ByteWidth => -0x80
  }

  function MaxValue(w: Width): int {
    match w
    case LongWidth => 0x7FFF_FFFF_FFFF_FFFF
    case IntegerWidth => 0x7FFF_FFFF
    case ShortWidth => 0x7FFF
    case ByteWidth => 0x7F
  }

  predicate InRange(n: int, w: Width) { MinValue(w) <= n <= MaxValue(w) }

  /** `Long.valueOf` (and the Integer, Short and Byte forms): a numeral within the
      width's range, else NumberFormatException. */
  function ParseInteger(s: string, w: Width): (r: Result<int>)
    ensures r.Ok? <==> IsNumeral(s) && InRange(ParseDecimal(s).value, w)
    ensures r.Ok? ==> InRange(r.value, w) && Some(r.value) == ParseDecimal(s)
    ensures r.Throws? ==> r.ex == NumberFormatException
  {
    match ParseDecimal(s)
    case None => Throws(NumberFormatException)
    case Some(n) => if InRange(n, w) then Ok(n) else Throws(NumberFormatException)
  }

  /** Every value of a width is read back from its own numeral. */
  lemma ParseIntegerShow(n: int, w: Width)
    requires InRange(n, w)
    ensures ParseInteger(ShowDecimal(n), w) == Ok(n)
  {
    ParseShow(n);
  }

  /** One past either end of a width is refused. */
  lemma ParseIntegerOverflow(w: Width)
    ensures ParseInteger(ShowDecimal(MaxValue(w) + 1), w) == Throws(NumberFormatException)
    ensures ParseInteger(ShowDecimal(MinValue(w) - 1), w) == Throws(NumberFormatException)
  {
    ParseShow(MaxValue(w) + 1);
    ParseShow(MinValue(w) - 1);
  }
}
