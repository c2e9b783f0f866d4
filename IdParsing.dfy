/**
  Identifiers arrive from request paths as strings. Both services turn them into
  Integer with the same check: the string must match the regular expression
  [\d]+ (in Java, \d is the ASCII digit class), and Integer.valueOf then
  rejects values beyond the 32-bit range with a NumberFormatException.
 */
module IdParsing {
  import opened Exceptions

  /** Integer.MAX_VALUE */
  const IntMax: int := 0x7fff_ffff

  predicate IsDigit(c: char) {
    '0' <= c <= '9'
  }

  predicate AllDigits(s: string) {
    forall i | 0 <= i < |s| :: IsDigit(s[i])
  }

  /** s.matches("[\\d]+") */
  predicate IsDigitString(s: string) {
    |s| > 0 && AllDigits(s)
  }

  function DigitValue(c: char): (d: nat)
    requires IsDigit(c)
    ensures d < 10
  {
    c as int - '0' as int
  }

  function DigitChar(d: nat): (c: char)
    requires d < 10
    ensures IsDigit(c) && DigitValue(c) == d
  {
    ('0' as int + d) as char
  }

  /** The decimal value of a digit string, leading zeros included, without any bound. */
  function ValueOf(s: string): nat
    requires AllDigits(s)
    decreases |s|
  {
    if s == [] then 0 else 10 * ValueOf(s[..|s| - 1]) + DigitValue(s[|s| - 1])
  }

  /** Integer.toString of a non-negative value: the shortest decimal spelling. */
  function Decimal(n: nat): (s: string)
    ensures IsDigitString(s)
    ensures n > 0 ==> s[0] != '0'
    decreases n
  {
    if n < 10 then [DigitChar(n)] else Decimal(n / 10) + [DigitChar(n % 10)]
  }

  /**
    transformStringIdToInteger: a null or non-matching string is refused with
    NotFound carrying the service's own message; a digit string whose value
    does not fit an int makes Integer.valueOf throw.
   */
  function Transform(id: Option<string>, message: string): (r: Result<int>)
    ensures r.Ok? <==> id.Some? && IsDigitString(id.value) && ValueOf(id.value) <= IntMax
    ensures r.Ok? ==> 0 <= r.value <= IntMax && r.value == ValueOf(id.value)
    ensures r == Err(NotFound(message)) <==> id.None? || !IsDigitString(id.value)
    ensures r.Err? && !r.error.NotFound? ==> r.error == NumberFormat(id.value)
  {
    if id.None? || !IsDigitString(id.value) then Err(NotFound(message))
    else if ValueOf(id.value) > IntMax then Err(NumberFormat(id.value))
    else Ok(ValueOf(id.value))
  }

  /** Reading back the decimal spelling of a number gives that number. */
  lemma {:induction false} ValueOfDecimal(n: nat)
    ensures ValueOf(Decimal(n)) == n
    decreases n
  {
    if n >= 10 {
      var s := Decimal(n);
      assert s[..|s| - 1] == Decimal(n / 10);
      ValueOfDecimal(n / 10);
    }
  }

  /** Every id that fits an int is accepted in its decimal spelling and parsed back to itself. */
  lemma TransformDecimal(n: nat, message: string)
    requires n <= IntMax
    ensures Transform(Some(Decimal(n)), message) == Ok(n)
  {
    ValueOfDecimal(n);
  }

  /** A leading zero changes neither the digit check nor the value. */
  lemma {:induction false} ValueOfLeadingZero(s: string)
    requires AllDigits(s)
    ensures AllDigits("0" + s) && ValueOf("0" + s) == ValueOf(s)
    decreases |s|
  {
    var t := "0" + s;
    assert AllDigits(t) by {
      forall i | 0 <= i < |t| ensures IsDigit(t[i]) {
        if i > 0 { assert t[i] == s[i - 1]; }
      }
    }
    if s != [] {
      assert t[..|t| - 1] == "0" + s[..|s| - 1];
      ValueOfLeadingZero(s[..|s| - 1]);
    }
  }

  /** "007" is accepted and read as 7: leading zeros are not refused. */
  lemma TransformLeadingZero(s: string, message: string)
    requires IsDigitString(s)
    ensures Transform(Some("0" + s), message).Ok? == Transform(Some(s), message).Ok?
    ensures Transform(Some(s), message).Ok? ==> Transform(Some("0" + s), message) == Transform(Some(s), message)
  {
    ValueOfLeadingZero(s);
  }

  /** Signs, letters and the empty string are refused before any lookup. */
  lemma TransformRefusesNonDigits(message: string)
    ensures Transform(None, message) == Err(NotFound(message))
    ensures Transform(Some(""), message) == Err(NotFound(message))
    ensures Transform(Some("-1"), message) == Err(NotFound(message))
    ensures Transform(Some("+1"), message) == Err(NotFound(message))
    ensures Transform(Some("1a"), message) == Err(NotFound(message))
  {
    assert !IsDigit('-') && !IsDigit('+') && !IsDigit('a');
    assert ("1a")[1] == 'a';
  }

  /** One past Integer.MAX_VALUE passes the digit check but not Integer.valueOf. */
  lemma TransformOverflow(message: string)
    ensures Transform(Some(Decimal(IntMax + 1)), message) == Err(NumberFormat(Decimal(IntMax + 1)))
  {
    ValueOfDecimal(IntMax + 1);
  }
}
