/**
 * GetCurrentUserId, shared by the two authorised controllers: the caller's
 * id is the NameIdentifier claim of the validated token, read with int.Parse.
 */
module Claims {
  import opened Wrappers
  import opened Http

  const UserIdMissingMessage: string := "User ID not found in token"

  const Int32Min: int := -0x8000_0000
  const Int32Max: int := 0x7FFF_FFFF

  /** GetCurrentUserId: a missing or empty claim throws UnauthorizedAccessException, otherwise
      the claim is parsed as a 32-bit integer. */
  function CurrentUserId(claim: Option<string>): (r: Result<int, Fault>)
    ensures claim.None? || claim == Some("") ==> r == Failure(UnauthorizedAccess(UserIdMissingMessage))
    ensures r.Success? ==> claim.Some? && Int32Min <= r.value <= Int32Max
  {
    if claim.None? || claim.value == "" then Failure(UnauthorizedAccess(UserIdMissingMessage))
    else Int32Parse(claim.value)
  }

  // int.Parse(s) with NumberStyles.Integer: optional white space around an optional sign and
  // one or more decimal digits.

  /** The white space NumberStyles.AllowLeadingWhite and AllowTrailingWhite skip. */
  predicate IsParseWhite(c: char) {
    c == ' ' || '\t' <= c <= '\r'
  }

  predicate IsDigit(c: char) {
    '0' <= c <= '9'
  }

  predicate AllDigits(s: string) {
    forall i :: 0 <= i < |s| ==> IsDigit(s[i])
  }

  /** How many white-space characters AllowLeadingWhite skips at the start. */
  function LeadingWhite(s: string): (k: nat)
    ensures k <= |s| && forall i :: 0 <= i < k ==> IsParseWhite(s[i])
    ensures k < |s| ==> !IsParseWhite(s[k])
  {
    if s != [] && IsParseWhite(s[0]) then 1 + LeadingWhite(s[1..]) else 0
  }

  /** How many white-space characters AllowTrailingWhite skips at the end. */
  function TrailingWhite(s: string): (k: nat)
    ensures k <= |s| && forall i :: |s| - k <= i < |s| ==> IsParseWhite(s[i])
    ensures k < |s| ==> !IsParseWhite(s[|s| - 1 - k])
  {
    if s != [] && IsParseWhite(s[|s| - 1]) then 1 + TrailingWhite(s[..|s| - 1]) else 0
  }

  /** The text between the leading and the trailing white space. */
  function Trim(s: string): string {
    var t := s[LeadingWhite(s)..];
    t[..|t| - TrailingWhite(t)]
  }

  /** The value of a string of decimal digits, most significant first. */
  function DigitsValue(s: string): nat
    requires AllDigits(s)
  {
    if s == [] then 0 else 10 * DigitsValue(s[..|s| - 1]) + (s[|s| - 1] as int - '0' as int)
  }

  /** int.Parse(s): FormatException unless the trimmed text is a sign and digits,
      OverflowException when the number does not fit in an int. */
  function Int32Parse(s: string): (r: Result<int, Fault>)
    ensures r.Success? ==> Int32Min <= r.value <= Int32Max
    ensures r.Failure? ==> r.error == FormatError || r.error == OverflowError
  {
    ParseTrimmed(Trim(s))
  }

  /** The sign and the digits, once the surrounding white space is gone. */
  function ParseTrimmed(t: string): (r: Result<int, Fault>)
    ensures r.Success? ==> Int32Min <= r.value <= Int32Max
    ensures r.Failure? ==> r.error == FormatError || r.error == OverflowError
  {
    var negative := t != [] && t[0] == '-';
    var digits := if t != [] && (t[0] == '-' || t[0] == '+') then t[1..] else t;
    if digits == [] || !AllDigits(digits) then Failure(FormatError)
    else
      var v: int := if negative then 0 - DigitsValue(digits) as int else DigitsValue(digits);
      if v < Int32Min || Int32Max < v then Failure(OverflowError) else Success(v)
  }

  // int.ToString(): how an id is written into a claim.

  function Digit(d: nat): (c: char)
    requires d < 10
    ensures IsDigit(c) && c as int - '0' as int == d
  {
    ('0' as int + d) as char
  }

  /** The decimal digits of `n`, without leading zeros. */
  function Decimal(n: nat): (s: string)
    ensures s != [] && AllDigits(s)
  {
    if n < 10 then [Digit(n)] else Decimal(n / 10) + [Digit(n % 10)]
  }

  /** int.ToString() in the invariant culture. */
  function Int32ToString(n: int): string {
    if n < 0 then "-" + Decimal(-n) else Decimal(n)
  }

  lemma {:induction false} DecimalValue(n: nat)
    ensures DigitsValue(Decimal(n)) == n
  {
    if n >= 10 {
      var s := Decimal(n);
      assert s[..|s| - 1] == Decimal(n / 10);
      DecimalValue(n / 10);
    }
  }

  /** Trimming leaves digits as they are. */
  lemma TrimDigits(digits: string)
    requires digits != [] && AllDigits(digits)
    ensures Trim(digits) == digits
  {
    assert IsDigit(digits[0]) && IsDigit(digits[|digits| - 1]);
  }

  /** Trimming leaves a minus sign followed by digits as it is. */
  lemma TrimNegatedDigits(digits: string)
    requires digits != [] && AllDigits(digits)
    ensures Trim("-" + digits) == "-" + digits
  {
    var s := "-" + digits;
    assert s[|s| - 1] == digits[|digits| - 1];
    assert IsDigit(s[|s| - 1]);
  }

  /** The sign and digits stage reads a minus sign followed by digits, and overflows when the
      negated value is below the 32-bit range. */
  lemma ParseTrimmedNegated(digits: string)
    requires digits != [] && AllDigits(digits)
    ensures ParseTrimmed("-" + digits) ==
      if DigitsValue(digits) <= -Int32Min then Success(0 - DigitsValue(digits)) else Failure(OverflowError)
  {
    assert ("-" + digits)[1..] == digits;
  }

  /** The sign and digits stage reads unsigned digits, and overflows above the 32-bit range. */
  lemma ParseTrimmedDigits(digits: string)
    requires digits != [] && AllDigits(digits)
    ensures ParseTrimmed(digits) ==
      if DigitsValue(digits) <= Int32Max then Success(DigitsValue(digits)) else Failure(OverflowError)
  {
    assert IsDigit(digits[0]);
  }

  /** int.Parse on the rendering of a non-negative number. */
  lemma ParseNonNegative(n: int)
    requires 0 <= n
    ensures Int32Parse(Int32ToString(n)) == if n <= Int32Max then Success(n) else Failure(OverflowError)
  {
    var digits := Decimal(n);
    DecimalValue(n);
    TrimDigits(digits);
    ParseTrimmedDigits(digits);
  }

  /** int.Parse on the rendering of a negative number, minus sign included. */
  lemma ParseNegative(n: int)
    requires n < 0
    ensures Int32Parse(Int32ToString(n)) == if Int32Min <= n then Success(n) else Failure(OverflowError)
  {
    var digits := Decimal(-n);
    DecimalValue(-n);
    TrimNegatedDigits(digits);
    ParseTrimmedNegated(digits);
  }

  /** int.Parse undoes int.ToString on every 32-bit integer, and throws OverflowException on the
      rendering of any integer outside that range. */
  lemma Int32ParseToString(n: int)
    ensures Int32Parse(Int32ToString(n)) ==
      if Int32Min <= n <= Int32Max then Success(n) else Failure(OverflowError)
  {
    if n < 0 {
      ParseNegative(n);
    } else {
      ParseNonNegative(n);
    }
  }

  /** A claim holding the decimal form of a 32-bit id resolves to that id; one holding a wider
      number fails with OverflowException. */
  lemma CurrentUserIdOfRenderedId(n: int)
    ensures CurrentUserId(Some(Int32ToString(n))) ==
      if Int32Min <= n <= Int32Max then Success(n) else Failure(OverflowError)
  {
    Int32ParseToString(n);
  }

  /** A claim that is not a number, such as a user name, fails with FormatException. */
  lemma CurrentUserIdOfName(claim: string)
    requires claim != [] && !IsParseWhite(claim[0]) && !IsParseWhite(claim[|claim| - 1])
    requires exists i :: 0 <= i < |claim| && !IsDigit(claim[i]) && !(i == 0 && (claim[0] == '-' || claim[0] == '+'))
    ensures CurrentUserId(Some(claim)) == Failure(FormatError)
  {
    assert Trim(claim) == claim;
    var i :| 0 <= i < |claim| && !IsDigit(claim[i]) && !(i == 0 && (claim[0] == '-' || claim[0] == '+'));
    var digits := if claim[0] == '-' || claim[0] == '+' then claim[1..] else claim;
    if claim[0] == '-' || claim[0] == '+' {
      assert digits[i - 1] == claim[i];
    }
    assert !AllDigits(digits);
  }
}
