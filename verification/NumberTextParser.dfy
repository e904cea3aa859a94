/** The text parser as the driver runs it, with its digit buffer and its loops. */
module NumberTextParser {
  import opened Decimals
  import opened NumberText
  import opened Wrappers

  lemma {:induction false} DigitsOfExtend(s: string, c: char)
    ensures DigitsOf(s + [c]) == DigitsOf(s) + [DigitOf(c)]
  {
    if s == "" {
      assert (s + [c])[1..] == "";
    } else {
      DigitsOfExtend(s[1..], c);
      assert (s + [c])[1..] == s[1..] + [c];
    }
  }

  lemma {:induction false} SignificantExtend(s: seq<int>, d: int)
    ensures Significant(s + [d]) == if Significant(s) == [] && d == 0 then [] else Significant(s) + [d]
  {
    if s == [] {
      assert (s + [d])[1..] == [];
    } else if s[0] == 0 {
      SignificantExtend(s[1..], d);
      assert (s + [d])[1..] == s[1..] + [d];
    }
  }

  lemma OneMoreDigit(seen: seq<int>, s: string, k: nat)
    requires k < |s|
    ensures var sofar := Significant(seen + DigitsOf(s[..k]));
            Significant(seen + DigitsOf(s[..k + 1]))
            == if sofar == [] && DigitOf(s[k]) == 0 then [] else sofar + [DigitOf(s[k])]
  {
    DigitsOfExtend(s[..k], s[k]);
    assert s[..k + 1] == s[..k] + [s[k]];
    SignificantExtend(seen + DigitsOf(s[..k]), DigitOf(s[k]));
    assert seen + DigitsOf(s[..k + 1]) == (seen + DigitsOf(s[..k])) + [DigitOf(s[k])];
  }

  // The loops over the digits before and after the decimal point: leading zeros are counted
  // instead of stored.
  method ReadDigits(s: string, pointStops: bool, ghost seen: seq<int>, stored: nat, digits: array<int>)
      returns (ok: bool, numDigits: nat, skipped: nat, rest: string)
    requires stored + |s| <= digits.Length && digits[..stored] == Significant(seen)
    modifies digits
    ensures var n := DigitCount(s);
            && ok == (n == |s| || IsExponentLetter(s[n]) || (pointStops && s[n] == '.'))
            && (ok ==>
                  && rest == s[n..] && skipped + numDigits == n + stored && numDigits <= stored + n
                  && numDigits <= digits.Length
                  && digits[..numDigits] == Significant(seen + DigitsOf(s[..n])))
  {
    ghost var k, sofar := 0, digits[..stored];
    ok, numDigits, skipped, rest := true, stored, 0, s;
    assert s[..0] == "" && seen + DigitsOf("") == seen;
    while rest != ""
      invariant k <= |s| && rest == s[k..] && DigitCount(s) == k + DigitCount(rest)
      invariant skipped + numDigits == k + stored && numDigits <= stored + k
      invariant digits[..numDigits] == sofar && sofar == Significant(seen + DigitsOf(s[..k]))
      decreases |rest|
    {
      if IsExponentLetter(rest[0]) || (pointStops && rest[0] == '.') {
        return;
      }
      if !IsDigitChar(rest[0]) {
        ok := false;
        return;
      }
      var digit := DigitOf(rest[0]);
      OneMoreDigit(seen, s, k);
      rest, k := rest[1..], k + 1;
      if digit == 0 && numDigits == 0 {
        skipped := skipped + 1;
      } else {
        digits[numDigits] := digit;
        numDigits, sofar := numDigits + 1, sofar + [digit];
      }
    }
  }

  // The value of an exponent that is there.
  function SignedExponent(e: Exponent): int {
    if e.sign == "-" then -NaturalOf(e.digits, 0) else NaturalOf(e.digits, 0)
  }

  // The loop over the digits of an exponent.
  method ReadExponentDigits(u: string) returns (r: Result<seq<int>, TextError>)
    ensures r == var n := DigitCount(u);
                 if n > 3 then Failure(ExponentTooLong)
                 else if n < |u| || n == 0 then Failure(InvalidNumber)
                 else Success(DigitsOf(u))
  {
    ghost var k := 0;
    var value := u;
    var exponentDigits: seq<int> := [];
    assert DigitsOf(u[..0]) == [];
    while value != ""
      invariant k <= |u| && value == u[k..] && k <= 3 && |exponentDigits| == k
      invariant DigitCount(u) == k + DigitCount(value)
      invariant exponentDigits == DigitsOf(u[..k])
      decreases |value|
    {
      if !IsDigitChar(value[0]) {
        return Failure(InvalidNumber);
      }
      if |exponentDigits| == 3 {
        return Failure(ExponentTooLong);
      }
      DigitsOfExtend(u[..k], value[0]);
      assert u[..k + 1] == u[..k] + [value[0]];
      exponentDigits, value, k := exponentDigits + [DigitOf(value[0])], value[1..], k + 1;
    }
    assert u[..k] == u;
    return if |exponentDigits| == 0 then Failure(InvalidNumber) else Success(exponentDigits);
  }

  method ReadExponent(t: string) returns (r: Result<int, TextError>)
    requires t != "" && IsExponentLetter(t[0])
    ensures r == match ScanExponent(t)
                 case Failure(error) => Failure(error)
                 case Success(e) => Success(SignedExponent(e.value))
    ensures r.Success? ==>
              var e := ScanExponent(t).value.value;
              (if e.sign == "-" then -r.value else r.value) as real == Shift(Fraction(e.digits), |e.digits|)
  {
    var value := t[1..];
    var exponentIsNegative := false;
    if value != "" && (value[0] == '+' || value[0] == '-') {
      exponentIsNegative := value[0] == '-';
      value := value[1..];
    }
    assert value == t[1 + (if |t| > 1 && (t[1] == '+' || t[1] == '-') then 1 else 0)..];
    var exponentDigits := ReadExponentDigits(value);
    if exponentDigits.Failure? {
      return Failure(exponentDigits.error);
    }
    var exponent := NaturalOf(exponentDigits.value, 0);
    NaturalIsFraction(exponentDigits.value, 0);
    return Success(if exponentIsNegative then -exponent else exponent);
  }

  method StripZeros(digits: array<int>, stored: nat) returns (numDigits: nat)
    requires stored <= digits.Length
    ensures numDigits <= stored && digits[..numDigits] == StripTrailing(digits[..stored])
  {
    numDigits := stored;
    while numDigits > 0 && digits[numDigits - 1] == 0
      invariant numDigits <= stored
      invariant StripTrailing(digits[..numDigits]) == StripTrailing(digits[..stored])
    {
      assert digits[..numDigits][..numDigits - 1] == digits[..numDigits - 1];
      numDigits := numDigits - 1;
    }
  }

  // The point index and the number of digits left when the numeral n, or an error, was scanned.
  ghost predicate ParsedAs(r: Result<int, TextError>, numDigits: nat, scanned: Result<Numeral, TextError>) {
    match scanned
    case Failure(error) => r == Failure(error)
    case Success(n) => r == Success(Normalize(n).pointIndex) && numDigits == |Significant(n.whole + FractionDigits(n))|
  }

  ghost function SignificantDigits(isNegative: bool, whole: seq<int>, rest: string): seq<int> {
    match ScanTail(isNegative, whole, rest)
    case Failure(error) => []
    case Success(n) => Significant(n.whole + FractionDigits(n))
  }

  // The digits after the point, if there is one.
  method ReadFraction(rest: string, ghost whole: seq<int>, stored: nat, digits: array<int>)
      returns (ok: bool, decimalPointIndex: int, numDigits: nat, value: string)
    requires stored + |rest| <= digits.Length && digits[..stored] == Significant(whole)
    requires rest != "" ==> rest[0] == '.' || IsExponentLetter(rest[0])
    modifies digits
    ensures ok <==> ScanFraction(rest).Success?
    ensures !ok ==> ScanFraction(rest) == Failure(InvalidNumber)
    ensures ok ==>
              var f := ScanFraction(rest).value;
              var decimals := if f.Some? then f.value else [];
              && value == rest[FractionLength(f)..]
              && decimalPointIndex == numDigits - |decimals| && numDigits <= digits.Length
              && digits[..numDigits] == Significant(whole + decimals)
  {
    ok, decimalPointIndex, numDigits, value := true, stored, stored, rest;
    assert whole + [] == whole;
    if value != "" && value[0] == '.' {
      value := value[1..];
      ghost var s := value;
      var skipped;
      ok, numDigits, skipped, value := ReadDigits(value, false, whole, numDigits, digits);
      decimalPointIndex := decimalPointIndex - skipped;
      assert ok ==> rest[1 + DigitCount(s)..] == value;
    }
  }

  function DigitsAfter(f: Option<seq<int>>): seq<int> {
    if f.Some? then f.value else []
  }

  lemma AfterFraction(rest: string)
    requires ScanFraction(rest).Success?
    ensures var value := rest[FractionLength(ScanFraction(rest).value)..];
            value != "" ==> IsExponentLetter(value[0])
  {
    ScanFractionSound(rest);
  }

  lemma TailDone(isNegative: bool, whole: seq<int>, rest: string, f: Option<seq<int>>, e: Option<Exponent>, point: int,
                 numDigits: nat)
    requires ScanFraction(rest) == Success(f) && ScanExponent(rest[FractionLength(f)..]) == Success(e)
    requires numDigits == |Significant(whole + DigitsAfter(f))|
    requires point == numDigits - |DigitsAfter(f)| + if e.None? then 0 else SignedExponent(e.value)
    ensures ParsedAs(Success(point), numDigits, ScanTail(isNegative, whole, rest))
    ensures SignificantDigits(isNegative, whole, rest) == Significant(whole + DigitsAfter(f))
  {
  }

  // The digits after the point and the exponent.
  method ReadTail(rest: string, ghost isNegative: bool, ghost whole: seq<int>, stored: nat, digits: array<int>)
      returns (r: Result<int, TextError>, numDigits: nat)
    requires stored + |rest| <= digits.Length && digits[..stored] == Significant(whole)
    requires rest != "" ==> rest[0] == '.' || IsExponentLetter(rest[0])
    modifies digits
    ensures ParsedAs(r, numDigits, ScanTail(isNegative, whole, rest))
    ensures r.Success? ==> numDigits <= digits.Length && digits[..numDigits] == SignificantDigits(isNegative, whole, rest)
  {
    var ok, decimalPointIndex, value;
    ok, decimalPointIndex, numDigits, value := ReadFraction(rest, whole, stored, digits);
    if !ok {
      return Failure(InvalidNumber), numDigits;
    }
    ghost var f := ScanFraction(rest).value;
    ghost var e: Option<Exponent> := None;
    if value != "" {
      AfterFraction(rest);
      var exponent := ReadExponent(value);
      if exponent.Failure? {
        return Failure(exponent.error), numDigits;
      }
      e := ScanExponent(value).value;
      decimalPointIndex := decimalPointIndex + exponent.value;
    }
    assert numDigits == |digits[..numDigits]|;
    TailDone(isNegative, whole, rest, f, e, decimalPointIndex, numDigits);
    return Success(decimalPointIndex), numDigits;
  }

  method ReadUnsigned(isNegative: bool, s: string, digits: array<int>) returns (r: Result<int, TextError>, numDigits: nat)
    requires |s| <= digits.Length
    modifies digits
    ensures ParsedAs(r, numDigits, ScanUnsigned(isNegative, s))
    ensures r.Success? ==> numDigits <= digits.Length
                           && digits[..numDigits]
                              == SignificantDigits(isNegative, DigitsOf(s[..DigitCount(s)]), s[DigitCount(s)..])
  {
    ghost var w := DigitCount(s);
    DigitCountPrefix(s);
    var ok, skipped, rest;
    ok, numDigits, skipped, rest := ReadDigits(s, true, [], 0, digits);
    if !ok {
      return Failure(InvalidNumber), numDigits;
    }
    assert [] + DigitsOf(s[..w]) == DigitsOf(s[..w]);
    r, numDigits := ReadTail(rest, isNegative, DigitsOf(s[..w]), numDigits, digits);
  }

  method ParseNumberString(text: string, digits: array<int>) returns (r: Result<Decimal, TextError>)
    requires |text| <= digits.Length
    modifies digits
    ensures r == ParseText(text)
    ensures r.Success? ==> |r.value.digits| <= digits.Length && digits[..|r.value.digits|] == r.value.digits
  {
    var isNegative := text != "" && text[0] == '-';
    var point, numDigits := ReadUnsigned(isNegative, if isNegative then text[1..] else text, digits);
    if point.Failure? {
      return Failure(point.error);
    }
    numDigits := StripZeros(digits, numDigits);
    if numDigits > MAX_DIGITS || point.value > 126 || point.value < -129 {
      return Failure(NotRepresentable);
    }
    return Success(Decimal(isNegative, point.value, digits[..numDigits]));
  }
}
