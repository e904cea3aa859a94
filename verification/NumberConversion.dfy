/** Text to OCI number and back: the whole conversion. */
module NumberConversion {
  import opened Decimals
  import opened NumberText
  import opened NumberTextParser
  import opened NumberFormat
  import opened OracleNumber
  import opened OracleNumberParser
  import opened NumberCodec
  import opened Wrappers

  function Behind(converted: string, r: Result<string, TextError>): Result<string, TextError> {
    if r.Failure? then r else Success(converted + r.value)
  }

  lemma BehindOne(converted: string, c: char, r: Result<string, TextError>)
    ensures Behind(converted, Behind([c], r)) == Behind(converted + [c], r)
  {
    assert r.Success? ==> converted + ([c] + r.value) == (converted + [c]) + r.value;
  }

  // The loop that converts UTF-16 units to single bytes.
  method ConvertText(value: seq<int>, cs: Charset) returns (r: Result<string, TextError>)
    requires IsBytes(value)
    ensures r == Convert(value, cs)
  {
    var converted, rest := "", value;
    assert Convert(value, cs).Success? ==> "" + Convert(value, cs).value == Convert(value, cs).value;
    while |rest| >= Width(cs)
      invariant IsBytes(rest) && Convert(value, cs) == Behind(converted, Convert(rest, cs))
      decreases |rest|
    {
      var unit := match cs
                  case SingleByte => rest[0]
                  case Utf16(bigEndian) => if bigEndian then 256 * rest[0] + rest[1] else 256 * rest[1] + rest[0];
      if cs.Utf16? && unit > 127 {
        return Failure(InvalidNumber);
      }
      BehindOne(converted, (unit % 256) as char, Convert(rest[Width(cs)..], cs));
      converted, rest := converted + [(unit % 256) as char], rest[Width(cs)..];
    }
    assert converted + "" == converted;
    return Success(converted);
  }

  lemma {:induction false} ConvertErrors(bytes: seq<int>, cs: Charset)
    requires IsBytes(bytes)
    ensures Convert(bytes, cs) != Failure(NumberTooLong)
    decreases |bytes|
  {
    if |bytes| >= Width(cs) {
      ConvertErrors(bytes[Width(cs)..], cs);
    }
  }

  // The empty text is no number, and texts are too long from 173 characters on, in either character set.
  lemma TooLongExactly(value: seq<int>, cs: Charset)
    requires IsBytes(value)
    ensures ParseNumber(value, cs) == Failure(NumberTooLong) <==> |value| > if cs.SingleByte? then 172 else 344
    ensures |value| == 0 ==> ParseNumber(value, cs) == Failure(InvalidNumber)
  {
    ConvertErrors(value, cs);
    if Convert(value, cs).Success? {
      ScanErrors(Convert(value, cs).value);
    }
  }

  // The number is longer than its buffer, or the text is not a number.
  datatype ConversionError = Overrun | BadText(error: TextError)

  // Bad texts leave the OCI number alone. A number that does not fit overruns the buffer.
  method ToOracleNumberFromText(value: seq<int>, cs: Charset, oracleValue: array<int>)
      returns (r: Result<(), ConversionError>)
    requires IsBytes(value) && oracleValue.Length >= ORACLE_NUMBER_SIZE
    modifies oracleValue
    ensures match ParseNumber(value, cs) {
              case Failure(error) => r == Failure(BadText(error)) && oracleValue[..] == old(oracleValue[..])
              case Success(d) =>
                var e := Encode(d);
                if |e| > oracleValue.Length then r == Failure(Overrun)
                else r.Success? && oracleValue[..|e|] == e && oracleValue[|e|..] == old(oracleValue[..])[|e|..]
            }
    ensures oracleValue.Length == ORACLE_NUMBER_SIZE ==>
              (r == Failure(Overrun) <==> ParseNumber(value, cs).Success? && !Fits(ParseNumber(value, cs).value))
  {
    if |value| == 0 {
      return Failure(BadText(InvalidNumber));
    }
    if |value| > Width(cs) * MAX_TEXT_CHARS {
      return Failure(BadText(NumberTooLong));
    }
    var text := ConvertText(value, cs);
    if text.Failure? {
      return Failure(BadText(text.error));
    }
    ConvertLength(value, cs);
    var digits := new int[MAX_TEXT_CHARS];
    var parsed := ParseNumberString(text.value, digits);
    if parsed.Failure? {
      return Failure(BadText(parsed.error));
    }
    ParseTextCorrect(text.value, parsed.value);
    var Decimal(isNegative, decimalPointIndex, kept) := parsed.value;
    var fits := WriteNumber(isNegative, decimalPointIndex, |kept|, digits, oracleValue, parsed.value);
    return if fits then Success(()) else Failure(Overrun);
  }

  lemma {:induction false} ConvertLength(bytes: seq<int>, cs: Charset)
    requires IsBytes(bytes) && Convert(bytes, cs).Success?
    ensures Width(cs) * |Convert(bytes, cs).value| <= |bytes|
    decreases |bytes|
  {
    if |bytes| >= Width(cs) {
      ConvertLength(bytes[Width(cs)..], cs);
    }
  }

  // Any text the driver accepts, in either character set, goes into the OCI number and comes back
  // as a text that the driver accepts with exactly the same value; the numbers whose encoding
  // does not fit are rejected on the way back. Nonzero numbers come back as the same decimal.
  lemma TextRoundTrip(value: seq<int>, cs: Charset, d: Decimal, rest: seq<int>, printed: Charset)
    requires IsBytes(value) && ParseNumber(value, cs) == Success(d)
    requires IsBytes(rest) && |Encode(d) + rest| >= ORACLE_NUMBER_SIZE
    ensures IsBytes(Encode(d) + rest)
    ensures Decode(Encode(d) + rest).Success? <==> Fits(d)
    ensures Fits(d) ==>
              var text := BytesOf(Print(Decode(Encode(d) + rest).value), printed);
              && |text| <= Width(printed) * MAX_TEXT_CHARS
              && IsBytes(text) && ParseNumber(text, printed).Success?
              && Value(ParseNumber(text, printed).value) == Value(d)
              && (d.digits != [] ==> ParseNumber(text, printed).value == d)
  {
    ParseTextCorrect(Convert(value, cs).value, d);
    DecodeInvertsEncode(d, rest);
    if Fits(d) {
      var back := Decode(Encode(d) + rest).value;
      PrintLength(back);
      if d.digits == [] {
        ZeroReadsBack(printed);
        ShiftZero(d.pointIndex);
        ShiftZero(0);
      } else {
        PrintedReadsBack(d, printed);
      }
    }
  }

  // ---- a number that does not fit ----

  function Ones(n: nat): (s: seq<int>)
    ensures |s| == n && forall i :: 0 <= i < n ==> s[i] == 1
  {
    if n == 0 then [] else [1] + Ones(n - 1)
  }

  // A one, a point and 39 ones are accepted as a text, and take 23 bytes.
  lemma FortyDigitsOverrun(cs: Charset)
    ensures var d := Decimal(false, 1, Ones(MAX_DIGITS));
            var text := BytesOf(Print(d), cs);
            && Normal(d) && IsBytes(text) && ParseNumber(text, cs) == Success(d)
            && !Fits(d) && |Encode(d)| == ORACLE_NUMBER_SIZE + 1
  {
    var d := Decimal(false, 1, Ones(MAX_DIGITS));
    PrintedReadsBack(d, cs);
    EncodedSize(d);
  }

  // ---- examples ----

  // How 123.45, 100, 0.05 and -7 are printed.
  lemma KnownTexts()
    ensures Print(Decimal(false, 3, [1, 2, 3, 4, 5])) == "123.45"
    ensures Print(Decimal(false, 3, [1])) == "100"
    ensures Print(Decimal(false, -1, [5])) == "0.05"
    ensures Print(Decimal(true, 1, [7])) == "-7"
  {
    DigitsPrinted([1, 2, 3], "123");
    DigitsPrinted([4, 5], "45");
    assert [1, 2, 3, 4, 5][..3] == [1, 2, 3] && [1, 2, 3, 4, 5][3..] == [4, 5];
    DigitsPrinted([1, 0, 0], "100");
    assert [1] + Zeros(2) == [1, 0, 0];
    DigitsPrinted([0, 5], "05");
    assert Zeros(1) + [5] == [0, 5];
    DigitsPrinted([7], "7");
    assert [7] + Zeros(0) == [7];
  }

  lemma {:induction false} DigitsPrinted(digits: seq<int>, text: string)
    requires |text| == |digits| && forall i :: 0 <= i < |digits| ==> 0 <= digits[i] <= 9 && text[i] == "0123456789"[digits[i]]
    ensures DigitChars(digits) == text
  {
    if digits != [] {
      DigitsPrinted(digits[1..], text[1..]);
      assert text == [text[0]] + text[1..];
    }
  }
}
