/** Printing a parsed number as text, in single-byte and in UTF-16 form, and reading texts in
    either form back. */
module NumberFormat {
  import opened Decimals
  import opened NumberText
  import opened OracleNumber
  import opened OracleNumberParser
  import opened Wrappers

  // ---- character encodings ----

  datatype Charset = SingleByte | Utf16(bigEndian: bool)

  function Width(cs: Charset): int {
    if cs.SingleByte? then 1 else 2
  }

  // The bytes of one character; UTF-16 units are in the order of the platform.
  function UnitOf(c: char, cs: Charset): (bytes: seq<int>)
    ensures |bytes| == Width(cs)
  {
    var code := c as int;
    match cs
    case SingleByte => [code]
    case Utf16(bigEndian) => if bigEndian then [code / 256, code % 256] else [code % 256, code / 256]
  }

  function BytesOf(text: string, cs: Charset): (bytes: seq<int>)
    ensures |bytes| == Width(cs) * |text|
  {
    if text == "" then [] else UnitOf(text[0], cs) + BytesOf(text[1..], cs)
  }

  // The conversion in front of the parser: UTF-16 units above 127 cannot be part of a number, and
  // an odd byte at the end is ignored.
  function Convert(bytes: seq<int>, cs: Charset): Result<string, TextError>
    requires IsBytes(bytes)
    decreases |bytes|
  {
    if |bytes| < Width(cs) then Success("")
    else
      var unit := match cs
                  case SingleByte => bytes[0]
                  case Utf16(bigEndian) => if bigEndian then 256 * bytes[0] + bytes[1] else 256 * bytes[1] + bytes[0];
      if cs.Utf16? && unit > 127 then Failure(InvalidNumber)
      else
        match Convert(bytes[Width(cs)..], cs)
        case Failure(error) => Failure(error)
        case Success(rest) => Success([(unit % 256) as char] + rest)
  }

  function ParseNumber(bytes: seq<int>, cs: Charset): Result<Decimal, TextError>
    requires IsBytes(bytes)
  {
    if bytes == [] then Failure(InvalidNumber)
    else if |bytes| > Width(cs) * MAX_TEXT_CHARS then Failure(NumberTooLong)
    else
      match Convert(bytes, cs)
      case Failure(error) => Failure(error)
      case Success(text) => ParseText(text)
  }

  predicate IsAscii(text: string) {
    forall i :: 0 <= i < |text| ==> text[i] as int < 128
  }

  // Both forms carry the same characters.
  lemma {:induction false} ConvertInvertsBytes(text: string, cs: Charset)
    requires IsAscii(text)
    ensures IsBytes(BytesOf(text, cs)) && Convert(BytesOf(text, cs), cs) == Success(text)
  {
    if text != "" {
      ConvertInvertsBytes(text[1..], cs);
      assert BytesOf(text, cs)[Width(cs)..] == BytesOf(text[1..], cs);
      assert text == [text[0]] + text[1..];
    }
  }

  lemma BytesAhead(s: string, cs: Charset)
    requires s != ""
    ensures BytesOf(s, cs) == UnitOf(s[0], cs) + BytesOf(s[1..], cs)
  {
  }

  lemma {:induction false} BytesConcat(s: string, t: string, cs: Charset)
    ensures BytesOf(s + t, cs) == BytesOf(s, cs) + BytesOf(t, cs)
  {
    if s == "" {
      assert s + t == t;
    } else {
      BytesConcat(s[1..], t, cs);
      assert (s + t)[1..] == s[1..] + t;
      BytesAhead(s + t, cs);
      BytesAhead(s, cs);
      Regroup(UnitOf(s[0], cs), BytesOf(s[1..], cs), BytesOf(t, cs));
    }
  }

  // ---- the text of a decimal ----

  function Magnitude(d: Decimal): string {
    var n := |d.digits|;
    if d.pointIndex <= 0 then "0." + DigitChars(Zeros(-d.pointIndex) + d.digits)
    else if d.pointIndex < n then DigitChars(d.digits[..d.pointIndex]) + "." + DigitChars(d.digits[d.pointIndex..])
    else DigitChars(d.digits + Zeros(d.pointIndex - n))
  }

  function Sign(negative: bool): string {
    if negative then "-" else ""
  }

  function Print(d: Decimal): string {
    Sign(d.negative) + Magnitude(d)
  }

  function PrintedLength(negative: bool, point: int, numDigits: nat): int {
    numDigits + (if negative then 1 else 0)
    + if point <= 0 then -point + 2 else if point < numDigits then 1 else if point > numDigits then point - numDigits else 0
  }

  // The printed text has exactly the precomputed number of characters, and at most 172 for every
  // number the text parser or the encoder can produce.
  lemma PrintLength(d: Decimal)
    ensures |Print(d)| == PrintedLength(d.negative, d.pointIndex, |d.digits|)
    ensures |d.digits| <= MAX_DIGITS && -129 <= d.pointIndex <= 127 ==> |Print(d)| <= MAX_TEXT_CHARS
  {
  }

  // The numeral that is printed.
  function NumeralOf(d: Decimal): Numeral {
    var n := |d.digits|;
    if d.pointIndex <= 0 then Numeral(d.negative, [0], Some(Zeros(-d.pointIndex) + d.digits), None)
    else if d.pointIndex < n then
      Numeral(d.negative, d.digits[..d.pointIndex], Some(d.digits[d.pointIndex..]), None)
    else Numeral(d.negative, d.digits + Zeros(d.pointIndex - n), None, None)
  }

  lemma PrintIsSpell(d: Decimal)
    ensures Spell(NumeralOf(d)) == Print(d)
    ensures IsDigits(d.digits) ==> WellFormed(NumeralOf(d))
  {
    var n := NumeralOf(d);
    assert SpellExponent(n.exponent) == "";
    assert SpellFraction(n.fraction) + "" == SpellFraction(n.fraction);
    if n.fraction.Some? {
      assert DigitChars(n.whole) + ("." + DigitChars(n.fraction.value))
             == DigitChars(n.whole) + "." + DigitChars(n.fraction.value);
    } else {
      assert DigitChars(n.whole) + "" == DigitChars(n.whole);
    }
    if d.pointIndex <= 0 {
      assert DigitChars([0]) == "0" + DigitChars([0][1..]);
      assert DigitChars(n.whole) + "." == "0.";
    }
  }

  lemma {:induction false} SignificantAfterZeros(k: nat, s: seq<int>)
    requires s == [] || s[0] != 0
    ensures Significant(Zeros(k) + s) == s
  {
    if k == 0 {
      assert Zeros(k) + s == s;
    } else {
      SignificantAfterZeros(k - 1, s);
      assert (Zeros(k) + s)[1..] == Zeros(k - 1) + s;
    }
  }

  lemma {:induction false} StripAppendedZeros(s: seq<int>, k: nat)
    requires s == [] || s[|s| - 1] != 0
    ensures StripTrailing(s + Zeros(k)) == s
  {
    if k == 0 {
      assert s + Zeros(k) == s;
    } else {
      StripAppendedZeros(s, k - 1);
      assert (s + Zeros(k))[..|s| + k - 1] == s + Zeros(k - 1);
    }
  }

  // The printed numeral has the printed decimal as its normal form.
  lemma NormalizePrinted(d: Decimal)
    requires IsDigits(d.digits) && Trimmed(d.digits) && d.digits != []
    ensures Normalize(NumeralOf(d)) == d
  {
    var n := NumeralOf(d);
    if d.pointIndex <= 0 {
      var k := 1 - d.pointIndex;
      assert n.whole + FractionDigits(n) == Zeros(k) + d.digits;
      SignificantAfterZeros(k, d.digits);
    } else if d.pointIndex < |d.digits| {
      assert n.whole + FractionDigits(n) == d.digits;
    } else {
      assert n.whole + FractionDigits(n) == d.digits + Zeros(d.pointIndex - |d.digits|);
      StripAppendedZeros(d.digits, d.pointIndex - |d.digits|);
    }
  }

  lemma {:induction false} DigitCharsAscii(digits: seq<int>)
    requires Within(digits, 0, 25)
    ensures IsAscii(DigitChars(digits)) && |DigitChars(digits)| == |digits|
  {
    if digits != [] {
      DigitCharsAscii(digits[1..]);
      AsciiConcat([DigitChar(digits[0])], DigitChars(digits[1..]));
    }
  }

  lemma AsciiConcat(s: string, t: string)
    requires IsAscii(s) && IsAscii(t)
    ensures IsAscii(s + t)
  {
  }

  lemma MagnitudeIsAscii(d: Decimal)
    requires Within(d.digits, 0, 25)
    ensures IsAscii(Magnitude(d)) && Magnitude(d) != ""
  {
    var n, p := |d.digits|, d.pointIndex;
    if p <= 0 {
      DigitCharsAscii(Zeros(-p) + d.digits);
      AsciiConcat("0.", DigitChars(Zeros(-p) + d.digits));
    } else if p < n {
      DigitCharsAscii(d.digits[..p]);
      DigitCharsAscii(d.digits[p..]);
      AsciiConcat(DigitChars(d.digits[..p]), ".");
      AsciiConcat(DigitChars(d.digits[..p]) + ".", DigitChars(d.digits[p..]));
    } else {
      DigitCharsAscii(d.digits + Zeros(p - n));
    }
  }

  lemma PrintIsAscii(d: Decimal)
    requires Within(d.digits, 0, 25)
    ensures IsAscii(Print(d)) && Print(d) != ""
  {
    MagnitudeIsAscii(d);
    AsciiConcat(Sign(d.negative), Magnitude(d));
  }

  // Printed text reads back as the decimal itself, in either character set.
  lemma PrintedReadsBack(d: Decimal, cs: Charset)
    requires Normal(d) && d.digits != []
    ensures IsBytes(BytesOf(Print(d), cs)) && ParseNumber(BytesOf(Print(d), cs), cs) == Success(d)
  {
    PrintIsAscii(d);
    ConvertInvertsBytes(Print(d), cs);
    PrintLength(d);
    PrintIsSpell(d);
    ScanSpelled(NumeralOf(d));
    NormalizePrinted(d);
  }

  // What the parser makes of zero in an OCI number is printed as 0 and reads back as zero.
  lemma ZeroReadsBack(cs: Charset)
    ensures var d := Decimal(false, 1, [0]);
            && Print(d) == "0"
            && IsBytes(BytesOf("0", cs)) && ParseNumber(BytesOf("0", cs), cs) == Success(Decimal(false, 0, []))
  {
    ZeroIsPrinted();
    assert IsAscii("0");
    ConvertInvertsBytes("0", cs);
    ZeroIsParsed();
  }

  lemma ZeroIsPrinted()
    ensures Print(Decimal(false, 1, [0])) == "0" && DigitChars([0]) == "0"
  {
    assert DigitChars([0]) == "0" + DigitChars([0][1..]);
    assert [0] + Zeros(0) == [0];
  }

  lemma ZeroIsParsed()
    ensures ParseText("0") == Success(Decimal(false, 0, []))
  {
    var n := Numeral(false, [0], None, None);
    ZeroIsPrinted();
    assert Spell(n) == "0";
    ScanSpelled(n);
    assert [0] + [] == [0] && [0][1..] == [];
  }

  // ---- the printer ----

  datatype FormatError = BufferTooSmall | BadNumber(error: NumberError)

  method PutUnit(c: char, cs: Charset, target: array<int>, at: nat) returns (next: nat)
    requires at + Width(cs) <= target.Length
    modifies target
    ensures next == at + Width(cs) && target[..next] == old(target[..at]) + UnitOf(c, cs)
    ensures c as int < 128 ==> target[if cs == Utf16(true) then at + 1 else at] == c as int
    ensures c as int < 128 && cs.Utf16? ==> target[if cs == Utf16(true) then at else at + 1] == 0
    ensures forall k :: next <= k < target.Length ==> target[k] == old(target[k])
  {
    var bytes := UnitOf(c, cs);
    target[at] := bytes[0];
    if cs.Utf16? {
      target[at + 1] := bytes[1];
    }
    next := at + Width(cs);
  }

  // The digits from position i on, with the decimal point in front of the digit at its index.
  function DigitsFrom(digits: seq<int>, point: int, i: nat): string
    requires i <= |digits|
    decreases |digits| - i
  {
    if i == |digits| then ""
    else (if i > 0 && i == point then "." else "") + [DigitChar(digits[i])] + DigitsFrom(digits, point, i + 1)
  }

  lemma {:induction false} DigitsFromIsPlain(digits: seq<int>, point: int, i: nat)
    requires i <= |digits| && (point < i || point >= |digits| || point <= 0)
    ensures DigitsFrom(digits, point, i) == DigitChars(digits[i..])
    decreases |digits| - i
  {
    if i < |digits| {
      DigitsFromIsPlain(digits, point, i + 1);
      assert digits[i..][1..] == digits[i + 1..];
    }
  }

  lemma {:induction false} DigitsFromSplits(digits: seq<int>, point: int, i: nat)
    requires 0 <= i <= point < |digits| && 0 < point
    ensures DigitsFrom(digits, point, i) == DigitChars(digits[i..point]) + "." + DigitChars(digits[point..])
    decreases point - i
  {
    if i < point {
      DigitsFromSplits(digits, point, i + 1);
      assert digits[i..point][1..] == digits[i + 1..point];
    } else {
      DigitsFromIsPlain(digits, point, i + 1);
      assert digits[point..][1..] == digits[point + 1..];
    }
  }

  lemma {:induction false} DigitCharsConcat(s: seq<int>, t: seq<int>)
    ensures DigitChars(s + t) == DigitChars(s) + DigitChars(t)
  {
    if s == [] {
      assert s + t == t && DigitChars(s) == "";
    } else {
      DigitCharsConcat(s[1..], t);
      assert (s + t)[1..] == s[1..] + t;
      DigitCharsAhead(s + t);
      DigitCharsAhead(s);
    }
  }

  lemma DigitCharsAhead(s: seq<int>)
    requires s != []
    ensures DigitChars(s) == [DigitChar(s[0])] + DigitChars(s[1..])
  {
  }

  // The text in the order in which the printer writes it.
  function Lead(d: Decimal): string {
    if d.pointIndex <= 0 then "0." + DigitChars(Zeros(-d.pointIndex)) else ""
  }

  function Middle(d: Decimal): string {
    DigitsFrom(d.digits, if d.pointIndex <= 0 then 0 else d.pointIndex, 0)
  }

  function Trail(d: Decimal): string {
    if d.pointIndex > |d.digits| then DigitChars(Zeros(d.pointIndex - |d.digits|)) else ""
  }

  lemma PartsAreMagnitude(d: Decimal)
    ensures Lead(d) + (Middle(d) + Trail(d)) == Magnitude(d)
  {
    var n := |d.digits|;
    assert d.digits[0..] == d.digits;
    if d.pointIndex <= 0 {
      DigitsFromIsPlain(d.digits, 0, 0);
      DigitCharsConcat(Zeros(-d.pointIndex), d.digits);
      assert Middle(d) + "" == Middle(d);
    } else if d.pointIndex < n {
      DigitsFromSplits(d.digits, d.pointIndex, 0);
      assert d.digits[0..d.pointIndex] == d.digits[..d.pointIndex];
      assert Middle(d) + "" == Middle(d);
    } else {
      DigitsFromIsPlain(d.digits, d.pointIndex, 0);
      DigitCharsConcat(d.digits, Zeros(d.pointIndex - n));
      assert Zeros(0) == [];
    }
  }

  lemma {:induction false} DigitCharsZeros(n: nat)
    ensures n > 0 ==> DigitChars(Zeros(n)) == "0" + DigitChars(Zeros(n - 1))
  {
    if n > 0 {
      assert Zeros(n)[1..] == Zeros(n - 1);
    }
  }

  method PutZeros(count: nat, cs: Charset, target: array<int>, at: nat) returns (next: nat)
    requires at + Width(cs) * count <= target.Length
    modifies target
    ensures next == at + Width(cs) * count
    ensures target[..next] == old(target[..at]) + BytesOf(DigitChars(Zeros(count)), cs)
    ensures forall k :: next <= k < target.Length ==> target[k] == old(target[k])
  {
    ghost var all, end := target[..at] + BytesOf(DigitChars(Zeros(count)), cs), at + Width(cs) * count;
    next := at;
    for i := 0 to count
      invariant next == at + Width(cs) * i
      invariant target[..next] + BytesOf(DigitChars(Zeros(count - i)), cs) == all
      invariant forall k :: end <= k < target.Length ==> target[k] == old(target[k])
    {
      DigitCharsZeros(count - i);
      ghost var left := DigitChars(Zeros(count - i));
      ghost var done := target[..next];
      assert left[1..] == DigitChars(Zeros(count - i - 1));
      Regroup(done, UnitOf('0', cs), BytesOf(left[1..], cs));
      assert Width(cs) * (i + 1) <= Width(cs) * count;
      next := PutUnit('0', cs, target, next);
    }
  }

  method PutDigits(digits: seq<int>, point: int, cs: Charset, target: array<int>, at: nat) returns (next: nat)
    requires at + Width(cs) * |DigitsFrom(digits, point, 0)| <= target.Length
    modifies target
    ensures next == at + Width(cs) * |DigitsFrom(digits, point, 0)|
    ensures target[..next] == old(target[..at]) + BytesOf(DigitsFrom(digits, point, 0), cs)
    ensures forall k :: next <= k < target.Length ==> target[k] == old(target[k])
  {
    ghost var all := target[..at] + BytesOf(DigitsFrom(digits, point, 0), cs);
    ghost var end := at + Width(cs) * |DigitsFrom(digits, point, 0)|;
    next := at;
    for i := 0 to |digits|
      invariant at <= next && next + Width(cs) * |DigitsFrom(digits, point, i)| == end
      invariant target[..next] + BytesOf(DigitsFrom(digits, point, i), cs) == all
      invariant forall k :: end <= k < target.Length ==> target[k] == old(target[k])
    {
      ghost var left := DigitsFrom(digits, point, i);
      if i > 0 && i == point {
        ghost var done := target[..next];
        Regroup(done, UnitOf('.', cs), BytesOf(left[1..], cs));
        next := PutUnit('.', cs, target, next);
        left := left[1..];
      }
      ghost var done := target[..next];
      assert left[1..] == DigitsFrom(digits, point, i + 1);
      Regroup(done, UnitOf(DigitChar(digits[i]), cs), BytesOf(left[1..], cs));
      next := PutUnit(DigitChar(digits[i]), cs, target, next);
    }
  }

  lemma FourParts(s: string, l: string, m: string, t: string, cs: Charset)
    ensures BytesOf(s + (l + (m + t)), cs) == BytesOf(s, cs) + BytesOf(l, cs) + BytesOf(m, cs) + BytesOf(t, cs)
  {
    BytesConcat(s, l + (m + t), cs);
    BytesConcat(l, m + t, cs);
    BytesConcat(m, t, cs);
  }

  lemma PrintedBytes(d: Decimal, cs: Charset)
    ensures BytesOf(Print(d), cs)
            == BytesOf(Sign(d.negative), cs) + BytesOf(Lead(d), cs) + BytesOf(Middle(d), cs) + BytesOf(Trail(d), cs)
    ensures |Print(d)| == |Sign(d.negative)| + |Lead(d)| + |Middle(d)| + |Trail(d)|
  {
    PartsAreMagnitude(d);
    FourParts(Sign(d.negative), Lead(d), Middle(d), Trail(d), cs);
  }

  lemma LeadBytes(d: Decimal, cs: Charset, zeros: string)
    requires d.pointIndex <= 0 && zeros == DigitChars(Zeros(-d.pointIndex))
    ensures BytesOf(Lead(d), cs) == UnitOf('0', cs) + (UnitOf('.', cs) + BytesOf(zeros, cs))
    ensures |Lead(d)| == 2 + |zeros|
  {
    assert Lead(d) == "0" + ("." + zeros);
    BytesAhead(Lead(d), cs);
    assert Lead(d)[1..] == "." + zeros;
    BytesAhead("." + zeros, cs);
    assert ("." + zeros)[1..] == zeros;
  }

  // The zero before the decimal point, the point and the zeros behind it.
  method PutLead(point: int, cs: Charset, target: array<int>, at: nat, ghost d: Decimal)
      returns (next: nat, decimalPointIndex: int)
    requires d.pointIndex == point && at + Width(cs) * |Lead(d)| <= target.Length
    modifies target
    ensures next == at + Width(cs) * |Lead(d)| && decimalPointIndex == if point <= 0 then 0 else point
    ensures target[..next] == old(target[..at]) + BytesOf(Lead(d), cs)
    ensures forall k :: next <= k < target.Length ==> target[k] == old(target[k])
  {
    next, decimalPointIndex := at, point;
    if point <= 0 {
      ghost var zeros := DigitChars(Zeros(-point));
      LeadBytes(d, cs, zeros);
      ghost var done := target[..at];
      next := PutUnit('0', cs, target, next);
      next := PutUnit('.', cs, target, next);
      next := PutZeros(-point, cs, target, next);
      Regroup(done, UnitOf('0', cs), UnitOf('.', cs));
      Regroup(done, UnitOf('0', cs) + UnitOf('.', cs), BytesOf(zeros, cs));
      Regroup(UnitOf('0', cs), UnitOf('.', cs), BytesOf(zeros, cs));
      decimalPointIndex := 0;
    }
  }

  // The minus sign, if any, at the start of the buffer.
  method PutSign(isNegative: bool, cs: Charset, target: array<int>) returns (next: nat)
    requires Width(cs) * |Sign(isNegative)| <= target.Length
    modifies target
    ensures next == Width(cs) * |Sign(isNegative)| && target[..next] == BytesOf(Sign(isNegative), cs)
    ensures forall k :: next <= k < target.Length ==> target[k] == old(target[k])
  {
    next := 0;
    if isNegative {
      next := PutUnit('-', cs, target, next);
      assert BytesOf("-", cs) == UnitOf('-', cs) + BytesOf("", cs);
    }
  }

  // The zeros between the last digit and a decimal point further right.
  method PutTrail(point: int, numDigits: nat, cs: Charset, target: array<int>, at: nat, ghost d: Decimal)
      returns (next: nat)
    requires d.pointIndex == point && |d.digits| == numDigits && at + Width(cs) * |Trail(d)| <= target.Length
    modifies target
    ensures next == at + Width(cs) * |Trail(d)| && target[..next] == old(target[..at]) + BytesOf(Trail(d), cs)
    ensures forall k :: next <= k < target.Length ==> target[k] == old(target[k])
  {
    next := at;
    if point > numDigits {
      next := PutZeros(point - numDigits, cs, target, next);
    }
  }

  method WriteText(isNegative: bool, point: int, digits: seq<int>, cs: Charset, target: array<int>, ghost d: Decimal)
      returns (next: nat)
    requires d == Decimal(isNegative, point, digits) && Width(cs) * |Print(d)| <= target.Length
    modifies target
    ensures next == Width(cs) * |Print(d)| && target[..next] == BytesOf(Print(d), cs)
    ensures forall k :: next <= k < target.Length ==> target[k] == old(target[k])
  {
    PrintedBytes(d, cs);
    next := PutSign(isNegative, cs, target);
    var decimalPointIndex;
    next, decimalPointIndex := PutLead(point, cs, target, next, d);
    next := PutDigits(digits, decimalPointIndex, cs, target, next);
    ghost var at := next;
    next := PutTrail(decimalPointIndex, |digits|, cs, target, next, d.(pointIndex := decimalPointIndex));
    assert Trail(d.(pointIndex := decimalPointIndex)) == Trail(d);
  }

  // Parsing an OCI number and printing it into a buffer that has to be large enough. The digits go
  // through a local buffer of forty.
  method FromOracleNumberAsText(oracleValue: array<int>, cs: Charset, bytes: array<int>)
      returns (r: Result<nat, FormatError>)
    requires oracleValue.Length >= ORACLE_NUMBER_SIZE && IsBytes(oracleValue[..])
    requires oracleValue != bytes
    modifies bytes
    ensures match Decode(old(oracleValue[..])) {
              case Failure(error) => r == Failure(BadNumber(error))
              case Success(d) =>
                if |d.digits| > MAX_DIGITS then r == Failure(BadNumber(DigitsOverrun)) else
                var text := BytesOf(Print(d), cs);
                if |text| > bytes.Length then r == Failure(BufferTooSmall)
                else r == Success(|text|) && bytes[..|text|] == text
            }
    ensures r.Failure? ==> bytes[..] == old(bytes[..])
    ensures forall k :: 0 <= k < bytes.Length && (r.Success? ==> r.value <= k) ==> bytes[k] == old(bytes[k])
  {
    var buffer := new int[MAX_DIGITS];
    var parsed := ReadNumber(oracleValue, buffer);
    if parsed.Failure? {
      return Failure(BadNumber(parsed.error));
    }
    var Decimal(isNegative, decimalPointIndex, digits) := parsed.value;
    PrintLength(parsed.value);
    var numBytes := |digits|;
    if isNegative {
      numBytes := numBytes + 1;
    }
    if decimalPointIndex <= 0 {
      numBytes := numBytes + -decimalPointIndex + 2;
    } else if decimalPointIndex < |digits| {
      numBytes := numBytes + 1;
    } else if decimalPointIndex > |digits| {
      numBytes := numBytes + decimalPointIndex - |digits|;
    }
    if cs.Utf16? {
      numBytes := numBytes * 2;
    }
    if numBytes > bytes.Length {
      return Failure(BufferTooSmall);
    }
    var written := WriteText(isNegative, decimalPointIndex, digits, cs, bytes, parsed.value);
    return Success(written);
  }
}
