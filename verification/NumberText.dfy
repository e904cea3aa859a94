/** Numbers as text: the grammar, what a numeral denotes, and the normal form the parser computes. */
module NumberText {
  import opened Decimals
  import opened Wrappers

  const MAX_TEXT_CHARS := 172

  datatype TextError = InvalidNumber | NumberTooLong | ExponentTooLong | NotRepresentable

  // ---- the grammar ----

  datatype Exponent = Exponent(letter: char, sign: string, digits: seq<int>)

  datatype Numeral = Numeral(negative: bool, whole: seq<int>, fraction: Option<seq<int>>, exponent: Option<Exponent>)

  predicate IsDigitChar(c: char) {
    '0' <= c <= '9'
  }

  function DigitOf(c: char): int {
    c as int - '0' as int
  }

  // Beyond the characters of digits, up to 25, are those that corrupt OCI numbers are printed with.
  function DigitChar(d: int): (c: char) {
    if 0 <= d <= 25 then (d + '0' as int) as char else '?'
  }

  function DigitsOf(s: string): (digits: seq<int>)
    ensures |digits| == |s|
  {
    if s == "" then [] else [DigitOf(s[0])] + DigitsOf(s[1..])
  }

  function DigitChars(digits: seq<int>): (s: string)
    ensures |s| == |digits|
  {
    if digits == [] then "" else [DigitChar(digits[0])] + DigitChars(digits[1..])
  }

  function SpellExponent(e: Option<Exponent>): string {
    if e.None? then "" else [e.value.letter] + e.value.sign + DigitChars(e.value.digits)
  }

  function SpellFraction(f: Option<seq<int>>): string {
    if f.None? then "" else "." + DigitChars(f.value)
  }

  // The text of a numeral.
  function Spell(n: Numeral): string {
    (if n.negative then "-" else "")
    + (DigitChars(n.whole) + (SpellFraction(n.fraction) + SpellExponent(n.exponent)))
  }

  predicate IsExponentLetter(c: char) {
    c == 'e' || c == 'E'
  }

  predicate IsSign(s: string) {
    s == "" || s == "+" || s == "-"
  }

  predicate WellFormedExponent(e: Exponent) {
    && IsExponentLetter(e.letter) && IsSign(e.sign)
    && 1 <= |e.digits| <= 3 && IsDigits(e.digits)
  }

  // The numerals the parser accepts. Unlike the comment on the parser says, the digits before and
  // after the decimal point may be missing.
  predicate WellFormed(n: Numeral) {
    && IsDigits(n.whole)
    && (n.fraction.Some? ==> IsDigits(n.fraction.value))
    && (n.exponent.Some? ==> WellFormedExponent(n.exponent.value))
  }

  // ---- what a numeral denotes ----

  function FractionDigits(n: Numeral): seq<int> {
    if n.fraction.Some? then n.fraction.value else []
  }

  function NaturalOf(digits: seq<int>, start: int): int
    decreases digits
  {
    if digits == [] then start else NaturalOf(digits[1..], 10 * start + digits[0])
  }

  function ExponentOf(n: Numeral): int {
    if n.exponent.None? then 0
    else if n.exponent.value.sign == "-" then -NaturalOf(n.exponent.value.digits, 0)
    else NaturalOf(n.exponent.value.digits, 0)
  }

  // All digits in a row are the fraction 0.ddd; the point stands behind the digits before it, and
  // the exponent moves it on.
  ghost function NumeralValue(n: Numeral): real {
    Signed(n.negative, Shift(Fraction(n.whole + FractionDigits(n)), |n.whole| + ExponentOf(n)))
  }

  // ---- the parser's result ----

  function Significant(s: seq<int>): (r: seq<int>)
    ensures |r| <= |s|
  {
    if s != [] && s[0] == 0 then Significant(s[1..]) else s
  }

  function StripTrailing(s: seq<int>): (r: seq<int>)
    ensures |r| <= |s|
  {
    if s != [] && s[|s| - 1] == 0 then StripTrailing(s[..|s| - 1]) else s
  }

  // Leading zeros are dropped with the point index following, trailing zeros without.
  function Normalize(n: Numeral): Decimal {
    var significant := Significant(n.whole + FractionDigits(n));
    Decimal(n.negative, |significant| - |FractionDigits(n)| + ExponentOf(n), StripTrailing(significant))
  }

  function DigitCount(s: string): (n: nat)
    ensures n <= |s|
  {
    if s != "" && IsDigitChar(s[0]) then 1 + DigitCount(s[1..]) else 0
  }

  function ScanExponent(t: string): Result<Option<Exponent>, TextError> {
    if t == "" then Success(None)
    else
      var sign := if |t| > 1 && (t[1] == '+' || t[1] == '-') then [t[1]] else "";
      var u := t[1 + |sign|..];
      var n := DigitCount(u);
      if n > 3 then Failure(ExponentTooLong)
      else if n < |u| || n == 0 then Failure(InvalidNumber)
      else Success(Some(Exponent(t[0], sign, DigitsOf(u))))
  }

  // What follows the digits of the whole part.
  function ScanFraction(t: string): (r: Result<Option<seq<int>>, TextError>)
    ensures r.Success? ==> FractionLength(r.value) <= |t|
  {
    if t == "" || IsExponentLetter(t[0]) then Success(None)
    else if t[0] != '.' then Failure(InvalidNumber)
    else
      var n := DigitCount(t[1..]);
      if n < |t[1..]| && !IsExponentLetter(t[1..][n]) then Failure(InvalidNumber)
      else Success(Some(DigitsOf(t[1..][..n])))
  }

  function FractionLength(f: Option<seq<int>>): nat {
    if f.None? then 0 else 1 + |f.value|
  }

  function ScanTail(negative: bool, whole: seq<int>, t: string): Result<Numeral, TextError> {
    match ScanFraction(t)
    case Failure(error) => Failure(error)
    case Success(f) =>
      match ScanExponent(t[FractionLength(f)..])
      case Failure(error) => Failure(error)
      case Success(e) => Success(Numeral(negative, whole, f, e))
  }

  function ScanUnsigned(negative: bool, s: string): Result<Numeral, TextError> {
    var w := DigitCount(s);
    ScanTail(negative, DigitsOf(s[..w]), s[w..])
  }

  function Scan(text: string): Result<Numeral, TextError> {
    if text != "" && text[0] == '-' then ScanUnsigned(true, text[1..]) else ScanUnsigned(false, text)
  }

  function CheckRange(d: Decimal): Result<Decimal, TextError> {
    if |d.digits| > MAX_DIGITS || d.pointIndex > 126 || d.pointIndex < -129 then Failure(NotRepresentable)
    else Success(d)
  }

  function ParseText(text: string): Result<Decimal, TextError> {
    match Scan(text)
    case Failure(error) => Failure(error)
    case Success(n) => CheckRange(Normalize(n))
  }

  // ---- the accepted texts are exactly the well-formed numerals ----

  lemma {:induction false} DigitCharsInverse(digits: seq<int>)
    requires IsDigits(digits)
    ensures DigitsOf(DigitChars(digits)) == digits
    ensures forall i :: 0 <= i < |digits| ==> IsDigitChar(DigitChars(digits)[i])
  {
    if digits != [] {
      DigitCharsInverse(digits[1..]);
      assert DigitChars(digits)[1..] == DigitChars(digits[1..]);
    }
  }

  lemma {:induction false} DigitCountIs(s: string, n: nat)
    requires n <= |s| && forall i :: 0 <= i < n ==> IsDigitChar(s[i])
    requires n < |s| ==> !IsDigitChar(s[n])
    ensures DigitCount(s) == n
  {
    if n > 0 {
      DigitCountIs(s[1..], n - 1);
    }
  }

  lemma DigitCountSpelled(digits: seq<int>, rest: string)
    requires IsDigits(digits) && (rest != "" ==> !IsDigitChar(rest[0]))
    ensures var s := DigitChars(digits) + rest;
            && DigitCount(s) == |digits|
            && s[..|digits|] == DigitChars(digits) && s[|digits|..] == rest
            && DigitsOf(s[..|digits|]) == digits
  {
    DigitCharsInverse(digits);
    DigitCountIs(DigitChars(digits) + rest, |digits|);
  }

  lemma ScanExponentSpelled(e: Option<Exponent>)
    requires e.Some? ==> WellFormedExponent(e.value)
    ensures ScanExponent(SpellExponent(e)) == Success(e)
  {
    if e.Some? {
      var Exponent(letter, sign, digits) := e.value;
      var t := SpellExponent(e);
      DigitCharsInverse(digits);
      assert sign == "" ==> t[1] == DigitChars(digits)[0];
      var u := t[1 + |sign|..];
      assert u == DigitChars(digits) + "";
      DigitCountSpelled(digits, "");
      assert u[..|digits|] == u;
    }
  }

  lemma ScanFractionSpelled(f: Option<seq<int>>, rest: string)
    requires f.Some? ==> IsDigits(f.value)
    requires rest != "" ==> IsExponentLetter(rest[0])
    ensures var t := SpellFraction(f) + rest;
            ScanFraction(t) == Success(f) && FractionLength(f) <= |t| && t[FractionLength(f)..] == rest
  {
    var t := SpellFraction(f) + rest;
    if f.Some? {
      var u := DigitChars(f.value) + rest;
      assert t == "." + u;
      ScanDecimals(f.value, rest, u);
    } else {
      assert t == rest;
    }
  }

  lemma ScanDecimals(digits: seq<int>, rest: string, u: string)
    requires IsDigits(digits) && (rest != "" ==> IsExponentLetter(rest[0])) && u == DigitChars(digits) + rest
    ensures ScanFraction("." + u) == Success(Some(digits)) && ("." + u)[1 + |digits|..] == rest
  {
    var t := "." + u;
    assert t[1..] == u;
    DigitCountSpelled(digits, rest);
    assert t[1 + |digits|..] == u[|digits|..];
  }

  lemma ScanUnsignedSpelled(n: Numeral)
    requires WellFormed(n)
    ensures ScanUnsigned(n.negative, DigitChars(n.whole) + (SpellFraction(n.fraction) + SpellExponent(n.exponent)))
            == Success(n)
  {
    var tail := SpellFraction(n.fraction) + SpellExponent(n.exponent);
    DigitCountSpelled(n.whole, tail);
    ScanExponentSpelled(n.exponent);
    ScanFractionSpelled(n.fraction, SpellExponent(n.exponent));
  }

  lemma ScanWellFormed(n: Numeral)
    requires WellFormed(n)
    ensures Scan(Spell(n)) == Success(n)
  {
    ScanUnsignedSpelled(n);
    var s := DigitChars(n.whole) + (SpellFraction(n.fraction) + SpellExponent(n.exponent));
    NoMinusAhead(n.whole, SpellFraction(n.fraction) + SpellExponent(n.exponent));
    ScanSigned(n.negative, s);
    assert "" + s == s;
  }

  lemma NoMinusAhead(whole: seq<int>, tail: string)
    requires IsDigits(whole) && (tail == "" || tail[0] != '-')
    ensures var s := DigitChars(whole) + tail; s == "" || s[0] != '-'
  {
    DigitCharsInverse(whole);
    assert whole == [] ==> DigitChars(whole) + tail == tail;
  }

  lemma ScanSigned(negative: bool, s: string)
    requires s == "" || s[0] != '-'
    ensures Scan(if negative then "-" + s else s) == ScanUnsigned(negative, s)
  {
    assert ("-" + s)[1..] == s;
  }

  lemma {:induction false} DigitsOfInverse(s: string)
    requires DigitCount(s) == |s|
    ensures DigitChars(DigitsOf(s)) == s && IsDigits(DigitsOf(s))
  {
    if s != "" {
      DigitsOfInverse(s[1..]);
      assert DigitsOf(s)[1..] == DigitsOf(s[1..]);
    }
  }

  lemma {:induction false} DigitCountPrefix(s: string)
    ensures DigitCount(s[..DigitCount(s)]) == DigitCount(s)
    ensures DigitCount(s) < |s| ==> !IsDigitChar(s[DigitCount(s)])
  {
    if s != "" && IsDigitChar(s[0]) {
      DigitCountPrefix(s[1..]);
      var n := DigitCount(s);
      assert s[..n][1..] == s[1..][..n - 1];
    }
  }

  lemma ScanExponentSound(t: string)
    requires t != "" ==> IsExponentLetter(t[0])
    requires ScanExponent(t).Success?
    ensures var e := ScanExponent(t).value;
            SpellExponent(e) == t && (e.Some? ==> WellFormedExponent(e.value))
  {
    if t != "" {
      var e := ScanExponent(t).value.value;
      var u := t[1 + |e.sign|..];
      DigitsOfInverse(u);
      assert t == [t[0]] + e.sign + u;
    }
  }

  lemma ScanFractionSound(t: string)
    requires ScanFraction(t).Success?
    ensures var f := ScanFraction(t).value;
            && (f.Some? ==> IsDigits(f.value))
            && t == SpellFraction(f) + t[FractionLength(f)..]
            && (FractionLength(f) < |t| ==> IsExponentLetter(t[FractionLength(f)]))
  {
    var f := ScanFraction(t).value;
    if f.Some? {
      var u := t[1..];
      var n := DigitCount(u);
      DigitCountPrefix(u);
      DigitsOfInverse(u[..n]);
      PointAhead(t, n);
    } else {
      assert t == "" + t[0..];
    }
  }

  lemma PointAhead(t: string, n: nat)
    requires n < |t| && t[0] == '.'
    ensures t == ("." + t[1..][..n]) + t[1 + n..] && t[1 + n..] == t[1..][n..]
  {
  }

  lemma ScanTailSound(negative: bool, whole: seq<int>, t: string)
    requires ScanTail(negative, whole, t).Success?
    ensures var n := ScanTail(negative, whole, t).value;
            && n.negative == negative && n.whole == whole
            && (n.fraction.Some? ==> IsDigits(n.fraction.value))
            && (n.exponent.Some? ==> WellFormedExponent(n.exponent.value))
            && SpellFraction(n.fraction) + SpellExponent(n.exponent) == t
  {
    ScanFractionSound(t);
    ScanExponentSound(t[FractionLength(ScanFraction(t).value)..]);
  }

  lemma ScanUnsignedSound(negative: bool, s: string)
    requires ScanUnsigned(negative, s).Success?
    ensures var n := ScanUnsigned(negative, s).value;
            && WellFormed(n) && n.negative == negative
            && DigitChars(n.whole) + (SpellFraction(n.fraction) + SpellExponent(n.exponent)) == s
  {
    var w := DigitCount(s);
    DigitCountPrefix(s);
    DigitsOfInverse(s[..w]);
    ScanTailSound(negative, DigitsOf(s[..w]), s[w..]);
    Halves(s, w);
  }

  lemma ScanIsWellFormed(text: string)
    requires Scan(text).Success?
    ensures WellFormed(Scan(text).value) && Spell(Scan(text).value) == text
  {
    if text != "" && text[0] == '-' {
      ScanUnsignedSound(true, text[1..]);
      assert text == "-" + text[1..];
    } else {
      ScanUnsignedSound(false, text);
      assert "" + text == text;
    }
  }

  // Every numeral made of digits, an optional fraction and an optional exponent of one to three
  // digits is accepted as spelled, ...
  lemma ScanSpelled(n: Numeral)
    requires IsDigits(n.whole) && (n.fraction.Some? ==> IsDigits(n.fraction.value))
    requires n.exponent.Some? ==>
               && IsExponentLetter(n.exponent.value.letter) && IsSign(n.exponent.value.sign)
               && 1 <= |n.exponent.value.digits| <= 3 && IsDigits(n.exponent.value.digits)
    ensures Scan(Spell(n)) == Success(n)
  {
    ScanWellFormed(n);
  }

  // ... and no other text is.
  lemma ScanSound(text: string)
    requires Scan(text).Success?
    ensures Spell(Scan(text).value) == text
    ensures var n := Scan(text).value;
            && IsDigits(n.whole) && (n.fraction.Some? ==> IsDigits(n.fraction.value))
            && (n.exponent.Some? ==>
                  && IsExponentLetter(n.exponent.value.letter) && IsSign(n.exponent.value.sign)
                  && 1 <= |n.exponent.value.digits| <= 3 && IsDigits(n.exponent.value.digits))
  {
    ScanIsWellFormed(text);
  }

  // ---- normal form ----

  lemma {:induction false} SignificantZeros(s: seq<int>)
    ensures s == Zeros(|s| - |Significant(s)|) + Significant(s)
    ensures Significant(s) != [] ==> Significant(s)[0] != 0
    ensures IsDigits(s) ==> IsDigits(Significant(s))
  {
    if s != [] && s[0] == 0 {
      SignificantZeros(s[1..]);
      var k := |s| - |Significant(s)|;
      assert Zeros(k) == [0] + Zeros(k - 1);
      assert s == [0] + s[1..];
    } else {
      assert Zeros(0) + s == s;
    }
  }

  lemma {:induction false} StripTrailingZeros(s: seq<int>)
    ensures s == StripTrailing(s) + Zeros(|s| - |StripTrailing(s)|)
    ensures var r := StripTrailing(s);
            && (r != [] ==> r[|r| - 1] != 0)
            && (s != [] && s[0] != 0 ==> r != [] && r[0] == s[0])
            && (IsDigits(s) ==> IsDigits(r))
  {
    if s != [] && s[|s| - 1] == 0 {
      StripTrailingZeros(s[..|s| - 1]);
      var k := |s| - |StripTrailing(s)|;
      assert Zeros(k) == Zeros(k - 1) + [0];
      assert s == s[..|s| - 1] + [0];
    } else {
      assert s + Zeros(0) == s;
    }
  }

  // The normal form has no zeros at its ends and the same value as the numeral.
  lemma NormalizeValue(n: Numeral)
    requires WellFormed(n)
    ensures Value(Normalize(n)) == NumeralValue(n)
    ensures IsDigits(Normalize(n).digits) && Trimmed(Normalize(n).digits)
  {
    var all := n.whole + FractionDigits(n);
    NormalDigits(all);
    var e := |n.whole| + ExponentOf(n);
    SameFraction(all, e);
    assert e - (|all| - |Significant(all)|) == Normalize(n).pointIndex;
  }

  lemma NormalDigits(all: seq<int>)
    requires IsDigits(all)
    ensures var r := StripTrailing(Significant(all)); IsDigits(r) && Trimmed(r)
  {
    SignificantZeros(all);
    StripTrailingZeros(Significant(all));
  }

  // Zeros in front count, zeros behind do not.
  lemma SameFraction(all: seq<int>, e: int)
    ensures var significant := Significant(all);
            Shift(Fraction(all), e) == Shift(Fraction(StripTrailing(significant)), e - (|all| - |significant|))
  {
    var significant := Significant(all);
    var r := StripTrailing(significant);
    SignificantZeros(all);
    StripTrailingZeros(significant);
    LeadingZeros(|all| - |significant|, significant, e);
    TrailingZeros(r, |significant| - |r|);
  }

  // ---- the meaning of a numeral, without the functions the parser uses ----

  // Reading digits one by one, each moving those before it up by one place.
  lemma {:induction false} NaturalIsFraction(digits: seq<int>, start: int)
    ensures NaturalOf(digits, start) as real == Shift(start as real + Fraction(digits), |digits|)
  {
    if digits != [] {
      var next := 10 * start + digits[0];
      NaturalIsFraction(digits[1..], next);
      ShiftTenth(next as real + Fraction(digits[1..]), |digits| - 1);
      assert (next as real + Fraction(digits[1..])) / 10.0 == start as real + Fraction(digits);
    }
  }

  lemma {:induction false} ShiftSigned(negative: bool, x: real, e: int)
    ensures Shift(Signed(negative, x), e) == Signed(negative, Shift(x, e))
    decreases if e < 0 then -e else e
  {
    if e > 0 {
      ShiftSigned(negative, x, e - 1);
    } else if e < 0 {
      ShiftSigned(negative, x, e + 1);
    }
  }

  // The digits before the point are a whole number, those behind it a fraction, and the digits of
  // the exponent are the number of places by which it moves the point: to the left behind a minus
  // sign, otherwise to the right.
  lemma NumeralMeans(n: Numeral) returns (whole: int, places: int)
    ensures whole as real == Shift(Fraction(n.whole), |n.whole|)
    ensures n.exponent.None? ==> places == 0
    ensures n.exponent.Some? ==> places as real == Shift(Fraction(n.exponent.value.digits), |n.exponent.value.digits|)
    ensures var magnitude := whole as real + if n.fraction.Some? then Fraction(n.fraction.value) else 0.0;
            NumeralValue(n)
            == Shift(if n.negative then -magnitude else magnitude,
                     if n.exponent.Some? && n.exponent.value.sign == "-" then -places else places)
  {
    whole, places := NaturalOf(n.whole, 0), 0;
    NaturalIsFraction(n.whole, 0);
    if n.exponent.Some? {
      places := NaturalOf(n.exponent.value.digits, 0);
      NaturalIsFraction(n.exponent.value.digits, 0);
    }
    var e, w, f := ExponentOf(n), Fraction(n.whole), Fraction(FractionDigits(n));
    FractionConcat(n.whole, FractionDigits(n));
    ShiftSum(w, Shift(f, -|n.whole|), |n.whole|);
    ShiftCompose(f, -|n.whole|, |n.whole|);
    ShiftCompose(w + Shift(f, -|n.whole|), |n.whole|, e);
    ShiftSigned(n.negative, whole as real + f, e);
  }

  // The exponent moves the point of the numeral without it.
  lemma ExponentMoves(n: Numeral, m: Numeral) returns (places: int)
    requires n.exponent.Some? && m == n.(exponent := None)
    ensures places as real == Shift(Fraction(n.exponent.value.digits), |n.exponent.value.digits|)
    ensures NumeralValue(n) == Shift(NumeralValue(m), if n.exponent.value.sign == "-" then -places else places)
  {
    var whole, none;
    whole, places := NumeralMeans(n);
    whole, none := NumeralMeans(m);
  }

  // Each digit is its character; the letters and signs of exponents are these.
  lemma Characters(d: int, c: char)
    requires 0 <= d <= 9
    ensures DigitChar(d) == "0123456789"[d] && DigitOf("0123456789"[d]) == d
    ensures IsDigitChar(c) <==> c in "0123456789"
    ensures IsExponentLetter(c) <==> c in "eE"
    ensures IsSign([c]) <==> c in "+-"
    ensures IsSign("")
  {
    if IsDigitChar(c) {
      assert "0123456789"[DigitOf(c)] == c;
    }
    assert "eE"[0] == 'e' && "eE"[1] == 'E';
    assert "+-"[0] == '+' && "+-"[1] == '-';
    assert [c] == "+" <==> c == '+';
    assert [c] == "-" <==> c == '-';
  }

  // The point of a zero stands where its digits end, moved on by the exponent.
  lemma ZeroPoint(n: Numeral, places: int)
    requires WellFormed(n) && NumeralValue(n) == 0.0
    requires n.exponent.None? ==> places == 0
    requires n.exponent.Some? ==> places as real == Shift(Fraction(n.exponent.value.digits), |n.exponent.value.digits|)
    ensures Normalize(n).digits == []
    ensures Normalize(n).pointIndex == (if n.exponent.Some? && n.exponent.value.sign == "-" then -places else places)
                                       - if n.fraction.Some? then |n.fraction.value| else 0
  {
    var all := n.whole + FractionDigits(n);
    NormalizeValue(n);
    SignificantZeros(all);
    StripTrailingZeros(Significant(all));
    if n.exponent.Some? {
      NaturalIsFraction(n.exponent.value.digits, 0);
    }
    if Normalize(n).digits != [] {
      NonzeroValue(Normalize(n));
    }
  }

  lemma NonzeroValue(d: Decimal)
    requires IsDigits(d.digits) && Trimmed(d.digits) && d.digits != []
    ensures Value(d) != 0.0
  {
    FractionBounds(d.digits[1..]);
    ShiftIncreasing(0.0, Fraction(d.digits), d.pointIndex);
    ShiftZero(d.pointIndex);
  }

  // ---- the parser ----

  // The parser accepts exactly the spellings of well-formed numerals whose normal form has at most
  // 40 digits and a point index in range, and returns that normal form, which denotes the same
  // number.
  lemma ParseTextCorrect(text: string, d: Decimal)
    ensures ParseText(text) == Success(d) <==>
            exists n :: WellFormed(n) && Spell(n) == text && d == Normalize(n)
                        && |d.digits| <= 40 && -129 <= d.pointIndex <= 126
    ensures ParseText(text) == Success(d) ==>
              Normal(d) && exists n :: WellFormed(n) && Spell(n) == text && Value(d) == NumeralValue(n)
  {
    if ParseText(text) == Success(d) {
      ScanIsWellFormed(text);
      NormalizeValue(Scan(text).value);
    }
    forall n | WellFormed(n) && Spell(n) == text && d == Normalize(n) && |d.digits| <= 40 && -129 <= d.pointIndex <= 126
      ensures ParseText(text) == Success(d)
    {
      ScanWellFormed(n);
    }
  }

  // ---- rejected texts ----

  lemma DigitsAhead(digits: seq<int>, rest: string)
    requires IsDigits(digits)
    ensures DigitCount(DigitChars(digits) + rest) >= |digits|
  {
    if digits != [] {
      DigitsAhead(digits[1..], rest);
      assert (DigitChars(digits) + rest)[1..] == DigitChars(digits[1..]) + rest;
    }
  }

  // A numeral followed by four digits of an exponent is not supported, whatever stands behind them.
  lemma LongExponentRejected(n: Numeral, e: Exponent, rest: string)
    requires WellFormed(n) && n.exponent.None?
    requires IsExponentLetter(e.letter) && IsSign(e.sign) && |e.digits| == 4 && IsDigits(e.digits)
    ensures ParseText(Spell(n) + (SpellExponent(Some(e)) + rest)) == Failure(ExponentTooLong)
  {
    var t := SpellExponent(Some(e)) + rest;
    LongExponentScanned(e, rest);
    var tail := SpellFraction(n.fraction) + t;
    assert t[0] == e.letter;
    DigitCountSpelled(n.whole, tail);
    LongTail(n, e, rest);
    SpellThen(n, t);
    NoMinusAhead(n.whole, tail);
    ScanSigned(n.negative, DigitChars(n.whole) + tail);
  }

  lemma LongTail(n: Numeral, e: Exponent, rest: string)
    requires n.fraction.Some? ==> IsDigits(n.fraction.value)
    requires IsExponentLetter(e.letter)
    requires ScanExponent(SpellExponent(Some(e)) + rest) == Failure(ExponentTooLong)
    ensures ScanTail(n.negative, n.whole, SpellFraction(n.fraction) + (SpellExponent(Some(e)) + rest))
            == Failure(ExponentTooLong)
  {
    ScanFractionSpelled(n.fraction, SpellExponent(Some(e)) + rest);
  }

  lemma SpellThen(n: Numeral, t: string)
    requires n.exponent.None?
    ensures var s := DigitChars(n.whole) + (SpellFraction(n.fraction) + t);
            Spell(n) + t == if n.negative then "-" + s else s
  {
    assert SpellFraction(n.fraction) + "" == SpellFraction(n.fraction);
  }

  lemma LongExponentScanned(e: Exponent, rest: string)
    requires IsSign(e.sign) && |e.digits| == 4 && IsDigits(e.digits)
    ensures ScanExponent(SpellExponent(Some(e)) + rest) == Failure(ExponentTooLong)
  {
    var t := SpellExponent(Some(e)) + rest;
    DigitCharsInverse(e.digits);
    assert e.sign == "" ==> t[1] == DigitChars(e.digits)[0];
    var u := t[1 + |e.sign|..];
    assert u == DigitChars(e.digits) + rest;
    DigitsAhead(e.digits, rest);
  }

  // No other texts are rejected for their exponent.
  lemma LongExponentOnly(text: string) returns (n: Numeral, e: Exponent, rest: string)
    requires ParseText(text) == Failure(ExponentTooLong)
    ensures WellFormed(n) && n.exponent.None?
    ensures IsExponentLetter(e.letter) && IsSign(e.sign) && |e.digits| == 4 && IsDigits(e.digits)
    ensures text == Spell(n) + (SpellExponent(Some(e)) + rest)
  {
    var negative := text != "" && text[0] == '-';
    var s := if negative then text[1..] else text;
    n, e, rest := LongExponentUnsigned(negative, s);
    SpellThen(n, SpellExponent(Some(e)) + rest);
    assert negative ==> text == "-" + s;
  }

  lemma LongExponentUnsigned(negative: bool, s: string) returns (n: Numeral, e: Exponent, rest: string)
    requires ScanUnsigned(negative, s) == Failure(ExponentTooLong)
    ensures WellFormed(n) && n.exponent.None? && n.negative == negative
    ensures IsExponentLetter(e.letter) && IsSign(e.sign) && |e.digits| == 4 && IsDigits(e.digits)
    ensures s == DigitChars(n.whole) + (SpellFraction(n.fraction) + (SpellExponent(Some(e)) + rest))
  {
    var w := DigitCount(s);
    DigitCountPrefix(s);
    DigitsOfInverse(s[..w]);
    var f;
    f, e, rest := LongExponentTail(s[w..]);
    n := Numeral(negative, DigitsOf(s[..w]), f, None);
    Halves(s, w);
  }

  lemma Halves(s: string, w: nat)
    requires w <= |s|
    ensures s == s[..w] + s[w..]
  {
  }

  lemma LongExponentTail(t: string) returns (f: Option<seq<int>>, e: Exponent, rest: string)
    requires ScanTail(false, [], t) == Failure(ExponentTooLong)
    ensures f.Some? ==> IsDigits(f.value)
    ensures IsExponentLetter(e.letter) && IsSign(e.sign) && |e.digits| == 4 && IsDigits(e.digits)
    ensures t == SpellFraction(f) + (SpellExponent(Some(e)) + rest)
  {
    f := ScanFraction(t).value;
    ScanFractionSound(t);
    e, rest := LongExponentFound(t[FractionLength(f)..]);
  }

  lemma LongExponentFound(t: string) returns (e: Exponent, rest: string)
    requires t != "" ==> IsExponentLetter(t[0])
    requires ScanExponent(t) == Failure(ExponentTooLong)
    ensures IsExponentLetter(e.letter) && IsSign(e.sign) && |e.digits| == 4 && IsDigits(e.digits)
    ensures t == SpellExponent(Some(e)) + rest
  {
    var sign := if |t| > 1 && (t[1] == '+' || t[1] == '-') then [t[1]] else "";
    var u := t[1 + |sign|..];
    DigitCountPrefix(u);
    DigitsAtFront(u, 4);
    DigitsOfInverse(u[..4]);
    e, rest := Exponent(t[0], sign, DigitsOf(u[..4])), u[4..];
    InParts(t, sign, 4);
  }

  lemma InParts(t: string, sign: string, n: nat)
    requires |sign| < |t| && t[1..1 + |sign|] == sign && n <= |t[1 + |sign|..]|
    ensures t == [t[0]] + sign + t[1 + |sign|..][..n] + t[1 + |sign|..][n..]
  {
  }

  lemma {:induction false} DigitsAtFront(s: string, k: nat)
    requires k <= DigitCount(s)
    ensures DigitCount(s[..k]) == k
  {
    if k > 0 {
      DigitsAtFront(s[1..], k - 1);
      assert s[..k][1..] == s[1..][..k - 1];
    }
  }

  // A number is called not representable exactly when the text is a numeral whose normal form is
  // out of range. The length of the text is checked before.
  lemma RejectedText(text: string, n: Numeral)
    requires WellFormed(n) && Spell(n) == text
    ensures ParseText(text) == Failure(NotRepresentable) <==>
            !(|Normalize(n).digits| <= 40 && -129 <= Normalize(n).pointIndex <= 126)
  {
    ScanWellFormed(n);
  }

  lemma RejectedNumeral(text: string) returns (n: Numeral)
    requires ParseText(text) == Failure(NotRepresentable)
    ensures WellFormed(n) && Spell(n) == text
  {
    ScanErrors(text);
    ScanIsWellFormed(text);
    n := Scan(text).value;
  }

  lemma TailErrors(negative: bool, whole: seq<int>, t: string)
    ensures var r := ScanTail(negative, whole, t); r.Failure? ==> r.error.InvalidNumber? || r.error.ExponentTooLong?
  {
  }

  lemma ScanErrors(text: string)
    ensures var r := Scan(text); r.Failure? ==> r.error.InvalidNumber? || r.error.ExponentTooLong?
  {
    var s := if text != "" && text[0] == '-' then text[1..] else text;
    TailErrors(true, DigitsOf(s[..DigitCount(s)]), s[DigitCount(s)..]);
    TailErrors(false, DigitsOf(s[..DigitCount(s)]), s[DigitCount(s)..]);
  }
}
