/** Reading the external NUMBER format back into a sign, a point index and digits. */
module OracleNumberParser {
  import opened CArithmetic
  import opened Decimals
  import opened OracleNumber
  import opened Wrappers

  // A write behind the end of the buffer for digits is undefined in C; here it is an error.
  datatype NumberError = InvalidOciNumber | DigitsOverrun

  // ---- what the parser computes ----

  function PairOf(negative: bool, byte: int): (pair: int)
    ensures 0 <= pair < 256
  {
    ToUint8(if negative then 101 - byte else byte - 1)
  }

  function PairsOf(negative: bool, m: seq<int>): (pairs: seq<int>)
    ensures |pairs| == |m|
  {
    if m == [] then [] else [PairOf(negative, m[0])] + PairsOf(negative, m[1..])
  }

  function HighDigits(pair: int, first: bool): seq<int> {
    if pair / 10 == 0 && first then [] else if pair / 10 == 10 then [1, 0] else [pair / 10]
  }

  function LowDigits(pair: int, last: bool): seq<int> {
    if pair % 10 == 0 && last then [] else [pair % 10]
  }

  // The digits of the pairs, without a zero in front of the first pair or behind the last one.
  // A pair of one hundred and more occurs only in corrupt numbers.
  function Expand(pairs: seq<int>, first: bool): (digits: seq<int>)
    ensures |digits| <= 3 * |pairs|
  {
    if pairs == [] then []
    else HighDigits(pairs[0], first) + LowDigits(pairs[0], |pairs| == 1) + Expand(pairs[1..], false)
  }

  function PointShift(pairs: seq<int>, first: bool): int {
    if pairs == [] then 0
    else (if pairs[0] / 10 == 0 && first then -1 else if pairs[0] / 10 == 10 then 1 else 0)
         + PointShift(pairs[1..], false)
  }

  function PointOf(exponentByte: int): int {
    if exponentByte >= 128 then 2 * (exponentByte - 192) else 2 * (63 - exponentByte)
  }

  function DecodeBody(body: seq<int>): Decimal
    requires body != []
  {
    var negative := body[0] < 128;
    if |body| == 1 then
      if negative then Decimal(true, 127, [1]) else Decimal(false, 1, [0])
    else
      var m := if negative then DropSentinel(body[1..]) else body[1..];
      var pairs := PairsOf(negative, m);
      Decimal(negative, PointOf(body[0]) + PointShift(pairs, true), Expand(pairs, true))
  }

  function Decode(s: seq<int>): Result<Decimal, NumberError>
    requires |s| >= ORACLE_NUMBER_SIZE && IsBytes(s)
  {
    if ToUint8(s[0] - 1) > 20 then Failure(InvalidOciNumber) else Success(DecodeBody(s[1..s[0] + 1]))
  }

  // ---- the parser ----

  // One step of the loop: the digits of the next mantissa byte.
  method ReadPair(negative: bool, byte: int, first: bool, last: bool, digits: array<int>, at: nat)
      returns (numDigits: int, pointShift: int, next: nat)
    requires 0 <= byte < 256
    requires at + |HighDigits(PairOf(negative, byte), first) + LowDigits(PairOf(negative, byte), last)| <= digits.Length
    modifies digits
    ensures var added := HighDigits(PairOf(negative, byte), first) + LowDigits(PairOf(negative, byte), last);
            && next == at + |added| && numDigits == |added| - 2
            && digits[..next] == old(digits[..at]) + added
    ensures pointShift == PointShift([PairOf(negative, byte)], first)
  {
    numDigits, pointShift, next := 0, 0, at;
    var pair := ToUint8(if negative then 101 - byte else byte - 1);
    var digit := pair / 10;
    if digit == 0 && first {
      numDigits, pointShift := numDigits - 1, pointShift - 1;
    } else if digit == 10 {
      numDigits, pointShift := numDigits + 1, pointShift + 1;
      digits[next], digits[next + 1] := 1, 0;
      next := next + 2;
    } else {
      digits[next] := digit;
      next := next + 1;
    }
    digit := pair % 10;
    if digit == 0 && last {
      numDigits := numDigits - 1;
    } else {
      digits[next] := digit;
      next := next + 1;
    }
  }

  lemma ExpandStep(pairs: seq<int>, first: bool)
    requires pairs != []
    ensures Expand(pairs, first)
            == (HighDigits(pairs[0], first) + LowDigits(pairs[0], |pairs| == 1)) + Expand(pairs[1..], false)
    ensures PointShift(pairs, first) == PointShift([pairs[0]], first) + PointShift(pairs[1..], false)
  {
    assert [pairs[0]][1..] == [];
  }

  lemma Regroup(a: seq<int>, b: seq<int>, c: seq<int>)
    ensures (a + b) + c == a + (b + c)
  {
  }

  // Bytes that stand for one hundred to 109, which are corrupt, give three digits.
  function Hundreds(pairs: seq<int>): (n: nat)
    ensures n <= |pairs|
  {
    if pairs == [] then 0 else (if pairs[0] / 10 == 10 then 1 else 0) + Hundreds(pairs[1..])
  }

  // How many digits there are: two for each byte, except for the zeros at either end, and one more for
  // each byte that gives three.
  lemma {:induction false} DigitsCounted(pairs: seq<int>, first: bool)
    requires pairs != []
    ensures |Expand(pairs, first)|
            == 2 * |pairs| + Hundreds(pairs) - (if first && pairs[0] / 10 == 0 then 1 else 0)
               - (if pairs[|pairs| - 1] % 10 == 0 then 1 else 0)
  {
    ExpandStep(pairs, first);
    if |pairs| > 1 {
      DigitsCounted(pairs[1..], false);
    } else {
      assert pairs[1..] == [];
    }
  }

  // The digits of a number, corrupt or not, are at most 25.
  lemma {:induction false} ExpandWithin(pairs: seq<int>, first: bool)
    requires Within(pairs, 0, 255)
    ensures Within(Expand(pairs, first), 0, 25)
  {
    if pairs != [] {
      ExpandWithin(pairs[1..], false);
    }
  }

  lemma {:induction false} PairsWithin(negative: bool, m: seq<int>)
    ensures Within(PairsOf(negative, m), 0, 255)
  {
    if m != [] {
      PairsWithin(negative, m[1..]);
    }
  }

  lemma DecodedWithin(s: seq<int>)
    requires |s| >= ORACLE_NUMBER_SIZE && IsBytes(s) && Decode(s).Success?
    ensures Within(Decode(s).value.digits, 0, 25)
  {
    var body := s[1..s[0] + 1];
    if |body| > 1 {
      var m := if body[0] < 128 then DropSentinel(body[1..]) else body[1..];
      PairsWithin(body[0] < 128, m);
      ExpandWithin(PairsOf(body[0] < 128, m), true);
    }
  }

  method ReadMantissa(negative: bool, m: seq<int>, point: int, digits: array<int>)
      returns (ok: bool, numDigits: int, decimalPointIndex: int)
    requires IsBytes(m)
    modifies digits
    ensures var all := Expand(PairsOf(negative, m), true);
            && ok == (|all| <= digits.Length)
            && (ok ==> numDigits == |all| && digits[..|all|] == all)
    ensures ok ==> decimalPointIndex == point + PointShift(PairsOf(negative, m), true)
  {
    ghost var all := Expand(PairsOf(negative, m), true);
    var source, at, i := m, 0, 0;
    numDigits, decimalPointIndex := 2 * |m|, point;
    while i < |m|
      invariant 0 <= i <= |m| && |source| == |m| - i && IsBytes(source)
      invariant 0 <= at <= digits.Length && numDigits == at + 2 * |source|
      invariant digits[..at] + Expand(PairsOf(negative, source), i == 0) == all
      invariant decimalPointIndex + PointShift(PairsOf(negative, source), i == 0)
                == point + PointShift(PairsOf(negative, m), true)
    {
      var pairs := PairsOf(negative, source);
      ExpandStep(pairs, i == 0);
      ghost var added := HighDigits(pairs[0], i == 0) + LowDigits(pairs[0], |pairs| == 1);
      ghost var left := Expand(pairs[1..], false);
      ghost var done := digits[..at];
      if at + |HighDigits(pairs[0], i == 0)| + |LowDigits(pairs[0], i == |m| - 1)| > digits.Length {
        return false, numDigits, decimalPointIndex;
      }
      var count, shift;
      count, shift, at := ReadPair(negative, source[0], i == 0, i == |m| - 1, digits, at);
      Regroup(done, added, left);
      numDigits, decimalPointIndex := numDigits + count, decimalPointIndex + shift;
      source, i := source[1..], i + 1;
    }
    ok := true;
  }

  method ReadExponent(byte: int) returns (isNegative: bool, decimalPointIndex: int)
    requires 0 <= byte < 256
    ensures isNegative == (byte < 128) && decimalPointIndex == PointOf(byte)
  {
    var ociExponent := ToInt8(byte);
    isNegative := ociExponent >= 0;
    if isNegative {
      ociExponent := Complement(ociExponent);
    }
    ociExponent := ToInt8(ociExponent - 193);
    decimalPointIndex := ociExponent * 2 + 2;
  }

  // The mantissa bytes, without the sentinel of a negative number.
  function MantissaOf(s: seq<int>, length: nat): (m: seq<int>)
    requires 0 < length && length + 2 <= |s|
  {
    if s[1] < 128 && s[2 + length - 1] == SENTINEL then s[2..2 + length - 1] else s[2..2 + length]
  }

  lemma DecodeParts(s: seq<int>)
    requires |s| >= ORACLE_NUMBER_SIZE && IsBytes(s) && ToUint8(s[0] - 1) <= 20
    ensures s[0] > 0
    ensures s[0] == 1 ==>
              Decode(s) == Success(if s[1] < 128 then Decimal(true, 127, [1]) else Decimal(false, 1, [0]))
    ensures s[0] > 1 ==>
              var pairs := PairsOf(s[1] < 128, MantissaOf(s, s[0] - 1));
              Decode(s) == Success(Decimal(s[1] < 128, PointOf(s[1]) + PointShift(pairs, true), Expand(pairs, true)))
  {
    var body := s[1..s[0] + 1];
    assert body[1..] == s[2..s[0] + 1];
    if s[0] > 1 {
      assert s[2..s[0]] == body[1..][..s[0] - 2];
    }
  }

  // When the digits of a corrupt number do not fit a buffer of forty.
  lemma OverrunExactly(s: seq<int>)
    requires |s| >= ORACLE_NUMBER_SIZE && IsBytes(s) && Decode(s).Success? && s[0] > 1
    ensures var pairs := PairsOf(s[1] < 128, MantissaOf(s, s[0] - 1));
            |Decode(s).value.digits| > MAX_DIGITS <==>
              pairs != []
              && Hundreds(pairs) > MAX_DIGITS - 2 * |pairs| + (if pairs[0] / 10 == 0 then 1 else 0)
                                   + (if pairs[|pairs| - 1] % 10 == 0 then 1 else 0)
  {
    DecodeParts(s);
    var pairs := PairsOf(s[1] < 128, MantissaOf(s, s[0] - 1));
    if pairs != [] {
      DigitsCounted(pairs, true);
    }
  }

  function Repeated(byte: int, n: nat): (s: seq<int>)
    ensures |s| == n && forall i :: 0 <= i < n ==> s[i] == byte
  {
    if n == 0 then [] else [byte] + Repeated(byte, n - 1)
  }

  lemma {:induction false} AllHundreds(negative: bool, m: seq<int>)
    requires !negative && forall i :: 0 <= i < |m| ==> m[i] == 101
    ensures |PairsOf(negative, m)| == |m| && Hundreds(PairsOf(negative, m)) == |m|
    ensures forall i :: 0 <= i < |m| ==> PairsOf(negative, m)[i] == 100
  {
    if m != [] {
      AllHundreds(negative, m[1..]);
    }
  }

  // It does happen: twenty mantissa bytes that stand for one hundred each.
  lemma HundredsOverrun()
    ensures var s := [21, 193] + Repeated(101, 20);
            && |s| == ORACLE_NUMBER_SIZE && IsBytes(s) && Decode(s).Success?
            && |Decode(s).value.digits| > MAX_DIGITS
  {
    var s := [21, 193] + Repeated(101, 20);
    assert MantissaOf(s, 20) == Repeated(101, 20);
    AllHundreds(false, Repeated(101, 20));
    OverrunExactly(s);
  }

  method ReadNumber(oracleValue: array<int>, digits: array<int>) returns (r: Result<Decimal, NumberError>)
    requires oracleValue.Length >= ORACLE_NUMBER_SIZE && IsBytes(oracleValue[..])
    requires oracleValue != digits && digits.Length >= 1
    modifies digits
    ensures r == match Decode(old(oracleValue[..]))
                 case Failure(error) => Failure(error)
                 case Success(d) => if |d.digits| > digits.Length then Failure(DigitsOverrun) else Success(d)
    ensures r.Success? ==> digits[..|r.value.digits|] == r.value.digits
  {
    ghost var s := oracleValue[..];
    var length := ToUint8(oracleValue[0] - 1);
    if length > 20 {
      return Failure(InvalidOciNumber);
    }
    DecodeParts(s);
    var isNegative, decimalPointIndex := ReadExponent(oracleValue[1]);
    if length == 0 {
      digits[0] := if isNegative then 1 else 0;
      assert digits[..1] == [digits[0]];
      decimalPointIndex := if isNegative then 127 else 1;
      return Success(Decimal(isNegative, decimalPointIndex, digits[..1]));
    }
    if isNegative && oracleValue[2 + length - 1] == SENTINEL {
      length := length - 1;
    }
    var source := oracleValue[2..2 + length];
    assert source == MantissaOf(s, s[0] - 1);
    var ok, numDigits;
    ok, numDigits, decimalPointIndex := ReadMantissa(isNegative, source, decimalPointIndex, digits);
    if !ok {
      return Failure(DigitsOverrun);
    }
    return Success(Decimal(isNegative, decimalPointIndex, digits[..numDigits]));
  }
}
