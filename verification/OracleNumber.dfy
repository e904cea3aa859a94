/** The external NUMBER format: a length byte, an exponent byte and base-100 mantissa bytes. */
module OracleNumber {
  import opened CArithmetic
  import opened Decimals

  const ORACLE_NUMBER_SIZE := 22
  const SENTINEL := 102

  predicate IsBytes(s: seq<int>) {
    forall i :: 0 <= i < |s| ==> 0 <= s[i] < 256
  }

  // ---- what an encoded number means ----

  function MinusOne(s: seq<int>): (r: seq<int>)
    ensures |r| == |s|
  {
    if s == [] then [] else [s[0] - 1] + MinusOne(s[1..])
  }

  function PlusOne(s: seq<int>): (r: seq<int>)
    ensures |r| == |s|
  {
    if s == [] then [] else [s[0] + 1] + PlusOne(s[1..])
  }

  function From101(s: seq<int>): (r: seq<int>)
    ensures |r| == |s|
  {
    if s == [] then [] else [101 - s[0]] + From101(s[1..])
  }

  function DropSentinel(s: seq<int>): (r: seq<int>)
    ensures |r| <= |s|
  {
    if s != [] && s[|s| - 1] == SENTINEL then s[..|s| - 1] else s
  }

  // Byte order is numeric order in this format. A positive number has the high bit of its
  // exponent byte set, and the first mantissa digit weighs one hundred to the power
  // (exponent byte - 193); a negative number has its exponent complemented, its mantissa
  // digits subtracted from 101 and, unless the mantissa is full, 102 at the end.
  ghost function BytesValue(s: seq<int>): real
    requires s != []
  {
    if s == [128] then 0.0
    else if s[0] >= 128 then Shift(Fraction100(MinusOne(s[1..])), 2 * (s[0] - 192))
    else -Shift(Fraction100(From101(DropSentinel(s[1..]))), 2 * (63 - s[0]))
  }

  // ---- encoding ----

  predicate OddPoint(d: Decimal) {
    d.pointIndex % 2 == 1
  }

  // The digits with a zero in front when the point index is odd, and one behind when that
  // leaves an odd number of them.
  function PaddedDigits(d: Decimal): (s: seq<int>)
    ensures |s| % 2 == 0
  {
    var front := if OddPoint(d) then [0] + d.digits else d.digits;
    if |front| % 2 == 1 then front + [0] else front
  }

  function PaddedPoint(d: Decimal): (p: int)
    ensures p % 2 == 0
  {
    if OddPoint(d) then d.pointIndex + 1 else d.pointIndex
  }

  // The base-100 digits; an odd digit at the end is left over.
  function Pairs(s: seq<int>): (r: seq<int>)
    ensures |r| == |s| / 2
  {
    if |s| < 2 then [] else [10 * s[0] + s[1]] + Pairs(s[2..])
  }

  function Tail(n: nat): seq<int> {
    if n < MAX_DIGITS / 2 then [SENTINEL] else []
  }

  function ExponentByte(d: Decimal): int {
    if d.negative then 63 - PaddedPoint(d) / 2 else PaddedPoint(d) / 2 + 192
  }

  function MantissaByte(negative: bool, pair: int): int {
    if negative then 101 - pair else pair + 1
  }

  function Mantissa(negative: bool, pairs: seq<int>): (m: seq<int>)
    ensures |m| == |pairs|
  {
    if pairs == [] then [] else [MantissaByte(negative, pairs[0])] + Mantissa(negative, pairs[1..])
  }

  // The exponent byte and the mantissa: everything but the length byte.
  function Body(d: Decimal): (s: seq<int>)
    ensures s != []
  {
    if d.digits == [] then [128]
    else
      var m := Mantissa(d.negative, Pairs(PaddedDigits(d)));
      [ExponentByte(d)] + m + if d.negative then Tail(|m|) else []
  }

  function Encode(d: Decimal): (s: seq<int>)
    ensures |s| >= 2
  {
    [|Body(d)|] + Body(d)
  }

  // Whether the padded digits are at most forty. The parser checks the digits before they are
  // padded, so one family escapes it.
  predicate Fits(d: Decimal) {
    !(|d.digits| == MAX_DIGITS && OddPoint(d))
  }

  // The 22 bytes of an OCI number suffice for every decimal except those with forty digits and
  // an odd point index, which take 23.
  lemma EncodedSize(d: Decimal)
    requires Normal(d)
    ensures |Encode(d)| <= ORACLE_NUMBER_SIZE <==> Fits(d)
    ensures |Encode(d)| <= ORACLE_NUMBER_SIZE + 1
  {
    if d.digits != [] {
      var n := |Pairs(PaddedDigits(d))|;
      assert |Body(d)| == 1 + n + if d.negative && n < MAX_DIGITS / 2 then 1 else 0;
    }
  }

  predicate Within(s: seq<int>, low: int, high: int) {
    forall i :: 0 <= i < |s| ==> low <= s[i] <= high
  }

  lemma {:induction false} PairBounds(s: seq<int>)
    requires IsDigits(s)
    ensures Within(Pairs(s), 0, 99)
  {
    if |s| >= 2 {
      PairBounds(s[2..]);
    }
  }

  lemma {:induction false} MantissaBounds(negative: bool, pairs: seq<int>)
    requires Within(pairs, 0, 99)
    ensures if negative then Within(Mantissa(negative, pairs), 2, 101) else Within(Mantissa(negative, pairs), 1, 100)
  {
    if pairs != [] {
      MantissaBounds(negative, pairs[1..]);
    }
  }

  // Every encoded number is a byte sequence that starts with the length of the rest, with the
  // high bit of the exponent byte telling the sign.
  lemma EncodeIsBytes(d: Decimal)
    requires Normal(d)
    ensures IsBytes(Encode(d))
    ensures Encode(d)[0] == |Encode(d)| - 1
    ensures Encode(d)[1] >= 128 <==> d.digits == [] || !d.negative
  {
    var pairs := Pairs(PaddedDigits(d));
    PairBounds(PaddedDigits(d));
    MantissaBounds(d.negative, pairs);
    assert -128 <= PaddedPoint(d) <= 126;
    assert 0 <= ExponentByte(d) < 256;
    assert IsBytes(Mantissa(d.negative, pairs));
  }

  // One step of the mantissa loop: the pair that starts the number has one digit when a zero
  // belongs in front of it.
  method PackPair(single: bool, isNegative: bool, source: seq<int>) returns (byte: int, rest: seq<int>)
    requires |source| >= 2 && IsDigits(source)
    ensures rest == source[if single then 1 else 2..]
    ensures byte == MantissaByte(isNegative, if single then source[0] else 10 * source[0] + source[1])
  {
    rest := source;
    if single {
      byte, rest := rest[0], rest[1..];
    } else {
      byte, rest := ToUint8(rest[0] * 10), rest[1..];
      byte, rest := ToUint8(byte + rest[0]), rest[1..];
    }
    byte := ToUint8(if isNegative then 101 - byte else byte + 1);
  }

  // What the mantissa loop writes: when a zero belongs in front of the digits it is not stored
  // there, and the first pair is read as a single digit.
  function StoredPairs(prependZero: bool, digits: seq<int>): (r: seq<int>)
    ensures |digits| % 2 == 0 ==> |r| == |digits| / 2
  {
    if prependZero && digits != [] then [digits[0]] + Pairs(digits[1..]) else Pairs(digits)
  }

  lemma {:induction false} PairsLeftover(s: seq<int>, x: int)
    requires |s| % 2 == 0
    ensures Pairs(s + [x]) == Pairs(s)
  {
    if |s| >= 2 {
      PairsLeftover(s[2..], x);
      assert (s + [x])[2..] == s[2..] + [x];
    }
  }

  lemma StoredPairsPadded(prependZero: bool, digits: seq<int>, padded: seq<int>)
    requires padded != [] && |padded| % 2 == 0
    requires prependZero ==> padded[0] == 0
    requires digits == if prependZero then padded[1..] + [0] else padded
    ensures StoredPairs(prependZero, digits) == Pairs(padded)
  {
    if prependZero {
      assert digits[1..] == padded[2..] + [0];
      PairsLeftover(padded[2..], 0);
    }
  }

  lemma FirstPair(single: bool, source: seq<int>)
    requires |source| >= 2
    ensures var s := StoredPairs(single, source);
            && s != [] && s[0] == (if single then source[0] else 10 * source[0] + source[1])
            && s[1..] == StoredPairs(false, source[if single then 1 else 2..])
  {
  }

  // One more byte of the mantissa.
  lemma MoveOne(done: seq<int>, negative: bool, left: seq<int>)
    requires left != []
    ensures (done + [MantissaByte(negative, left[0])]) + Mantissa(negative, left[1..]) == done + Mantissa(negative, left)
  {
  }

  // The mantissa loop; source is what is left to be read.
  method WriteMantissa(isNegative: bool, prependZero: bool, digits: seq<int>, target: array<int>)
    requires digits != [] && |digits| % 2 == 0 && IsDigits(digits)
    requires target.Length >= |digits| / 2 + 2
    modifies target
    ensures var m := Mantissa(isNegative, StoredPairs(prependZero, digits));
            target[..2 + |m|] == old(target[..2]) + m
    ensures forall k :: 2 + |digits| / 2 <= k < target.Length ==> target[k] == old(target[k])
  {
    ghost var left, done := StoredPairs(prependZero, digits), target[..2];
    ghost var all := done + Mantissa(isNegative, left);
    var numPairs, source, i := |digits| / 2, digits, 0;
    while i < numPairs
      invariant 0 <= i <= numPairs && |left| == numPairs - i && |done| == 2 + i
      invariant IsDigits(source) && (i < numPairs ==> |source| >= 2)
      invariant left == StoredPairs(prependZero && i == 0, source) && (i > 0 ==> |left| == |source| / 2)
      invariant target[..2 + i] == done && done + Mantissa(isNegative, left) == all
      invariant forall k :: 2 + numPairs <= k < target.Length ==> target[k] == old(target[k])
    {
      FirstPair(i == 0 && prependZero, source);
      MoveOne(done, isNegative, left);
      var byte;
      byte, source := PackPair(i == 0 && prependZero, isNegative, source);
      target[2 + i] := byte;
      left, done, i := left[1..], done + [byte], i + 1;
    }
  }

  // The padding step: both zeros go behind the digits.
  method PadDigits(ghost d: Decimal, point: int, count: nat, digits: array<int>)
      returns (prependZero: bool, decimalPointIndex: int, numDigits: nat)
    requires count + 2 <= digits.Length
    requires Normal(d) && d.pointIndex == point && digits[..count] == d.digits
    modifies digits
    ensures prependZero == OddPoint(d)
    ensures count == 0 ==> numDigits == 0
    ensures count > 0 ==> decimalPointIndex == PaddedPoint(d) && 2 <= numDigits == |PaddedDigits(d)| <= digits.Length
    ensures count > 0 ==> digits[..numDigits] == if prependZero then PaddedDigits(d)[1..] + [0] else PaddedDigits(d)
    ensures count > 0 ==> IsDigits(digits[..numDigits])
  {
    decimalPointIndex, numDigits := point, count;
    prependZero := (decimalPointIndex > 0 && Remainder(decimalPointIndex, 2) == 1)
                || (decimalPointIndex < 0 && Remainder(decimalPointIndex, 2) == -1);
    if prependZero && numDigits != 0 {
      digits[numDigits] := 0;
      numDigits := numDigits + 1;
      decimalPointIndex := decimalPointIndex + 1;
    }
    if numDigits % 2 == 1 {
      digits[numDigits] := 0;
      numDigits := numDigits + 1;
    }
  }

  lemma HeaderByte(point: int)
    requires -128 <= point <= 126 && point % 2 == 0
    ensures var e := ToInt8(Quotient(point - 2, 2) + 193);
            -128 <= e < 128 && ToUint8(e) == point / 2 + 192 && ToUint8(Complement(e)) == 63 - point / 2
  {
    assert Quotient(point - 2, 2) == point / 2 - 1;
  }

  // The length and exponent bytes of a number that is not zero.
  method WriteHeader(isNegative: bool, decimalPointIndex: int, numPairs: nat, appendSentinel: bool, target: array<int>)
    requires target.Length >= 2 && numPairs <= 21
    requires -128 <= decimalPointIndex <= 126 && decimalPointIndex % 2 == 0
    modifies target
    ensures target[0] == numPairs + 1 + if appendSentinel then 1 else 0
    ensures target[1] == if isNegative then 63 - decimalPointIndex / 2 else decimalPointIndex / 2 + 192
    ensures target[2..] == old(target[2..])
  {
    target[0] := ToUint8(numPairs + 1 + if appendSentinel then 1 else 0);
    HeaderByte(decimalPointIndex);
    var ociExponent := ToInt8(Quotient(decimalPointIndex - 2, 2) + 193);
    if isNegative {
      ociExponent := Complement(ociExponent);
    }
    target[1] := ToUint8(ociExponent);
  }

  // e is the encoding of the padded digits as the padding step leaves them in the buffer.
  predicate EncodedFrom(e: seq<int>, isNegative: bool, prependZero: bool, decimalPointIndex: int, digits: seq<int>) {
    var tail := if isNegative then Tail(|digits| / 2) else [];
    var exponent := if isNegative then 63 - decimalPointIndex / 2 else decimalPointIndex / 2 + 192;
    && digits != [] && |digits| % 2 == 0 && |digits| <= 42 && IsDigits(digits)
    && -128 <= decimalPointIndex <= 126 && decimalPointIndex % 2 == 0
    && e == [|digits| / 2 + 1 + |tail|, exponent] + Mantissa(isNegative, StoredPairs(prependZero, digits)) + tail
  }

  // The numbers that the padded digits and point are made of.
  lemma PaddedBounds(d: Decimal)
    requires Normal(d) && d.digits != []
    ensures PaddedDigits(d) != [] && |PaddedDigits(d)| <= 42 && IsDigits(PaddedDigits(d))
    ensures -128 <= PaddedPoint(d) <= 126
    ensures OddPoint(d) ==> PaddedDigits(d)[0] == 0
  {
  }

  lemma PaddedShifted(padded: seq<int>, odd: bool, digits: seq<int>)
    requires padded != [] && IsDigits(padded) && digits == if odd then padded[1..] + [0] else padded
    ensures |digits| == |padded| && IsDigits(digits)
  {
  }

  lemma EncodeNonzero(d: Decimal, digits: seq<int>)
    requires Normal(d) && d.digits != []
    requires digits == if OddPoint(d) then PaddedDigits(d)[1..] + [0] else PaddedDigits(d)
    ensures EncodedFrom(Encode(d), d.negative, OddPoint(d), PaddedPoint(d), digits)
  {
    var padded := PaddedDigits(d);
    PaddedBounds(d);
    PaddedShifted(padded, OddPoint(d), digits);
    StoredPairsPadded(OddPoint(d), digits, padded);
    var m := Mantissa(d.negative, Pairs(padded));
    var tail := if d.negative then Tail(|m|) else [];
    assert Body(d) == [ExponentByte(d)] + m + tail;
    assert [|Body(d)|] + Body(d) == [|Body(d)|, ExponentByte(d)] + m + tail;
  }

  lemma EncodedParts(e: seq<int>, isNegative: bool, prependZero: bool, decimalPointIndex: int, digits: seq<int>)
    requires EncodedFrom(e, isNegative, prependZero, decimalPointIndex, digits)
    ensures var n := 2 + |digits| / 2;
            var sentinel := isNegative && |digits| < MAX_DIGITS;
            && |e| == n + (if sentinel then 1 else 0)
            && e[0] == |e| - 1
            && e[1] == (if isNegative then 63 - decimalPointIndex / 2 else decimalPointIndex / 2 + 192)
            && e[..n] == e[..2] + Mantissa(isNegative, StoredPairs(prependZero, digits))
            && (sentinel ==> e[n] == SENTINEL)
  {
  }

  // The encoder for a number with at least one digit, whose padded digits stand in the buffer.
  method WriteNonzero(isNegative: bool, prependZero: bool, decimalPointIndex: int, digits: seq<int>, target: array<int>,
                      ghost e: seq<int>)
    requires EncodedFrom(e, isNegative, prependZero, decimalPointIndex, digits)
    requires |e| <= target.Length
    modifies target
    ensures target[..|e|] == e && target[|e|..] == old(target[|e|..])
  {
    EncodedParts(e, isNegative, prependZero, decimalPointIndex, digits);
    var numPairs := |digits| / 2;
    var appendSentinel := isNegative && |digits| > 0 && |digits| < MAX_DIGITS;
    WriteHeader(isNegative, decimalPointIndex, numPairs, appendSentinel, target);
    assert target[..2] == e[..2];
    assert target[2 + numPairs..] == target[2..][numPairs..];
    WriteMantissa(isNegative, prependZero, digits, target);
    ghost var written := target[..];
    assert written[2 + numPairs..] == old(target[2 + numPairs..]) && written[..2 + numPairs] == e[..2 + numPairs];
    if appendSentinel {
      target[2 + numPairs] := SENTINEL;
      assert target[..|e|] == written[..2 + numPairs] + [SENTINEL];
      assert target[|e|..] == written[2 + numPairs..][1..];
    }
  }

  // The encoder: the buffer starts with the encoded number and is unchanged behind it. A write behind
  // the end of the buffer is undefined in C; here it is an outcome.
  method WriteNumber(isNegative: bool, point: int, count: nat, digits: array<int>, target: array<int>, ghost d: Decimal)
      returns (ok: bool)
    requires count + 2 <= digits.Length <= 255
    requires digits != target
    requires d == Decimal(isNegative, point, digits[..count]) && Normal(d)
    requires target.Length >= ORACLE_NUMBER_SIZE
    modifies digits, target
    ensures ok == (|Encode(d)| <= target.Length)
    ensures target.Length == ORACLE_NUMBER_SIZE ==> ok == Fits(d)
    ensures ok ==> target[..|Encode(d)|] == Encode(d)
    ensures ok ==> target[|Encode(d)|..] == old(target[|Encode(d)|..])
  {
    EncodedSize(d);
    var prependZero, decimalPointIndex, numDigits := PadDigits(d, point, count, digits);
    if numDigits == 0 {
      WriteZero(target);
      return true;
    }
    var padded := digits[..numDigits];
    EncodeNonzero(d, padded);
    EncodedParts(Encode(d), isNegative, prependZero, decimalPointIndex, padded);
    if 2 + numDigits / 2 + (if isNegative && numDigits < MAX_DIGITS then 1 else 0) > target.Length {
      return false;
    }
    ok := true;
    WriteNonzero(isNegative, prependZero, decimalPointIndex, padded, target, Encode(d));
  }

  method WriteZero(target: array<int>)
    requires target.Length >= 2
    modifies target
    ensures target[..2] == [1, 128] && target[2..] == old(target[2..])
  {
    target[0] := 1;
    target[1] := 128;
  }
}
