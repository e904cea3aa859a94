/** What the NUMBER encoder and parser mean for each other: they are inverse on decimals that fit and on
    canonical encodings. */
module NumberCodec {
  import opened Wrappers
  import opened Decimals
  import opened OracleNumber
  import opened OracleNumberParser

  // The encodings the format has for the numbers it represents exactly, without the length byte.
  predicate Canonical(body: seq<int>) {
    body == [128] || CanonicalNonzero(body)
  }

  // The mantissa bytes of a body, without the sentinel of a negative number.
  function MantissaIn(body: seq<int>): seq<int>
    requires body != []
  {
    if body[0] < 128 then DropSentinel(body[1..]) else body[1..]
  }

  predicate CanonicalNonzero(body: seq<int>) {
    && |body| >= 2 && 0 <= body[0] < 256
    && var negative, m := body[0] < 128, MantissaIn(body);
       && 1 <= |m| <= MAX_DIGITS / 2
       && body[1..] == m + (if negative then Tail(|m|) else [])
       && (if negative then Within(m, 2, 101) else Within(m, 1, 100))
       && PairOf(negative, m[0]) != 0 && PairOf(negative, m[|m| - 1]) != 0
  }

  // ---- pairs and digits ----

  function Flatten(pairs: seq<int>): (digits: seq<int>)
    ensures |digits| == 2 * |pairs|
  {
    if pairs == [] then [] else [pairs[0] / 10, pairs[0] % 10] + Flatten(pairs[1..])
  }

  lemma {:induction false} FlattenPairs(s: seq<int>)
    requires |s| % 2 == 0 && IsDigits(s)
    ensures Flatten(Pairs(s)) == s
  {
    if s != [] {
      FlattenPairs(s[2..]);
      assert s == [s[0], s[1]] + s[2..];
    }
  }

  lemma {:induction false} PairsFlatten(pairs: seq<int>)
    requires Within(pairs, 0, 99)
    ensures Pairs(Flatten(pairs)) == pairs && IsDigits(Flatten(pairs))
  {
    if pairs != [] {
      PairsFlatten(pairs[1..]);
      assert Flatten(pairs)[2..] == Flatten(pairs[1..]);
    }
  }

  function DropZero(s: seq<int>): seq<int> {
    if s != [] && s[|s| - 1] == 0 then s[..|s| - 1] else s
  }

  lemma DropZeroConcat(s: seq<int>, t: seq<int>)
    requires t != []
    ensures DropZero(s + t) == s + DropZero(t)
  {
  }

  function DropLeadingZero(s: seq<int>, first: bool): (t: seq<int>)
    ensures |t| <= |s|
  {
    if first && s != [] && s[0] == 0 then s[1..] else s
  }

  lemma PairDigits(p: int, first: bool)
    requires 0 <= p <= 99
    ensures HighDigits(p, first) + LowDigits(p, false) == DropLeadingZero([p / 10, p % 10], first)
    ensures HighDigits(p, first) + LowDigits(p, true) == DropZero(DropLeadingZero([p / 10, p % 10], first))
  {
  }

  lemma FlattenHead(pairs: seq<int>, first: bool)
    requires pairs != []
    ensures DropLeadingZero(Flatten(pairs), first)
            == DropLeadingZero([pairs[0] / 10, pairs[0] % 10], first) + Flatten(pairs[1..])
  {
    var p, t := pairs[0], Flatten(pairs[1..]);
    assert Flatten(pairs) == [p / 10, p % 10] + t;
    assert Flatten(pairs)[1..] == [p % 10] + t && [p / 10, p % 10][1..] == [p % 10];
  }

  lemma {:induction false} ExpandIsFlatten(pairs: seq<int>, first: bool)
    requires Within(pairs, 0, 99)
    ensures Expand(pairs, first) == DropZero(DropLeadingZero(Flatten(pairs), first))
    ensures PointShift(pairs, first) == if first && pairs != [] && pairs[0] / 10 == 0 then -1 else 0
  {
    if pairs != [] {
      ExpandIsFlatten(pairs[1..], false);
      var p, t := pairs[0], Flatten(pairs[1..]);
      var head := DropLeadingZero([p / 10, p % 10], first);
      FlattenHead(pairs, first);
      PairDigits(p, first);
      if t == [] {
        assert head + t == head;
        assert Expand(pairs, first) == HighDigits(p, first) + LowDigits(p, true);
      } else {
        DropZeroConcat(head, t);
      }
    }
  }

  lemma {:induction false} MantissaInverse(negative: bool, pairs: seq<int>)
    requires Within(pairs, 0, 99)
    ensures PairsOf(negative, Mantissa(negative, pairs)) == pairs
  {
    if pairs != [] {
      MantissaInverse(negative, pairs[1..]);
      assert Mantissa(negative, pairs)[1..] == Mantissa(negative, pairs[1..]);
    }
  }

  lemma {:induction false} PairsOfInverse(negative: bool, m: seq<int>)
    requires if negative then Within(m, 2, 101) else Within(m, 1, 100)
    ensures Within(PairsOf(negative, m), 0, 99)
    ensures Mantissa(negative, PairsOf(negative, m)) == m
  {
    if m != [] {
      PairsOfInverse(negative, m[1..]);
      assert PairsOf(negative, m)[1..] == PairsOf(negative, m[1..]);
    }
  }

  lemma PaddedIsDigits(d: Decimal)
    requires IsDigits(d.digits)
    ensures IsDigits(PaddedDigits(d)) && Within(Pairs(PaddedDigits(d)), 0, 99)
  {
    PairBounds(PaddedDigits(d));
  }

  lemma SentinelRoundTrip(m: seq<int>)
    requires m != [] && Within(m, 2, 101)
    ensures DropSentinel(m + Tail(|m|)) == m
  {
    assert |m| < MAX_DIGITS / 2 ==> (m + [SENTINEL])[..|m|] == m;
  }

  lemma BodyParts(d: Decimal)
    requires Normal(d) && d.digits != []
    ensures var pairs := Pairs(PaddedDigits(d));
            var m := Mantissa(d.negative, pairs);
            && pairs != [] && Within(pairs, 0, 99)
            && (Body(d)[0] < 128) == d.negative && |Body(d)| > 1
            && MantissaIn(Body(d)) == m
            && Body(d)[1..] == m + (if d.negative then Tail(|m|) else [])
            && PointOf(Body(d)[0]) == PaddedPoint(d)
  {
    PaddedIsDigits(d);
    var m := Mantissa(d.negative, Pairs(PaddedDigits(d)));
    MantissaBounds(d.negative, Pairs(PaddedDigits(d)));
    EncodeIsBytes(d);
    if d.negative {
      assert Body(d)[1..] == m + Tail(|m|);
      SentinelRoundTrip(m);
    } else {
      assert Body(d)[1..] == m;
    }
  }

  lemma UnpadDigits(d: Decimal)
    requires Normal(d) && d.digits != []
    ensures var s := PaddedDigits(d);
            && (s[0] == 0 <==> OddPoint(d))
            && DropZero(DropLeadingZero(s, true)) == d.digits
  {
    var s := PaddedDigits(d);
    assert DropZero(d.digits) == d.digits && DropZero(d.digits + [0]) == d.digits;
    if OddPoint(d) {
      assert s[1..] == d.digits || s[1..] == d.digits + [0];
    }
  }

  // ---- the parser inverts the encoder ----

  lemma DecodeInvertsBody(d: Decimal)
    requires Normal(d) && d.digits != []
    ensures DecodeBody(Body(d)) == d
  {
    BodyParts(d);
    var pairs := Pairs(PaddedDigits(d));
    PaddedIsDigits(d);
    MantissaInverse(d.negative, pairs);
    FlattenPairs(PaddedDigits(d));
    ExpandIsFlatten(pairs, true);
    UnpadDigits(d);
  }

  // In a buffer that holds it, every encoded decimal except zero is read back exactly, unless its
  // padded digits need a 21st pair: those are rejected. Zero is read back as the single digit 0.
  lemma DecodeInvertsEncode(d: Decimal, rest: seq<int>)
    requires Normal(d) && IsBytes(rest)
    requires |Encode(d) + rest| >= ORACLE_NUMBER_SIZE
    ensures IsBytes(Encode(d) + rest)
    ensures Decode(Encode(d) + rest)
            == if !Fits(d) then Failure(InvalidOciNumber)
               else if d.digits == [] then Success(Decimal(false, 1, [0]))
               else Success(d)
  {
    EncodeIsBytes(d);
    EncodedSize(d);
    var s := Encode(d) + rest;
    if Fits(d) {
      assert s[1..s[0] + 1] == Body(d);
      if d.digits != [] {
        DecodeInvertsBody(d);
      }
    } else {
      assert |Body(d)| == 22;
    }
  }

  // ---- the encoder inverts the parser on canonical encodings ----

  lemma Repad(d: Decimal, s: seq<int>)
    requires s != [] && |s| % 2 == 0 && IsDigits(s)
    requires d.digits == DropZero(DropLeadingZero(s, true))
    requires OddPoint(d) <==> s[0] == 0
    ensures PaddedDigits(d) == s
  {
    var t := DropLeadingZero(s, true);
    assert t == d.digits || t == d.digits + [0];
    if s[0] == 0 {
      assert s == [0] + t;
    }
  }

  lemma DecodeNonzero(body: seq<int>)
    requires |body| >= 2
    ensures var negative := body[0] < 128;
            var pairs := PairsOf(negative, MantissaIn(body));
            DecodeBody(body)
            == Decimal(negative, PointOf(body[0]) + PointShift(pairs, true), Expand(pairs, true))
  {
  }

  lemma UnpackedIsNormal(byte: int, m: seq<int>, d: Decimal)
    requires 0 <= byte < 256 && 1 <= |m| <= MAX_DIGITS / 2
    requires if byte < 128 then Within(m, 2, 101) else Within(m, 1, 100)
    requires PairOf(byte < 128, m[0]) != 0 && PairOf(byte < 128, m[|m| - 1]) != 0
    requires var pairs := PairsOf(byte < 128, m);
             d == Decimal(byte < 128, PointOf(byte) + PointShift(pairs, true), Expand(pairs, true))
    ensures Normal(d) && Fits(d) && d.digits != [] && PaddedPoint(d) == PointOf(byte)
    ensures PaddedDigits(d) == Flatten(PairsOf(byte < 128, m))
    ensures Pairs(Flatten(PairsOf(byte < 128, m))) == PairsOf(byte < 128, m)
  {
    var pairs := PairsOf(byte < 128, m);
    PairsOfInverse(byte < 128, m);
    PairsFlatten(pairs);
    ExpandIsFlatten(pairs, true);
    FlattenEnds(byte < 128, m);
    PointParity(byte, d.pointIndex, pairs[0] / 10 == 0);
    Repad(d, Flatten(pairs));
  }

  lemma CanonicalDecoded(body: seq<int>)
    requires CanonicalNonzero(body)
    ensures var d := DecodeBody(body);
            && Normal(d) && Fits(d) && d.digits != [] && d.negative == (body[0] < 128)
            && Pairs(PaddedDigits(d)) == PairsOf(d.negative, MantissaIn(body))
            && PaddedPoint(d) == PointOf(body[0])
  {
    DecodeNonzero(body);
    UnpackedIsNormal(body[0], MantissaIn(body), DecodeBody(body));
  }

  lemma PointParity(byte: int, point: int, shifted: bool)
    requires 0 <= byte < 256
    requires point == PointOf(byte) + if shifted then -1 else 0
    ensures point % 2 == 1 <==> shifted
    ensures -129 <= point <= 126
  {
  }

  lemma {:induction false} LastPair(negative: bool, m: seq<int>)
    requires m != []
    ensures var pairs := PairsOf(negative, m);
            var s := Flatten(pairs);
            var p := PairOf(negative, m[|m| - 1]);
            s[|s| - 2] == p / 10 && s[|s| - 1] == p % 10
  {
    if |m| > 1 {
      LastPair(negative, m[1..]);
    }
  }

  // The trimmed digits start and end with nonzero digits when the first and last pairs are not zero.
  lemma TrimmedEnds(s: seq<int>)
    requires IsDigits(s) && |s| >= 2
    requires (s[0] != 0 || s[1] != 0) && (s[|s| - 2] != 0 || s[|s| - 1] != 0)
    ensures var digits := DropZero(DropLeadingZero(s, true));
            && digits != [] && Trimmed(digits) && IsDigits(digits)
            && |digits| <= |s| && (|digits| == |s| ==> s[0] != 0)
  {
  }

  lemma FlattenEnds(negative: bool, m: seq<int>)
    requires m != [] && PairOf(negative, m[0]) != 0 && PairOf(negative, m[|m| - 1]) != 0
    requires Within(PairsOf(negative, m), 0, 99)
    ensures var s := Flatten(PairsOf(negative, m));
            var digits := DropZero(DropLeadingZero(s, true));
            digits != [] && Trimmed(digits) && IsDigits(digits) && |digits| <= 2 * |m|
            && (|digits| == 2 * |m| ==> s[0] != 0)
  {
    var pairs := PairsOf(negative, m);
    PairsFlatten(pairs);
    LastPair(negative, m);
    TrimmedEnds(Flatten(pairs));
  }

  // Together with DecodeInvertsBody: encoding is a bijection between the nonzero normal decimals
  // that fit and the canonical encodings.
  lemma BodyInvertsDecode(body: seq<int>)
    requires CanonicalNonzero(body)
    ensures Normal(DecodeBody(body)) && Fits(DecodeBody(body))
    ensures Body(DecodeBody(body)) == body
  {
    CanonicalDecoded(body);
    Reassembled(body, DecodeBody(body));
  }

  lemma PointBack(byte: int, d: Decimal)
    requires 0 <= byte < 256 && d.negative == (byte < 128) && PaddedPoint(d) == PointOf(byte)
    ensures ExponentByte(d) == byte
  {
  }

  lemma Reassembled(body: seq<int>, d: Decimal)
    requires CanonicalNonzero(body) && d.digits != [] && d.negative == (body[0] < 128)
    requires Pairs(PaddedDigits(d)) == PairsOf(d.negative, MantissaIn(body)) && PaddedPoint(d) == PointOf(body[0])
    ensures Body(d) == body
  {
    PairsOfInverse(d.negative, MantissaIn(body));
    PointBack(body[0], d);
    assert body == [body[0]] + body[1..];
  }

  lemma BodyIsCanonical(d: Decimal)
    requires Normal(d) && Fits(d)
    ensures Canonical(Body(d))
  {
    if d.digits != [] {
      BodyParts(d);
      var s := PaddedDigits(d);
      var pairs := Pairs(s);
      var m := Mantissa(d.negative, pairs);
      MantissaBounds(d.negative, pairs);
      MantissaInverse(d.negative, pairs);
      EncodeIsBytes(d);
      FirstAndLast(d);
    }
  }

  lemma {:induction false} PairsAt(s: seq<int>)
    requires |s| >= 2 && |s| % 2 == 0
    ensures Pairs(s)[0] == 10 * s[0] + s[1]
    ensures Pairs(s)[|s| / 2 - 1] == 10 * s[|s| - 2] + s[|s| - 1]
  {
    if |s| > 2 {
      PairsAt(s[2..]);
    }
  }

  lemma {:induction false} MantissaAt(negative: bool, pairs: seq<int>, i: nat)
    requires i < |pairs| && Within(pairs, 0, 99)
    ensures PairOf(negative, Mantissa(negative, pairs)[i]) == pairs[i]
  {
    if i > 0 {
      MantissaAt(negative, pairs[1..], i - 1);
    }
  }

  lemma FirstAndLast(d: Decimal)
    requires Normal(d) && d.digits != []
    ensures var pairs := Pairs(PaddedDigits(d));
            var m := Mantissa(d.negative, pairs);
            PairOf(d.negative, m[0]) != 0 && PairOf(d.negative, m[|m| - 1]) != 0
  {
    var s := PaddedDigits(d);
    var pairs := Pairs(s);
    PaddedIsDigits(d);
    PairsAt(s);
    MantissaAt(d.negative, pairs, 0);
    MantissaAt(d.negative, pairs, |pairs| - 1);
  }

  // ---- examples ----

  // The encodings of 0, 1, -1 and 123.45.
  lemma KnownEncodings()
    ensures Encode(Decimal(false, 0, [])) == [1, 128]
    ensures Encode(Decimal(false, 1, [1])) == [2, 193, 2]
    ensures Encode(Decimal(true, 1, [1])) == [3, 62, 100, 102]
    ensures Encode(Decimal(false, 3, [1, 2, 3, 4, 5])) == [4, 194, 2, 24, 46]
  {
    assert [0] + [1] == [0, 1];
    assert [0, 1][2..] == [] && [1][1..] == [];
    assert [0] + [1, 2, 3, 4, 5] == [0, 1, 2, 3, 4, 5];
    assert [0, 1, 2, 3, 4, 5][2..] == [2, 3, 4, 5] && [2, 3, 4, 5][2..] == [4, 5] && [4, 5][2..] == [];
    assert Pairs([4, 5]) == [45] && Pairs([2, 3, 4, 5]) == [23, 45] && Pairs([0, 1, 2, 3, 4, 5]) == [1, 23, 45];
    assert [1, 23, 45][1..] == [23, 45] && [23, 45][1..] == [45] && [45][1..] == [];
    assert Mantissa(false, [45]) == [46] && Mantissa(false, [23, 45]) == [24, 46];
  }
}
