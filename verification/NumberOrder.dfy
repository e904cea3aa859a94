/** The value of an encoded number, and why comparing encoded numbers byte by byte compares the
    numbers. */
module NumberOrder {
  import opened Decimals
  import opened OracleNumber
  import opened NumberCodec

  // ---- value ----

  lemma {:induction false} FractionOfPairs(s: seq<int>)
    requires |s| % 2 == 0
    ensures Fraction100(Pairs(s)) == Fraction(s)
  {
    if s != [] {
      FractionOfPairs(s[2..]);
      assert s[1..][1..] == s[2..];
    }
  }

  lemma {:induction false} MantissaUndone(pairs: seq<int>)
    ensures MinusOne(Mantissa(false, pairs)) == pairs
    ensures From101(Mantissa(true, pairs)) == pairs
  {
    if pairs != [] {
      MantissaUndone(pairs[1..]);
      assert Mantissa(false, pairs)[1..] == Mantissa(false, pairs[1..]);
      assert Mantissa(true, pairs)[1..] == Mantissa(true, pairs[1..]);
    }
  }

  // The magnitude of d in base one hundred.
  lemma PaddedMagnitude(d: Decimal)
    ensures Shift(Fraction100(Pairs(PaddedDigits(d))), PaddedPoint(d)) == Shift(Fraction(d.digits), d.pointIndex)
  {
    var front := if OddPoint(d) then [0] + d.digits else d.digits;
    FractionOfPairs(PaddedDigits(d));
    FractionAppendZero(front);
    FractionPrependZero(d.digits);
    ShiftTenth(Fraction(d.digits), d.pointIndex);
  }

  // Reading the encoded bytes as the format defines them gives exactly the decimal's value.
  lemma BodyValue(d: Decimal)
    requires Normal(d)
    ensures BytesValue(Body(d)) == Value(d)
  {
    if d.digits == [] {
      ShiftZero(d.pointIndex);
    } else {
      BodyParts(d);
      PaddedMagnitude(d);
      MantissaUndone(Pairs(PaddedDigits(d)));
    }
  }

  // ---- order ----

  // Bytes compare from the left; a proper prefix comes first.
  predicate LexLess(s: seq<int>, t: seq<int>) {
    t != [] && (s == [] || s[0] < t[0] || (s[0] == t[0] && LexLess(s[1..], t[1..])))
  }

  lemma {:induction false} LexTotal(s: seq<int>, t: seq<int>)
    ensures s == t || LexLess(s, t) || LexLess(t, s)
  {
    if s != [] && t != [] {
      LexTotal(s[1..], t[1..]);
      assert s == [s[0]] + s[1..] && t == [t[0]] + t[1..];
    }
  }

  lemma {:induction false} Fraction100Bounds(s: seq<int>)
    requires Within(s, 0, 99)
    ensures 0.0 <= Fraction100(s) < 1.0
    ensures s != [] && s[|s| - 1] != 0 ==> 0.0 < Fraction100(s)
  {
    if s != [] {
      Fraction100Bounds(s[1..]);
    }
  }

  // Sequences of base-100 digits that do not end in zero compare like the fractions they denote.
  lemma {:induction false} FractionOrder(s: seq<int>, t: seq<int>)
    requires Within(s, 0, 99) && Within(t, 0, 99)
    requires t != [] ==> t[|t| - 1] != 0
    requires LexLess(s, t)
    ensures Fraction100(s) < Fraction100(t)
  {
    Fraction100Bounds(t);
    if s != [] {
      Fraction100Bounds(s[1..]);
      Fraction100Bounds(t[1..]);
      if s[0] == t[0] {
        FractionOrder(s[1..], t[1..]);
      }
    }
  }

  lemma {:induction false} PositiveMantissaOrder(s: seq<int>, t: seq<int>)
    requires LexLess(Mantissa(false, s), Mantissa(false, t))
    ensures LexLess(s, t)
  {
    if s != [] && t != [] {
      assert Mantissa(false, s)[1..] == Mantissa(false, s[1..]);
      assert Mantissa(false, t)[1..] == Mantissa(false, t[1..]);
      if s[0] == t[0] {
        PositiveMantissaOrder(s[1..], t[1..]);
      }
    }
  }

  function TailUpTo(room: int): seq<int> {
    if room > 0 then [SENTINEL] else []
  }

  // The sentinel, greater than every mantissa byte, makes a shorter negative mantissa the greater one.
  // One pair more than there is room for leaves a shorter one without it.
  lemma {:induction false} NegativeMantissaOrder(s: seq<int>, t: seq<int>, room: int)
    requires Within(s, 0, 99) && Within(t, 0, 99)
    requires |s| <= room + 1 && |t| <= room + 1 && !(|s| == room && |t| == room + 1 && s == t[..room])
    requires LexLess(Mantissa(true, s) + TailUpTo(room - |s|), Mantissa(true, t) + TailUpTo(room - |t|))
    ensures LexLess(t, s)
    decreases |s|
  {
    var x, y := Mantissa(true, s) + TailUpTo(room - |s|), Mantissa(true, t) + TailUpTo(room - |t|);
    if s != [] && t != [] {
      assert x[0] == 101 - s[0] && y[0] == 101 - t[0];
      if s[0] == t[0] {
        assert x[1..] == Mantissa(true, s[1..]) + TailUpTo(room - 1 - |s[1..]|);
        assert y[1..] == Mantissa(true, t[1..]) + TailUpTo(room - 1 - |t[1..]|);
        if |s| == room && |t| == room + 1 && s[1..] == t[1..][..room - 1] {
          PrefixAhead(s, t, room);
        }
        NegativeMantissaOrder(s[1..], t[1..], room - 1);
      }
    } else if s == [] && t == [] {
      assert x == y;
      LexIrreflexive(x);
    }
  }

  lemma PrefixAhead(s: seq<int>, t: seq<int>, room: int)
    requires s != [] && t != [] && s[0] == t[0]
    requires |s[1..]| == room - 1 && |t[1..]| == room && s[1..] == t[1..][..room - 1]
    ensures s == t[..room]
  {
    assert t[..room] == [t[0]] + t[1..][..room - 1];
    assert s == [s[0]] + s[1..];
  }

  lemma {:induction false} LexIrreflexive(s: seq<int>)
    ensures !LexLess(s, s)
  {
    if s != [] {
      LexIrreflexive(s[1..]);
    }
  }

  // Magnitudes: fractions of at least a hundredth, shifted by an even number of places.
  lemma MagnitudeOrder(s: seq<int>, e: int, t: seq<int>, f: int)
    requires Within(s, 0, 99) && Within(t, 0, 99) && t != [] && t[0] != 0 && t[|t| - 1] != 0
    requires e < f || (e == f && LexLess(s, t))
    ensures Shift(Fraction100(s), 2 * e) < Shift(Fraction100(t), 2 * f)
  {
    if e == f {
      FractionOrder(s, t);
      ShiftIncreasing(Fraction100(s), Fraction100(t), 2 * e);
    } else {
      Fraction100Bounds(s);
      Fraction100Bounds(t[1..]);
      assert Fraction100(t) >= 0.01;
      ShiftSuccessor(0.01, 2 * e);
      ShiftSuccessor(0.01, 2 * e + 1);
      var g := 2 * e + 2;
      ShiftIncreasing(Fraction100(s), 1.0, 2 * e);
      ShiftTenth(0.1, 2 * e + 1);
      ShiftTenth(1.0, 2 * e);
      assert Shift(1.0, 2 * e) == Shift(0.01, g);
      ShiftFurther(0.01, g, 2 * f);
      if Fraction100(t) > 0.01 {
        ShiftIncreasing(0.01, Fraction100(t), 2 * f);
      }
    }
  }

  lemma PaddedEnds(d: Decimal)
    requires Normal(d) && d.digits != []
    ensures var pairs := Pairs(PaddedDigits(d));
            pairs != [] && Within(pairs, 0, 99) && pairs[0] != 0 && pairs[|pairs| - 1] != 0
  {
    PaddedIsDigits(d);
    PairsAt(PaddedDigits(d));
  }

  lemma MagnitudePositive(d: Decimal)
    requires Normal(d) && d.digits != []
    ensures Shift(Fraction(d.digits), d.pointIndex) > 0.0
  {
    PaddedEnds(d);
    PaddedMagnitude(d);
    Fraction100Bounds(Pairs(PaddedDigits(d)));
    ShiftIncreasing(0.0, Fraction100(Pairs(PaddedDigits(d))), PaddedPoint(d));
    ShiftZero(PaddedPoint(d));
  }

  // Which numbers byte order is right for: those that fit, and of the others the positive ones, and the
  // negative ones that no number with one pair less is a prefix of.
  predicate Ordered(d: Decimal) {
    Fits(d) || !d.negative || (d.digits[37] == 0 && d.digits[38] == 0)
  }

  // The mantissa of a negative number does not go on from one that fills an OCI number.
  lemma NoPrefix(a: Decimal, b: Decimal)
    requires Normal(a) && a.digits != [] && Normal(b) && b.digits != [] && b.negative && Ordered(b)
    ensures var s, t := Pairs(PaddedDigits(a)), Pairs(PaddedDigits(b));
            && |s| <= MAX_DIGITS / 2 + 1 && |t| <= MAX_DIGITS / 2 + 1
            && !(|s| == MAX_DIGITS / 2 && |t| == MAX_DIGITS / 2 + 1 && s == t[..MAX_DIGITS / 2])
  {
    var s, t := Pairs(PaddedDigits(a)), Pairs(PaddedDigits(b));
    PaddedEnds(a);
    if |t| == MAX_DIGITS / 2 + 1 {
      TwentiethPair(b);
    }
  }

  lemma TwentiethPair(d: Decimal)
    requires Normal(d) && |PaddedDigits(d)| == 42
    ensures !Fits(d) && |d.digits| == MAX_DIGITS && Pairs(PaddedDigits(d))[19] == 10 * d.digits[37] + d.digits[38]
  {
    PairAt(PaddedDigits(d), 19);
    assert PaddedDigits(d) == [0] + d.digits + [0];
  }

  lemma {:induction false} PairAt(s: seq<int>, i: nat)
    requires 2 * i + 1 < |s|
    ensures i < |Pairs(s)| && Pairs(s)[i] == 10 * s[2 * i] + s[2 * i + 1]
  {
    if i > 0 {
      PairAt(s[2..], i - 1);
    }
  }

  // Between two nonzero numbers of the same sign: the smaller bytes belong to the smaller
  // magnitude if positive, to the greater one if negative.
  lemma SameSignOrder(a: Decimal, b: Decimal)
    requires Normal(a) && Ordered(a) && a.digits != [] && Normal(b) && Ordered(b) && b.digits != []
    requires a.negative == b.negative && LexLess(Body(a), Body(b))
    ensures Value(a) < Value(b)
  {
    var s, t := Pairs(PaddedDigits(a)), Pairs(PaddedDigits(b));
    PaddedEnds(a);
    PaddedEnds(b);
    PaddedMagnitude(a);
    PaddedMagnitude(b);
    BytesOrder(a, b);
    if a.negative {
      MagnitudeOrder(t, PaddedPoint(b) / 2, s, PaddedPoint(a) / 2);
    } else {
      MagnitudeOrder(s, PaddedPoint(a) / 2, t, PaddedPoint(b) / 2);
    }
  }

  // What the bytes say about exponents and pairs.
  lemma BytesOrder(a: Decimal, b: Decimal)
    requires Normal(a) && Ordered(a) && a.digits != [] && Normal(b) && Ordered(b) && b.digits != []
    requires a.negative == b.negative && LexLess(Body(a), Body(b))
    ensures var s, t := Pairs(PaddedDigits(a)), Pairs(PaddedDigits(b));
            var e, f := PaddedPoint(a) / 2, PaddedPoint(b) / 2;
            if a.negative then f < e || (e == f && LexLess(t, s)) else e < f || (e == f && LexLess(s, t))
  {
    var s, t := Pairs(PaddedDigits(a)), Pairs(PaddedDigits(b));
    BodyParts(a);
    BodyParts(b);
    PaddedEnds(a);
    PaddedEnds(b);
    if Body(a)[0] == Body(b)[0] {
      if a.negative {
        NoPrefix(a, b);
        NegativeMantissaOrder(s, t, MAX_DIGITS / 2);
      } else {
        PositiveMantissaOrder(s, t);
      }
    }
  }

  lemma SmallerBytesSmallerValue(a: Decimal, b: Decimal)
    requires Normal(a) && Ordered(a) && Normal(b) && Ordered(b)
    requires LexLess(Body(a), Body(b))
    ensures Value(a) < Value(b)
  {
    EncodeIsBytes(a);
    EncodeIsBytes(b);
    if a.digits == [] {
      ShiftZero(a.pointIndex);
    } else {
      MagnitudePositive(a);
    }
    if b.digits == [] {
      ShiftZero(b.pointIndex);
    } else {
      MagnitudePositive(b);
    }
    if a.digits != [] && b.digits != [] && a.negative == b.negative {
      SameSignOrder(a, b);
    }
  }

  // Byte order is numeric order, and equal bytes are exactly equal numbers: for all decimals that fit,
  // of both signs and zero included, and for the others that are ordered.
  lemma ByteOrderIsNumericOrder(a: Decimal, b: Decimal)
    requires Normal(a) && Ordered(a) && Normal(b) && Ordered(b)
    ensures LexLess(Body(a), Body(b)) <==> Value(a) < Value(b)
    ensures Body(a) == Body(b) <==> Value(a) == Value(b)
  {
    LexTotal(Body(a), Body(b));
    LexIrreflexive(Body(a));
    if LexLess(Body(a), Body(b)) {
      SmallerBytesSmallerValue(a, b);
    } else if LexLess(Body(b), Body(a)) {
      SmallerBytesSmallerValue(b, a);
    } else {
      BodyValue(a);
      BodyValue(b);
    }
  }

  // ---- beyond the size of an OCI number ----

  lemma PairsAhead(s: seq<int>)
    requires |s| >= 2
    ensures Pairs(s) == [10 * s[0] + s[1]] + Pairs(s[2..])
  {
  }

  lemma {:induction false} PairsConcat(s: seq<int>, n: nat, t: seq<int>)
    requires |s| == 2 * n
    ensures Pairs(s + t) == Pairs(s) + Pairs(t)
  {
    if s == [] {
      assert s + t == t;
    } else {
      var u := s + t;
      PairsConcat(s[2..], n - 1, t);
      assert u[2..] == s[2..] + t;
      PairsAhead(u);
      PairsAhead(s);
    }
  }

  lemma {:induction false} MantissaConcat(negative: bool, s: seq<int>, t: seq<int>)
    ensures Mantissa(negative, s + t) == Mantissa(negative, s) + Mantissa(negative, t)
  {
    if s == [] {
      assert s + t == t;
    } else {
      MantissaConcat(negative, s[1..], t);
      assert (s + t)[1..] == s[1..] + t;
    }
  }

  lemma {:induction false} LexPrefix(s: seq<int>, t: seq<int>)
    requires t != []
    ensures LexLess(s, s + t)
  {
    if s == [] {
      assert s + t == t;
    } else {
      LexPrefix(s[1..], t);
      assert (s + t)[1..] == s[1..] + t;
    }
  }

  // The first twenty pairs of a number with twenty-one, as a number of their own.
  function Shorter(d: Decimal): (b: Decimal)
    requires |d.digits| == MAX_DIGITS
  {
    d.(digits := if d.digits[38] != 0 then d.digits[..39] else d.digits[..38])
  }

  lemma ShorterPadded(d: Decimal)
    requires Normal(d) && |d.digits| == MAX_DIGITS && OddPoint(d)
    ensures PaddedDigits(Shorter(d)) == [0] + d.digits[..39]
    ensures PaddedDigits(d) == ([0] + d.digits[..39]) + [d.digits[39], 0]
  {
    var b := Shorter(d);
    assert d.digits == d.digits[..39] + [d.digits[39]];
    if d.digits[38] == 0 {
      assert d.digits[..39] == d.digits[..38] + [0];
      assert PaddedDigits(b) == ([0] + d.digits[..38]) + [0];
    } else {
      assert PaddedDigits(b) == [0] + d.digits[..39];
    }
  }

  lemma BytesGoOn(d: Decimal)
    requires Normal(d) && !Fits(d) && d.negative
    ensures LexLess(Body(Shorter(d)), Body(d))
  {
    var b, s, last := Shorter(d), [0] + d.digits[..39], [d.digits[39], 0];
    ShorterPadded(d);
    PairsConcat(s, 20, last);
    var more := Mantissa(true, Pairs(last));
    MantissaConcat(true, Pairs(s), Pairs(last));
    assert Body(d) == Body(b) + more;
    LexPrefix(Body(b), more);
  }

  lemma ShorterFraction(d: Decimal)
    requires Normal(d) && |d.digits| == MAX_DIGITS
    ensures Fraction(Shorter(d).digits) < Fraction(d.digits)
  {
    var b := Shorter(d);
    var rest := d.digits[|b.digits|..];
    assert d.digits == b.digits + rest;
    FractionConcat(b.digits, rest);
    LastCounts(rest);
    ShiftIncreasing(0.0, Fraction(rest), -|b.digits|);
    ShiftZero(-|b.digits|);
  }

  lemma {:induction false} LastCounts(s: seq<int>)
    requires IsDigits(s) && s != [] && s[|s| - 1] != 0
    ensures Fraction(s) > 0.0
  {
    if |s| > 1 {
      LastCounts(s[1..]);
    }
  }

  // Every other number has a partner that fits for which bytes and numbers disagree: a negative number
  // with forty digits and an odd point index takes 21 pairs and no sentinel, so its bytes come after
  // those of its first twenty pairs, although it is smaller.
  lemma DisorderedPartner(d: Decimal)
    requires Normal(d) && !Ordered(d)
    ensures var b := Shorter(d);
            Normal(b) && Fits(b) && Value(d) < Value(b) && LexLess(Body(b), Body(d))
  {
    BytesGoOn(d);
    ShorterIsNormal(d);
    ShorterFraction(d);
    ShiftIncreasing(Fraction(Shorter(d).digits), Fraction(d.digits), d.pointIndex);
  }

  lemma ShorterIsNormal(d: Decimal)
    requires Normal(d) && !Ordered(d)
    ensures Normal(Shorter(d)) && Fits(Shorter(d))
  {
  }

  // Byte order is right for a number, against all numbers that fit, exactly when it is ordered.
  ghost predicate RightlyPlaced(d: Decimal) {
    forall b :: Normal(b) && Fits(b) ==>
        && (LexLess(Body(d), Body(b)) <==> Value(d) < Value(b))
        && (LexLess(Body(b), Body(d)) <==> Value(b) < Value(d))
  }

  lemma RightlyPlacedExactly(d: Decimal)
    requires Normal(d)
    ensures RightlyPlaced(d) <==> Ordered(d)
  {
    if Ordered(d) {
      forall b | Normal(b) && Fits(b)
        ensures LexLess(Body(d), Body(b)) <==> Value(d) < Value(b)
        ensures LexLess(Body(b), Body(d)) <==> Value(b) < Value(d)
      {
        ByteOrderIsNumericOrder(d, b);
        ByteOrderIsNumericOrder(b, d);
      }
    } else {
      DisorderedPartner(d);
    }
  }
}
