/** Decimal numbers as the driver passes them around: a sign, the index of the decimal point and
    the digits, with exact real values. */
module Decimals {

  // The number it denotes is (+ or -) 0.d1 d2 .. dn times ten to the power pointIndex.
  datatype Decimal = Decimal(negative: bool, pointIndex: int, digits: seq<int>)

  const MAX_DIGITS := 40

  predicate IsDigits(s: seq<int>) {
    forall i :: 0 <= i < |s| ==> 0 <= s[i] <= 9
  }

  predicate Trimmed(s: seq<int>) {
    s == [] || (s[0] != 0 && s[|s| - 1] != 0)
  }

  // What the text parser hands to the encoder.
  predicate Normal(d: Decimal) {
    && IsDigits(d.digits)
    && Trimmed(d.digits)
    && |d.digits| <= MAX_DIGITS
    && -129 <= d.pointIndex <= 126
  }

  function Zeros(n: nat): (s: seq<int>)
    ensures |s| == n && IsDigits(s) && forall i :: 0 <= i < n ==> s[i] == 0
  {
    seq(n, _ => 0)
  }

  // x times ten to the power e.
  ghost function Shift(x: real, e: int): real
    decreases if e < 0 then -e else e
  {
    if e == 0 then x else if e > 0 then 10.0 * Shift(x, e - 1) else Shift(x, e + 1) / 10.0
  }

  // The value of 0.s1 s2 .. sn in base ten, and in base one hundred.
  ghost function Fraction(s: seq<int>): real {
    if s == [] then 0.0 else (s[0] as real + Fraction(s[1..])) / 10.0
  }

  ghost function Fraction100(s: seq<int>): real {
    if s == [] then 0.0 else (s[0] as real + Fraction100(s[1..])) / 100.0
  }

  ghost function Signed(negative: bool, magnitude: real): real {
    if negative then -magnitude else magnitude
  }

  ghost function Value(d: Decimal): real {
    Signed(d.negative, Shift(Fraction(d.digits), d.pointIndex))
  }

  // ---- shifting the decimal point ----

  lemma ShiftSuccessor(x: real, e: int)
    ensures Shift(x, e + 1) == 10.0 * Shift(x, e)
  {
  }

  lemma {:induction false} ShiftSum(x: real, y: real, e: int)
    ensures Shift(x + y, e) == Shift(x, e) + Shift(y, e)
    decreases if e < 0 then -e else e
  {
    if e > 0 {
      ShiftSum(x, y, e - 1);
    } else if e < 0 {
      ShiftSum(x, y, e + 1);
    }
  }

  lemma {:induction false} ShiftTenth(x: real, e: int)
    ensures Shift(x / 10.0, e + 1) == Shift(x, e)
    decreases if e < 0 then -e else e
  {
    if e == 0 {
      assert Shift(x / 10.0, 1) == 10.0 * Shift(x / 10.0, 0);
    } else if e > 0 {
      ShiftTenth(x, e - 1);
    } else {
      ShiftTenth(x, e + 1);
      ShiftSuccessor(x / 10.0, e + 1);
    }
  }

  lemma {:induction false} ShiftCompose(x: real, e: int, f: int)
    ensures Shift(Shift(x, e), f) == Shift(x, e + f)
    decreases if f < 0 then -f else f
  {
    if f > 0 {
      ShiftCompose(x, e, f - 1);
      ShiftSuccessor(x, e + f - 1);
    } else if f < 0 {
      ShiftCompose(x, e, f + 1);
      ShiftSuccessor(x, e + f);
    }
  }

  lemma {:induction false} ShiftIncreasing(x: real, y: real, e: int)
    requires x < y
    ensures Shift(x, e) < Shift(y, e)
    decreases if e < 0 then -e else e
  {
    if e > 0 {
      ShiftIncreasing(x, y, e - 1);
    } else if e < 0 {
      ShiftIncreasing(x, y, e + 1);
    }
  }

  lemma {:induction false} ShiftZero(e: int)
    ensures Shift(0.0, e) == 0.0
    decreases if e < 0 then -e else e
  {
    if e > 0 {
      ShiftZero(e - 1);
    } else if e < 0 {
      ShiftZero(e + 1);
    }
  }

  lemma {:induction false} ShiftFurther(x: real, e: int, f: int)
    requires x >= 0.0 && e <= f
    ensures 0.0 <= Shift(x, e) <= Shift(x, f)
    decreases f - e
  {
    if x == 0.0 {
      ShiftZero(e);
      ShiftZero(f);
    } else {
      ShiftIncreasing(0.0, x, e);
      ShiftZero(e);
      if e < f {
        ShiftSuccessor(x, e);
        ShiftFurther(x, e + 1, f);
      }
    }
  }

  // ---- fractions ----

  lemma {:induction false} FractionBounds(s: seq<int>)
    requires IsDigits(s)
    ensures 0.0 <= Fraction(s) < 1.0
  {
    if s != [] {
      FractionBounds(s[1..]);
    }
  }

  lemma {:induction false} FractionAppendZero(s: seq<int>)
    ensures Fraction(s + [0]) == Fraction(s)
  {
    if s == [] {
      assert (s + [0])[1..] == [];
    } else {
      FractionAppendZero(s[1..]);
      assert (s + [0])[1..] == s[1..] + [0];
    }
  }

  lemma FractionPrependZero(s: seq<int>)
    ensures Fraction([0] + s) == Fraction(s) / 10.0
  {
    assert ([0] + s)[1..] == s;
  }

  // The digits of t continue those of s.
  lemma {:induction false} FractionConcat(s: seq<int>, t: seq<int>)
    ensures Fraction(s + t) == Fraction(s) + Shift(Fraction(t), -|s|)
  {
    if s == [] {
      assert s + t == t;
    } else {
      FractionConcat(s[1..], t);
      assert (s + t)[1..] == s[1..] + t;
    }
  }

  lemma {:induction false} FractionZeros(n: nat)
    ensures Fraction(Zeros(n)) == 0.0
  {
    if n > 0 {
      FractionZeros(n - 1);
      assert Zeros(n)[1..] == Zeros(n - 1);
    }
  }

  // Leading zeros can be exchanged for a smaller point index.
  lemma {:induction false} LeadingZeros(n: nat, s: seq<int>, e: int)
    ensures Shift(Fraction(Zeros(n) + s), e) == Shift(Fraction(s), e - n)
  {
    if n == 0 {
      assert Zeros(n) + s == s;
    } else {
      var t := Zeros(n - 1) + s;
      assert Zeros(n) + s == [0] + t;
      FractionPrependZero(t);
      ShiftTenth(Fraction(t), e - 1);
      LeadingZeros(n - 1, s, e - 1);
    }
  }

  lemma {:induction false} TrailingZeros(s: seq<int>, n: nat)
    ensures Fraction(s + Zeros(n)) == Fraction(s)
  {
    if n == 0 {
      assert s + Zeros(n) == s;
    } else {
      TrailingZeros(s, n - 1);
      FractionAppendZero(s + Zeros(n - 1));
      assert s + Zeros(n) == s + Zeros(n - 1) + [0];
    }
  }
}
