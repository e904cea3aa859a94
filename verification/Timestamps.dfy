/** Milliseconds since 1970 as an interval of days, hours, minutes, seconds and fractions of a second,
    and back. Doubles are taken as exact reals. */
module Timestamps {
  import opened CArithmetic

  const MS_DAY := 86400000
  const MS_HOUR := 3600000
  const MS_MINUTE := 60000
  const MS_SECOND := 1000
  const MS_FSECOND := 1000000

  // fsecond counts millionths of a millisecond.
  datatype Interval = Interval(day: int, hour: int, minute: int, second: int, fsecond: int)

  // The conversion of a floating point number to an integer truncates toward zero.
  function Truncate(x: real): int {
    if x >= 0.0 then x.Floor else -((-x).Floor)
  }

  function Negated(i: Interval): Interval {
    Interval(-i.day, -i.hour, -i.minute, -i.second, -i.fsecond)
  }

  predicate InRange(i: Interval) {
    0 <= i.day && 0 <= i.hour < 24 && 0 <= i.minute < 60 && 0 <= i.second < 60 && 0 <= i.fsecond < 1000000000
  }

  function Seconds(i: Interval): int {
    i.day * 86400 + i.hour * 3600 + i.minute * 60 + i.second
  }

  // The interval in millionths of a millisecond.
  function Total(i: Interval): int {
    Seconds(i) * 1000000000 + i.fsecond
  }

  // The interval is the number of milliseconds, cut off behind the sixth digit, and all fields have its
  // sign and are within their ranges.
  predicate Denotes(i: Interval, ms: real) {
    if ms >= 0.0 then InRange(i) && Total(i) as real <= ms * 1000000.0 < Total(i) as real + 1.0
    else InRange(Negated(i)) && Total(i) as real - 1.0 < ms * 1000000.0 <= Total(i) as real
  }

  // The number of days has to fit 32 bits.
  predicate DaysFit(ms: real) {
    -2147483649.0 * 86400000.0 < ms < 2147483648.0 * 86400000.0
  }

  method ToInterval(value: real) returns (i: Interval)
    requires DaysFit(value)
    ensures Denotes(i, value) && -2147483648 <= i.day < 2147483648
  {
    var ms := value;
    var day := Truncate(ms / MS_DAY as real);
    ms := ms - (day * MS_DAY) as real;
    var hour := Truncate(ms / MS_HOUR as real);
    ms := ms - (hour * MS_HOUR) as real;
    var minute := Truncate(ms / MS_MINUTE as real);
    ms := ms - (minute * MS_MINUTE) as real;
    var second := Truncate(ms / MS_SECOND as real);
    ms := ms - (second * MS_SECOND) as real;
    var fsecond := Truncate(ms * MS_FSECOND as real);
    i := Interval(day, hour, minute, second, fsecond);
  }

  method FromInterval(i: Interval) returns (ms: int)
    ensures ms == Seconds(i) * 1000 + Quotient(i.fsecond, 1000000)
  {
    ms := i.day * MS_DAY + i.hour * MS_HOUR + i.minute * MS_MINUTE + i.second * MS_SECOND
          + Quotient(i.fsecond, MS_FSECOND);
  }

  // Field by field: the weights of the fields, their ranges and their common sign.
  lemma Fields(i: Interval, ms: real)
    ensures Seconds(i) == 86400 * i.day + 3600 * i.hour + 60 * i.minute + i.second
    ensures var n := ((24 * i.day + i.hour) * 60 + i.minute) * 60000000000 + i.second * 1000000000 + i.fsecond;
            Denotes(i, ms) <==>
            if ms >= 0.0 then
              && 0 <= i.day && 0 <= i.hour <= 23 && 0 <= i.minute <= 59 && 0 <= i.second <= 59
              && 0 <= i.fsecond <= 999999999 && n as real <= ms * 1000000.0 < (n + 1) as real
            else
              && 0 >= i.day && 0 >= i.hour >= -23 && 0 >= i.minute >= -59 && 0 >= i.second >= -59
              && 0 >= i.fsecond >= -999999999 && (n - 1) as real < ms * 1000000.0 <= n as real
  {
  }

  lemma After1970(i: Interval, ms: real)
    requires ms >= 0.0 && Denotes(i, ms)
    ensures Seconds(i) * 1000 + i.fsecond / MS_FSECOND == ms.Floor
  {
    var s, q := Seconds(i), i.fsecond / MS_FSECOND;
    assert q * 1000000 <= i.fsecond < q * 1000000 + 1000000;
    assert (s * 1000 + q) * 1000000 <= Total(i) < (s * 1000 + q + 1) * 1000000;
    assert (s * 1000 + q) as real <= ms < (s * 1000 + q + 1) as real;
  }

  lemma Mirrored(i: Interval)
    ensures Total(Negated(i)) == -Total(i) && Seconds(Negated(i)) == -Seconds(i)
  {
  }

  // Going to an interval and back cuts off the fraction of a millisecond, before and after 1970. Hence
  // the number comes back if and only if it is whole.
  lemma RoundTrip(i: Interval, ms: real)
    requires Denotes(i, ms)
    ensures Seconds(i) * 1000 + Quotient(i.fsecond, 1000000) == Truncate(ms)
    ensures (Seconds(i) * 1000 + Quotient(i.fsecond, 1000000)) as real == ms <==> ms == ms.Floor as real
  {
    if ms >= 0.0 {
      After1970(i, ms);
    } else {
      Mirrored(i);
      After1970(Negated(i), -ms);
    }
  }
}
