/** The C integer operations that differ from the mathematical ones. */
module CArithmetic {

  // Division truncates toward zero.
  function Quotient(a: int, b: int): (q: int)
    requires b > 0
    ensures a == q * b + Remainder(a, b)
  {
    if a >= 0 then a / b else -((-a) / b)
  }

  // The remainder has the sign of the dividend.
  function Remainder(a: int, b: int): (r: int)
    requires b > 0
    ensures -b < r < b && (a >= 0 ==> r >= 0) && (a <= 0 ==> r <= 0)
  {
    if a >= 0 then a % b else -((-a) % b)
  }

  // A conversion to an unsigned 8-bit integer keeps the low eight bits.
  function ToUint8(a: int): (r: int)
    ensures 0 <= r < 256 && (0 <= a < 256 ==> r == a)
  {
    a % 256
  }

  // A conversion to a signed 8-bit integer keeps the low eight bits in two's complement.
  function ToInt8(a: int): (r: int)
    ensures -128 <= r < 128 && (-128 <= a < 128 ==> r == a)
  {
    if a % 256 < 128 then a % 256 else a % 256 - 256
  }

  // The bitwise complement of a two's complement integer.
  function Complement(a: int): (r: int)
    ensures -128 <= a < 128 ==> -128 <= r < 128
  {
    -a - 1
  }
}
