/** Python's `round(x, digits)` on an exact value. */
module Rounding {

  /** 10 to the power `d`, as a real. */
  function Pow10(d: nat): (r: real)
    ensures r >= 1.0
  {
    if d == 0 then 1.0 else 10.0 * Pow10(d - 1)
  }

  /** The integer nearest to `y`; a tie goes to the even neighbour. */
  function NearestInt(y: real): (n: int)
    ensures y - 0.5 <= n as real <= y + 0.5
    ensures y <= 0.0 ==> n <= 0
  {
    var whole := y.Floor;
    var excess := y - whole as real;
    if excess < 0.5 then whole
    else if excess > 0.5 then whole + 1
    else if whole % 2 == 0 then whole
    else whole + 1
  }

  /** Dividing by a positive scale keeps a distance bound, scaled. */
  lemma DivideBound(n: real, y: real, scale: real)
    requires scale > 0.0
    requires y - 0.5 <= n <= y + 0.5
    ensures y / scale - 0.5 / scale <= n / scale <= y / scale + 0.5 / scale
  {
    assert n / scale - y / scale == (n - y) / scale;
    assert (n - y) / scale <= 0.5 / scale;
    assert -(0.5 / scale) <= (n - y) / scale;
  }

  /** Python's `round(x, digits)`: the multiple of 10^-digits nearest to `x`,
      a tie going to the even multiple. It moves a value by at most half a
      unit in the last kept digit, and never makes a non-positive value
      positive. */
  function Round(x: real, digits: nat): (r: real)
    ensures x - 0.5 / Pow10(digits) <= r <= x + 0.5 / Pow10(digits)
    ensures x <= 0.0 ==> r <= 0.0
  {
    var scale := Pow10(digits);
    var scaled := x * scale;
    var nearest := NearestInt(scaled) as real;
    assert scaled / scale == x;
    DivideBound(nearest, scaled, scale);
    nearest / scale
  }

  /** Rounding to cents moves a value by at most half a cent. */
  lemma CentBound(y: real)
    ensures y - 0.005 <= Round(y, 2) <= y + 0.005
  {
    assert Pow10(2) == 100.0;
  }

  /** Rounding to four decimals moves a value by at most 0.00005. */
  lemma FourDigitBound(y: real)
    ensures y - 0.00005 <= Round(y, 4) <= y + 0.00005
  {
    assert Pow10(4) == 10000.0;
  }
}
