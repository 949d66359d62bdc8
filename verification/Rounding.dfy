/** Round-half-to-even over exact reals, as `round(x)` and `round(x, digits)`. */
module Rounding {

  function RoundHalfEven(x: real): (r: int)
    ensures -0.5 <= r as real - x <= 0.5
    ensures r as real - x == 0.5 || x - r as real == 0.5 ==> r % 2 == 0
  {
    var below := x.Floor;
    var rest := x - below as real;
    if rest < 0.5 || (rest == 0.5 && below % 2 == 0) then below else below + 1
  }

  lemma RoundMonotone(x: real, y: real)
    requires x <= y
    ensures RoundHalfEven(x) <= RoundHalfEven(y)
  {
  }

  lemma RoundOfInteger(n: int)
    ensures RoundHalfEven(n as real) == n
  {
    var r := RoundHalfEven(n as real);
    assert -0.5 <= (r - n) as real <= 0.5;
  }

  /** `round(x, digits)` with `scale == 10^digits`. */
  function RoundTo(x: real, scale: nat): real
    requires scale > 0
  {
    RoundHalfEven(x * scale as real) as real / scale as real
  }

  /** Rounding moves a value by at most half a unit of the last digit. */
  lemma RoundToNear(x: real, scale: nat)
    requires scale > 0
    ensures -0.5 <= (RoundTo(x, scale) - x) * scale as real <= 0.5
  {
    hide RoundHalfEven;
    var k := scale as real;
    var y := x * k;
    var q := RoundHalfEven(y) as real / k;
    DivideCancels(RoundHalfEven(y) as real, k);
    assert (q - x) * k == q * k - y;
  }

  lemma RoundToMonotone(x: real, y: real, scale: nat)
    requires scale > 0 && x <= y
    ensures RoundTo(x, scale) <= RoundTo(y, scale)
  {
    assert x * scale as real <= y * scale as real;
    RoundMonotone(x * scale as real, y * scale as real);
    DivideMonotone(RoundHalfEven(x * scale as real) as real, RoundHalfEven(y * scale as real) as real, scale as real);
  }

  lemma DivideMonotone(a: real, b: real, d: real)
    requires a <= b && d > 0.0
    ensures a / d <= b / d
  {
    assert a / d - b / d == (a - b) / d;
  }

  lemma DivideCancels(a: real, d: real)
    requires d != 0.0
    ensures a / d * d == a
  {
  }

  /** A value that already has at most `digits` decimals is unchanged. */
  lemma RoundToOnGrid(x: real, n: int, scale: nat)
    requires scale > 0 && x * scale as real == n as real
    ensures RoundTo(x, scale) == n as real / scale as real == x
  {
    var y := x * scale as real;
    RoundOfInteger(n);
    assert RoundHalfEven(y) == n;
    assert RoundTo(x, scale) == RoundHalfEven(y) as real / scale as real;
    assert y / scale as real == x;
  }

  lemma RoundToIdempotent(x: real, scale: nat)
    requires scale > 0
    ensures RoundTo(RoundTo(x, scale), scale) == RoundTo(x, scale)
  {
    var n := RoundHalfEven(x * scale as real);
    var q := n as real / scale as real;
    assert q == RoundTo(x, scale);
    DivideCancels(n as real, scale as real);
    assert q * scale as real == n as real;
    RoundToOnGrid(q, n, scale);
  }
}
