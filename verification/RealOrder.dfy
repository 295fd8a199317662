/** Sums and products of reals. */
module RealOrder {

  function Max(a: real, b: real): real {
    if a >= b then a else b
  }

  function Abs(a: real): real {
    if a >= 0.0 then a else -a
  }

  function Sum(s: seq<real>): real {
    if s == [] then 0.0 else Sum(s[..|s| - 1]) + s[|s| - 1]
  }

  lemma Positive(a: real, b: real)
    requires a > 0.0 && b > 0.0
    ensures a * b > 0.0
  {
  }

  lemma Ordered(x: real, y: real, b: real)
    requires b > 0.0
    ensures x * b <= y * b <==> x <= y
  {
    if x > y {
      Positive(x - y, b);
    } else if y > x {
      Positive(y - x, b);
    }
  }

  lemma ProductGrows(a: real, b: real, c: real, d: real)
    requires 0.0 <= a <= c && 0.0 <= b <= d
    ensures 0.0 <= a * b <= c * d
  {
    assert 0.0 <= a * b <= c * b <= c * d;
  }

  lemma SquareOrder(a: real, b: real)
    requires a >= 0.0 && b >= 0.0 && a * a <= b * b
    ensures a <= b
  {
    if a > b {
      Positive(a - b, a + b);
    }
  }

  lemma QuotientOrder(x: real, y: real, width: real)
    requires x <= y && width > 0.0
    ensures x / width <= y / width
  {
    assert x / width * width == x && y / width * width == y;
    Ordered(x / width, y / width, width);
  }
}
