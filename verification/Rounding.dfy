/** Python's `round(x, 4)` and `round(x, 5)`: to the nearest decimal, ties to the even one. */
module Rounding {

  function Min(a: real, b: real): real { if a <= b then a else b }
  function Max(a: real, b: real): real { if a >= b then a else b }

  function RoundHalfEven(y: real): int {
    var f := y.Floor;
    var d := y - f as real;
    if d < 0.5 || (d == 0.5 && f % 2 == 0) then f else f + 1
  }

  function Round4(x: real): real {
    RoundHalfEven(x * 10000.0) as real / 10000.0
  }

  /** The whole number is the nearest one, and of two that are as near the even one. */
  lemma RoundIsNearest(y: real)
    ensures var r := RoundHalfEven(y) as real;
            && y - 0.5 <= r <= y + 0.5
            && ((r == y - 0.5 || r == y + 0.5) ==> RoundHalfEven(y) % 2 == 0)
  {
  }

  /** So a number is moved by at most half of 0.0001, to a multiple of it. */
  lemma Round4Near(x: real) returns (n: int)
    ensures Round4(x) == n as real / 10000.0 && x - 0.00005 <= Round4(x) <= x + 0.00005
  {
    n := RoundHalfEven(x * 10000.0);
  }

  lemma RoundMonotone(x: real, y: real)
    requires x <= y
    ensures RoundHalfEven(x) <= RoundHalfEven(y)
  {
    if x.Floor == y.Floor {
      assert x - x.Floor as real <= y - y.Floor as real;
    } else {
      assert x.Floor + 1 <= y.Floor;
    }
  }

  lemma Round4Monotone(x: real, y: real)
    requires x <= y
    ensures Round4(x) <= Round4(y)
  {
    RoundMonotone(x * 10000.0, y * 10000.0);
  }

  /** A number with at most four decimals is its own rounding. */
  lemma Round4Exact(n: int)
    ensures Round4(n as real / 10000.0) == n as real / 10000.0
  {
    var y := n as real / 10000.0 * 10000.0;
    assert y == n as real;
    assert y.Floor == n;
  }

  /** Rounding keeps a number on its side of a four-decimal bound. */
  lemma {:induction false} Round4Between(lo: int, x: real, hi: int)
    requires lo as real / 10000.0 <= x <= hi as real / 10000.0
    ensures lo as real / 10000.0 <= Round4(x) <= hi as real / 10000.0
  {
    Round4Monotone(lo as real / 10000.0, x);
    Round4Monotone(x, hi as real / 10000.0);
    Round4Exact(lo);
    Round4Exact(hi);
  }

  /** `round(x, 5)` */
  function Round5(x: real): real {
    RoundHalfEven(x * 100000.0) as real / 100000.0
  }

  /** It moves a number by at most half a unit in the fifth place. */
  lemma Round5Near(x: real)
    ensures x - 0.000005 <= Round5(x) <= x + 0.000005
  {
  }

  lemma Round5Unit(x: real)
    requires 0.0 <= x <= 1.0
    ensures 0.0 <= Round5(x) <= 1.0
  {
    assert (0.0).Floor == 0 && (100000.0).Floor == 100000;
    RoundMonotone(0.0, x * 100000.0);
    RoundMonotone(x * 100000.0, 100000.0);
  }
}
