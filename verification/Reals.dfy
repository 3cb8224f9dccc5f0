/** Products of reals behind a name, so that equal factors give equal products without non-linear search. */
module Reals {

  function Mul(a: real, b: real): real { a * b }

  /** `r` is what `std::sqrt(v)` returns, with exact arithmetic. */
  predicate IsRoot(v: real, r: real) {
    r >= 0.0 && r * r == v
  }

  function Abs(v: real): real { if v < 0.0 then -v else v }

  lemma Positive(a: real, b: real)
    requires a > 0.0 && b > 0.0
    ensures Mul(a, b) > 0.0
  {
  }

  lemma SquaresGrow(a: real, b: real)
    requires 0.0 <= a < b
    ensures Mul(a, a) < Mul(b, b)
  {
    Positive(b - a, b + a);
    assert (b - a) * (b + a) == b * b - a * a;
  }

  lemma RootOfOne(r: real)
    requires IsRoot(1.0, r)
    ensures r == 1.0
  {
    if r < 1.0 {
      SquaresGrow(r, 1.0);
    } else if r > 1.0 {
      SquaresGrow(1.0, r);
    }
  }

  lemma Distribute(a: real, b: real, m: real)
    ensures Mul(a + b, m) == Mul(a, m) + Mul(b, m)
  {
  }

  lemma SquareOfProduct(u: real, m: real)
    ensures Mul(Mul(u, m), Mul(u, m)) == Mul(Mul(u, u), Mul(m, m))
  {
  }

  lemma Cancel(a: real, m: real)
    requires m > 0.0 && Mul(a, m) == m
    ensures a == 1.0
  {
  }

  lemma UnitFactors(x: real, y: real, m: real, u: real, v: real)
    requires Mul(x, x) + Mul(y, y) == Mul(m, m) && m > 0.0
    requires x == Mul(u, m) && y == Mul(v, m)
    ensures Mul(u, u) + Mul(v, v) == 1.0
  {
    SquareOfProduct(u, m);
    SquareOfProduct(v, m);
    Positive(m, m);
    Distribute(Mul(u, u), Mul(v, v), Mul(m, m));
    Cancel(Mul(u, u) + Mul(v, v), Mul(m, m));
  }

  lemma DivideBack(x: real, m: real)
    requires m != 0.0
    ensures x == Mul(x / m, m)
  {
  }

  /** Dividing a vector by its length leaves a unit vector. */
  lemma Normalised(x: real, y: real, m: real)
    requires IsRoot(x * x + y * y, m) && m > 0.0
    ensures (x / m) * (x / m) + (y / m) * (y / m) == 1.0
  {
    DivideBack(x, m);
    DivideBack(y, m);
    UnitFactors(x, y, m, x / m, y / m);
  }
}
