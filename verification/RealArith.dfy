/** Single steps of real arithmetic that the solver needs spelled out. */
module RealArith {

  lemma SquareNonNegative(x: real)
    ensures x * x >= 0.0
  {
  }

  // Products under a name: the solver does not reliably relate two occurrences of x * y.
  lemma PositiveProduct(x: real, y: real, z: real)
    requires x > 0.0 && y > 0.0 && z == x * y
    ensures z > 0.0
  {
  }

  lemma NegativeProduct(x: real, y: real, z: real)
    requires x < 0.0 && y < 0.0 && z == x * y
    ensures z > 0.0
  {
    PositiveProduct(-x, -y, z);
  }

  lemma SquareZero(x: real, square: real)
    requires square == x * x && square <= 0.0
    ensures x == 0.0
  {
    if x > 0.0 {
      PositiveProduct(x, x, square);
    } else if x < 0.0 {
      NegativeProduct(x, x, square);
    }
  }

  lemma ProductPositive(x: real, y: real)
    requires x > 0.0 && y > 0.0
    ensures x * y > 0.0
  {
  }

  lemma ProductMonotone(x: real, y: real, z: real)
    requires x <= y && z >= 0.0
    ensures x * z <= y * z
  {
  }

  lemma SquareMonotone(x: real, y: real)
    requires x * x <= y * y && y >= 0.0
    ensures -y <= x <= y
  {
    assert (x - y) * (x + y) == x * x - y * y;
    assert (-x - y) * (-x + y) == x * x - y * y;
    if x > y {
      ProductPositive(x - y, x + y);
    } else if x < -y {
      ProductPositive(-x - y, -x + y);
    }
  }

  lemma DivLe(a: real, b: real, c: real)
    requires b > 0.0
    ensures a / b <= c <==> a <= c * b
  {
    var x := a / b;
    assert x * b == a;
    if x <= c { ProductMonotone(x, c, b); } else { ProductPositive(x - c, b); }
  }

  lemma LeDiv(a: real, b: real, c: real)
    requires c > 0.0
    ensures a <= b / c <==> a * c <= b
  {
    var x := b / c;
    assert x * c == b;
    if a <= x { ProductMonotone(a, x, c); } else { ProductPositive(a - x, c); }
  }

  lemma QuotientOfItself(x: real)
    requires x != 0.0
    ensures x / x == 1.0
  {
  }
}
