/** Integer arithmetic shared by the fill renderer and the reminder timer. */
module PyArith {

  /** Python's `int(x)` on the exact quotient `a / b`: truncation toward zero. */
  function TruncDiv(a: int, b: int): int
    requires b > 0
  {
    if a >= 0 then a / b else -((-a) / b)
  }

  lemma MulLeft(h: nat, a: int, b: int)
    requires a <= b
    ensures h * a <= h * b
  {
    var k := b - a;
    assert h * b == h * a + h * k;
  }

  lemma DivMonotone(a: nat, b: nat, d: nat)
    requires a <= b && d > 0
    ensures a / d <= b / d
  {
    var qa, qb := a / d, b / d;
    if qa > qb {
      MulLeft(d, qb + 1, qa);
      assert false;
    }
  }
}
