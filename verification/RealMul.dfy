/** Products of reals, one step at a time. */
module RealMul {
  lemma NonNegative(x: real, y: real)
    requires 0.0 <= x && 0.0 <= y
    ensures 0.0 <= x * y
  {}

  lemma Positive(x: real, y: real)
    requires 0.0 < x && 0.0 < y
    ensures 0.0 < x * y
  {}

  lemma Monotone(x: real, y: real, z: real)
    requires x <= y && 0.0 <= z
    ensures x * z <= y * z && z * x <= z * y
  {
    NonNegative(y - x, z);
    assert (y - x) * z == y * z - x * z;
  }

  lemma StrictlyMonotone(x: real, y: real, z: real)
    requires x < y && 0.0 < z
    ensures x * z < y * z && z * x < z * y
  {
    Positive(y - x, z);
    assert (y - x) * z == y * z - x * z;
  }

  lemma Shrinks(x: real, y: real)
    requires 0.0 <= x && y <= 1.0
    ensures x * y <= x
  {
    NonNegative(x, 1.0 - y);
    assert x * (1.0 - y) == x - x * y;
  }
}
