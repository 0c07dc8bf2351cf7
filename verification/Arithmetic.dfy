/** Integers and exact quotients, shared by the metrics. */
module Arithmetic {
  function Min(a: int, b: int): int {
    if a <= b then a else b
  }

  function Max(a: int, b: int): int {
    if a >= b then a else b
  }

  function Abs(a: int): nat {
    if a >= 0 then a else -a
  }

  lemma Quotient(x: real, y: real, z: real)
    requires y != 0.0 && x == z * y
    ensures x / y == z
  {
  }

  /** Where a part stands to its whole is where their quotient stands to one. */
  lemma Ratio(part: real, whole: real)
    requires 0.0 <= part && whole > 0.0
    ensures 0.0 <= part / whole
    ensures part / whole > 0.0 <==> part > 0.0
    ensures part / whole < 1.0 <==> part < whole
    ensures part / whole == 1.0 <==> part == whole
  {
    var q := part / whole;
    assert q * whole == part;
    assert q < 0.0 ==> q * whole < 0.0;
    assert q >= 1.0 ==> q * whole >= whole;
    assert q > 1.0 ==> q * whole > whole;
    assert q < 1.0 ==> q * whole < whole;
  }
}
