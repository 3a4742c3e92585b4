/** Multiples, quotients and remainders. */
module Arithmetic {
  function Min(a: nat, b: nat): nat {
    if a < b then a else b
  }

  lemma MulMod(q: nat, unit: nat)
    requires unit > 0
    ensures q * unit % unit == 0 && q * unit / unit == q
  {
    DivUnique(q * unit, unit, q, 0);
  }

  lemma MulAtLeast(k: int, unit: nat)
    ensures k >= 1 ==> k * unit >= unit
    ensures k <= -1 ==> k * unit + unit <= 0
  {
  }

  /** Quotient and remainder are unique. */
  lemma DivUnique(x: nat, unit: nat, q: int, r: nat)
    requires r < unit && x == q * unit + r
    ensures x / unit == q && x % unit == r
  {
    var d := x / unit;
    assert (q - d) * unit == x % unit - r;
    MulAtLeast(q - d, unit);
  }

  lemma MulMonotone(a: nat, b: nat, c: nat)
    requires a <= b
    ensures a * c <= b * c
  {
  }

  /** The greatest multiple of `unit` not above the value. */
  function AlignDown(value: nat, unit: nat): (r: nat)
    requires unit > 0
    ensures r <= value < r + unit
    ensures value % unit == 0 ==> r == value
  {
    value - value % unit
  }

  lemma AlignDownDivides(value: nat, unit: nat)
    requires unit > 0
    ensures AlignDown(value, unit) == value / unit * unit
  {
  }

  lemma AlignDownTwice(value: nat, unit: nat)
    requires unit > 0
    ensures 2 * AlignDown(value / 2, unit) == AlignDown(value, 2 * unit)
  {
    var q, r := value / (2 * unit), value % (2 * unit);
    assert value == q * (2 * unit) + r;
    assert value / 2 == q * unit + r / 2;
    DivUnique(value / 2, unit, q, r / 2);
  }
}
