/** Powers of two and bitwise operations, bit by bit. */
module Bits {
  import opened Arithmetic
  import opened Bytes

  function Pow2(k: nat): (r: nat)
    ensures r >= 1
  {
    if k == 0 then 1 else 2 * Pow2(k - 1)
  }

  predicate Bit(w: nat, k: nat) {
    if k == 0 then w % 2 == 1 else Bit(w / 2, k - 1)
  }

  function Or(a: nat, b: nat): nat
    decreases a + b
  {
    if a == 0 && b == 0 then 0
    else (if a % 2 == 1 || b % 2 == 1 then 1 else 0) + 2 * Or(a / 2, b / 2)
  }

  function And(a: nat, b: nat): nat {
    if a == 0 || b == 0 then 0
    else (if a % 2 == 1 && b % 2 == 1 then 1 else 0) + 2 * And(a / 2, b / 2)
  }

  lemma {:induction false} ZeroBits(k: nat)
    ensures !Bit(0, k)
  {
    if k > 0 { ZeroBits(k - 1); }
  }

  lemma {:induction false} OrBits(a: nat, b: nat, k: nat)
    ensures Bit(Or(a, b), k) <==> Bit(a, k) || Bit(b, k)
  {
    if a == 0 && b == 0 {
      ZeroBits(k);
    } else {
      var rest := Or(a / 2, b / 2);
      assert Or(a, b) / 2 == rest;
      if k > 0 { OrBits(a / 2, b / 2, k - 1); }
    }
  }

  lemma {:induction false} PowerBits(k: nat, j: nat)
    ensures Bit(Pow2(k), j) <==> j == k
  {
    if k == 0 {
      if j > 0 { ZeroBits(j - 1); }
    } else {
      assert Pow2(k) / 2 == Pow2(k - 1);
      if j > 0 { PowerBits(k - 1, j - 1); }
    }
  }

  lemma {:induction false} OrBound(a: nat, b: nat, n: nat)
    requires a < Pow2(n) && b < Pow2(n)
    ensures Or(a, b) < Pow2(n)
  {
    if a != 0 || b != 0 { OrBound(a / 2, b / 2, n - 1); }
  }

  /** Masking a single bit is non-zero exactly when the bit is set. */
  lemma {:induction false} MaskBit(w: nat, k: nat)
    ensures And(w, Pow2(k)) != 0 <==> Bit(w, k)
  {
    if w == 0 {
      ZeroBits(k);
    } else if k == 0 {
      assert And(w, 1) == w % 2 + 2 * And(w / 2, 0);
    } else {
      assert Pow2(k) / 2 == Pow2(k - 1);
      MaskBit(w / 2, k - 1);
    }
  }

  lemma {:induction false} SmallPower(k: nat, n: nat)
    requires k < n
    ensures Pow2(k) < Pow2(n)
  {
    assert Pow2(n) == 2 * Pow2(n - 1);
    if k + 1 < n { SmallPower(k, n - 1); }
  }

  lemma {:induction false} AllOnes(n: nat, k: nat)
    requires k < n
    ensures Bit(Pow2(n) - 1, k)
  {
    assert (Pow2(n) - 1) / 2 == Pow2(n - 1) - 1;
    if k > 0 { AllOnes(n - 1, k - 1); }
  }

  lemma PowEight(k: nat)
    ensures Pow2(k + 8) == 256 * Pow2(k)
  {
    assert Pow2(k + 8) == 2 * Pow2(k + 7) && Pow2(k + 7) == 2 * Pow2(k + 6) && Pow2(k + 6) == 2 * Pow2(k + 5);
    assert Pow2(k + 5) == 2 * Pow2(k + 4) && Pow2(k + 4) == 2 * Pow2(k + 3) && Pow2(k + 3) == 2 * Pow2(k + 2);
    assert Pow2(k + 2) == 2 * Pow2(k + 1) && Pow2(k + 1) == 2 * Pow2(k);
  }

  lemma WordSize()
    ensures Pow2(64) == U64
  {
    assert Pow2(0) == 1;
    hide Pow2;
    PowEight(0);
    PowEight(8);
    PowEight(16);
    PowEight(24);
    PowEight(32);
    PowEight(40);
    PowEight(48);
    PowEight(56);
  }

  lemma {:induction false} OrZero(a: nat)
    ensures Or(a, 0) == a
  {
    if a > 0 { OrZero(a / 2); }
  }

  lemma OrStep(a: nat, b: nat)
    ensures Or(a, b) == (if a % 2 == 1 || b % 2 == 1 then 1 else 0) + 2 * Or(a / 2, b / 2)
  {
  }

  lemma OrLow(m: nat, low: nat)
    requires low < 2
    ensures Or(2 * m, low) == 2 * m + low
  {
    hide Or;
    OrStep(2 * m, low);
    OrZero(m);
  }

  /** Or-ing fields that share no bit is adding them: three low bits below a multiple of eight. */
  lemma OrFields(m: nat, low: nat, middle: nat)
    requires low < 2 && middle in {0, 2, 4}
    ensures Or(Or(8 * m, low), middle) == 8 * m + low + middle
  {
    hide Or;
    OrLow(4 * m, low);
    OrStep(8 * m + low, middle);
    OrStep(4 * m, middle / 2);
    OrLow(m, middle / 4);
  }

  /** Masking the low bits of a word. */
  lemma AndFields(w: nat)
    ensures And(w, 1) == w % 2 && And(w, 6) == w / 2 % 4 * 2
  {
    AndEven(w, 3);
    assert And(w / 2, 3) == w / 2 % 2 + 2 * And(w / 4, 1);
    assert And(w / 4, 1) == w / 4 % 2;
  }

  lemma {:induction false} AndOnes(x: nat, n: nat)
    requires x < Pow2(n)
    ensures And(x, Pow2(n) - 1) == x
  {
    if x > 0 {
      assert (Pow2(n) - 1) / 2 == Pow2(n - 1) - 1;
      AndOnes(x / 2, n - 1);
    }
  }

  /** Clearing the low `k` bits rounds down to a multiple of a power of two. */
  lemma {:induction false} MaskRoundsDown(x: nat, k: nat, n: nat)
    requires x < Pow2(n) && k <= n
    ensures Pow2(k) <= Pow2(n) && And(x, Pow2(n) - Pow2(k)) == AlignDown(x, Pow2(k))
  {
    if k < n { SmallPower(k, n); }
    if k == 0 {
      AndOnes(x, n);
    } else {
      assert Pow2(n) == 2 * Pow2(n - 1) && Pow2(k) == 2 * Pow2(k - 1);
      hide And, Pow2, AlignDown;
      MaskRoundsDown(x / 2, k - 1, n - 1);
      AndEven(x, Pow2(n - 1) - Pow2(k - 1));
      AlignDownTwice(x, Pow2(k - 1));
    }
  }

  lemma {:induction false} AndEven(x: nat, m: nat)
    ensures And(x, 2 * m) == 2 * And(x / 2, m)
  {
  }
}
