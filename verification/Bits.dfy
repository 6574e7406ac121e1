// The bit operators of C on numbers that are not negative, digit by digit, and the
// arithmetic that masks and shifts come to.
module Bits {
  import opened Arithmetic

  function And(a: nat, b: nat): (r: nat)
    ensures r <= a && r <= b
    decreases a
  {
    if a == 0 || b == 0 then 0
    else (if a % 2 == 1 && b % 2 == 1 then 1 else 0) + 2 * And(a / 2, b / 2)
  }

  function Or(a: nat, b: nat): (r: nat)
    decreases a
  {
    if a == 0 then b
    else if b == 0 then a
    else (if a % 2 == 1 || b % 2 == 1 then 1 else 0) + 2 * Or(a / 2, b / 2)
  }

  function Shl(a: nat, k: nat): (r: nat)
    ensures r >= a
    decreases k
  {
    if k == 0 then a else 2 * Shl(a, k - 1)
  }

  function Shr(a: nat, k: nat): nat
    decreases k
  {
    if k == 0 then a else Shr(a / 2, k - 1)
  }

  lemma {:induction false} ShlTimes(a: nat, k: nat)
    ensures Shl(a, k) == a * Shl(1, k)
    decreases k
  {
    if k > 0 {
      ShlTimes(a, k - 1);
      MulAssoc(a, 2, Shl(1, k - 1));
      MulAssoc(2, a, Shl(1, k - 1));
    }
  }

  lemma Powers()
    ensures Shl(1, 18) == 0x40000 && Shl(1, 24) == 0x1000000 && Shl(1, 30) == 0x40000000
  {
    assert Shl(1, 12) == 0x1000;
    assert Shl(1, 15) == 0x8000;
    assert Shl(1, 21) == 0x200000;
    assert Shl(1, 27) == 0x8000000;
  }

  // The operator, with the last digits named.
  lemma AndDigits(a: nat, d: nat, b: nat, e: nat)
    requires d < 2 && e < 2
    ensures And(2 * a + d, 2 * b + e) == 2 * And(a, b) + if d == 1 && e == 1 then 1 else 0
  {
    assert (2 * a + d) / 2 == a && (2 * a + d) % 2 == d;
    assert (2 * b + e) / 2 == b && (2 * b + e) % 2 == e;
  }

  lemma AndOnes(a: nat, k: nat)
    requires k > 0
    ensures And(a, Shl(1, k) - 1) == 2 * And(a / 2, Shl(1, k - 1) - 1) + a % 2
  {
    AndDigits(a / 2, a % 2, Shl(1, k - 1) - 1, 1);
  }

  // A shift and a mask of k ones take a number apart.
  lemma {:induction false} Split(a: nat, k: nat)
    ensures a == Shl(Shr(a, k), k) + And(a, Shl(1, k) - 1)
    decreases k
  {
    if k > 0 {
      Split(a / 2, k - 1);
      AndOnes(a, k);
    }
  }

  // So they are quotient and remainder.
  lemma ShiftAndMask(a: nat, k: nat, m: nat)
    requires m == Shl(1, k)
    ensures Shr(a, k) == a / m && And(a, m - 1) == a % m
  {
    Split(a, k);
    ShlTimes(Shr(a, k), k);
    Parts(a, m, Shr(a, k), And(a, m - 1));
  }

  lemma Parts(a: nat, m: nat, q: nat, r: nat)
    requires r < m && a == q * m + r
    ensures a / m == q && a % m == r
  {
    DivModUnique(a, m, q, r);
  }

  // Zeros at the low end of a mask clear the low end of a number.
  lemma {:induction false} AndHigh(a: nat, m: nat, k: nat)
    ensures And(a, Shl(m, k)) == Shl(And(Shr(a, k), m), k)
    decreases k
  {
    if k > 0 {
      AndDigits(a / 2, a % 2, Shl(m, k - 1), 0);
      AndHigh(a / 2, m, k - 1);
    }
  }

  // A field in the middle of a number, left where it is.
  lemma AndField(a: nat, k: nat, d: nat, j: nat, m: nat, mask: nat)
    requires d == Shl(1, k) && m == Shl(1, j) && mask == Shl(m - 1, k)
    ensures And(a, mask) == a / d % m * d
  {
    AndHigh(a, m - 1, k);
    ShiftAndMask(a, k, d);
    ShiftAndMask(a / d, j, m);
    ShlTimes(a / d % m, k);
  }

  // Fields that do not overlap are joined by adding them.
  lemma {:induction false} OrDisjoint(a: nat, b: nat, k: nat)
    requires b < Shl(1, k)
    ensures Or(Shl(a, k), b) == Shl(a, k) + b && Or(b, Shl(a, k)) == Shl(a, k) + b
    decreases k
  {
    if k > 0 {
      OrDisjoint(a, b / 2, k - 1);
    }
  }

  // ---------------------------------------------------------------------------
  // The operators bit by bit
  // ---------------------------------------------------------------------------

  predicate Bit(n: nat, k: nat)
    decreases k
  {
    if k == 0 then n % 2 == 1 else Bit(n / 2, k - 1)
  }

  lemma {:induction false} NoBits(k: nat)
    ensures !Bit(0, k)
    decreases k
  {
    if k > 0 {
      NoBits(k - 1);
    }
  }

  lemma {:induction false} AndBit(a: nat, b: nat, k: nat)
    ensures Bit(And(a, b), k) <==> Bit(a, k) && Bit(b, k)
    decreases k
  {
    NoBits(k);
    if a > 0 && b > 0 {
      AndDigits(a / 2, a % 2, b / 2, b % 2);
      if k > 0 { AndBit(a / 2, b / 2, k - 1); }
    }
  }

  lemma {:induction false} OrBit(a: nat, b: nat, k: nat)
    ensures Bit(Or(a, b), k) <==> Bit(a, k) || Bit(b, k)
    decreases k
  {
    NoBits(k);
    if a > 0 && b > 0 {
      var d := if a % 2 == 1 || b % 2 == 1 then 1 else 0;
      assert Or(a, b) == d + 2 * Or(a / 2, b / 2);
      assert Or(a, b) / 2 == Or(a / 2, b / 2) && Or(a, b) % 2 == d;
      if k > 0 { OrBit(a / 2, b / 2, k - 1); }
    }
  }

  lemma {:induction false} ShlBit(a: nat, k: nat, j: nat)
    ensures Bit(Shl(a, k), j) <==> j >= k && Bit(a, j - k)
    decreases k
  {
    if k > 0 {
      assert Shl(a, k) / 2 == Shl(a, k - 1) && Shl(a, k) % 2 == 0;
      if j > 0 { ShlBit(a, k - 1, j - 1); }
    }
  }

  lemma {:induction false} ShrBit(a: nat, k: nat, j: nat)
    ensures Bit(Shr(a, k), j) <==> Bit(a, j + k)
    decreases k
  {
    if k > 0 {
      ShrBit(a / 2, k - 1, j);
    }
  }

  // Numbers with the same bits are the same.
  lemma {:induction false} SameBits(a: nat, b: nat)
    requires forall k: nat :: Bit(a, k) == Bit(b, k)
    ensures a == b
    decreases a + b
  {
    assert Bit(a, 0) == Bit(b, 0);
    if a > 0 || b > 0 {
      forall k: nat
        ensures Bit(a / 2, k) == Bit(b / 2, k)
      {
        assert Bit(a, k + 1) == Bit(b, k + 1);
      }
      SameBits(a / 2, b / 2);
    }
  }
}
