// Division, remainders and the greatest common divisor: the number facts the
// other modules share.
module Arithmetic {

  // A quotient and a remainder in range are the only ones.
  lemma DivModUnique(u: int, m: int, q: int, r: int)
    requires m > 0 && u == m * q + r && 0 <= r < m
    ensures u / m == q && u % m == r
  {
    var d := u / m - q;
    assert m * d == m * (u / m) - m * q == r - u % m;
    if d >= 1 {
      MulMonotone(m, 1, d);
    } else if d <= -1 {
      MulMonotone(m, d, -1);
    }
  }

  lemma MulMonotone(m: int, a: int, b: int)
    requires m >= 0 && a <= b
    ensures m * a <= m * b
  {
  }

  // Adding a multiple of the modulus does not change the remainder.
  lemma ModAddMultiple(a: int, m: int, k: int)
    requires m > 0
    ensures (a + m * k) % m == a % m
  {
    assert a + m * k == m * (a / m + k) + a % m;
    DivModUnique(a + m * k, m, a / m + k, a % m);
  }

  lemma ModSmall(a: nat, m: nat)
    requires a < m
    ensures a % m == a
  {
    DivModUnique(a, m, 0, a);
  }

  // Division with its two results named, so that a proof can go on without them.
  lemma Euclid(a: int, m: int) returns (q: int, r: int)
    requires m > 0
    ensures a == m * q + r && 0 <= r < m && r == a % m
    ensures a >= 0 ==> q >= 0
  {
    q, r := a / m, a % m;
  }

  // The same product of three factors and its cancellation.
  lemma MulAssoc(a: int, b: int, c: int)
    ensures (a * b) * c == a * (b * c)
    ensures a * b == b * a
  {
  }

  lemma MulNext(a: int, b: int)
    ensures a * (b + 1) == a * b + a
  {
  }

  lemma MulCancel(g: int, a: int, b: int)
    requires g > 0 && g * a == g * b
    ensures a == b
  {
    if a < b {
      MulMonotone(g, a + 1, b);
    } else if b < a {
      MulMonotone(g, b + 1, a);
    }
  }

  lemma ModAdd(a: int, b: int, m: int)
    requires m > 0
    ensures (a % m + b) % m == (a + b) % m
  {
    assert a + b == (a % m + b) + m * (a / m);
    ModAddMultiple(a % m + b, m, a / m);
  }

  // Equal remainders differ by a multiple of the modulus.
  lemma ModEqual(a: int, b: int, m: int) returns (k: int)
    requires m > 0 && a % m == b % m
    ensures a == b + m * k
  {
    var p, r := Euclid(a, m);
    var q, _ := Euclid(b, m);
    k := p - q;
  }

  // The six-bit groups of a number, and the masks and shifts that read them.
  lemma SixBitGroups(u: nat) returns (q: nat, r3: nat, r2: nat, r1: nat, r0: nat)
    ensures u == q * 0x1000000 + r3 * 0x40000 + r2 * 0x1000 + r1 * 0x40 + r0
    ensures r3 < 0x40 && r2 < 0x40 && r1 < 0x40 && r0 < 0x40
    ensures u % 0x40 == r0 && u / 0x40 % 0x40 == r1 && u / 0x1000 % 0x40 == r2
    ensures u / 0x40000 % 0x40 == r3 && u / 0x1000000 == q
    ensures u / 0x40000 == 0x40 * q + r3
    ensures u / 0x1000 == 0x1000 * q + 0x40 * r3 + r2
    ensures u / 0x40 == 0x40000 * q + 0x1000 * r3 + 0x40 * r2 + r1
  {
    r0 := u % 0x40;
    var q1 := u / 0x40;
    r1 := q1 % 0x40;
    var q2 := q1 / 0x40;
    r2 := q2 % 0x40;
    var q3 := q2 / 0x40;
    r3 := q3 % 0x40;
    q := q3 / 0x40;
    DivModUnique(u, 0x1000, q2, r1 * 0x40 + r0);
    DivModUnique(u, 0x40000, q3, r2 * 0x1000 + r1 * 0x40 + r0);
    DivModUnique(u, 0x1000000, q, r3 * 0x40000 + r2 * 0x1000 + r1 * 0x40 + r0);
  }

  ghost predicate Divides(d: int, a: int) {
    exists k :: a == d * k
  }

  // Euclid's algorithm; Gcd(n, 0) == n.
  function Gcd(a: nat, b: nat): (g: nat)
    requires a > 0
    ensures g > 0
    decreases b
  {
    if b == 0 then a else Gcd(b, a % b)
  }

  // Gcd divides both numbers, with the cofactors as witnesses.
  lemma {:induction false} GcdDivides(a: nat, b: nat) returns (p: nat, q: nat)
    requires a > 0
    ensures a == Gcd(a, b) * p && b == Gcd(a, b) * q
    decreases b
  {
    if b == 0 {
      p, q := 1, 0;
    } else {
      var k, r := Euclid(a, b);
      var p', q' := GcdDivides(b, r);
      p, q := p' * k + q', p';
      CollectFactor(Gcd(a, b), p', k, q');
    }
  }

  lemma CollectFactor(g: nat, p: nat, k: nat, q: nat)
    ensures (g * p) * k + g * q == g * (p * k + q)
  {
  }

  // Bezout: Gcd is an integer combination of the two numbers, so every common
  // divisor divides it.
  lemma {:induction false} GcdBezout(a: nat, b: nat) returns (x: int, y: int)
    requires a > 0
    ensures Gcd(a, b) == a * x + b * y
    decreases b
  {
    if b == 0 {
      x, y := 1, 0;
    } else {
      var k, r := Euclid(a, b);
      var x', y' := GcdBezout(b, r);
      x, y := y', x' - y' * k;
      assert b * x' + (a - b * k) * y' == a * x + b * y;
    }
  }

  lemma GcdIsGreatest(a: nat, b: nat, d: int)
    requires a > 0
    ensures Divides(Gcd(a, b), a) && Divides(Gcd(a, b), b)
    ensures Divides(d, a) && Divides(d, b) ==> Divides(d, Gcd(a, b))
  {
    var p, q := GcdDivides(a, b);
    var x, y := GcdBezout(a, b);
    if Divides(d, a) && Divides(d, b) {
      var i :| a == d * i;
      var j :| b == d * j;
      assert Gcd(a, b) == d * (i * x + j * y) by {
        assert d * i * x + d * j * y == d * (i * x + j * y);
      }
    }
  }
}
