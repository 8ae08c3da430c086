/** Powers, quotients and bitwise operations on natural numbers. */
module Powers {

  function Pow(b: nat, e: nat): (r: nat)
    ensures b > 0 ==> r > 0
  {
    if e == 0 then 1 else Times(b, Pow(b, e - 1))
  }

  function Times(x: nat, y: nat): (r: nat)
    ensures r == x * y
    ensures x > 0 && y > 0 ==> r > 0
  {
    x * y
  }

  function Quotient(x: nat, d: nat): (r: nat)
    requires d > 0
    ensures r == x / d
  {
    x / d
  }

  lemma Assoc(x: int, y: int, z: int)
    ensures x * (y * z) == (x * y) * z
  {
  }

  lemma Spread(x: int, y: int, z: int)
    ensures (x + y) * z == x * z + y * z
    ensures (x - y) * z == x * z - y * z
  {
  }

  lemma AtLeast(k: int, d: int)
    requires k >= 1 && d >= 0
    ensures k * d >= d
  {
    assert (k - 1) * d >= 0;
    Spread(k, 1, d);
  }

  lemma Scale(k: nat, x: int, y: int)
    requires x <= y
    ensures k * x <= k * y
  {
    assert k * (y - x) >= 0;
  }

  lemma StrictScale(k: nat, x: int, y: int)
    requires k > 0 && x < y
    ensures x * k < y * k
  {
    Spread(y, x, k);
    AtLeast(y - x, k);
  }

  lemma {:induction false} PowAdd(b: nat, m: nat, n: nat)
    ensures Pow(b, m + n) == Pow(b, m) * Pow(b, n)
  {
    if m > 0 {
      PowAdd(b, m - 1, n);
      Assoc(b, Pow(b, m - 1), Pow(b, n));
    }
  }

  lemma {:induction false} PowMul(b: nat, m: nat, n: nat)
    ensures Pow(Pow(b, m), n) == Pow(b, m * n)
  {
    if n > 0 {
      PowMul(b, m, n - 1);
      assert m * n == m + m * (n - 1);
      PowAdd(b, m, m * (n - 1));
    }
  }

  lemma Pow8()
    ensures Pow(2, 8) == 256
  {
  }

  lemma Pow32And64()
    ensures Pow(2, 32) == 0x1_0000_0000 && Pow(2, 64) == 0x1_0000_0000_0000_0000
  {
    hide Pow;
    Pow8();
    PowAdd(2, 8, 8);
    PowAdd(2, 16, 16);
    PowAdd(2, 32, 32);
  }

  lemma PowStep(b: nat, n: nat)
    ensures Pow(b, n + 1) == b * Pow(b, n)
  {
  }

  lemma {:induction false} PowMono(b: nat, m: nat, n: nat)
    requires b >= 1 && m <= n
    ensures Pow(b, m) <= Pow(b, n)
  {
    if m < n {
      PowMono(b, m, n - 1);
      AtLeast(b, Pow(b, n - 1));
    }
  }

  lemma {:induction false} PowBase(a: nat, b: nat, n: nat)
    requires a < b && n >= 1
    ensures Pow(a, n) < Pow(b, n)
  {
    if n > 1 {
      PowBase(a, b, n - 1);
      var x, y := Pow(a, n - 1), Pow(b, n - 1);
      assert a * x <= a * y by { Scale(a, x, y); }
      assert a * y < b * y by { assert (b - a) * y > 0; }
    }
  }

  /** Only one quotient and remainder fit. */
  lemma QuotientIs(x: nat, d: nat, q: int, r: int)
    requires d > 0 && x == q * d + r && 0 <= r < d
    ensures x / d == q && x % d == r
  {
    var q', r' := x / d, x % d;
    Spread(q, q', d);
    if q > q' {
      AtLeast(q - q', d);
    } else if q < q' {
      Spread(q', q, d);
      AtLeast(q' - q, d);
    }
  }

  /** Adding multiples of d does not change a remainder. */
  lemma SameRemainder(x: nat, y: nat, d: nat, k: int)
    requires d > 0 && y == x + k * d
    ensures y % d == x % d
  {
    var q, r := x / d, x % d;
    assert y == (q + k) * d + r;
    QuotientIs(y, d, q + k, r);
  }

  /** Dividing twice is dividing by the product. */
  lemma QuotientTwice(x: nat, c: nat, d: nat)
    requires c > 0 && d > 0
    ensures c * d > 0 && x / c / d == x / (c * d)
  {
    var q, r := x / c, x % c;
    var q', r' := q / d, q % d;
    assert x == q * c + r && q == q' * d + r';
    Spread(q' * d, r', c);
    Assoc(q', d, c);
    Spread(d, r', c);
    AtLeast(d - r', c);
    assert 0 <= r' * c;
    AtLeast(c, d);
    QuotientIs(x, c * d, q', r' * c + r);
  }

  /** Common factors cancel. */
  lemma Cancel(x: nat, c: nat, d: nat)
    requires c > 0 && d > 0
    ensures c * d > 0 && x * c / (c * d) == x / d && x * c % (c * d) == x % d * c
  {
    var q, r := x / d, x % d;
    assert x == q * d + r;
    Spread(q * d, r, c);
    Assoc(q, d, c);
    Spread(d, r, c);
    AtLeast(d - r, c);
    AtLeast(c, d);
    assert r * c >= 0;
    QuotientIs(x * c, c * d, q, r * c);
  }

  /** A digit of a remainder is a digit of the number. */
  lemma DigitOfRemainder(x: nat, a: nat, b: nat)
    requires a > 0 && b > 0
    ensures a * b > 0 && x % (a * b) / a == x / a % b
  {
    AtLeast(a, b);
    var q, r := x / a / b, x / a % b;
    assert x / a == q * b + r;
    Spread(q * b, r, a);
    Assoc(q, b, a);
    assert x == x / a * a + x % a;
    Spread(b, r, a);
    AtLeast(b - r, a);
    assert r * a >= 0;
    QuotientIs(x, a * b, q, r * a + x % a);
    QuotientIs(r * a + x % a, a, r, x % a);
  }

  // ----- bitwise operations -----

  function BitOr(x: nat, y: nat): nat
  {
    if x == 0 then y else if y == 0 then x
    else 2 * BitOr(x / 2, y / 2) + (if x % 2 == 1 || y % 2 == 1 then 1 else 0)
  }

  function BitAnd(x: nat, y: nat): nat
  {
    if x == 0 || y == 0 then 0
    else 2 * BitAnd(x / 2, y / 2) + (if x % 2 == 1 && y % 2 == 1 then 1 else 0)
  }

  predicate TestBit(x: nat, n: nat) { x / Pow(2, n) % 2 == 1 }

  /** Numbers with no bit in common: or is sum. */
  lemma {:induction false} OrDisjoint(x: nat, y: nat, n: nat)
    requires x % Pow(2, n) == 0 && y < Pow(2, n)
    ensures BitOr(x, y) == BitOr(y, x) == x + y
  {
    if n > 0 && x > 0 && y > 0 {
      var p := Pow(2, n - 1);
      assert Pow(2, n) == 2 * p;
      var q := x / (2 * p);
      assert x == q * (2 * p) == 2 * (q * p);
      assert x / 2 == q * p;
      QuotientIs(x / 2, p, q, 0);
      OrDisjoint(x / 2, y / 2, n - 1);
    }
  }

  /** Or-ing in a bit that is clear adds it. */
  lemma {:induction false} OrClearBit(x: nat, n: nat)
    requires !TestBit(x, n)
    ensures BitOr(x, Pow(2, n)) == x + Pow(2, n)
  {
    if n > 0 {
      QuotientTwice(x, 2, Pow(2, n - 1));
      OrClearBit(x / 2, n - 1);
    } else {
      assert Pow(2, 0) == 1;
      assert BitOr(x / 2, 0) == x / 2;
    }
  }
}
