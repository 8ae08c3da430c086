/** Golomb-Rice coding of one number, and the scaling of hashes into a range (BIP 158). */
module GolombRice {
  import opened Powers
  import opened BitStream

  function Ones(n: nat): Bits { seq(n, i => true) }

  /** The quotient by 2^p in unary, a zero, then the p low bits. */
  function Coded(p: nat, x: nat): Bits { Ones(x / Pow(2, p)) + [false] + BitsOf(x, p) }

  /** A code bit by bit: as many ones as the quotient, a zero, and the remainder as a p-bit number. */
  lemma CodedIs(p: nat, x: nat)
    ensures var c, q := Coded(p, x), x / Pow(2, p);
      && |c| == q + 1 + p && (forall i :: 0 <= i < q ==> c[i]) && !c[q]
      && NumOf(c[q + 1..]) == x % Pow(2, p)
  {
    hide Pow, BitsOf, NumOf, Ones;
    NumOfBits(x, p);
    Joins(x / Pow(2, p), BitsOf(x, p));
  }

  lemma Joins(q: nat, tail: Bits)
    ensures var c := Ones(q) + [false] + tail;
      |c| == q + 1 + |tail| && (forall i :: 0 <= i < q ==> c[i]) && !c[q] && c[q + 1..] == tail
  {
  }

  function LeadingOnes(b: Bits): (n: nat)
    ensures n <= |b|
  {
    if b == [] || !b[0] then 0 else 1 + LeadingOnes(b[1..])
  }

  lemma {:induction false} AllOnes(n: nat)
    requires n <= 64
    ensures BitsOf(U64 - 1, n) == Ones(n)
  {
    hide BitsOf, Pow;
    OnesNumber(n);
    var p := Pow(2, n);
    PowAdd(2, 64 - n, n);
    Pow32And64();
    var k := Pow(2, 64 - n);
    Spread(k, 1, p);
    QuotientIs(U64 - 1, p, k - 1, p - 1);
    QuotientIs(p - 1, p, 0, p - 1);
    BitsOfLow(U64 - 1, p - 1, n);
    BitsOfNum(Ones(n));
  }

  lemma {:induction false} OnesNumber(n: nat)
    ensures NumOf(Ones(n)) == Pow(2, n) - 1
  {
    if n > 0 {
      OnesNumber(n - 1);
      assert Ones(n)[..n - 1] == Ones(n - 1);
    }
  }

  lemma {:induction false} LeadingOnesIs(n: nat, rest: Bits)
    requires rest != [] && !rest[0]
    ensures LeadingOnes(Ones(n) + rest) == n
  {
    if n > 0 {
      LeadingOnesIs(n - 1, rest);
      assert (Ones(n) + rest)[1..] == Ones(n - 1) + rest;
    } else {
      assert Ones(0) + rest == rest;
    }
  }

  method Encode(w: Writer, p: nat, x: nat)
    requires w.Valid() && p < 64 && x < U64
    modifies w
    ensures w.Valid() && w.Written() == old(w.Written()) + Coded(p, x) && old(w.out) <= w.out
  {
    hide Pow, BitsOf, Writer.Valid, Writer.Written, Ones;
    var q := x / Pow(2, p);
    ghost var all := q;
    ghost var start := w.Written();
    OnesSplit(0, 0);
    assert start == start + [];
    while q > 0
      invariant 0 <= q <= all && w.Valid() && w.Written() == start + Ones(all - q) && old(w.out) <= w.out
    {
      var nbits := if q <= 64 then q else 64;
      AllOnes(nbits);
      var _ := w.Write(U64 - 1, nbits);
      OnesSplit(all - q, nbits);
      assert start + Ones(all - q) + Ones(nbits) == start + Ones(all - q + nbits);
      q := q - nbits;
    }
    ZeroBits(1);
    assert BitsOf(0, 1) == Zeros(1) == [false];
    var _ := w.Write(0, 1);
    var _ := w.Write(x, p);
    assert start + Ones(all) + [false] + BitsOf(x, p) == start + Coded(p, x);
  }

  datatype Decoded = Number(value: nat, rest: Bits) | Cut

  /** The number at the start of some bits and what follows it, unless the bits end too early. */
  function FirstNumber(p: nat, bits: Bits): Decoded {
    var q := LeadingOnes(bits);
    if q + 1 + p <= |bits| then Number(Joined(q, p, NumOf(bits[q + 1..q + 1 + p])), bits[q + 1 + p..]) else Cut
  }

  method Decode(r: Reader, p: nat) returns (ok: bool, x: nat)
    requires r.Valid() && p < 64
    modifies r
    ensures r.Valid() && (ok <==> FirstNumber(p, old(r.Left())).Number?)
    ensures ok ==> FirstNumber(p, old(r.Left())) == Number(x, r.Left())
  {
    hide Joined, Reader.Left, Reader.Loaded, NumOf, LeadingOnes;
    ghost var bits := r.Left();
    var q;
    ok, q := ReadUnary(r);
    x := 0;
    if ok {
      var rem;
      ok, rem := r.Read(p);
      if ok {
        assert bits[q + 1..][..p] == bits[q + 1..q + 1 + p] && bits[q + 1..][p..] == bits[q + 1 + p..];
        x := Joined(q, p, rem);
      }
    }
  }

  /** Counts ones up to the first zero. */
  method ReadUnary(r: Reader) returns (ok: bool, q: nat)
    requires r.Valid()
    modifies r
    ensures r.Valid()
    ensures var bits := old(r.Left()); var n := LeadingOnes(bits);
      && (ok <==> n < |bits|)
      && (ok ==> q == n && r.Left() == bits[n + 1..])
  {
    hide Reader.Left, Reader.Loaded, NumOf;
    ghost var bits := r.Left();
    q := 0;
    var one;
    ok, one := r.Read(1);
    if ok {
      FirstBit(bits);
    }
    while ok && one == 1
      invariant r.Valid() && q <= |bits| && LeadingOnes(bits[q..]) == LeadingOnes(bits) - q
      invariant ok <==> q < |bits|
      invariant ok ==> r.Left() == bits[q + 1..] && one == if bits[q] then 1 else 0
      decreases |bits| - q
    {
      assert bits[q..][1..] == bits[q + 1..];
      ok, one := r.Read(1);
      q := q + 1;
      if ok {
        FirstBit(bits[q..]);
        assert bits[q..][0] == bits[q] && bits[q..][1..] == bits[q + 1..];
      }
    }
  }

  lemma FirstBit(b: Bits)
    requires b != []
    ensures NumOf(b[..1]) == if b[0] then 1 else 0
  {
    assert b[..1][..0] == [];
  }

  /** (q << p) + r in 64 bits. */
  function Joined(q: nat, p: nat, r: nat): nat { (Times(q, Pow(2, p)) % U64 + r) % U64 }

  lemma JoinedIs(q: nat, p: nat, r: nat)
    ensures Joined(q, p, r) == (q * Pow(2, p) + r) % U64
  {
    hide Pow;
    var high := q * Pow(2, p);
    SameRemainder(high % U64 + r, high + r, U64, high / U64);
  }

  lemma OnesSplit(m: nat, n: nat)
    ensures Ones(m) + Ones(n) == Ones(m + n) && Ones(0) == []
  {
  }

  lemma OnesSize(n: nat)
    ensures |Ones(n)| == n
  {
  }

  /** A coded number is decoded exactly, and nothing after it is touched. */
  lemma DecodesCoded(p: nat, x: nat, rest: Bits)
    requires p < 64 && x < U64
    ensures FirstNumber(p, Coded(p, x) + rest) == Number(x, rest)
  {
    hide Pow, BitsOf, NumOf, LeadingOnes, Ones, Joined;
    var q := x / Pow(2, p);
    var tail := [false] + BitsOf(x, p) + rest;
    OnesSize(q);
    assert Coded(p, x) + rest == Ones(q) + tail;
    LeadingOnesIs(q, tail);
    assert (Ones(q) + tail)[q + 1..q + 1 + p] == BitsOf(x, p);
    assert (Ones(q) + tail)[q + 1 + p..] == rest;
    NumOfBits(x, p);
    JoinedIs(q, p, x % Pow(2, p));
    assert x == q * Pow(2, p) + x % Pow(2, p);
  }

  // ----- scaling into a range -----

  const HALF: nat := 0x1_0000_0000

  /** The upper 64 bits of x * n from 32-bit pieces. */
  function MapIntoRange(x: nat, n: nat): nat
  {
    var (xh, xl, nh, nl) := (x / HALF, x % HALF, n / HALF, n % HALF);
    var (ac, ad, bc, bd) := (xh * nh, xh * nl, xl * nh, xl * nl);
    var mid34 := bd / HALF + bc % HALF + ad % HALF;
    ac + bc / HALF + ad / HALF + mid34 / HALF
  }

  /** It is the exact scaled value; in particular the last sum fits 64 bits, and the middle sum is below 2^34. */
  lemma MapIntoRangeIs(x: nat, n: nat)
    requires x < U64 && n < U64
    ensures MapIntoRange(x, n) == x * n / U64
    ensures n > 0 ==> MapIntoRange(x, n) < n
  {
    var (a, b, c, d) := (x / HALF, x % HALF, n / HALF, n % HALF);
    assert x == a * HALF + b && n == c * HALF + d;
    var (ac, ad, bc, bd) := (a * c, a * d, b * c, b * d);
    assert x * n == ac * U64 + (ad + bc) * HALF + bd by { Product(a, b, c, d); }
    var mid := bd / HALF + bc % HALF + ad % HALF;
    QuotientIs(x * n, U64, MapIntoRange(x, n), mid % HALF * HALF + bd % HALF);
    if n > 0 {
      Below(x, n);
    }
  }

  lemma Product(a: nat, b: nat, c: nat, d: nat)
    ensures (a * HALF + b) * (c * HALF + d) == a * c * U64 + (a * d + b * c) * HALF + b * d
  {
    Spread(a * HALF, b, c * HALF + d);
    Assoc(a, HALF, c * HALF + d);
    Spread(c * HALF, d, a);
    Spread(c * HALF, d, b);
    Assoc(a, c, HALF);
    Assoc(b, c, HALF);
  }

  lemma Below(x: nat, n: nat)
    requires x < U64 && n > 0
    ensures x * n / U64 < n
  {
    StrictScale(n, x, U64);
    var q := x * n / U64;
    assert q * U64 <= x * n;
  }
}
