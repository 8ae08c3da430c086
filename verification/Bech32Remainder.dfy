/** Bech32's checksum is a remainder of polynomials over GF(32): what PolyMod computes by shifts and masks is the
    one polynomial of degree below six that differs from its input by a multiple of the generator. */
module Bech32Remainder {
  import opened Bech32Checksum

  // ----- the field -----

  /** Multiplication by a in GF(32), whose elements are polynomials in a modulo a^5 + a^3 + 1. */
  function Alpha(g: Group): Group { [g[4], g[0], g[1], Xor(g[2], g[4]), g[3]] }

  function AlphaPow(j: nat, g: Group): Group { if j == 0 then g else Alpha(AlphaPow(j - 1, g)) }

  function Nought(): Group { [false, false, false, false, false] }

  function Unit(): Group { [true, false, false, false, false] }

  function Scaled(b: bool, g: Group): Group { if b then g else Nought() }

  /** The sum of the multiples of g by those of the first n powers of a that f has. */
  function Terms(f: Group, g: Group, n: nat): Group
    requires n <= 5
  {
    if n == 0 then Nought() else XorGroup(Terms(f, g, n - 1), Scaled(f[n - 1], AlphaPow(n - 1, g)))
  }

  function Mul(f: Group, g: Group): Group { Terms(f, g, 5) }

  lemma XorLaws(a: Group, b: Group, c: Group, d: Group)
    ensures XorGroup(XorGroup(a, b), XorGroup(c, d)) == XorGroup(XorGroup(a, c), XorGroup(b, d))
    ensures XorGroup(a, XorGroup(b, c)) == XorGroup(XorGroup(a, b), c)
    ensures XorGroup(a, b) == XorGroup(b, a) && XorGroup(a, a) == Nought() && XorGroup(a, Nought()) == a
  {
  }

  /** Multiplication is linear in its first argument. */
  lemma {:induction false} MulLinear(f: Group, h: Group, g: Group, n: nat)
    requires n <= 5
    ensures Terms(XorGroup(f, h), g, n) == XorGroup(Terms(f, g, n), Terms(h, g, n))
  {
    if n == 0 {
      XorLaws(Nought(), Nought(), Nought(), Nought());
    } else {
      MulLinear(f, h, g, n - 1);
      var x := AlphaPow(n - 1, g);
      ScaledLinear(f, h, n - 1, x);
      hide XorGroup, AlphaPow, Scaled;
      XorLaws(Terms(f, g, n - 1), Terms(h, g, n - 1), Scaled(f[n - 1], x), Scaled(h[n - 1], x));
    }
  }

  lemma ScaledLinear(f: Group, h: Group, i: nat, x: Group)
    requires i < 5
    ensures Scaled(XorGroup(f, h)[i], x) == XorGroup(Scaled(f[i], x), Scaled(h[i], x))
  {
    XorLaws(x, x, x, x);
    XorLaws(Nought(), x, x, x);
    XorLaws(Nought(), Nought(), x, x);
  }

  lemma MulUnit(f: Group)
    ensures Mul(f, Unit()) == f
  {
    hide XorGroup;
    var g := Unit();
    assert AlphaPow(1, g) == [false, true, false, false, false];
    assert AlphaPow(2, g) == [false, false, true, false, false];
    assert AlphaPow(3, g) == [false, false, false, true, false];
    assert AlphaPow(4, g) == [false, false, false, false, true];
    assert Terms(f, g, 1) == XorGroup(Nought(), Scaled(f[0], g));
    assert Terms(f, g, 2) == XorGroup(Terms(f, g, 1), Scaled(f[1], AlphaPow(1, g)));
    assert Terms(f, g, 3) == XorGroup(Terms(f, g, 2), Scaled(f[2], AlphaPow(2, g)));
    assert Terms(f, g, 4) == XorGroup(Terms(f, g, 3), Scaled(f[3], AlphaPow(3, g)));
    SumUnits(f);
  }

  lemma SumUnits(f: Group)
    ensures XorGroup(XorGroup(XorGroup(XorGroup(XorGroup(Nought(), Scaled(f[0], [true, false, false, false, false])),
      Scaled(f[1], [false, true, false, false, false])), Scaled(f[2], [false, false, true, false, false])),
      Scaled(f[3], [false, false, false, true, false])), Scaled(f[4], [false, false, false, false, true])) == f
  {
  }

  lemma {:induction false} NoughtMul(g: Group, n: nat)
    requires n <= 5
    ensures Terms(Nought(), g, n) == Nought()
  {
    if n > 0 {
      NoughtMul(g, n - 1);
      XorLaws(Nought(), Nought(), Nought(), Nought());
    }
  }

  // ----- the constants -----

  /** The generator's coefficients below its leading one, lowest first: 18, 29, 21, 20, 22, 29. */
  function LowCoeff(m: nat): Group
    requires m < 6
  {
    if m == 0 then [false, true, false, false, true]
    else if m == 1 || m == 5 then [true, false, true, true, true]
    else if m == 2 then [true, false, true, false, true]
    else if m == 3 then [false, false, true, false, true]
    else [false, true, true, false, true]
  }

  function Constant(j: nat): nat
    requires j < 5
  {
    [0x3b6a_57b2, 0x2650_8e6d, 0x1ea1_19fa, 0x3d42_33dd, 0x2a14_62b3][j]
  }

  function Pow32(m: nat): nat
    requires m < 6
  {
    [1, 0x20, 0x400, 0x8000, 0x10_0000, 0x200_0000][m]
  }

  lemma BitNext(n: nat, i: nat)
    ensures Bit(n, i + 1) == Bit(n / 2, i) && Bit(n, 0) == (n % 2 == 1)
  {
  }

  lemma BitFive(n: nat, i: nat)
    ensures Bit(n, i + 5) == Bit(n / 32, i)
  {
    hide Bit;
    BitNext(n, i + 4);
    BitNext(n / 2, i + 3);
    BitNext(n / 4, i + 2);
    BitNext(n / 8, i + 1);
    BitNext(n / 16, i);
    Halves(n);
  }

  lemma Halves(n: nat)
    ensures n / 2 / 2 == n / 4 && n / 4 / 2 == n / 8 && n / 8 / 2 == n / 16 && n / 16 / 2 == n / 32
  {
  }

  lemma BitLow(n: nat, i: nat)
    requires i < 5
    ensures Bit(n, i) == Bits(n)[i]
  {
    hide Bit;
    Halves(n);
    if i > 0 {
      BitNext(n, i - 1);
    }
    if i > 1 {
      BitNext(n / 2, i - 2);
    }
    if i > 2 {
      BitNext(n / 4, i - 3);
    }
    if i > 3 {
      BitNext(n / 8, 0);
    }
    BitNext(n, 0);
    BitNext(n / 2, 0);
    BitNext(n / 4, 0);
    BitNext(n / 8, 0);
    BitNext(n / 16, 0);
  }

  /** The bits of a number in groups of five. */
  lemma {:induction false} BitGroup(n: nat, m: nat, i: nat)
    requires m < 6 && i < 5
    ensures Bit(n, 5 * m + i) == Bits(n / Pow32(m))[i]
  {
    hide Bit, Bits;
    if m == 0 {
      BitLow(n, i);
      assert n / 1 == n;
    } else {
      BitFive(n, 5 * (m - 1) + i);
      BitGroup(n / 32, m - 1, i);
      assert n / 32 / Pow32(m - 1) == n / Pow32(m);
    }
  }

  /** The coefficients of x^0: 18, 13, 26, 29, 19. */
  lemma Row0()
    ensures Bits(0x3b6a_57b2) == [false, true, false, false, true]
    ensures Bits(0x2650_8e6d) == [true, false, true, true, false]
    ensures Bits(0x1ea1_19fa) == [false, true, false, true, true]
    ensures Bits(0x3d42_33dd) == [true, false, true, true, true]
    ensures Bits(0x2a14_62b3) == [true, true, false, false, true]
  {
  }

  /** The coefficients of x^1: 29, 19, 15, 30, 21. */
  lemma Row1()
    ensures Bits(0x1db_52bd) == [true, false, true, true, true]
    ensures Bits(0x132_8473) == [true, true, false, false, true]
    ensures Bits(0xf5_08cf) == [true, true, true, true, false]
    ensures Bits(0x1ea_119e) == [false, true, true, true, true]
    ensures Bits(0x150_a315) == [true, false, true, false, true]
  {
  }

  /** The coefficients of x^2: 21, 3, 6, 12, 24. */
  lemma Row2()
    ensures Bits(0xe_da95) == [true, false, true, false, true]
    ensures Bits(0x9_9423) == [true, true, false, false, false]
    ensures Bits(0x7_a846) == [false, true, true, false, false]
    ensures Bits(0xf_508c) == [false, false, true, true, false]
    ensures Bits(0xa_8518) == [false, false, false, true, true]
  {
  }

  /** The coefficients of x^3: 20, 1, 2, 4, 8. */
  lemma Row3()
    ensures Bits(0x76d4) == [false, false, true, false, true]
    ensures Bits(0x4ca1) == [true, false, false, false, false]
    ensures Bits(0x3d42) == [false, true, false, false, false]
    ensures Bits(0x7a84) == [false, false, true, false, false]
    ensures Bits(0x5428) == [false, false, false, true, false]
  {
  }

  /** The coefficients of x^4: 22, 5, 10, 20, 1. */
  lemma Row4()
    ensures Bits(0x3b6) == [false, true, true, false, true]
    ensures Bits(0x265) == [true, false, true, false, false]
    ensures Bits(0x1ea) == [false, true, false, true, false]
    ensures Bits(0x3d4) == [false, false, true, false, true]
    ensures Bits(0x2a1) == [true, false, false, false, false]
  {
  }

  /** The coefficients of x^5: 29, 19, 15, 30, 21. */
  lemma Row5()
    ensures Bits(0x1d) == [true, false, true, true, true]
    ensures Bits(0x13) == [true, true, false, false, true]
    ensures Bits(0xf) == [true, true, true, true, false]
    ensures Bits(0x1e) == [false, true, true, true, true]
    ensures Bits(0x15) == [true, false, true, false, true]
  {
  }

  function Shifted(j: nat, m: nat): nat
    requires j < 5 && m < 6
  {
    [[0x3b6a_57b2, 0x2650_8e6d, 0x1ea1_19fa, 0x3d42_33dd, 0x2a14_62b3],
     [0x1db_52bd, 0x132_8473, 0xf5_08cf, 0x1ea_119e, 0x150_a315],
     [0xe_da95, 0x9_9423, 0x7_a846, 0xf_508c, 0xa_8518],
     [0x76d4, 0x4ca1, 0x3d42, 0x7a84, 0x5428],
     [0x3b6, 0x265, 0x1ea, 0x3d4, 0x2a1],
     [0x1d, 0x13, 0xf, 0x1e, 0x15]][m][j]
  }

  lemma ShiftedIs(j: nat, m: nat)
    requires j < 5 && m < 6
    ensures Constant(j) / Pow32(m) == Shifted(j, m)
  {
  }

  /** The five constants are the multiples of the generator's lower part by the powers of a. */
  lemma ConstantGroup(j: nat, m: nat)
    requires j < 5 && m < 6
    ensures Bits(Constant(j) / Pow32(m)) == AlphaPow(j, LowCoeff(m))
  {
    hide Bits, Constant, Pow32, AlphaPow;
    ShiftedIs(j, m);
    Row0();
    Row1();
    Row2();
    Row3();
    Row4();
    Row5();
    Powers(m);
    NoPower(LowCoeff(m));
  }

  lemma NoPower(g: Group)
    ensures AlphaPow(0, g) == g
  {
  }

  /** The multiples of each coefficient by the powers of a. */
  lemma Powers(m: nat)
    requires m < 6
    ensures AlphaPow(1, LowCoeff(m)) ==
      [[true, false, true, true, false], [true, true, false, false, true], [true, true, false, false, false],
        [true, false, false, false, false], [true, false, true, false, false], [true, true, false, false, true]][m]
    ensures AlphaPow(2, LowCoeff(m)) ==
      [[false, true, false, true, true], [true, true, true, true, false], [false, true, true, false, false],
        [false, true, false, false, false], [false, true, false, true, false], [true, true, true, true, false]][m]
    ensures AlphaPow(3, LowCoeff(m)) ==
      [[true, false, true, true, true], [false, true, true, true, true], [false, false, true, true, false],
        [false, false, true, false, false], [false, false, true, false, true], [false, true, true, true, true]][m]
    ensures AlphaPow(4, LowCoeff(m)) ==
      [[true, true, false, false, true], [true, false, true, false, true], [false, false, false, true, true],
        [false, false, false, true, false], [true, false, false, false, false], [true, false, true, false, true]][m]
  {
  }

  // ----- one round -----

  /** The coefficient of x^m. */
  function GroupAt(w: Word, m: nat): Group
    requires m < 6
  {
    w[5 * m..5 * m + 5]
  }

  lemma ReducedGroup(w: Word, c: Word, j: nat, m: nat)
    requires j < 5 && m < 6
    ensures GroupAt(Reduced(w, c, 25 + j, Constant(j)), m) ==
      XorGroup(GroupAt(w, m), Scaled(GroupAt(c, 5)[j], AlphaPow(j, LowCoeff(m))))
  {
    hide Bit, Bits, AlphaPow, Constant, LowCoeff;
    var k := Constant(j);
    ConstantGroup(j, m);
    var r := Reduced(w, c, 25 + j, k);
    forall i | 0 <= i < 5
      ensures GroupAt(r, m)[i] == XorGroup(GroupAt(w, m), Scaled(GroupAt(c, 5)[j], Bits(k / Pow32(m))))[i]
    {
      ReducedAt(w, c, 25 + j, k, 5 * m + i);
      BitGroup(k, m, i);
    }
  }

  lemma MovedGroup(c: Word, g: Group, m: nat)
    requires m < 6
    ensures GroupAt(g + c[..25], m) == if m == 0 then g else GroupAt(c, m - 1)
  {
    var w := g + c[..25];
    if m > 0 {
      forall i | 0 <= i < 5
        ensures GroupAt(w, m)[i] == GroupAt(c, m - 1)[i]
      {
        assert w[5 * m + i] == c[5 * (m - 1) + i];
      }
    }
  }

  /** The first j of the five reductions of a round. */
  function Reductions(w: Word, c: Word, j: nat): Word
    requires j <= 5
  {
    if j == 0 then w else Reduced(Reductions(w, c, j - 1), c, 24 + j, Constant(j - 1))
  }

  lemma StepReduces(c: Word, g: Group)
    ensures Step(c, g) == Reductions(g + c[..25], c, 5)
  {
    hide Reduced;
    var w := g + c[..25];
    assert Reductions(w, c, 1) == Reduced(w, c, 25, 0x3b6a_57b2);
    assert Reductions(w, c, 2) == Reduced(Reductions(w, c, 1), c, 26, 0x2650_8e6d);
    assert Reductions(w, c, 3) == Reduced(Reductions(w, c, 2), c, 27, 0x1ea1_19fa);
    assert Reductions(w, c, 4) == Reduced(Reductions(w, c, 3), c, 28, 0x3d42_33dd);
    assert Reductions(w, c, 5) == Reduced(Reductions(w, c, 4), c, 29, 0x2a14_62b3);
  }

  lemma {:induction false} ReductionsGroup(w: Word, c: Word, j: nat, m: nat)
    requires j <= 5 && m < 6
    ensures GroupAt(Reductions(w, c, j), m) == XorGroup(GroupAt(w, m), Terms(GroupAt(c, 5), LowCoeff(m), j))
  {
    hide Reduced, XorGroup, LowCoeff, Constant, AlphaPow, Scaled, GroupAt;
    var base, f, h := GroupAt(w, m), GroupAt(c, 5), LowCoeff(m);
    if j == 0 {
      XorLaws(base, base, base, base);
    } else {
      ReductionsGroup(w, c, j - 1, m);
      ReducedGroup(Reductions(w, c, j - 1), c, j - 1, m);
      XorLaws(base, Terms(f, h, j - 1), Scaled(f[j - 1], AlphaPow(j - 1, h)), base);
    }
  }

  /** One round multiplies by x, adds the new group and subtracts the multiple of the generator by the coefficient
      that comes out at the top. */
  lemma StepGroup(c: Word, g: Group, m: nat)
    requires m < 6
    ensures GroupAt(Step(c, g), m) ==
      XorGroup(if m == 0 then g else GroupAt(c, m - 1), Mul(GroupAt(c, 5), LowCoeff(m)))
  {
    hide Step, Reductions, GroupAt, XorGroup, LowCoeff, Terms;
    StepReduces(c, g);
    ReductionsGroup(g + c[..25], c, 5, m);
    MovedGroup(c, g, m);
  }

  // ----- polynomials -----

  /** Coefficients, the highest first. */
  type Poly = seq<Group>

  /** The generator x^6 + {29}x^5 + {22}x^4 + {20}x^3 + {21}x^2 + {29}x + {18}. */
  function Generator(): (g: Poly)
    ensures |g| == 7 && g[0] == Unit() && forall j :: 1 <= j < 7 ==> g[j] == LowCoeff(6 - j)
  {
    [Unit(), LowCoeff(5), LowCoeff(4), LowCoeff(3), LowCoeff(2), LowCoeff(1), LowCoeff(0)]
  }

  function Blank(n: nat): (r: Poly)
    ensures |r| == n
  {
    seq(n, i => Nought())
  }

  function Times(f: Group, p: Poly): (r: Poly)
    ensures |r| == |p|
  {
    seq(|p|, i requires 0 <= i < |p| => Mul(f, p[i]))
  }

  /** The multiple of the generator by q, by Horner's rule. */
  function Multiple(q: Poly): (r: Poly)
    ensures |r| == |q| + 6
  {
    if q == [] then Blank(6)
    else XorGroups(Multiple(q[..|q| - 1]) + [Nought()], Blank(|q| - 1) + Times(q[|q| - 1], Generator()))
  }

  /** r has degree below six, and f is r plus the multiple of the generator by q. */
  ghost predicate Divided(f: Poly, q: Poly, r: Poly) {
    |r| == 6 && |f| == |q| + 6 && f == XorGroups(Multiple(q), Blank(|q|) + r)
  }

  /** r is the remainder of f modulo the generator. */
  ghost predicate IsRemainder(f: Poly, r: Poly) { exists q :: Divided(f, q, r) }

  /** The polynomial of some values, with an implicit one in front; leading zeros fill it up to degree five. */
  function Message(v: Groups): Poly { Blank(5) + [Unit()] + v }

  function Coeffs(w: Word): (r: Poly)
    ensures |r| == 6 && forall j :: 0 <= j < 6 ==> r[j] == GroupAt(w, 5 - j)
  {
    [GroupAt(w, 5), GroupAt(w, 4), GroupAt(w, 3), GroupAt(w, 2), GroupAt(w, 1), GroupAt(w, 0)]
  }

  lemma SameCoeffs(c: Word, d: Word)
    requires Coeffs(c) == Coeffs(d)
    ensures c == d
  {
    forall i | 0 <= i < 30
      ensures c[i] == d[i]
    {
      var m := i / 5;
      assert Coeffs(c)[5 - m] == GroupAt(c, m) && Coeffs(d)[5 - m] == GroupAt(d, m);
      assert c[i] == GroupAt(c, m)[i - 5 * m] && d[i] == GroupAt(d, m)[i - 5 * m];
    }
  }

  /** One round: f becomes f * x + g, the quotient gets the coefficient that comes out. */
  lemma StepDivides(f: Poly, q: Poly, c: Word, g: Group)
    requires Divided(f, q, Coeffs(c))
    ensures Divided(f + [g], q + [GroupAt(c, 5)], Coeffs(Step(c, g)))
  {
    hide GroupAt, Step, XorGroup, Mul, LowCoeff, Multiple;
    var n, top := |q|, GroupAt(c, 5);
    var p := Multiple(q);
    var p' := Multiple(q + [top]);
    assert (q + [top])[..n] == q;
    assert p' == XorGroups(p + [Nought()], Blank(n) + Times(top, Generator())) by { MultipleNext(q, top); }
    var r := Blank(n + 1) + Coeffs(Step(c, g));
    var sum := XorGroups(p', r);
    forall i | 0 <= i < n + 7
      ensures (f + [g])[i] == sum[i]
    {
      if i < n {
        XorLaws(p[i], Nought(), Nought(), Nought());
        assert f[i] == XorGroup(p[i], Nought());
      } else if i == n {
        MulUnit(top);
        XorLaws(XorGroup(p[i], top), Nought(), Nought(), Nought());
        assert f[i] == XorGroup(p[i], Coeffs(c)[0]);
      } else {
        var j := i - n - 1;
        StepGroup(c, g, 5 - j);
        assert r[i] == Coeffs(Step(c, g))[j] == GroupAt(Step(c, g), 5 - j);
        LowerCoefficient(if j == 5 then Nought() else p[i], if j == 5 then g else GroupAt(c, 4 - j),
          Mul(top, LowCoeff(5 - j)));
        if j < 5 {
          assert f[i] == XorGroup(p[i], Coeffs(c)[j + 1]);
        }
      }
    }
  }

  lemma MultipleNext(q: Poly, top: Group)
    ensures Multiple(q + [top]) == XorGroups(Multiple(q) + [Nought()], Blank(|q|) + Times(top, Generator()))
  {
    hide XorGroups, Times, Generator;
    assert (q + [top])[..|q|] == q;
  }

  lemma LowerCoefficient(p: Group, x: Group, m: Group)
    ensures XorGroup(XorGroup(p, m), XorGroup(x, m)) == XorGroup(p, x) && XorGroup(Nought(), x) == x
  {
  }

  /** The coefficients that come out while the values are taken in. */
  function Quotient(v: Groups): Poly {
    if v == [] then [] else Quotient(v[..|v| - 1]) + [GroupAt(Fold(OneWord(), v[..|v| - 1]), 5)]
  }

  lemma {:induction false} FoldDivides(v: Groups)
    ensures Divided(Message(v), Quotient(v), Coeffs(Fold(OneWord(), v)))
  {
    hide Step, Divided;
    if v == [] {
      StartDivides();
    } else {
      var u, g := v[..|v| - 1], v[|v| - 1];
      FoldDivides(u);
      StepDivides(Message(u), Quotient(u), Fold(OneWord(), u), g);
      assert v == u + [g] && Message(v) == Message(u) + [g];
      FoldAppend(OneWord(), u, [g]);
      assert Fold(Fold(OneWord(), u), [g]) == Step(Fold(OneWord(), u), g);
    }
  }

  lemma StartDivides()
    ensures Divided(Message([]), [], Coeffs(OneWord()))
  {
    var r := Coeffs(OneWord());
    assert r == Message([]) by {
      forall m | 0 <= m < 6
        ensures GroupAt(OneWord(), m) == if m == 0 then Unit() else Nought()
      {
      }
    }
    forall i | 0 <= i < 6
      ensures XorGroups(Blank(6), r)[i] == r[i]
    {
      XorLaws(r[i], Nought(), r[i], r[i]);
    }
    assert Blank(0) + r == r;
  }

  // ----- there is only one remainder -----

  /** The coefficients of a multiple, through its last factor. */
  lemma MultipleAt(q: Poly, top: Group, i: nat)
    requires i < |q| + 7
    ensures Multiple(q + [top])[i] == XorGroup(if i < |q| + 6 then Multiple(q)[i] else Nought(),
      if i < |q| then Nought() else Times(top, Generator())[i - |q|])
  {
    hide *;
    MultipleNext(q, top);
    RowAt(Multiple(q), |q|, Times(top, Generator()), i);
  }

  lemma RowAt(p: Poly, n: nat, t: Poly, i: nat)
    requires |p| == n + 6 && |t| == 7 && i < n + 7
    ensures XorGroups(p + [Nought()], Blank(n) + t)[i] ==
      XorGroup(if i < n + 6 then p[i] else Nought(), if i < n then Nought() else t[i - n])
  {
    hide XorGroup;
  }

  lemma TimesLead(f: Group)
    ensures Times(f, Generator())[0] == f
  {
    hide Mul, LowCoeff;
    MulUnit(f);
  }

  lemma TimesNought(i: nat)
    requires i < 7
    ensures Times(Nought(), Generator())[i] == Nought()
  {
    hide Mul, LowCoeff;
    NoughtTimes(Generator()[i]);
  }

  /** A multiple of the generator that has degree below six is zero. */
  lemma {:induction false} MultipleZero(q: Poly)
    requires forall i :: 0 <= i < |q| ==> Multiple(q)[i] == Nought()
    ensures q == Blank(|q|) && Multiple(q) == Blank(|q| + 6)
  {
    if q != [] {
      hide Multiple, Nought;
      var top, front := q[|q| - 1], q[..|q| - 1];
      assert q == front + [top];
      FrontZero(front, top);
      MultipleZero(front);
      LastZero(front, top);
    }
  }

  lemma FrontZero(q: Poly, top: Group)
    requires forall i :: 0 <= i < |q| ==> Multiple(q + [top])[i] == Nought()
    ensures forall i :: 0 <= i < |q| ==> Multiple(q)[i] == Nought()
  {
    hide XorGroup, Multiple, Generator, Times, Nought;
    forall i | 0 <= i < |q|
      ensures Multiple(q)[i] == Nought()
    {
      MultipleAt(q, top, i);
      XorLaws(Multiple(q)[i], Nought(), Nought(), Nought());
    }
  }

  lemma LastZero(q: Poly, top: Group)
    requires Multiple(q) == Blank(|q| + 6) && Multiple(q + [top])[|q|] == Nought()
    ensures top == Nought() && Multiple(q + [top]) == Blank(|q| + 7)
  {
    hide XorGroup, Multiple, Generator, Times, Nought;
    XorLaws(top, Nought(), top, top);
    XorLaws(Nought(), top, top, top);
    XorLaws(Nought(), Nought(), top, top);
    MultipleAt(q, top, |q|);
    TimesLead(top);
    forall i | 0 <= i < |q| + 7
      ensures Multiple(q + [top])[i] == Nought()
    {
      MultipleAt(q, top, i);
      if i >= |q| {
        TimesNought(i - |q|);
      }
    }
  }

  lemma NoughtTimes(g: Group)
    ensures Mul(Nought(), g) == Nought()
  {
    NoughtMul(g, 5);
  }

  /** Multiples add up. */
  lemma {:induction false} MultipleLinear(q: Poly, r: Poly)
    requires |q| == |r|
    ensures Multiple(XorGroups(q, r)) == XorGroups(Multiple(q), Multiple(r))
  {
    if q == [] {
      XorLaws(Nought(), Nought(), Nought(), Nought());
    } else {
      var n, q0, r0, q1, r1 := |q| - 1, q[..|q| - 1], r[..|q| - 1], q[|q| - 1], r[|q| - 1];
      assert q == q0 + [q1] && r == r0 + [r1];
      assert XorGroups(q, r) == XorGroups(q0, r0) + [XorGroup(q1, r1)];
      hide XorGroup, Multiple, Generator, Times, Nought;
      MultipleLinear(q0, r0);
      forall i | 0 <= i < |q| + 6
        ensures Multiple(XorGroups(q, r))[i] == XorGroup(Multiple(q)[i], Multiple(r)[i])
      {
        RowLinear(q0, r0, q1, r1, i);
      }
    }
  }

  lemma RowLinear(q: Poly, r: Poly, f: Group, h: Group, i: nat)
    requires |q| == |r| && i < |q| + 7 && Multiple(XorGroups(q, r)) == XorGroups(Multiple(q), Multiple(r))
    ensures Multiple(XorGroups(q, r) + [XorGroup(f, h)])[i] == XorGroup(Multiple(q + [f])[i], Multiple(r + [h])[i])
  {
    hide XorGroup, Multiple, Generator, Times, Nought;
    MultipleAt(q, f, i);
    MultipleAt(r, h, i);
    MultipleAt(XorGroups(q, r), XorGroup(f, h), i);
    var n := |q|;
    var a, b := if i < n + 6 then Multiple(q)[i] else Nought(), if i < n + 6 then Multiple(r)[i] else Nought();
    var s := if i < n then Nought() else Times(f, Generator())[i - n];
    var t := if i < n then Nought() else Times(h, Generator())[i - n];
    XorLaws(a, s, b, t);
    XorLaws(Nought(), Nought(), Nought(), Nought());
    if i >= n {
      TimesLinear(f, h, i - n);
    }
  }

  lemma TimesLinear(f: Group, h: Group, i: nat)
    requires i < 7
    ensures Times(XorGroup(f, h), Generator())[i] == XorGroup(Times(f, Generator())[i], Times(h, Generator())[i])
  {
    hide XorGroup, LowCoeff;
    MulLinear(f, h, Generator()[i], 5);
  }

  /** There is only one remainder. */
  lemma RemainderUnique(f: Poly, r: Poly, r': Poly)
    requires IsRemainder(f, r) && IsRemainder(f, r')
    ensures r == r'
  {
    hide XorGroup, Multiple;
    var q :| Divided(f, q, r);
    var q' :| Divided(f, q', r');
    var d, n := XorGroups(q, q'), |q|;
    MultipleLinear(q, q');
    forall i | 0 <= i < n
      ensures Multiple(d)[i] == Nought()
    {
      var a, b := Multiple(q)[i], Multiple(q')[i];
      assert XorGroup(a, Nought()) == f[i] == XorGroup(b, Nought());
      XorLaws(a, a, a, a);
      XorLaws(b, b, b, b);
    }
    MultipleZero(d);
    forall j | 0 <= j < 6
      ensures r[j] == r'[j]
    {
      var a, b := Multiple(q)[n + j], Multiple(q')[n + j];
      assert Multiple(d)[n + j] == Nought();
      assert XorGroup(a, r[j]) == f[n + j] == XorGroup(b, r'[j]);
      SameRest(a, b, r[j], r'[j]);
    }
  }

  lemma SameRest(a: Group, b: Group, x: Group, y: Group)
    requires XorGroup(a, b) == Nought() && XorGroup(a, x) == XorGroup(b, y)
    ensures x == y
  {
    forall i | 0 <= i < 5
      ensures x[i] == y[i]
    {
      assert XorGroup(a, b)[i] == false;
      assert XorGroup(a, x)[i] == XorGroup(b, y)[i];
    }
  }

  /** The loop over the values computes the remainder of their polynomial. */
  method PolyMod(v: Groups) returns (c: Word)
    ensures c == Fold(OneWord(), v)
    ensures IsRemainder(Message(v), Coeffs(c))
  {
    hide Step, Divided;
    c := OneWord();
    assert v[0..] == v;
    for i := 0 to |v|
      invariant Fold(c, v[i..]) == Fold(OneWord(), v)
    {
      assert v[i..][1..] == v[i + 1..];
      c := Step(c, v[i]);
    }
    FoldDivides(v);
  }
}
