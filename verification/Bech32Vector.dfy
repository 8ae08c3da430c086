/** A string that BIP 173 lists as valid, to fix the tables and the expansion of the prefix. */
module Bech32Vector {
  import opened Bech32Checksum
  import opened Bech32Remainder
  import opened Bech32

  /** A word from its six groups, the highest first. */
  function Word6(a: seq<nat>): Word
    requires |a| == 6
  {
    Bits(a[5]) + Bits(a[4]) + Bits(a[3]) + Bits(a[2]) + Bits(a[1]) + Bits(a[0])
  }

  lemma Word6Group(a: seq<nat>, m: nat)
    requires |a| == 6 && m < 6
    ensures GroupAt(Word6(a), m) == Bits(a[5 - m])
  {
    hide Bits;
  }

  /** One round on groups: coefficient m, the top one being taken out. */
  function Next(a: seq<nat>, g: nat, m: nat): Group
    requires |a| == 6 && m < 6
  {
    XorGroup(if m == 0 then Bits(g) else Bits(a[6 - m]), Mul(Bits(a[0]), LowCoeff(m)))
  }

  lemma Round(a: seq<nat>, g: nat, r: seq<nat>)
    requires |a| == 6 == |r| && forall m :: 0 <= m < 6 ==> Next(a, g, m) == Bits(r[5 - m])
    ensures Step(Word6(a), Bits(g)) == Word6(r)
  {
    hide Bits, Mul, LowCoeff, XorGroup, Step, GroupAt, Word6;
    forall m | 0 <= m < 6
      ensures GroupAt(Step(Word6(a), Bits(g)), m) == GroupAt(Word6(r), m)
    {
      StepGroup(Word6(a), Bits(g), m);
      Word6Group(a, 5);
      if m > 0 {
        Word6Group(a, m - 1);
      }
      Word6Group(r, m);
      assert Next(a, g, m) == Bits(r[5 - m]);
    }
    SameGroups(Step(Word6(a), Bits(g)), Word6(r));
  }

  lemma SameGroups(c: Word, d: Word)
    requires forall m :: 0 <= m < 6 ==> GroupAt(c, m) == GroupAt(d, m)
    ensures c == d
  {
    hide GroupAt;
    forall j | 0 <= j < 6
      ensures Coeffs(c)[j] == Coeffs(d)[j]
    {
      assert GroupAt(c, 5 - j) == GroupAt(d, 5 - j);
    }
    SameCoeffs(c, d);
  }

  /** As long as nothing comes out a round only moves. */
  lemma Move(a: seq<nat>, g: nat)
    requires |a| == 6 && a[0] == 0
    ensures Step(Word6(a), Bits(g)) == Word6(a[1..] + [g])
  {
    hide Mul, LowCoeff, XorGroup;
    var r := a[1..] + [g];
    ZeroBits();
    hide Bits;
    forall m | 0 <= m < 6
      ensures Next(a, g, m) == Bits(r[5 - m])
    {
      NoughtTimes(LowCoeff(m));
      var x := if m == 0 then Bits(g) else Bits(a[6 - m]);
      XorLaws(x, x, x, x);
    }
    Round(a, g, r);
  }

  lemma UnitTimes(g: Group)
    ensures Mul(Bits(1), g) == g
  {
    hide XorGroup, Alpha;
    var u := Bits(1);
    assert u == Unit();
    assert Terms(u, g, 1) == XorGroup(Nought(), g);
    assert Terms(u, g, 2) == XorGroup(Terms(u, g, 1), Nought());
    assert Terms(u, g, 3) == XorGroup(Terms(u, g, 2), Nought());
    assert Terms(u, g, 4) == XorGroup(Terms(u, g, 3), Nought());
    XorLaws(g, Nought(), g, g);
    XorLaws(Nought(), g, g, g);
  }

  /** Multiples of the generator's coefficients. */
  lemma Times30(m: nat)
    requires m < 6
    ensures Mul(Bits(30), LowCoeff(m)) == Bits([25, 23, 17, 15, 26, 23][m])
  {
    hide XorGroup, AlphaPow;
    var f, g := Bits(30), LowCoeff(m);
    assert f == [false, true, true, true, true];
    Powers(m);
    NoPower(g);
    assert Terms(f, g, 1) == XorGroup(Nought(), Scaled(f[0], g));
    assert Terms(f, g, 2) == XorGroup(Terms(f, g, 1), Scaled(f[1], AlphaPow(1, g)));
    assert Terms(f, g, 3) == XorGroup(Terms(f, g, 2), Scaled(f[2], AlphaPow(2, g)));
    assert Terms(f, g, 4) == XorGroup(Terms(f, g, 3), Scaled(f[3], AlphaPow(3, g)));
    Times30Sum(m);
  }

  lemma Times30Sum(m: nat)
    requires m < 6
    ensures var g := LowCoeff(m);
      var low := XorGroup(XorGroup(XorGroup(Nought(), Nought()), AlphaPow(1, g)), AlphaPow(2, g));
      XorGroup(XorGroup(low, AlphaPow(3, g)), AlphaPow(4, g)) == Bits([25, 23, 17, 15, 26, 23][m])
  {
    Powers(m);
    hide AlphaPow;
    NoPower(LowCoeff(m));
  }

  /** Multiples of the generator's coefficients. */
  lemma Times18(m: nat)
    requires m < 6
    ensures Mul(Bits(18), LowCoeff(m)) == Bits([30, 6, 27, 9, 4, 6][m])
  {
    hide XorGroup, AlphaPow;
    var f, g := Bits(18), LowCoeff(m);
    assert f == [false, true, false, false, true];
    Powers(m);
    NoPower(g);
    assert Terms(f, g, 1) == XorGroup(Nought(), Scaled(f[0], g));
    assert Terms(f, g, 2) == XorGroup(Terms(f, g, 1), Scaled(f[1], AlphaPow(1, g)));
    assert Terms(f, g, 3) == XorGroup(Terms(f, g, 2), Scaled(f[2], AlphaPow(2, g)));
    assert Terms(f, g, 4) == XorGroup(Terms(f, g, 3), Scaled(f[3], AlphaPow(3, g)));
    Times18Sum(m);
  }

  lemma Times18Sum(m: nat)
    requires m < 6
    ensures var g := LowCoeff(m);
      var low := XorGroup(XorGroup(XorGroup(Nought(), Nought()), AlphaPow(1, g)), Nought());
      XorGroup(XorGroup(low, Nought()), AlphaPow(4, g)) == Bits([30, 6, 27, 9, 4, 6][m])
  {
    Powers(m);
    hide AlphaPow;
    NoPower(LowCoeff(m));
  }

  lemma Round6()
    ensures Step(Word6([1, 3, 0, 1, 10, 28]), Bits(25)) == Word6([30, 22, 21, 31, 1, 11])
  {
    hide Step, Mul, XorGroup, Bits;
    var a, r := [1, 3, 0, 1, 10, 28], [30, 22, 21, 31, 1, 11];
    forall m | 0 <= m < 6
      ensures Next(a, 25, m) == Bits(r[5 - m])
    {
      UnitTimes(LowCoeff(m));
      Sums6(m);
    }
    Round(a, 25, r);
  }

  lemma Sums6(m: nat)
    requires m < 6
    ensures XorGroup(Bits([25, 28, 10, 1, 0, 3][m]), LowCoeff(m)) == Bits([11, 1, 31, 21, 22, 30][m])
  {
  }

  lemma Round7()
    ensures Step(Word6([30, 22, 21, 31, 1, 11]), Bits(31)) == Word6([1, 15, 16, 16, 28, 6])
  {
    hide Step, Mul, XorGroup, Bits;
    var a, r := [30, 22, 21, 31, 1, 11], [1, 15, 16, 16, 28, 6];
    forall m | 0 <= m < 6
      ensures Next(a, 31, m) == Bits(r[5 - m])
    {
      Times30(m);
      Sums7(m);
    }
    Round(a, 31, r);
  }

  lemma Sums7(m: nat)
    requires m < 6
    ensures var x, y := Bits([31, 11, 1, 31, 21, 22][m]), Bits([25, 23, 17, 15, 26, 23][m]);
      XorGroup(x, y) == Bits([6, 28, 16, 16, 15, 1][m])
  {
  }

  lemma Round8()
    ensures Step(Word6([1, 15, 16, 16, 28, 6]), Bits(20)) == Word6([18, 6, 4, 9, 27, 6])
  {
    hide Step, Mul, XorGroup, Bits;
    var a, r := [1, 15, 16, 16, 28, 6], [18, 6, 4, 9, 27, 6];
    forall m | 0 <= m < 6
      ensures Next(a, 20, m) == Bits(r[5 - m])
    {
      UnitTimes(LowCoeff(m));
      Sums8(m);
    }
    Round(a, 20, r);
  }

  lemma Sums8(m: nat)
    requires m < 6
    ensures XorGroup(Bits([20, 6, 28, 16, 16, 15][m]), LowCoeff(m)) == Bits([6, 27, 9, 4, 6, 18][m])
  {
  }

  lemma Round9()
    ensures Step(Word6([18, 6, 4, 9, 27, 6]), Bits(31)) == Word6([0, 0, 0, 0, 0, 1])
  {
    hide Step, Mul, XorGroup, Bits;
    var a, r := [18, 6, 4, 9, 27, 6], [0, 0, 0, 0, 0, 1];
    forall m | 0 <= m < 6
      ensures Next(a, 31, m) == Bits(r[5 - m])
    {
      Times18(m);
      Sums9(m);
    }
    Round(a, 31, r);
  }

  lemma Sums9(m: nat)
    requires m < 6
    ensures XorGroup(Bits([31, 6, 27, 9, 4, 6][m]), Bits([30, 6, 27, 9, 4, 6][m])) == Bits([1, 0, 0, 0, 0, 0][m])
  {
  }

  /** The remainder of the string's prefix and values is one. */
  lemma Remains()
    ensures Fold(OneWord(), GroupsOf([3, 0, 1, 10, 28, 25, 31, 20, 31])) == OneWord()
  {
    hide Step, Bits;
    var v := GroupsOf([3, 0, 1, 10, 28, 25, 31, 20, 31]);
    OneIs();
    Move([0, 0, 0, 0, 0, 1], 3);
    Move([0, 0, 0, 0, 1, 3], 0);
    Move([0, 0, 0, 1, 3, 0], 1);
    Move([0, 0, 1, 3, 0, 1], 10);
    Move([0, 1, 3, 0, 1, 10], 28);
    Round6();
    Round7();
    Round8();
    Round9();
    FoldNine(v);
  }

  lemma OneIs()
    ensures OneWord() == Word6([0, 0, 0, 0, 0, 1])
  {
    ZeroBits();
    assert Bits(1) == [true, false, false, false, false];
  }

  lemma FoldNine(v: Groups)
    requires |v| == 9
    ensures var w := Step(Step(Step(Step(OneWord(), v[0]), v[1]), v[2]), v[3]);
      Fold(OneWord(), v) == Step(Step(Step(Step(Step(w, v[4]), v[5]), v[6]), v[7]), v[8])
  {
    hide Step, OneWord;
    var w := OneWord();
    FoldFirst(w, v);
    FoldFirst(Step(w, v[0]), v[1..]);
    var w2 := Step(Step(w, v[0]), v[1]);
    assert v[1..][1..] == v[2..] && v[2..][1..] == v[3..] && v[3..][1..] == v[4..] && v[4..][1..] == v[5..];
    assert v[5..][1..] == v[6..] && v[6..][1..] == v[7..] && v[7..][1..] == v[8..] && v[8..][1..] == [];
    FoldFirst(w2, v[2..]);
    var w3 := Step(w2, v[2]);
    FoldFirst(w3, v[3..]);
    var w4 := Step(w3, v[3]);
    FoldFirst(w4, v[4..]);
    var w5 := Step(w4, v[4]);
    FoldFirst(w5, v[5..]);
    var w6 := Step(w5, v[5]);
    FoldFirst(w6, v[6..]);
    var w7 := Step(w6, v[6]);
    FoldFirst(w7, v[7..]);
    FoldFirst(Step(w7, v[7]), v[8..]);
  }

  lemma FoldFirst(c: Word, v: Groups)
    requires v != []
    ensures Fold(c, v) == Fold(Step(c, v[0]), v[1..]) && Fold(c, []) == c
    ensures v[1..] == [] ==> Fold(c, v) == Step(c, v[0])
  {
    hide Step;
  }

  /** BIP 173 lists A12UEL5L as valid: prefix a, no values. */
  method ListedString() returns (ok: bool, hrp: string, values: Values)
    ensures ok && hrp == "a" && values == []
  {
    hide Decodes;
    Accepted();
    ok, hrp, values := Decode("A12UEL5L");
  }

  lemma Accepted()
    ensures Decodes("A12UEL5L") && LastOne("A12UEL5L") == 1 && LowerAll("A12UEL5L"[..1]) == "a"
  {
    hide Fold, ValueOf;
    var s := "A12UEL5L";
    Separator();
    Characters();
    assert s[..1] == "A" && s[2..] == "2UEL5L";
    assert LowerAll("A") == "a";
    assert ValuesOf("2UEL5L") == [10, 28, 25, 31, 20, 31];
    assert Expanded("a") + [10, 28, 25, 31, 20, 31] == [3, 0, 1, 10, 28, 25, 31, 20, 31];
    Remains();
    forall i | 0 <= i < |s|
      ensures Printable(s[i]) && !Lower(s[i])
    {
    }
  }

  lemma Separator()
    ensures LastOne("A12UEL5L") == 1
  {
    var tail := "2UEL5L";
    assert "A" + "1" + tail == "A12UEL5L";
    LastSeparator("A", tail);
  }

  lemma Characters()
    ensures ValueOf('2') == 10 && ValueOf('U') == 28 && ValueOf('E') == 25 && ValueOf('L') == 31 && ValueOf('5') == 20
  {
  }
}
