/** The Bech32 checksum (BIP 173): a remainder in GF(32)[x], packed into 30 bits. */
module Bech32Checksum {

  /** A 30-bit number and a five-bit group as their bits, least significant first. */
  type Word = w: seq<bool> | |w| == 30 witness seq(30, i => false)
  type Group = g: seq<bool> | |g| == 5 witness seq(5, i => false)

  /** Bit i of a number. */
  predicate Bit(n: nat, i: nat) { if i == 0 then n % 2 == 1 else Bit(n / 2, i - 1) }

  function Bits(v: nat): Group { [v % 2 == 1, v / 2 % 2 == 1, v / 4 % 2 == 1, v / 8 % 2 == 1, v / 16 % 2 == 1] }

  function Number(g: Group): (r: nat)
    ensures r < 32
  {
    (if g[0] then 1 else 0) + (if g[1] then 2 else 0) + (if g[2] then 4 else 0) +
    (if g[3] then 8 else 0) + (if g[4] then 16 else 0)
  }

  lemma BitsOfNumber(g: Group)
    ensures Bits(Number(g)) == g
  {
  }

  lemma NumberOfBits(v: nat)
    requires v < 32
    ensures Number(Bits(v)) == v
  {
  }

  // ----- one round -----

  predicate Xor(a: bool, b: bool) { a != b }

  function XorWord(c: Word, x: Word): Word { seq(30, i requires 0 <= i < 30 => Xor(c[i], x[i])) }

  function XorGroup(g: Group, h: Group): Group { seq(5, i requires 0 <= i < 5 => Xor(g[i], h[i])) }

  function Zero(): Word { seq(30, i => false) }

  function WordOf(k: nat): Word { seq(30, i requires 0 <= i < 30 => Bit(k, i)) }

  /** One conditional reduction: if bit j of c is set, subtract k from w. */
  function Reduced(w: Word, c: Word, j: nat, k: nat): Word
    requires j < 30
  {
    if c[j] then XorWord(w, WordOf(k)) else w
  }

  /** One round: the word moves up by a group, the new group comes in below, and each of the five bits moved out
      subtracts its multiple of the generator. */
  function Step(c: Word, g: Group): Word
  {
    var w1 := Reduced(g + c[..25], c, 25, 0x3b6a_57b2);
    var w2 := Reduced(w1, c, 26, 0x2650_8e6d);
    var w3 := Reduced(w2, c, 27, 0x1ea1_19fa);
    var w4 := Reduced(w3, c, 28, 0x3d42_33dd);
    Reduced(w4, c, 29, 0x2a14_62b3)
  }

  lemma XorUnits(a: Word)
    ensures XorWord(a, a) == Zero() && XorWord(a, Zero()) == a
  {
  }

  lemma ReducedLinear(w: Word, y: Word, c: Word, x: Word, j: nat, k: nat)
    requires j < 30
    ensures Reduced(XorWord(w, y), XorWord(c, x), j, k) == XorWord(Reduced(w, c, j, k), Reduced(y, x, j, k))
  {
    assert XorWord(c, x)[j] == (c[j] != x[j]);
    XorsAround(w, y, WordOf(k));
  }

  lemma XorsAround(w: Word, y: Word, k: Word)
    ensures XorWord(XorWord(w, k), XorWord(y, k)) == XorWord(w, y)
    ensures XorWord(XorWord(w, k), y) == XorWord(XorWord(w, y), k)
    ensures XorWord(w, XorWord(y, k)) == XorWord(XorWord(w, y), k)
  {
  }

  lemma MovedLinear(c: Word, x: Word, g: Group, h: Group)
    ensures XorGroup(g, h) + XorWord(c, x)[..25] == XorWord(g + c[..25], h + x[..25])
  {
  }

  /** Differences go through a round on their own. */
  lemma StepLinear(c: Word, x: Word, g: Group, h: Group)
    ensures Step(XorWord(c, x), XorGroup(g, h)) == XorWord(Step(c, g), Step(x, h))
  {
    hide Reduced, XorWord, XorGroup;
    var w0, y0 := g + c[..25], h + x[..25];
    MovedLinear(c, x, g, h);
    ReducedLinear(w0, y0, c, x, 25, 0x3b6a_57b2);
    var w1, y1 := Reduced(w0, c, 25, 0x3b6a_57b2), Reduced(y0, x, 25, 0x3b6a_57b2);
    ReducedLinear(w1, y1, c, x, 26, 0x2650_8e6d);
    var w2, y2 := Reduced(w1, c, 26, 0x2650_8e6d), Reduced(y1, x, 26, 0x2650_8e6d);
    ReducedLinear(w2, y2, c, x, 27, 0x1ea1_19fa);
    var w3, y3 := Reduced(w2, c, 27, 0x1ea1_19fa), Reduced(y2, x, 27, 0x1ea1_19fa);
    ReducedLinear(w3, y3, c, x, 28, 0x3d42_33dd);
    var w4, y4 := Reduced(w3, c, 28, 0x3d42_33dd), Reduced(y3, x, 28, 0x3d42_33dd);
    ReducedLinear(w4, y4, c, x, 29, 0x2a14_62b3);
  }

  /** Bit i after one round. */
  predicate Cell(c: Word, g: Group, i: nat)
    requires i < 30
  {
    Xor(Xor(Xor(Xor(Xor(if i < 5 then g[i] else c[i - 5],
      c[25] && Bit(0x3b6a_57b2, i)), c[26] && Bit(0x2650_8e6d, i)), c[27] && Bit(0x1ea1_19fa, i)),
      c[28] && Bit(0x3d42_33dd, i)), c[29] && Bit(0x2a14_62b3, i))
  }

  lemma ReducedAt(w: Word, c: Word, j: nat, k: nat, i: nat)
    requires j < 30 && i < 30
    ensures Reduced(w, c, j, k)[i] == Xor(w[i], c[j] && Bit(k, i))
  {
  }

  lemma StepAt(c: Word, g: Group, i: nat)
    requires i < 30
    ensures Step(c, g)[i] == Cell(c, g, i)
  {
    hide Reduced, Bit, Xor;
    var w0 := g + c[..25];
    ReducedAt(w0, c, 25, 0x3b6a_57b2, i);
    var w1 := Reduced(w0, c, 25, 0x3b6a_57b2);
    ReducedAt(w1, c, 26, 0x2650_8e6d, i);
    var w2 := Reduced(w1, c, 26, 0x2650_8e6d);
    ReducedAt(w2, c, 27, 0x1ea1_19fa, i);
    var w3 := Reduced(w2, c, 27, 0x1ea1_19fa);
    ReducedAt(w3, c, 28, 0x3d42_33dd, i);
    ReducedAt(Reduced(w3, c, 28, 0x3d42_33dd), c, 29, 0x2a14_62b3, i);
  }

  /** A difference is never absorbed: the bits moved out would have to cancel in the lowest group. */
  lemma StepInjective(x: Word)
    requires Step(x, Bits(0)) == Zero()
    ensures x == Zero()
  {
    hide Cell, Step;
    var s := Step(x, Bits(0));
    forall i | 0 <= i < 30
      ensures !Cell(x, Bits(0), i)
    {
      StepAt(x, Bits(0), i);
      assert s[i] == Zero()[i];
    }
    LowestGroup(x);
    forall i | 0 <= i < 25
      ensures !x[i]
    {
      UpperCell(x, Bits(0), i + 5);
      assert !Cell(x, Bits(0), i + 5);
    }
  }

  lemma UpperCell(x: Word, g: Group, i: nat)
    requires i < 30 && !x[25] && !x[26] && !x[27] && !x[28] && !x[29]
    ensures Cell(x, g, i) == if i < 5 then g[i] else x[i - 5]
  {
    hide Bit;
  }

  lemma LowestGroup(x: Word)
    requires forall i :: 0 <= i < 5 ==> !Cell(x, Bits(0), i)
    ensures !x[25] && !x[26] && !x[27] && !x[28] && !x[29]
  {
    assert !Cell(x, Bits(0), 0) && !Cell(x, Bits(0), 1) && !Cell(x, Bits(0), 2) && !Cell(x, Bits(0), 3) &&
      !Cell(x, Bits(0), 4);
    ZeroBits();
    LowestGroups();
  }

  lemma ZeroBits()
    ensures Bits(0) == [false, false, false, false, false]
  {
  }

  function Low(k: nat): Group { [Bit(k, 0), Bit(k, 1), Bit(k, 2), Bit(k, 3), Bit(k, 4)] }

  /** The lowest groups of the five multiples of the generator: 18, 13, 26, 29, 19. */
  lemma LowestGroups()
    ensures Low(0x3b6a_57b2) == [false, true, false, false, true]
    ensures Low(0x2650_8e6d) == [true, false, true, true, false]
    ensures Low(0x1ea1_19fa) == [false, true, false, true, true]
    ensures Low(0x3d42_33dd) == [true, false, true, true, true]
    ensures Low(0x2a14_62b3) == [true, true, false, false, true]
  {
  }

  /** With nothing moved out a round only moves. */
  lemma StepMoves(x: Word, g: Group)
    requires !x[25] && !x[26] && !x[27] && !x[28] && !x[29]
    ensures Step(x, g) == g + x[..25]
  {
    hide Reduced;
    ReducedNot(g + x[..25], x);
  }

  lemma ReducedNot(w: Word, c: Word)
    ensures forall j, k: nat :: 0 <= j < 30 && !c[j] ==> Reduced(w, c, j, k) == w
  {
  }

  // ----- the remainder of a list -----

  type Groups = seq<Group>

  function Fold(c: Word, v: Groups): Word
    decreases |v|
  {
    if v == [] then c else Fold(Step(c, v[0]), v[1..])
  }

  function OneWord(): Word { [true] + seq(29, i => false) }

  lemma {:induction false} FoldAppend(c: Word, v: Groups, w: Groups)
    ensures Fold(c, v + w) == Fold(Fold(c, v), w)
    decreases |v|
  {
    hide Step;
    if v == [] {
      assert v + w == w;
    } else {
      assert (v + w)[1..] == v[1..] + w;
      FoldAppend(Step(c, v[0]), v[1..], w);
    }
  }

  function XorGroups(v: Groups, w: Groups): (r: Groups)
    requires |v| == |w|
    ensures |r| == |v|
  {
    seq(|v|, i requires 0 <= i < |v| => XorGroup(v[i], w[i]))
  }

  /** The remainder is linear. */
  lemma {:induction false} FoldLinear(c: Word, x: Word, v: Groups, w: Groups)
    requires |v| == |w|
    ensures Fold(XorWord(c, x), XorGroups(v, w)) == XorWord(Fold(c, v), Fold(x, w))
    decreases |v|
  {
    hide Step, XorWord, XorGroup;
    if v != [] {
      StepLinear(c, x, v[0], w[0]);
      FoldLinear(Step(c, v[0]), Step(x, w[0]), v[1..], w[1..]);
      assert XorGroups(v, w)[1..] == XorGroups(v[1..], w[1..]);
    }
  }

  function Zeros(n: nat): Groups { seq(n, i => Bits(0)) }

  /** Zeros never make a difference disappear. */
  lemma {:induction false} ZerosKeep(x: Word, n: nat)
    requires Fold(x, Zeros(n)) == Zero()
    ensures x == Zero()
    decreases n
  {
    hide Step, Zero, Bits;
    if n > 0 {
      assert Zeros(n)[1..] == Zeros(n - 1);
      ZerosKeep(Step(x, Bits(0)), n - 1);
      StepInjective(x);
    }
  }

  // ----- up to six groups are held by the remainder as they are -----

  /** The last group lowest. */
  function Packed(v: Groups): (r: seq<bool>)
    ensures |r| == 5 * |v|
    decreases |v|
  {
    if v == [] then [] else Packed(v[1..]) + v[0]
  }

  /** Moving at most six groups into nothing packs them. */
  lemma {:induction false} FoldPacks(x: seq<bool>, v: Groups)
    requires |x| + 5 * |v| <= 30
    ensures Fold(Padded(x), v) == Padded(Packed(v) + x)
    decreases |v|
  {
    hide Step;
    if v == [] {
      assert Packed(v) + x == x;
    } else {
      StepMoves(Padded(x), v[0]);
      assert v[0] + Padded(x)[..25] == Padded(v[0] + x);
      FoldPacks(v[0] + x, v[1..]);
      assert Packed(v[1..]) + (v[0] + x) == Packed(v) + x;
    }
  }

  /** Leading zeros up to 30 bits. */
  function Padded(x: seq<bool>): Word
    requires |x| <= 30
  {
    x + seq(30 - |x|, i => false)
  }

  // ----- error detection -----

  lemma {:induction false} PackedZero(v: Groups)
    requires forall i :: 0 <= i < |Packed(v)| ==> !Packed(v)[i]
    ensures forall i :: 0 <= i < |v| ==> v[i] == Bits(0)
    decreases |v|
  {
    if v != [] {
      var rest := Packed(v[1..]);
      forall i | 0 <= i < |rest|
        ensures !rest[i]
      {
        assert Packed(v)[i] == rest[i];
      }
      PackedZero(v[1..]);
      forall i | 0 <= i < 5
        ensures !v[0][i]
      {
        assert Packed(v)[|rest| + i] == v[0][i];
      }
      ZeroBits();
      assert v[0] == Bits(0);
    }
  }

  lemma NoDifference(u: Groups, w: Groups)
    requires |u| == |w| && forall i :: 0 <= i < |u| ==> XorGroups(u, w)[i] == Bits(0)
    ensures u == w
  {
    ZeroBits();
    forall i | 0 <= i < |u|
      ensures u[i] == w[i]
    {
      var d := XorGroup(u[i], w[i]);
      assert XorGroups(u, w)[i] == d;
      forall j | 0 <= j < 5
        ensures u[i][j] == w[i][j]
      {
        assert d[j] == Bits(0)[j] == false;
      }
    }
  }

  lemma SelfXor(c: Word, t: Groups)
    ensures XorWord(c, c) == Zero() && XorGroups(t, t) == Zeros(|t|)
  {
    ZeroBits();
    forall i | 0 <= i < |t|
      ensures XorGroups(t, t)[i] == Bits(0)
    {
      assert XorGroup(t[i], t[i]) == Bits(0);
    }
  }

  /** Lists that differ only within six consecutive positions have different remainders. */
  lemma SixDetected(c: Word, p: Groups, u: Groups, w: Groups, t: Groups)
    requires |u| == |w| <= 6 && Fold(c, p + u + t) == Fold(c, p + w + t)
    ensures u == w
  {
    hide Step, XorWord, XorGroups, Zero, Bits, Fold;
    var start := Fold(c, p);
    FoldAppend(c, p + u, t);
    FoldAppend(c, p, u);
    FoldAppend(c, p + w, t);
    FoldAppend(c, p, w);
    var a, b := Fold(start, u), Fold(start, w);
    FoldLinear(a, b, t, t);
    FoldLinear(start, start, u, w);
    SelfXor(start, t);
    SelfXor(Fold(a, t), t);
    ZerosKeep(XorWord(a, b), |t|);
    var d := XorGroups(u, w);
    ZeroPadded();
    FoldPacks([], d);
    AllZero(d);
    NoDifference(u, w);
  }

  lemma ZeroPadded()
    ensures Padded([]) == Zero()
  {
  }

  lemma AllZero(d: Groups)
    requires |d| <= 6 && Padded(Packed(d) + []) == Zero()
    ensures forall i :: 0 <= i < |d| ==> d[i] == Bits(0)
  {
    hide Packed, Bits;
    var p := Packed(d);
    forall i | 0 <= i < |p|
      ensures !p[i]
    {
      assert Padded(p + [])[i] == p[i];
      assert !Zero()[i];
    }
    PackedZero(d);
  }
}
