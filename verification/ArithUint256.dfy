/** base_uint<256>: arithmetic on eight 32-bit limbs, changed in place. Every method is specified by the number
    the limbs stand for. */
module ArithUint256 {
  import opened Powers
  import opened Limbs
  import opened LimbShifts

  /** 2^256. */
  ghost function Modulus(): (m: nat)
    ensures m > 0
  {
    Pow(B, WIDTH)
  }

  lemma BelowModulus(s: seq<nat>)
    requires Wide(s)
    ensures Value(s, WIDTH) < Modulus()
    ensures Value(s, WIDTH) % Modulus() == Value(s, WIDTH)
  {
    ValueBelow(s, WIDTH);
    QuotientIs(Value(s, WIDTH), Modulus(), 0, Value(s, WIDTH));
  }

  lemma ModulusIs()
    ensures Modulus() == Pow(2, 256)
  {
    Pow32();
    PowMul(2, 32, WIDTH);
  }

  /** The remainder after a carry out of the top limb is dropped. */
  lemma Dropped(s: seq<nat>, total: nat, carry: nat)
    requires Wide(s) && Value(s, WIDTH) + carry * Pow(B, WIDTH) == total
    ensures Value(s, WIDTH) == total % Modulus()
  {
    ValueBelow(s, WIDTH);
    QuotientIs(total, Modulus(), carry, Value(s, WIDTH));
  }

  lemma {:induction false} Complement(s: seq<nat>, t: seq<nat>, n: nat)
    requires n <= |s| && n <= |t| && forall i :: 0 <= i < n ==> s[i] + t[i] == B - 1
    ensures Value(s, n) + Value(t, n) == Pow(B, n) - 1
  {
    if n > 0 {
      Complement(s, t, n - 1);
      Spread(s[n - 1], t[n - 1], Pow(B, n - 1));
      Spread(B, 1, Pow(B, n - 1));
    }
  }

  /** Adding two limbs and a carry. */
  lemma AddStep(x: seq<nat>, y: seq<nat>, t: seq<nat>, i: nat, carry: nat, n: nat)
    requires |x| == |y| == |t| == WIDTH && i < WIDTH && n == carry + x[i] + y[i]
    requires Value(t, i) + carry * Pow(B, i) == Value(x, i) + Value(y, i)
    ensures Value(t[i := n % B], i + 1) + n / B * Pow(B, i + 1) == Value(x, i + 1) + Value(y, i + 1)
  {
    ValueFrame(t, t[i := n % B], i);
    var p := Pow(B, i);
    Carry(n, p);
    Spread(carry, x[i], p);
    Spread(carry + x[i], y[i], p);
  }

  /** Multiplying a limb by a 32-bit number and adding a carry. */
  lemma ScaleStep(x: seq<nat>, t: seq<nat>, i: nat, b: nat, carry: nat, n: nat)
    requires |x| == |t| == WIDTH && i < WIDTH && n == carry + b * x[i]
    requires Value(t, i) + carry * Pow(B, i) == b * Value(x, i)
    ensures Value(t[i := n % B], i + 1) + n / B * Pow(B, i + 1) == b * Value(x, i + 1)
  {
    hide Value, Pow;
    var u := t[i := n % B];
    ValueFrame(t, u, i);
    ValueStep(u, i);
    ValueStep(x, i);
    PowStep(B, i);
    ScaleDigit(b, Value(x, i), x[i], Pow(B, i), carry, n, Value(t, i));
  }

  lemma ScaleDigit(b: int, v: int, x: int, p: nat, carry: int, n: nat, done: int)
    requires done + carry * p == b * v && n == carry + b * x
    ensures done + n % B * p + n / B * (B * p) == b * (v + x * p)
  {
    Carry(n, p);
    Spread(carry, b * x, p);
    Assoc(b, x, p);
  }

  /** One inner step of long multiplication: row j, column i. */
  lemma RowStep(start: nat, x: seq<nat>, t: seq<nat>, i: nat, j: nat, d: nat, carry: nat, n: nat)
    requires |x| == |t| == WIDTH && i + j < WIDTH && n == carry + t[i + j] + d * x[i]
    requires Value(t, WIDTH) + carry * Pow(B, i + j) == start + d * Pow(B, j) * Value(x, i)
    ensures Value(t[i + j := n % B], WIDTH) + n / B * Pow(B, i + j + 1) == start + d * Pow(B, j) * Value(x, i + 1)
  {
    hide Value, Pow;
    ValuePut(t, i + j, n % B, WIDTH);
    PowStep(B, i + j);
    ValueStep(x, i);
    PowAdd(B, i, j);
    RowDigit(start, Value(t, WIDTH), carry, d, x[i], t[i + j], Value(x, i), Pow(B, i), Pow(B, j), n);
  }

  lemma RowDigit(start: int, was: int, carry: int, d: int, x: int, limb: int, v: int, p: nat, q: nat, n: nat)
    requires n == carry + limb + d * x && was + carry * (p * q) == start + d * q * v
    ensures was + (n % B - limb) * (p * q) + n / B * (B * (p * q)) == start + d * q * (v + x * p)
  {
    var m := p * q;
    Carry(n, m);
    Spread(n % B, limb, m);
    Spread(carry + limb, d * x, m);
    Spread(carry, limb, m);
    RowWeight(d, x, p, q);
    Spread(v, x * p, d * q);
  }

  lemma RowWeight(d: int, x: int, p: int, q: int)
    ensures d * x * (p * q) == x * p * (d * q)
  {
    Assoc(x, p, d * q);
    Assoc(p, d, q);
    Assoc(d, p, q);
    Assoc(x, d, p * q);
  }

  /** A finished row adds its digit's multiple, up to what leaves the top. */
  lemma RowDone(b: seq<nat>, start: nat, after: nat, carry: nat, d: nat, j: nat)
    requires |b| == WIDTH && j < WIDTH
    requires after + carry * Pow(B, WIDTH) == start + d * Pow(B, j) * Value(b, WIDTH - j)
    ensures after % Modulus() == (start + d * Pow(B, j) * Value(b, WIDTH)) % Modulus()
  {
    hide Value, Pow;
    ValueSplit(b, WIDTH - j, WIDTH);
    PowAdd(B, WIDTH - j, j);
    RowTop(start, after, carry, d, Pow(B, j), Value(b, WIDTH - j), High(b, WIDTH - j, WIDTH), Pow(B, WIDTH - j));
  }

  lemma RowTop(start: nat, after: nat, carry: nat, d: nat, q: nat, w: nat, h: nat, p: nat)
    requires p * q > 0 && after + carry * (p * q) == start + d * q * w
    ensures after % (p * q) == (start + d * q * (w + h * p)) % (p * q)
  {
    var m := p * q;
    Spread(w, h * p, d * q);
    RowWeight(d, h, p, q);
    Spread(carry, d * h, m);
    SameRemainder(after, start + d * q * (w + h * p), m, carry + d * h);
  }

  /** Rows accumulate the product. */
  lemma RowsSoFar(y: seq<nat>, v: nat, start: nat, after: nat, j: nat)
    requires |y| == WIDTH && j < WIDTH
    requires start % Modulus() == Value(y, j) * v % Modulus()
    requires after % Modulus() == (start + y[j] * Pow(B, j) * v) % Modulus()
    ensures after % Modulus() == Value(y, j + 1) * v % Modulus()
  {
    hide Value, Pow, Modulus;
    ValueStep(y, j);
    Spread(Value(y, j), y[j] * Pow(B, j), v);
    AddSame(start, Value(y, j) * v, y[j] * Pow(B, j) * v, Modulus());
  }

  lemma AddSame(x: nat, y: nat, z: nat, m: nat)
    requires m > 0 && x % m == y % m
    ensures (x + z) % m == (y + z) % m
  {
    Spread(x / m, y / m, m);
    SameRemainder(y + z, x + z, m, x / m - y / m);
  }

  /** The 64-bit intermediate of the multiplication loops never overflows. */
  lemma Fits(carry: nat, limb: nat, x: nat, y: nat)
    requires carry < B && limb < B && x < B && y < B
    ensures carry + limb + x * y < B * B
  {
    Scale(x, y, B - 1);
    Scale(B - 1, x, B - 1);
  }

  lemma NoLimbs(s: seq<nat>)
    ensures Value(s, 0) == 0 && Pow(B, 0) == 1
  {
  }

  lemma LeftStart(a: seq<nat>, t: seq<nat>, k: nat, s: nat)
    requires Wide(a) && Wide(t) && k < WIDTH && s < 32 && forall j :: 0 <= j < WIDTH ==> t[j] == 0
    ensures LeftInv(a, t, 0, k, s)
  {
    ValueZero(t, WIDTH);
  }

  lemma LeftRests(a: seq<nat>, t: seq<nat>, i: nat, k: nat, s: nat)
    requires |a| == |t| == WIDTH && i < WIDTH <= i + k && s < 32
    ensures LeftStep(a, t, i, k, s) == t
  {
  }

  lemma RightRests(a: seq<nat>, t: seq<nat>, i: nat, k: nat, s: nat)
    requires |a| == |t| == WIDTH && i < WIDTH && i < k && s < 32
    ensures RightStep(a, t, i, k, s) == t
  {
  }

  lemma RightDone(a: seq<nat>, t: seq<nat>, k: nat, s: nat)
    requires Wide(a) && Wide(t) && s < 32 && Pow(2, s) * Pow(B, k) > 0 && RightInv(a, t, WIDTH, k, s)
    ensures Pow(2, 32 * k + s) > 0 && Value(t, WIDTH) == Value(a, WIDTH) / Pow(2, 32 * k + s)
  {
    ShiftWeight(k, s);
  }

  lemma Subtracted(x: nat, y: nat, m: nat)
    requires x < m && y < m
    ensures (x + (m - y) % m) % m == (x + (m - y)) % m
    ensures y <= x ==> (x + (m - y)) % m == x - y
  {
    if y == 0 {
      QuotientIs(m, m, 1, 0);
      QuotientIs(x, m, 0, x);
      QuotientIs(x + m, m, 1, x);
    } else {
      QuotientIs(m - y, m, 0, m - y);
      if y <= x {
        QuotientIs(x + (m - y), m, 1, x - y);
      }
    }
  }

  // ----- division -----

  lemma {:induction false} HighFirst(s: seq<nat>, m: nat, n: nat)
    requires m < n <= |s|
    ensures High(s, m, n) == s[m] + B * High(s, m + 1, n)
  {
    if m + 1 < n {
      HighFirst(s, m, n - 1);
      PowStep(B, n - 2 - m);
      Assoc(B, s[n - 1], Pow(B, n - 2 - m));
      Assoc(s[n - 1], B, Pow(B, n - 2 - m));
      Spread(High(s, m + 1, n - 1), s[n - 1] * Pow(B, n - 2 - m), B);
    } else {
      assert Pow(B, 0) == 1;
    }
  }

  /** A multiple of c * w, split at weight w. */
  lemma SplitMultiple(low: nat, h: nat, w: nat, c: nat)
    requires low < w && c > 0 && c * w > 0 && (low + h * w) % (c * w) == 0
    ensures h % c == 0
  {
    var v := low + h * w;
    var k := v / (c * w);
    Assoc(k, c, w);
    QuotientIs(v, w, h, low);
    QuotientIs(v, w, k * c, 0);
    QuotientIs(h, c, k, 0);
  }

  /** In a multiple of 2^(shift+1), bit `shift` is free, so or-ing it in adds it. */
  lemma FreeBit(s: seq<nat>, shift: nat)
    requires Wide(s) && shift < 256 && Value(s, WIDTH) % Pow(2, shift + 1) == 0
    ensures BitOr(s[shift / 32], Pow(2, shift % 32)) == s[shift / 32] + Pow(2, shift % 32) < B
  {
    hide Pow, Value, BitOr, High;
    var j, t := shift / 32, shift % 32;
    var c, d, w := Pow(2, t + 1), Pow(2, 31 - t), Pow(B, j);
    ShiftWeight(j, t + 1);
    ValueSplit(s, j, WIDTH);
    ValueBelow(s, j);
    SplitMultiple(Value(s, j), High(s, j, WIDTH), w, c);
    HighFirst(s, j, WIDTH);
    Pow32();
    PowAdd(2, t + 1, 31 - t);
    LowLimb(s[j], High(s, j + 1, WIDTH), c, d);
    PowStep(2, t);
    OrDisjoint(s[j], Pow(2, t), t + 1);
    Room(s[j], Pow(2, t), c, d);
  }

  lemma LowLimb(x: nat, h: nat, c: nat, d: nat)
    requires c > 0 && c * d == B && (x + B * h) % c == 0
    ensures x % c == 0
  {
    Assoc(c, d, h);
    SameRemainder(x, x + B * h, c, d * h);
  }

  lemma BitAdded(s: seq<nat>, shift: nat)
    requires Wide(s) && shift < 256 && Value(s, WIDTH) % Pow(2, shift + 1) == 0
    ensures var r := s[shift / 32 := BitOr(s[shift / 32], Pow(2, shift % 32))];
      Wide(r) && Value(r, WIDTH) == Value(s, WIDTH) + Pow(2, shift)
  {
    hide Pow, Value, BitOr;
    FreeBit(s, shift);
    ValuePut(s, shift / 32, BitOr(s[shift / 32], Pow(2, shift % 32)), WIDTH);
    ShiftWeight(shift / 32, shift % 32);
  }

  /** One round of the division keeps quotient * divisor + remainder and halves the bound on the remainder. */
  lemma DivideRound(q: nat, b: nat, num: nat, p: nat, q': nat, num': nat)
    requires p > 0 && q % (2 * p) == 0 && num < b * (2 * p)
    requires if num >= b * p then q' == q + p && num' == num - b * p else q' == q && num' == num
    ensures q' * b + num' == q * b + num && num' < b * p && q' % p == 0
  {
    var k := q / (2 * p);
    assert q == k * (2 * p);
    Assoc(k, 2, p);
    Assoc(b, 2, p);
    Spread(q, p, b);
    if num >= b * p {
      Spread(k * 2, 1, p);
      QuotientIs(q', p, k * 2 + 1, 0);
    } else {
      QuotientIs(q', p, k * 2, 0);
    }
  }

  /** The division loop: quotient * divisor + remainder is the dividend, the remainder is below twice the shifted
      divisor, and the quotient has no bit at or below the current position. */
  ghost predicate DivideInv(x: nat, y: nat, shift: int, q: nat, r: nat, d: nat)
  {
    && shift >= -1
    && q * y + r == x && r < y * Pow(2, shift + 1)
    && (shift >= 0 ==> d == y * Pow(2, shift))
    && q % Pow(2, shift + 1) == 0
  }

  lemma DivideNext(x: nat, y: nat, shift: nat, q: nat, r: nat, d: nat, q': nat, r': nat, d': nat)
    requires DivideInv(x, y, shift, q, r, d) && Pow(2, 1) > 0 && d' == d / Pow(2, 1)
    requires if r >= d then q' == q + Pow(2, shift) && r' == r - d else q' == q && r' == r
    ensures DivideInv(x, y, shift - 1, q', r', d')
  {
    hide Pow;
    PowStep(2, shift);
    DivideRound(q, y, r, Pow(2, shift), q', r');
    if shift > 0 {
      PowStep(2, shift - 1);
      Halved(y, Pow(2, shift - 1));
    }
  }

  /** Aligning the divisor's top bit with the dividend's. */
  lemma Aligned(a: nat, b: nat, n: nat, d: nat)
    requires 0 < d <= n <= 256 && a < Pow(2, n) && Pow(2, d - 1) <= b < Pow(2, d)
    ensures b * Pow(2, n - d) < Modulus() && a < b * Pow(2, n - d + 1)
  {
    hide Pow, Modulus;
    assert b * Pow(2, n - d) < Modulus() by {
      ModulusIs();
      PowAdd(2, d, n - d);
      PowMono(2, n, 256);
      StrictScale(Pow(2, n - d), b, Pow(2, d));
    }
    assert a < b * Pow(2, n - d + 1) by {
      PowAdd(2, d - 1, n - d + 1);
      Scale(Pow(2, n - d + 1), Pow(2, d - 1), b);
    }
  }

  class Uint256 {
    const pn: array<nat>

    ghost predicate Valid()
      reads pn
    {
      pn.Length == WIDTH && Small(pn[..])
    }

    ghost function Val(): nat
      requires pn.Length == WIDTH
      reads pn
    {
      Value(pn[..], WIDTH)
    }

    /** From a 64-bit number. */
    constructor (b: nat)
      requires b < B * B
      ensures Valid() && Val() == b && fresh(pn)
    {
      pn := new nat[WIDTH];
      new;
      Set(b);
    }

    constructor Copy(b: Uint256)
      requires b.Valid()
      ensures Valid() && pn[..] == b.pn[..] && fresh(pn)
    {
      pn := new nat[WIDTH];
      new;
      Assign(b);
    }

    method Assign(b: Uint256)
      requires pn.Length == WIDTH && b.Valid()
      modifies pn
      ensures Valid() && pn[..] == old(b.pn[..])
    {
      ghost var y := b.pn[..];
      for i := 0 to WIDTH
        invariant pn[..i] == y[..i] && b.pn[i..] == y[i..]
      {
        assert b.pn[i] == b.pn[i..][0] == y[i];
        pn[i] := b.pn[i];
        assert b.pn[i + 1..] == b.pn[i..][1..];
      }
      assert pn[..] == pn[..WIDTH] == y[..WIDTH] == y;
    }

    /** Assignment of a 64-bit number. */
    method Set(b: nat)
      requires pn.Length == WIDTH && b < B * B
      modifies pn
      ensures Valid() && Val() == b
    {
      pn[0] := b % B;
      pn[1] := b / B;
      for i := 2 to WIDTH
        invariant pn[0] == b % B && pn[1] == b / B
        invariant forall j :: 2 <= j < i ==> pn[j] == 0
      {
        pn[i] := 0;
      }
      ValueZeros(pn[..], 2, WIDTH);
      assert Value(pn[..], 1) == b % B by { assert Pow(B, 0) == 1; assert Value(pn[..], 0) == 0; }
      assert Pow(B, 1) == B;
    }

    method Clear()
      requires pn.Length == WIDTH
      modifies pn
      ensures Valid() && Val() == 0
      ensures forall i :: 0 <= i < WIDTH ==> pn[i] == 0
    {
      for i := 0 to WIDTH
        invariant forall j :: 0 <= j < i ==> pn[j] == 0
      {
        pn[i] := 0;
      }
      ValueZero(pn[..], WIDTH);
    }

    method ShiftLeft(shift: nat)
      requires Valid()
      modifies pn
      ensures Valid() && Val() == old(Val()) * Pow(2, shift) % Modulus()
    {
      hide Value, Pow, BitOr, LeftInv, LeftStep;
      var a := new Uint256.Copy(this);
      ghost var x := a.pn[..];
      Clear();
      var k, s := shift / 32, shift % 32;
      if k < WIDTH {
        LeftStart(x, pn[..], k, s);
      }
      for i := 0 to WIDTH
        invariant Valid() && a.pn[..] == x
        invariant k < WIDTH ==> LeftInv(x, pn[..], if i + k < WIDTH then i else WIDTH - k, k, s)
        invariant k >= WIDTH ==> Val() == 0
      {
        if i + k < WIDTH {
          LeftKeeps(x, pn[..], i, k, s);
        } else {
          LeftRests(x, pn[..], i, k, s);
        }
        ShiftLeftLimb(a, i, k, s);
      }
      LeftDone(x, pn[..], k, s);
    }

    /** The body of the left-shift loop. */
    method ShiftLeftLimb(a: Uint256, i: nat, k: nat, s: nat)
      requires pn.Length == a.pn.Length == WIDTH && pn != a.pn && i < WIDTH && s < 32
      modifies pn
      ensures pn[..] == LeftStep(a.pn[..], old(pn[..]), i, k, s)
    {
      hide Pow, BitOr;
      if i + k + 1 < WIDTH && s != 0 {
        pn[i + k + 1] := BitOr(pn[i + k + 1], a.pn[i] / Pow(2, 32 - s));
      }
      if i + k < WIDTH {
        pn[i + k] := BitOr(pn[i + k], a.pn[i] * Pow(2, s) % B);
      }
    }

    method ShiftRight(shift: nat)
      requires Valid()
      modifies pn
      ensures Valid() && Val() == old(Val()) / Pow(2, shift)
    {
      hide Value, Pow, BitOr, RightInv, RightStep;
      var a := new Uint256.Copy(this);
      ghost var x := a.pn[..];
      Clear();
      var k, s := shift / 32, shift % 32;
      ShiftWeight(k, s);
      RightSkips(x, pn[..], 0, k, s);
      for i := 0 to WIDTH
        invariant Valid() && a.pn[..] == x && RightInv(x, pn[..], i, k, s)
        invariant i <= k ==> forall j :: 0 <= j < WIDTH ==> pn[j] == 0
      {
        if i - k >= 0 {
          RightKeeps(x, pn[..], i, k, s);
        } else {
          RightRests(x, pn[..], i, k, s);
          RightSkips(x, pn[..], i + 1, k, s);
        }
        ShiftRightLimb(a, i, k, s);
      }
      RightDone(x, pn[..], k, s);
    }

    /** The body of the right-shift loop. */
    method ShiftRightLimb(a: Uint256, i: nat, k: nat, s: nat)
      requires pn.Length == a.pn.Length == WIDTH && pn != a.pn && i < WIDTH && s < 32
      modifies pn
      ensures pn[..] == RightStep(a.pn[..], old(pn[..]), i, k, s)
    {
      hide Pow, BitOr;
      if i - k - 1 >= 0 && s != 0 {
        pn[i - k - 1] := BitOr(pn[i - k - 1], a.pn[i] * Pow(2, 32 - s) % B);
      }
      if i - k >= 0 {
        pn[i - k] := BitOr(pn[i - k], a.pn[i] / Pow(2, s));
      }
    }

    method AddAssign(b: Uint256)
      requires Valid() && b.Valid()
      modifies pn
      ensures Valid() && Val() == (old(Val()) + old(b.Val())) % Modulus()
    {
      hide Value, Pow;
      ghost var x, y := pn[..], b.pn[..];
      var carry: nat := 0;
      NoLimbs(x);
      NoLimbs(y);
      NoLimbs(pn[..]);
      for i := 0 to WIDTH
        invariant Valid() && carry <= 1
        invariant Value(pn[..], i) + carry * Pow(B, i) == Value(x, i) + Value(y, i)
        invariant forall j :: i <= j < WIDTH ==> pn[j] == x[j] && b.pn[j] == y[j]
      {
        var n: nat := carry + pn[i] + b.pn[i];
        ghost var t: seq<nat> := pn[..];
        AddStep(x, y, t, i, carry, n);
        pn[i] := n % B;
        assert pn[..] == t[i := n % B];
        carry := n / B;
      }
      Dropped(pn[..], Value(x, WIDTH) + Value(y, WIDTH), carry);
    }

    method Not() returns (r: Uint256)
      requires Valid()
      ensures r.Valid() && fresh(r) && fresh(r.pn) && r.Val() == Modulus() - 1 - Val()
    {
      r := new Uint256(0);
      for i := 0 to WIDTH
        invariant r.Valid()
        invariant forall j :: 0 <= j < i ==> pn[j] + r.pn[j] == B - 1
      {
        r.pn[i] := B - 1 - pn[i];
      }
      Complement(pn[..], r.pn[..], WIDTH);
    }

    method Negated() returns (r: Uint256)
      requires Valid()
      ensures r.Valid() && fresh(r) && fresh(r.pn) && r.Val() == (Modulus() - Val()) % Modulus()
    {
      hide Value, Pow;
      r := Not();
      r.Increment();
    }

    method Increment()
      requires Valid()
      modifies pn
      ensures Valid() && Val() == (old(Val()) + 1) % Modulus()
    {
      hide Value, Pow;
      ghost var x := pn[..];
      NoLimbs(x);
      ValueBelow(x, WIDTH);
      var i := 0;
      while i < WIDTH
        invariant 0 <= i <= WIDTH && Valid() && Val() + Pow(B, i) == Value(x, WIDTH) + 1
      {
        ghost var t: seq<nat> := pn[..];
        pn[i] := (pn[i] + 1) % B;
        assert pn[..] == t[i := (t[i] + 1) % B];
        ValuePut(t, i, (t[i] + 1) % B, WIDTH);
        PowStep(B, i);
        if pn[i] != 0 {
          ValueBelow(pn[..], WIDTH);
          QuotientIs(Value(x, WIDTH) + 1, Modulus(), 0, Val());
          return;
        }
        assert (0 - t[i]) * Pow(B, i) == Pow(B, i) - B * Pow(B, i) by { Spread(1, B, Pow(B, i)); }
        i := i + 1;
      }
      QuotientIs(Value(x, WIDTH) + 1, Modulus(), 1, Val());
    }

    method SubAssign(b: Uint256)
      requires Valid() && b.Valid()
      modifies pn
      ensures Valid() && Val() == (old(Val()) + (Modulus() - old(b.Val()))) % Modulus()
      ensures old(b.Val()) <= old(Val()) ==> Val() == old(Val()) - old(b.Val())
    {
      hide Value, Pow;
      ghost var x, y, m := Val(), b.Val(), Modulus();
      ValueBelow(pn[..], WIDTH);
      ValueBelow(b.pn[..], WIDTH);
      var n := b.Negated();
      AddAssign(n);
      Subtracted(x, y, m);
    }

    method ScaleAssign(b32: nat)
      requires Valid() && b32 < B
      modifies pn
      ensures Valid() && Val() == b32 * old(Val()) % Modulus()
    {
      hide Value, Pow;
      ghost var x := pn[..];
      var carry: nat := 0;
      NoLimbs(x);
      for i := 0 to WIDTH
        invariant Valid() && carry < B
        invariant Value(pn[..], i) + carry * Pow(B, i) == b32 * Value(x, i)
        invariant forall j :: i <= j < WIDTH ==> pn[j] == x[j]
      {
        var n: nat := carry + b32 * pn[i];
        Fits(carry, 0, b32, pn[i]);
        ghost var t: seq<nat> := pn[..];
        ScaleStep(x, t, i, b32, carry, n);
        pn[i] := n % B;
        assert pn[..] == t[i := n % B];
        carry := n / B;
      }
      Dropped(pn[..], b32 * Value(x, WIDTH), carry);
    }

    method MulAssign(b: Uint256)
      requires Valid() && b.Valid()
      modifies pn
      ensures Valid() && Val() == old(Val()) * old(b.Val()) % Modulus()
    {
      hide Value, Pow, Modulus;
      ghost var x, y := pn[..], b.pn[..];
      var a := new Uint256(0);
      NoLimbs(x);
      for j := 0 to WIDTH
        invariant a.Valid() && pn[..] == x && b.pn[..] == y
        invariant a.Val() % Modulus() == Value(x, j) * Value(y, WIDTH) % Modulus()
      {
        ghost var start := a.Val();
        a.AddRow(pn[j], b, j);
        RowsSoFar(x, Value(y, WIDTH), start, a.Val(), j);
      }
      BelowModulus(a.pn[..]);
      Assign(a);
    }

    /** Row j of long multiplication: adds digit d times b, shifted by j limbs. */
    method AddRow(d: nat, b: Uint256, j: nat)
      requires Valid() && b.Valid() && b.pn != pn && d < B && j < WIDTH
      modifies pn
      ensures Valid() && Val() % Modulus() == (old(Val()) + d * Pow(B, j) * b.Val()) % Modulus()
    {
      hide Value, Pow;
      ghost var start, y := Val(), b.pn[..];
      NoLimbs(y);
      var carry: nat := 0;
      var i := 0;
      while i + j < WIDTH
        invariant 0 <= i <= WIDTH - j && Valid() && carry < B
        invariant Val() + carry * Pow(B, i + j) == start + d * Pow(B, j) * Value(y, i)
      {
        var n: nat := carry + pn[i + j] + d * b.pn[i];
        Fits(carry, pn[i + j], d, b.pn[i]);
        ghost var t: seq<nat> := pn[..];
        RowStep(start, y, t, i, j, d, carry, n);
        pn[i + j] := n % B;
        assert pn[..] == t[i + j := n % B];
        carry := n / B;
        i := i + 1;
      }
      RowDone(y, start, Val(), carry, d, j);
    }

    /** Division in place; dividing by zero is an error that leaves the object zero. */
    method DivAssign(b: Uint256) returns (ok: bool)
      requires Valid() && b.Valid()
      modifies pn
      ensures Valid() && (ok <==> old(b.Val()) != 0)
      ensures ok ==> Val() == old(Val()) / old(b.Val())
      ensures !ok ==> Val() == 0
    {
      hide Value, Pow, BitOr, Modulus;
      ghost var x, y := Val(), b.Val();
      var div := new Uint256.Copy(b);
      var num := new Uint256.Copy(this);
      Set(0);
      var numBits := num.Bits();
      var divBits := div.Bits();
      if divBits == 0 {
        return false;
      }
      if divBits > numBits {
        TooSmall(x, y, numBits, divBits);
        return true;
      }
      var shift := numBits - divBits;
      OneBit();
      Aligned(x, y, numBits, divBits);
      div.ShiftLeft(shift);
      QuotientIs(y * Pow(2, shift), Modulus(), 0, y * Pow(2, shift));
      while shift >= 0
        invariant -1 <= shift < 256 && Valid() && num.Valid() && div.Valid()
        invariant DivideInv(x, y, shift, Val(), num.Val(), div.Val())
      {
        DivideStep(num, div, shift, x, y);
        shift := shift - 1;
      }
      QuotientIs(x, y, Val(), num.Val());
      return true;
    }

    /** One round of the division loop, at bit position shift. */
    method DivideStep(num: Uint256, div: Uint256, shift: nat, ghost x: nat, ghost y: nat)
      requires Valid() && num.Valid() && div.Valid() && shift < 256
      requires pn != num.pn && pn != div.pn && num.pn != div.pn
      requires DivideInv(x, y, shift, Val(), num.Val(), div.Val())
      modifies pn, num.pn, div.pn
      ensures Valid() && num.Valid() && div.Valid()
      ensures DivideInv(x, y, shift - 1, Val(), num.Val(), div.Val())
    {
      hide Value, Pow, BitOr, Modulus;
      ghost var q, r, d := Val(), num.Val(), div.Val();
      var c := num.CompareTo(div);
      if c >= 0 {
        num.SubAssign(div);
        BitAdded(pn[..], shift);
        ghost var t: seq<nat> := pn[..];
        pn[shift / 32] := BitOr(pn[shift / 32], Pow(2, shift % 32));
        assert pn[..] == t[shift / 32 := BitOr(t[shift / 32], Pow(2, shift % 32))];
      }
      div.ShiftRight(1);
      DivideNext(x, y, shift, q, r, d, Val(), num.Val(), div.Val());
    }

    method CompareTo(b: Uint256) returns (r: int)
      requires Valid() && b.Valid()
      ensures r == if Val() < b.Val() then -1 else if Val() > b.Val() then 1 else 0
    {
      hide Value, Pow;
      var i := WIDTH - 1;
      while i >= 0
        invariant -1 <= i < WIDTH && pn[i + 1..] == b.pn[i + 1..]
      {
        assert pn[i..] == [pn[i]] + pn[i + 1..] && b.pn[i..] == [b.pn[i]] + b.pn[i + 1..];
        assert pn[..][i + 1..] == pn[i + 1..] && b.pn[..][i + 1..] == b.pn[i + 1..];
        if pn[i] < b.pn[i] {
          ValueOrder(pn[..], b.pn[..], i, WIDTH);
          return -1;
        }
        if pn[i] > b.pn[i] {
          ValueOrder(b.pn[..], pn[..], i, WIDTH);
          return 1;
        }
        i := i - 1;
      }
      assert pn[..] == pn[0..] == b.pn[0..] == b.pn[..];
      return 0;
    }

    method EqualTo(b: nat) returns (r: bool)
      requires Valid() && b < B * B
      ensures r <==> Val() == b
    {
      hide Pow;
      ghost var s := pn[..];
      LowTwo(s);
      var i := WIDTH - 1;
      while i >= 2
        invariant 1 <= i < WIDTH && forall j :: i < j < WIDTH ==> pn[j] == 0
      {
        if pn[i] != 0 {
          HighLimb(s, i);
          return false;
        }
        i := i - 1;
      }
      ValueZeros(s, 2, WIDTH);
      return pn[1] == b / B && pn[0] == b % B;
    }

    /** The position of the highest set bit plus one, or zero. */
    method Bits() returns (n: nat)
      requires Valid()
      ensures n <= 256
      ensures n == 0 <==> Val() == 0
      ensures n > 0 ==> Pow(2, n - 1) <= Val() < Pow(2, n)
    {
      hide Value, Pow;
      ValueZero(pn[..], WIDTH);
      var pos := WIDTH - 1;
      while pos >= 0
        invariant -1 <= pos < WIDTH && forall j :: pos < j < WIDTH ==> pn[j] == 0
      {
        if pn[pos] != 0 {
          Pow32();
          var nbits := 31;
          while nbits > 0
            invariant 0 <= nbits <= 31 && pn[pos] < Pow(2, nbits + 1)
          {
            TopBit(pn[pos], nbits);
            if TestBit(pn[pos], nbits) {
              BitsIs(pn[..], pos, nbits);
              return 32 * pos + nbits + 1;
            }
            nbits := nbits - 1;
          }
          OneBit();
          BitsIs(pn[..], pos, 0);
          return 32 * pos + 1;
        }
        pos := pos - 1;
      }
      return 0;
    }

    method GetLow64() returns (n: nat)
      requires Valid()
      ensures n == Val() % (B * B)
    {
      hide Pow, BitOr;
      LowTwo(pn[..]);
      Pow32();
      assert pn[1] * B % B == 0;
      OrDisjoint(pn[1] * B, pn[0], 32);
      n := BitOr(pn[0], pn[1] * B);
    }
  }

  lemma TooSmall(x: nat, y: nat, n: nat, d: nat)
    requires n < d && (n == 0 ==> x == 0) && (n > 0 ==> x < Pow(2, n)) && Pow(2, d - 1) <= y
    ensures y > 0 && x / y == 0
  {
    PowMono(2, n, d - 1);
    QuotientIs(x, y, 0, x);
  }

  lemma Halved(y: nat, p: nat)
    ensures y * (2 * p) / Pow(2, 1) == y * p
  {
    OneBit();
    Assoc(y, 2, p);
  }

  /** The two lowest limbs. */
  lemma LowTwo(s: seq<nat>)
    requires Wide(s)
    ensures Value(s, 2) == s[0] + s[1] * B == Value(s, WIDTH) % (B * B) < B * B
  {
    assert Pow(B, 0) == 1 && Pow(B, 1) == B && Pow(B, 2) == B * B;
    assert Value(s, 1) == s[0] by { assert Value(s, 0) == 0; }
    ValueSplit(s, 2, WIDTH);
    ValueBelow(s, 2);
    QuotientIs(Value(s, WIDTH), B * B, High(s, 2, WIDTH), Value(s, 2));
  }

  /** A non-zero limb above the lowest two puts the number out of 64 bits. */
  lemma HighLimb(s: seq<nat>, i: nat)
    requires Wide(s) && 2 <= i < WIDTH && s[i] != 0
    ensures Value(s, WIDTH) >= B * B
  {
    ValueSplit(s, i + 1, WIDTH);
    AtLeast(s[i], Pow(B, i));
    PowMono(B, 2, i);
    assert Pow(B, 2) == B * B;
    assert High(s, i + 1, WIDTH) * Pow(B, i + 1) >= 0;
  }

  lemma OneBit()
    ensures Pow(2, 0) == 1 && Pow(2, 1) == 2
  {
  }

  /** For a number of at most n + 1 bits, bit n is the top one. */
  lemma TopBit(x: nat, n: nat)
    requires x < Pow(2, n + 1)
    ensures TestBit(x, n) <==> x >= Pow(2, n)
  {
    var p := Pow(2, n);
    if x >= p {
      QuotientIs(x, p, 1, x - p);
    } else {
      QuotientIs(x, p, 0, x);
    }
  }

  lemma BitsIs(s: seq<nat>, pos: nat, nbits: nat)
    requires Wide(s) && pos < WIDTH && nbits <= 31
    requires forall j :: pos < j < WIDTH ==> s[j] == 0
    requires Pow(2, nbits) <= s[pos] < Pow(2, nbits + 1)
    ensures Pow(2, 32 * pos + nbits) <= Value(s, WIDTH) < Pow(2, 32 * pos + nbits + 1)
  {
    hide Pow;
    ShiftWeight(pos, nbits);
    ShiftWeight(pos, nbits + 1);
    ValueZeros(s, pos + 1, WIDTH);
    ValueBelow(s, pos);
    LimbRange(Value(s, pos), s[pos], Pow(2, nbits), Pow(2, nbits + 1), Pow(B, pos));
  }

  lemma LimbRange(w: nat, x: nat, lo: nat, hi: nat, p: nat)
    requires w < p && lo <= x < hi
    ensures lo * p <= w + x * p < hi * p
  {
    Scale(p, lo, x);
    Scale(p, x + 1, hi);
    Spread(x, 1, p);
  }
}
