/** One step of the limb shifts, and why the finished loops multiply and divide by a power of two. */
module LimbShifts {
  import opened Powers
  import opened Limbs

  ghost predicate Wide(s: seq<nat>) { |s| == WIDTH && Small(s) }

  /** What the left-shift loop does to the target limbs when it reads limb i of the source. */
  function LeftStep(a: seq<nat>, t: seq<nat>, i: nat, k: nat, s: nat): (r: seq<nat>)
    requires |a| == |t| == WIDTH && i < WIDTH && s < 32
    ensures |r| == WIDTH
  {
    var u := if i + k + 1 < WIDTH && s != 0 then t[i + k + 1 := BitOr(t[i + k + 1], a[i] / Pow(2, 32 - s))] else t;
    if i + k < WIDTH then u[i + k := BitOr(u[i + k], a[i] * Pow(2, s) % B)] else u
  }

  /** What the right-shift loop does to the target limbs when it reads limb i of the source. */
  function RightStep(a: seq<nat>, t: seq<nat>, i: nat, k: nat, s: nat): (r: seq<nat>)
    requires |a| == |t| == WIDTH && i < WIDTH && s < 32
    ensures |r| == WIDTH
  {
    var u := if i - k - 1 >= 0 && s != 0 then t[i - k - 1 := BitOr(t[i - k - 1], a[i] * Pow(2, 32 - s) % B)] else t;
    if i - k >= 0 then u[i - k := BitOr(u[i - k], a[i] / Pow(2, s))] else u
  }

  /** Limbs below i + k are final, limb i + k holds the bits moved up from below it, the rest are zero. */
  ghost predicate LeftInv(a: seq<nat>, t: seq<nat>, i: nat, k: nat, s: nat)
    requires Wide(a) && Wide(t) && i <= WIDTH && s < 32 && k <= WIDTH
  {
    if i + k < WIDTH then
      Value(t, WIDTH) == Value(a, i) * Pow(2, s) * Pow(B, k) && t[i + k] < Pow(2, s) &&
      forall j :: i + k < j < WIDTH ==> t[j] == 0
    else
      Value(t, WIDTH) == Value(a, WIDTH - k) * Pow(2, s) * Pow(B, k) % Pow(B, WIDTH)
  }

  ghost predicate RightInv(a: seq<nat>, t: seq<nat>, i: nat, k: nat, s: nat)
    requires Wide(a) && Wide(t) && i <= WIDTH && s < 32
    requires Pow(2, s) * Pow(B, k) > 0
  {
    && Value(t, WIDTH) == Value(a, i) / (Pow(2, s) * Pow(B, k))
    && (forall j :: 0 <= j < WIDTH && j >= i - k ==> t[j] == 0)
    && (i > k ==> t[i - k - 1] < Pow(2, 32 - s))
  }

  /** A multiple of c below c * d leaves room for one more c. */
  lemma Room(x: nat, y: nat, c: nat, d: nat)
    requires c > 0 && d > 0 && x < c * d && x % c == 0 && y < c
    ensures x + y < c * d
  {
    var q := x / c;
    assert x == q * c;
    if q >= d {
      Scale(c, d, q);
    }
    Spread(d, q, c);
    AtLeast(d - q, c);
  }

  /** The low part of a shifted limb lands on bits that are still free. */
  lemma LeftLimb(x: nat, low: nat, s: nat)
    requires x < B && s < 32 && low < Pow(2, s)
    ensures BitOr(low, x * Pow(2, s) % B) == low + x * Pow(2, s) % B < B
  {
    hide Pow, BitOr;
    ShiftSplit(x, s);
    OrDisjoint(x * Pow(2, s) % B, low, s);
    Room(x * Pow(2, s) % B, low, Pow(2, s), Pow(2, 32 - s));
  }

  lemma RightLimb(x: nat, low: nat, s: nat)
    requires x < B && s < 32 && low < Pow(2, 32 - s)
    ensures BitOr(low, x * Pow(2, 32 - s) % B) == low + x * Pow(2, 32 - s) % B < B
  {
    hide Pow, BitOr;
    ShiftSplit(x, s);
    OrDisjoint(x * Pow(2, 32 - s) % B, low, 32 - s);
    Room(x * Pow(2, 32 - s) % B, low, Pow(2, 32 - s), Pow(2, s));
  }

  /** The limbs after a left-shift step, without the or. */
  lemma LeftStepIs(a: seq<nat>, t: seq<nat>, i: nat, k: nat, s: nat)
    requires Wide(a) && Wide(t) && i + k < WIDTH && s < 32 && LeftInv(a, t, i, k, s)
    ensures var m := i + k; var hi := a[i] / Pow(2, 32 - s); var lo := a[i] * Pow(2, s) % B;
      LeftStep(a, t, i, k, s) == (if m + 1 < WIDTH then t[m + 1 := hi] else t)[m := t[m] + lo]
    ensures Wide(LeftStep(a, t, i, k, s))
  {
    hide Pow, Value;
    ShiftSplit(a[i], s);
    LeftLimb(a[i], t[i + k], s);
    Pow32();
    assert Pow(2, s) <= B by { PowMono(2, s, 32); }
  }

  lemma LeftKeeps(a: seq<nat>, t: seq<nat>, i: nat, k: nat, s: nat)
    requires Wide(a) && Wide(t) && i + k < WIDTH && s < 32 && LeftInv(a, t, i, k, s)
    ensures Wide(LeftStep(a, t, i, k, s)) && LeftInv(a, LeftStep(a, t, i, k, s), i + 1, k, s)
  {
    hide Pow, Value, LeftStep;
    var m, c := i + k, Pow(2, s);
    var hi, lo := a[i] / Pow(2, 32 - s), a[i] * c % B;
    ShiftSplit(a[i], s);
    LeftStepIs(a, t, i, k, s);
    var r := LeftStep(a, t, i, k, s);
    var u := if m + 1 < WIDTH then t[m + 1 := hi] else t;
    LeftValue(a, t, i, k, s);
    if m + 1 < WIDTH {
      ValuePut(t, m + 1, hi, WIDTH);
    }
    ValuePut(u, m, t[m] + lo, WIDTH);
    PowStep(B, m);
    var p := Pow(B, m);
    TwoLimbs(hi, lo, B, p);
    if m + 1 == WIDTH {
      ValueBelow(r, WIDTH);
      QuotientIs(Value(a, i + 1) * c * Pow(B, k), Pow(B, WIDTH), hi, Value(r, WIDTH));
    }
  }

  lemma LeftValue(a: seq<nat>, t: seq<nat>, i: nat, k: nat, s: nat)
    requires Wide(a) && i < WIDTH
    ensures Value(a, i + 1) * Pow(2, s) * Pow(B, k) ==
      Value(a, i) * Pow(2, s) * Pow(B, k) + a[i] * Pow(2, s) * Pow(B, i + k)
  {
    var c, p, q := Pow(2, s), Pow(B, i), Pow(B, k);
    PowAdd(B, i, k);
    Spread(Value(a, i), a[i] * p, c);
    Spread(Value(a, i) * c, a[i] * p * c, q);
    Regroup(a[i], p, c, q);
  }

  lemma Regroup(x: int, p: int, c: int, q: int)
    ensures x * p * c * q == x * c * (p * q)
  {
    Assoc(x, p, c);
    Assoc(x, c, p);
    Assoc(x * c, p, q);
  }

  lemma TwoLimbs(hi: int, lo: int, b: int, p: int)
    ensures (hi * b + lo) * p == hi * (b * p) + lo * p
  {
    Spread(hi * b, lo, p);
    Assoc(hi, b, p);
  }

  lemma DropHigh(v: int, h: int, p: int, c: int, q: int)
    ensures (v + h * p) * (c * q) == v * c * q + h * c * (p * q)
  {
    Assoc(v + h * p, c, q);
    Spread(v, h * p, c);
    Spread(v * c, h * p * c, q);
    Regroup(h, p, c, q);
  }

  /** The finished left shift multiplies by a power of two and drops what does not fit. */
  lemma LeftDone(a: seq<nat>, t: seq<nat>, k: nat, s: nat)
    requires Wide(a) && Wide(t) && s < 32
    requires if k < WIDTH then LeftInv(a, t, WIDTH - k, k, s) else Value(t, WIDTH) == 0
    ensures Value(t, WIDTH) == Value(a, WIDTH) * Pow(2, 32 * k + s) % Pow(B, WIDTH)
  {
    hide Pow, Value;
    ShiftWeight(k, s);
    var c, q, all := Pow(2, s), Pow(B, k), Pow(B, WIDTH);
    if k < WIDTH {
      ValueSplit(a, WIDTH - k, WIDTH);
      var h := High(a, WIDTH - k, WIDTH);
      PowAdd(B, WIDTH - k, k);
      var v := Value(a, WIDTH - k);
      DropHigh(v, h, Pow(B, WIDTH - k), c, q);
      SameRemainder(v * c * q, Value(a, WIDTH) * (c * q), all, h * c);
    } else {
      PowAdd(B, k - WIDTH, WIDTH);
      var r := Pow(B, k - WIDTH);
      Assoc(Value(a, WIDTH), c, q);
      Assoc(Value(a, WIDTH) * c, r, all);
      QuotientIs(Value(a, WIDTH) * (c * q), all, Value(a, WIDTH) * c * r, 0);
    }
  }

  lemma ShiftWeight(k: nat, s: nat)
    ensures Pow(2, 32 * k + s) == Pow(2, s) * Pow(B, k) > 0
  {
    Pow32();
    PowMul(2, 32, k);
    PowAdd(2, s, 32 * k);
  }

  lemma RightStepIs(a: seq<nat>, t: seq<nat>, i: nat, k: nat, s: nat)
    requires Wide(a) && Wide(t) && k <= i < WIDTH && s < 32 && Pow(2, s) * Pow(B, k) > 0 && RightInv(a, t, i, k, s)
    ensures var m := i - k; var lo := a[i] / Pow(2, s); var hi := a[i] * Pow(2, 32 - s) % B;
      RightStep(a, t, i, k, s) == (if m > 0 then t[m - 1 := t[m - 1] + hi] else t)[m := lo]
    ensures Wide(RightStep(a, t, i, k, s))
  {
    hide Pow, Value;
    ShiftSplit(a[i], s);
    if i > k {
      RightLimb(a[i], t[i - k - 1], s);
    }
    Pow32();
    assert Pow(2, 32 - s) <= B by { PowMono(2, 32 - s, 32); }
  }

  lemma RightKeeps(a: seq<nat>, t: seq<nat>, i: nat, k: nat, s: nat)
    requires Wide(a) && Wide(t) && k <= i < WIDTH && s < 32 && Pow(2, s) * Pow(B, k) > 0 && RightInv(a, t, i, k, s)
    ensures Wide(RightStep(a, t, i, k, s)) && RightInv(a, RightStep(a, t, i, k, s), i + 1, k, s)
  {
    hide Pow, Value, RightStep;
    var m, x := i - k, a[i];
    var lo, hi := x / Pow(2, s), x * Pow(2, 32 - s) % B;
    ShiftSplit(x, s);
    RightStepIs(a, t, i, k, s);
    var r := RightStep(a, t, i, k, s);
    var u := if m > 0 then t[m - 1 := t[m - 1] + hi] else t;
    ValuePut(u, m, lo, WIDTH);
    if m > 0 {
      ValuePut(t, m - 1, t[m - 1] + hi, WIDTH);
      PowStep(B, m - 1);
      var p := Pow(B, m - 1);
      TwoLimbs(lo, hi, B, p);
      RightValue(a, i, k, s);
    } else {
      RightFirst(a, k, s);
    }
  }

  lemma RightFirst(a: seq<nat>, k: nat, s: nat)
    requires Wide(a) && k < WIDTH && s < 32 && Pow(2, s) * Pow(B, k) > 0
    ensures Value(a, k) / (Pow(2, s) * Pow(B, k)) == 0
    ensures Value(a, k + 1) / (Pow(2, s) * Pow(B, k)) == a[k] / Pow(2, s)
    ensures Pow(B, 0) == 1
  {
    ValueBelow(a, k);
    OneLimb(Value(a, k), a[k], Pow(2, s), Pow(B, k));
  }

  lemma OneLimb(w: nat, x: nat, c: nat, q: nat)
    requires c > 0 && w < q
    ensures c * q > 0 && w / (c * q) == 0 && (w + x * q) / (c * q) == x / c
  {
    AtLeast(c, q);
    QuotientIs(w, c * q, 0, w);
    QuotientIs(w + x * q, q, x, w);
    QuotientTwice(w + x * q, q, c);
  }

  lemma RightValue(a: seq<nat>, i: nat, k: nat, s: nat)
    requires Wide(a) && k < i < WIDTH && s < 32 && Pow(2, s) * Pow(B, k) > 0
    ensures var d := Pow(2, s) * Pow(B, k);
      Value(a, i + 1) / d == Value(a, i) / d + a[i] * Pow(2, 32 - s) * Pow(B, i - k - 1)
  {
    hide Pow, Value;
    ShiftSplit(0, s);
    PowAdd(B, i - k - 1, k);
    PowStep(B, i - 1);
    ValueStep(a, i);
    NextLimb(Value(a, i), a[i], Pow(2, s), Pow(2, 32 - s), Pow(B, i - k - 1), Pow(B, k));
  }

  lemma NextLimb(w: nat, x: nat, c: nat, c': nat, p: nat, q: nat)
    requires c * q > 0
    ensures (w + x * (c * c' * (p * q))) / (c * q) == w / (c * q) + x * c' * p
  {
    var d := c * q;
    Regroup5(x, c, c', p, q);
    Spread(w / d, x * c' * p, d);
    assert x * c' * p * d >= 0;
    QuotientIs(w + x * c' * p * d, d, w / d + x * c' * p, w % d);
  }

  lemma Regroup5(x: int, c: int, c': int, p: int, q: int)
    ensures x * (c * c' * (p * q)) == x * c' * p * (c * q)
  {
    Assoc(x, c * c', p * q);
    Assoc(x, c', c);
    Assoc(x * c', c, p * q);
    Assoc(c, p, q);
    Assoc(p, c, q);
    Assoc(x * c', p, c * q);
  }

  lemma RightSkips(a: seq<nat>, t: seq<nat>, i: nat, k: nat, s: nat)
    requires Wide(a) && Wide(t) && i <= WIDTH && i <= k && s < 32 && Pow(2, s) * Pow(B, k) > 0
    requires forall j :: 0 <= j < WIDTH ==> t[j] == 0
    ensures RightInv(a, t, i, k, s)
  {
    ValueBelow(a, i);
    PowMono(B, i, k);
    AtLeast(Pow(2, s), Pow(B, k));
    ValueZero(t, WIDTH);
    QuotientIs(Value(a, i), Pow(2, s) * Pow(B, k), 0, Value(a, i));
  }
}
