/** Little-endian sequences of 32-bit limbs and the numbers they stand for. */
module Limbs {
  import opened Powers

  const B: nat := 0x1_0000_0000
  const WIDTH: nat := 8

  predicate Small(s: seq<nat>) { forall i :: 0 <= i < |s| ==> s[i] < B }

  /** The number held by the first n limbs. */
  function Value(s: seq<nat>, n: nat): nat
    requires n <= |s|
  {
    if n == 0 then 0 else Value(s, n - 1) + s[n - 1] * Pow(B, n - 1)
  }

  lemma {:induction false} ValueBelow(s: seq<nat>, n: nat)
    requires n <= |s| && Small(s)
    ensures Value(s, n) < Pow(B, n)
  {
    if n > 0 {
      ValueBelow(s, n - 1);
      var p := Pow(B, n - 1);
      Spread(B, s[n - 1], p);
      AtLeast(B - s[n - 1], p);
    }
  }

  lemma ValueStep(s: seq<nat>, n: nat)
    requires n < |s|
    ensures Value(s, n + 1) == Value(s, n) + s[n] * Pow(B, n)
  {
  }

  lemma {:induction false} ValueFrame(s: seq<nat>, t: seq<nat>, n: nat)
    requires n <= |s| && n <= |t| && s[..n] == t[..n]
    ensures Value(s, n) == Value(t, n)
  {
    if n > 0 {
      assert s[..n - 1] == s[..n][..n - 1] && t[..n - 1] == t[..n][..n - 1];
      assert s[n - 1] == s[..n][n - 1] == t[n - 1];
      ValueFrame(s, t, n - 1);
    }
  }

  /** Replacing limb i by v. */
  lemma {:induction false} ValuePut(s: seq<nat>, i: nat, v: nat, n: nat)
    requires i < n <= |s|
    ensures Value(s[i := v], n) == Value(s, n) + (v - s[i]) * Pow(B, i)
  {
    if i == n - 1 {
      ValueFrame(s, s[i := v], i);
      Spread(v, s[i], Pow(B, i));
    } else {
      ValuePut(s, i, v, n - 1);
    }
  }

  lemma {:induction false} ValueZeros(s: seq<nat>, m: nat, n: nat)
    requires m <= n <= |s| && forall j :: m <= j < n ==> s[j] == 0
    ensures Value(s, n) == Value(s, m)
  {
    if m < n {
      ValueZeros(s, m, n - 1);
    }
  }

  /** What the limbs from m to n contribute, in units of limb m. */
  function High(s: seq<nat>, m: nat, n: nat): nat
    requires m <= n <= |s|
  {
    if m == n then 0 else High(s, m, n - 1) + s[n - 1] * Pow(B, n - 1 - m)
  }

  lemma {:induction false} ValueSplit(s: seq<nat>, m: nat, n: nat)
    requires m <= n <= |s|
    ensures Value(s, n) == Value(s, m) + High(s, m, n) * Pow(B, m)
  {
    if m < n {
      ValueSplit(s, m, n - 1);
      PowAdd(B, n - 1 - m, m);
      Assoc(s[n - 1], Pow(B, n - 1 - m), Pow(B, m));
      Spread(High(s, m, n - 1), s[n - 1] * Pow(B, n - 1 - m), Pow(B, m));
    }
  }

  /** Numbers are ordered by their highest differing limb. */
  lemma ValueOrder(s: seq<nat>, t: seq<nat>, i: nat, n: nat)
    requires i < n <= |s| == |t| && Small(s) && Small(t)
    requires s[i + 1..] == t[i + 1..] && s[i] < t[i]
    ensures Value(s, n) < Value(t, n)
  {
    SameAbove(s, t, i + 1, n);
    ValueBelow(s, i);
    var p := Pow(B, i);
    Spread(t[i], s[i], p);
    AtLeast(t[i] - s[i], p);
  }

  lemma {:induction false} SameAbove(s: seq<nat>, t: seq<nat>, m: nat, n: nat)
    requires m <= n <= |s| == |t| && s[m..] == t[m..]
    ensures Value(s, n) - Value(s, m) == Value(t, n) - Value(t, m)
  {
    if m < n {
      SameAbove(s, t, m, n - 1);
      assert s[n - 1] == s[m..][n - 1 - m] == t[n - 1];
    }
  }

  lemma {:induction false} ValueZero(s: seq<nat>, n: nat)
    requires n <= |s|
    ensures Value(s, n) == 0 <==> forall i :: 0 <= i < n ==> s[i] == 0
  {
    if n > 0 {
      ValueZero(s, n - 1);
      if s[n - 1] > 0 {
        AtLeast(s[n - 1], Pow(B, n - 1));
      }
    }
  }

  /** A digit and its carry, at weight p, make up the number they were split from. */
  lemma Carry(n: nat, p: nat)
    ensures n % B * p + n / B * (B * p) == n * p
  {
    Assoc(n / B, B, p);
    Spread(n % B, n / B * B, p);
  }

  /** Multiplying by 2^s splits a limb into what stays and what moves to the next limb. */
  lemma ShiftSplit(x: nat, s: nat)
    requires x < B && s < 32
    ensures Pow(2, s) * Pow(2, 32 - s) == B
    ensures var lo := x * Pow(2, s) % B; var hi := x / Pow(2, 32 - s);
      hi < Pow(2, s) && lo % Pow(2, s) == 0 && x * Pow(2, s) == hi * B + lo
    ensures var lo := x / Pow(2, s); var hi := x * Pow(2, 32 - s) % B;
      lo < Pow(2, 32 - s) && hi % Pow(2, 32 - s) == 0 && x * Pow(2, 32 - s) == lo * B + hi
    ensures s == 0 ==> x / Pow(2, 32) == 0
  {
    Pow32();
    PowAdd(2, s, 32 - s);
    SplitAt(x, Pow(2, s), Pow(2, 32 - s));
    SplitAt(x, Pow(2, 32 - s), Pow(2, s));
  }

  lemma Pow32()
    ensures Pow(2, 32) == B
  {
    Pow32And64();
  }

  lemma SplitAt(x: nat, c: nat, d: nat)
    requires c > 0 && d > 0 && c * d == B && x < B
    ensures var hi := x / d; var lo := x * c % B;
      hi < c && lo % c == 0 && x * c == hi * B + lo
  {
    var hi, r := x / d, x % d;
    assert x == hi * d + r;
    Spread(hi * d, r, c);
    Assoc(hi, d, c);
    Spread(d, r, c);
    AtLeast(d - r, c);
    assert 0 <= r * c < B;
    QuotientIs(x * c, B, hi, r * c);
    QuotientIs(r * c, c, r, 0);
    if hi >= c {
      Scale(d, c, hi);
    }
  }
}
