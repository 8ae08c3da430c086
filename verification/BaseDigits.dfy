/** Numbers as big-endian digit sequences, and one in-place step of a base conversion. */
module BaseDigits {
  import opened Powers

  predicate Below(s: seq<nat>, base: nat) { forall i :: 0 <= i < |s| ==> s[i] < base }

  function Value(s: seq<nat>, base: nat): nat
  {
    if s == [] then 0 else Times(Value(s[..|s| - 1], base), base) + s[|s| - 1]
  }

  /** The digits of v without leading zeros; zero has none. */
  function Digits(v: nat, base: nat): seq<nat>
    requires base >= 2
    decreases v
  {
    if v == 0 then []
    else
      DivMod(v, base);
      Digits(v / base, base) + [v % base]
  }

  /** s without its leading zeros. */
  function Strip(s: seq<nat>): seq<nat> { if s == [] || s[0] != 0 then s else Strip(s[1..]) }

  lemma {:induction false} ValueBelow(s: seq<nat>, base: nat)
    requires Below(s, base) && base >= 2
    ensures Value(s, base) < Pow(base, |s|)
  {
    if s != [] {
      var t := s[..|s| - 1];
      ValueBelow(t, base);
      NextDigit(Value(t, base), Pow(base, |t|), base, s[|s| - 1]);
    }
  }

  lemma NextDigit(v: nat, p: nat, base: nat, d: nat)
    requires v < p && d < base
    ensures v * base + d < base * p
  {
    Scale(base, v + 1, p);
    Spread(v, 1, base);
  }

  lemma DivMod(v: nat, base: nat)
    requires base >= 2
    ensures Times(v / base, base) + v % base == v
    ensures v > 0 ==> v / base < v
  {
    var q := v / base;
    Scale(q, 2, base);
    assert v == q * base + v % base;
  }

  lemma {:induction false} DigitsOfValue(s: seq<nat>, base: nat)
    requires Below(s, base) && base >= 2 && (s != [] ==> s[0] != 0)
    ensures Digits(Value(s, base), base) == s
    ensures s != [] ==> Value(s, base) > 0
  {
    if s != [] {
      var last := |s| - 1;
      var t := s[..last];
      DigitsOfValue(t, base);
      QuotientIs(Value(s, base), base, Value(t, base), s[last]);
      if t != [] {
        AtLeast(Value(t, base), base);
      }
    }
  }

  lemma {:induction false} ValueOfDigits(v: nat, base: nat)
    requires base >= 2
    ensures Value(Digits(v, base), base) == v
    ensures Below(Digits(v, base), base) && (v > 0 ==> Digits(v, base) != [] && Digits(v, base)[0] != 0)
    decreases v
  {
    hide Times;
    if v > 0 {
      DivMod(v, base);
      ValueOfDigits(v / base, base);
      assert Digits(v, base)[..|Digits(v, base)| - 1] == Digits(v / base, base);
    }
  }

  lemma {:induction false} ZeroPrefix(s: seq<nat>, n: nat, base: nat)
    requires n <= |s| && forall i :: 0 <= i < n ==> s[i] == 0
    ensures Value(s, base) == Value(s[n..], base)
    decreases |s|
  {
    if n < |s| {
      ZeroPrefix(s[..|s| - 1], n, base);
      assert s[n..][..|s| - n - 1] == s[..|s| - 1][n..];
    } else if n > 0 {
      ZeroPrefix(s[..n - 1], n - 1, base);
      assert s[..n - 1][n - 1..] == [];
    }
  }

  /** Stripping the leading zeros gives the digits of the value. */
  lemma {:induction false} StripIsDigits(s: seq<nat>, base: nat)
    requires Below(s, base) && base >= 2
    ensures Strip(s) == Digits(Value(s, base), base)
    decreases |s|
  {
    if s == [] || s[0] != 0 {
      DigitsOfValue(s, base);
    } else {
      ZeroPrefix(s, 1, base);
      StripIsDigits(s[1..], base);
    }
  }

  lemma {:induction false} ValueAppend(a: seq<nat>, b: seq<nat>, base: nat)
    ensures Value(a + b, base) == Value(a, base) * Pow(base, |b|) + Value(b, base)
  {
    if b == [] {
      assert a + b == a;
    } else {
      var last := |b| - 1;
      ValueAppend(a, b[..last], base);
      assert (a + b)[..|a + b| - 1] == a + b[..last];
      ShiftDigit(Value(a, base), Pow(base, last), Value(b[..last], base), base);
    }
  }

  lemma ShiftDigit(x: nat, p: nat, y: nat, base: nat)
    ensures (x * p + y) * base == x * (base * p) + y * base
  {
    Spread(x * p, y, base);
    Assoc(x, p, base);
  }

  /** The last i digits have been multiplied; the carry belongs in front of them. */
  ghost predicate Partial(s: seq<nat>, was: seq<nat>, i: nat, base: nat, factor: nat, ch: nat, carry: nat)
    requires i <= |s| == |was|
  {
    Value(s[|s| - i..], base) + carry * Pow(base, i) == factor * Value(was[|s| - i..], base) + ch
  }

  /** One digit of the multiplication: its new value and the carry. */
  lemma DigitStep(s: seq<nat>, was: seq<nat>, i: nat, base: nat, factor: nat, ch: nat, carry: nat, d: nat)
    requires base >= 2 && |s| == |was| && i < |s| && d == s[|s| - 1 - i] == was[|s| - 1 - i]
    requires Partial(s, was, i, base, factor, ch, carry)
    ensures var c := carry + factor * d;
      Partial(s[|s| - 1 - i := c % base], was, i + 1, base, factor, ch, c / base)
  {
    hide Value, Pow;
    var n := |s|;
    var c := carry + factor * d;
    var r := s[n - 1 - i := c % base];
    assert r[n - i - 1..] == [c % base] + s[n - i..];
    assert was[n - i - 1..] == [d] + was[n - i..];
    ValueAppend([c % base], s[n - i..], base);
    ValueAppend([d], was[n - i..], base);
    OneDigit(c % base, base);
    OneDigit(d, base);
    PowStep(base, i);
    DigitCarry(carry, factor, d, base, Pow(base, i), Value(s[n - i..], base), Value(was[n - i..], base), ch);
  }

  lemma OneDigit(d: nat, base: nat)
    ensures Value([d], base) == d
  {
    assert [d][..0] == [];
  }

  lemma DigitCarry(carry: nat, factor: nat, d: nat, base: nat, p: nat, v: nat, u: nat, ch: nat)
    requires base > 0 && v + carry * p == factor * u + ch
    ensures var c := carry + factor * d;
      c % base * p + v + c / base * (base * p) == factor * (d * p + u) + ch
  {
    var c := carry + factor * d;
    Assoc(c / base, base, p);
    Spread(c % base, c / base * base, p);
    Spread(carry, factor * d, p);
    Assoc(factor, d, p);
    Spread(d * p, u, factor);
  }

  /** buffer = buffer * factor + ch, on big-endian digits, working from the right and touching no more digits than
      needed. The carry is gone at the end if the result fits the buffer. */
  method MultiplyAdd(buffer: array<nat>, length: nat, base: nat, factor: nat, ch: nat) returns (used: nat)
    requires base >= 2 && ch < factor && length <= buffer.Length && Below(buffer[..], base)
    requires forall i :: 0 <= i < buffer.Length - length ==> buffer[i] == 0
    requires factor * Value(buffer[..], base) + ch < Pow(base, buffer.Length)
    modifies buffer
    ensures Below(buffer[..], base) && Value(buffer[..], base) == factor * old(Value(buffer[..], base)) + ch
    ensures used <= buffer.Length && forall i :: 0 <= i < buffer.Length - used ==> buffer[i] == 0
  {
    hide Value, Pow, Partial;
    ghost var was := buffer[..];
    var carry: nat := ch;
    var i := 0;
    var size := buffer.Length;
    NothingDone(was, base, factor, ch);
    while (carry != 0 || i < length) && i < size
      invariant 0 <= i <= size && carry < factor && Below(buffer[..], base)
      invariant forall j :: 0 <= j < size - i ==> buffer[j] == was[j]
      invariant Partial(buffer[..], was, i, base, factor, ch, carry)
    {
      ghost var s: seq<nat> := buffer[..];
      var d := buffer[size - 1 - i];
      DigitStep(s, was, i, base, factor, ch, carry, d);
      CarryBelow(carry, factor, d, base);
      carry := carry + factor * d;
      buffer[size - 1 - i] := carry % base;
      assert buffer[..] == s[size - 1 - i := carry % base];
      carry := carry / base;
      i := i + 1;
    }
    used := i;
    Finished(buffer[..], was, i, length, base, factor, ch, carry);
    assert carry == 0;
  }

  lemma NothingDone(s: seq<nat>, base: nat, factor: nat, ch: nat)
    ensures Partial(s, s, 0, base, factor, ch, ch)
  {
    assert s[|s|..] == [] && Value([], base) == 0 && Pow(base, 0) == 1;
  }

  lemma CarryBelow(carry: nat, factor: nat, d: nat, base: nat)
    requires carry < factor && d < base
    ensures 0 <= (carry + factor * d) / base < factor
  {
    Scale(factor, d + 1, base);
    Spread(d, 1, factor);
    var c := carry + factor * d;
    if c / base >= factor {
      Scale(base, factor, c / base);
    }
  }

  lemma Finished(s: seq<nat>, was: seq<nat>, i: nat, length: nat, base: nat, factor: nat, ch: nat, carry: nat)
    requires base >= 2 && |s| == |was| && i <= |s| && length <= |s| && Below(s, base)
    requires forall j :: 0 <= j < |s| - length ==> was[j] == 0
    requires forall j :: 0 <= j < |s| - i ==> s[j] == was[j]
    requires Partial(s, was, i, base, factor, ch, carry)
    requires factor * Value(was, base) + ch < Pow(base, |s|)
    requires i == |s| || (carry == 0 && i >= length)
    ensures carry == 0 && Value(s, base) == factor * Value(was, base) + ch
    ensures forall j :: 0 <= j < |s| - i ==> s[j] == 0
  {
    hide Value, Pow;
    if i == |s| {
      assert s[0..] == s && was[0..] == was;
      if carry > 0 {
        AtLeast(carry, Pow(base, i));
      }
    } else {
      ZeroPrefix(s, |s| - i, base);
      ZeroPrefix(was, |s| - i, base);
    }
  }

  // ----- how many digits are enough -----

  /** x^k <= y^k only if x <= y. */
  lemma RootMono(x: nat, y: nat, k: nat)
    requires k >= 1 && Pow(x, k) <= Pow(y, k)
    ensures x <= y
  {
    if y < x {
      PowBase(y, x, k);
    }
  }

  lemma {:induction false} PowBaseMono(a: nat, b: nat, n: nat)
    requires a <= b
    ensures Pow(a, n) <= Pow(b, n)
  {
    if n >= 1 && a < b {
      PowBase(a, b, n);
    }
  }

  lemma PowSwap(b: nat, m: nat, n: nat)
    ensures Pow(Pow(b, m), n) == Pow(Pow(b, n), m)
  {
    hide Pow;
    PowMul(b, m, n);
    PowMul(b, n, m);
    assert m * n == n * m;
  }

  /** If f^k <= t^m then f^n <= t^d as soon as d * k >= m * n. */
  lemma DigitsSuffice(f: nat, t: nat, k: nat, m: nat, n: nat, d: nat)
    requires k >= 1 && t >= 1 && Pow(f, k) <= Pow(t, m) && d * k >= m * n
    ensures Pow(f, n) <= Pow(t, d)
  {
    hide Pow;
    calc {
      Pow(Pow(f, n), k);
      { PowSwap(f, n, k); }
      Pow(Pow(f, k), n);
      <= { PowBaseMono(Pow(f, k), Pow(t, m), n); }
      Pow(Pow(t, m), n);
      { PowMul(t, m, n); }
      Pow(t, m * n);
      <= { PowMono(t, m * n, d * k); }
      Pow(t, d * k);
      { PowMul(t, d, k); }
      Pow(Pow(t, d), k);
    }
    RootMono(Pow(f, n), Pow(t, d), k);
  }

  /** 256^8 <= 58^11. */
  lemma Certificate8()
    ensures Pow(256, 8) <= Pow(58, 11)
  {
    hide Pow;
    Once(256);
    Once(58);
    PowAdd(256, 1, 1);
    PowAdd(256, 2, 2);
    PowAdd(256, 4, 4);
    PowAdd(58, 1, 1);
    PowAdd(58, 2, 1);
    PowAdd(58, 3, 3);
    PowAdd(58, 6, 3);
    PowAdd(58, 9, 2);
  }

  lemma Once(b: nat)
    ensures Pow(b, 1) == b
  {
    assert Pow(b, 0) == 1;
  }

  /** 58^71 <= 256^52. */
  lemma Certificate71()
    ensures Pow(58, 71) <= Pow(256, 52)
  {
    hide Pow;
    Once(58);
    Once(256);
    PowAdd(58, 1, 1);
    PowAdd(58, 2, 2);
    PowAdd(58, 4, 4);
    PowAdd(58, 8, 8);
    PowAdd(58, 16, 16);
    PowAdd(58, 32, 32);
    PowAdd(58, 64, 4);
    PowAdd(58, 68, 2);
    PowAdd(58, 70, 1);
    PowAdd(256, 1, 1);
    PowAdd(256, 2, 2);
    PowAdd(256, 4, 4);
    PowAdd(256, 8, 8);
    PowAdd(256, 16, 16);
    PowAdd(256, 32, 16);
    PowAdd(256, 48, 4);
  }

  /** The encoder's buffer is large enough. */
  lemma EncoderSize(n: nat)
    ensures Pow(256, n) <= Pow(58, n * 138 / 100 + 1)
  {
    hide Pow;
    Certificate8();
    DigitsSuffice(256, 58, 8, 11, n, n * 138 / 100 + 1);
  }

  /** The decoder's buffer is large enough. */
  lemma DecoderSize(n: nat)
    ensures Pow(58, n) <= Pow(256, n * 733 / 1000 + 1)
  {
    hide Pow;
    Certificate71();
    DigitsSuffice(58, 256, 71, 52, n, n * 733 / 1000 + 1);
  }
}
