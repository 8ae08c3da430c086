/** The compact form of a 256-bit target (an exponent byte, a sign bit and a 23-bit mantissa) and the work a
    block with that target proves. */
module CompactTarget {
  import opened Powers
  import opened Limbs
  import opened ArithUint256

  const MANTISSA: nat := 0x80_0000
  const EXPONENT: nat := 0x100_0000

  function Size(c: nat): nat { c / EXPONENT }

  function Word(c: nat): nat { c % MANTISSA }

  predicate Sign(c: nat) { c / MANTISSA % 2 == 1 }

  /** The number a compact form stands for, without the sign and before truncation to 256 bits. */
  function Expanded(c: nat): nat
  {
    if Size(c) <= 3 then Word(c) / Pow(256, 3 - Size(c)) else Word(c) * Pow(256, Size(c) - 3)
  }

  /** How many low bytes have to go until 23 bits are left. */
  function Dropped8(x: nat): nat { if x < MANTISSA then 0 else 1 + Dropped8(x / 256) }

  /** x with those bytes cleared: the reference for what the compact form keeps. */
  function Rounded(x: nat): nat { x / Pow(256, Dropped8(x)) * Pow(256, Dropped8(x)) }

  // ----- the reference -----

  lemma {:induction false} Dropped8Is(x: nat, k: nat)
    requires x / Pow(256, k) < MANTISSA && (k > 0 ==> x / Pow(256, k - 1) >= MANTISSA)
    ensures Dropped8(x) == k
  {
    if k > 0 {
      QuotientTwice(x, 256, Pow(256, k - 1));
      if k > 1 {
        QuotientTwice(x, 256, Pow(256, k - 2));
      } else {
        assert Pow(256, 0) == 1;
      }
      assert x >= MANTISSA by { Shrinks(x, Pow(256, k - 1)); }
      Dropped8Is(x / 256, k - 1);
    } else {
      assert Pow(256, 0) == 1;
    }
  }

  lemma Shrinks(x: nat, d: nat)
    requires d > 0
    ensures x / d <= x
  {
    AtLeast(d, x / d);
  }

  lemma {:induction false} Dropped8Bounds(x: nat)
    ensures var k := Dropped8(x); x / Pow(256, k) < MANTISSA && (k > 0 ==> x / Pow(256, k - 1) >= MANTISSA)
  {
    if x >= MANTISSA {
      var k := Dropped8(x);
      Dropped8Bounds(x / 256);
      QuotientTwice(x, 256, Pow(256, k - 1));
      if k > 1 {
        QuotientTwice(x, 256, Pow(256, k - 2));
      }
    }
    assert Pow(256, 0) == 1;
  }

  /** Rounding goes down, and by less than one part in 2^15. */
  lemma RoundedClose(x: nat)
    ensures Rounded(x) <= x
    ensures x > 0 ==> (x - Rounded(x)) * 0x8000 < x
  {
    hide Dropped8, Pow;
    var k := Dropped8(x);
    var p := Pow(256, k);
    assert x == x / p * p + x % p;
    if k > 0 {
      var p' := Pow(256, k - 1);
      Dropped8Bounds(x);
      PowStep(256, k - 1);
      assert x >= MANTISSA * p' by {
        Scale(p', MANTISSA, x / p');
        assert x == x / p' * p' + x % p';
      }
    } else {
      NoPower();
      QuotientIs(x, 1, x, 0);
    }
  }

  lemma NoPower()
    ensures Pow(256, 0) == 1
  {
  }

  lemma {:induction false} Dropped8Mono(x: nat, y: nat)
    requires x <= y
    ensures Dropped8(x) <= Dropped8(y)
  {
    if x >= MANTISSA {
      Dropped8Mono(x / 256, y / 256);
    }
  }

  /** A larger number never rounds to a smaller one. */
  lemma RoundedMono(x: nat, y: nat)
    requires x <= y
    ensures Rounded(x) <= Rounded(y)
  {
    hide Dropped8, Pow;
    var j, k := Dropped8(x), Dropped8(y);
    var p, q := Pow(256, j), Pow(256, k);
    Dropped8Mono(x, y);
    if j == k {
      QuotientMono(x, y, p);
      Scale(p, x / p, y / p);
    } else {
      var q' := Pow(256, k - 1);
      Dropped8Bounds(x);
      Dropped8Bounds(y);
      PowStep(256, k - 1);
      PowMono(256, j, k - 1);
      Scale(p, x / p, MANTISSA);
      Scale(MANTISSA, p, q');
      QuotientTwice(y, q', 256);
      assert y / q >= 0x8000;
      Scale(q, 0x8000, y / q);
    }
  }

  lemma QuotientMono(x: nat, y: nat, d: nat)
    requires x <= y && d > 0
    ensures x / d <= y / d
  {
    if x / d > y / d {
      Spread(x / d, y / d, d);
      AtLeast(x / d - y / d, d);
    }
  }

  /** A 23-bit number times a power of 256 is not changed by rounding. */
  lemma RoundedExact(w: nat, j: nat)
    requires w < MANTISSA
    ensures Rounded(w * Pow(256, j)) == w * Pow(256, j)
  {
    hide Dropped8, Pow;
    var x := w * Pow(256, j);
    var k := Dropped8(x);
    DropsAtMost(w, j);
    PowAdd(256, j - k, k);
    Assoc(w, Pow(256, j - k), Pow(256, k));
    QuotientIs(x, Pow(256, k), w * Pow(256, j - k), 0);
  }

  lemma DropsAtMost(w: nat, j: nat)
    requires w < MANTISSA
    ensures Dropped8(w * Pow(256, j)) <= j
  {
    hide Dropped8, Pow;
    var x := w * Pow(256, j);
    var k := Dropped8(x);
    Dropped8Bounds(x);
    if k > j {
      var p, r := Pow(256, j), Pow(256, k - 1 - j);
      PowAdd(256, j, k - 1 - j);
      QuotientTwice(x, p, r);
      QuotientIs(x, p, w, 0);
      Shrinks(w, r);
    }
  }

  // ----- GetCompact as a function -----

  /** The number of bytes of x. */
  function Bytes(x: nat): nat { if x == 0 then 0 else 1 + Bytes(x / 256) }

  lemma {:induction false} BytesIs(x: nat, n: nat)
    requires x < Pow(256, n) && (n > 0 ==> x >= Pow(256, n - 1))
    ensures Bytes(x) == n
  {
    if n > 0 {
      var p := Pow(256, n - 1);
      assert x / 256 < p;
      if n > 1 {
        assert p == 256 * Pow(256, n - 2);
      }
      BytesIs(x / 256, n - 1);
    }
  }

  lemma {:induction false} BytesBounds(x: nat)
    ensures x < Pow(256, Bytes(x)) && (x > 0 ==> x >= Pow(256, Bytes(x) - 1))
  {
    if x > 0 {
      BytesBounds(x / 256);
    }
  }

  /** The mantissa before the sign bit is made room for. */
  function Leading(x: nat): nat
  {
    if Bytes(x) <= 3 then x * Pow(256, 3 - Bytes(x)) else x / Pow(256, Bytes(x) - 3)
  }

  /** The fields as a number, with the mantissa shortened if it reaches into the sign bit. */
  function Packed(leading: nat, bytes: nat, negative: bool): nat
  {
    var (word, size) := if leading >= MANTISSA then (leading / 256, bytes + 1) else (leading, bytes);
    size * EXPONENT + word + if negative && word != 0 then MANTISSA else 0
  }

  function Compact(x: nat, negative: bool): nat { Packed(Leading(x), Bytes(x), negative) }

  lemma LeadingBelow(x: nat)
    ensures Leading(x) < EXPONENT
    ensures Bytes(x) > 3 ==> Leading(x) >= 0x1_0000
  {
    hide Bytes, Pow;
    var n := Bytes(x);
    BytesBounds(x);
    NoBytes();
    Cube();
    if n <= 3 {
      PowAdd(256, n, 3 - n);
      StrictScale(Pow(256, 3 - n), x, Pow(256, n));
    } else {
      var p := Pow(256, n - 3);
      PowAdd(256, n - 3, 3);
      PowAdd(256, n - 3, 2);
      QuotientRange(x, p, 0x1_0000, EXPONENT);
    }
  }

  lemma Cube()
    ensures Pow(256, 0) == 1 && Pow(256, 1) == 256 && Pow(256, 2) == 0x1_0000 && Pow(256, 3) == EXPONENT
  {
  }

  lemma QuotientRange(x: nat, p: nat, lo: nat, hi: nat)
    requires p > 0 && p * lo <= x < p * hi
    ensures lo <= x / p < hi
  {
    var q := x / p;
    Spread(q, 1, p);
    if q < lo {
      Scale(p, q + 1, lo);
    } else if q >= hi {
      Scale(p, hi, q);
    }
  }

  /** A compact form taken apart again. */
  lemma Fields(size: nat, word: nat, sign: bool)
    requires word < MANTISSA
    ensures var c := size * EXPONENT + word + if sign then MANTISSA else 0;
      Size(c) == size && Word(c) == word && Sign(c) == sign
  {
    var c := size * EXPONENT + word + if sign then MANTISSA else 0;
    QuotientIs(c, EXPONENT, size, word + if sign then MANTISSA else 0);
    QuotientIs(c, MANTISSA, 2 * size + (if sign then 1 else 0), word);
  }

  /** Expanding a compacted number gives the rounded number, with the sign it was given. */
  lemma CompactExpands(x: nat, negative: bool)
    ensures Expanded(Compact(x, negative)) == Rounded(x)
    ensures Sign(Compact(x, negative)) <==> negative && x > 0
  {
    hide Bytes, Pow, Dropped8, Leading, Expanded, Size, Word, Sign;
    LeadingBelow(x);
    var w, n := Leading(x), Bytes(x);
    var word, size := if w >= MANTISSA then w / 256 else w, if w >= MANTISSA then n + 1 else n;
    WordZero(x);
    Fields(size, word, negative && word != 0);
    ExpandsTo(Compact(x, negative), size, word);
    if n <= 3 {
      SmallRounds(x);
    } else {
      LargeRounds(x);
    }
  }

  lemma ExpandsTo(c: nat, size: nat, word: nat)
    requires Size(c) == size && Word(c) == word
    ensures Expanded(c) == if size <= 3 then word / Pow(256, 3 - size) else word * Pow(256, size - 3)
  {
  }

  lemma WordZero(x: nat)
    ensures Leading(x) == 0 <==> x == 0
    ensures Leading(x) >= MANTISSA ==> Leading(x) / 256 > 0
  {
    hide Bytes, Pow;
    LeadingBelow(x);
    BytesBounds(x);
    NoBytes();
    if Bytes(x) <= 3 && x > 0 {
      AtLeast(x, Pow(256, 3 - Bytes(x)));
    }
  }

  lemma NoBytes()
    ensures Bytes(0) == 0
  {
  }

  lemma SmallRounds(x: nat)
    requires Bytes(x) <= 3
    ensures var w, n := Leading(x), Bytes(x);
      if w < MANTISSA then w / Pow(256, 3 - n) == Rounded(x)
      else if n < 3 then w / 256 / Pow(256, 2 - n) == Rounded(x)
      else w / 256 * Pow(256, 1) == Rounded(x)
  {
    hide Bytes, Pow, Dropped8;
    var w, n := Leading(x), Bytes(x);
    var p := Pow(256, 3 - n);
    BytesBounds(x);
    Cube();
    QuotientIs(w, p, x, 0);
    if w < MANTISSA || n < 3 {
      assert x < MANTISSA by {
        if n < 3 {
          PowMono(256, n, 2);
        }
      }
      QuotientIs(x, 1, x, 0);
      Dropped8Is(x, 0);
      if n < 3 {
        PowStep(256, 2 - n);
        QuotientTwice(w, 256, Pow(256, 2 - n));
      }
    } else {
      QuotientIs(x, 1, x, 0);
      Dropped8Is(x, 1);
    }
  }

  lemma LargeRounds(x: nat)
    requires Bytes(x) > 3
    ensures var w, n := Leading(x), Bytes(x);
      if w < MANTISSA then w * Pow(256, n - 3) == Rounded(x) else w / 256 * Pow(256, n - 2) == Rounded(x)
  {
    hide Bytes, Pow, Dropped8;
    var w, n := Leading(x), Bytes(x);
    LeadingBelow(x);
    PowStep(256, n - 3);
    PowStep(256, n - 4);
    if w < MANTISSA {
      var q := Pow(256, n - 4);
      assert x / q >= MANTISSA by {
        QuotientTwice(x, q, 256);
      }
      Dropped8Is(x, n - 3);
    } else {
      QuotientTwice(x, Pow(256, n - 3), 256);
      Dropped8Is(x, n - 2);
    }
  }

  // ----- the laws -----

  /** The overflow flag, as the code decides it, is exactly "does not fit 256 bits". */
  predicate Overflows(c: nat)
  {
    var w := if Size(c) <= 3 then Word(c) / Pow(256, 3 - Size(c)) else Word(c);
    w != 0 && (Size(c) > 34 || (w > 0xff && Size(c) > 33) || (w > 0xffff && Size(c) > 32))
  }

  lemma OverflowExact(c: nat)
    ensures Overflows(c) <==> Expanded(c) >= Pow(2, 256)
  {
    hide Pow;
    var n, w := Size(c), Word(c);
    Cube();
    PowMul(2, 8, 32);
    Pow8();
    if n <= 3 {
      Shrinks(w, Pow(256, 3 - n));
      PowMono(256, 3, 32);
    } else if n >= 35 {
      PowMono(256, 32, n - 3);
      if w > 0 {
        AtLeast(w, Pow(256, n - 3));
      }
    } else {
      PowAdd(256, 35 - n, n - 3);
      Fitting(w, Pow(256, 35 - n), Pow(256, n - 3));
      if n <= 32 {
        PowMono(256, 3, 35 - n);
      }
    }
  }


  lemma Fitting(w: nat, p: nat, q: nat)
    requires q > 0
    ensures w * q >= p * q <==> w >= p
  {
    if w >= p {
      Scale(q, p, w);
    } else {
      StrictScale(q, w, p);
    }
  }

  /** A number that came from a compact form without overflow survives being compacted and expanded again. */
  lemma SetGetSet(c: nat, negative: bool)
    ensures Expanded(Compact(Expanded(c), negative)) == Expanded(c)
  {
    hide Pow, Rounded, Compact;
    CompactExpands(Expanded(c), negative);
    if Size(c) > 3 {
      RoundedExact(Word(c), Size(c) - 3);
    } else {
      Shrinks(Word(c), Pow(256, 3 - Size(c)));
      Cube();
      RoundedExact(Expanded(c), 0);
    }
  }

  /** What compacting loses: never upward, monotone, less than one part in 2^15. */
  lemma CompactLoss(x: nat, y: nat)
    ensures var x' := Expanded(Compact(x, false));
      x' <= x && (x > 0 ==> (x - x') * 0x8000 < x)
    ensures x <= y ==> Expanded(Compact(x, false)) <= Expanded(Compact(y, false))
  {
    hide Rounded, Expanded, Compact;
    CompactExpands(x, false);
    CompactExpands(y, false);
    RoundedClose(x);
    if x <= y {
      RoundedMono(x, y);
    }
  }

  // ----- the normal form -----

  /** The mantissa is exactly the value, moved by whole bytes. */
  predicate Exact(c: nat, v: nat) {
    if Size(c) <= 3 then Word(c) == v * Pow(256, 3 - Size(c)) else v == Word(c) * Pow(256, Size(c) - 3)
  }

  /** The one form of a value and a sign: zero, or with a mantissa of more than two bytes less one bit. */
  predicate Normal(c: nat, v: nat, negative: bool) {
    if v == 0 then c == 0 else Exact(c, v) && Word(c) >= 0x8000 && Sign(c) == negative
  }

  /** No form of a given size reaches further than that. */
  lemma ValueBelow(c: nat)
    ensures 2 * Expanded(c) < Pow(256, Size(c))
  {
    hide Pow;
    var n, w := Size(c), Word(c);
    Cube();
    if n <= 3 {
      var p := Pow(256, 3 - n);
      PowAdd(256, n, 3 - n);
      assert w / p * p <= w;
      Fitting(2 * (w / p), Pow(256, n), p);
      assert 2 * (w / p) * p == 2 * (w / p * p);
    } else {
      var p := Pow(256, n - 3);
      PowAdd(256, 3, n - 3);
      StrictScale(p, 2 * w, EXPONENT);
    }
  }

  /** A normal form is at most one byte larger than needed. */
  lemma NormalAbove(c: nat, v: nat, negative: bool)
    requires v > 0 && Normal(c, v, negative)
    ensures Expanded(c) == v && Size(c) >= 1 && 2 * v >= Pow(256, Size(c) - 1)
  {
    hide Pow;
    var n, w := Size(c), Word(c);
    Cube();
    if n <= 3 {
      var p := Pow(256, 3 - n);
      QuotientIs(w, p, v, 0);
      ExpandsTo(c, n, w);
      if n == 0 {
        AtLeast(v, p);
      } else {
        PowAdd(256, n - 1, 3 - n);
        Fitting(2 * v, Pow(256, n - 1), p);
        assert 2 * v * p == 2 * (v * p);
      }
    } else {
      var p := Pow(256, n - 3);
      PowAdd(256, 2, n - 3);
      Scale(p, 0x1_0000, 2 * w);
      assert 2 * v == p * (2 * w);
    }
  }

  /** Of all forms of a value a normal one has the smallest size. */
  lemma NormalSmallest(c: nat, v: nat, negative: bool, d: nat)
    requires v > 0 && Normal(c, v, negative) && Expanded(d) == v
    ensures Size(c) <= Size(d)
  {
    hide Pow, Normal, Expanded, Size;
    NormalAbove(c, v, negative);
    ValueBelow(d);
    if Size(d) < Size(c) {
      PowMono(256, Size(d), Size(c) - 1);
    }
  }

  /** There is only one normal form. */
  lemma NormalUnique(c: nat, d: nat, v: nat, negative: bool)
    requires Normal(c, v, negative) && Normal(d, v, negative)
    ensures c == d
  {
    hide Pow;
    if v > 0 {
      NormalAbove(c, v, negative);
      NormalAbove(d, v, negative);
      NormalSmallest(c, v, negative, d);
      NormalSmallest(d, v, negative, c);
      var n := Size(c);
      if n > 3 {
        SameFactor(Word(c), Word(d), Pow(256, n - 3));
      }
      Reassembled(c);
      Reassembled(d);
    }
  }

  lemma SameFactor(a: nat, b: nat, p: nat)
    requires p > 0 && a * p == b * p
    ensures a == b
  {
    Fitting(a, b, p);
    Fitting(b, a, p);
  }

  lemma Reassembled(c: nat)
    ensures c == Size(c) * EXPONENT + Word(c) + if Sign(c) then MANTISSA else 0
  {
  }

  /** A compacted number is in normal form. */
  lemma CompactNormal(x: nat, negative: bool)
    ensures Normal(Compact(x, negative), Rounded(x), negative)
  {
    hide Bytes, Pow, Dropped8, Leading, Rounded, Expanded, Size, Word, Sign;
    LeadingBelow(x);
    WordZero(x);
    NoBytes();
    var w, n := Leading(x), Bytes(x);
    var word, size := if w >= MANTISSA then w / 256 else w, if w >= MANTISSA then n + 1 else n;
    Fields(size, word, negative && word != 0);
    if x > 0 {
      LeadingAbove(x);
      CompactExact(x, word, size);
    } else {
      RoundedClose(0);
    }
  }

  lemma LeadingAbove(x: nat)
    requires x > 0
    ensures Leading(x) >= 0x1_0000
  {
    hide Bytes, Pow;
    var n := Bytes(x);
    BytesBounds(x);
    LeadingBelow(x);
    Cube();
    NoBytes();
    if n <= 3 {
      PowAdd(256, n - 1, 3 - n);
      Scale(Pow(256, 3 - n), Pow(256, n - 1), x);
    }
  }

  lemma CompactExact(x: nat, word: nat, size: nat)
    requires x > 0
    requires word == (if Leading(x) >= MANTISSA then Leading(x) / 256 else Leading(x))
    requires size == if Leading(x) >= MANTISSA then Bytes(x) + 1 else Bytes(x)
    ensures if size <= 3 then word == Rounded(x) * Pow(256, 3 - size) else Rounded(x) == word * Pow(256, size - 3)
    ensures Rounded(x) > 0
  {
    hide Pow, Dropped8, Bytes, Rounded;
    var w, n := Leading(x), Bytes(x);
    LeadingAbove(x);
    Cube();
    if n <= 3 {
      SmallRounds(x);
      if size <= 3 {
        SmallExact(x, word, size);
      }
    } else {
      LargeRounds(x);
    }
    if size > 3 {
      AtLeast(word, Pow(256, size - 3));
    }
  }

  lemma SmallExact(x: nat, word: nat, size: nat)
    requires x > 0 && Bytes(x) <= 3 && size <= 3
    requires word == (if Leading(x) >= MANTISSA then Leading(x) / 256 else Leading(x))
    requires size == if Leading(x) >= MANTISSA then Bytes(x) + 1 else Bytes(x)
    ensures word == Rounded(x) * Pow(256, 3 - size) && Rounded(x) > 0
  {
    hide Pow, Dropped8, Bytes;
    var n := Bytes(x);
    BytesBounds(x);
    Cube();
    assert x < MANTISSA by {
      if n < 3 {
        PowMono(256, n, 2);
      }
    }
    QuotientIs(x, 1, x, 0);
    Dropped8Is(x, 0);
    if size > n {
      PowStep(256, 2 - n);
      QuotientIs(Leading(x), 256, x * Pow(256, 2 - n), 0);
    }
  }

  /** So the compact form of a number is the only one with its rounded value, its sign and a full mantissa. */
  lemma CompactIs(x: nat, negative: bool, c: nat)
    ensures c == Compact(x, negative) <==> Normal(c, Rounded(x), negative)
  {
    hide Normal, Compact, Rounded;
    CompactNormal(x, negative);
    if Normal(c, Rounded(x), negative) {
      NormalUnique(c, Compact(x, negative), Rounded(x), negative);
    }
  }

  /** Three of the forms that the node's own tests expect. */
  lemma CompactVectors()
    ensures Compact(0x1234, false) == 0x0212_3400 && Compact(0x80, false) == 0x0200_8000
    ensures Compact(0x1234_5600, false) == 0x0412_3456
  {
    hide Compact, Pow, Dropped8;
    Cube();
    Dropped8Is(0x1234, 0);
    Dropped8Is(0x80, 0);
    Dropped8Is(0x1234_5600, 1);
    CompactIs(0x1234, false, 0x0212_3400);
    CompactIs(0x80, false, 0x0200_8000);
    CompactIs(0x1234_5600, false, 0x0412_3456);
  }

  // ----- the operations -----

  /** The number is set to the expanded value modulo 2^256; the flags report the sign and the overflow. */
  method SetCompact(x: Uint256, nCompact: nat) returns (negative: bool, overflow: bool)
    requires x.pn.Length == WIDTH && nCompact < B
    modifies x.pn
    ensures x.Valid() && x.Val() == Expanded(nCompact) % Modulus()
    ensures negative <==> Sign(nCompact) && Expanded(nCompact) != 0
    ensures overflow <==> Expanded(nCompact) >= Modulus()
  {
    hide Pow, Value, Modulus;
    var nSize := nCompact / EXPONENT;
    var nWord := nCompact % MANTISSA;
    ModulusIs();
    OverflowExact(nCompact);
    if nSize <= 3 {
      nWord := nWord / Pow(256, 3 - nSize);
      x.Set(nWord);
      BelowModulus(x.pn[..]);
    } else {
      x.Set(nWord);
      Pow8();
      PowMul(2, 8, nSize - 3);
      x.ShiftLeft(8 * (nSize - 3));
      if nWord > 0 {
        AtLeast(nWord, Pow(256, nSize - 3));
      }
    }
    negative := nWord != 0 && nCompact / MANTISSA % 2 == 1;
    overflow := nWord != 0 && (nSize > 34 || (nWord > 0xff && nSize > 33) || (nWord > 0xffff && nSize > 32));
  }

  /** The compact form of a number. */
  method GetCompact(x: Uint256, negative: bool) returns (c: nat)
    requires x.Valid()
    ensures c == Compact(x.Val(), negative) < B
    ensures Normal(c, Rounded(x.Val()), negative)
  {
    hide Pow, Value, Bytes, BitOr, Leading, Packed, Normal, Rounded;
    CompactNormal(x.Val(), negative);
    var bits := x.Bits();
    var nSize := (bits + 7) / 8;
    BytesOfBits(x.Val(), bits);
    LeadingBelow(x.Val());
    c := GetLeading(x, nSize);
    c := Pack(c, nSize, negative);
  }

  /** The leading bytes, through the low 64 bits of the shifted number. */
  method GetLeading(x: Uint256, nSize: nat) returns (c: nat)
    requires x.Valid() && nSize == Bytes(x.Val())
    ensures c == Leading(x.Val())
  {
    hide Pow, Value, Bytes;
    ghost var v := x.Val();
    LeadingBelow(v);
    if nSize <= 3 {
      var low := x.GetLow64();
      LowIsAll(v, nSize);
      c := low * Pow(256, 3 - nSize) % B;
    } else {
      var bn := new Uint256.Copy(x);
      Pow8();
      PowMul(2, 8, nSize - 3);
      bn.ShiftRight(8 * (nSize - 3));
      var low := bn.GetLow64();
      LowOfLow(bn.Val());
      c := low % B;
    }
  }

  lemma LowOfLow(x: nat)
    requires x < B
    ensures x % (B * B) % B == x
  {
  }

  /** The fields put together; the mantissa and the exponent always fit. */
  method Pack(leading: nat, bytes: nat, negative: bool) returns (c: nat)
    requires leading < EXPONENT && bytes <= 32
    ensures c == Packed(leading, bytes, negative) < B
  {
    hide Pow, BitOr;
    var nCompact, nSize := leading, bytes;
    if nCompact / MANTISSA % 2 == 1 {
      nCompact := nCompact / 256;
      nSize := nSize + 1;
    }
    assert nCompact < MANTISSA && nSize < 256;
    Byte3();
    QuotientIs(nSize * EXPONENT, EXPONENT, nSize, 0);
    OrDisjoint(nSize * EXPONENT, nCompact, 24);
    Fields(nSize, nCompact, false);
    c := BitOr(nCompact, nSize * EXPONENT);
    if negative && c % MANTISSA != 0 {
      OrClearBit(c, 23);
      c := BitOr(c, MANTISSA);
    }
  }

  lemma BytesOfBits(v: nat, bits: nat)
    requires bits <= 256 && (bits == 0 <==> v == 0) && (bits > 0 ==> Pow(2, bits - 1) <= v < Pow(2, bits))
    ensures Bytes(v) == (bits + 7) / 8
  {
    hide Pow;
    var n := (bits + 7) / 8;
    Pow8();
    Cube();
    if bits > 0 {
      PowMul(2, 8, n);
      PowMul(2, 8, n - 1);
      PowMono(2, bits, 8 * n);
      PowMono(2, 8 * (n - 1), bits - 1);
    }
    BytesIs(v, n);
  }

  lemma LowIsAll(v: nat, n: nat)
    requires n == Bytes(v) <= 3
    ensures v % (B * B) == v
  {
    hide Pow;
    BytesBounds(v);
    Cube();
    PowMono(256, n, 3);
  }

  lemma Byte3()
    ensures Pow(2, 23) == MANTISSA && Pow(2, 24) == EXPONENT
  {
    Pow8();
    PowAdd(2, 8, 8);
    PowAdd(2, 16, 8);
    assert Pow(2, 7) == 128;
    PowAdd(2, 16, 7);
  }

  /** The work proved by a block: floor(2^256 / (target + 1)) for a target that is positive and fits, else zero. */
  method GetBlockProof(nBits: nat) returns (r: Uint256)
    requires nBits < B
    ensures r.Valid()
    ensures var t := Expanded(nBits);
      r.Val() == if t == 0 || Sign(nBits) || t >= Pow(2, 256) then 0 else Pow(2, 256) / (t + 1)
  {
    hide Pow, Value, Modulus, Expanded, Sign;
    ghost var t := Expanded(nBits);
    ModulusIs();
    var target := new Uint256(0);
    var negative, overflow := SetCompact(target, nBits);
    if t < Modulus() {
      QuotientIs(t, Modulus(), 0, t);
    }
    var zero := target.EqualTo(0);
    if negative || overflow || zero {
      r := new Uint256(0);
      return;
    }
    NextFits(nBits);
    r := Work(target);
  }

  /** The quotient of 2^256, computed without representing 2^256. */
  method Work(target: Uint256) returns (r: Uint256)
    requires target.Valid() && 0 < target.Val() && target.Val() + 1 < Modulus()
    ensures r.Valid() && r.Val() == Modulus() / (target.Val() + 1)
  {
    hide Pow, Value, Modulus;
    ghost var t, m := target.Val(), Modulus();
    r := target.Not();
    var next := new Uint256.Copy(target);
    var one := new Uint256(1);
    next.AddAssign(one);
    QuotientIs(t + 1, m, 0, t + 1);
    var _ := r.DivAssign(next);
    ProofIs(t, m);
    r.AddAssign(one);
  }

  /** No target is the largest 256-bit number, so adding one to it does not wrap. */
  lemma NextFits(c: nat)
    requires Expanded(c) < Pow(2, 256)
    ensures Expanded(c) + 1 < Pow(2, 256)
  {
    hide Pow, Expanded, Size;
    PowStep(2, 255);
    var n := Size(c);
    ExpandsTo(c, n, Word(c));
    if n > 3 {
      PowStep(256, n - 4);
      Even(Word(c), Pow(256, n - 4));
    } else {
      Shrinks(Word(c), Pow(256, 3 - n));
      Byte3();
      PowMono(2, 24, 256);
    }
  }

  lemma Even(w: nat, p: nat)
    ensures w * (256 * p) % 2 == 0
  {
    Assoc(w, 256, p);
    Assoc(256, w, p);
  }

  lemma ProofIs(t: nat, m: nat)
    requires 0 < t && t + 1 < m
    ensures (m - 1 - t) / (t + 1) + 1 == m / (t + 1) < m
    ensures (m / (t + 1)) % m == m / (t + 1)
  {
    var d := t + 1;
    var q, r := (m - d) / d, (m - d) % d;
    Spread(q, 1, d);
    QuotientIs(m, d, q + 1, r);
    Scale(q + 1, 2, d);
    QuotientIs(q + 1, m, 0, q + 1);
  }
}
