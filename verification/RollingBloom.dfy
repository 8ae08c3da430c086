/** CRollingBloomFilter: a set of recent insertions, kept in three generations that share two bits per
    position. The hash is a parameter; the sizes come from the constructor's floating-point formula and are
    parameters too. */
module RollingBloom {

  const WORD: nat := 0x1_0000_0000

  type Key = seq<nat>
  /** A 64-bit word as its bits, least significant first. */
  type Word = w: seq<bool> | |w| == 64 witness seq(64, i => false)
  type Bits = b: nat | b < 64
  type Words = seq<Word>

  // ----- bitwise operations on a word -----

  function And(w: Word, u: Word): Word { seq(64, i requires 0 <= i < 64 => w[i] && u[i]) }

  function Or(w: Word, u: Word): Word { seq(64, i requires 0 <= i < 64 => w[i] || u[i]) }

  function Xor(w: Word, u: Word): Word { seq(64, i requires 0 <= i < 64 => w[i] != u[i]) }

  function Not(w: Word): Word { seq(64, i requires 0 <= i < 64 => !w[i]) }

  /** The value v (0 or 1) shifted left by b. */
  function ShiftLeft(v: bool, b: Bits): Word { seq(64, i => i == b && v) }

  /** Zero minus the value v (0 or 1). */
  function Negated(v: bool): Word { seq(64, i => v) }

  function Zero(): Word { seq(64, i => false) }

  /** w with bit b replaced by v. */
  function SetBit(w: Word, b: Bits, v: bool): (r: Word)
    ensures forall c: Bits :: r[c] == if c == b then v else w[c]
  {
    Or(And(w, Not(ShiftLeft(true, b))), ShiftLeft(v, b))
  }

  /** The mask that clears the positions whose two bits are exactly (g1, g2). */
  function KeepMask(p1: Word, p2: Word, g1: bool, g2: bool): (r: Word)
    ensures forall b: Bits :: r[b] == !(p1[b] == g1 && p2[b] == g2)
  {
    Or(Xor(p1, Negated(g1)), Xor(p2, Negated(g2)))
  }

  // ----- generations -----

  /** The two-bit value at bit b of the k-th pair of words: 0 for unset, or a generation 1, 2 or 3. */
  function Gen(data: Words, k: nat, b: Bits): nat
    requires 2 * k + 1 < |data|
  {
    (if data[2 * k][b] then 1 else 0) + (if data[2 * k + 1][b] then 2 else 0)
  }

  /** One generation number written at one spot. */
  function Marked(data: Words, k: nat, b: Bits, g: nat): (r: Words)
    requires 2 * k + 1 < |data| && 1 <= g <= 3
    ensures |r| == |data|
  {
    data[2 * k := SetBit(data[2 * k], b, g % 2 == 1)][2 * k + 1 := SetBit(data[2 * k + 1], b, g / 2 == 1)]
  }

  lemma MarkedGen(data: Words, k: nat, b: Bits, g: nat, j: nat, c: Bits)
    requires 2 * k + 1 < |data| && 2 * j + 1 < |data| && 1 <= g <= 3
    ensures Gen(Marked(data, k, b, g), j, c) == if (j, c) == (k, b) then g else Gen(data, j, c)
  {
    hide SetBit;
  }

  /** The words with every position of generation g cleared. */
  ghost predicate Wiped(data: Words, g: nat, r: Words)
  {
    |r| == |data| &&
    forall k: nat, b: Bits :: 2 * k + 1 < |data| ==>
      Gen(r, k, b) == if Gen(data, k, b) == g then 0 else Gen(data, k, b)
  }

  lemma WipedPair(p1: Word, p2: Word, g: nat, b: Bits)
    requires 1 <= g <= 3
    ensures var m := KeepMask(p1, p2, g % 2 == 1, g / 2 == 1); var was := Gen([p1, p2], 0, b);
      Gen([And(p1, m), And(p2, m)], 0, b) == if was == g then 0 else was
  {
    hide KeepMask;
  }

  // ----- hashing -----

  /** The filter's fixed parameters. */
  datatype Config = Config(hash: (nat, nat, Key) -> nat, hashFuncs: nat, perGeneration: nat, size: nat) {
    predicate Ok() { perGeneration >= 1 && size >= 2 && size % 2 == 0 }
  }

  /** A scaled hash, used in place of a remainder. */
  function FastMod(x: nat, n: nat): (r: nat)
    requires x < WORD && n > 0
    ensures r < n && r * WORD <= x * n < (r + 1) * WORD
  {
    Scaled(x, n);
    x * n / WORD
  }

  lemma Scaled(x: nat, n: nat)
    requires x < WORD && n > 0
    ensures x * n / WORD < n
  {
    var q := x * n / WORD;
    assert x * n < WORD * n by { assert (WORD - x) * n > 0; }
    assert WORD * q <= x * n;
  }

  /** The pair of words and the bit of a key's n-th hash. */
  function Spot(cfg: Config, tweak: nat, n: nat, key: Key): (r: (nat, Bits))
    requires cfg.Ok()
    ensures 2 * r.0 + 1 < cfg.size
  {
    var h := cfg.hash(n, tweak, key) % WORD;
    (FastMod(h, cfg.size) / 2, h % 64)
  }

  /** Position (k, b) of the m-th hash h of a key: b is the lowest six bits of h, and k the pair of words that h points
      to when the range of h is spread over the pairs evenly. */
  lemma SpotIs(cfg: Config, tweak: nat, m: nat, key: Key)
    requires cfg.Ok()
    ensures var h := cfg.hash(m, tweak, key) % WORD; var (k, b) := Spot(cfg, tweak, m, key);
      (h - b) % 64 == 0 && 2 * k * WORD <= h * cfg.size < (2 * k + 2) * WORD
  {
    var h := cfg.hash(m, tweak, key) % WORD;
    var r := FastMod(h, cfg.size);
    assert 2 * (r / 2) <= r <= 2 * (r / 2) + 1;
  }

  /** One of the first n hashes of key falls on position (k, b). */
  ghost predicate Hits(cfg: Config, tweak: nat, n: nat, key: Key, k: nat, b: Bits)
    requires cfg.Ok()
  {
    exists m :: 0 <= m < n && Spot(cfg, tweak, m, key) == (k, b)
  }

  lemma HitsNext(cfg: Config, tweak: nat, n: nat, key: Key, k: nat, b: Bits)
    requires cfg.Ok()
    ensures Hits(cfg, tweak, n + 1, key, k, b) <==> Hits(cfg, tweak, n, key, k, b) || Spot(cfg, tweak, n, key) == (k, b)
  {
    hide Spot;
    if Hits(cfg, tweak, n + 1, key, k, b) {
      var m :| 0 <= m < n + 1 && Spot(cfg, tweak, m, key) == (k, b);
      if m < n {
        assert Hits(cfg, tweak, n, key, k, b);
      }
    }
  }

  // ----- the reference: which recent key last touched a position -----

  /** The index of the last key, from index lo on, one of whose hashes falls on (k, b); -1 if there is none. */
  ghost function Latest(cfg: Config, tweak: nat, keys: seq<Key>, lo: nat, k: nat, b: Bits): (i: int)
    requires cfg.Ok()
    ensures i == -1 || lo <= i < |keys|
    ensures i >= 0 ==> Hits(cfg, tweak, cfg.hashFuncs, keys[i], k, b)
    ensures forall j :: lo <= j < |keys| && j > i ==> !Hits(cfg, tweak, cfg.hashFuncs, keys[j], k, b)
  {
    if |keys| <= lo then -1
    else if Hits(cfg, tweak, cfg.hashFuncs, keys[|keys| - 1], k, b) then |keys| - 1
    else Latest(cfg, tweak, keys[..|keys| - 1], lo, k, b)
  }

  lemma {:induction false} LatestFrom(cfg: Config, tweak: nat, keys: seq<Key>, lo: nat, hi: nat, k: nat, b: Bits)
    requires cfg.Ok() && lo <= hi
    ensures Latest(cfg, tweak, keys, hi, k, b) ==
            (var i := Latest(cfg, tweak, keys, lo, k, b); if i < hi then -1 else i)
  {
    if |keys| > hi && !Hits(cfg, tweak, cfg.hashFuncs, keys[|keys| - 1], k, b) {
      LatestFrom(cfg, tweak, keys[..|keys| - 1], lo, hi, k, b);
    }
  }

  /** The generation number of the o-th generation since the last reset. */
  function Number(o: nat): (g: nat)
    ensures 1 <= g <= 3
  {
    o % 3 + 1
  }

  /** The index of the first key the filter still covers when o generations have been closed. */
  function Start(cfg: Config, o: nat): nat { if o < 2 then 0 else (o - 2) * cfg.perGeneration }

  /** The whole content of the filter: each position holds the number of the generation in which a covered key
      last touched it, and is unset if none did. */
  ghost predicate Exact(cfg: Config, tweak: nat, keys: seq<Key>, o: nat, data: Words)
    requires cfg.Ok()
  {
    |data| == cfg.size &&
    forall k: nat, b: Bits :: 2 * k + 1 < cfg.size ==>
      Gen(data, k, b) == Held(cfg, tweak, keys, o, k, b)
  }

  ghost function Held(cfg: Config, tweak: nat, keys: seq<Key>, o: nat, k: nat, b: Bits): nat
    requires cfg.Ok()
  {
    var i := Latest(cfg, tweak, keys, Start(cfg, o), k, b);
    if i < 0 then 0 else Number(i / cfg.perGeneration)
  }

  /** Opening generation o + 1 forgets exactly the positions whose generation number is reused. */
  lemma RotateHeld(cfg: Config, tweak: nat, keys: seq<Key>, o: nat, k: nat, b: Bits)
    requires cfg.Ok() && |keys| == (o + 1) * cfg.perGeneration
    ensures Held(cfg, tweak, keys, o + 1, k, b) ==
            (var h := Held(cfg, tweak, keys, o, k, b); if h == Number(o + 1) then 0 else h)
  {
    hide Hits, Latest;
    var n := cfg.perGeneration;
    assert Start(cfg, o + 1) >= Start(cfg, o) by { assert o >= 2 ==> (o - 1) * n == (o - 2) * n + n; }
    LatestFrom(cfg, tweak, keys, Start(cfg, o), Start(cfg, o + 1), k, b);
    var i := Latest(cfg, tweak, keys, Start(cfg, o), k, b);
    if i >= 0 {
      Reused(i, n, o);
    }
  }

  /** Among the three open generations only the oldest shares its number with the next one. */
  lemma Reused(i: nat, n: nat, o: nat)
    requires n >= 1 && i < (o + 1) * n
    requires o >= 2 ==> i >= (o - 2) * n
    ensures Number(i / n) == Number(o + 1) <==> o >= 2 && i < (o - 1) * n
  {
    Ordinal(i, n, o + 1);
    if o >= 2 {
      Ordinal(i, n, o - 2);
      Ordinal(i, n, o - 1);
      SameNumber(i / n, o);
    }
  }

  lemma SameNumber(d: nat, o: nat)
    requires o >= 2 && o - 2 <= d <= o
    ensures Number(d) == Number(o + 1) <==> d < o - 1
  {
  }

  lemma Ordinal(i: nat, n: nat, q: nat)
    requires n >= 1
    ensures i < q * n <==> i / n < q
  {
    var d := i / n;
    assert d * n <= i < d * n + n;
    if d < q {
      assert (q - d - 1) * n >= 0;
      assert q * n == (q - d - 1) * n + d * n + n;
    } else {
      assert (d - q) * n >= 0;
      assert d * n == (d - q) * n + q * n;
    }
  }

  /** Inserting a key into generation o. */
  lemma InsertHeld(cfg: Config, tweak: nat, keys: seq<Key>, o: nat, key: Key, k: nat, b: Bits)
    requires cfg.Ok()
    requires o * cfg.perGeneration <= |keys| < (o + 1) * cfg.perGeneration
    ensures Held(cfg, tweak, keys + [key], o, k, b) ==
            if Hits(cfg, tweak, cfg.hashFuncs, key, k, b) then Number(o) else Held(cfg, tweak, keys, o, k, b)
  {
    hide Hits;
    var n := cfg.perGeneration;
    assert (keys + [key])[..|keys|] == keys;
    assert Start(cfg, o) <= |keys| by { assert o >= 2 ==> o * n == (o - 2) * n + 2 * n; }
    Ordinal(|keys|, n, o);
    Ordinal(|keys|, n, o + 1);
  }

  // ----- the filter -----

  class Filter {
    const cfg: Config
    var data: Words
    var nGeneration: nat
    var nEntriesThisGeneration: nat
    var nTweak: nat
    ghost var keys: seq<Key>
    ghost var closed: nat

    ghost predicate Valid()
      reads this
    {
      && cfg.Ok()
      && nEntriesThisGeneration <= cfg.perGeneration
      && |keys| == closed * cfg.perGeneration + nEntriesThisGeneration
      && nGeneration == Number(closed)
      && Exact(cfg, nTweak, keys, closed, data)
    }

    /** How many of the last insertions the filter is promised to remember. */
    ghost function Covered(): nat
      reads this
    {
      var promised := 2 * cfg.perGeneration + nEntriesThisGeneration;
      if |keys| < promised then |keys| else promised
    }

    constructor (cfg: Config, tweak: nat)
      requires cfg.Ok()
      ensures Valid() && this.cfg == cfg && keys == [] && nTweak == tweak
    {
      this.cfg := cfg;
      data := seq(cfg.size, i => Zero());
      nGeneration, nEntriesThisGeneration, nTweak := 1, 0, tweak;
      keys, closed := [], 0;
      new;
      Blank(cfg, tweak, data);
    }

    method Reset(tweak: nat)
      requires Valid()
      modifies this
      ensures Valid() && keys == [] && nTweak == tweak
      ensures forall k: nat, b: Bits :: 2 * k + 1 < |data| ==> Gen(data, k, b) == 0
    {
      nTweak := tweak;
      nEntriesThisGeneration := 0;
      nGeneration := 1;
      data := seq(|data|, i => Zero());
      keys, closed := [], 0;
      Blank(cfg, tweak, data);
    }

    /** Records a key. What the words hold afterwards is fixed by Valid. */
    method Insert(key: Key)
      requires Valid()
      modifies this
      ensures Valid() && nTweak == old(nTweak)
      ensures keys == old(keys) + [key]
      ensures nEntriesThisGeneration == 1 + if old(nEntriesThisGeneration) == cfg.perGeneration then 0
        else old(nEntriesThisGeneration)
    {
      hide Exact, Number, Hits;
      ExactSize(cfg, nTweak, keys, closed, data);
      if nEntriesThisGeneration == cfg.perGeneration {
        nEntriesThisGeneration := 0;
        nGeneration := nGeneration + 1;
        if nGeneration == 4 {
          nGeneration := 1;
        }
        NextNumber(closed);
        data := Wipe(data, nGeneration);
        RotateExact(cfg, nTweak, keys, closed, old(data), data);
        closed := closed + 1;
        assert old(closed) * cfg.perGeneration + cfg.perGeneration == closed * cfg.perGeneration;
      }
      nEntriesThisGeneration := nEntriesThisGeneration + 1;
      ghost var before := data;
      data := Mark(cfg, nTweak, data, key, nGeneration);
      InsertExact(cfg, nTweak, keys, closed, key, before, data);
      keys := keys + [key];
    }

    /** True exactly when every position of the key was touched by one of the covered insertions; so every
        covered key is found. */
    method Contains(key: Key) returns (found: bool)
      requires Valid()
      ensures found <==> forall n :: 0 <= n < cfg.hashFuncs ==> Touched(Spot(cfg, nTweak, n, key))
      ensures key in keys[|keys| - Covered()..] ==> found
    {
      hide Spot, Hits;
      found := true;
      var n := 0;
      while n < cfg.hashFuncs
        invariant 0 <= n <= cfg.hashFuncs && found
        invariant forall m :: 0 <= m < n ==> Touched(Spot(cfg, nTweak, m, key))
      {
        var spot := Spot(cfg, nTweak, n, key);
        SetIff(spot);
        var both := Or(data[2 * spot.0], data[2 * spot.0 + 1]);
        if !both[spot.1] {
          found := false;
          break;
        }
        n := n + 1;
      }
      if key in keys[|keys| - Covered()..] {
        CoveredTouched(key);
      }
    }

    /** Some covered insertion has a hash at this position. */
    ghost predicate Touched(spot: (nat, Bits))
      requires cfg.Ok()
      reads this
    {
      exists i :: |keys| - Covered() <= i < |keys| && i >= 0 &&
        Hits(cfg, nTweak, cfg.hashFuncs, keys[i], spot.0, spot.1)
    }

    lemma CoveredIs()
      requires Valid()
      ensures |keys| - Covered() == Start(cfg, closed)
    {
      hide Exact;
      if closed >= 2 {
        assert closed * cfg.perGeneration == (closed - 2) * cfg.perGeneration + 2 * cfg.perGeneration;
      } else if closed == 1 {
        assert closed * cfg.perGeneration == cfg.perGeneration;
      }
    }

    lemma SetIff(spot: (nat, Bits))
      requires Valid() && 2 * spot.0 + 1 < cfg.size
      ensures |data| == cfg.size && (Gen(data, spot.0, spot.1) != 0 <==> Touched(spot))
    {
      hide Hits, Gen;
      CoveredIs();
      assert Gen(data, spot.0, spot.1) == Held(cfg, nTweak, keys, closed, spot.0, spot.1);
    }

    lemma CoveredTouched(key: Key)
      requires Valid() && key in keys[|keys| - Covered()..]
      ensures forall n :: 0 <= n < cfg.hashFuncs ==> Touched(Spot(cfg, nTweak, n, key))
    {
      hide Spot, Exact;
      var lo := |keys| - Covered();
      var j :| 0 <= j < |keys| - lo && keys[lo..][j] == key;
      assert keys[lo + j] == key;
    }
  }

  lemma Blank(cfg: Config, tweak: nat, data: Words)
    requires cfg.Ok() && |data| == cfg.size
    requires forall i :: 0 <= i < |data| ==> data[i] == Zero()
    ensures Exact(cfg, tweak, [], 0, data)
    ensures forall k: nat, b: Bits :: 2 * k + 1 < |data| ==> Gen(data, k, b) == 0
  {
  }

  lemma ExactSize(cfg: Config, tweak: nat, keys: seq<Key>, o: nat, data: Words)
    requires cfg.Ok() && Exact(cfg, tweak, keys, o, data)
    ensures |data| == cfg.size
  {
  }

  lemma NextNumber(o: nat)
    ensures Number(o + 1) == if Number(o) == 3 then 1 else Number(o) + 1
  {
  }

  lemma RotateExact(cfg: Config, tweak: nat, keys: seq<Key>, o: nat, data: Words, r: Words)
    requires cfg.Ok() && |keys| == o * cfg.perGeneration + cfg.perGeneration
    requires Exact(cfg, tweak, keys, o, data) && Wiped(data, Number(o + 1), r)
    ensures Exact(cfg, tweak, keys, o + 1, r)
  {
    hide Gen, Number, Held;
    forall k: nat, b: Bits | 2 * k + 1 < cfg.size
      ensures Gen(r, k, b) == Held(cfg, tweak, keys, o + 1, k, b)
    {
      RotateHeld(cfg, tweak, keys, o, k, b);
    }
  }

  lemma InsertExact(cfg: Config, tweak: nat, keys: seq<Key>, o: nat, key: Key, data: Words, r: Words)
    requires cfg.Ok() && o * cfg.perGeneration <= |keys| < o * cfg.perGeneration + cfg.perGeneration
    requires Exact(cfg, tweak, keys, o, data)
    requires AllMarked(cfg, tweak, cfg.hashFuncs, data, key, Number(o), r)
    ensures Exact(cfg, tweak, keys + [key], o, r)
  {
    hide Gen, Number, Held, Hits;
    forall k: nat, b: Bits | 2 * k + 1 < cfg.size
      ensures Gen(r, k, b) == Held(cfg, tweak, keys + [key], o, k, b)
    {
      InsertHeld(cfg, tweak, keys, o, key, k, b);
    }
  }

  /** r is data with generation g written at the key's first n hash positions. */
  ghost predicate AllMarked(cfg: Config, tweak: nat, n: nat, data: Words, key: Key, g: nat, r: Words)
    requires cfg.Ok()
  {
    |data| == |r| == cfg.size &&
    forall k: nat, b: Bits :: 2 * k + 1 < cfg.size ==>
      Gen(r, k, b) == if Hits(cfg, tweak, n, key, k, b) then g else Gen(data, k, b)
  }

  /** Clears the positions of generation g, two words at a time. */
  method Wipe(data: Words, g: nat) returns (r: Words)
    requires |data| % 2 == 0 && 1 <= g <= 3
    ensures Wiped(data, g, r)
  {
    hide Gen, KeepMask, And;
    r := data;
    var p := 0;
    while p < |data|
      invariant 0 <= p <= |data| && p % 2 == 0 && |r| == |data|
      invariant forall i :: p <= i < |data| ==> r[i] == data[i]
      invariant WipedBelow(data, g, r, p / 2)
    {
      var p1, p2 := r[p], r[p + 1];
      var mask := KeepMask(p1, p2, g % 2 == 1, g / 2 == 1);
      WipeStep(data, r, p / 2, g);
      r := r[p := And(p1, mask)][p + 1 := And(p2, mask)];
      p := p + 2;
    }
  }

  ghost predicate WipedBelow(data: Words, g: nat, r: Words, n: nat)
    requires |r| == |data|
  {
    forall k: nat, b: Bits :: k < n && 2 * k + 1 < |data| ==>
      Gen(r, k, b) == if Gen(data, k, b) == g then 0 else Gen(data, k, b)
  }

  lemma WipeStep(data: Words, r: Words, n: nat, g: nat)
    requires |data| == |r| && 2 * n + 1 < |data| && 1 <= g <= 3
    requires r[2 * n] == data[2 * n] && r[2 * n + 1] == data[2 * n + 1]
    requires WipedBelow(data, g, r, n)
    ensures var mask := KeepMask(r[2 * n], r[2 * n + 1], g % 2 == 1, g / 2 == 1);
      var r' := r[2 * n := And(r[2 * n], mask)][2 * n + 1 := And(r[2 * n + 1], mask)];
      WipedBelow(data, g, r', n + 1)
  {
    hide KeepMask, Gen, And;
    var mask := KeepMask(r[2 * n], r[2 * n + 1], g % 2 == 1, g / 2 == 1);
    var r' := r[2 * n := And(r[2 * n], mask)][2 * n + 1 := And(r[2 * n + 1], mask)];
    forall k: nat, b: Bits | k < n + 1 && 2 * k + 1 < |data|
      ensures Gen(r', k, b) == if Gen(data, k, b) == g then 0 else Gen(data, k, b)
    {
      if k == n {
        WipedPair(r[2 * n], r[2 * n + 1], g, b);
        SamePair(r', k, [And(r[2 * n], mask), And(r[2 * n + 1], mask)], 0, b);
        SamePair(data, k, [r[2 * n], r[2 * n + 1]], 0, b);
      } else {
        SamePair(r', k, r, k, b);
      }
    }
  }

  lemma SamePair(data: Words, k: nat, other: Words, j: nat, b: Bits)
    requires 2 * k + 1 < |data| && 2 * j + 1 < |other|
    requires data[2 * k] == other[2 * j] && data[2 * k + 1] == other[2 * j + 1]
    ensures Gen(data, k, b) == Gen(other, j, b)
  {
  }

  /** Writes generation g at every hash position of the key. */
  method Mark(cfg: Config, tweak: nat, data: Words, key: Key, g: nat) returns (r: Words)
    requires cfg.Ok() && |data| == cfg.size && 1 <= g <= 3
    ensures AllMarked(cfg, tweak, cfg.hashFuncs, data, key, g, r)
  {
    hide Gen, Spot, SetBit;
    r := data;
    var n := 0;
    while n < cfg.hashFuncs
      invariant 0 <= n <= cfg.hashFuncs && AllMarked(cfg, tweak, n, data, key, g, r)
    {
      var spot := Spot(cfg, tweak, n, key);
      ghost var was := r;
      r := r[2 * spot.0 := SetBit(r[2 * spot.0], spot.1, g % 2 == 1)];
      r := r[2 * spot.0 + 1 := SetBit(r[2 * spot.0 + 1], spot.1, g / 2 == 1)];
      MarkStep(cfg, tweak, n, data, key, g, was, r);
      n := n + 1;
    }
  }

  lemma MarkStep(cfg: Config, tweak: nat, n: nat, data: Words, key: Key, g: nat, was: Words, r: Words)
    requires cfg.Ok() && AllMarked(cfg, tweak, n, data, key, g, was) && 1 <= g <= 3
    requires var spot := Spot(cfg, tweak, n, key); r == Marked(was, spot.0, spot.1, g)
    ensures AllMarked(cfg, tweak, n + 1, data, key, g, r)
  {
    hide Gen, Spot, Marked, Hits;
    var spot := Spot(cfg, tweak, n, key);
    forall k: nat, b: Bits | 2 * k + 1 < cfg.size
      ensures Gen(r, k, b) == if Hits(cfg, tweak, n + 1, key, k, b) then g else Gen(data, k, b)
    {
      HitsNext(cfg, tweak, n, key, k, b);
      MarkedGen(was, spot.0, spot.1, g, k, b);
    }
  }
}
