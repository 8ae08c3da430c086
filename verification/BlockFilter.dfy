/** GCSFilter (BIP 158): a set of elements as the Golomb-Rice coded differences of their sorted hashes. */
module BlockFilter {
  import opened Powers
  import opened BitStream
  import opened GolombRice

  const MAX_SIZE: nat := 0x0200_0000
  const U32: nat := 0x1_0000_0000

  type Element = seq<nat>

  // ----- compact sizes -----

  /** The k low bytes of n, least significant first. */
  function LittleEndian(n: nat, k: nat): (r: seq<nat>)
    ensures |r| == k && forall b :: b in r ==> b < 256
  {
    if k == 0 then [] else [n % 256] + LittleEndian(n / 256, k - 1)
  }

  function FromLittleEndian(b: seq<nat>): nat
  {
    if b == [] then 0 else b[0] + 256 * FromLittleEndian(b[1..])
  }

  lemma {:induction false} LittleEndianBack(n: nat, k: nat)
    requires n < Pow(256, k)
    ensures FromLittleEndian(LittleEndian(n, k)) == n
  {
    if k > 0 {
      assert n / 256 < Pow(256, k - 1);
      LittleEndianBack(n / 256, k - 1);
    }
  }

  function WriteCompactSize(n: nat): (r: seq<nat>)
    ensures forall b :: b in r ==> b < 256
  {
    if n < 253 then [n]
    else if n <= 0xffff then [253] + LittleEndian(n, 2)
    else if n <= 0xffff_ffff then [254] + LittleEndian(n, 4)
    else [255] + LittleEndian(n, 8)
  }

  /** A size below 253 is one byte; others follow a mark in two or four bytes, the least significant first. */
  lemma CompactSizeBytes(n: nat)
    requires n < U32
    ensures n < 253 ==> WriteCompactSize(n) == [n]
    ensures 253 <= n <= 0xffff ==> WriteCompactSize(n) == [253, n % 256, n / 256]
    ensures n > 0xffff ==>
      WriteCompactSize(n) == [254, n % 256, n / 256 % 256, n / 0x1_0000 % 256, n / 0x100_0000]
  {
    if 253 <= n <= 0xffff {
      assert LittleEndian(n, 2) == [n % 256] + LittleEndian(n / 256, 1);
      assert LittleEndian(n / 256, 1) == [n / 256 % 256] + LittleEndian(n / 256 / 256, 0);
    } else if n > 0xffff {
      assert LittleEndian(n, 4) == [n % 256] + LittleEndian(n / 256, 3);
      assert LittleEndian(n / 256, 3) == [n / 256 % 256] + LittleEndian(n / 256 / 256, 2);
      assert LittleEndian(n / 256 / 256, 2) == [n / 256 / 256 % 256] + LittleEndian(n / 256 / 256 / 256, 1);
      assert LittleEndian(n / 256 / 256 / 256, 1) == [n / 256 / 256 / 256 % 256];
    }
  }

  datatype Parsed = Parsed(value: nat, size: nat) | Malformed

  /** The number and its length; data that ends early, a form longer than needed and a number above the size limit
      are errors. */
  function ReadCompactSize(data: seq<nat>): Parsed
  {
    if data == [] then Malformed
    else if data[0] < 253 then Parsed(data[0], 1)
    else
      var (k, least) := if data[0] == 253 then (2, 253) else if data[0] == 254 then (4, 0x1_0000) else (8, U32);
      if |data| < 1 + k then Malformed
      else
        var n := FromLittleEndian(data[1..1 + k]);
        if n < least || n > MAX_SIZE then Malformed else Parsed(n, 1 + k)
  }

  /** A written size reads back exactly if it is within the limit, and is refused otherwise. */
  lemma CompactSizeBack(n: nat, rest: seq<nat>)
    requires n < U32
    ensures ReadCompactSize(WriteCompactSize(n) + rest) ==
      if n <= MAX_SIZE then Parsed(n, |WriteCompactSize(n)|) else Malformed
  {
    hide LittleEndian, FromLittleEndian;
    var data := WriteCompactSize(n) + rest;
    Bytes24();
    if n >= 253 {
      var k := if n <= 0xffff then 2 else 4;
      LittleEndianBack(n, k);
      assert data[1..1 + k] == LittleEndian(n, k);
    }
  }

  lemma Bytes24()
    ensures Pow(256, 2) == 0x1_0000 && Pow(256, 4) == U32
  {
    assert Pow(256, 1) == 256;
    PowAdd(256, 1, 1);
    PowAdd(256, 2, 2);
  }

  // ----- sorting -----

  predicate Sorted(s: seq<nat>) { forall i, j :: 0 <= i <= j < |s| ==> s[i] <= s[j] }

  function Insert(s: seq<nat>, x: nat): seq<nat>
  {
    if s == [] || x <= s[0] then [x] + s else [s[0]] + Insert(s[1..], x)
  }

  function SortedOf(s: seq<nat>): seq<nat> { if s == [] then [] else Insert(SortedOf(s[1..]), s[0]) }

  lemma {:induction false} InsertKeeps(s: seq<nat>, x: nat)
    ensures multiset(Insert(s, x)) == multiset(s) + multiset{x}
  {
    if s != [] {
      InsertKeeps(s[1..], x);
      assert s == [s[0]] + s[1..];
    }
  }

  lemma {:induction false} InsertSorted(s: seq<nat>, x: nat, least: nat)
    requires Sorted(s) && least <= x && forall i :: 0 <= i < |s| ==> least <= s[i]
    ensures Sorted(Insert(s, x)) && forall i :: 0 <= i < |Insert(s, x)| ==> least <= Insert(s, x)[i]
  {
    if s != [] && x > s[0] {
      InsertSorted(s[1..], x, s[0]);
    }
  }

  /** A sorted permutation. */
  lemma {:induction false} SortedOfSorts(s: seq<nat>)
    ensures Sorted(SortedOf(s)) && multiset(SortedOf(s)) == multiset(s)
  {
    if s != [] {
      SortedOfSorts(s[1..]);
      InsertKeeps(SortedOf(s[1..]), s[0]);
      InsertSorted(SortedOf(s[1..]), s[0], 0);
      assert s == [s[0]] + s[1..];
    }
  }

  // ----- the coded list -----

  /** The difference to the value before. */
  function Delta(vals: seq<nat>, i: nat): nat
    requires i < |vals| && Sorted(vals)
  {
    if i == 0 then vals[0] else vals[i] - vals[i - 1]
  }

  /** The codes of the values from the i-th on. */
  function CodesFrom(p: nat, vals: seq<nat>, i: nat): Bits
    requires i <= |vals| && Sorted(vals)
    decreases |vals| - i
  {
    if i == |vals| then [] else Coded(p, Delta(vals, i)) + CodesFrom(p, vals, i + 1)
  }

  /** The bytes are the number of values, their codes, and less than a byte of zeros. */
  ghost predicate Encodes(p: nat, vals: seq<nat>, encoded: seq<nat>)
    requires Sorted(vals)
  {
    var size := WriteCompactSize(|vals|);
    size <= encoded && exists z :: 0 <= z < 8 && BytesBits(encoded[|size|..]) == CodesFrom(p, vals, 0) + Zeros(z)
  }

  datatype Listing = Values(values: seq<nat>, rest: Bits) | Short

  /** The n values whose differences are coded at the start of some bits, in 64 bits and from the value last on, and
      what follows them; unless the bits end too early. */
  function Listed(p: nat, n: nat, bits: Bits, last: nat): (r: Listing)
    ensures r.Values? ==> |r.values| == n
  {
    if n == 0 then Values([], bits)
    else
      match FirstNumber(p, bits)
      case Cut => Short
      case Number(delta, rest) =>
        var v := (last + delta) % U64;
        var more := Listed(p, n - 1, rest, v);
        if more.Short? then Short else Values([v] + more.values, more.rest)
  }

  function Before(vals: seq<nat>, i: nat): nat
    requires i <= |vals|
  {
    if i == 0 then 0 else vals[i - 1]
  }

  /** Sorted values are listed from their codes. */
  lemma {:induction false} ListsCodes(p: nat, vals: seq<nat>, i: nat, rest: Bits)
    requires p < 64 && Sorted(vals) && i <= |vals| && forall j :: 0 <= j < |vals| ==> vals[j] < U64
    ensures Listed(p, |vals| - i, CodesFrom(p, vals, i) + rest, Before(vals, i)) == Values(vals[i..], rest)
    decreases |vals| - i
  {
    hide Coded, FirstNumber;
    if i == |vals| {
      assert CodesFrom(p, vals, i) + rest == rest;
    } else {
      var d := Delta(vals, i);
      var tail := CodesFrom(p, vals, i + 1) + rest;
      assert CodesFrom(p, vals, i) + rest == Coded(p, d) + tail;
      DecodesCoded(p, d, tail);
      assert (Before(vals, i) + d) % U64 == vals[i];
      ListsCodes(p, vals, i + 1, rest);
      assert vals[i..] == [vals[i]] + vals[i + 1..];
    }
  }

  // ----- the filter -----

  /** The keyed hash, the coding parameter and the inverse false positive rate. */
  datatype Params = Params(hash: Element -> nat, p: nat, m: nat) {
    predicate Ok() { p < 64 && m < U32 }
  }

  datatype Filter = Filter(params: Params, n: nat, f: nat, encoded: seq<nat>)

  function HashToRange(params: Params, f: nat, e: Element): nat { MapIntoRange(params.hash(e) % U64, f) }

  function Hashes(params: Params, f: nat, elements: seq<Element>): seq<nat>
  {
    seq(|elements|, i requires 0 <= i < |elements| => HashToRange(params, f, elements[i]))
  }

  method BuildHashedSet(params: Params, f: nat, elements: seq<Element>) returns (r: seq<nat>)
    ensures r == SortedOf(Hashes(params, f, elements))
  {
    var hashed := [];
    for i := 0 to |elements|
      invariant |hashed| == i && forall j :: 0 <= j < i ==> hashed[j] == HashToRange(params, f, elements[j])
    {
      hashed := hashed + [HashToRange(params, f, elements[i])];
    }
    assert hashed == Hashes(params, f, elements);
    r := SortedOf(hashed);
  }

  lemma HashesFit(params: Params, f: nat, elements: seq<Element>)
    requires f < U64
    ensures var vals := SortedOf(Hashes(params, f, elements));
      Sorted(vals) && |vals| == |elements| && forall i :: 0 <= i < |vals| ==> vals[i] < U64
  {
    hide MapIntoRange;
    var hashed := Hashes(params, f, elements);
    SortedOfSorts(hashed);
    var vals := SortedOf(hashed);
    assert |vals| == |multiset(vals)| == |multiset(hashed)| == |hashed|;
    forall i | 0 <= i < |vals|
      ensures vals[i] < U64
    {
      assert vals[i] in multiset(vals);
      assert vals[i] in multiset(hashed);
      var j :| 0 <= j < |hashed| && hashed[j] == vals[i];
      MapIntoRangeIs(params.hash(elements[j]) % U64, f);
      if f == 0 {
        ZeroRange(params.hash(elements[j]) % U64);
      }
    }
  }

  lemma ZeroRange(x: nat)
    ensures MapIntoRange(x, 0) == 0
  {
    assert x / HALF * 0 == 0 && x % HALF * 0 == 0;
  }

  /** The filter of a set of elements: its bytes code their sorted hashes. */
  ghost predicate FilterOf(filter: Filter, elements: seq<Element>)
  {
    && filter.params.Ok() && filter.n == |elements| < U32 && filter.f == filter.n * filter.params.m < U64
    && Sorted(HashValues(filter, elements)) && |HashValues(filter, elements)| == filter.n
    && (forall i :: 0 <= i < filter.n ==> HashValues(filter, elements)[i] < U64)
    && Encodes(filter.params.p, HashValues(filter, elements), filter.encoded)
  }

  ghost function HashValues(filter: Filter, elements: seq<Element>): seq<nat>
  {
    SortedOf(Hashes(filter.params, filter.f, elements))
  }

  lemma RangeFits(n: nat, m: nat)
    requires n < U32 && m < U32
    ensures n * m < U64
  {
    Scale(n, m, U32 - 1);
  }

  /** Builds the filter of a set, listed in any order; more than 2^32 - 1 elements is an error. */
  method Build(params: Params, elements: seq<Element>) returns (ok: bool, filter: Filter)
    requires params.Ok()
    ensures ok <==> |elements| < U32
    ensures ok ==> filter.params == params && FilterOf(filter, elements)
  {
    hide Sorted, SortedOf, Hashes, Encodes, WriteCompactSize, BytesBits;
    filter := Filter(params, 0, 0, [0]);
    if |elements| >= U32 {
      return false, filter;
    }
    var n := |elements|;
    RangeFits(n, params.m);
    var f := n * params.m;
    HashesFit(params, f, elements);
    var vals := BuildHashedSet(params, f, elements);
    var size := WriteCompactSize(n);
    if elements == [] {
      EmptyEncodes(params.p, vals);
      return true, Filter(params, n, f, size);
    }
    var encoded := EncodeValues(params.p, vals, size);
    return true, Filter(params, n, f, encoded);
  }

  lemma EmptyEncodes(p: nat, vals: seq<nat>)
    requires |vals| == 0 && Sorted(vals)
    ensures Encodes(p, vals, WriteCompactSize(0))
  {
    var e := WriteCompactSize(0);
    assert e[|e|..] == [] && Zeros(0) == [];
    assert BytesBits(e[|e|..]) == CodesFrom(p, vals, 0) + Zeros(0);
  }

  method EncodeValues(p: nat, vals: seq<nat>, size: seq<nat>) returns (encoded: seq<nat>)
    requires p < 64 && Sorted(vals) && size == WriteCompactSize(|vals|)
    requires forall i :: 0 <= i < |vals| ==> vals[i] < U64
    ensures Encodes(p, vals, encoded)
  {
    hide BytesBits, Coded, Writer.Valid, Writer.Written, WriteCompactSize, CodesFrom;
    var w := new Writer(size);
    ghost var start := w.Written();
    var last := 0;
    for i := 0 to |vals|
      invariant w.Valid() && size <= w.out && w.Written() + CodesFrom(p, vals, i) == start + CodesFrom(p, vals, 0)
      invariant last == if i == 0 then 0 else vals[i - 1]
    {
      var delta := vals[i] - last;
      CodesNext(p, vals, i);
      ghost var before := w.Written();
      Encode(w, p, delta);
      assert before + Coded(p, delta) + CodesFrom(p, vals, i + 1) ==
        before + (Coded(p, delta) + CodesFrom(p, vals, i + 1));
      last := vals[i];
    }
    NoCodes(p, vals);
    assert w.Written() == start + CodesFrom(p, vals, 0);
    encoded := Finish(w);
    Packed(p, vals, encoded);
  }

  method Finish(w: Writer) returns (encoded: seq<nat>)
    requires w.Valid()
    modifies w
    ensures old(w.out) <= encoded && exists z :: 0 <= z < 8 && BytesBits(encoded) == old(w.Written()) + Zeros(z)
  {
    hide BytesBits, NumOf;
    ghost var z := if w.offset == 0 then 0 else 8 - w.offset;
    w.Flush();
    assert BytesBits(w.out) == old(w.Written()) + Zeros(z);
    encoded := w.out;
  }

  lemma CodesNext(p: nat, vals: seq<nat>, i: nat)
    requires i < |vals| && Sorted(vals)
    ensures CodesFrom(p, vals, i) == Coded(p, Delta(vals, i)) + CodesFrom(p, vals, i + 1)
  {
  }

  lemma NoCodes(p: nat, vals: seq<nat>)
    requires Sorted(vals)
    ensures CodesFrom(p, vals, |vals|) == []
  {
  }

  lemma {:induction false} BytesBitsAppend(a: seq<nat>, b: seq<nat>)
    ensures BytesBits(a + b) == BytesBits(a) + BytesBits(b)
  {
    if b == [] {
      assert a + b == a;
    } else {
      var last := |b| - 1;
      BytesBitsAppend(a, b[..last]);
      assert (a + b)[..|a + b| - 1] == a + b[..last];
    }
  }

  /** The bytes after the size hold the codes. */
  lemma Packed(p: nat, vals: seq<nat>, encoded: seq<nat>)
    requires Sorted(vals) && WriteCompactSize(|vals|) <= encoded
    requires exists z ::
      0 <= z < 8 && BytesBits(encoded) == BytesBits(WriteCompactSize(|vals|)) + CodesFrom(p, vals, 0) + Zeros(z)
    ensures Encodes(p, vals, encoded)
  {
    hide BytesBits, CodesFrom, WriteCompactSize, Zeros;
    var size := WriteCompactSize(|vals|);
    var rest := encoded[|size|..];
    var z :| 0 <= z < 8 && BytesBits(encoded) == BytesBits(size) + CodesFrom(p, vals, 0) + Zeros(z);
    assert encoded == size + rest;
    BytesBitsAppend(size, rest);
    var s, r := BytesBits(size), BytesBits(rest);
    assert (s + r)[|s|..] == r;
    assert (s + CodesFrom(p, vals, 0) + Zeros(z))[|s|..] == CodesFrom(p, vals, 0) + Zeros(z);
  }

  // ----- filters of any origin -----

  /** What the bytes of a filter code, if they announce n values. */
  function Content(p: nat, n: nat, encoded: seq<nat>): Listing {
    var parsed := ReadCompactSize(encoded);
    if parsed.Parsed? && parsed.value == n && parsed.size <= |encoded|
      then Listed(p, n, BytesBits(encoded[parsed.size..]), 0)
    else Short
  }

  /** A filter that some constructor made: its bytes code its number of values, or there are too many to be read. */
  ghost predicate Made(filter: Filter) {
    && filter.params.Ok()
    && (if ReadCompactSize(filter.encoded).Malformed? then filter.n > MAX_SIZE
        else filter.n <= MAX_SIZE && Content(filter.params.p, filter.n, filter.encoded).Values?)
  }

  /** The values a filter codes. */
  ghost function Coding(filter: Filter): seq<nat>
    requires Made(filter) && filter.n <= MAX_SIZE
  {
    Content(filter.params.p, filter.n, filter.encoded).values
  }

  lemma SizeParsed(data: seq<nat>)
    ensures ReadCompactSize(data).Parsed? ==>
      ReadCompactSize(data).size <= |data| && ReadCompactSize(data).value <= MAX_SIZE
  {
  }

  /** A filter built from elements is such a filter, and codes their sorted hashes. */
  lemma BuiltMade(filter: Filter, elements: seq<Element>)
    requires FilterOf(filter, elements)
    ensures Made(filter) && (filter.n <= MAX_SIZE ==> Coding(filter) == HashValues(filter, elements))
  {
    hide Sorted, SortedOf, Hashes, Encodes, WriteCompactSize, ReadCompactSize, BytesBits, CodesFrom, Zeros, Listed;
    var vals := HashValues(filter, elements);
    SizeBack(filter.params.p, vals, filter.encoded);
    if filter.n <= MAX_SIZE {
      var size := |WriteCompactSize(|vals|)|;
      var z :| 0 <= z < 8 && BytesBits(filter.encoded[size..]) == CodesFrom(filter.params.p, vals, 0) + Zeros(z);
      ListsCodes(filter.params.p, vals, 0, Zeros(z));
      assert vals[0..] == vals;
    }
  }

  // ----- matching -----

  datatype Answer = Thrown | Answer(found: bool)

  /** A query equals a value, and no value before that one is greater. */
  ghost predicate Hit(queries: seq<nat>, vals: seq<nat>) {
    exists j, i :: 0 <= j < |queries| && 0 <= i < |vals| && HitAt(queries, vals, j, i)
  }

  ghost predicate HitAt(queries: seq<nat>, vals: seq<nat>, j: nat, i: nat)
    requires j < |queries| && i < |vals|
  {
    queries[j] == vals[i] && forall m :: 0 <= m < i ==> vals[m] <= vals[i]
  }

  /** Among sorted values that is any query among them. */
  lemma HitSorted(queries: seq<nat>, vals: seq<nat>)
    requires Sorted(vals)
    ensures Hit(queries, vals) <==> exists j :: 0 <= j < |queries| && queries[j] in vals
  {
    if j :| 0 <= j < |queries| && queries[j] in vals {
      var i :| 0 <= i < |vals| && vals[i] == queries[j];
      assert HitAt(queries, vals, j, i);
    }
  }

  /** Differences that add up beyond 64 bits make a coded value come after a greater one, where it is not found. */
  lemma WrappedMissed(rest: Bits)
    ensures Listed(63, 2, Coded(63, 5) + (Coded(63, U64 - 2) + rest), 0) == Values([5, 3], rest)
    ensures 3 in [5, 3] && !Hit([3], [5, 3])
  {
    hide Coded, FirstNumber;
    DecodesCoded(63, 5, Coded(63, U64 - 2) + rest);
    DecodesCoded(63, U64 - 2, rest);
    assert Listed(63, 1, Coded(63, U64 - 2) + rest, 5) == Values([3], rest);
    assert [5, 3][0] == 5 && [5, 3][1] == 3;
  }

  /** Decodes the values one by one and walks the sorted queries along. Reading the size back throws exactly when
      there are more elements than the size limit. */
  method MatchInternal(filter: Filter, queries: seq<nat>) returns (r: Answer)
    requires Made(filter) && Sorted(queries)
    ensures r.Thrown? <==> filter.n > MAX_SIZE
    ensures r.Answer? ==> (r.found <==> Hit(queries, Coding(filter)))
  {
    hide Sorted, ReadCompactSize, BytesBits, Hit, Listed;
    var parsed := ReadCompactSize(filter.encoded);
    SizeParsed(filter.encoded);
    if parsed.Malformed? {
      return Thrown;
    }
    assert parsed.value == filter.n;
    var reader := new Reader(filter.encoded, parsed.size);
    var found := Walk(filter.params.p, filter.n, reader, queries, Coding(filter));
    return Answer(found);
  }

  lemma SizeBack(p: nat, vals: seq<nat>, encoded: seq<nat>)
    requires Sorted(vals) && |vals| < U32 && Encodes(p, vals, encoded)
    ensures ReadCompactSize(encoded) == if |vals| <= MAX_SIZE then Parsed(|vals|, |WriteCompactSize(|vals|)|)
      else Malformed
    ensures |WriteCompactSize(|vals|)| <= |encoded|
    ensures exists z ::
      0 <= z < 8 && BytesBits(encoded[|WriteCompactSize(|vals|)|..]) == CodesFrom(p, vals, 0) + Zeros(z)
  {
    hide WriteCompactSize, ReadCompactSize, BytesBits, CodesFrom, Sorted;
    var size := WriteCompactSize(|vals|);
    CompactSizeBack(|vals|, encoded[|size|..]);
    assert encoded == size + encoded[|size|..];
  }

  method Walk(p: nat, n: nat, reader: Reader, queries: seq<nat>, ghost vals: seq<nat>) returns (found: bool)
    requires p < 64 && n == |vals| && Sorted(queries) && reader.Valid()
    requires Listed(p, n, reader.Left(), 0).Values? && Listed(p, n, reader.Left(), 0).values == vals
    modifies reader
    ensures found <==> Hit(queries, vals)
  {
    hide Reader.Left, Reader.Loaded, Listed, Sorted, Passed, Ahead, Hit;
    var value: nat := 0;
    var k := 0;
    NothingPassed(queries, vals);
    assert vals[0..] == vals;
    for i := 0 to n
      invariant reader.Valid() && Lists(p, n - i, reader.Left(), value, vals[i..])
      invariant 0 <= k <= |queries| && Passed(queries, vals, k, i) && Ahead(queries, vals, k, i)
    {
      var delta := NextDelta(p, reader, n - i, value, vals[i..]);
      value := (value + delta) % U64;
      assert vals[i..][1..] == vals[i + 1..];
      PassedMore(queries, vals, k, i);
      while true
        invariant reader.Valid() && Lists(p, n - i - 1, reader.Left(), value, vals[i + 1..])
        invariant 0 <= k <= |queries| && Passed(queries, vals, k, i + 1) && Ahead(queries, vals, k, i)
        decreases |queries| - k
      {
        if k == |queries| {
          NoneLeft(queries, vals, k, i + 1);
          return false;
        } else if queries[k] == value {
          FoundOne(queries, vals, k, i);
          return true;
        } else if queries[k] > value {
          StayAhead(queries, vals, k, i);
          break;
        }
        PassOne(queries, vals, k, i);
        k := k + 1;
      }
    }
    NoneLeft(queries, vals, k, n);
    return false;
  }

  ghost predicate Lists(p: nat, n: nat, bits: Bits, last: nat, vals: seq<nat>) {
    Listed(p, n, bits, last).Values? && Listed(p, n, bits, last).values == vals
  }

  /** Query j is below one of the first i values, and no value up to that one equals it. */
  ghost predicate Missed(queries: seq<nat>, vals: seq<nat>, j: nat, i: nat)
    requires j < |queries| && i <= |vals|
  {
    exists m :: 0 <= m < i && MissedAt(queries, vals, j, m)
  }

  ghost predicate MissedAt(queries: seq<nat>, vals: seq<nat>, j: nat, m: nat)
    requires j < |queries| && m < |vals|
  {
    queries[j] < vals[m] && forall h :: 0 <= h <= m ==> queries[j] != vals[h]
  }

  /** The first k queries are missed among the first i values. */
  ghost predicate Passed(queries: seq<nat>, vals: seq<nat>, k: nat, i: nat)
    requires i <= |vals|
  {
    forall j :: 0 <= j < k <= |queries| ==> Missed(queries, vals, j, i)
  }

  /** The queries from k on are above the first i values. */
  ghost predicate Ahead(queries: seq<nat>, vals: seq<nat>, k: nat, i: nat)
  {
    forall j, m :: k <= j < |queries| && 0 <= m < i <= |vals| ==> queries[j] > vals[m]
  }

  lemma NothingPassed(queries: seq<nat>, vals: seq<nat>)
    ensures Passed(queries, vals, 0, 0) && Ahead(queries, vals, 0, 0)
  {
  }

  lemma PassedMore(queries: seq<nat>, vals: seq<nat>, k: nat, i: nat)
    requires i < |vals| && Passed(queries, vals, k, i)
    ensures Passed(queries, vals, k, i + 1)
  {
    hide MissedAt;
    var n := i + 1;
    forall j | 0 <= j < k <= |queries|
      ensures Missed(queries, vals, j, n)
    {
      assert Missed(queries, vals, j, i);
      var m :| 0 <= m < i && MissedAt(queries, vals, j, m);
      assert 0 <= m < n && MissedAt(queries, vals, j, m);
    }
  }

  lemma PassOne(queries: seq<nat>, vals: seq<nat>, k: nat, i: nat)
    requires k < |queries| && i < |vals| && queries[k] < vals[i]
    requires Passed(queries, vals, k, i + 1) && Ahead(queries, vals, k, i)
    ensures Passed(queries, vals, k + 1, i + 1) && Ahead(queries, vals, k + 1, i)
  {
    assert MissedAt(queries, vals, k, i);
    assert Missed(queries, vals, k, i + 1);
  }

  lemma StayAhead(queries: seq<nat>, vals: seq<nat>, k: nat, i: nat)
    requires Sorted(queries) && k < |queries| && i < |vals| && queries[k] > vals[i] && Ahead(queries, vals, k, i)
    ensures Ahead(queries, vals, k, i + 1)
  {
  }

  lemma FoundOne(queries: seq<nat>, vals: seq<nat>, k: nat, i: nat)
    requires k < |queries| && i < |vals| && queries[k] == vals[i] && Ahead(queries, vals, k, i)
    ensures Hit(queries, vals)
  {
    assert HitAt(queries, vals, k, i);
  }

  lemma NoneLeft(queries: seq<nat>, vals: seq<nat>, k: nat, i: nat)
    requires k <= |queries| && i <= |vals| && Passed(queries, vals, k, i) &&
      (k == |queries| || Ahead(queries, vals, k, i))
    requires k == |queries| || i == |vals|
    ensures !Hit(queries, vals)
  {
    forall j, h | 0 <= j < |queries| && 0 <= h < |vals|
      ensures !HitAt(queries, vals, j, h)
    {
      if j < k {
        assert Missed(queries, vals, j, i);
        var m :| 0 <= m < i && MissedAt(queries, vals, j, m);
        assert h <= m ==> queries[j] != vals[h];
      } else {
        assert queries[j] > vals[h];
      }
    }
  }

  method NextDelta(p: nat, reader: Reader, ghost n: nat, ghost last: nat, ghost vals: seq<nat>) returns (delta: nat)
    requires p < 64 && n > 0 && reader.Valid() && Lists(p, n, reader.Left(), last, vals)
    modifies reader
    ensures reader.Valid() && vals != [] && vals[0] == (last + delta) % U64
    ensures Lists(p, n - 1, reader.Left(), vals[0], vals[1..])
  {
    hide Reader.Left, Reader.Loaded, FirstNumber;
    var ok;
    ok, delta := Decode(reader, p);
  }

  /** Whether an element may be in the set: for a set's own filter, exactly when its hash is that of some member. */
  method Match(filter: Filter, element: Element, ghost elements: seq<Element>) returns (r: Answer)
    requires Made(filter)
    ensures r.Thrown? <==> filter.n > MAX_SIZE
    ensures r.Answer? ==> (r.found <==> Hit([HashToRange(filter.params, filter.f, element)], Coding(filter)))
    ensures r.Answer? && FilterOf(filter, elements) ==>
      (r.found <==> exists i :: 0 <= i < |elements| && SameHash(filter, elements[i], element))
    ensures r.Answer? && FilterOf(filter, elements) && element in elements ==> r.found
  {
    hide FilterOf, HashToRange, Made, Hit;
    var query := HashToRange(filter.params, filter.f, element);
    r := MatchInternal(filter, [query]);
    if r.Answer? && FilterOf(filter, elements) {
      MembersHit(filter, elements, [query]);
      AmongValues(filter, elements, query);
      assert [query][0] == query;
    }
  }

  lemma MembersHit(filter: Filter, elements: seq<Element>, queries: seq<nat>)
    requires FilterOf(filter, elements) && Made(filter) && filter.n <= MAX_SIZE
    ensures Hit(queries, Coding(filter)) <==> exists j ::
      0 <= j < |queries| && queries[j] in HashValues(filter, elements)
  {
    hide Sorted, SortedOf, Hashes, Encodes, Hit, Made;
    BuiltMade(filter, elements);
    HitSorted(queries, HashValues(filter, elements));
  }

  /** Whether any of some elements may be in the set. */
  method MatchAny(filter: Filter, wanted: seq<Element>, ghost elements: seq<Element>) returns (r: Answer)
    requires Made(filter)
    ensures r.Thrown? <==> filter.n > MAX_SIZE
    ensures r.Answer? ==> (r.found <==> Hit(SortedOf(Hashes(filter.params, filter.f, wanted)), Coding(filter)))
    ensures r.Answer? && FilterOf(filter, elements) ==>
      (r.found <==> exists i, j :: 0 <= i < |elements| && 0 <= j < |wanted| && SameHash(filter, elements[i], wanted[j]))
  {
    hide FilterOf, HashToRange, SortedOf, Sorted, Made, Hit;
    var queries := BuildHashedSet(filter.params, filter.f, wanted);
    SortedOfSorts(Hashes(filter.params, filter.f, wanted));
    r := MatchInternal(filter, queries);
    if r.Answer? && FilterOf(filter, elements) {
      MembersHit(filter, elements, queries);
      SomeAmongValues(filter, elements, wanted, queries);
    }
  }

  ghost predicate SameHash(filter: Filter, e: Element, q: Element)
  {
    HashToRange(filter.params, filter.f, e) == HashToRange(filter.params, filter.f, q)
  }

  lemma AmongValues(filter: Filter, elements: seq<Element>, query: nat)
    ensures query in HashValues(filter, elements) <==>
      exists i :: 0 <= i < |elements| && HashToRange(filter.params, filter.f, elements[i]) == query
  {
    hide HashToRange, SortedOf;
    var hashed := Hashes(filter.params, filter.f, elements);
    SortedOfSorts(hashed);
    assert query in HashValues(filter, elements) <==> query in multiset(HashValues(filter, elements));
    assert query in hashed <==> query in multiset(hashed);
    if query in hashed {
      var i :| 0 <= i < |hashed| && hashed[i] == query;
      assert HashToRange(filter.params, filter.f, elements[i]) == query;
    }
    forall i | 0 <= i < |elements| && HashToRange(filter.params, filter.f, elements[i]) == query
      ensures query in hashed
    {
      assert hashed[i] == query;
    }
  }

  lemma SomeAmongValues(filter: Filter, elements: seq<Element>, wanted: seq<Element>, queries: seq<nat>)
    requires queries == SortedOf(Hashes(filter.params, filter.f, wanted))
    ensures (exists k :: 0 <= k < |queries| && queries[k] in HashValues(filter, elements)) <==>
            (exists i, j :: 0 <= i < |elements| && 0 <= j < |wanted| && SameHash(filter, elements[i], wanted[j]))
  {
    hide HashToRange, SortedOf, Hashes, HashValues;
    if k :| 0 <= k < |queries| && queries[k] in HashValues(filter, elements) {
      AmongValues(filter, elements, queries[k]);
      assert queries[k] in queries;
      QueryOf(filter, wanted, queries, queries[k]);
      var j :| 0 <= j < |wanted| && HashToRange(filter.params, filter.f, wanted[j]) == queries[k];
      var i :| 0 <= i < |elements| && HashToRange(filter.params, filter.f, elements[i]) == queries[k];
      assert SameHash(filter, elements[i], wanted[j]);
    }
    if i, j :| 0 <= i < |elements| && 0 <= j < |wanted| && SameHash(filter, elements[i], wanted[j]) {
      var q := HashToRange(filter.params, filter.f, wanted[j]);
      QueryOf(filter, wanted, queries, q);
      AmongValues(filter, elements, q);
      var k :| 0 <= k < |queries| && queries[k] == q;
      assert queries[k] in HashValues(filter, elements);
    }
  }

  lemma QueryOf(filter: Filter, wanted: seq<Element>, queries: seq<nat>, q: nat)
    requires queries == SortedOf(Hashes(filter.params, filter.f, wanted))
    ensures q in queries <==> exists j :: 0 <= j < |wanted| && HashToRange(filter.params, filter.f, wanted[j]) == q
  {
    hide HashToRange, SortedOf, Hashes;
    AmongValues(filter, wanted, q);
  }

  /** The bytes announce a number of values within the limit, code that many, and leave less than a byte. */
  ghost predicate Acceptable(p: nat, encoded: seq<nat>) {
    && ReadCompactSize(encoded).Parsed?
    && var content := Content(p, ReadCompactSize(encoded).value, encoded);
    content.Values? && |content.rest| < 8
  }

  /** Receiving any bytes as a filter: the values are decoded to check that there are exactly as many as announced and
      nothing behind them. */
  method Receive(params: Params, encoded: seq<nat>) returns (ok: bool, filter: Filter)
    requires params.Ok()
    ensures ok <==> Acceptable(params.p, encoded)
    ensures ok ==> Made(filter) && filter.params == params && filter.encoded == encoded
    ensures ok ==> filter.n == ReadCompactSize(encoded).value && filter.f == filter.n * params.m
  {
    hide ReadCompactSize, BytesBits, Listed;
    filter := Filter(params, 0, 0, encoded);
    var parsed := ReadCompactSize(encoded);
    SizeParsed(encoded);
    if parsed.Malformed? {
      return false, filter;
    }
    var n := parsed.value % U32;
    if n != parsed.value {
      return false, filter;
    }
    filter := Filter(params, n, n * params.m, encoded);
    var reader := new Reader(encoded, parsed.size);
    ghost var last: nat := 0;
    ghost var whole := Listed(params.p, n, reader.Left(), 0);
    for i := 0 to n
      invariant reader.Valid() && EndsAlike(Listed(params.p, n - i, reader.Left(), last), whole)
    {
      ghost var bits := reader.Left();
      OneListed(params.p, n - i, bits, last);
      var delta;
      ok, delta := Decode(reader, params.p);
      if !ok {
        return;
      }
      last := (last + delta) % U64;
    }
    AllListed(params.p, reader.Left(), last);
    reader.BufferLeft();
    return reader.pos == |reader.data|, filter;
  }

  ghost predicate EndsAlike(a: Listing, b: Listing) {
    a.Short? == b.Short? && (a.Values? ==> a.rest == b.rest)
  }

  lemma OneListed(p: nat, n: nat, bits: Bits, last: nat)
    requires n > 0
    ensures FirstNumber(p, bits).Cut? ==> Listed(p, n, bits, last).Short?
    ensures FirstNumber(p, bits).Number? ==>
      var d := FirstNumber(p, bits);
      EndsAlike(Listed(p, n - 1, d.rest, (last + d.value) % U64), Listed(p, n, bits, last))
  {
    hide FirstNumber;
  }

  lemma AllListed(p: nat, bits: Bits, last: nat)
    ensures Listed(p, 0, bits, last) == Values([], bits)
  {
  }

  /** A built filter is accepted exactly up to the size limit, and is then the same filter. */
  method Resend(original: Filter, ghost elements: seq<Element>) returns (ok: bool, filter: Filter)
    requires FilterOf(original, elements)
    ensures ok <==> original.n <= MAX_SIZE
    ensures ok ==> filter == original
  {
    hide Sorted, SortedOf, Hashes, Encodes, Acceptable, FilterOf;
    BuiltAcceptable(original, elements);
    ok, filter := Receive(original.params, original.encoded);
  }

  lemma BuiltAcceptable(filter: Filter, elements: seq<Element>)
    requires FilterOf(filter, elements)
    ensures filter.params.Ok() && filter.f == filter.n * filter.params.m
    ensures Acceptable(filter.params.p, filter.encoded) <==> filter.n <= MAX_SIZE
    ensures filter.n <= MAX_SIZE ==>
      ReadCompactSize(filter.encoded).Parsed? && ReadCompactSize(filter.encoded).value == filter.n
  {
    hide Sorted, SortedOf, Hashes, Encodes, WriteCompactSize, ReadCompactSize, BytesBits, CodesFrom, Zeros, Listed;
    var vals := HashValues(filter, elements);
    SizeBack(filter.params.p, vals, filter.encoded);
    if filter.n <= MAX_SIZE {
      var size := |WriteCompactSize(|vals|)|;
      var z :| 0 <= z < 8 && BytesBits(filter.encoded[size..]) == CodesFrom(filter.params.p, vals, 0) + Zeros(z);
      ListsCodes(filter.params.p, vals, 0, Zeros(z));
      ZerosSize(z);
    }
  }

  lemma ZerosSize(z: nat)
    ensures |Zeros(z)| == z
  {
  }
}
