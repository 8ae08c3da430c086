/** BitStreamWriter and BitStreamReader: bits packed into bytes, most significant first. */
module BitStream {
  import opened Powers

  type Bits = seq<bool>

  const U64: nat := 0x1_0000_0000_0000_0000

  // ----- numbers as bits -----

  /** The n low bits of x, most significant first. */
  function BitsOf(x: nat, n: nat): (r: Bits)
    ensures |r| == n
  {
    if n == 0 then [] else BitsOf(x / 2, n - 1) + [x % 2 == 1]
  }

  function NumOf(b: Bits): nat
  {
    if b == [] then 0 else 2 * NumOf(b[..|b| - 1]) + if b[|b| - 1] then 1 else 0
  }

  lemma {:induction false} NumBelow(b: Bits)
    ensures NumOf(b) < Pow(2, |b|)
  {
    if b != [] {
      NumBelow(b[..|b| - 1]);
    }
  }

  lemma {:induction false} NumOfBits(x: nat, n: nat)
    ensures NumOf(BitsOf(x, n)) == x % Pow(2, n)
  {
    if n > 0 {
      var p := Pow(2, n - 1);
      NumOfBits(x / 2, n - 1);
      assert BitsOf(x, n)[..n - 1] == BitsOf(x / 2, n - 1);
      HalfRemainder(x, p);
    }
  }

  lemma HalfRemainder(x: nat, p: nat)
    requires p > 0
    ensures 2 * (x / 2 % p) + x % 2 == x % (2 * p)
  {
    var q, r := x / 2 / p, x / 2 % p;
    assert x / 2 == q * p + r;
    Assoc(q, 2, p);
    QuotientIs(x, 2 * p, q, 2 * r + x % 2);
  }

  lemma {:induction false} BitsOfNum(b: Bits)
    ensures BitsOf(NumOf(b), |b|) == b
  {
    if b != [] {
      BitsOfNum(b[..|b| - 1]);
      assert NumOf(b) / 2 == NumOf(b[..|b| - 1]);
    }
  }

  /** The low bits decide. */
  lemma {:induction false} BitsOfLow(x: nat, y: nat, n: nat)
    requires x % Pow(2, n) == y % Pow(2, n)
    ensures BitsOf(x, n) == BitsOf(y, n)
  {
    NumOfBits(x, n);
    NumOfBits(y, n);
    BitsOfNum(BitsOf(x, n));
    BitsOfNum(BitsOf(y, n));
  }

  lemma {:induction false} NumAppend(a: Bits, b: Bits)
    ensures NumOf(a + b) == NumOf(a) * Pow(2, |b|) + NumOf(b)
  {
    if b == [] {
      assert a + b == a;
    } else {
      var c := b[..|b| - 1];
      NumAppend(a, c);
      assert (a + b)[..|a + b| - 1] == a + c;
      Doubled(NumOf(a), Pow(2, |c|), NumOf(c));
      assert Pow(2, |b|) == 2 * Pow(2, |c|);
    }
  }

  lemma Doubled(x: nat, p: nat, y: nat)
    ensures 2 * (x * p + y) == x * (2 * p) + 2 * y
  {
    Assoc(x, 2, p);
    Assoc(2, x, p);
  }

  /** High bits then low bits. */
  lemma BitsSplit(x: nat, m: nat, n: nat)
    ensures BitsOf(x, m + n) == BitsOf(x / Pow(2, n), m) + BitsOf(x, n)
  {
    if n == 0 {
      assert Pow(2, 0) == 1;
    } else {
      BitsSplit(x / 2, m, n - 1);
      QuotientTwice(x, 2, Pow(2, n - 1));
    }
  }

  function BytesBits(bytes: seq<nat>): (r: Bits)
    ensures |r| == 8 * |bytes|
  {
    if bytes == [] then [] else BytesBits(bytes[..|bytes| - 1]) + BitsOf(bytes[|bytes| - 1], 8)
  }

  lemma {:induction false} BytesBitsFirst(bytes: seq<nat>)
    requires bytes != []
    ensures BytesBits(bytes) == BitsOf(bytes[0], 8) + BytesBits(bytes[1..])
  {
    var last := |bytes| - 1;
    if last == 0 {
      assert bytes[..0] == [] && bytes[1..] == [];
    } else {
      BytesBitsFirst(bytes[..last]);
      assert bytes[..last][1..] == bytes[1..][..last - 1];
      assert bytes[..last][0] == bytes[0];
    }
  }

  function Zeros(n: nat): Bits { seq(n, i => false) }

  lemma {:induction false} ZeroBits(n: nat)
    ensures BitsOf(0, n) == Zeros(n) && NumOf(Zeros(n)) == 0
  {
    if n > 0 {
      ZeroBits(n - 1);
      assert Zeros(n) == Zeros(n - 1) + [false];
      assert Zeros(n)[..n - 1] == Zeros(n - 1);
    }
  }

  /** Shifting left appends zeros. */
  lemma BitsPadded(b: Bits, z: nat)
    ensures BitsOf(NumOf(b) * Pow(2, z), |b| + z) == b + Zeros(z)
  {
    hide NumOf, BitsOf, Pow;
    ZeroBits(z);
    NumAppend(b, Zeros(z));
    BitsOfNum(b + Zeros(z));
  }

  // ----- writing -----

  /** The writer's shifts select the next bits of the data and line them up behind the ones in the buffer. */
  function Piece(data: nat, left: nat, offset: nat): nat
    requires left <= 64
  {
    Quotient(Times(data, Pow(2, 64 - left)) % Pow(2, 64), Pow(2, 56 + offset))
  }

  /** The top bits of the left low bits of data. */
  function TopBits(data: nat, left: nat, bits: nat): (r: nat)
    requires bits <= left
    ensures r < Pow(2, bits)
  {
    data / Pow(2, left - bits) % Pow(2, bits)
  }

  lemma PieceIs(data: nat, left: nat, offset: nat, bits: nat)
    requires 0 < left <= 64 && offset < 8 && bits == if 8 - offset < left then 8 - offset else left
    ensures Piece(data, left, offset) == TopBits(data, left, bits) * Pow(2, 8 - offset - bits)
  {
    hide Pow;
    PowAdd(2, 64 - left, left);
    Cancel(data, Pow(2, 64 - left), Pow(2, left));
    var y := data % Pow(2, left);
    if 8 - offset < left {
      PowAdd(2, 64 - left, left - bits);
      Cancel(y, Pow(2, 64 - left), Pow(2, left - bits));
      PowAdd(2, left - bits, bits);
      DigitOfRemainder(data, Pow(2, left - bits), Pow(2, bits));
      One();
    } else {
      PowAdd(2, 56 + offset, 8 - offset - left);
      Assoc(y, Pow(2, 8 - offset - left), Pow(2, 56 + offset));
      QuotientIs(y * Pow(2, 64 - left), Pow(2, 56 + offset), y * Pow(2, 8 - offset - left), 0);
      One();
      QuotientIs(data, 1, data, 0);
    }
  }

  lemma One()
    ensures Pow(2, 0) == 1
  {
  }

  /** Or-ing in a chunk behind the pending bits. */
  lemma Pack(pending: Bits, chunk: nat, k: nat, z: nat)
    requires chunk < Pow(2, k)
    ensures BitOr(NumOf(pending) * Pow(2, k + z), chunk * Pow(2, z)) == NumOf(pending + BitsOf(chunk, k)) * Pow(2, z)
  {
    hide Pow, BitOr, NumOf;
    var n, a, b := NumOf(pending), Pow(2, k), Pow(2, z);
    PowAdd(2, k, z);
    QuotientIs(n * (a * b), a * b, n, 0);
    StrictScale(b, chunk, a);
    OrDisjoint(n * (a * b), chunk * b, k + z);
    NumOfBits(chunk, k);
    QuotientIs(chunk, a, 0, chunk);
    NumAppend(pending, BitsOf(chunk, k));
    Assoc(n, a, b);
    Spread(n * a, chunk, b);
  }

  class Writer {
    var out: seq<nat>
    var buffer: nat
    var offset: nat
    ghost var pending: Bits

    /** Bits not yet written out fill the buffer from the top; at most eight of them. */
    ghost predicate Buffered()
      reads this
    {
      && offset <= 8 && |pending| == offset && buffer == NumOf(pending) * Pow(2, 8 - offset)
      && forall b :: b in out ==> b < 256
    }

    ghost predicate Valid()
      reads this
    {
      Buffered() && offset < 8
    }

    ghost function Written(): Bits
      reads this
    {
      BytesBits(out) + pending
    }

    constructor (out: seq<nat>)
      requires forall b :: b in out ==> b < 256
      ensures Valid() && this.out == out && Written() == BytesBits(out)
    {
      this.out, buffer, offset, pending := out, 0, 0, [];
    }

    /** Appends the nbits low bits of data; more than 64 is an error. */
    method Write(data: nat, nbits: int) returns (ok: bool)
      requires Valid() && data < U64
      modifies this
      ensures Valid() && (ok <==> 0 <= nbits <= 64)
      ensures Written() == if ok then old(Written()) + BitsOf(data, nbits) else old(Written())
      ensures old(out) <= out
    {
      hide Pow, NumOf, BitsOf, BytesBits, BitOr, Piece, TopBits;
      if nbits < 0 || nbits > 64 {
        return false;
      }
      var left: nat := nbits;
      while left > 0
        invariant left <= 64 && Valid() && old(out) <= out &&
          Written() + BitsOf(data, left) == old(Written()) + BitsOf(data, nbits)
      {
        var bits := if 8 - offset < left then 8 - offset else left;
        var piece := Piece(data, left, offset);
        Chunk(data, left, bits);
        PieceIs(data, left, offset, bits);
        ghost var chunk := TopBits(data, left, bits);
        Pack(pending, chunk, bits, 8 - offset - bits);
        buffer := BitOr(buffer, piece);
        ghost var before := pending;
        pending := pending + BitsOf(chunk, bits);
        offset := offset + bits;
        assert BytesBits(out) + pending + BitsOf(data, left - bits) == BytesBits(out) + before + BitsOf(data, left);
        left := left - bits;
        if offset == 8 {
          Flush();
        }
      }
      NoBits(data);
      assert Written() + [] == Written();
      return true;
    }

    /** Writes out the buffer, padded with zeros to a whole byte. */
    method Flush()
      requires Buffered()
      modifies this
      ensures old(out) <= out
      ensures Valid() && pending == []
      ensures Written() == old(Written()) + Zeros(if old(offset) == 0 then 0 else 8 - old(offset))
    {
      hide Pow, NumOf, BitsOf, BytesBits;
      if offset == 0 {
        assert pending == [] && Zeros(0) == [];
        NoPending();
        return;
      }
      BitsPadded(pending, 8 - offset);
      ByteRange(pending, 8 - offset);
      AddByte(out, buffer);
      out := out + [buffer];
      buffer, offset := 0, 0;
      pending := [];
      NoPending();
    }
  }

  lemma NoBits(x: nat)
    ensures BitsOf(x, 0) == []
  {
  }

  lemma NoPending()
    ensures NumOf([]) * Pow(2, 8) == 0
  {
  }

  lemma AddByte(out: seq<nat>, b: nat)
    ensures BytesBits(out + [b]) == BytesBits(out) + BitsOf(b, 8)
  {
    assert (out + [b])[..|out|] == out;
  }

  lemma ByteRange(pending: Bits, z: nat)
    requires |pending| + z == 8
    ensures NumOf(pending) * Pow(2, z) < 256
  {
    NumBelow(pending);
    PowAdd(2, |pending|, z);
    StrictScale(Pow(2, z), NumOf(pending), Pow(2, |pending|));
    assert Pow(2, 8) == 256;
  }

  lemma Chunk(data: nat, left: nat, bits: nat)
    requires bits <= left
    ensures BitsOf(data, left) == BitsOf(TopBits(data, left, bits), bits) + BitsOf(data, left - bits)
  {
    hide Pow;
    var high := data / Pow(2, left - bits);
    BitsSplit(data, bits, left - bits);
    QuotientIs(high % Pow(2, bits), Pow(2, bits), 0, high % Pow(2, bits));
    BitsOfLow(high, high % Pow(2, bits), bits);
  }

  // ----- reading -----

  /** The next bits of the buffer: shift out what has been read, then shift down. */
  function Extract(buffer: nat, offset: nat, bits: nat): nat
    requires bits <= 8
  {
    Quotient(Times(buffer, Pow(2, offset)) % Pow(2, 8), Pow(2, 8 - bits))
  }

  /** A 64-bit accumulator shifted left by some bits, with a chunk or-ed in. */
  function ShiftIn(value: nat, bits: nat, chunk: nat): nat { BitOr(Times(value, Pow(2, bits)) % Pow(2, 64), chunk) }

  lemma ExtractIs(buffer: nat, offset: nat, bits: nat)
    requires offset + bits <= 8
    ensures Extract(buffer, offset, bits) == NumOf(BitsOf(buffer, 8)[offset..offset + bits])
  {
    hide Pow, NumOf, BitsOf;
    var z := 8 - offset - bits;
    PowAdd(2, offset, 8 - offset);
    Cancel(buffer, Pow(2, offset), Pow(2, 8 - offset));
    var y := buffer % Pow(2, 8 - offset);
    PowAdd(2, offset, z);
    Cancel(y, Pow(2, offset), Pow(2, z));
    PowAdd(2, z, bits);
    DigitOfRemainder(buffer, Pow(2, z), Pow(2, bits));
    NumOfBits(buffer / Pow(2, z), bits);
    MiddleBits(buffer, offset, bits);
  }

  lemma MiddleBits(buffer: nat, offset: nat, bits: nat)
    requires offset + bits <= 8
    ensures BitsOf(buffer, 8)[offset..offset + bits] == BitsOf(buffer / Pow(2, 8 - offset - bits), bits)
  {
    hide Pow, BitsOf;
    var z := 8 - offset - bits;
    BitsSplit(buffer, offset + bits, z);
    BitsSplit(buffer / Pow(2, z), offset, bits);
  }

  class Reader {
    const data: seq<nat>
    var pos: nat
    var buffer: nat
    var offset: nat

    ghost predicate Loaded()
      reads this
    {
      pos <= |data| && offset <= 8
    }

    /** Between calls some of the buffered byte has been read, so that a whole byte left over is in the data. */
    ghost predicate Valid()
      reads this
    {
      Loaded() && offset >= 1
    }

    /** The bits not read yet. */
    ghost function Left(): Bits
      requires Loaded()
      reads this
    {
      BitsOf(buffer, 8)[offset..] + BytesBits(data[pos..])
    }

    constructor (data: seq<nat>, pos: nat)
      requires pos <= |data|
      ensures Valid() && this.data == data && this.pos == pos && offset == 8 && Left() == BytesBits(data[pos..])
    {
      this.data, this.pos, buffer, offset := data, pos, 0, 8;
    }

    /** The next nbits bits as a number; running out of data, or asking for more than 64 bits, is an error. */
    method Read(nbits: int) returns (ok: bool, value: nat)
      requires Valid()
      modifies this
      ensures Valid() && (ok <==> 0 <= nbits <= 64 && nbits <= |old(Left())|)
      ensures ok ==> value == NumOf(old(Left())[..nbits]) && Left() == old(Left())[nbits..]
    {
      hide NumOf, Extract, ShiftIn, Left;
      if nbits < 0 || nbits > 64 {
        return false, 0;
      }
      ghost var all := Left();
      var left: nat := nbits;
      value := 0;
      NumEmpty();
      while left > 0
        invariant left <= nbits && Valid() && nbits - left <= |all|
        invariant Left() == all[nbits - left..] && value == NumOf(all[..nbits - left])
      {
        if offset == 8 {
          var more := Load();
          if !more {
            return false, 0;
          }
        }
        var bits := if 8 - offset < left then 8 - offset else left;
        BufferLeft();
        ghost var done := nbits - left;
        Extend(all[..done], all[done..][..bits]);
        assert all[..done] + all[done..][..bits] == all[..done + bits];
        var chunk := Take(bits);
        value := ShiftIn(value, bits, chunk);
        left := left - bits;
      }
      return true, value;
    }

    /** Takes the next bits out of the buffer. */
    method Take(bits: nat) returns (chunk: nat)
      requires Loaded() && offset + bits <= 8
      modifies this
      ensures Loaded() && offset == old(offset) + bits && bits <= |old(Left())| &&
        chunk == NumOf(old(Left())[..bits]) && Left() == old(Left())[bits..]
    {
      hide NumOf, BitsOf, BytesBits, Extract;
      ExtractIs(buffer, offset, bits);
      assert Left()[..bits] == BitsOf(buffer, 8)[offset..offset + bits];
      chunk := Extract(buffer, offset, bits);
      offset := offset + bits;
    }

    lemma BufferLeft()
      requires Loaded()
      ensures |Left()| == 8 * (|data| - pos) + (8 - offset)
    {
    }

    /** Loads the next byte into the empty buffer. */
    method Load() returns (ok: bool)
      requires Loaded() && offset == 8
      modifies this
      ensures Loaded() && (ok <==> old(Left()) != [])
      ensures !ok ==> offset == 8
      ensures ok ==> offset == 0 && Left() == old(Left())
    {
      hide BitsOf, BytesBits;
      if pos == |data| {
        return false;
      }
      NextByte();
      buffer := data[pos];
      pos := pos + 1;
      offset := 0;
      return true;
    }

    /** Loading the next byte does not change what is left. */
    lemma NextByte()
      requires Valid() && offset == 8 && pos < |data|
      ensures Left() == BitsOf(data[pos], 8)[0..] + BytesBits(data[pos + 1..])
    {
      hide BitsOf, BytesBits;
      BytesBitsFirst(data[pos..]);
      assert data[pos..][1..] == data[pos + 1..];
      assert BitsOf(buffer, 8)[8..] == [];
    }
  }

  lemma NumEmpty()
    ensures NumOf([]) == 0
  {
  }

  /** Shifting in more bits, which always fit 64 bits. */
  lemma Extend(a: Bits, b: Bits)
    requires |a| + |b| <= 64
    ensures ShiftIn(NumOf(a), |b|, NumOf(b)) == NumOf(a + b)
  {
    hide Pow, NumOf, BitOr;
    NumBelow(a);
    NumBelow(b);
    NumAppend(a, b);
    NumBelow(a + b);
    PowMono(2, |a + b|, 64);
    var x := NumOf(a) * Pow(2, |b|);
    QuotientIs(x, Pow(2, 64), 0, x);
    QuotientIs(x, Pow(2, |b|), NumOf(a), 0);
    OrDisjoint(x, NumOf(b), |b|);
  }
}
