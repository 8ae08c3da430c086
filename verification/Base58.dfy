/** Base58 encoding of byte strings. */
module Base58 {
  import opened Powers
  import opened BaseDigits

  /** The digits in order: 1-9, A-H, J-N, P-Z, a-k, m-z, that is, alphanumeric without 0, I, O and l. */
  function CharOf(d: nat): char
    requires d < 58
  {
    if d < 9 then ('1' as int + d) as char
    else if d < 17 then ('A' as int + d - 9) as char
    else if d < 22 then ('J' as int + d - 17) as char
    else if d < 33 then ('P' as int + d - 22) as char
    else if d < 44 then ('a' as int + d - 33) as char
    else ('m' as int + d - 44) as char
  }

  /** The value of a character, or -1. */
  function DigitOf(c: char): int
  {
    if '1' <= c <= '9' then c as int - '1' as int
    else if 'A' <= c <= 'H' then c as int - 'A' as int + 9
    else if 'J' <= c <= 'N' then c as int - 'J' as int + 17
    else if 'P' <= c <= 'Z' then c as int - 'P' as int + 22
    else if 'a' <= c <= 'k' then c as int - 'a' as int + 33
    else if 'm' <= c <= 'z' then c as int - 'm' as int + 44
    else -1
  }

  /** The digits in their order: no zero, no capital I or O, no small l. */
  const ALPHABET := "123456789ABCDEFGHJKLMNPQRSTUVWXYZabcdefghijkmnopqrstuvwxyz"

  lemma CharsetIs(d: nat)
    requires d < 58
    ensures |ALPHABET| == 58 && CharOf(d) == ALPHABET[d]
  {
    assert ALPHABET == FirstHalf() + SecondHalf();
    if d < 33 {
      assert ALPHABET[d] == FirstHalf()[d];
      UpperChars(d);
    } else {
      assert ALPHABET[d] == SecondHalf()[d - 33];
      LowerChars(d);
    }
  }

  function FirstHalf(): string { "123456789ABCDEFGHJKLMNPQRSTUVWXYZ" }

  function SecondHalf(): string { "abcdefghijkmnopqrstuvwxyz" }

  lemma UpperChars(d: nat)
    requires d < 33
    ensures CharOf(d) == FirstHalf()[d]
  {
    if d < 11 {
      assert d == 0 || d == 1 || d == 2 || d == 3 || d == 4 || d == 5 || d == 6 ||
        d == 7 || d == 8 || d == 9 || d == 10;
    } else if d < 22 {
      assert d == 11 || d == 12 || d == 13 || d == 14 || d == 15 || d == 16 || d == 17 ||
        d == 18 || d == 19 || d == 20 || d == 21;
    } else {
      assert d == 22 || d == 23 || d == 24 || d == 25 || d == 26 || d == 27 || d == 28 ||
        d == 29 || d == 30 || d == 31 || d == 32;
    }
  }

  lemma LowerChars(d: nat)
    requires 33 <= d < 58
    ensures CharOf(d) == SecondHalf()[d - 33]
  {
    if d < 44 {
      assert d == 33 || d == 34 || d == 35 || d == 36 || d == 37 || d == 38 || d == 39 ||
        d == 40 || d == 41 || d == 42 || d == 43;
    } else {
      assert d == 44 || d == 45 || d == 46 || d == 47 || d == 48 || d == 49 || d == 50 ||
        d == 51 || d == 52 || d == 53 || d == 54 || d == 55 || d == 56 || d == 57;
    }
  }

  /** The two tables are inverse. */
  lemma CharDigit(d: nat)
    requires d < 58
    ensures DigitOf(CharOf(d)) == d
  {
  }

  lemma DigitChar(c: char)
    requires DigitOf(c) >= 0
    ensures DigitOf(c) < 58 && CharOf(DigitOf(c)) == c
  {
  }

  // ----- the specification -----

  /** How many leading elements equal x. */
  function Leading<T(==)>(s: seq<T>, x: T): (n: nat)
    ensures n <= |s| && (forall i :: 0 <= i < n ==> s[i] == x) && (n < |s| ==> s[n] != x)
  {
    if s == [] || s[0] != x then 0 else 1 + Leading(s[1..], x)
  }

  function Repeat<T>(x: T, n: nat): seq<T> { seq(n, i => x) }

  function Chars(digits: seq<nat>): string
    requires Below(digits, 58)
  {
    seq(|digits|, i requires 0 <= i < |digits| => CharOf(digits[i]))
  }

  /** A one for every leading zero byte, then the rest as a number in base 58. */
  function Encoded(bytes: seq<nat>): string
    requires Below(bytes, 256)
  {
    var z := Leading(bytes, 0);
    ValueOfDigits(Value(bytes[z..], 256), 58);
    Repeat('1', z) + Chars(Digits(Value(bytes[z..], 256), 58))
  }

  predicate IsBase58(s: string) { forall i :: 0 <= i < |s| ==> DigitOf(s[i]) >= 0 }

  function DigitsOf(s: string): (r: seq<nat>)
    requires IsBase58(s)
    ensures |r| == |s| && Below(r, 58)
  {
    forall i | 0 <= i < |s| ensures 0 <= DigitOf(s[i]) < 58 { DigitChar(s[i]); }
    seq(|s|, i requires 0 <= i < |s| => DigitOf(s[i]) as nat)
  }

  /** A zero byte for every leading one, then the rest as a number in base 256. */
  function Decoded(s: string): seq<nat>
    requires IsBase58(s)
  {
    var z := Leading(s, '1');
    Repeat(0, z) + Digits(Value(DigitsOf(s[z..]), 58), 256)
  }

  // ----- round trips -----

  lemma LeadingOf<T>(x: T, n: nat, rest: seq<T>)
    requires rest == [] || rest[0] != x
    ensures Leading(Repeat(x, n) + rest, x) == n && (Repeat(x, n) + rest)[n..] == rest
  {
    var s := Repeat(x, n) + rest;
    assert rest != [] ==> s[n] == rest[0];
  }

  lemma DigitsOfChars(digits: seq<nat>)
    requires Below(digits, 58)
    ensures IsBase58(Chars(digits)) && DigitsOf(Chars(digits)) == digits
    ensures digits != [] && digits[0] != 0 ==> Chars(digits)[0] != '1'
  {
    forall i | 0 <= i < |digits|
      ensures DigitOf(Chars(digits)[i]) == digits[i]
    {
      CharDigit(digits[i]);
    }
  }

  /** Decoding an encoded byte string gives it back. */
  lemma DecodeEncoded(bytes: seq<nat>)
    requires Below(bytes, 256)
    ensures IsBase58(Encoded(bytes)) && Decoded(Encoded(bytes)) == bytes
  {
    hide Value, Digits, Chars, DigitsOf, DigitOf;
    var z := Leading(bytes, 0);
    var rest := bytes[z..];
    var v := Value(rest, 256);
    DigitsOfValue(rest, 256);
    ValueOfDigits(v, 58);
    var digits := Digits(v, 58);
    DigitsOfChars(digits);
    NoDigits();
    var text := Chars(digits);
    CharsSize(digits);
    One();
    LeadingOf('1', z, text);
    var s := Repeat('1', z) + text;
    assert Encoded(bytes) == s;
    assert bytes == Repeat(0, z) + rest;
  }

  lemma CharsSize(digits: seq<nat>)
    requires Below(digits, 58)
    ensures |Chars(digits)| == |digits|
  {
  }

  lemma One()
    ensures DigitOf('1') == 0
  {
  }

  lemma NoDigits()
    ensures Digits(0, 58) == [] && Digits(0, 256) == []
  {
  }

  /** Encoding what a string of digits decodes to gives the string back. */
  lemma EncodeDecoded(s: string)
    requires IsBase58(s)
    ensures Below(Decoded(s), 256) && Encoded(Decoded(s)) == s
  {
    hide Value, Digits, Chars, DigitsOf, DigitOf;
    var z := Leading(s, '1');
    var rest := s[z..];
    var digits := DigitsOf(rest);
    var v := Value(digits, 58);
    NotOne(rest);
    DigitsOfValue(digits, 58);
    ValueOfDigits(v, 256);
    NoDigits();
    var bytes := Digits(v, 256);
    LeadingOf(0, z, bytes);
    assert Decoded(s) == Repeat(0, z) + bytes;
    CharsOfDigits(rest);
    assert s == Repeat('1', z) + rest;
  }

  lemma NotOne(rest: string)
    requires IsBase58(rest) && (rest != [] ==> rest[0] != '1')
    ensures rest != [] ==> DigitsOf(rest)[0] != 0
  {
    if rest != [] {
      DigitChar(rest[0]);
    }
  }

  lemma CharsOfDigits(s: string)
    requires IsBase58(s)
    ensures Chars(DigitsOf(s)) == s
  {
    forall i | 0 <= i < |s|
      ensures Chars(DigitsOf(s))[i] == s[i]
    {
      DigitChar(s[i]);
    }
  }

  // ----- the encoder -----

  /** Encodes in place in a buffer of base-58 digits; the buffer is always large enough. */
  method EncodeBase58(input: seq<nat>) returns (str: string)
    requires Below(input, 256)
    ensures str == Encoded(input)
  {
    hide Value, Digits, Chars, CharOf;
    var zeroes := 0;
    while zeroes < |input| && input[zeroes] == 0
      invariant 0 <= zeroes <= |input| && forall i :: 0 <= i < zeroes ==> input[i] == 0
    {
      zeroes := zeroes + 1;
    }
    assert zeroes == Leading(input, 0);
    var size := (|input| - zeroes) * 138 / 100 + 1;
    var b58 := new nat[size](_ => 0);
    var length := Convert(input[zeroes..], b58, 58, 256) by {
      EncoderSize(|input| - zeroes);
    }
    StripIsDigits(b58[..], 58);
    ValueOfDigits(Value(b58[..], 58), 58);
    var digits := Trimmed(b58, size - length);
    str := Translate(Repeat('1', zeroes), digits);
  }

  method Translate(prefix: string, digits: seq<nat>) returns (str: string)
    requires Below(digits, 58)
    ensures str == prefix + Chars(digits)
  {
    str := prefix;
    for k := 0 to |digits|
      invariant |str| == |prefix| + k && str[..|prefix|] == prefix
      invariant forall j :: 0 <= j < k ==> str[|prefix| + j] == CharOf(digits[j])
    {
      str := str + [CharOf(digits[k])];
    }
  }

  /** Reads digits of one base into a zeroed buffer of another. */
  method Convert(input: seq<nat>, buffer: array<nat>, base: nat, factor: nat) returns (length: nat)
    requires base >= 2 && factor >= 2 && Below(input, factor) && Pow(factor, |input|) <= Pow(base, buffer.Length)
    requires forall i :: 0 <= i < buffer.Length ==> buffer[i] == 0
    modifies buffer
    ensures Below(buffer[..], base) && Value(buffer[..], base) == Value(input, factor)
    ensures length <= buffer.Length && forall i :: 0 <= i < buffer.Length - length ==> buffer[i] == 0
  {
    hide Value, Pow;
    length := 0;
    ZeroValue(buffer[..], base, factor);
    assert input[..0] == [];
    for k := 0 to |input|
      invariant Below(buffer[..], base) && Value(buffer[..], base) == Value(input[..k], factor)
      invariant length <= buffer.Length && forall i :: 0 <= i < buffer.Length - length ==> buffer[i] == 0
    {
      ValueNext(input, k, factor);
      ValueBelow(input[..k + 1], factor);
      PowMono(factor, k + 1, |input|);
      length := MultiplyAdd(buffer, length, base, factor, input[k]);
    }
    assert input[..|input|] == input;
  }

  lemma ZeroValue(s: seq<nat>, base: nat, factor: nat)
    requires forall i :: 0 <= i < |s| ==> s[i] == 0
    ensures Value(s, base) == 0 && Value([], factor) == 0
  {
    ZeroPrefix(s, |s|, base);
    assert s[|s|..] == [];
  }

  lemma ValueNext(s: seq<nat>, k: nat, base: nat)
    requires k < |s|
    ensures Value(s[..k + 1], base) == base * Value(s[..k], base) + s[k]
  {
    assert s[..k + 1][..k] == s[..k];
  }

  /** The start of the digits after leading zeros, from a position before which there are only zeros. */
  method SkipZeroes(buffer: array<nat>, from: nat) returns (it: nat)
    requires from <= buffer.Length && forall i :: 0 <= i < from ==> buffer[i] == 0
    ensures it <= buffer.Length && buffer[..][it..] == Strip(buffer[..])
  {
    it := from;
    while it < buffer.Length && buffer[it] == 0
      invariant it <= buffer.Length && forall i :: 0 <= i < it ==> buffer[i] == 0
    {
      it := it + 1;
    }
    StripAt(buffer[..], it);
  }

  lemma {:induction false} StripAt(s: seq<nat>, n: nat)
    requires n <= |s| && (forall i :: 0 <= i < n ==> s[i] == 0) && (n < |s| ==> s[n] != 0)
    ensures Strip(s) == s[n..]
  {
    if n > 0 {
      StripAt(s[1..], n - 1);
      assert s[1..][n - 1..] == s[n..];
    } else {
      assert s[0..] == s;
    }
  }

  // ----- the decoder -----

  predicate IsSpace(c: char) { c == ' ' || c == '\t' || c == '\n' || c == '\r' || c as int == 11 || c as int == 12 }

  /** The first position from p on that is not a space. */
  function SpaceEnd(s: string, p: nat): (r: nat)
    requires p <= |s|
    ensures p <= r <= |s|
    decreases |s| - p
  {
    if p < |s| && IsSpace(s[p]) then SpaceEnd(s, p + 1) else p
  }

  /** The first position from p on that is a space or the end. */
  function WordEnd(s: string, p: nat): (r: nat)
    requires p <= |s|
    ensures p <= r <= |s| && forall i :: p <= i < r ==> !IsSpace(s[i])
    decreases |s| - p
  {
    if p < |s| && !IsSpace(s[p]) then WordEnd(s, p + 1) else p
  }

  /** The first word of the string. */
  function Body(s: string): string { s[SpaceEnd(s, 0)..WordEnd(s, SpaceEnd(s, 0))] }

  /** No null character, one word of base-58 digits, and only spaces around it. */
  predicate Decodable(s: string)
  {
    '\0' !in s && IsBase58(Body(s)) && SpaceEnd(s, WordEnd(s, SpaceEnd(s, 0))) == |s|
  }

  /** Decodes exactly the decodable strings; the buffer is always large enough. */
  method DecodeBase58(str: string) returns (ok: bool, vch: seq<nat>)
    ensures ok <==> Decodable(str)
    ensures ok ==> vch == Decoded(Body(str))
  {
    hide Value, Digits, DigitOf, IsSpace, Decoded, DigitsOf;
    if '\0' in str {
      return false, [];
    }
    var p := SkipSpaces(str, 0);
    ghost var start, end := p, WordEnd(str, p);
    var zeroes := 0;
    OneIsNoSpace();
    while p < |str| && str[p] == '1'
      invariant start <= p <= |str| && zeroes == p - start && WordEnd(str, p) == end
      invariant forall i :: start <= i < p ==> str[i] == '1'
    {
      zeroes := zeroes + 1;
      p := p + 1;
    }
    var size := (|str| - p) * 733 / 1000 + 1;
    var b256 := new nat[size](_ => 0);
    ghost var first := p;
    var length;
    DecoderSize(|str| - p);
    ok, length, p := ReadWord(str, p, b256);
    OnesFirst(str, start, first, end);
    if !ok {
      return false, [];
    }
    p := SkipSpaces(str, p);
    if p != |str| {
      return false, [];
    }
    var digits := Trimmed(b256, size - length);
    vch := Repeat(0, zeroes) + digits;
    DecodedIs(str, start, first, end, b256[..]);
  }

  lemma OneIsNoSpace()
    ensures !IsSpace('1') && DigitOf('1') == 0
  {
  }

  method SkipSpaces(str: string, from: nat) returns (p: nat)
    requires from <= |str|
    ensures p == SpaceEnd(str, from)
  {
    hide IsSpace;
    p := from;
    while p < |str| && IsSpace(str[p])
      invariant from <= p <= |str| && SpaceEnd(str, p) == SpaceEnd(str, from)
    {
      p := p + 1;
    }
  }

  /** Reads the digits of a word into the zeroed buffer, or reports a character that is no digit. */
  method ReadWord(str: string, from: nat, b256: array<nat>) returns (ok: bool, length: nat, p: nat)
    requires from <= |str| && Pow(58, |str| - from) <= Pow(256, b256.Length)
    requires forall i :: 0 <= i < b256.Length ==> b256[i] == 0
    modifies b256
    ensures ok <==> IsBase58(str[from..WordEnd(str, from)])
    ensures ok ==> p == WordEnd(str, from) && Below(b256[..], 256)
    ensures ok ==> Value(b256[..], 256) == Value(DigitsOf(str[from..p]), 58)
    ensures ok ==> length <= b256.Length && forall i :: 0 <= i < b256.Length - length ==> b256[i] == 0
  {
    hide Value, Pow, DigitOf, IsSpace, DigitsOf;
    length, p := 0, from;
    ghost var end := WordEnd(str, from);
    ZeroValue(b256[..], 256, 58);
    NoText(str, from);
    while p < |str| && !IsSpace(str[p])
      invariant from <= p <= |str| && WordEnd(str, p) == end && IsBase58(str[from..p]) && Below(b256[..], 256)
      invariant Value(b256[..], 256) == Value(DigitsOf(str[from..p]), 58)
      invariant length <= b256.Length && forall i :: 0 <= i < b256.Length - length ==> b256[i] == 0
    {
      var carry := DigitOf(str[p]);
      if carry == -1 {
        assert str[from..end][p - from] == str[p];
        return false, length, p;
      }
      NextChar(str, from, p);
      PowMono(58, p + 1 - from, |str| - from);
      length := MultiplyAdd(b256, length, 256, 58, carry);
      p := p + 1;
    }
    return true, length, p;
  }

  lemma NoText(str: string, from: nat)
    requires from <= |str|
    ensures IsBase58(str[from..from]) && DigitsOf(str[from..from]) == []
  {
  }

  /** One more digit. */
  lemma NextChar(str: string, from: nat, p: nat)
    requires from <= p < |str| && IsBase58(str[from..p]) && DigitOf(str[p]) != -1
    ensures 0 <= DigitOf(str[p]) < 58 && IsBase58(str[from..p + 1])
    ensures Value(DigitsOf(str[from..p + 1]), 58) == 58 * Value(DigitsOf(str[from..p]), 58) + DigitOf(str[p])
    ensures Value(DigitsOf(str[from..p + 1]), 58) < Pow(58, p + 1 - from)
  {
    hide Value, Pow;
    DigitChar(str[p]) by {
      assert DigitOf(str[p]) >= -1;
    }
    var s, t := str[from..p], str[from..p + 1];
    assert t == s + [str[p]];
    var k := |s|;
    assert IsBase58(t);
    assert DigitsOf(t)[..k] == DigitsOf(s) && DigitsOf(t)[k] == DigitOf(str[p]);
    assert DigitsOf(t)[..k + 1] == DigitsOf(t);
    ValueNext(DigitsOf(t), k, 58);
    ValueBelow(DigitsOf(t), 58);
  }

  method Trimmed(buffer: array<nat>, from: nat) returns (r: seq<nat>)
    requires from <= buffer.Length && forall i :: 0 <= i < from ==> buffer[i] == 0
    ensures r == Strip(buffer[..])
  {
    hide Strip;
    var it := SkipZeroes(buffer, from);
    ghost var start := it;
    r := [];
    while it < buffer.Length
      invariant start <= it <= buffer.Length && |r| == it - start
      invariant forall j :: 0 <= j < |r| ==> r[j] == buffer[start + j]
    {
      r := r + [buffer[it]];
      it := it + 1;
    }
    assert r == buffer[..][start..];
  }

  /** The ones at the front are digits, and no more than they are counted. */
  lemma OnesFirst(str: string, start: nat, first: nat, end: nat)
    requires start <= first <= end <= |str| && (first < end ==> str[first] != '1')
    requires forall i :: start <= i < first ==> str[i] == '1'
    ensures Leading(str[start..end], '1') == first - start && str[start..end][first - start..] == str[first..end]
    ensures IsBase58(str[start..end]) <==> IsBase58(str[first..end])
  {
    var body := str[start..end];
    LeadingOf('1', first - start, str[first..end]);
    assert body == Repeat('1', first - start) + str[first..end];
    if IsBase58(str[first..end]) {
      forall i | 0 <= i < |body|
        ensures DigitOf(body[i]) >= 0
      {
        if i >= first - start {
          assert body[i] == str[first..end][i - (first - start)];
        }
      }
    }
    if IsBase58(body) {
      forall i | 0 <= i < end - first
        ensures DigitOf(str[first..end][i]) >= 0
      {
        assert str[first..end][i] == body[i + (first - start)];
      }
    }
  }

  lemma DecodedIs(str: string, start: nat, first: nat, end: nat, buffer: seq<nat>)
    requires start <= first <= end <= |str| && IsBase58(str[start..end]) && IsBase58(str[first..end])
    requires Leading(str[start..end], '1') == first - start && str[start..end][first - start..] == str[first..end]
    requires Below(buffer, 256) && Value(buffer, 256) == Value(DigitsOf(str[first..end]), 58)
    ensures Repeat(0, first - start) + Strip(buffer) == Decoded(str[start..end])
  {
    hide Value, Digits, DigitsOf, Leading;
    StripIsDigits(buffer, 256);
  }

  // ----- encoder and decoder together -----

  lemma NoSpace(c: char)
    requires DigitOf(c) >= 0
    ensures !IsSpace(c) && c != '\0'
  {
  }

  lemma {:induction false} WholeWord(s: string, p: nat)
    requires IsBase58(s) && p <= |s|
    ensures WordEnd(s, p) == |s|
    decreases |s| - p
  {
    hide DigitOf, IsSpace;
    if p < |s| {
      NoSpace(s[p]);
      WholeWord(s, p + 1);
    }
  }

  /** A string of digits is decodable as it stands; without spaces, nothing else is. */
  lemma PlainText(s: string)
    ensures IsBase58(s) ==> Decodable(s) && Body(s) == s
    ensures Decodable(s) && (forall i :: 0 <= i < |s| ==> !IsSpace(s[i])) ==> IsBase58(s)
  {
    hide DigitOf, IsSpace;
    if IsBase58(s) {
      WholeWord(s, 0);
      if s != [] {
        NoSpace(s[0]);
      }
      forall i | 0 <= i < |s|
        ensures s[i] != '\0'
      {
        NoSpace(s[i]);
      }
    } else if forall i :: 0 <= i < |s| ==> !IsSpace(s[i]) {
      WordToEnd(s, 0);
    }
  }

  lemma {:induction false} WordToEnd(s: string, p: nat)
    requires p <= |s| && forall i :: 0 <= i < |s| ==> !IsSpace(s[i])
    ensures WordEnd(s, p) == |s|
    decreases |s| - p
  {
    hide IsSpace;
    if p < |s| {
      WordToEnd(s, p + 1);
    }
  }

  method RoundTripBytes(bytes: seq<nat>) returns (ok: bool, back: seq<nat>)
    requires Below(bytes, 256)
    ensures ok && back == bytes
  {
    hide Encoded, Decoded, Decodable, Body, IsBase58;
    DecodeEncoded(bytes);
    PlainText(Encoded(bytes));
    var str := EncodeBase58(bytes);
    ok, back := DecodeBase58(str);
  }

  method RoundTripText(s: string) returns (ok: bool, back: string)
    requires forall i :: 0 <= i < |s| ==> !IsSpace(s[i])
    ensures ok <==> IsBase58(s)
    ensures ok ==> back == s
  {
    hide Encoded, Decoded, Decodable, Body, IsBase58, IsSpace;
    PlainText(s);
    back := "";
    var bytes;
    ok, bytes := DecodeBase58(s);
    if ok {
      EncodeDecoded(s);
      back := EncodeBase58(bytes);
    }
  }
}
