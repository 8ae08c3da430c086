/** Bech32 strings (BIP 173): a readable prefix, the separator 1, and five-bit values with a checksum. */
module Bech32 {
  import opened Bech32Checksum
  import opened Bech32Remainder

  type Values = seq<nat>

  predicate AllFive(v: Values) { forall i :: 0 <= i < |v| ==> v[i] < 32 }

  /** The characters are bytes. */
  predicate AllBytes(s: string) { forall i :: 0 <= i < |s| ==> s[i] as int < 256 }

  function GroupsOf(v: Values): (r: Groups)
    ensures |r| == |v|
  {
    seq(|v|, i requires 0 <= i < |v| => Bits(v[i]))
  }

  lemma GroupsAppend(a: Values, b: Values)
    ensures GroupsOf(a + b) == GroupsOf(a) + GroupsOf(b)
  {
  }

  // ----- the checksum of a prefix and values -----

  /** The high bits of every character, a zero, the low bits of every character. */
  function Expanded(hrp: string): Values
  {
    seq(|hrp|, i requires 0 <= i < |hrp| => hrp[i] as nat / 32) + [0] +
    seq(|hrp|, i requires 0 <= i < |hrp| => hrp[i] as nat % 32)
  }

  method ExpandHRP(hrp: string) returns (ret: Values)
    requires AllBytes(hrp)
    ensures ret == Expanded(hrp) && AllFive(ret)
  {
    ret := seq(2 * |hrp| + 1, i => 0);
    for i := 0 to |hrp|
      invariant |ret| == 2 * |hrp| + 1 && ret[|hrp|] == 0
      invariant forall j :: 0 <= j < i ==> ret[j] == hrp[j] as nat / 32 && ret[j + |hrp| + 1] == hrp[j] as nat % 32
    {
      var c := hrp[i] as nat;
      ret := ret[i := c / 32][i + |hrp| + 1 := c % 32];
    }
    ret := ret[|hrp| := 0];
  }

  ghost predicate Verifies(hrp: string, values: Values)
  {
    Fold(OneWord(), GroupsOf(Expanded(hrp) + values)) == OneWord()
  }

  method VerifyChecksum(hrp: string, values: Values) returns (ok: bool)
    requires AllBytes(hrp) && AllFive(values)
    ensures ok <==> Verifies(hrp, values)
    ensures ok <==> IsRemainder(Message(GroupsOf(Expanded(hrp) + values)), Coeffs(OneWord()))
  {
    hide Fold, IsRemainder;
    var enc := ExpandHRP(hrp);
    SameAsRemainder(GroupsOf(enc + values));
    var c := PolyMod(GroupsOf(enc + values));
    ok := c == OneWord();
  }

  /** The loop ends with one exactly if the remainder is one. */
  lemma SameAsRemainder(v: Groups)
    ensures Fold(OneWord(), v) == OneWord() <==> IsRemainder(Message(v), Coeffs(OneWord()))
  {
    hide Fold, Divided, OneWord, Coeffs;
    FoldDivides(v);
    assert IsRemainder(Message(v), Coeffs(Fold(OneWord(), v)));
    if IsRemainder(Message(v), Coeffs(OneWord())) {
      RemainderUnique(Message(v), Coeffs(Fold(OneWord(), v)), Coeffs(OneWord()));
      SameCoeffs(Fold(OneWord(), v), OneWord());
    }
  }

  /** The i-th five-bit group from the top. */
  function TopGroup(mod: Word, i: nat): Group
    requires i < 6
  {
    mod[5 * (5 - i)..5 * (5 - i) + 5]
  }

  ghost function Remainder(hrp: string, values: Values): Word
  {
    XorWord(Fold(OneWord(), GroupsOf(Expanded(hrp) + values + [0, 0, 0, 0, 0, 0])), OneWord())
  }

  ghost function Checksum(hrp: string, values: Values): (r: Values)
    ensures |r| == 6 && AllFive(r)
  {
    seq(6, i requires 0 <= i < 6 => Number(TopGroup(Remainder(hrp, values), i)))
  }

  method CreateChecksum(hrp: string, values: Values) returns (ret: Values)
    requires AllBytes(hrp) && AllFive(values)
    ensures ret == Checksum(hrp, values)
  {
    hide Fold, Number, XorWord;
    var enc := ExpandHRP(hrp);
    enc := enc + values + [0, 0, 0, 0, 0, 0];
    var c := PolyMod(GroupsOf(enc));
    var mod := XorWord(c, OneWord());
    ret := [0, 0, 0, 0, 0, 0];
    for i := 0 to 6
      invariant |ret| == 6 && forall j :: 0 <= j < i ==> ret[j] == Number(TopGroup(mod, j))
    {
      ret := ret[i := Number(TopGroup(mod, i))];
    }
  }

  /** The groups of a word, moved into nothing, give the word. */
  lemma TopGroups(mod: Word)
    ensures var d := [TopGroup(mod, 0), TopGroup(mod, 1), TopGroup(mod, 2), TopGroup(mod, 3), TopGroup(mod, 4),
      TopGroup(mod, 5)];
      Fold(Zero(), d) == mod
  {
    hide Step, Fold;
    var d := [TopGroup(mod, 0), TopGroup(mod, 1), TopGroup(mod, 2), TopGroup(mod, 3), TopGroup(mod, 4),
      TopGroup(mod, 5)];
    ZeroPadded();
    FoldPacks([], d);
    PackedSix(d);
    assert Joined(d) == mod;
    assert Padded(mod + []) == mod;
  }

  function Joined(d: seq<seq<bool>>): seq<bool>
    requires |d| == 6
  {
    d[5] + d[4] + d[3] + d[2] + d[1] + d[0]
  }

  lemma PackedSix(d: Groups)
    requires |d| == 6
    ensures Packed(d) == Joined(d)
  {
    hide Bits;
    assert d[1..][1..] == d[2..] && d[2..][1..] == d[3..] && d[3..][1..] == d[4..] && d[4..][1..] == d[5..] &&
      d[5..][1..] == [];
    assert Packed(d[5..]) == [] + d[5];
    assert Packed(d[4..]) == Packed(d[5..]) + d[4];
    assert Packed(d[3..]) == Packed(d[4..]) + d[3];
    assert Packed(d[2..]) == Packed(d[3..]) + d[2];
    assert Packed(d[1..]) == Packed(d[2..]) + d[1];
  }

  /** A created checksum verifies. */
  lemma ChecksumVerifies(hrp: string, values: Values)
    ensures Verifies(hrp, values + Checksum(hrp, values))
  {
    hide Fold, Step, XorWord, Number, Bits, OneWord, Expanded;
    var e := Expanded(hrp) + values;
    var check := Checksum(hrp, values);
    var mod := Remainder(hrp, values);
    var zeros, d := GroupsOf([0, 0, 0, 0, 0, 0]), GroupsOf(check);
    var f := Fold(OneWord(), GroupsOf(e));
    assert Expanded(hrp) + (values + check) == e + check;
    GroupsAppend(e, check);
    GroupsAppend(e, [0, 0, 0, 0, 0, 0]);
    FoldAppend(OneWord(), GroupsOf(e), d);
    FoldAppend(OneWord(), GroupsOf(e), zeros);
    FoldLinear(f, Zero(), zeros, d);
    XorUnits(f);
    ZeroGroups(d);
    CheckGroups(hrp, values);
    TopGroups(mod);
    Cancelled(Fold(f, zeros), OneWord());
  }

  lemma ZeroGroups(d: Groups)
    requires |d| == 6
    ensures XorGroups(GroupsOf([0, 0, 0, 0, 0, 0]), d) == d
  {
    var z := GroupsOf([0, 0, 0, 0, 0, 0]);
    ZeroBits();
    forall i | 0 <= i < 6
      ensures XorGroups(z, d)[i] == d[i]
    {
      assert z[i] == Bits(0);
      assert XorGroup(z[i], d[i]) == d[i];
    }
  }

  lemma CheckGroups(hrp: string, values: Values)
    ensures var mod := Remainder(hrp, values);
      GroupsOf(Checksum(hrp, values)) ==
      [TopGroup(mod, 0), TopGroup(mod, 1), TopGroup(mod, 2), TopGroup(mod, 3), TopGroup(mod, 4), TopGroup(mod, 5)]
  {
    hide Fold, XorWord, Number, Bits, Remainder, TopGroup;
    var mod := Remainder(hrp, values);
    var check := Checksum(hrp, values);
    forall i | 0 <= i < 6
      ensures GroupsOf(check)[i] == TopGroup(mod, i)
    {
      BitsOfNumber(TopGroup(mod, i));
    }
  }

  lemma Cancelled(p: Word, one: Word)
    ensures XorWord(p, XorWord(p, one)) == one
  {
  }

  /** Two lists of five-bit values under one prefix that differ only within six consecutive positions never both
      verify. */
  lemma BurstDetected(hrp: string, p: Values, u: Values, w: Values, t: Values)
    requires |u| == |w| <= 6 && AllFive(u) && AllFive(w)
    requires Verifies(hrp, p + u + t) && Verifies(hrp, p + w + t)
    ensures u == w
  {
    hide Fold, OneWord, Expanded, Number, Bits;
    var e := Expanded(hrp) + p;
    assert Expanded(hrp) + (p + u + t) == e + u + t && Expanded(hrp) + (p + w + t) == e + w + t;
    GroupsAppend(e + u, t);
    GroupsAppend(e, u);
    GroupsAppend(e + w, t);
    GroupsAppend(e, w);
    SixDetected(OneWord(), GroupsOf(e), GroupsOf(u), GroupsOf(w), GroupsOf(t));
    forall i | 0 <= i < |u|
      ensures u[i] == w[i]
    {
      assert GroupsOf(u)[i] == Bits(u[i]) && GroupsOf(w)[i] == Bits(w[i]);
      NumberOfBits(u[i]);
      NumberOfBits(w[i]);
    }
  }

  /** So the created checksum is the only one that verifies. */
  lemma ChecksumUnique(hrp: string, values: Values, check: Values)
    requires |check| == 6 && AllFive(check) && Verifies(hrp, values + check)
    ensures check == Checksum(hrp, values)
  {
    hide Verifies, Checksum;
    ChecksumVerifies(hrp, values);
    assert values + check + [] == values + check;
    assert values + Checksum(hrp, values) + [] == values + Checksum(hrp, values);
    BurstDetected(hrp, values, check, Checksum(hrp, values), []);
  }

  // ----- characters -----

  /** The character set, in the order of the values. */
  function CharOf(v: nat): char
  {
    if v == 0 then 'q'
    else if v == 1 then 'p'
    else if v == 2 then 'z'
    else if v == 3 then 'r'
    else if v == 4 then 'y'
    else if v == 5 then '9'
    else if v == 6 then 'x'
    else if v == 7 then '8'
    else if v == 8 then 'g'
    else if v == 9 then 'f'
    else if v == 10 then '2'
    else if v == 11 then 't'
    else if v == 12 then 'v'
    else if v == 13 then 'd'
    else if v == 14 then 'w'
    else if v == 15 then '0'
    else if v == 16 then 's'
    else if v == 17 then '3'
    else if v == 18 then 'j'
    else if v == 19 then 'n'
    else if v == 20 then '5'
    else if v == 21 then '4'
    else if v == 22 then 'k'
    else if v == 23 then 'h'
    else if v == 24 then 'c'
    else if v == 25 then 'e'
    else if v == 26 then '6'
    else if v == 27 then 'm'
    else if v == 28 then 'u'
    else if v == 29 then 'a'
    else if v == 30 then '7'
    else 'l'
  }

  const CHARSET := "qpzry9x8gf2tvdw0s3jn54khce6mua7l"

  lemma CharsetIs(v: nat)
    requires v < 32
    ensures |CHARSET| == 32 && CharOf(v) == CHARSET[v]
  {
  }

  function Rev(c: char): int
  {
    if c == 'q' then 0
    else if c == 'p' then 1
    else if c == 'z' then 2
    else if c == 'r' then 3
    else if c == 'y' then 4
    else if c == '9' then 5
    else if c == 'x' then 6
    else if c == '8' then 7
    else if c == 'g' then 8
    else if c == 'f' then 9
    else if c == '2' then 10
    else if c == 't' then 11
    else if c == 'v' then 12
    else if c == 'd' then 13
    else if c == 'w' then 14
    else if c == '0' then 15
    else if c == 's' then 16
    else if c == '3' then 17
    else if c == 'j' then 18
    else if c == 'n' then 19
    else if c == '5' then 20
    else if c == '4' then 21
    else if c == 'k' then 22
    else if c == 'h' then 23
    else if c == 'c' then 24
    else if c == 'e' then 25
    else if c == '6' then 26
    else if c == 'm' then 27
    else if c == 'u' then 28
    else if c == 'a' then 29
    else if c == '7' then 30
    else if c == 'l' then 31
    else -1
  }

  function LowerCase(c: char): char { if 'A' <= c <= 'Z' then (c as int - 'A' as int + 'a' as int) as char else c }

  /** The value of a character in either case, or -1. */
  function ValueOf(c: char): int { Rev(LowerCase(c)) }

  predicate Lower(c: char) { 'a' <= c <= 'z' }

  predicate Upper(c: char) { 'A' <= c <= 'Z' }

  predicate Printable(c: char) { 33 <= c as int <= 126 }

  lemma CharValue(v: nat)
    requires v < 32
    ensures var c := CharOf(v); ValueOf(c) == v && c != '1' && Printable(c) && !Upper(c)
  {
  }

  lemma ValueRange(c: char)
    ensures -1 <= ValueOf(c) < 32
  {
  }

  // ----- strings -----

  function Chars(v: Values): (r: string)
    ensures |r| == |v|
  {
    seq(|v|, i requires 0 <= i < |v| => CharOf(v[i]))
  }

  ghost function Encoded(hrp: string, values: Values): string
  {
    hrp + "1" + Chars(values + Checksum(hrp, values))
  }

  /** The prefix must be in lower case, which the encoder asserts, and the values five bits wide. */
  method Encode(hrp: string, values: Values) returns (ret: string)
    requires AllBytes(hrp) && AllFive(values) && forall i :: 0 <= i < |hrp| ==> !Upper(hrp[i])
    ensures ret == Encoded(hrp, values)
  {
    hide CharOf, Checksum;
    var checksum := CreateChecksum(hrp, values);
    var combined := values + checksum;
    ret := hrp + "1";
    for i := 0 to |combined|
      invariant |ret| == |hrp| + 1 + i && ret[..|hrp| + 1] == hrp + "1"
      invariant forall j :: 0 <= j < i ==> ret[|hrp| + 1 + j] == CharOf(combined[j])
    {
      ret := ret + [CharOf(combined[i])];
    }
  }

  /** The position of the last 1, or -1. */
  function LastOne(s: string): (p: int)
    ensures -1 <= p < |s|
  {
    if s == [] then -1 else if s[|s| - 1] == '1' then |s| - 1 else LastOne(s[..|s| - 1])
  }

  predicate OneCase(s: string)
  {
    && (forall i :: 0 <= i < |s| ==> Printable(s[i]))
    && !((exists i :: 0 <= i < |s| && Lower(s[i])) && (exists i :: 0 <= i < |s| && Upper(s[i])))
  }

  function LowerAll(s: string): string { seq(|s|, i requires 0 <= i < |s| => LowerCase(s[i])) }

  predicate AllValues(s: string) { forall i :: 0 <= i < |s| ==> ValueOf(s[i]) >= 0 }

  function ValuesOf(s: string): (r: Values)
    requires AllValues(s)
    ensures |r| == |s|
  {
    seq(|s|, i requires 0 <= i < |s| => ValueOf(s[i]) as nat)
  }

  predicate Shaped(s: string)
  {
    OneCase(s) && |s| <= 90 && LastOne(s) >= 1 && LastOne(s) + 7 <= |s| && AllValues(s[LastOne(s) + 1..])
  }

  ghost predicate Decodes(s: string)
  {
    Shaped(s) && Verifies(LowerAll(s[..LastOne(s)]), ValuesOf(s[LastOne(s) + 1..]))
  }

  /** Accepts exactly the well-formed strings with a valid checksum. */
  method Decode(str: string) returns (ok: bool, hrp: string, values: Values)
    ensures ok <==> Decodes(str)
    ensures ok ==> hrp == LowerAll(str[..LastOne(str)])
    ensures ok ==> values == ValuesOf(str[LastOne(str) + 1..])[..|str| - LastOne(str) - 7]
    ensures !ok ==> hrp == "" && values == []
  {
    hide ValueOf, Verifies, LowerCase, Lower, Upper, Printable;
    var cases := CheckCase(str);
    if !cases {
      return false, "", [];
    }
    var pos := LastOne(str);
    if |str| > 90 || pos == -1 || pos == 0 || pos + 7 > |str| {
      return false, "", [];
    }
    ok, values := ReadValues(str[pos + 1..]);
    if !ok {
      return false, "", [];
    }
    hrp := "";
    for i := 0 to pos
      invariant |hrp| == i && forall j :: 0 <= j < i ==> hrp[j] == LowerCase(str[j])
    {
      hrp := hrp + [LowerCase(str[i])];
    }
    assert hrp == LowerAll(str[..pos]);
    PrintableBytes(str, pos);
    ok := VerifyChecksum(hrp, values);
    if !ok {
      return false, "", [];
    }
    return true, hrp, values[..|values| - 6];
  }

  lemma PrintableBytes(s: string, n: nat)
    requires OneCase(s) && n <= |s|
    ensures AllBytes(LowerAll(s[..n]))
  {
    assert forall i :: 0 <= i < n ==> Printable(s[i]);
  }

  method CheckCase(str: string) returns (ok: bool)
    ensures ok <==> OneCase(str)
  {
    var lower, upper := false, false;
    for i := 0 to |str|
      invariant forall j :: 0 <= j < i ==> Printable(str[j])
      invariant lower <==> exists j :: 0 <= j < i && Lower(str[j])
      invariant upper <==> exists j :: 0 <= j < i && Upper(str[j])
    {
      var c := str[i];
      if 'a' <= c <= 'z' {
        lower := true;
      } else if 'A' <= c <= 'Z' {
        upper := true;
      } else if c as int < 33 || c as int > 126 {
        return false;
      }
    }
    return !(lower && upper);
  }

  method ReadValues(s: string) returns (ok: bool, values: Values)
    ensures ok <==> AllValues(s)
    ensures ok ==> values == ValuesOf(s) && AllFive(values)
  {
    hide ValueOf;
    values := seq(|s|, i => 0);
    for i := 0 to |s|
      invariant |values| == |s|
      invariant forall j :: 0 <= j < i ==> 0 <= ValueOf(s[j]) < 32 && values[j] == ValueOf(s[j])
    {
      ValueRange(s[i]);
      var rev := ValueOf(s[i]);
      if rev == -1 {
        return false, [];
      }
      values := values[i := rev];
    }
    return true, values;
  }

  // ----- the round trip -----

  /** Prefix, values and length for which a Bech32 string exists. */
  predicate Encodable(hrp: string, values: Values)
  {
    hrp != "" && (forall i :: 0 <= i < |hrp| ==> Printable(hrp[i]) && !Upper(hrp[i])) && AllFive(values) &&
      |hrp| + |values| + 7 <= 90
  }

  lemma {:induction false} LastSeparator(hrp: string, tail: string)
    requires forall i :: 0 <= i < |tail| ==> tail[i] != '1'
    ensures LastOne(hrp + "1" + tail) == |hrp|
    decreases |tail|
  {
    var s := hrp + "1" + tail;
    if tail == [] {
      assert s[|s| - 1] == '1';
    } else {
      var shorter := tail[..|tail| - 1];
      LastSeparator(hrp, shorter);
      assert s[..|s| - 1] == hrp + "1" + shorter;
      assert s[|s| - 1] == tail[|tail| - 1];
    }
  }

  lemma CharsBack(v: Values)
    requires AllFive(v)
    ensures AllValues(Chars(v)) && ValuesOf(Chars(v)) == v
    ensures forall i :: 0 <= i < |v| ==> Chars(v)[i] != '1' && Printable(Chars(v)[i]) && !Upper(Chars(v)[i])
  {
    hide CharOf, ValueOf, Printable, Upper;
    forall i | 0 <= i < |v|
      ensures var c := Chars(v)[i]; ValueOf(c) == v[i] && c != '1' && Printable(c) && !Upper(c)
    {
      CharValue(v[i]);
    }
  }

  lemma LowerUnchanged(s: string)
    requires forall i :: 0 <= i < |s| ==> !Upper(s[i])
    ensures LowerAll(s) == s
  {
  }

  /** Decoding an encoded string gives back prefix and values. */
  lemma DecodeEncoded(hrp: string, values: Values)
    requires Encodable(hrp, values)
    ensures var s := Encoded(hrp, values);
      && Decodes(s) && LowerAll(s[..LastOne(s)]) == hrp
      && ValuesOf(s[LastOne(s) + 1..])[..|s| - LastOne(s) - 7] == values
  {
    hide CharOf, ValueOf, Printable, Upper, Lower, LowerCase, Verifies, Checksum, Chars;
    var combined := values + Checksum(hrp, values);
    var tail := Chars(combined);
    CharsBack(combined);
    LastSeparator(hrp, tail);
    var s := hrp + "1" + tail;
    assert s[..|hrp|] == hrp && s[|hrp| + 1..] == tail;
    LowerUnchanged(hrp);
    SeparatorChar();
    forall i | 0 <= i < |s|
      ensures Printable(s[i]) && !Upper(s[i])
    {
      if i > |hrp| {
        assert s[i] == tail[i - |hrp| - 1];
      }
    }
    ChecksumVerifies(hrp, values);
    assert combined[..|values|] == values;
  }

  lemma SeparatorChar()
    ensures Printable('1') && !Upper('1')
  {
  }

  method RoundTrip(hrp: string, values: Values) returns (ok: bool, hrp': string, values': Values)
    requires Encodable(hrp, values)
    ensures ok && hrp' == hrp && values' == values
  {
    hide Encoded, Decodes, LowerAll, ValuesOf, AllValues;
    DecodeEncoded(hrp, values);
    var s := Encode(hrp, values);
    ok, hrp', values' := Decode(s);
  }
}
