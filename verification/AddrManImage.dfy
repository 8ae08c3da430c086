/** The serialized form of an address manager and the state that reading it back produces. */
module AddrManImage {
  import opened AddrManState
  import opened AddrManInvariant
  import opened Collections

  const FORMAT_V3_BIP155 := 3
  const KEY_SIZE := 32
  const BUCKET_MARK := 0x4000_0000

  /** One serialized item: an integer, or an address entry without its memory-only fields. */
  datatype Token = TInt(n: int) | TInfo(info: Info)

  /** What survives serialization of an entry; the memory-only fields get their initial values. */
  function Saved(i: Info): Info {
    i.(nLastTry := 0, nLastCountAttempt := 0, nRefCount := 0, fInTried := false, nRandomPos := -1)
  }

  /** Exclusive or with the bucket mark, for the non-negative numbers that occur. */
  function Marked(n: int): int {
    if (n / BUCKET_MARK) % 2 == 0 then n + BUCKET_MARK else n - BUCKET_MARK
  }

  function Checksum(p: Placement): nat {
    if |p.asmap| != 0 then p.env.digest(p.asmap) else 0
  }

  function NewList(s: State): seq<int> { Sorted(NewIds(s)) }

  function TriedList(s: State): seq<int> { Sorted(TriedIds(s)) }

  /** All ids in the order in which reading numbers them: first the new ones, then the tried ones. */
  function Order(s: State): (r: seq<int>)
    ensures |r| == |NewIds(s)| + |TriedIds(s)|
    ensures forall i :: 0 <= i < |r| ==> r[i] in s.mapInfo
  {
    var n, t := NewList(s), TriedList(s);
    assert forall i :: 0 <= i < |n| ==> n[i] in NewIds(s);
    assert forall i :: 0 <= i < |t| ==> t[i] in TriedIds(s);
    n + t
  }

  lemma OrderLists(s: State)
    ensures forall id :: id in s.mapInfo ==> id in Order(s)
    ensures forall i, j :: 0 <= i < j < |Order(s)| ==> Order(s)[i] != Order(s)[j]
  {
    var n, t := NewList(s), TriedList(s);
    forall id | id in s.mapInfo ensures id in Order(s) {
      assert id in NewIds(s) || id in TriedIds(s);
    }
    forall i, j | 0 <= i < j < |Order(s)| ensures Order(s)[i] != Order(s)[j] {
      assert i < |n| ==> n[i] in NewIds(s);
      assert j >= |n| ==> t[j - |n|] in TriedIds(s);
    }
  }

  /** The position of an element in a sequence without repetitions. */
  function IndexOf(r: seq<int>, x: int): (k: nat)
    requires x in r
    ensures k < |r| && r[k] == x
  {
    if r[0] == x then 0 else 1 + IndexOf(r[1..], x)
  }

  /** The id that an entry gets when it is read back. */
  function Renamed(s: State, id: int): int {
    if id in Order(s) then IndexOf(Order(s), id) else EMPTY
  }

  function RenamedTable(s: State, t: Table): (r: Table)
    ensures |r| == |t| && forall b :: 0 <= b < |t| ==> |r[b]| == |t[b]|
    ensures forall b, q :: 0 <= b < |t| && 0 <= q < |t[b]| ==> r[b][q] == Renamed(s, t[b][q])
  {
    seq(|t|, b requires 0 <= b < |t| => seq(|t[b]|, q requires 0 <= q < |t[b]| => Renamed(s, t[b][q])))
  }

  function RestoredInfo(s: State, k: nat): Info
    requires k < |Order(s)|
  {
    var i := s.mapInfo[Order(s)[k]];
    Saved(i).(nRefCount := i.nRefCount, fInTried := i.fInTried, nRandomPos := k)
  }

  /** The manager that a fresh manager with the same AS map becomes by reading the image of s: the same
      entries, bucket and slot contents, under new ids; the address index uses the raw addresses. */
  function Restored(s: State): State {
    var n := |Order(s)|;
    State(s.discriminatePorts, s.p, n,
          map k: int | 0 <= k < n :: RestoredInfo(s, k),
          RawIndex(s, n),
          seq(n, k => k),
          s.nTried, RenamedTable(s, s.vvTried), s.nNew, RenamedTable(s, s.vvNew), 1, {})
  }

  /** The address index built by assigning the first n entries in order, by their raw address. */
  function RawIndex(s: State, n: nat): map<Service, int>
    requires n <= |Order(s)|
  {
    if n == 0 then map[] else RawIndex(s, n - 1)[RestoredInfo(s, n - 1).addr := n - 1]
  }

  // ----- the image -----

  function Infos(s: State, ids: seq<int>): seq<Token>
    requires forall i :: 0 <= i < |ids| ==> ids[i] in s.mapInfo
  {
    seq(|ids|, k requires 0 <= k < |ids| => TInfo(Saved(s.mapInfo[ids[k]])))
  }

  /** The ids in a bucket, in slot order. */
  function Occupants(row: seq<int>): (r: seq<int>)
    ensures forall i :: 0 <= i < |r| ==> r[i] in row && r[i] != EMPTY
  {
    if row == [] then [] else
    var r := Occupants(row[..|row| - 1]);
    var x := row[|row| - 1];
    assert row == row[..|row| - 1] + [x];
    if x == EMPTY then r else r + [x]
  }

  predicate Listable(s: State) {
    && Shape(s.vvNew, NEW_BUCKET_COUNT)
    && forall b, q :: 0 <= b < NEW_BUCKET_COUNT && 0 <= q < BUCKET_SIZE ==>
       s.vvNew[b][q] == EMPTY || s.vvNew[b][q] in NewIds(s)
  }

  function Indices(s: State, ids: seq<int>): seq<Token>
    requires forall i :: 0 <= i < |ids| ==> ids[i] in NewList(s)
  {
    seq(|ids|, j requires 0 <= j < |ids| => TInt(IndexOf(NewList(s), ids[j])))
  }

  function BucketTokens(s: State, b: nat): seq<Token>
    requires Listable(s) && b < NEW_BUCKET_COUNT
  {
    [TInt(|Occupants(s.vvNew[b])|)] + Indices(s, Occupants(s.vvNew[b]))
  }

  function BucketsFrom(s: State, b: nat): seq<Token>
    requires Listable(s) && b <= NEW_BUCKET_COUNT
    decreases NEW_BUCKET_COUNT - b
  {
    if b == NEW_BUCKET_COUNT then [] else BucketTokens(s, b) + BucketsFrom(s, b + 1)
  }

  function Header(s: State): seq<Token> {
    [TInt(FORMAT_V3_BIP155), TInt(KEY_SIZE), TInt(s.p.nKey), TInt(s.nNew), TInt(s.nTried),
      TInt(Marked(NEW_BUCKET_COUNT))]
  }

  function Image(s: State): seq<Token>
    requires Listable(s)
  {
    Header(s) + (Infos(s, NewList(s)) + (Infos(s, TriedList(s)) + (BucketsFrom(s, 0) + [TInt(Checksum(s.p))])))
  }
}
