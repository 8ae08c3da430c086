/** Reading an address manager back from the image of a sound one. */
module AddrManReader {
  import opened AddrManState
  import opened AddrManInvariant
  import opened AddrManImage
  import opened AddrManRestored
  import opened Collections
  import Obj = AddrManObject
  import Stream = AddrManStream

  // ----- the table sizes bound the counters -----

  function SlotCode(bq: (nat, nat)): int { bq.0 * BUCKET_SIZE + bq.1 }

  lemma SlotCodeInjective(x: (nat, nat), y: (nat, nat), n: nat)
    requires x.0 < n && y.0 < n && x.1 < BUCKET_SIZE && y.1 < BUCKET_SIZE
    ensures SlotCode(x) == SlotCode(y) ==> x == y
    ensures 0 <= SlotCode(x) < n * BUCKET_SIZE
  {
  }

  lemma TriedFits(s: State)
    requires TriedOk(s)
    ensures |TriedIds(s)| <= TRIED_BUCKET_COUNT * BUCKET_SIZE
  {
    var m := map id | id in TriedIds(s) :: SlotCode(s.TriedSlot(s.mapInfo[id].addr));
    assert m.Keys == TriedIds(s);
    forall x | x in m ensures 0 <= m[x] < TRIED_BUCKET_COUNT * BUCKET_SIZE {
      var bq := s.TriedSlot(s.mapInfo[x].addr);
      SlotCodeInjective(bq, bq, TRIED_BUCKET_COUNT);
    }
    forall x, y | x in m && y in m && x != y ensures m[x] != m[y] {
      assert Seated(s, x) && Seated(s, y);
      SlotCodeInjective(s.TriedSlot(s.mapInfo[x].addr), s.TriedSlot(s.mapInfo[y].addr), TRIED_BUCKET_COUNT);
    }
    Pigeonhole(m, TRIED_BUCKET_COUNT * BUCKET_SIZE);
  }

  /** Some new-table slot that holds the entry. */
  ghost function SomeSlot(s: State, id: int): (bq: (nat, nat))
    requires NewOk(s, {}) && id in NewIds(s)
    ensures bq.0 < NEW_BUCKET_COUNT && bq.1 < BUCKET_SIZE && s.vvNew[bq.0][bq.1] == id
  {
    assert RefsOk(s, id, 1);
    var b := Pick(Refs(s.p, s.vvNew, id, s.mapInfo[id].addr));
    (b, s.p.Position(true, b, s.mapInfo[id].addr))
  }

  lemma NewFits(s: State)
    requires NewOk(s, {})
    ensures |NewIds(s)| <= NEW_BUCKET_COUNT * BUCKET_SIZE
  {
    hide NewOk, SlotCode;
    var m := map id | id in NewIds(s) :: SlotCode(SomeSlot(s, id));
    assert m.Keys == NewIds(s);
    forall x, y | x in m && y in m ensures (x != y ==> m[x] != m[y]) && 0 <= m[x] < NEW_BUCKET_COUNT * BUCKET_SIZE {
      SlotCodeInjective(SomeSlot(s, x), SomeSlot(s, y), NEW_BUCKET_COUNT);
    }
    Pigeonhole(m, NEW_BUCKET_COUNT * BUCKET_SIZE);
  }

  // ----- the first n entries read -----

  function LoadedInfo(s: State, k: nat): Info
    requires k < |Order(s)|
  {
    RestoredInfo(s, k).(nRefCount := 0)
  }

  /** The renamed ids below n; everything else is still empty. */
  function Partial(s: State, t: Table, n: nat): (r: Table)
    ensures |r| == |t| && forall b :: 0 <= b < |t| ==> |r[b]| == |t[b]|
    ensures forall b, q :: 0 <= b < |t| && 0 <= q < |t[b]| ==>
      r[b][q] == if Renamed(s, t[b][q]) < n then Renamed(s, t[b][q]) else EMPTY
  {
    seq(|t|, b requires 0 <= b < |t| =>
      seq(|t[b]|, q requires 0 <= q < |t[b]| => if Renamed(s, t[b][q]) < n then Renamed(s, t[b][q]) else EMPTY))
  }

  function LoadedInfos(s: State, n: nat): (m: map<int, Info>)
    requires n <= |Order(s)|
    ensures forall k :: k in m <==> 0 <= k < n
    ensures forall k :: 0 <= k < n ==> m[k] == LoadedInfo(s, k)
  {
    map k: int | 0 <= k < n :: LoadedInfo(s, k)
  }

  function Identity(n: nat): (r: seq<int>)
    ensures |r| == n && forall k :: 0 <= k < n ==> r[k] == k
  {
    seq(n, k => k)
  }

  /** The manager after reading the first n entries of s, before any new-table slot is filled. */
  function Loaded(s: State, n: nat): State
    requires n <= |Order(s)|
  {
    State(s.discriminatePorts, s.p, n, LoadedInfos(s, n), RawIndex(s, n), Identity(n),
          s.nTried, Partial(s, s.vvTried, n), s.nNew, EmptyTable(NEW_BUCKET_COUNT), 1, {})
  }

  lemma LoadOne(s: State, n: nat)
    requires n < |Order(s)|
    ensures LoadedInfos(s, n + 1) == LoadedInfos(s, n)[n := LoadedInfo(s, n)]
    ensures RawIndex(s, n + 1) == RawIndex(s, n)[LoadedInfo(s, n).addr := n]
    ensures Identity(n + 1) == Identity(n) + [n as int]
  {
    hide Order, RestoredInfo, LoadedInfo, Renamed;
    assert RestoredInfo(s, n).addr == LoadedInfo(s, n).addr by { LoadedAddr(s, n); }
    var l, r := LoadedInfos(s, n + 1), LoadedInfos(s, n)[n := LoadedInfo(s, n)];
    forall k ensures k in l <==> k in r {}
    forall k | k in l ensures l[k] == r[k] {}
  }

  lemma LoadedAddr(s: State, n: nat)
    requires n < |Order(s)|
    ensures RestoredInfo(s, n).addr == LoadedInfo(s, n).addr
  {
  }

  /** Only the slot of the n-th entry changes when it is seated. */
  lemma SeatOne(s: State, n: nat)
    requires TriedOk(s) && EntriesOk(s) && |NewIds(s)| <= n < |Order(s)|
    ensures var bq := s.TriedSlot(LoadedInfo(s, n).addr);
      && Within(Partial(s, s.vvTried, n), bq.0, bq.1) && Partial(s, s.vvTried, n)[bq.0][bq.1] == EMPTY
      && Partial(s, s.vvTried, n + 1) == Put(Partial(s, s.vvTried, n), bq.0, bq.1, n)
  {
    hide Order, Renamed, IndexOf, RestoredInfo;
    RestoredEntry(s, n);
    RestoredFlag(s, n);
    var id := Order(s)[n];
    assert Seated(s, id);
    var bq := s.TriedSlot(s.mapInfo[id].addr);
    RenamedBijection(s, id, n);
    var l, r := Partial(s, s.vvTried, n + 1), Put(Partial(s, s.vvTried, n), bq.0, bq.1, n);
    forall b, q | 0 <= b < TRIED_BUCKET_COUNT && 0 <= q < BUCKET_SIZE ensures l[b][q] == r[b][q] {
      assert TriedSlotOk(s, b, q);
      RenamedBijection(s, s.vvTried[b][q], n);
    }
    forall b | 0 <= b < TRIED_BUCKET_COUNT ensures l[b] == r[b] {}
  }

  lemma PartialNone(s: State)
    requires TriedOk(s) && EntriesOk(s)
    ensures forall n :: 0 <= n <= |NewIds(s)| ==> Partial(s, s.vvTried, n) == EmptyTable(TRIED_BUCKET_COUNT)
  {
    hide Order, Renamed, IndexOf, RestoredInfo;
    forall n | 0 <= n <= |NewIds(s)| ensures Partial(s, s.vvTried, n) == EmptyTable(TRIED_BUCKET_COUNT) {
      var l, r := Partial(s, s.vvTried, n), EmptyTable(TRIED_BUCKET_COUNT);
      forall b, q | 0 <= b < TRIED_BUCKET_COUNT && 0 <= q < BUCKET_SIZE ensures l[b][q] == r[b][q] {
        TriedAreLate(s, b, q);
      }
      forall b | 0 <= b < TRIED_BUCKET_COUNT ensures l[b] == r[b] {}
    }
  }

  lemma TriedAreLate(s: State, b: nat, q: nat)
    requires TriedOk(s) && EntriesOk(s) && b < TRIED_BUCKET_COUNT && q < BUCKET_SIZE
    ensures Renamed(s, s.vvTried[b][q]) == EMPTY || Renamed(s, s.vvTried[b][q]) >= |NewIds(s)|
  {
    hide Order, Renamed, IndexOf, RestoredInfo;
    assert TriedSlotOk(s, b, q);
    var x := s.vvTried[b][q];
    RenamedId(s, x);
    if x != EMPTY {
      RestoredFlag(s, Renamed(s, x));
      RestoredEntry(s, Renamed(s, x));
    }
  }

  lemma PartialAll(s: State)
    requires TriedOk(s) && EntriesOk(s)
    ensures Partial(s, s.vvTried, |Order(s)|) == RenamedTable(s, s.vvTried)
  {
    hide Order, Renamed, IndexOf, RestoredInfo;
    var l, r := Partial(s, s.vvTried, |Order(s)|), RenamedTable(s, s.vvTried);
    forall b, q | 0 <= b < TRIED_BUCKET_COUNT && 0 <= q < BUCKET_SIZE ensures l[b][q] == r[b][q] {
      assert TriedSlotOk(s, b, q);
      RenamedId(s, s.vvTried[b][q]);
    }
    forall b | 0 <= b < TRIED_BUCKET_COUNT ensures l[b] == r[b] {}
  }

  method ReadInfo(rest: seq<Token>) returns (info: Info, rest': seq<Token>)
    requires rest != [] && rest[0].TInfo?
    ensures rest[0] == TInfo(info) && rest' == rest[1..]
  {
    info, rest' := rest[0].info, rest[1..];
  }

  method ReadInt(rest: seq<Token>) returns (n: int, rest': seq<Token>)
    requires rest != [] && rest[0].TInt?
    ensures rest[0] == TInt(n) && rest' == rest[1..]
  {
    n, rest' := rest[0].n, rest[1..];
  }

  lemma InfosTail(s: State, ids: seq<int>, n: nat, tail: seq<Token>)
    requires Stream.Known(s, ids) && n < |ids|
    ensures |Infos(s, ids)| == |ids|
    ensures var rest := Infos(s, ids)[n..] + tail;
      rest[0] == TInfo(Saved(s.mapInfo[ids[n]])) && rest[1..] == Infos(s, ids)[n + 1..] + tail
  {
  }

  method LoadNew(m: Obj.CAddrMan, stream: seq<Token>, nNew: int, ghost s: State, ghost tail: seq<Token>)
      returns (rest: seq<Token>)
    requires Inv(s) && nNew == s.nNew && m.st == Loaded(s, 0)
    requires Stream.Known(s, NewList(s)) && stream == Infos(s, NewList(s)) + tail
    modifies m
    ensures rest == tail && m.st == Loaded(s, |NewIds(s)|)
  {
    hide LinksOk, TriedOk, NewOk, EntriesOk, PendingOk, RawIndex, RestoredInfo, Infos, Order, NewList, NewIds,
      TriedIds, LoadedInfos, Identity;
    rest := stream;
    LoadFacts(s);
    for n := 0 to nNew
      invariant rest == Infos(s, NewList(s))[n..] + tail
      invariant m.st == Loaded(s, n).(nIdCount := 0)
    {
      InfosTail(s, NewList(s), n, tail);
      LoadOne(s, n);
      NewEntryAt(s, n);
      var info;
      info, rest := ReadInfo(rest);
      m.st := m.st.(mapAddr := m.st.mapAddr[info.addr := n]);
      info := info.(nRandomPos := |m.st.vRandom|);
      m.st := m.st.SetInfo(n, info);
      m.st := m.st.(vRandom := m.st.vRandom + [n]);
    }
    m.st := m.st.(nIdCount := nNew);
  }

  lemma LoadFacts(s: State)
    requires Inv(s)
    ensures s.nNew == |NewIds(s)| == |NewList(s)| && s.nTried == |TriedIds(s)| == |TriedList(s)|
    ensures |Order(s)| == |NewIds(s)| + |TriedIds(s)|
    ensures |Infos(s, [])| == 0
    ensures Stream.Known(s, NewList(s)) ==> |Infos(s, NewList(s))| == |NewList(s)|
    ensures Stream.Known(s, TriedList(s)) ==> |Infos(s, TriedList(s))| == |TriedList(s)|
    ensures forall n :: 0 <= n <= |NewIds(s)| ==> Partial(s, s.vvTried, n) == EmptyTable(TRIED_BUCKET_COUNT)
    ensures forall n: nat :: |Identity(n)| == n
  {
    PartialNone(s);
  }

  lemma NewEntryAt(s: State, n: nat)
    requires n < |NewIds(s)|
    ensures n < |Order(s)| && n < |NewList(s)| && NewList(s)[n] in s.mapInfo
    ensures LoadedInfo(s, n) == Saved(s.mapInfo[NewList(s)[n]]).(nRandomPos := n)
  {
    assert NewList(s)[n] in NewIds(s);
    assert Order(s)[n] == NewList(s)[n];
  }

  lemma TriedEntryAt(s: State, n: nat)
    requires n < |TriedIds(s)|
    ensures n + |NewIds(s)| < |Order(s)| && n < |TriedList(s)| && TriedList(s)[n] in s.mapInfo
    ensures Saved(s.mapInfo[TriedList(s)[n]]).nRefCount == 0
    ensures s.mapInfo[TriedList(s)[n]].addr == LoadedInfo(s, n + |NewIds(s)|).addr
    ensures LoadedInfo(s, n + |NewIds(s)|) ==
      Saved(s.mapInfo[TriedList(s)[n]]).(nRandomPos := n + |NewIds(s)|, fInTried := true)
  {
    assert TriedList(s)[n] in TriedIds(s);
    assert Order(s)[n + |NewIds(s)|] == TriedList(s)[n];
  }

  method LoadTried(m: Obj.CAddrMan, stream: seq<Token>, nTried: int, ghost s: State, ghost tail: seq<Token>)
      returns (rest: seq<Token>, nLost: int)
    requires Inv(s) && Shape(s.vvTried, TRIED_BUCKET_COUNT) && nTried == s.nTried && m.st == Loaded(s, |NewIds(s)|)
    requires Stream.Known(s, TriedList(s)) && stream == Infos(s, TriedList(s)) + tail
    modifies m
    ensures rest == tail && nLost == 0 && m.st == Loaded(s, |Order(s)|)
  {
    hide LinksOk, TriedOk, NewOk, EntriesOk, CountsOk, PendingOk, RawIndex, RestoredInfo, Infos, Order, TriedList,
      NewIds, TriedIds, LoadedInfos, Identity, LoadedInfo, Partial, Loaded;
    rest, nLost := stream, 0;
    LoadFacts(s);
    ghost var base := |NewIds(s)|;
    for n := 0 to nTried
      invariant rest == Infos(s, TriedList(s))[n..] + tail && nLost == 0
      invariant m.st == Loaded(s, base + n)
    {
      InfosTail(s, TriedList(s), n, tail);
      TriedEntryAt(s, n);
      SeatOne(s, base + n);
      var info;
      info, rest := ReadInfo(rest);
      LoadedTable(s, base + n);
      var lost := SeatLoaded(m, info, s, base + n);
      nLost := nLost + lost;
    }
  }

  lemma LoadedTable(s: State, n: nat)
    requires n <= |Order(s)|
    ensures Loaded(s, n).vvTried == Partial(s, s.vvTried, n)
  {
  }

  /** One iteration of the loop over the tried entries. */
  method SeatLoaded(m: Obj.CAddrMan, read: Info, ghost s: State, ghost n: nat) returns (lost: int)
    requires n < |Order(s)| && m.st == Loaded(s, n) && Shape(s.vvTried, TRIED_BUCKET_COUNT)
    requires LoadedInfo(s, n) == read.(nRandomPos := n, fInTried := true)
    requires var bq := s.TriedSlot(read.addr);
      Within(m.st.vvTried, bq.0, bq.1) && m.st.vvTried[bq.0][bq.1] == EMPTY &&
        Partial(s, s.vvTried, n + 1) == Put(Partial(s, s.vvTried, n), bq.0, bq.1, n)
    modifies m
    ensures lost == 0 && m.st == Loaded(s, n + 1)
  {
    hide RawIndex, RestoredInfo, Order, LoadedInfos, LoadedInfo, Partial, Identity;
    LoadOne(s, n);
    lost := 0;
    var info := read;
    var kBucket := m.st.p.TriedBucket(info.addr);
    var kPos := m.st.p.Position(false, kBucket, info.addr);
    if m.st.vvTried[kBucket][kPos] == EMPTY {
      info := info.(nRandomPos := |m.st.vRandom|);
      info := info.(fInTried := true);
      m.st := m.st.(vRandom := m.st.vRandom + [m.st.nIdCount]);
      m.st := m.st.SetInfo(m.st.nIdCount, info);
      m.st := m.st.(mapAddr := m.st.mapAddr[info.addr := m.st.nIdCount]);
      m.st := m.st.(vvTried := Put(m.st.vvTried, kBucket, kPos, m.st.nIdCount));
      m.st := m.st.(nIdCount := m.st.nIdCount + 1);
    } else {
      lost := 1;
    }
  }

  // ----- the bucket entries -----

  type Entry = (int, int)

  /** Bucket b holds the k-th new entry. */
  predicate Slotted(s: State, b: int, k: int)
    requires Shape(s.vvNew, NEW_BUCKET_COUNT) && Stream.Known(s, NewList(s))
  {
    && 0 <= b < NEW_BUCKET_COUNT && 0 <= k < |NewList(s)|
    && s.vvNew[b][s.p.Position(true, b, s.mapInfo[NewList(s)[k]].addr)] == NewList(s)[k]
  }

  /** The list holds exactly the occupied slots of the buckets below n, each once. */
  ghost predicate EntriesBelow(s: State, entries: seq<Entry>, n: int)
    requires Shape(s.vvNew, NEW_BUCKET_COUNT) && Stream.Known(s, NewList(s))
  {
    && (forall i :: 0 <= i < |entries| ==> Slotted(s, entries[i].0, entries[i].1) && entries[i].0 < n)
    && (forall i, j :: 0 <= i < j < |entries| ==> entries[i] != entries[j])
    && (forall b, k :: 0 <= b < n && Slotted(s, b, k) ==> (b, k) in entries)
  }

  function Pairs(s: State, b: nat, occ: seq<int>): seq<Entry>
    requires forall i :: 0 <= i < |occ| ==> occ[i] in NewList(s)
  {
    seq(|occ|, j requires 0 <= j < |occ| => (b, IndexOf(NewList(s), occ[j])))
  }

  lemma {:induction false} OccupantsComplete(row: seq<int>, q: nat)
    requires q < |row| && row[q] != EMPTY
    ensures row[q] in Occupants(row)
  {
    var n := |row| - 1;
    assert row == row[..n] + [row[n]];
    if q < n {
      OccupantsComplete(row[..n], q);
      var k :| 0 <= k < |Occupants(row[..n])| && Occupants(row[..n])[k] == row[q];
      assert Occupants(row)[k] == row[q];
    } else {
      assert Occupants(row)[|Occupants(row)| - 1] == row[q];
    }
  }

  lemma {:induction false} OccupantsDistinct(row: seq<int>)
    requires forall i, j :: 0 <= i < j < |row| && row[i] != EMPTY ==> row[i] != row[j]
    ensures forall i, j :: 0 <= i < j < |Occupants(row)| ==> Occupants(row)[i] != Occupants(row)[j]
  {
    if row != [] {
      var n := |row| - 1;
      OccupantsDistinct(row[..n]);
      var r := Occupants(row[..n]);
      forall i | 0 <= i < |r| ensures r[i] != row[n] {
        var k :| 0 <= k < n && row[..n][k] == r[i];
      }
    }
  }

  /** An id of the new table occurs once in a bucket, at the position of its address. */
  lemma RowDistinct(s: State, b: nat)
    requires NewOk(s, {}) && b < NEW_BUCKET_COUNT
    ensures forall i, j :: 0 <= i < j < BUCKET_SIZE && s.vvNew[b][i] != EMPTY ==> s.vvNew[b][i] != s.vvNew[b][j]
  {
    forall i, j | 0 <= i < j < BUCKET_SIZE && s.vvNew[b][i] != EMPTY ensures s.vvNew[b][i] != s.vvNew[b][j] {
      assert NewSlotOk(s, b, i) && NewSlotOk(s, b, j);
    }
  }

  lemma OccupantSlotted(s: State, b: nat, j: nat)
    requires NewOk(s, {}) && Listable(s) && Stream.Known(s, NewList(s)) && b < NEW_BUCKET_COUNT &&
      j < |Occupants(s.vvNew[b])|
    ensures var x := Occupants(s.vvNew[b])[j]; x in NewList(s) && Slotted(s, b, IndexOf(NewList(s), x))
  {
    hide NewList, IndexOf;
    var x := Occupants(s.vvNew[b])[j];
    var q :| 0 <= q < BUCKET_SIZE && s.vvNew[b][q] == x;
    assert NewSlotOk(s, b, q);
    NewKnown(s, x);
  }

  lemma NewKnown(s: State, x: int)
    requires x in NewIds(s)
    ensures x in NewList(s)
  {
  }

  lemma SlottedOccupant(s: State, b: nat, k: int)
    requires NewOk(s, {}) && EntriesOk(s) && Stream.Known(s, NewList(s)) && Slotted(s, b, k)
    ensures exists j :: 0 <= j < |Occupants(s.vvNew[b])| && Occupants(s.vvNew[b])[j] == NewList(s)[k]
    ensures NewList(s)[k] in NewList(s) && IndexOf(NewList(s), NewList(s)[k]) == k
  {
    var x := NewList(s)[k];
    assert x in s.mapInfo;
    OccupantsComplete(s.vvNew[b], s.p.Position(true, b, s.mapInfo[x].addr));
    IndexOfUnique(NewList(s), k);
  }

  lemma BucketEntries(s: State, entries: seq<Entry>, b: nat)
    requires Shape(s.vvNew, NEW_BUCKET_COUNT)
    requires NewOk(s, {}) && EntriesOk(s) && Listable(s) && Stream.Known(s, NewList(s)) && b < NEW_BUCKET_COUNT &&
      EntriesBelow(s, entries, b)
    requires forall i :: 0 <= i < |Occupants(s.vvNew[b])| ==> Occupants(s.vvNew[b])[i] in NewList(s)
    ensures EntriesBelow(s, entries + Pairs(s, b, Occupants(s.vvNew[b])), b + 1)
  {
    hide NewOk, EntriesOk, Listable, Occupants, IndexOf, NewList, Slotted;
    var occ := Occupants(s.vvNew[b]);
    var more := Pairs(s, b, occ);
    var all := entries + more;
    forall i | 0 <= i < |all| ensures Slotted(s, all[i].0, all[i].1) && all[i].0 < b + 1 {
      if i < |entries| {
        assert all[i] == entries[i];
      } else {
        OccupantSlotted(s, b, i - |entries|);
      }
    }
    RowDistinct(s, b);
    OccupantsDistinct(s.vvNew[b]);
    forall i, j | 0 <= i < j < |all| ensures all[i] != all[j] {
      if i >= |entries| {
        assert occ[i - |entries|] != occ[j - |entries|];
      }
    }
    forall c, k | 0 <= c < b + 1 && Slotted(s, c, k) ensures (c, k) in all {
      if c < b {
        var i :| 0 <= i < |entries| && entries[i] == (c, k);
        assert all[i] == (c, k);
      } else {
        SlottedOccupant(s, b, k);
        var j :| 0 <= j < |occ| && occ[j] == NewList(s)[k];
        assert all[|entries| + j] == (c, k);
      }
    }
  }

  method ReadBuckets(stream: seq<Token>, nUBuckets: int, nNew: int, ghost s: State, ghost tail: seq<Token>)
    returns (entries: seq<Entry>, rest: seq<Token>)
    requires Shape(s.vvNew, NEW_BUCKET_COUNT)
    requires Inv(s) && Listable(s) && Stream.Known(s, NewList(s)) && nNew == s.nNew && nUBuckets == NEW_BUCKET_COUNT
    requires stream == BucketsFrom(s, 0) + tail
    ensures rest == tail && EntriesBelow(s, entries, NEW_BUCKET_COUNT)
  {
    hide LinksOk, TriedOk, PendingOk, NewOk, EntriesOk, CountsOk, Listable, BucketTokens, EntriesBelow, Indices,
      NewList, Pairs, Occupants, Slotted;
    entries, rest := [], stream;
    NoEntries(s);
    for bucket := 0 to nUBuckets
      invariant rest == BucketsFrom(s, bucket) + tail && EntriesBelow(s, entries, bucket)
    {
      assert BucketsFrom(s, bucket) + tail == BucketTokens(s, bucket) + (BucketsFrom(s, bucket + 1) + tail);
      entries, rest := ReadBucket(rest, bucket, nNew, entries, s, BucketsFrom(s, bucket + 1) + tail);
    }
    assert BucketsFrom(s, NEW_BUCKET_COUNT) + tail == tail;
  }

  lemma NoEntries(s: State)
    requires Shape(s.vvNew, NEW_BUCKET_COUNT) && Stream.Known(s, NewList(s))
    ensures EntriesBelow(s, [], 0)
  {
  }

  method ReadBucket(stream: seq<Token>, bucket: nat, nNew: int, before: seq<Entry>, ghost s: State,
      ghost tail: seq<Token>)
    returns (entries: seq<Entry>, rest: seq<Token>)
    requires Shape(s.vvNew, NEW_BUCKET_COUNT)
    requires Inv(s) && Listable(s) && Stream.Known(s, NewList(s)) && nNew == s.nNew && bucket < NEW_BUCKET_COUNT
    requires stream == BucketTokens(s, bucket) + tail && EntriesBelow(s, before, bucket)
    ensures rest == tail && EntriesBelow(s, entries, bucket + 1)
  {
    hide LinksOk, TriedOk, PendingOk, NewOk, EntriesOk, CountsOk, Listable, EntriesBelow, NewList, Occupants, Slotted,
      IndexOf;
    ghost var occ := Occupants(s.vvNew[bucket]);
    ReadFacts(s, bucket);
    entries := before;
    var count;
    count, rest := ReadInt(stream);
    assert rest == Indices(s, occ) + tail;
    for n := 0 to count
      invariant rest == Indices(s, occ)[n..] + tail
      invariant entries == before + Pairs(s, bucket, occ)[..n]
    {
      assert rest[0] == Indices(s, occ)[n] && rest[1..] == Indices(s, occ)[n + 1..] + tail;
      assert Pairs(s, bucket, occ)[..n + 1] == Pairs(s, bucket, occ)[..n] + [(bucket, IndexOf(NewList(s), occ[n]))];
      var index;
      index, rest := ReadInt(rest);
      if 0 <= index < nNew {
        entries := entries + [(bucket, index)];
      }
    }
    assert Pairs(s, bucket, occ)[..|occ|] == Pairs(s, bucket, occ);
    BucketEntries(s, before, bucket);
  }

  lemma ReadFacts(s: State, b: nat)
    requires Inv(s) && Listable(s) && b < NEW_BUCKET_COUNT
    ensures s.nNew == |NewList(s)|
    ensures forall i :: 0 <= i < |Occupants(s.vvNew[b])| ==> Occupants(s.vvNew[b])[i] in NewList(s)
  {
    forall i | 0 <= i < |Occupants(s.vvNew[b])| ensures Occupants(s.vvNew[b])[i] in NewList(s) {
      var x := Occupants(s.vvNew[b])[i];
      var q :| 0 <= q < BUCKET_SIZE && s.vvNew[b][q] == x;
      NewKnown(s, x);
    }
  }

  // ----- filling the new table -----

  /** The new table with the listed slots filled. */
  function Placed(s: State, entries: seq<Entry>): (r: Table)
    requires Shape(s.vvNew, NEW_BUCKET_COUNT)
    ensures Shape(r, NEW_BUCKET_COUNT)
    ensures forall b, q :: 0 <= b < NEW_BUCKET_COUNT && 0 <= q < BUCKET_SIZE ==>
      r[b][q] == if (b, Renamed(s, s.vvNew[b][q])) in entries then Renamed(s, s.vvNew[b][q]) else EMPTY
  {
    seq(NEW_BUCKET_COUNT, b requires 0 <= b < NEW_BUCKET_COUNT =>
      seq(BUCKET_SIZE, q requires 0 <= q < BUCKET_SIZE =>
        if (b, Renamed(s, s.vvNew[b][q])) in entries then Renamed(s, s.vvNew[b][q]) else EMPTY))
  }

  /** The buckets in which the list places the k-th entry. */
  function BucketsOf(entries: seq<Entry>, k: int): set<int> {
    set b: int | 0 <= b < NEW_BUCKET_COUNT && (b, k) in entries
  }

  function Counted(s: State, entries: seq<Entry>): (m: map<int, Info>)
    ensures forall k :: k in m <==> 0 <= k < |Order(s)|
    ensures forall k :: 0 <= k < |Order(s)| ==> m[k] == LoadedInfo(s, k).(nRefCount := |BucketsOf(entries, k)|)
  {
    map k: int | 0 <= k < |Order(s)| :: LoadedInfo(s, k).(nRefCount := |BucketsOf(entries, k)|)
  }

  /** The manager with all entries read and the listed slots filled. */
  function Filled(s: State, entries: seq<Entry>): State
    requires Shape(s.vvNew, NEW_BUCKET_COUNT)
  {
    Loaded(s, |Order(s)|).(mapInfo := Counted(s, entries), vvNew := Placed(s, entries))
  }

  lemma BucketsOfAppend(entries: seq<Entry>, e: Entry, k: int)
    requires 0 <= e.0 < NEW_BUCKET_COUNT && e !in entries
    ensures |BucketsOf(entries + [e], k)| == |BucketsOf(entries, k)| + (if e.1 == k then 1 else 0)
  {
    var l, r := BucketsOf(entries + [e], k), BucketsOf(entries, k);
    forall b | 0 <= b < NEW_BUCKET_COUNT ensures (b, k) in entries + [e] <==> (b, k) in entries || (b, k) == e {}
    if e.1 == k {
      assert l == r + {e.0};
    } else {
      assert l == r;
    }
  }

  /** The k-th entry's slot in bucket b is the only one that renames to k there. */
  lemma SlotOf(s: State, b: int, k: int, q: nat)
    requires NewOk(s, {}) && EntriesOk(s) && Stream.Known(s, NewList(s)) && Slotted(s, b, k) && q < BUCKET_SIZE
    ensures 0 <= k < |Order(s)| && Order(s)[k] == NewList(s)[k] &&
      LoadedInfo(s, k).addr == s.mapInfo[NewList(s)[k]].addr
    ensures Renamed(s, s.vvNew[b][q]) == k <==> q == s.p.Position(true, b, LoadedInfo(s, k).addr)
  {
    var id := NewList(s)[k];
    assert Order(s)[k] == id;
    assert NewSlotOk(s, b, q);
    RenamedBijection(s, s.vvNew[b][q], k);
  }

  /** The slot of e is still empty, and filling it extends the list by e. */
  ghost predicate PlacesOne(s: State, entries: seq<Entry>, e: Entry)
    requires Shape(s.vvNew, NEW_BUCKET_COUNT) && 0 <= e.0 < NEW_BUCKET_COUNT && 0 <= e.1 < |Order(s)|
  {
    var q := s.p.Position(true, e.0, LoadedInfo(s, e.1).addr);
    && Placed(s, entries)[e.0][q] == EMPTY
    && Placed(s, entries + [e]) == Put(Placed(s, entries), e.0, q, e.1)
  }

  lemma PlaceOne(s: State, entries: seq<Entry>, e: Entry)
    requires Shape(s.vvNew, NEW_BUCKET_COUNT) && NewOk(s, {}) && EntriesOk(s) && Stream.Known(s, NewList(s))
    requires Slotted(s, e.0, e.1) && e !in entries
    ensures 0 <= e.0 < NEW_BUCKET_COUNT && 0 <= e.1 < |Order(s)| && PlacesOne(s, entries, e)
  {
    hide Order, Renamed, IndexOf, NewOk, EntriesOk, LoadedInfo, NewList;
    SlotOf(s, e.0, e.1, 0);
    var q := s.p.Position(true, e.0, LoadedInfo(s, e.1).addr);
    var l, r := Placed(s, entries + [e]), Put(Placed(s, entries), e.0, q, e.1);
    SlotOf(s, e.0, e.1, q);
    forall b, c | 0 <= b < NEW_BUCKET_COUNT && 0 <= c < BUCKET_SIZE ensures l[b][c] == r[b][c] {
      SlotOf(s, e.0, e.1, c);
      PlaceCell(s, entries, e, q, b, c);
    }
    forall b | 0 <= b < NEW_BUCKET_COUNT ensures l[b] == r[b] {}
  }

  lemma PlaceCell(s: State, entries: seq<Entry>, e: Entry, q: nat, b: nat, c: nat)
    requires Shape(s.vvNew, NEW_BUCKET_COUNT) && b < NEW_BUCKET_COUNT && c < BUCKET_SIZE
    requires b == e.0 ==> (Renamed(s, s.vvNew[b][c]) == e.1 <==> c == q)
    ensures Placed(s, entries + [e])[b][c] == if b == e.0 && c == q then e.1 else Placed(s, entries)[b][c]
  {
    hide Renamed;
    var x := (b, Renamed(s, s.vvNew[b][c]));
    assert x in entries + [e] <==> x in entries || x == e;
  }

  lemma CountOne(s: State, entries: seq<Entry>, e: Entry)
    requires 0 <= e.0 < NEW_BUCKET_COUNT && 0 <= e.1 < |Order(s)| && e !in entries
    ensures Counted(s, entries + [e]) ==
      Counted(s, entries)[e.1 := LoadedInfo(s, e.1).(nRefCount := |BucketsOf(entries, e.1)| + 1)]
  {
    hide Order, LoadedInfo, BucketsOf;
    var m := Counted(s, entries + [e]);
    var n := Counted(s, entries)[e.1 := LoadedInfo(s, e.1).(nRefCount := |BucketsOf(entries, e.1)| + 1)];
    forall k ensures k in m <==> k in n {}
    forall k | k in m ensures m[k] == n[k] {
      BucketsOfAppend(entries, e, k);
    }
  }

  /** Before the last reference of an entry is restored, its count is below the maximum. */
  lemma RoomLeft(s: State, entries: seq<Entry>, all: seq<Entry>, e: Entry)
    requires NewOk(s, {}) && EntriesOk(s) && Stream.Known(s, NewList(s)) && EntriesBelow(s, all, NEW_BUCKET_COUNT)
    requires e in all && e !in entries && forall x :: x in entries ==> x in all
    ensures |BucketsOf(entries, e.1)| < NEW_BUCKETS_PER_ADDRESS
  {
    var id := NewList(s)[e.1];
    assert id in NewIds(s) && RefsOk(s, id, 1);
    var refs := Refs(s.p, s.vvNew, id, s.mapInfo[id].addr);
    var bs := BucketsOf(entries, e.1);
    forall b | b in bs + {e.0} ensures b in refs {
      assert (b, e.1) in all;
    }
    SubsetSize(bs + {e.0}, refs);
  }

  method FillNew(m: Obj.CAddrMan, entries: seq<Entry>, ghost s: State)
    requires Inv(s) && Shape(s.vvNew, NEW_BUCKET_COUNT) && Stream.Known(s, NewList(s)) &&
      EntriesBelow(s, entries, NEW_BUCKET_COUNT)
    requires m.st == Loaded(s, |Order(s)|)
    modifies m
    ensures m.st == Filled(s, entries)
  {
    hide LinksOk, TriedOk, PendingOk, NewOk, EntriesOk, CountsOk, NewList, Slotted, Order, LoadedInfo, RawIndex,
      Partial, Identity, Renamed, BucketsOf, Counted, Placed;
    NothingFilled(s);
    assert entries[..0] == [];
    for i := 0 to |entries|
      invariant m.st == Filled(s, entries[..i])
    {
      ghost var before := entries[..i];
      assert entries[..i + 1] == before + [entries[i]];
      assert entries[i] !in before;
      PlaceOne(s, before, entries[i]);
      RoomLeft(s, before, entries, entries[i]);
      FillOne(m, entries[i].0, entries[i].1, s, before);
    }
    assert entries[..|entries|] == entries;
  }

  /** One iteration of the loop over the stored bucket entries. The stored slot is always free, so the
      re-bucketing that the code falls back to otherwise never happens. */
  method FillOne(m: Obj.CAddrMan, bucket: nat, index: int, ghost s: State, ghost before: seq<Entry>)
    requires Shape(s.vvNew, NEW_BUCKET_COUNT) && m.st == Filled(s, before)
    requires bucket < NEW_BUCKET_COUNT && 0 <= index < |Order(s)| && (bucket, index) !in before
    requires |BucketsOf(before, index)| < NEW_BUCKETS_PER_ADDRESS
    requires PlacesOne(s, before, (bucket, index))
    modifies m
    ensures m.st == Filled(s, before + [(bucket, index)])
  {
    hide Order, LoadedInfo, RawIndex, Partial, Identity, Renamed, BucketsOf, Counted, Placed;
    CountOne(s, before, (bucket, index));
    InfoAddr(s, before, index);
    var info := m.st.mapInfo[index];
    if info.nRefCount >= NEW_BUCKETS_PER_ADDRESS {
      return;
    }
    var pos := m.st.p.Position(true, bucket, info.addr);
    if m.st.vvNew[bucket][pos] == EMPTY {
      m.st := m.st.(vvNew := Put(m.st.vvNew, bucket, pos, index));
      m.st := m.st.SetInfo(index, info.(nRefCount := info.nRefCount + 1));
    } else {
      assert false;
    }
  }

  lemma InfoAddr(s: State, entries: seq<Entry>, k: nat)
    requires k < |Order(s)|
    ensures k in Counted(s, entries) && Counted(s, entries)[k].addr == LoadedInfo(s, k).addr &&
      Counted(s, entries)[k].nRefCount == |BucketsOf(entries, k)|
    ensures Counted(s, entries)[k] == LoadedInfo(s, k).(nRefCount := |BucketsOf(entries, k)|)
  {
  }

  lemma NothingFilled(s: State)
    requires Shape(s.vvNew, NEW_BUCKET_COUNT)
    ensures Filled(s, []) == Loaded(s, |Order(s)|)
  {
    hide Order, Renamed, RawIndex, Partial, Identity, RestoredInfo;
    var m, n := Counted(s, []), LoadedInfos(s, |Order(s)|);
    forall k ensures k in m <==> k in n {}
    forall k | k in m ensures m[k] == n[k] {
      assert BucketsOf([], k) == {};
    }
    var l, r := Placed(s, []), EmptyTable(NEW_BUCKET_COUNT);
    forall b | 0 <= b < NEW_BUCKET_COUNT ensures l[b] == r[b] {}
  }

  lemma AllFilled(s: State, entries: seq<Entry>)
    requires Inv(s) && Shape(s.vvNew, NEW_BUCKET_COUNT) && Stream.Known(s, NewList(s)) &&
      EntriesBelow(s, entries, NEW_BUCKET_COUNT)
    ensures Filled(s, entries) == Restored(s)
  {
    hide LinksOk, TriedOk, PendingOk, NewOk, EntriesOk, CountsOk, Order, Renamed, RawIndex, EntriesBelow, NewList,
      LoadedInfo, RestoredInfo, Counted, Placed, Partial, BucketsOf, Restored;
    RestoredParts(s);
    PartialAll(s);
    var t, u := Filled(s, entries), Restored(s);
    forall k ensures k in t.mapInfo <==> k in u.mapInfo {}
    forall k | k in t.mapInfo ensures t.mapInfo[k] == u.mapInfo[k] {
      CountRestored(s, entries, k);
    }
    var l, r := Placed(s, entries), RenamedTable(s, s.vvNew);
    forall b, q | 0 <= b < NEW_BUCKET_COUNT && 0 <= q < BUCKET_SIZE ensures l[b][q] == r[b][q] {
      SlotRestored(s, entries, b, q);
    }
    forall b | 0 <= b < NEW_BUCKET_COUNT ensures l[b] == r[b] {}
    assert l == r;
    assert t.vRandom == u.vRandom;
    assert t.mapInfo == u.mapInfo;
    assert u.nLastGood == 1 by { RestoredClock(s); }
  }

  lemma RestoredClock(s: State)
    ensures Restored(s).nLastGood == 1
  {
  }

  lemma SlotRestored(s: State, entries: seq<Entry>, b: nat, q: nat)
    requires Inv(s) && Stream.Known(s, NewList(s)) && EntriesBelow(s, entries, NEW_BUCKET_COUNT) &&
      b < NEW_BUCKET_COUNT && q < BUCKET_SIZE
    ensures Renamed(s, s.vvNew[b][q]) == EMPTY || (b, Renamed(s, s.vvNew[b][q])) in entries
  {
    hide LinksOk, TriedOk, PendingOk, CountsOk, IndexOf;
    assert NewSlotOk(s, b, q);
    var x := s.vvNew[b][q];
    RenamedId(s, x);
    if x != EMPTY {
      var k := Renamed(s, x);
      RestoredFlag(s, k);
      RestoredEntry(s, k);
      assert NewList(s)[k] == x;
      assert Slotted(s, b, k);
    }
  }

  lemma CountRestored(s: State, entries: seq<Entry>, k: nat)
    requires Inv(s) && Stream.Known(s, NewList(s)) && EntriesBelow(s, entries, NEW_BUCKET_COUNT) && k < |Order(s)|
    ensures LoadedInfo(s, k).(nRefCount := |BucketsOf(entries, k)|) == RestoredInfo(s, k)
  {
    hide LinksOk, PendingOk, CountsOk, IndexOf;
    RestoredFlag(s, k);
    RestoredEntry(s, k);
    var id := Order(s)[k];
    if k < |NewIds(s)| {
      assert NewList(s)[k] == id;
      assert RefsOk(s, id, 1);
      var refs := Refs(s.p, s.vvNew, id, s.mapInfo[id].addr);
      forall b | 0 <= b < NEW_BUCKET_COUNT ensures b in BucketsOf(entries, k) <==> b in refs {
        assert Slotted(s, b, k) <==> b in refs;
      }
      assert BucketsOf(entries, k) == refs;
    } else {
      assert Seated(s, id);
      assert BucketsOf(entries, k) == {};
    }
  }

  /** The last loop: entries left without any reference would be deleted. There are none. */
  method Prune(m: Obj.CAddrMan, ghost s: State) returns (nLostUnk: int)
    requires Inv(s) && m.st == Restored(s)
    ensures nLostUnk == 0
  {
    hide LinksOk, TriedOk, PendingOk, NewOk, EntriesOk, CountsOk, Restored, Order;
    nLostUnk := 0;
    var rest := m.st.mapInfo.Keys;
    while rest != {}
      invariant rest <= m.st.mapInfo.Keys && nLostUnk == 0
      decreases |rest|
    {
      var id := Least(rest);
      RestoredParts(s);
      RestoredReferenced(s, id);
      if !m.st.mapInfo[id].fInTried && m.st.mapInfo[id].nRefCount == 0 {
        assert false;
      }
      rest := rest - {id};
    }
  }

  lemma RestoredReferenced(s: State, k: nat)
    requires Inv(s) && k < |Order(s)|
    ensures RestoredInfo(s, k).fInTried || RestoredInfo(s, k).nRefCount >= 1
  {
    RestoredEntry(s, k);
    assert s.mapInfo[Order(s)[k]].fInTried || RefsOk(s, Order(s)[k], 1);
  }

  /** Reading the image of any sound manager s, into a fresh manager with the same AS map, never throws,
      loses nothing, and yields exactly Restored(s). */
  method Unserialize(m: Obj.CAddrMan, stream: seq<Token>, key: nat, ghost s: State) returns (ok: bool, lost: int)
    requires Inv(s) && Listable(s) && stream == AddrManImage.Image(s)
    requires Shape(m.st.vvNew, NEW_BUCKET_COUNT) && Shape(m.st.vvTried, TRIED_BUCKET_COUNT) && m.st.collisions == {}
    requires m.st.discriminatePorts == s.discriminatePorts && m.st.p.env == s.p.env && m.st.p.asmap == s.p.asmap
    modifies m
    ensures ok && lost == 0 && m.st == Restored(s)
  {
    hide LinksOk, TriedOk, PendingOk, NewOk, EntriesOk, CountsOk, Listable, Restored, Order, Infos, BucketsFrom,
      EntriesBelow, NewList, TriedList,
      NewIds, TriedIds, RawIndex, Partial, LoadedInfos, EmptyTable;
    lost := 0;
    ImageFacts(s);
    m.Clear(key);
    var rest := stream;
    ghost var tail0 := Infos(s, NewList(s)) + (Infos(s, TriedList(s)) + (BucketsFrom(s, 0) + [TInt(Checksum(s.p))]));
    var format, keySize, nKey, nNew, nTried, nUBuckets;
    format, rest := ReadInt(rest);
    if format > FORMAT_V3_BIP155 {
      return false, lost;
    }
    keySize, rest := ReadInt(rest);
    if keySize != KEY_SIZE {
      return false, lost;
    }
    nKey, rest := ReadInt(rest);
    nNew, rest := ReadInt(rest);
    nTried, rest := ReadInt(rest);
    nUBuckets, rest := ReadInt(rest);
    assert rest == tail0;
    m.st := m.st.(p := m.st.p.(nKey := nKey), nNew := nNew, nTried := nTried);
    nUBuckets := Marked(nUBuckets);
    if nNew > NEW_BUCKET_COUNT * BUCKET_SIZE || nNew < 0 {
      return false, lost;
    }
    if nTried > TRIED_BUCKET_COUNT * BUCKET_SIZE || nTried < 0 {
      return false, lost;
    }
    rest := LoadNew(m, rest, nNew, s, Infos(s, TriedList(s)) + (BucketsFrom(s, 0) + [TInt(Checksum(s.p))]));
    var nLost;
    rest, nLost := LoadTried(m, rest, nTried, s, BucketsFrom(s, 0) + [TInt(Checksum(s.p))]);
    m.st := m.st.(nTried := m.st.nTried - nLost);
    var entries;
    entries, rest := ReadBuckets(rest, nUBuckets, nNew, s, [TInt(Checksum(s.p))]);
    var supplied := Checksum(m.st.p);
    var serialized;
    serialized, rest := ReadInt(rest);
    assert nUBuckets == NEW_BUCKET_COUNT && serialized == supplied;
    FillNew(m, entries, s);
    AllFilled(s, entries);
    var nLostUnk := Prune(m, s);
    return true, nLost + nLostUnk;
  }

  lemma ImageFacts(s: State)
    requires Inv(s)
    ensures Shape(s.vvNew, NEW_BUCKET_COUNT) && Shape(s.vvTried, TRIED_BUCKET_COUNT)
    ensures Stream.Known(s, NewList(s)) && Stream.Known(s, TriedList(s))
    ensures 0 <= s.nNew <= NEW_BUCKET_COUNT * BUCKET_SIZE && 0 <= s.nTried <= TRIED_BUCKET_COUNT * BUCKET_SIZE
    ensures Loaded(s, 0) == State(s.discriminatePorts, s.p, 0, map[], map[], [], s.nTried,
      EmptyTable(TRIED_BUCKET_COUNT),
                                  s.nNew, EmptyTable(NEW_BUCKET_COUNT), 1, {})
  {
    TriedFits(s);
    NewFits(s);
    PartialNone(s);
    forall i | 0 <= i < |NewList(s)| ensures NewList(s)[i] in s.mapInfo {
      assert NewList(s)[i] in NewIds(s);
    }
    forall i | 0 <= i < |TriedList(s)| ensures TriedList(s)[i] in s.mapInfo {
      assert TriedList(s)[i] in TriedIds(s);
    }
    assert Identity(0) == [];
    assert LoadedInfos(s, 0) == map[];
  }

  /** Every entry is restored with its persistent statistics, table and reference count, under its new id,
      and nothing else is; bucket and slot contents agree up to that renaming. */
  lemma RestoredSame(s: State)
    requires Inv(s)
    ensures forall id :: id in s.mapInfo ==>
      Renamed(s, id) in Restored(s).mapInfo && SameSaved(s.mapInfo[id], Restored(s).mapInfo[Renamed(s, id)])
    ensures forall k :: k in Restored(s).mapInfo ==>
      0 <= k < |Order(s)| && Order(s)[k] in s.mapInfo && Renamed(s, Order(s)[k]) == k
    ensures forall id, id' :: id in s.mapInfo && id' in s.mapInfo && Renamed(s, id) == Renamed(s, id') ==> id == id'
    ensures Shape(s.vvNew, NEW_BUCKET_COUNT) && Shape(s.vvTried, TRIED_BUCKET_COUNT)
    ensures Restored(s).vvNew == RenamedTable(s, s.vvNew) && Restored(s).vvTried == RenamedTable(s, s.vvTried)
    ensures Restored(s).nNew == s.nNew && Restored(s).nTried == s.nTried
  {
    hide LinksOk, PendingOk, CountsOk, Restored, Order, Renamed, RestoredInfo;
    RestoredParts(s);
    forall id | id in s.mapInfo
      ensures 0 <= Renamed(s, id) < |Order(s)| && Order(s)[Renamed(s, id)] == id
      ensures SameSaved(s.mapInfo[id], RestoredInfo(s, Renamed(s, id)))
    {
      RenamedId(s, id);
      RestoredEntry(s, Renamed(s, id));
    }
    forall k | k in Restored(s).mapInfo ensures Order(s)[k] in s.mapInfo && Renamed(s, Order(s)[k]) == k {
      var id := Order(s)[k];
      assert id in s.mapInfo;
      RenamedBijection(s, id, k);
    }
  }

  /** Equal in everything that is meant to survive a restart. */
  predicate SameSaved(i: Info, j: Info) {
    && j.addr == i.addr && j.source == i.source && j.nServices == i.nServices && j.nTime == i.nTime
    && j.nLastSuccess == i.nLastSuccess && j.nAttempts == i.nAttempts
    && j.nRefCount == i.nRefCount && j.fInTried == i.fInTried
  }

  /** Saving any sound manager and loading it into a fresh one succeeds, loses nothing and yields the same
      manager up to ids; the result is sound exactly when the index keys are the raw addresses. */
  method SaveAndLoad(m: Obj.CAddrMan, loaded: Obj.CAddrMan, key: nat) returns (ok: bool, lost: int)
    requires Inv(m.st) && m != loaded
    requires Shape(loaded.st.vvNew, NEW_BUCKET_COUNT) && Shape(loaded.st.vvTried, TRIED_BUCKET_COUNT) &&
      loaded.st.collisions == {}
    requires loaded.st.discriminatePorts == m.st.discriminatePorts && loaded.st.p.env == m.st.p.env &&
      loaded.st.p.asmap == m.st.p.asmap
    modifies loaded
    ensures ok && lost == 0 && loaded.st == Restored(m.st) && (Inv(loaded.st) <==> RawKeys(m.st))
  {
    hide Inv, Restored;
    var stream := Stream.Serialize(m.st);
    RestoredInvariant(m.st);
    ok, lost := Unserialize(loaded, stream, key, m.st);
  }
}
