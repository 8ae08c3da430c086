/** Check_: the address manager's own test of its state, proved to accept exactly the states it is meant to. */
module AddrManCheck {
  import opened Collections
  import opened AddrManState
  import opened AddrManInvariant

  /** What is required of one entry. The address is looked up as it is, without normalising the port; a missing one
      counts as id 0. */
  predicate EntryChecked(s: State, id: int)
    requires id in s.mapInfo
  {
    var i := s.mapInfo[id];
    && (if i.fInTried then i.nLastSuccess != 0 && i.nRefCount == 0 else 1 <= i.nRefCount <= NEW_BUCKETS_PER_ADDRESS)
    && (if i.addr in s.mapAddr then s.mapAddr[i.addr] else 0) == id
    && 0 <= i.nRandomPos < |s.vRandom| && s.vRandom[i.nRandomPos] == id
    && i.nLastTry >= 0 && i.nLastSuccess >= 0
  }

  predicate Placed(s: State, id: int)
    requires id in s.mapInfo && Shape(s.vvTried, TRIED_BUCKET_COUNT)
  {
    var bq := s.TriedSlot(s.mapInfo[id].addr);
    id != EMPTY && s.vvTried[bq.0][bq.1] == id
  }

  predicate Counted(s: State, id: int)
    requires id in s.mapInfo && Shape(s.vvNew, NEW_BUCKET_COUNT)
  {
    id != EMPTY && s.mapInfo[id].nRefCount == |Refs(s.p, s.vvNew, id, s.mapInfo[id].addr)|
  }

  /** The condition required, said without loops. */
  ghost predicate Checked(s: State)
    requires Shape(s.vvTried, TRIED_BUCKET_COUNT) && Shape(s.vvNew, NEW_BUCKET_COUNT)
  {
    && |s.vRandom| == s.nTried + s.nNew
    && (forall id :: id in s.mapInfo ==> EntryChecked(s, id))
    && s.nTried == |TriedIds(s)| && s.nNew == |NewIds(s)|
    && TriedChecked(s) && NewChecked(s) && s.p.nKey != 0
  }

  ghost predicate TriedChecked(s: State)
    requires Shape(s.vvTried, TRIED_BUCKET_COUNT)
  {
    && (forall b, q :: 0 <= b < TRIED_BUCKET_COUNT && 0 <= q < BUCKET_SIZE ==> TriedSlotOk(s, b, q))
    && (forall id :: id in s.mapInfo && s.mapInfo[id].fInTried ==> Placed(s, id))
  }

  ghost predicate NewChecked(s: State)
    requires Shape(s.vvNew, NEW_BUCKET_COUNT)
  {
    && (forall b, q :: 0 <= b < NEW_BUCKET_COUNT && 0 <= q < BUCKET_SIZE ==> NewSlotOk(s, b, q))
    && (forall id :: id in s.mapInfo && !s.mapInfo[id].fInTried ==> Counted(s, id))
  }

  // ----- the entries -----

  method CheckEntries(s: State) returns (err: int, setTried: set<int>, mapNew: map<int, int>)
    ensures err == 0 <==> forall id :: id in s.mapInfo ==> EntryChecked(s, id)
    ensures err == 0 ==> setTried == TriedIds(s) && mapNew == RefCounts(s)
  {
    setTried, mapNew := {}, map[];
    var rest := s.mapInfo.Keys;
    while rest != {}
      invariant rest <= s.mapInfo.Keys
      invariant forall id :: id in s.mapInfo.Keys - rest ==> EntryChecked(s, id)
      invariant setTried == TriedIds(s) - rest
      invariant mapNew == RefCounts(s) - rest
      decreases rest
    {
      var n := Least(rest);
      var info := s.mapInfo[n];
      err := CheckEntry(s, n);
      if err != 0 {
        return;
      }
      if info.fInTried {
        setTried := setTried + {n};
      } else {
        mapNew := mapNew[n := info.nRefCount];
      }
      rest := rest - {n};
    }
    err := 0;
  }

  method CheckEntry(s: State, n: int) returns (err: int)
    requires n in s.mapInfo
    ensures err == 0 <==> EntryChecked(s, n)
  {
    var info := s.mapInfo[n];
    if info.fInTried {
      if info.nLastSuccess == 0 {
        return -1;
      }
      if info.nRefCount != 0 {
        return -2;
      }
    } else {
      if info.nRefCount < 0 || info.nRefCount > NEW_BUCKETS_PER_ADDRESS {
        return -3;
      }
      if info.nRefCount == 0 {
        return -4;
      }
    }
    if (if info.addr in s.mapAddr then s.mapAddr[info.addr] else 0) != n {
      return -5;
    }
    if info.nRandomPos < 0 || info.nRandomPos >= |s.vRandom| || s.vRandom[info.nRandomPos] != n {
      return -14;
    }
    if info.nLastTry < 0 {
      return -6;
    }
    if info.nLastSuccess < 0 {
      return -8;
    }
    return 0;
  }

  function RefCounts(s: State): map<int, int> {
    map id | id in s.mapInfo && !s.mapInfo[id].fInTried :: s.mapInfo[id].nRefCount
  }

  // ----- the tried table -----

  predicate Before(n: int, i: int, b: int, q: int) { b < n || (b == n && q < i) }

  /** The tried entries not met before position (n, i) of the scan. */
  ghost function Unmet(s: State, n: int, i: int): set<int>
    requires Shape(s.vvTried, TRIED_BUCKET_COUNT)
  {
    set id | id in TriedIds(s) &&
      !(Placed(s, id) && (var bq := s.TriedSlot(s.mapInfo[id].addr); Before(n, i, bq.0, bq.1)))
  }

  ghost predicate TriedBefore(s: State, n: int, i: int)
    requires Shape(s.vvTried, TRIED_BUCKET_COUNT)
  {
    forall b, q :: 0 <= b < TRIED_BUCKET_COUNT && 0 <= q < BUCKET_SIZE && Before(n, i, b, q) ==> TriedSlotOk(s, b, q)
  }

  method CheckTried(s: State, all: set<int>) returns (err: int, setTried: set<int>)
    requires Shape(s.vvTried, TRIED_BUCKET_COUNT) && all == TriedIds(s)
    ensures err == 0 <==> forall b, q :: 0 <= b < TRIED_BUCKET_COUNT && 0 <= q < BUCKET_SIZE ==> TriedSlotOk(s, b, q)
    ensures err == 0 ==> (setTried == {} <==> forall id :: id in s.mapInfo && s.mapInfo[id].fInTried ==> Placed(s, id))
  {
    hide Unmet, TriedBefore, TriedSlotOk, Placed;
    setTried := all;
    UnmetStart(s);
    for n := 0 to TRIED_BUCKET_COUNT
      invariant setTried == Unmet(s, n, 0) && TriedBefore(s, n, 0)
    {
      for i := 0 to BUCKET_SIZE
        invariant setTried == Unmet(s, n, i) && TriedBefore(s, n, i)
      {
        var id := s.vvTried[n][i];
        TriedStep(s, n, i);
        if id != EMPTY {
          if id !in setTried {
            return -11, setTried;
          }
          UnmetTried(s, n, i, id);
          if s.p.TriedBucket(s.mapInfo[id].addr) != n {
            return -17, setTried;
          }
          if s.p.Position(false, n, s.mapInfo[id].addr) != i {
            return -18, setTried;
          }
          setTried := setTried - {id};
        }
      }
      TriedNext(s, n);
    }
    UnmetEnd(s);
    err := 0;
  }

  lemma UnmetStart(s: State)
    requires Shape(s.vvTried, TRIED_BUCKET_COUNT)
    ensures Unmet(s, 0, 0) == TriedIds(s) && TriedBefore(s, 0, 0)
  {
  }

  lemma UnmetTried(s: State, n: int, i: int, id: int)
    requires Shape(s.vvTried, TRIED_BUCKET_COUNT) && id in Unmet(s, n, i)
    ensures id in s.mapInfo && s.mapInfo[id].fInTried
  {
  }

  /** Passing one slot: an empty one changes nothing, an entry in its own slot is met, anything else is wrong. */
  lemma TriedStep(s: State, n: nat, i: nat)
    requires Shape(s.vvTried, TRIED_BUCKET_COUNT)
    requires n < TRIED_BUCKET_COUNT && i < BUCKET_SIZE && TriedBefore(s, n, i)
    ensures var id := s.vvTried[n][i]; var unmet := Unmet(s, n, i);
      && (id == EMPTY ==> Unmet(s, n, i + 1) == unmet)
      && (id != EMPTY && id !in unmet ==> !TriedSlotOk(s, n, i))
      && (id != EMPTY && id in unmet && s.TriedSlot(s.mapInfo[id].addr) != (n, i) ==> !TriedSlotOk(s, n, i))
      && (id != EMPTY && id in unmet && s.TriedSlot(s.mapInfo[id].addr) == (n, i) ==>
         Unmet(s, n, i + 1) == unmet - {id})
    ensures TriedSlotOk(s, n, i) ==> TriedBefore(s, n, i + 1)
    ensures s.vvTried[n][i] == EMPTY ==> TriedSlotOk(s, n, i)
    ensures s.vvTried[n][i] in TriedIds(s) && s.TriedSlot(s.mapInfo[s.vvTried[n][i]].addr) == (n, i) ==>
      TriedSlotOk(s, n, i)
  {
    var id := s.vvTried[n][i];
    forall x | x in TriedIds(s)
      ensures x in Unmet(s, n, i + 1) <==>
        x in Unmet(s, n, i) && !(x == id != EMPTY && s.TriedSlot(s.mapInfo[x].addr) == (n, i))
    {
    }
  }

  lemma TriedNext(s: State, n: int)
    requires Shape(s.vvTried, TRIED_BUCKET_COUNT)
    ensures Unmet(s, n, BUCKET_SIZE) == Unmet(s, n + 1, 0)
    ensures TriedBefore(s, n, BUCKET_SIZE) ==> TriedBefore(s, n + 1, 0)
  {
  }

  lemma UnmetEnd(s: State)
    requires Shape(s.vvTried, TRIED_BUCKET_COUNT) && TriedBefore(s, TRIED_BUCKET_COUNT, 0)
    ensures forall b, q :: 0 <= b < TRIED_BUCKET_COUNT && 0 <= q < BUCKET_SIZE ==> TriedSlotOk(s, b, q)
    ensures Unmet(s, TRIED_BUCKET_COUNT, 0) == {} <==> forall id :: id in s.mapInfo && s.mapInfo[id].fInTried ==>
      Placed(s, id)
  {
    hide TriedSlotOk, Placed;
    var unmet := Unmet(s, TRIED_BUCKET_COUNT, 0);
    forall id | id in s.mapInfo && s.mapInfo[id].fInTried
      ensures id in unmet <==> !Placed(s, id)
    {
    }
    if unmet == {} {
      forall id | id in s.mapInfo && s.mapInfo[id].fInTried
        ensures Placed(s, id)
      {
        assert id !in unmet;
      }
    }
  }

  // ----- the new table -----

  /** The buckets before position (n, i) of the scan that hold id at its position. */
  ghost function Seen(s: State, id: int, n: int, i: int): set<int>
    requires Shape(s.vvNew, NEW_BUCKET_COUNT) && id in s.mapInfo
  {
    var a := s.mapInfo[id].addr;
    set b | id != EMPTY && b in Refs(s.p, s.vvNew, id, a) && 0 <= b && Before(n, i, b, s.p.Position(true, b, a))
  }

  /** The references not met before position (n, i), for the entries that have any. */
  ghost function Owed(s: State, n: int, i: int): map<int, int>
    requires Shape(s.vvNew, NEW_BUCKET_COUNT)
  {
    map id | id in s.mapInfo && !s.mapInfo[id].fInTried && |Seen(s, id, n, i)| < s.mapInfo[id].nRefCount ::
      s.mapInfo[id].nRefCount - |Seen(s, id, n, i)|
  }

  ghost predicate NewBefore(s: State, n: int, i: int)
    requires Shape(s.vvNew, NEW_BUCKET_COUNT)
  {
    && (forall b, q :: 0 <= b < NEW_BUCKET_COUNT && 0 <= q < BUCKET_SIZE && Before(n, i, b, q) ==> NewSlotOk(s, b, q))
    && (forall id :: id in s.mapInfo && !s.mapInfo[id].fInTried ==> |Seen(s, id, n, i)| <= s.mapInfo[id].nRefCount)
  }

  lemma SeenStep(s: State, id: int, n: nat, i: nat)
    requires Shape(s.vvNew, NEW_BUCKET_COUNT) && id in s.mapInfo && n < NEW_BUCKET_COUNT && i < BUCKET_SIZE
    ensures var met := id != EMPTY && s.vvNew[n][i] == id && s.p.Position(true, n, s.mapInfo[id].addr) == i;
      && Seen(s, id, n, i + 1) == Seen(s, id, n, i) + (if met then {n} else {})
      && |Seen(s, id, n, i + 1)| == |Seen(s, id, n, i)| + if met then 1 else 0
  {
    var a := s.mapInfo[id].addr;
    var met := id != EMPTY && s.vvNew[n][i] == id && s.p.Position(true, n, a) == i;
    var t := Seen(s, id, n, i) + (if met then {n} else {});
    forall b
      ensures b in Seen(s, id, n, i + 1) <==> b in t
    {
    }
    assert Seen(s, id, n, i + 1) == t;
  }

  lemma SeenBounded(s: State, id: int, n: int, i: int)
    requires Shape(s.vvNew, NEW_BUCKET_COUNT) && id in s.mapInfo
    ensures |Seen(s, id, n, i)| <= |Refs(s.p, s.vvNew, id, s.mapInfo[id].addr)|
  {
    SubsetSize(Seen(s, id, n, i), Refs(s.p, s.vvNew, id, s.mapInfo[id].addr));
  }

  /** Passing one slot of the new table. */
  lemma NewStep(s: State, n: nat, i: nat)
    requires Shape(s.vvNew, NEW_BUCKET_COUNT)
    requires n < NEW_BUCKET_COUNT && i < BUCKET_SIZE && NewBefore(s, n, i)
    ensures var id := s.vvNew[n][i]; var owed := Owed(s, n, i);
      && (id == EMPTY ==> Owed(s, n, i + 1) == owed && NewBefore(s, n, i + 1))
      && (id != EMPTY && id !in owed ==> !NewChecked(s))
      && (id != EMPTY && id in owed && s.p.Position(true, n, s.mapInfo[id].addr) != i ==> !NewSlotOk(s, n, i))
      && (id != EMPTY && id in owed && s.p.Position(true, n, s.mapInfo[id].addr) == i ==> NewBefore(s, n, i + 1))
      && (id != EMPTY && id in owed && s.p.Position(true, n, s.mapInfo[id].addr) == i ==>
          Owed(s, n, i + 1) == if owed[id] == 1 then owed - {id} else owed[id := owed[id] - 1])
  {
    hide Seen;
    var id := s.vvNew[n][i];
    forall x | x in s.mapInfo && !s.mapInfo[x].fInTried
      ensures var met := x != EMPTY && id == x && s.p.Position(true, n, s.mapInfo[x].addr) == i;
        |Seen(s, x, n, i + 1)| == |Seen(s, x, n, i)| + if met then 1 else 0
    {
      SeenStep(s, x, n, i);
    }
    if id != EMPTY && id !in Owed(s, n, i) && NewChecked(s) {
      NotOwed(s, n, i);
    }
  }

  lemma NotOwed(s: State, n: nat, i: nat)
    requires Shape(s.vvNew, NEW_BUCKET_COUNT) && n < NEW_BUCKET_COUNT && i < BUCKET_SIZE
    requires NewChecked(s) && s.vvNew[n][i] != EMPTY
    ensures s.vvNew[n][i] in Owed(s, n, i)
  {
    hide Seen;
    var id := s.vvNew[n][i];
    assert NewSlotOk(s, n, i);
    SeenStep(s, id, n, i);
    SeenBounded(s, id, n, i + 1);
    assert Counted(s, id);
  }

  method CheckNew(s: State, all: map<int, int>) returns (err: int, mapNew: map<int, int>)
    requires Shape(s.vvNew, NEW_BUCKET_COUNT) && all == RefCounts(s)
    requires forall id :: id in s.mapInfo ==> EntryChecked(s, id)
    ensures err != 0 ==> !NewChecked(s)
    ensures err == 0 ==> (mapNew == map[] <==> NewChecked(s))
  {
    hide Owed, NewBefore, NewSlotOk, EntryChecked, Seen, NewChecked, Refs;
    mapNew := all;
    OwedStart(s);
    for n := 0 to NEW_BUCKET_COUNT
      invariant mapNew == Owed(s, n, 0) && NewBefore(s, n, 0)
    {
      for i := 0 to BUCKET_SIZE
        invariant mapNew == Owed(s, n, i) && NewBefore(s, n, i)
      {
        var id := s.vvNew[n][i];
        NewStep(s, n, i);
        if id != EMPTY {
          if id !in mapNew {
            return -12, mapNew;
          }
          OwedKnown(s, n, i, id);
          if s.p.Position(true, n, s.mapInfo[id].addr) != i {
            BadNewSlot(s, n, i);
            return -19, mapNew;
          }
          var left := mapNew[id] - 1;
          mapNew := if left == 0 then mapNew - {id} else mapNew[id := left];
        }
      }
      NewNext(s, n);
    }
    OwedEnd(s);
    err := 0;
  }

  lemma OwedStart(s: State)
    requires Shape(s.vvNew, NEW_BUCKET_COUNT) && forall id :: id in s.mapInfo ==> EntryChecked(s, id)
    ensures Owed(s, 0, 0) == RefCounts(s) && NewBefore(s, 0, 0)
  {
    forall id | id in s.mapInfo
      ensures Seen(s, id, 0, 0) == {}
    {
    }
  }

  lemma OwedKnown(s: State, n: int, i: int, id: int)
    requires Shape(s.vvNew, NEW_BUCKET_COUNT) && id in Owed(s, n, i)
    ensures id in s.mapInfo
  {
  }

  lemma BadNewSlot(s: State, b: nat, q: nat)
    requires Shape(s.vvNew, NEW_BUCKET_COUNT) && b < NEW_BUCKET_COUNT && q < BUCKET_SIZE && !NewSlotOk(s, b, q)
    ensures !NewChecked(s)
  {
    hide NewSlotOk;
  }

  lemma NewNext(s: State, n: int)
    requires Shape(s.vvNew, NEW_BUCKET_COUNT)
    ensures Owed(s, n, BUCKET_SIZE) == Owed(s, n + 1, 0)
    ensures NewBefore(s, n, BUCKET_SIZE) ==> NewBefore(s, n + 1, 0)
  {
    hide NewSlotOk, Refs;
    forall id | id in s.mapInfo
      ensures Seen(s, id, n, BUCKET_SIZE) == Seen(s, id, n + 1, 0)
    {
    }
  }

  lemma OwedEnd(s: State)
    requires Shape(s.vvNew, NEW_BUCKET_COUNT) && NewBefore(s, NEW_BUCKET_COUNT, 0)
    requires EMPTY in s.mapInfo ==> EntryChecked(s, EMPTY)
    ensures Owed(s, NEW_BUCKET_COUNT, 0) == map[] <==> NewChecked(s)
  {
    hide NewSlotOk;
    var owed := Owed(s, NEW_BUCKET_COUNT, 0);
    forall id | id in s.mapInfo && !s.mapInfo[id].fInTried
      ensures id !in owed <==> Counted(s, id)
    {
      if id != EMPTY {
        assert Seen(s, id, NEW_BUCKET_COUNT, 0) == Refs(s.p, s.vvNew, id, s.mapInfo[id].addr);
      } else {
        assert Seen(s, id, NEW_BUCKET_COUNT, 0) == {};
      }
    }
    assert owed == map[] <==> owed.Keys == {};
    if owed.Keys == {} {
      forall id | id in s.mapInfo && !s.mapInfo[id].fInTried
        ensures Counted(s, id)
      {
        assert id !in owed;
      }
    }
  }

  // ----- the whole test -----

  /** Returns 0 exactly for the states that satisfy the condition. */
  method Check(s: State) returns (err: int)
    requires Shape(s.vvTried, TRIED_BUCKET_COUNT) && Shape(s.vvNew, NEW_BUCKET_COUNT)
    ensures err == 0 <==> Checked(s)
  {
    hide EntryChecked, TriedSlotOk, Placed, NewChecked, TriedIds, NewIds, RefCounts;
    if |s.vRandom| != s.nTried + s.nNew {
      return -7;
    }
    var setTried, mapNew;
    err, setTried, mapNew := CheckEntries(s);
    if err != 0 {
      return;
    }
    Sizes(s);
    if |setTried| != s.nTried {
      return -9;
    }
    if |mapNew| != s.nNew {
      return -10;
    }
    err, setTried := CheckTried(s, setTried);
    if err != 0 {
      return;
    }
    err, mapNew := CheckNew(s, mapNew);
    if err != 0 {
      return;
    }
    if setTried != {} {
      return -13;
    }
    if mapNew != map[] {
      return -15;
    }
    if s.p.nKey == 0 {
      return -16;
    }
    return 0;
  }

  lemma Sizes(s: State)
    ensures |RefCounts(s)| == |NewIds(s)|
  {
    assert RefCounts(s).Keys == NewIds(s);
  }

  /** Addresses are found in the index as they are. Id 0 passes regardless, being what a missing address counts as. */
  predicate RawLookups(s: State)
  {
    s.discriminatePorts || forall id :: id in s.mapInfo ==> s.mapInfo[id].addr.port == 0 || id == 0
  }

  /** A state that satisfies the invariant passes the test exactly if it has a key and its addresses are found as
      they are; so with port discrimination the test passes after every run from an empty manager. */
  lemma InvariantPasses(s: State)
    requires Inv(s)
    ensures Checked(s) <==> s.p.nKey != 0 && RawLookups(s)
  {
    hide PendingOk;
    forall id | id in s.mapInfo
      ensures EntryChecked(s, id) <==> s.discriminatePorts || s.mapInfo[id].addr.port == 0 || id == 0
    {
      EntryPasses(s, id);
    }
    RandomSize(s);
    forall id | id in s.mapInfo && s.mapInfo[id].fInTried
      ensures Placed(s, id)
    {
      assert Seated(s, id);
    }
    forall id | id in s.mapInfo && !s.mapInfo[id].fInTried
      ensures Counted(s, id)
    {
      assert RefsOk(s, id, 1);
    }
  }

  lemma EntryPasses(s: State, id: int)
    requires Inv(s) && id in s.mapInfo
    ensures EntryChecked(s, id) <==> s.discriminatePorts || s.mapInfo[id].addr.port == 0 || id == 0
  {
    hide PendingOk, Refs;
    var i := s.mapInfo[id];
    assert LinkOk(s, id);
    if i.fInTried {
      assert Seated(s, id);
    } else {
      assert RefsOk(s, id, 1);
    }
    assert i.addr in s.mapAddr ==> s.Key(s.mapInfo[s.mapAddr[i.addr]].addr) == i.addr;
  }

  lemma RandomSize(s: State)
    requires LinksOk(s)
    ensures |s.vRandom| == |TriedIds(s)| + |NewIds(s)|
  {
    var ids := s.mapInfo.Keys;
    forall id | id in ids
      ensures id in s.vRandom
    {
      assert LinkOk(s, id);
    }
    DistinctSize(s.vRandom, ids);
    assert ids == TriedIds(s) + NewIds(s);
  }

  lemma {:induction false} DistinctSize(r: seq<int>, ids: set<int>)
    requires forall i, j :: 0 <= i < j < |r| ==> r[i] != r[j]
    requires (forall i :: 0 <= i < |r| ==> r[i] in ids) && forall id :: id in ids ==> id in r
    ensures |r| == |ids|
    decreases |r|
  {
    if r == [] {
      assert forall id :: id !in ids;
    } else {
      var last := |r| - 1;
      var rest := ids - {r[last]};
      forall id | id in rest
        ensures id in r[..last]
      {
        var k :| 0 <= k < |r| && r[k] == id;
        assert r[..last][k] == id;
      }
      DistinctSize(r[..last], rest);
      assert ids == rest + {r[last]};
    }
  }
}
