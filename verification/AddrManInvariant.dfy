/** The address manager's global invariant (what Check_ tests) and the proof that every elementary
    table operation keeps it. */
module AddrManInvariant {
  import opened AddrManState

  predicate LinkOk(s: State, id: int)
    requires id in s.mapInfo
  {
    var i := s.mapInfo[id];
    && 0 <= i.nRandomPos < |s.vRandom| && s.vRandom[i.nRandomPos] == id
    && s.Key(i.addr) in s.mapAddr && s.mapAddr[s.Key(i.addr)] == id
  }

  /** mapInfo and vRandom are inverse through nRandomPos; mapAddr is exactly the index by address. */
  ghost predicate LinksOk(s: State) {
    && (forall id :: id in s.mapInfo ==> LinkOk(s, id))
    && (forall i :: 0 <= i < |s.vRandom| ==> s.vRandom[i] in s.mapInfo && s.mapInfo[s.vRandom[i]].nRandomPos == i)
    && (forall a :: a in s.mapAddr ==> s.mapAddr[a] in s.mapInfo && s.Key(s.mapInfo[s.mapAddr[a]].addr) == a)
  }

  ghost predicate EntriesOk(s: State) {
    && s.nIdCount >= 0
    && forall id :: id in s.mapInfo ==>
         0 <= id < s.nIdCount && s.mapInfo[id].nLastTry >= 0 && s.mapInfo[id].nLastSuccess >= 0
  }

  predicate TriedSlotOk(s: State, b: nat, q: nat)
    requires Within(s.vvTried, b, q)
  {
    var id := s.vvTried[b][q];
    id == EMPTY || (id in s.mapInfo && s.mapInfo[id].fInTried && s.TriedSlot(s.mapInfo[id].addr) == (b, q))
  }

  predicate Seated(s: State, id: int)
    requires id in s.mapInfo && Shape(s.vvTried, TRIED_BUCKET_COUNT)
  {
    var i := s.mapInfo[id];
    s.vvTried[s.TriedSlot(i.addr).0][s.TriedSlot(i.addr).1] == id && i.nRefCount == 0 && i.nLastSuccess != 0
  }

  /** Every tried id sits exactly in its own slot, and nothing else sits in the tried table. */
  ghost predicate TriedOk(s: State) {
    && Shape(s.vvTried, TRIED_BUCKET_COUNT)
    && (forall b, q :: 0 <= b < TRIED_BUCKET_COUNT && 0 <= q < BUCKET_SIZE ==> TriedSlotOk(s, b, q))
    && (forall id :: id in s.mapInfo && s.mapInfo[id].fInTried ==> Seated(s, id))
  }

  predicate NewSlotOk(s: State, b: nat, q: nat)
    requires Within(s.vvNew, b, q)
  {
    var id := s.vvNew[b][q];
    id == EMPTY || (id in s.mapInfo && !s.mapInfo[id].fInTried && s.p.Position(true, b, s.mapInfo[id].addr) == q)
  }

  predicate RefsOk(s: State, id: int, least: nat)
    requires id in s.mapInfo && Shape(s.vvNew, NEW_BUCKET_COUNT)
  {
    var i := s.mapInfo[id];
    i.nRefCount == |Refs(s.p, s.vvNew, id, i.addr)| && least <= i.nRefCount <= NEW_BUCKETS_PER_ADDRESS
  }

  /** Reference counts are exact; only the entries in loose may have none. */
  ghost predicate NewOk(s: State, loose: set<int>) {
    && Shape(s.vvNew, NEW_BUCKET_COUNT)
    && (forall b, q :: 0 <= b < NEW_BUCKET_COUNT && 0 <= q < BUCKET_SIZE ==> NewSlotOk(s, b, q))
    && (forall id :: id in s.mapInfo && !s.mapInfo[id].fInTried ==> RefsOk(s, id, if id in loose then 0 else 1))
    && (forall id :: id in loose ==> id in s.mapInfo && !s.mapInfo[id].fInTried)
  }

  function TriedIds(s: State): set<int> { set id | id in s.mapInfo && s.mapInfo[id].fInTried }

  function NewIds(s: State): set<int> { set id | id in s.mapInfo && !s.mapInfo[id].fInTried }

  /** The counters are exact, except that uncounted new entries are not yet counted. */
  predicate CountsOk(s: State, uncounted: int) {
    s.nTried == |TriedIds(s)| && s.nNew == |NewIds(s)| - uncounted
  }

  /** The invariant between two table operations inside one call. */
  ghost predicate Core(s: State, loose: set<int>, uncounted: int) {
    LinksOk(s) && EntriesOk(s) && TriedOk(s) && NewOk(s, loose) && CountsOk(s, uncounted)
  }

  predicate Occupied(s: State, a: Service)
    requires Shape(s.vvTried, TRIED_BUCKET_COUNT)
  {
    s.vvTried[s.TriedSlot(a).0][s.TriedSlot(a).1] != EMPTY
  }

  /** A pending collision that still names an entry names one whose tried slot is occupied. */
  ghost predicate PendingOk(s: State)
    requires Shape(s.vvTried, TRIED_BUCKET_COUNT)
  {
    && |s.collisions| <= SET_TRIED_COLLISION_SIZE
    && (forall c :: c in s.collisions ==> 0 <= c < s.nIdCount)
    && (forall c :: c in s.collisions && c in s.mapInfo ==> Occupied(s, s.mapInfo[c].addr))
  }

  /** The invariant between calls. */
  ghost predicate Inv(s: State) {
    Core(s, {}, 0) && PendingOk(s)
  }

  // ----- frames -----

  /** Equal except for the position in vRandom. */
  predicate SameButPos(i: Info, j: Info) {
    i.(nRandomPos := 0) == j.(nRandomPos := 0)
  }

  ghost predicate SameInfos(m: map<int, Info>, n: map<int, Info>) {
    m.Keys == n.Keys && forall id :: id in m ==> SameButPos(m[id], n[id])
  }

  ghost predicate SameTables(s: State, t: State) {
    s == t.(mapInfo := s.mapInfo, vRandom := s.vRandom)
  }

  lemma SameIds(s: State, t: State)
    requires s.mapInfo.Keys == t.mapInfo.Keys
    requires forall id :: id in s.mapInfo ==> s.mapInfo[id].fInTried == t.mapInfo[id].fInTried
    ensures TriedIds(t) == TriedIds(s) && NewIds(t) == NewIds(s)
  {
    forall id ensures (id in TriedIds(t) <==> id in TriedIds(s)) && (id in NewIds(t) <==> id in NewIds(s)) {}
  }

  /** Only statistics and the random position may differ. */
  predicate SameSlots(i: Info, j: Info) {
    && j.addr == i.addr && j.nRefCount == i.nRefCount && j.fInTried == i.fInTried
    && (i.nLastTry >= 0 ==> j.nLastTry >= 0) && (i.nLastSuccess >= 0 ==> j.nLastSuccess >= 0)
    && (i.nLastSuccess != 0 ==> j.nLastSuccess != 0)
  }

  ghost predicate SlotsFrame(s: State, t: State) {
    && t == s.(mapInfo := t.mapInfo, vRandom := t.vRandom, nLastGood := t.nLastGood, collisions := t.collisions)
    && t.mapInfo.Keys == s.mapInfo.Keys
    && forall id :: id in s.mapInfo ==> SameSlots(s.mapInfo[id], t.mapInfo[id])
  }

  lemma TablesFrame(s: State, t: State, loose: set<int>, k: int)
    requires SlotsFrame(s, t)
    requires EntriesOk(s) && TriedOk(s) && NewOk(s, loose) && CountsOk(s, k)
    ensures EntriesOk(t) && TriedOk(t) && NewOk(t, loose) && CountsOk(t, k)
  {
    forall id | id in s.mapInfo ensures t.mapInfo[id].addr == s.mapInfo[id].addr &&
      t.mapInfo[id].fInTried == s.mapInfo[id].fInTried {
      assert SameSlots(s.mapInfo[id], t.mapInfo[id]);
    }
    SameIds(s, t);
    forall b, q | 0 <= b < TRIED_BUCKET_COUNT && 0 <= q < BUCKET_SIZE ensures TriedSlotOk(t, b, q) {
      assert TriedSlotOk(s, b, q);
    }
    forall b, q | 0 <= b < NEW_BUCKET_COUNT && 0 <= q < BUCKET_SIZE ensures NewSlotOk(t, b, q) {
      assert NewSlotOk(s, b, q);
    }
    forall id | id in t.mapInfo && !t.mapInfo[id].fInTried ensures RefsOk(t, id, if id in loose then 0 else 1) {
      assert RefsOk(s, id, if id in loose then 0 else 1);
    }
    forall id | id in t.mapInfo && t.mapInfo[id].fInTried ensures Seated(t, id) {
      assert Seated(s, id);
    }
  }

  lemma SwapLinks(s: State, i: nat, j: nat)
    requires LinksOk(s) && i < |s.vRandom| && j < |s.vRandom|
    ensures SwapOk(s, i, j)
    ensures var t := SwapRandom(s, i, j); LinksOk(t) && SameTables(s, t) && SameInfos(s.mapInfo, t.mapInfo)
    ensures var t := SwapRandom(s, i, j); t.vRandom == s.vRandom[i := s.vRandom[j]][j := s.vRandom[i]]
  {
    var t := SwapRandom(s, i, j);
    if i != j {
      assert t.mapInfo.Keys == s.mapInfo.Keys;
      forall id | id in t.mapInfo ensures LinkOk(t, id) {
        assert LinkOk(s, id);
      }
    } else {
      assert t.vRandom == s.vRandom[i := s.vRandom[j]][j := s.vRandom[i]];
    }
  }

  lemma SwapKeeps(s: State, i: nat, j: nat, loose: set<int>, k: int)
    requires Core(s, loose, k) && i < |s.vRandom| && j < |s.vRandom|
    ensures SwapOk(s, i, j)
    ensures var t := SwapRandom(s, i, j);
      && Core(t, loose, k) && SameTables(s, t) && SameInfos(s.mapInfo, t.mapInfo)
      && t.vRandom == s.vRandom[i := s.vRandom[j]][j := s.vRandom[i]]
  {
    hide LinksOk, EntriesOk, TriedOk, NewOk, CountsOk;
    SwapLinks(s, i, j);
    var t := SwapRandom(s, i, j);
    forall id | id in s.mapInfo ensures SameSlots(s.mapInfo[id], t.mapInfo[id]) {
      assert SameButPos(s.mapInfo[id], t.mapInfo[id]);
    }
    TablesFrame(s, t, loose, k);
  }

  /** One slot of the new table changes: only the ids leaving and entering it see their buckets change. */
  lemma RefsPut(p: Placement, t: Table, b: nat, q: nat, v: int, x: int, a: Service)
    requires Shape(t, NEW_BUCKET_COUNT) && b < NEW_BUCKET_COUNT && q < BUCKET_SIZE
    ensures Shape(Put(t, b, q, v), NEW_BUCKET_COUNT)
    ensures Refs(p, Put(t, b, q, v), x, a)
         == if p.Position(true, b, a) != q then Refs(p, t, x, a)
            else if v == x then Refs(p, t, x, a) + {b} else Refs(p, t, x, a) - {b}
  {
  }

  lemma DeletePossible(s: State, id: int)
    requires LinksOk(s) && id in s.mapInfo
    ensures DeleteOk(s, id) && s.vRandom[s.mapInfo[id].nRandomPos] == id
  {
    assert LinkOk(s, id);
  }

  lemma DeleteKeeps(s: State, id: int, loose: set<int>, k: int)
    requires Core(s, loose, k) && id in loose && id in s.mapInfo && s.mapInfo[id].nRefCount == 0
    ensures DeleteOk(s, id)
    ensures var t := Delete(s, id);
      && Core(t, loose - {id}, k)
      && SameInfos(s.mapInfo - {id}, t.mapInfo)
      && t == s.(mapInfo := t.mapInfo, mapAddr := t.mapAddr, vRandom := t.vRandom, nNew := s.nNew - 1)
  {
    hide LinksOk, EntriesOk, TriedOk, NewOk, CountsOk;
    DeletePossible(s, id);
    var last := |s.vRandom| - 1;
    SwapKeeps(s, s.mapInfo[id].nRandomPos, last, loose, k);
    var s1 := SwapRandom(s, s.mapInfo[id].nRandomPos, last);
    var t := Delete(s, id);
    assert SameButPos(s.mapInfo[id], s1.mapInfo[id]);
    assert Dropped(s1, t, id);
    DeleteLinks(s1, t, id);
    DeleteTables(s1, t, id, loose, k);
  }

  ghost predicate Dropped(s: State, t: State, id: int) {
    && id in s.mapInfo && |s.vRandom| > 0 && s.vRandom[|s.vRandom| - 1] == id
    && t == s.(vRandom := s.vRandom[..|s.vRandom| - 1], mapAddr := s.mapAddr - {s.Key(s.mapInfo[id].addr)},
               mapInfo := s.mapInfo - {id}, nNew := s.nNew - 1)
  }

  lemma DeleteLinks(s: State, t: State, id: int)
    requires LinksOk(s) && Dropped(s, t, id)
    ensures LinksOk(t)
  {
    assert LinkOk(s, id);
    forall x | x in t.mapInfo ensures LinkOk(t, x) {
      assert LinkOk(s, x);
    }
  }

  lemma Unreferenced(s: State, id: int, loose: set<int>)
    requires NewOk(s, loose) && id in s.mapInfo && !s.mapInfo[id].fInTried && s.mapInfo[id].nRefCount == 0
    ensures forall b, q :: 0 <= b < NEW_BUCKET_COUNT && 0 <= q < BUCKET_SIZE ==> s.vvNew[b][q] != id || id == EMPTY
  {
    assert RefsOk(s, id, if id in loose then 0 else 1);
    forall b, q | 0 <= b < NEW_BUCKET_COUNT && 0 <= q < BUCKET_SIZE ensures s.vvNew[b][q] != id || id == EMPTY {
      assert NewSlotOk(s, b, q);
      assert b !in Refs(s.p, s.vvNew, id, s.mapInfo[id].addr);
    }
  }

  lemma DeleteTables(s: State, t: State, id: int, loose: set<int>, k: int)
    requires EntriesOk(s) && TriedOk(s) && NewOk(s, loose) && CountsOk(s, k)
    requires Dropped(s, t, id) && id in loose && s.mapInfo[id].nRefCount == 0
    ensures EntriesOk(t) && TriedOk(t) && NewOk(t, loose - {id}) && CountsOk(t, k)
  {
    assert TriedIds(t) == TriedIds(s);
    assert NewIds(t) == NewIds(s) - {id};
    Unreferenced(s, id, loose);
    forall b, q | 0 <= b < TRIED_BUCKET_COUNT && 0 <= q < BUCKET_SIZE ensures TriedSlotOk(t, b, q) {
      assert TriedSlotOk(s, b, q);
    }
    forall b, q | 0 <= b < NEW_BUCKET_COUNT && 0 <= q < BUCKET_SIZE ensures NewSlotOk(t, b, q) {
      assert NewSlotOk(s, b, q);
    }
    forall x | x in t.mapInfo && !t.mapInfo[x].fInTried ensures RefsOk(t, x, if x in loose - {id} then 0 else 1) {
      assert RefsOk(s, x, if x in loose then 0 else 1);
    }
    forall x | x in t.mapInfo && t.mapInfo[x].fInTried ensures Seated(t, x) {
      assert Seated(s, x);
    }
  }

  /** The index structures agree: same keys, addresses and random positions. */
  ghost predicate SameLinks(s: State, t: State) {
    && t.discriminatePorts == s.discriminatePorts && t.mapAddr == s.mapAddr && t.vRandom == s.vRandom
    && t.mapInfo.Keys == s.mapInfo.Keys
    && forall id :: id in s.mapInfo ==>
         t.mapInfo[id].addr == s.mapInfo[id].addr && t.mapInfo[id].nRandomPos == s.mapInfo[id].nRandomPos
  }

  lemma LinksFrame(s: State, t: State)
    requires LinksOk(s) && SameLinks(s, t)
    ensures LinksOk(t)
  {
    forall x | x in t.mapInfo ensures LinkOk(t, x) {
      assert LinkOk(s, x);
    }
    forall i | 0 <= i < |t.vRandom| ensures t.vRandom[i] in t.mapInfo && t.mapInfo[t.vRandom[i]].nRandomPos == i {
      var id := s.vRandom[i];
      assert id in s.mapInfo && s.mapInfo[id].nRandomPos == i;
    }
    forall a | a in t.mapAddr ensures t.mapAddr[a] in t.mapInfo && t.Key(t.mapInfo[t.mapAddr[a]].addr) == a {
      var id := s.mapAddr[a];
      assert id in s.mapInfo && s.Key(s.mapInfo[id].addr) == a;
    }
  }

  /** The tried table and the entries in it agree. */
  ghost predicate SameTried(s: State, t: State) {
    && t.p == s.p && t.vvTried == s.vvTried
    && t.mapInfo.Keys == s.mapInfo.Keys
    && forall id :: id in s.mapInfo ==>
         && t.mapInfo[id].fInTried == s.mapInfo[id].fInTried
         && (s.mapInfo[id].fInTried ==>
              t.mapInfo[id].addr == s.mapInfo[id].addr && t.mapInfo[id].nRefCount == s.mapInfo[id].nRefCount
                                        && t.mapInfo[id].nLastSuccess != 0)
  }

  lemma TriedFrame(s: State, t: State)
    requires TriedOk(s) && SameTried(s, t)
    ensures TriedOk(t)
  {
    forall b, q | 0 <= b < TRIED_BUCKET_COUNT && 0 <= q < BUCKET_SIZE ensures TriedSlotOk(t, b, q) {
      assert TriedSlotOk(s, b, q);
    }
    forall x | x in t.mapInfo && t.mapInfo[x].fInTried ensures Seated(t, x) {
      assert Seated(s, x);
    }
  }

  // ----- one slot of the new table -----

  /** t is s with slot (b, q) of the new table set to v, the reference counts adjusted to match. */
  ghost predicate SlotChanged(s: State, t: State, b: nat, q: nat, v: int) {
    && Within(s.vvNew, b, q) && t.vvNew == Put(s.vvNew, b, q, v)
    && t == s.(mapInfo := t.mapInfo, vvNew := t.vvNew, nNew := t.nNew)
    && t.mapInfo.Keys == s.mapInfo.Keys
    && forall id :: id in s.mapInfo ==>
         t.mapInfo[id] == s.mapInfo[id].(nRefCount := s.mapInfo[id].nRefCount
           + (if id == v then 1 else 0) - (if id == s.vvNew[b][q] then 1 else 0))
  }

  /** v may enter slot (b, q). */
  predicate MayEnter(s: State, b: nat, q: nat, v: int) {
    v == EMPTY ||
    (v in s.mapInfo && !s.mapInfo[v].fInTried && s.mapInfo[v].nRefCount < NEW_BUCKETS_PER_ADDRESS &&
      q == s.p.Position(true, b, s.mapInfo[v].addr))
  }

  function LooseAfter(loose: set<int>, out: int, v: int): set<int> {
    (if out == EMPTY then loose else loose + {out}) - {v}
  }

  /** The number of buckets holding x changes with the slot exactly as x's reference count does. */
  lemma RefsCount(p: Placement, t: Table, b: nat, q: nat, v: int, x: int, a: Service)
    requires Shape(t, NEW_BUCKET_COUNT) && b < NEW_BUCKET_COUNT && q < BUCKET_SIZE && t[b][q] != v
    requires x == v || x == t[b][q] ==> p.Position(true, b, a) == q
    ensures Shape(Put(t, b, q, v), NEW_BUCKET_COUNT)
    ensures |Refs(p, Put(t, b, q, v), x, a)| ==
      |Refs(p, t, x, a)| + (if x == v then 1 else 0) - (if x == t[b][q] then 1 else 0)
  {
    var r := Refs(p, t, x, a);
    RefsPut(p, t, b, q, v, x, a);
    if x == v {
      assert b !in r;
    } else if x == t[b][q] {
      assert b in r;
    } else {
      assert p.Position(true, b, a) == q ==> b !in r;
      assert r - {b} == r || p.Position(true, b, a) != q;
    }
  }

  lemma SlotChangeNew(s: State, t: State, b: nat, q: nat, v: int, loose: set<int>)
    requires NewOk(s, loose) && EntriesOk(s) && SlotChanged(s, t, b, q, v) && s.vvNew[b][q] != v && MayEnter(s, b, q, v)
    ensures NewOk(t, LooseAfter(loose, s.vvNew[b][q], v))
  {
    var loose' := LooseAfter(loose, s.vvNew[b][q], v);
    assert NewSlotOk(s, b, q);
    forall c, r | 0 <= c < NEW_BUCKET_COUNT && 0 <= r < BUCKET_SIZE ensures NewSlotOk(t, c, r) {
      assert NewSlotOk(s, c, r);
    }
    forall x | x in t.mapInfo && !t.mapInfo[x].fInTried ensures RefsOk(t, x, if x in loose' then 0 else 1) {
      assert RefsOk(s, x, if x in loose then 0 else 1);
      RefsCount(s.p, s.vvNew, b, q, v, x, s.mapInfo[x].addr);
    }
  }

  lemma SlotChangeKeeps(s: State, t: State, b: nat, q: nat, v: int, loose: set<int>, k: int)
    requires Core(s, loose, k) && SlotChanged(s, t, b, q, v) && s.vvNew[b][q] != v && MayEnter(s, b, q, v)
    ensures Core(t, LooseAfter(loose, s.vvNew[b][q], v), k + s.nNew - t.nNew)
  {
    assert NewSlotOk(s, b, q);
    hide LinksOk, TriedOk, NewOk;
    SlotChangeNew(s, t, b, q, v, loose);
    SameIds(s, t);
    LinksFrame(s, t);
    TriedFrame(s, t);
  }

  // ----- the table operations -----

  ghost predicate NoRefs(s: State, loose: set<int>) {
    forall x :: x in loose ==> x in s.mapInfo && s.mapInfo[x].nRefCount == 0
  }

  /** t is s after slot (b, q) of the new table lost its entry: only that entry's count drops, and it
      disappears exactly when this was its last reference. */
  ghost predicate Released(s: State, t: State, b: nat, q: nat) {
    && Within(s.vvNew, b, q) && t.vvNew == Put(s.vvNew, b, q, EMPTY)
    && t == s.(mapInfo := t.mapInfo, mapAddr := t.mapAddr, vRandom := t.vRandom, nNew := t.nNew, vvNew := t.vvNew)
    && t.mapInfo.Keys <= s.mapInfo.Keys
    && (forall x :: x in s.mapInfo && x != s.vvNew[b][q] ==> x in t.mapInfo && SameButPos(s.mapInfo[x], t.mapInfo[x]))
    && (forall x :: x in s.mapInfo && x == s.vvNew[b][q] ==>
          if s.mapInfo[x].nRefCount == 1 then x !in t.mapInfo
          else x in t.mapInfo && SameButPos(s.mapInfo[x].(nRefCount := s.mapInfo[x].nRefCount - 1), t.mapInfo[x]))
  }

  lemma Tighten(s: State, loose: set<int>, x: int)
    requires NewOk(s, loose) && x in s.mapInfo && s.mapInfo[x].nRefCount >= 1
    ensures NewOk(s, loose - {x})
  {
    forall id | id in s.mapInfo && !s.mapInfo[id].fInTried ensures RefsOk(s, id, if id in loose - {x} then 0 else 1) {
      assert RefsOk(s, id, if id in loose then 0 else 1);
    }
  }

  lemma SlotHolder(s: State, b: nat, q: nat, loose: set<int>, k: int)
    requires Core(s, loose, k) && b < NEW_BUCKET_COUNT && q < BUCKET_SIZE
    ensures Within(s.vvNew, b, q) && EMPTY !in s.mapInfo
    ensures var x := s.vvNew[b][q];
      x == EMPTY || (x in s.mapInfo && s.mapInfo[x].nRefCount >= 1 && !s.mapInfo[x].fInTried && DeleteOk(s, x))
  {
    var x := s.vvNew[b][q];
    assert NewSlotOk(s, b, q);
    if x != EMPTY {
      assert RefsOk(s, x, if x in loose then 0 else 1);
      assert b in Refs(s.p, s.vvNew, x, s.mapInfo[x].addr);
      DeletePossible(s, x);
    }
  }

  lemma ClearNewKeeps(s: State, b: nat, q: nat, loose: set<int>, k: int)
    requires Core(s, loose, k) && NoRefs(s, loose) && b < NEW_BUCKET_COUNT && q < BUCKET_SIZE
    ensures ClearNewOk(s, b, q) && Core(ClearNew(s, b, q), loose, k) && Released(s, ClearNew(s, b, q), b, q)
  {
    hide LinksOk, EntriesOk, TriedOk, NewOk, CountsOk;
    SlotHolder(s, b, q, loose, k);
    var x := s.vvNew[b][q];
    var t := ClearNew(s, b, q);
    if x == EMPTY {
      assert s.vvNew[b][q := EMPTY] == s.vvNew[b];
      assert Put(s.vvNew, b, q, EMPTY) == s.vvNew;
    } else {
      var s1 := s.SetInfo(x, s.mapInfo[x].(nRefCount := s.mapInfo[x].nRefCount - 1))
        .(vvNew := Put(s.vvNew, b, q, EMPTY));
      assert SlotChanged(s, s1, b, q, EMPTY);
      SlotChangeKeeps(s, s1, b, q, EMPTY, loose, k);
      ClearedEntry(s, s1, x, b, q, loose, k);
    }
  }

  lemma ClearedEntry(s: State, s1: State, x: int, b: nat, q: nat, loose: set<int>, k: int)
    requires SlotChanged(s, s1, b, q, EMPTY) && x in s.mapInfo && s.vvNew[b][q] == x != EMPTY && x !in loose
    requires Core(s1, LooseAfter(loose, x, EMPTY), k) && s.mapInfo[x].nRefCount >= 1 && s1.nNew == s.nNew
    requires EMPTY !in s.mapInfo && EMPTY !in loose
    ensures s.mapInfo[x].nRefCount > 1 ==> Core(s1, loose, k) && Released(s, s1, b, q)
    ensures s.mapInfo[x].nRefCount == 1 ==>
      DeleteOk(s1, x) && Core(Delete(s1, x), loose, k) && Released(s, Delete(s1, x), b, q)
  {
    hide LinksOk, EntriesOk, TriedOk, NewOk, CountsOk;
    assert LooseAfter(loose, x, EMPTY) - {x} == loose;
    if s.mapInfo[x].nRefCount > 1 {
      Tighten(s1, LooseAfter(loose, x, EMPTY), x);
    } else {
      DeleteKeeps(s1, x, LooseAfter(loose, x, EMPTY), k);
      forall y | y in s.mapInfo && y != x ensures y in Delete(s1, x).mapInfo &&
        SameButPos(s.mapInfo[y], Delete(s1, x).mapInfo[y]) {
        assert y in s1.mapInfo - {x};
      }
    }
  }
}
