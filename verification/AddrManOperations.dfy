/** The address manager's larger calls as state transformers, and that each of them keeps the invariant. */
module AddrManOperations {
  import opened AddrManState
  import opened AddrManInvariant
  import opened Collections
  import Powers

  // ----- moving an entry between the tables -----

  lemma StrippedRefs(p: Placement, t: Table, id: int, a: Service, x: int, ax: Service)
    requires Shape(t, NEW_BUCKET_COUNT) && x != EMPTY && (x == id ==> ax == a)
    ensures Refs(p, Stripped(p, t, id, a, NEW_BUCKET_COUNT), x, ax) == if x == id then {} else Refs(p, t, x, ax)
  {
  }

  lemma WithdrawNew(s: State, id: int)
    requires NewOk(s, {}) && EntriesOk(s) && id in s.mapInfo && !s.mapInfo[id].fInTried
    ensures NewOk(Withdraw(s, id), {id}) && Withdraw(s, id).mapInfo[id].nRefCount == 0
  {
    var t := Withdraw(s, id);
    var a := s.mapInfo[id].addr;
    forall b, q | 0 <= b < NEW_BUCKET_COUNT && 0 <= q < BUCKET_SIZE ensures NewSlotOk(t, b, q) {
      assert NewSlotOk(s, b, q);
    }
    forall x | x in t.mapInfo && !t.mapInfo[x].fInTried ensures RefsOk(t, x, if x in {id} then 0 else 1) {
      assert RefsOk(s, x, 1);
      StrippedRefs(s.p, s.vvNew, id, a, x, s.mapInfo[x].addr);
    }
  }

  lemma WithdrawKeeps(s: State, id: int)
    requires Core(s, {}, 0) && id in s.mapInfo && !s.mapInfo[id].fInTried
    ensures Shape(s.vvNew, NEW_BUCKET_COUNT) && Shape(s.vvTried, TRIED_BUCKET_COUNT)
    ensures id in Withdraw(s, id).mapInfo && Core(Withdraw(s, id), {id}, 1) &&
      Withdraw(s, id).mapInfo[id] == s.mapInfo[id].(nRefCount := 0)
  {
    var t := Withdraw(s, id);
    hide LinksOk, TriedOk, NewOk;
    WithdrawNew(s, id);
    SameIds(s, t);
    LinksFrame(s, t);
    TriedFrame(s, t);
  }

  lemma UnseatTried(s: State, b: nat, q: nat)
    requires TriedOk(s) && b < TRIED_BUCKET_COUNT && q < BUCKET_SIZE && s.vvTried[b][q] != EMPTY
    ensures s.vvTried[b][q] in s.mapInfo && s.mapInfo[s.vvTried[b][q]].fInTried
    ensures s.TriedSlot(s.mapInfo[s.vvTried[b][q]].addr) == (b, q) && s.mapInfo[s.vvTried[b][q]].nRefCount == 0
    ensures TriedOk(Unseat(s, b, q))
  {
    var id := s.vvTried[b][q];
    assert TriedSlotOk(s, b, q) && Seated(s, id);
    var t := Unseat(s, b, q);
    forall c, r | 0 <= c < TRIED_BUCKET_COUNT && 0 <= r < BUCKET_SIZE ensures TriedSlotOk(t, c, r) {
      assert TriedSlotOk(s, c, r);
    }
    forall x | x in t.mapInfo && t.mapInfo[x].fInTried ensures Seated(t, x) {
      assert Seated(s, x);
      var bq := s.TriedSlot(s.mapInfo[x].addr);
      assert TriedSlotOk(s, bq.0, bq.1);
    }
  }

  lemma UnseatNew(s: State, id: int, t: State, loose: set<int>)
    requires NewOk(s, loose) && id in s.mapInfo && s.mapInfo[id].fInTried && s.mapInfo[id].nRefCount == 0 && id != EMPTY
    requires t == s.SetInfo(id, s.mapInfo[id].(fInTried := false)).(vvTried := t.vvTried, nTried := t.nTried)
    ensures NewOk(t, loose + {id})
  {
    forall c, r | 0 <= c < NEW_BUCKET_COUNT && 0 <= r < BUCKET_SIZE ensures NewSlotOk(t, c, r) {
      assert NewSlotOk(s, c, r);
    }
    forall x | x in t.mapInfo && !t.mapInfo[x].fInTried ensures RefsOk(t, x, if x in loose + {id} then 0 else 1) {
      if x == id {
        forall c | 0 <= c < NEW_BUCKET_COUNT ensures c !in Refs(t.p, t.vvNew, id, t.mapInfo[id].addr) {
          assert NewSlotOk(s, c, s.p.Position(true, c, s.mapInfo[id].addr));
        }
        assert Refs(t.p, t.vvNew, id, t.mapInfo[id].addr) == {};
      } else {
        assert RefsOk(s, x, if x in loose then 0 else 1);
      }
    }
  }

  /** Flipping one entry's table flag moves it between the two id sets. */
  lemma FlipIds(s: State, t: State, id: int, i: Info)
    requires id in s.mapInfo && t.mapInfo == s.mapInfo[id := i] && i.fInTried != s.mapInfo[id].fInTried
    ensures |TriedIds(t)| == |TriedIds(s)| + (if i.fInTried then 1 else -1)
    ensures |NewIds(t)| == |NewIds(s)| - (if i.fInTried then 1 else -1)
  {
    if i.fInTried {
      assert TriedIds(t) == TriedIds(s) + {id} && NewIds(t) == NewIds(s) - {id};
    } else {
      assert TriedIds(t) == TriedIds(s) - {id} && NewIds(t) == NewIds(s) + {id};
    }
  }

  lemma UnseatKeeps(s: State, b: nat, q: nat, loose: set<int>, k: int)
    requires Core(s, loose, k) && b < TRIED_BUCKET_COUNT && q < BUCKET_SIZE && s.vvTried[b][q] != EMPTY
    ensures var id := s.vvTried[b][q];
      id in s.mapInfo && id !in loose && s.mapInfo[id].nRefCount == 0 && Core(Unseat(s, b, q), loose + {id}, k + 1)
  {
    var id := s.vvTried[b][q];
    UnseatTried(s, b, q);
    assert id !in loose;
    hide LinksOk, TriedOk, NewOk;
    var t := Unseat(s, b, q);
    FlipIds(s, t, id, t.mapInfo[id]);
    LinksFrame(s, t);
    UnseatNew(s, id, t, loose);
  }

  /** An entry without references enters an empty slot of the new table. */
  lemma EnterKeeps(s: State, id: int, b: nat, q: nat, nNew: int, loose: set<int>, k: int)
    requires Core(s, loose, k) && id in s.mapInfo && MayEnter(s, b, q, id) && id != EMPTY && b < NEW_BUCKET_COUNT &&
      q < BUCKET_SIZE
    requires Within(s.vvNew, b, q) && s.vvNew[b][q] == EMPTY
    ensures Core(s.SetInfo(id, s.mapInfo[id].(nRefCount := s.mapInfo[id].nRefCount + 1))
        .(vvNew := Put(s.vvNew, b, q, id), nNew := nNew),
                 loose - {id}, k + s.nNew - nNew)
  {
    hide LinksOk, EntriesOk, TriedOk, NewOk, CountsOk;
    var t := s.SetInfo(id, s.mapInfo[id].(nRefCount := s.mapInfo[id].nRefCount + 1))
      .(vvNew := Put(s.vvNew, b, q, id), nNew := nNew);
    SlotHolder(s, b, q, loose, k);
    assert SlotChanged(s, t, b, q, id);
    SlotChangeKeeps(s, t, b, q, id, loose, k);
  }

  lemma DemoteKeeps(s: State, id: int, loose: set<int>, k: int)
    requires Core(s, loose, k) && NoRefs(s, loose) && id in loose && id in s.mapInfo && !s.mapInfo[id].fInTried
    ensures DemoteOk(s, id) && Core(Demote(s, id), loose - {id}, k - 1)
    ensures var bq := HomeSlot(s, id); Released(s, ClearNew(s, bq.0, bq.1), bq.0, bq.1) && s.vvNew[bq.0][bq.1] != id
    ensures var bq := HomeSlot(s, id); Core(ClearNew(s, bq.0, bq.1), loose, k)
  {
    hide LinksOk, EntriesOk, TriedOk, NewOk, CountsOk;
    var bq := HomeSlot(s, id);
    SlotHolder(s, bq.0, bq.1, loose, k);
    ClearNewKeeps(s, bq.0, bq.1, loose, k);
    var s1 := ClearNew(s, bq.0, bq.1);
    assert SameButPos(s.mapInfo[id], s1.mapInfo[id]);
    SlotHolder(s1, bq.0, bq.1, loose, k);
    EnterKeeps(s1, id, bq.0, bq.1, s1.nNew + 1, loose, k);
  }

  lemma SeatTried(s: State, id: int)
    requires TriedOk(s) && EntriesOk(s) && id in s.mapInfo && !s.mapInfo[id].fInTried &&
      !Occupied(s, s.mapInfo[id].addr) && id != EMPTY
    requires s.mapInfo[id].nRefCount == 0 && s.mapInfo[id].nLastSuccess != 0
    ensures TriedOk(Seat(s, id))
  {
    var t := Seat(s, id);
    forall c, r | 0 <= c < TRIED_BUCKET_COUNT && 0 <= r < BUCKET_SIZE ensures TriedSlotOk(t, c, r) {
      assert TriedSlotOk(s, c, r);
    }
    forall x | x in t.mapInfo && t.mapInfo[x].fInTried ensures Seated(t, x) {
      if x != id {
        assert Seated(s, x);
      }
    }
  }

  lemma SeatNew(s: State, id: int, loose: set<int>)
    requires NewOk(s, loose) && Shape(s.vvTried, TRIED_BUCKET_COUNT) && id in loose && id in s.mapInfo &&
      s.mapInfo[id].nRefCount == 0 && id != EMPTY
    ensures NewOk(Seat(s, id), loose - {id})
  {
    var t := Seat(s, id);
    Unreferenced(s, id, loose);
    forall c, r | 0 <= c < NEW_BUCKET_COUNT && 0 <= r < BUCKET_SIZE ensures NewSlotOk(t, c, r) {
      assert NewSlotOk(s, c, r);
    }
    forall x | x in t.mapInfo && !t.mapInfo[x].fInTried ensures RefsOk(t, x, if x in loose - {id} then 0 else 1) {
      assert RefsOk(s, x, if x in loose then 0 else 1);
    }
  }

  lemma SeatKeeps(s: State, id: int, loose: set<int>, k: int)
    requires Core(s, loose, k) && id in loose && id in s.mapInfo && s.mapInfo[id].nRefCount == 0 &&
      s.mapInfo[id].nLastSuccess != 0
    requires !Occupied(s, s.mapInfo[id].addr)
    ensures Core(Seat(s, id), loose - {id}, k - 1)
  {
    assert !s.mapInfo[id].fInTried;
    hide LinksOk, TriedOk, NewOk;
    var t := Seat(s, id);
    FlipIds(s, t, id, t.mapInfo[id]);
    SeatTried(s, id);
    SeatNew(s, id, loose);
    LinksFrame(s, t);
  }

  // ----- MakeTried -----

  ghost function MakeTried(s: State, id: int): State
    requires Core(s, {}, 0) && id in s.mapInfo && !s.mapInfo[id].fInTried
  {
    WithdrawKeeps(s, id);
    var s1 := Withdraw(s, id);
    var bq := s1.TriedSlot(s1.mapInfo[id].addr);
    if s1.vvTried[bq.0][bq.1] == EMPTY then Seat(s1, id)
    else
      UnseatKeeps(s1, bq.0, bq.1, {id}, 1);
      var out := s1.vvTried[bq.0][bq.1];
      var s2 := Unseat(s1, bq.0, bq.1);
      DemoteKeeps(s2, out, {id} + {out}, 2);
      Seat(Demote(s2, out), id)
  }

  /** What MakeTried changes: id takes its tried slot and leaves the new table; the entry it displaces
      takes one reference at its home slot; the entry losing that slot drops one reference, and is the
      only one that can disappear. */
  ghost predicate Promoted(s: State, t: State, id: int)
    requires id in s.mapInfo && Shape(s.vvTried, TRIED_BUCKET_COUNT) && Shape(s.vvNew, NEW_BUCKET_COUNT)
  {
    var i := s.mapInfo[id];
    var bq := s.TriedSlot(i.addr);
    var out := s.vvTried[bq.0][bq.1];
    var stripped := Stripped(s.p, s.vvNew, id, i.addr, NEW_BUCKET_COUNT);
    && t.vvTried == Put(s.vvTried, bq.0, bq.1, id)
    && t == s.(mapInfo := t.mapInfo, mapAddr := t.mapAddr, vRandom := t.vRandom, nTried := t.nTried, nNew := t.nNew,
               vvTried := t.vvTried, vvNew := t.vvNew)
    && (out == EMPTY ==> t.vvNew == stripped && t.mapInfo == s.mapInfo[id := i.(nRefCount := 0, fInTried := true)])
    && (out != EMPTY ==> out in s.mapInfo)
    && (out != EMPTY ==> t.vvNew == Put(stripped, HomeSlot(s, out).0, HomeSlot(s, out).1, out))
    && (out != EMPTY ==> Displaced(s.mapInfo, t.mapInfo, id, out, stripped[HomeSlot(s, out).0][HomeSlot(s, out).1]))
  }

  /** The entries after id displaced out, which in turn took the new-table slot of loser. */
  ghost predicate Displaced(m: map<int, Info>, n: map<int, Info>, id: int, out: int, loser: int)
    requires id in m && out in m
  {
    && n.Keys <= m.Keys && id in n && out in n
    && SameButPos(n[id], m[id].(nRefCount := 0, fInTried := true))
    && SameButPos(n[out], m[out].(nRefCount := 1, fInTried := false))
    && (forall x :: x in m && x != id && x != out && x != loser ==> x in n && SameButPos(n[x], m[x]))
    && (loser in m ==>
          if m[loser].nRefCount == 1 then loser !in n
          else loser in n && SameButPos(n[loser], m[loser].(nRefCount := m[loser].nRefCount - 1)))
  }

  lemma DisplacedInfos(s: State, s2: State, s3: State, t: State, id: int, out: int, b: nat, q: nat)
    requires id in s.mapInfo && out in s.mapInfo && id != out
    requires s2.mapInfo == s.mapInfo[id := s.mapInfo[id].(nRefCount := 0)][out := s.mapInfo[out].(fInTried := false)]
    requires Released(s2, s3, b, q) && s2.vvNew[b][q] != id && s2.vvNew[b][q] != out
    requires id in s3.mapInfo && out in s3.mapInfo
    requires t.mapInfo == s3.mapInfo[out := s3.mapInfo[out].(nRefCount := 1)][id := s3.mapInfo[id].(fInTried := true)]
    ensures Displaced(s.mapInfo, t.mapInfo, id, out, s2.vvNew[b][q])
  {
    assert SameButPos(s2.mapInfo[id], s3.mapInfo[id]) && SameButPos(s2.mapInfo[out], s3.mapInfo[out]);
  }

  lemma MakeTriedKeeps(s: State, id: int)
    requires Core(s, {}, 0) && id in s.mapInfo && !s.mapInfo[id].fInTried && s.mapInfo[id].nLastSuccess != 0
    ensures Core(MakeTried(s, id), {}, 0)
  {
    hide LinksOk, EntriesOk, NewOk, CountsOk;
    WithdrawKeeps(s, id);
    var s1 := Withdraw(s, id);
    var bq := s1.TriedSlot(s.mapInfo[id].addr);
    assert {id} - {id} == {};
    if s1.vvTried[bq.0][bq.1] == EMPTY {
      SeatKeeps(s1, id, {id}, 1);
    } else {
      UnseatKeeps(s1, bq.0, bq.1, {id}, 1);
      var out := s1.vvTried[bq.0][bq.1];
      var s2 := Unseat(s1, bq.0, bq.1);
      DemoteKeeps(s2, out, {id} + {out}, 2);
      DemoteFrame(s2, out, id, {id} + {out}, 2);
      assert ({id} + {out}) - {out} == {id};
      SeatKeeps(Demote(s2, out), id, {id}, 1);
    }
  }

  /** Demote leaves the tried table and every other unreferenced entry alone. */
  lemma DemoteFrame(s: State, out: int, id: int, loose: set<int>, k: int)
    requires Core(s, loose, k) && NoRefs(s, loose) && out in loose && id in loose && id != out
    requires id in s.mapInfo && out in s.mapInfo && !s.mapInfo[out].fInTried
    ensures DemoteOk(s, out)
    ensures var t := Demote(s, out);
      id in t.mapInfo && SameButPos(s.mapInfo[id], t.mapInfo[id]) && t.vvTried == s.vvTried && t.p == s.p
  {
    hide LinksOk, EntriesOk, TriedOk, CountsOk;
    DemoteKeeps(s, out, loose, k);
    var home := HomeSlot(s, out);
    NotInHome(s, id, home.0, home.1, loose, k);
  }

  lemma PromotedIntoEmpty(s: State, id: int)
    requires Core(s, {}, 0) && id in s.mapInfo && !s.mapInfo[id].fInTried && !Occupied(s, s.mapInfo[id].addr)
    ensures Promoted(s, MakeTried(s, id), id)
  {
    hide LinksOk, EntriesOk, NewOk, CountsOk;
    WithdrawKeeps(s, id);
  }

  lemma PromotedDisplacing(s: State, id: int)
    requires Core(s, {}, 0) && id in s.mapInfo && !s.mapInfo[id].fInTried && Occupied(s, s.mapInfo[id].addr)
    ensures Promoted(s, MakeTried(s, id), id)
  {
    hide LinksOk, EntriesOk, NewOk, CountsOk;
    WithdrawKeeps(s, id);
    var s1 := Withdraw(s, id);
    var bq := s1.TriedSlot(s.mapInfo[id].addr);
    UnseatKeeps(s1, bq.0, bq.1, {id}, 1);
    var out := s1.vvTried[bq.0][bq.1];
    var s2 := Unseat(s1, bq.0, bq.1);
    DemoteKeeps(s2, out, {id} + {out}, 2);
    DemoteFrame(s2, out, id, {id} + {out}, 2);
    var home := HomeSlot(s2, out);
    NotInHome(s2, id, home.0, home.1, {id} + {out}, 2);
    var s3 := ClearNew(s2, home.0, home.1);
    DisplacedInfos(s, s2, s3, MakeTried(s, id), id, out, home.0, home.1);
    PutPut(s2.vvNew, home.0, home.1, EMPTY, out);
    PutPut(s.vvTried, bq.0, bq.1, EMPTY, id);
  }

  lemma PutPut(t: Table, b: nat, q: nat, v: int, w: int)
    requires Within(t, b, q)
    ensures Put(Put(t, b, q, v), b, q, w) == Put(t, b, q, w)
  {
    assert t[b][q := v][q := w] == t[b][q := w];
  }

  lemma NotInHome(s: State, id: int, b: nat, q: nat, loose: set<int>, k: int)
    requires Core(s, loose, k) && id in loose && id in s.mapInfo && s.mapInfo[id].nRefCount == 0 &&
      b < NEW_BUCKET_COUNT && q < BUCKET_SIZE
    ensures s.vvNew[b][q] != id && id != EMPTY
  {
    Unreferenced(s, id, loose);
  }

  /** Every occupied tried slot stays occupied, and no entry changes its address. */
  lemma PromotedPending(s: State, t: State, id: int)
    requires Core(s, {}, 0) && TriedOk(t) && PendingOk(s) && id in s.mapInfo && id != EMPTY && Promoted(s, t, id)
    ensures PendingOk(t)
  {
    forall c | c in t.collisions && c in t.mapInfo ensures Occupied(t, t.mapInfo[c].addr) {
      assert c in s.mapInfo && t.mapInfo[c].addr == s.mapInfo[c].addr;
      assert Occupied(s, s.mapInfo[c].addr);
    }
  }

  lemma MakeTriedInv(s: State, id: int)
    requires Inv(s) && id in s.mapInfo && !s.mapInfo[id].fInTried && s.mapInfo[id].nLastSuccess != 0
    ensures Inv(MakeTried(s, id)) && Promoted(s, MakeTried(s, id), id)
  {
    assert id != EMPTY;
    hide LinksOk, EntriesOk, NewOk, CountsOk;
    MakeTriedKeeps(s, id);
    if Occupied(s, s.mapInfo[id].addr) {
      PromotedDisplacing(s, id);
    } else {
      PromotedIntoEmpty(s, id);
    }
    PromotedPending(s, MakeTried(s, id), id);
  }

  // ----- Good -----

  /** Statistics and the collision set may change freely, as long as pending collisions stay sound. */
  lemma StatsKeep(s: State, t: State)
    requires Core(s, {}, 0) && SlotsFrame(s, t) && SameLinks(s, t)
    requires TriedOk(t) ==> PendingOk(t)
    ensures Inv(t)
  {
    hide LinksOk, EntriesOk, TriedOk, NewOk, CountsOk;
    LinksFrame(s, t);
    TablesFrame(s, t, {}, 0);
  }

  lemma TouchKeeps(s: State, id: int, j: Info, time: int)
    requires Inv(s) && id in s.mapInfo && SameSlots(s.mapInfo[id], j) && j.nRandomPos == s.mapInfo[id].nRandomPos
    ensures Inv(s.SetInfo(id, j).(nLastGood := time))
  {
    var t := s.SetInfo(id, j).(nLastGood := time);
    hide LinksOk, EntriesOk, NewOk, CountsOk;
    forall c | c in t.collisions && c in t.mapInfo ensures Occupied(t, t.mapInfo[c].addr) {
      assert Occupied(s, s.mapInfo[c].addr);
    }
    StatsKeep(s, t);
  }

  lemma LastGoodKeeps(s: State, time: int)
    requires Inv(s)
    ensures Inv(s.(nLastGood := time))
  {
    var t := s.(nLastGood := time);
    hide LinksOk, EntriesOk, NewOk, CountsOk;
    forall c | c in t.collisions && c in t.mapInfo ensures Occupied(t, t.mapInfo[c].addr) {
      assert Occupied(s, s.mapInfo[c].addr);
    }
    StatsKeep(s, t);
  }

  ghost function Good(s: State, a: Service, testBeforeEvict: bool, time: int): State
    requires Inv(s) && time > 0
  {
    var s0 := s.(nLastGood := time);
    match s.FindExact(a)
    case None => s0
    case Some(id) =>
      var s1 := s0.SetInfo(id, Succeeded(s.mapInfo[id], time));
      TouchKeeps(s, id, Succeeded(s.mapInfo[id], time), time);
      if s1.mapInfo[id].fInTried then s1
      else if testBeforeEvict && Occupied(s1, a) then
        (if |s1.collisions| < SET_TRIED_COLLISION_SIZE then s1.(collisions := s1.collisions + {id}) else s1)
      else MakeTried(s1, id)
  }

  lemma AddPending(s: State, id: int)
    requires Inv(s) && id in s.mapInfo && Occupied(s, s.mapInfo[id].addr) && |s.collisions| < SET_TRIED_COLLISION_SIZE
    ensures Inv(s.(collisions := s.collisions + {id}))
  {
    var t := s.(collisions := s.collisions + {id});
    assert 0 <= id < t.nIdCount;
    hide LinksOk, EntriesOk, NewOk, CountsOk;
    forall c | c in t.collisions && c in t.mapInfo ensures Occupied(t, t.mapInfo[c].addr) {
      assert c != id ==> Occupied(s, s.mapInfo[c].addr);
    }
    StatsKeep(s, t);
  }

  /** Good keeps the invariant. */
  lemma GoodKeeps(s: State, a: Service, testBeforeEvict: bool, time: int)
    requires Inv(s) && time > 0
    ensures Inv(Good(s, a, testBeforeEvict, time))
  {
    hide LinksOk, EntriesOk, NewOk, CountsOk;
    LastGoodKeeps(s, time);
    match s.FindExact(a)
    case None =>
    case Some(id) =>
      TouchKeeps(s, id, Succeeded(s.mapInfo[id], time), time);
      var s1 := s.SetInfo(id, Succeeded(s.mapInfo[id], time)).(nLastGood := time);
      if s1.mapInfo[id].fInTried {
      } else if testBeforeEvict && Occupied(s1, a) {
        if |s1.collisions| < SET_TRIED_COLLISION_SIZE { AddPending(s1, id); }
      } else {
        MakeTriedInv(s1, id);
      }
  }

  // ----- Add -----

  function Loose(novel: bool, id: int): set<int> { if novel then {id} else {} }

  /** A newly created entry, counted as new but not yet in any bucket. */
  function Admit(s: State, a: Address, src: NetAddr, penalty: int): State {
    var t := Create(s, a, src);
    t.SetInfo(s.nIdCount, t.mapInfo[s.nIdCount].(nTime := Stamp(a.nTime - penalty)))
     .(nNew := s.nNew + 1)
  }

  lemma AdmitLinks(s: State, a: Address, src: NetAddr, penalty: int)
    requires LinksOk(s) && EntriesOk(s) && s.Find(a.service).None?
    ensures LinksOk(Admit(s, a, src, penalty)) && s.nIdCount !in s.mapInfo
  {
    var t := Admit(s, a, src, penalty);
    assert s.Key(a.service) !in s.mapAddr;
    forall x | x in t.mapInfo ensures LinkOk(t, x) {
      assert x != s.nIdCount ==> LinkOk(s, x);
    }
  }

  lemma AdmitNew(s: State, a: Address, src: NetAddr, penalty: int)
    requires NewOk(s, {}) && s.nIdCount !in s.mapInfo && s.nIdCount >= 0
    ensures NewOk(Admit(s, a, src, penalty), {s.nIdCount})
  {
    var t := Admit(s, a, src, penalty);
    var id := s.nIdCount;
    forall c, r | 0 <= c < NEW_BUCKET_COUNT && 0 <= r < BUCKET_SIZE ensures NewSlotOk(t, c, r) && s.vvNew[c][r] != id {
      assert NewSlotOk(s, c, r);
    }
    assert Refs(t.p, t.vvNew, id, a.service) == {};
    forall x | x in t.mapInfo && !t.mapInfo[x].fInTried ensures RefsOk(t, x, if x in {id} then 0 else 1) {
      assert x != id ==> RefsOk(s, x, 1);
    }
  }

  lemma AdmitTried(s: State, a: Address, src: NetAddr, penalty: int)
    requires TriedOk(s) && s.nIdCount !in s.mapInfo
    ensures TriedOk(Admit(s, a, src, penalty))
  {
    var t := Admit(s, a, src, penalty);
    forall c, r | 0 <= c < TRIED_BUCKET_COUNT && 0 <= r < BUCKET_SIZE ensures TriedSlotOk(t, c, r) {
      assert TriedSlotOk(s, c, r);
    }
    forall x | x in t.mapInfo && t.mapInfo[x].fInTried ensures Seated(t, x) {
      assert Seated(s, x);
    }
  }

  lemma AdmitCounts(s: State, a: Address, src: NetAddr, penalty: int)
    requires EntriesOk(s) && CountsOk(s, 0) && s.nIdCount !in s.mapInfo
    ensures var t := Admit(s, a, src, penalty); EntriesOk(t) && CountsOk(t, 0)
  {
    var t := Admit(s, a, src, penalty);
    assert TriedIds(t) == TriedIds(s) && NewIds(t) == NewIds(s) + {s.nIdCount};
  }

  lemma AdmitPending(s: State, a: Address, src: NetAddr, penalty: int)
    requires TriedOk(s) && PendingOk(s) && s.nIdCount !in s.mapInfo
    ensures PendingOk(Admit(s, a, src, penalty))
  {
    var t := Admit(s, a, src, penalty);
    forall c | c in t.collisions && c in t.mapInfo ensures Occupied(t, t.mapInfo[c].addr) {
      assert c in s.mapInfo && Occupied(s, s.mapInfo[c].addr);
    }
  }

  lemma AdmitKeeps(s: State, a: Address, src: NetAddr, penalty: int)
    requires Inv(s) && s.Find(a.service).None?
    ensures var t := Admit(s, a, src, penalty);
      Core(t, {s.nIdCount}, 0) && PendingOk(t) && t.mapInfo[s.nIdCount].nRefCount == 0
    ensures s.nIdCount !in s.mapInfo && s.nIdCount >= 0
  {
    assert s.nIdCount >= 0;
    hide LinksOk, EntriesOk, TriedOk, NewOk, CountsOk, PendingOk;
    AdmitLinks(s, a, src, penalty);
    AdmitTried(s, a, src, penalty);
    AdmitNew(s, a, src, penalty);
    AdmitCounts(s, a, src, penalty);
    AdmitPending(s, a, src, penalty);
  }

  /** May the entry being placed take the slot away from the entry that holds it? */
  predicate MayReplace(holder: Info, i: Info, now: int) {
    holder.IsTerrible(now) || (holder.nRefCount > 1 && i.nRefCount == 0)
  }

  /** Give id a further reference in the bucket its announcer selects, if the slot can be had; an entry
      that ends up without any reference is deleted again. */
  ghost function Place(s: State, id: int, src: NetAddr, now: int, novel: bool): State
    requires Core(s, Loose(novel, id), 0) && id in s.mapInfo && !s.mapInfo[id].fInTried &&
      (s.mapInfo[id].nRefCount == 0 <==> novel)
  {
    var i := s.mapInfo[id];
    var b := s.p.NewBucket(i.addr, src);
    var q := s.p.Position(true, b, i.addr);
    SlotHolder(s, b, q, Loose(novel, id), 0);
    var x := s.vvNew[b][q];
    if x == id then s
    else if x == EMPTY || MayReplace(s.mapInfo[x], i, now) then
      ClearNewKeeps(s, b, q, Loose(novel, id), 0);
      var s1 := ClearNew(s, b, q);
      s1.SetInfo(id, s1.mapInfo[id].(nRefCount := i.nRefCount + 1)).(vvNew := Put(s1.vvNew, b, q, id))
    else if i.nRefCount == 0 then
      DeletePossible(s, id);
      Delete(s, id)
    else s
  }

  ghost predicate StillPending(s: State, t: State) {
    && t.collisions == s.collisions && t.vvTried == s.vvTried && t.p == s.p && t.nIdCount == s.nIdCount
    && forall c :: c in t.mapInfo ==> c in s.mapInfo && t.mapInfo[c].addr == s.mapInfo[c].addr
  }

  lemma PendingFrame(s: State, t: State)
    requires TriedOk(s) && TriedOk(t) && PendingOk(s) && StillPending(s, t)
    ensures PendingOk(t)
  {
    forall c | c in t.collisions && c in t.mapInfo ensures Occupied(t, t.mapInfo[c].addr) {
      assert Occupied(s, s.mapInfo[c].addr);
    }
  }

  lemma PlaceKeeps(s: State, id: int, src: NetAddr, now: int, novel: bool)
    requires Core(s, Loose(novel, id), 0) && PendingOk(s) && id in s.mapInfo && !s.mapInfo[id].fInTried
    requires (s.mapInfo[id].nRefCount == 0 <==> novel) && s.mapInfo[id].nRefCount < NEW_BUCKETS_PER_ADDRESS &&
      id != EMPTY
    ensures Inv(Place(s, id, src, now, novel))
  {
    hide LinksOk, EntriesOk, TriedOk, NewOk, CountsOk, PendingOk, MayReplace;
    var i := s.mapInfo[id];
    var b := s.p.NewBucket(i.addr, src);
    var q := s.p.Position(true, b, i.addr);
    var loose := Loose(novel, id);
    SlotHolder(s, b, q, loose, 0);
    var x := s.vvNew[b][q];
    assert loose - {id} == {};
    if x == id {
    } else if x == EMPTY || MayReplace(s.mapInfo[x], i, now) {
      PlaceEnters(s, id, b, q, loose, Place(s, id, src, now, novel));
    } else if novel {
      PlaceFails(s, id, loose);
    }
  }

  lemma PlaceFails(s: State, id: int, loose: set<int>)
    requires Core(s, loose, 0) && PendingOk(s) && loose == {id} && id in s.mapInfo && s.mapInfo[id].nRefCount == 0
    ensures DeleteOk(s, id) && Inv(Delete(s, id))
  {
    hide LinksOk, EntriesOk, NewOk, CountsOk;
    assert loose - {id} == {};
    DeleteKeeps(s, id, loose, 0);
    DeleteFrame(s, id, Delete(s, id));
    PendingFrame(s, Delete(s, id));
  }

  lemma PlaceEnters(s: State, id: int, b: nat, q: nat, loose: set<int>, t: State)
    requires Core(s, loose, 0) && NoRefs(s, loose) && PendingOk(s) && loose - {id} == {} && MayEnter(s, b, q, id) &&
      id != EMPTY
    requires b < NEW_BUCKET_COUNT && q < BUCKET_SIZE && Within(s.vvNew, b, q) && s.vvNew[b][q] != id &&
      ClearNewOk(s, b, q)
    requires id in ClearNew(s, b, q).mapInfo && Within(ClearNew(s, b, q).vvNew, b, q)
    requires var s1 := ClearNew(s, b, q);
      t == s1.SetInfo(id, s1.mapInfo[id].(nRefCount := s.mapInfo[id].nRefCount + 1)).(vvNew := Put(s1.vvNew, b, q, id))
    ensures Inv(t)
  {
    hide LinksOk, EntriesOk, NewOk, CountsOk;
    ClearNewKeeps(s, b, q, loose, 0);
    var s1 := ClearNew(s, b, q);
    assert SameButPos(s.mapInfo[id], s1.mapInfo[id]);
    EnterKeeps(s1, id, b, q, s1.nNew, loose, 0);
    PlaceFrame(s, s1, t, id, b, q);
    PendingFrame(s, t);
  }

  lemma PlaceFrame(s: State, s1: State, t: State, id: int, b: nat, q: nat)
    requires Released(s, s1, b, q) && id in s1.mapInfo && t.mapInfo.Keys == s1.mapInfo.Keys
    requires t == s1.(mapInfo := t.mapInfo, vvNew := t.vvNew)
    requires forall x :: x in s1.mapInfo ==> t.mapInfo[x].addr == s1.mapInfo[x].addr
    ensures StillPending(s, t)
  {
    forall c | c in t.mapInfo ensures c in s.mapInfo && t.mapInfo[c].addr == s.mapInfo[c].addr {
      assert c in s1.mapInfo;
      assert c != s.vvNew[b][q] ==> SameButPos(s.mapInfo[c], s1.mapInfo[c]);
    }
  }

  lemma DeleteFrame(s: State, id: int, t: State)
    requires SameInfos(s.mapInfo - {id}, t.mapInfo)
    requires t == s.(mapInfo := t.mapInfo, mapAddr := t.mapAddr, vRandom := t.vRandom, nNew := t.nNew)
    ensures StillPending(s, t)
  {
    forall c | c in t.mapInfo ensures c in s.mapInfo && t.mapInfo[c].addr == s.mapInfo[c].addr {
      assert c in s.mapInfo - {id} && SameButPos((s.mapInfo - {id})[c], t.mapInfo[c]);
    }
  }

  /** Nothing in the announcement calls for another reference. */
  predicate NoNews(i: Info, a: Address, roll: nat)
    requires i.nRefCount >= 0
  {
    || a.nTime == 0 || (i.nTime != 0 && a.nTime <= i.nTime)
    || i.fInTried
    || i.nRefCount == NEW_BUCKETS_PER_ADDRESS
    || (Powers.Pow(2, i.nRefCount) > 1 && roll % Powers.Pow(2, i.nRefCount) != 0)
  }

  lemma RefCountBounds(s: State, id: int)
    requires Core(s, {}, 0) && id in s.mapInfo
    ensures 0 <= s.mapInfo[id].nRefCount <= NEW_BUCKETS_PER_ADDRESS && id != EMPTY
    ensures !s.mapInfo[id].fInTried <==> s.mapInfo[id].nRefCount >= 1
  {
    if s.mapInfo[id].fInTried {
      assert Seated(s, id);
    } else {
      assert RefsOk(s, id, 1);
    }
  }

  function Penalty(a: Address, src: NetAddr, penalty: int): int {
    if a.service.ip == src then 0 else penalty
  }

  ghost function Add(s: State, a: Address, src: NetAddr, penalty: int, now: int, roll: nat): State
    requires Inv(s)
  {
    if !s.p.env.routable(a.service.ip) then s
    else
      match s.Find(a.service)
      case None =>
        AdmitKeeps(s, a, src, Penalty(a, src, penalty));
        Place(Admit(s, a, src, Penalty(a, src, penalty)), s.nIdCount, src, now, true)
      case Some(id) =>
        var i := Announced(s.mapInfo[id], a, Penalty(a, src, penalty), now);
        var s1 := s.SetInfo(id, i);
        assert Inv(s1) by { TouchKeeps(s, id, i, s.nLastGood); }
        RefCountBounds(s1, id);
        if NoNews(i, a, roll) then s1 else Place(s1, id, src, now, false)
  }

  lemma AddKeeps(s: State, a: Address, src: NetAddr, penalty: int, now: int, roll: nat)
    requires Inv(s)
    ensures Inv(Add(s, a, src, penalty, now, roll))
  {
    hide LinksOk, EntriesOk, NewOk, CountsOk;
    if s.p.env.routable(a.service.ip) {
      match s.Find(a.service)
      case None =>
        AdmitKeeps(s, a, src, Penalty(a, src, penalty));
        PlaceKeeps(Admit(s, a, src, Penalty(a, src, penalty)), s.nIdCount, src, now, true);
      case Some(id) =>
        var i := Announced(s.mapInfo[id], a, Penalty(a, src, penalty), now);
        TouchKeeps(s, id, i, s.nLastGood);
        RefCountBounds(s.SetInfo(id, i), id);
        if !NoNews(i, a, roll) {
          PlaceKeeps(s.SetInfo(id, i), id, src, now, false);
        }
    }
  }

  // ----- GetAddr -----

  function GetAddrLimit(s: State): nat {
    var n := GETADDR_MAX_PCT * |s.vRandom| / 100;
    if n > GETADDR_MAX then GETADDR_MAX else n
  }

  /** The n-th random position, at or after n. */
  function Draw(drawing: nat -> nat, n: nat, len: nat): (j: nat)
    requires n < len
    ensures n <= j < len
  {
    drawing(n) % (len - n) + n
  }

  /** The ids listed by GetAddr from position n of vRandom on, drawing(n) being the n-th random draw. */
  ghost function GetAddrFrom(s: State, n: nat, limit: nat, now: int, drawing: nat -> nat,
      ids: seq<int>): (r: (State, seq<int>))
    requires Inv(s) && n <= |s.vRandom|
    ensures Inv(r.0) && SameTables(s, r.0) && SameInfos(s.mapInfo, r.0.mapInfo)
    decreases |s.vRandom| - n
  {
    if n == |s.vRandom| || |ids| >= limit then (s, ids)
    else
      var j := Draw(drawing, n, |s.vRandom|);
      ShuffleKeeps(s, n, j);
      var t := SwapRandom(s, n, j);
      var id := t.vRandom[n];
      assert id in t.mapInfo;
      var r := GetAddrFrom(t, n + 1, limit, now, drawing, if t.mapInfo[id].IsTerrible(now) then ids else ids + [id]);
      SameInfosTrans(s.mapInfo, t.mapInfo, r.0.mapInfo);
      r
  }

  lemma SameInfosTrans(l: map<int, Info>, m: map<int, Info>, n: map<int, Info>)
    requires SameInfos(l, m) && SameInfos(m, n)
    ensures SameInfos(l, n)
  {
    forall id | id in l ensures SameButPos(l[id], n[id]) {
      assert SameButPos(l[id], m[id]) && SameButPos(m[id], n[id]);
    }
  }

  lemma ShuffleKeeps(s: State, i: nat, j: nat)
    requires Inv(s) && i < |s.vRandom| && j < |s.vRandom|
    ensures SwapOk(s, i, j)
    ensures var t := SwapRandom(s, i, j);
      Inv(t) && SameTables(s, t) && SameInfos(s.mapInfo, t.mapInfo) &&
        t.vRandom == s.vRandom[i := s.vRandom[j]][j := s.vRandom[i]]
  {
    hide LinksOk, EntriesOk, NewOk, CountsOk;
    SwapKeeps(s, i, j, {}, 0);
    var t := SwapRandom(s, i, j);
    forall c | c in t.mapInfo ensures c in s.mapInfo && t.mapInfo[c].addr == s.mapInfo[c].addr {
      assert SameButPos(s.mapInfo[c], t.mapInfo[c]);
    }
    PendingFrame(s, t);
  }

  function GoodIds(s: State, now: int): set<int> {
    set id | id in s.mapInfo && !s.mapInfo[id].IsTerrible(now)
  }

  lemma SameGoodIds(s: State, t: State, now: int)
    requires SameInfos(s.mapInfo, t.mapInfo)
    ensures GoodIds(s, now) == GoodIds(t, now)
  {
    forall id | id in s.mapInfo ensures s.mapInfo[id].IsTerrible(now) == t.mapInfo[id].IsTerrible(now) {
      assert SameButPos(s.mapInfo[id], t.mapInfo[id]);
    }
  }

  /** What has been listed so far: exactly the good ids among the first n of v. */
  ghost predicate Listed(v: seq<int>, n: nat, good: set<int>, ids: seq<int>)
    requires n <= |v|
  {
    Distinct(ids) && forall id :: id in ids <==> id in v[..n] && id in good
  }

  lemma ListedStep(v: seq<int>, n: nat, j: nat, good: set<int>, ids: seq<int>)
    requires n <= j < |v| && Distinct(v) && Listed(v, n, good, ids)
    ensures var w := v[n := v[j]][j := v[n]];
      Distinct(w) && Listed(w, n + 1, good, if w[n] in good then ids + [w[n]] else ids)
  {
    var w := v[n := v[j]][j := v[n]];
    assert v[..n] == w[..n];
    assert w[..n + 1] == w[..n] + [w[n]];
    assert v[j] !in v[..n];
    var more := ids + [w[n]];
    assert w[n] !in ids && forall id :: id in more <==> id in ids || id == w[n];
    assert forall id :: id in w[..n + 1] <==> id in v[..n] || id == w[n];
  }

  lemma RandomDistinct(s: State)
    requires LinksOk(s)
    ensures Distinct(s.vRandom) && forall id :: id in s.vRandom <==> id in s.mapInfo
  {
    forall id | id in s.mapInfo ensures id in s.vRandom {
      assert LinkOk(s, id);
    }
    forall i, j | 0 <= i < j < |s.vRandom| ensures s.vRandom[i] != s.vRandom[j] {
      assert s.mapInfo[s.vRandom[i]].nRandomPos == i && s.mapInfo[s.vRandom[j]].nRandomPos == j;
    }
  }

  /** A proper answer: distinct good ids, never more than the limit, and all of them if below the limit. */
  ghost predicate Answers(ids: seq<int>, limit: nat, good: set<int>) {
    && |ids| <= limit && Distinct(ids)
    && (forall id :: id in ids ==> id in good)
    && (|ids| < limit ==> forall id :: id in good ==> id in ids)
  }

  lemma ListedAnswers(v: seq<int>, n: nat, limit: nat, good: set<int>, ids: seq<int>)
    requires n <= |v| && Listed(v, n, good, ids) && |ids| <= limit && (n == |v| || |ids| >= limit)
    requires forall id :: id in good ==> id in v
    ensures Answers(ids, limit, good)
  {
    assert v[..|v|] == v;
  }

  /** GetAddr lists distinct entries, none of them terrible, never more than the limit; if it stopped below
      the limit, it lists every entry that is not terrible. */
  lemma {:induction false} GetAddrLists(s: State, n: nat, limit: nat, now: int, drawing: nat -> nat, ids: seq<int>)
    requires Inv(s) && n <= |s.vRandom| && Listed(s.vRandom, n, GoodIds(s, now), ids) && |ids| <= limit
    ensures Answers(GetAddrFrom(s, n, limit, now, drawing, ids).1, limit, GoodIds(s, now))
    decreases |s.vRandom| - n
  {
    hide LinksOk, EntriesOk, TriedOk, NewOk, CountsOk, PendingOk, SameInfos, Info.IsTerrible, Listed, Answers, Draw;
    RandomDistinct(s);
    var good := GoodIds(s, now);
    if n == |s.vRandom| || |ids| >= limit {
      ListedAnswers(s.vRandom, n, limit, good, ids);
    } else {
      var j := Draw(drawing, n, |s.vRandom|);
      ShuffleKeeps(s, n, j);
      var t := SwapRandom(s, n, j);
      SameGoodIds(s, t, now);
      ListedStep(s.vRandom, n, j, good, ids);
      var id := t.vRandom[n];
      RandomDistinct(t);
      assert id in t.mapInfo;
      GetAddrLists(t, n + 1, limit, now, drawing, if t.mapInfo[id].IsTerrible(now) then ids else ids + [id]);
    }
  }
}
