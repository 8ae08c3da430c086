/** CAddrMan step by step: the code that updates the linked structures in place, proved equal to the
    closed-form operations of AddrManOperations and AddrManRuns. */
module AddrManObject {
  import opened AddrManState
  import opened AddrManInvariant
  import Ops = AddrManOperations
  import Runs = AddrManRuns
  import opened AddrManEffects
  import opened Collections
  import Powers

  /** The buckets below n that hold id at its position. */
  function RefsBelow(p: Placement, t: Table, id: int, a: Service, n: nat): set<int>
    requires Shape(t, NEW_BUCKET_COUNT) && n <= NEW_BUCKET_COUNT
  {
    set b: int | 0 <= b < n && t[b][p.Position(true, b, a)] == id
  }

  lemma StripStep(p: Placement, t: Table, id: int, a: Service, n: nat)
    requires Shape(t, NEW_BUCKET_COUNT) && n < NEW_BUCKET_COUNT
    ensures var q := p.Position(true, n, a);
      && Stripped(p, t, id, a, n)[n] == t[n]
      && Stripped(p, t, id, a, n + 1) == (if t[n][q] == id then Put(Stripped(p, t, id, a, n), n, q, EMPTY)
         else Stripped(p, t, id, a, n))
      && |RefsBelow(p, t, id, a, n + 1)| == |RefsBelow(p, t, id, a, n)| + (if t[n][q] == id then 1 else 0)
  {
    var q := p.Position(true, n, a);
    assert RefsBelow(p, t, id, a, n + 1) == RefsBelow(p, t, id, a, n) + (if t[n][q] == id then {n as int} else {});
    var l, r := Stripped(p, t, id, a, n + 1), Stripped(p, t, id, a, n);
    forall b | 0 <= b < NEW_BUCKET_COUNT ensures l[b] == if b == n && t[n][q] == id then r[b][q := EMPTY] else r[b] {}
  }

  lemma StripEnds(p: Placement, t: Table, id: int, a: Service)
    requires Shape(t, NEW_BUCKET_COUNT)
    ensures Stripped(p, t, id, a, 0) == t && RefsBelow(p, t, id, a, 0) == {}
    ensures RefsBelow(p, t, id, a, NEW_BUCKET_COUNT) == Refs(p, t, id, a)
  {
  }

  /** An entry of the new table is found by scanning all buckets from any starting point. */
  lemma ScanFinds(s: State, id: int, start: nat)
    requires NewOk(s, {}) && id in s.mapInfo && !s.mapInfo[id].fInTried
    ensures exists n: nat :: n < NEW_BUCKET_COUNT && ScanHit(s, id, start, n)
  {
    assert RefsOk(s, id, 1);
    var b := Pick(Refs(s.p, s.vvNew, id, s.mapInfo[id].addr));
    var n := (b + NEW_BUCKET_COUNT - start % NEW_BUCKET_COUNT) % NEW_BUCKET_COUNT;
    assert (n + start) % NEW_BUCKET_COUNT == b;
    assert ScanHit(s, id, start, n);
  }

  predicate ScanHit(s: State, id: int, start: nat, n: nat)
    requires Shape(s.vvNew, NEW_BUCKET_COUNT) && id in s.mapInfo
  {
    var b := (n + start) % NEW_BUCKET_COUNT;
    s.vvNew[b][s.p.Position(true, b, s.mapInfo[id].addr)] == id
  }

  method EmptiedTable(t: Table, n: nat) returns (r: Table)
    requires Shape(t, n)
    ensures r == EmptyTable(n)
  {
    r := t;
    for bucket := 0 to n
      invariant Shape(r, n)
      invariant forall b :: 0 <= b < bucket ==> r[b] == EmptyTable(n)[b]
    {
      for entry := 0 to BUCKET_SIZE
        invariant Shape(r, n)
        invariant forall b :: 0 <= b < bucket ==> r[b] == EmptyTable(n)[b]
        invariant forall q :: 0 <= q < entry ==> r[bucket][q] == EMPTY
      {
        r := Put(r, bucket, entry, EMPTY);
      }
      assert r[bucket] == EmptyTable(n)[bucket];
    }
  }

  /** CAddrMan. Its fields are those of the record st; every assignment below updates one of them. */
  class CAddrMan {
    var st: State

    constructor (env: Env, discriminatePorts: bool, asmap: seq<bool>, key: nat)
      ensures st == Cleared(discriminatePorts, Placement(env, key, asmap), {}) && Inv(st)
    {
      st := State(discriminatePorts, Placement(env, 0, asmap), 0, map[], map[], [],
                  0, EmptyTable(TRIED_BUCKET_COUNT), 0, EmptyTable(NEW_BUCKET_COUNT), 0, {});
      new;
      Clear(key);
      Runs.ClearedInv(discriminatePorts, st.p, {});
    }

    /** Forget everything but the pending collisions, under a new secret key. */
    method Clear(key: nat)
      requires Shape(st.vvNew, NEW_BUCKET_COUNT) && Shape(st.vvTried, TRIED_BUCKET_COUNT)
      modifies this
      ensures st == Cleared(old(st).discriminatePorts, old(st).p.(nKey := key), old(st).collisions)
    {
      st := st.(vRandom := [], p := st.p.(nKey := key));
      var vvNew := EmptiedTable(st.vvNew, NEW_BUCKET_COUNT);
      st := st.(vvNew := vvNew);
      var vvTried := EmptiedTable(st.vvTried, TRIED_BUCKET_COUNT);
      st := st.(vvTried := vvTried);
      st := st.(nIdCount := 0, nTried := 0, nNew := 0, nLastGood := 1, mapInfo := map[], mapAddr := map[]);
    }

    method Find(addr: Service) returns (r: Option<int>)
      ensures r == st.Find(addr)
    {
      var addr2 := addr;
      if !st.discriminatePorts {
        addr2 := addr2.(port := 0);
      }
      if addr2 !in st.mapAddr {
        return None;
      }
      var id := st.mapAddr[addr2];
      return if id in st.mapInfo then Some(id) else None;
    }

    method Create(addr: Address, source: NetAddr) returns (nId: int)
      modifies this
      ensures st == AddrManState.Create(old(st), addr, source) && nId == old(st).nIdCount
    {
      var addr2 := addr.service;
      if !st.discriminatePorts {
        addr2 := addr2.(port := 0);
      }
      nId := st.nIdCount;
      st := st.(nIdCount := st.nIdCount + 1);
      st := st.SetInfo(nId, Info(addr.service, addr.nServices, addr.nTime, source, 0, 0, 0, 0, 0, false, -1));
      st := st.(mapAddr := st.mapAddr[addr2 := nId]);
      st := st.SetInfo(nId, st.mapInfo[nId].(nRandomPos := |st.vRandom|));
      st := st.(vRandom := st.vRandom + [nId]);
    }

    method SwapRandom(pos1: nat, pos2: nat)
      requires SwapOk(st, pos1, pos2)
      modifies this
      ensures st == AddrManState.SwapRandom(old(st), pos1, pos2)
    {
      if pos1 == pos2 {
        return;
      }
      var id1, id2 := st.vRandom[pos1], st.vRandom[pos2];
      st := st.SetInfo(id1, st.mapInfo[id1].(nRandomPos := pos2));
      st := st.SetInfo(id2, st.mapInfo[id2].(nRandomPos := pos1));
      st := st.(vRandom := st.vRandom[pos1 := id2]);
      st := st.(vRandom := st.vRandom[pos2 := id1]);
    }

    method Delete(nId: int)
      requires DeleteOk(st, nId) && !st.mapInfo[nId].fInTried && st.mapInfo[nId].nRefCount == 0
      modifies this
      ensures st == AddrManState.Delete(old(st), nId)
    {
      var addr := st.mapInfo[nId].addr;
      if !st.discriminatePorts {
        addr := addr.(port := 0);
      }
      SwapRandom(st.mapInfo[nId].nRandomPos, |st.vRandom| - 1);
      st := st.(vRandom := st.vRandom[..|st.vRandom| - 1]);
      st := st.(mapAddr := st.mapAddr - {addr});
      st := st.(mapInfo := st.mapInfo - {nId});
      st := st.(nNew := st.nNew - 1);
    }

    method ClearNew(bucket: nat, pos: nat, ghost loose: set<int>, ghost k: int)
      requires Core(st, loose, k) && NoRefs(st, loose) && bucket < NEW_BUCKET_COUNT && pos < BUCKET_SIZE
      modifies this
      ensures ClearNewOk(old(st), bucket, pos) && st == AddrManState.ClearNew(old(st), bucket, pos)
    {
      hide LinksOk, EntriesOk, TriedOk, NewOk, CountsOk;
      SlotHolder(st, bucket, pos, loose, k);
      if st.vvNew[bucket][pos] != EMPTY {
        var idDelete := st.vvNew[bucket][pos];
        assert st.mapInfo[idDelete].nRefCount > 0;
        st := st.SetInfo(idDelete, st.mapInfo[idDelete].(nRefCount := st.mapInfo[idDelete].nRefCount - 1));
        st := st.(vvNew := Put(st.vvNew, bucket, pos, EMPTY));
        if st.mapInfo[idDelete].nRefCount == 0 {
          Delete(idDelete);
        }
      }
    }

    /** The first loop of MakeTried: remove the entry from all new buckets. */
    method LeaveNew(nId: int)
      requires Core(st, {}, 0) && nId in st.mapInfo && !st.mapInfo[nId].fInTried
      modifies this
      ensures st == Withdraw(old(st), nId)
    {
      hide LinksOk, EntriesOk, TriedOk, CountsOk, Stripped, RefsBelow, Refs;
      ghost var s := st;
      var addr := st.mapInfo[nId].addr;
      StripEnds(s.p, s.vvNew, nId, addr);
      assert s.mapInfo[nId := s.mapInfo[nId]] == s.mapInfo;
      var bucket := 0;
      while bucket < NEW_BUCKET_COUNT
        invariant bucket <= NEW_BUCKET_COUNT
        invariant st == s.(vvNew := Stripped(s.p, s.vvNew, nId, addr, bucket),
                           mapInfo := s.mapInfo[nId := s.mapInfo[nId].(
                             nRefCount := s.mapInfo[nId].nRefCount - |RefsBelow(s.p, s.vvNew, nId, addr, bucket)|)])
      {
        StripStep(s.p, s.vvNew, nId, addr, bucket);
        var pos := st.p.Position(true, bucket, addr);
        if st.vvNew[bucket][pos] == nId {
          st := st.(vvNew := Put(st.vvNew, bucket, pos, EMPTY));
          st := st.SetInfo(nId, st.mapInfo[nId].(nRefCount := st.mapInfo[nId].nRefCount - 1));
        }
        bucket := bucket + 1;
      }
      st := st.(nNew := st.nNew - 1);
    }

    /** The middle of MakeTried: move the entry in a tried slot back to the new table. */
    method Evict(kBucket: nat, kPos: nat, ghost nId: int)
      requires Core(st, {nId}, 1) && NoRefs(st, {nId})
      requires kBucket < TRIED_BUCKET_COUNT && kPos < BUCKET_SIZE && Within(st.vvTried, kBucket, kPos) &&
        st.vvTried[kBucket][kPos] != EMPTY
      modifies this
      ensures var s := old(st); var out := s.vvTried[kBucket][kPos];
        out in s.mapInfo && DemoteOk(Unseat(s, kBucket, kPos), out) && st == Demote(Unseat(s, kBucket, kPos), out)
    {
      hide LinksOk, EntriesOk, TriedOk, NewOk, CountsOk, Refs;
      ghost var s := st;
      Ops.UnseatKeeps(s, kBucket, kPos, {nId}, 1);
      var idEvict := st.vvTried[kBucket][kPos];
      assert idEvict in st.mapInfo;
      st := st.SetInfo(idEvict, st.mapInfo[idEvict].(fInTried := false));
      st := st.(vvTried := Put(st.vvTried, kBucket, kPos, EMPTY));
      st := st.(nTried := st.nTried - 1);
      assert st == Unseat(s, kBucket, kPos);
      Rehome(idEvict, {nId} + {idEvict});
    }

    /** The last part of evicting an entry: it gets one reference in the bucket of its own source. */
    method Rehome(idEvict: int, ghost loose: set<int>)
      requires Core(st, loose, 2) && NoRefs(st, loose) && idEvict in loose
      modifies this
      ensures DemoteOk(old(st), idEvict) && st == Demote(old(st), idEvict)
    {
      hide LinksOk, EntriesOk, TriedOk, CountsOk, Refs;
      Ops.DemoteKeeps(st, idEvict, loose, 2);
      var uBucket := st.p.NewBucket(st.mapInfo[idEvict].addr, st.mapInfo[idEvict].source);
      var uPos := st.p.Position(true, uBucket, st.mapInfo[idEvict].addr);
      ClearNew(uBucket, uPos, loose, 2);
      assert st.vvNew[uBucket][uPos] == EMPTY;
      st := st.SetInfo(idEvict, st.mapInfo[idEvict].(nRefCount := 1));
      st := st.(vvNew := Put(st.vvNew, uBucket, uPos, idEvict));
      st := st.(nNew := st.nNew + 1);
    }

    method MakeTried(nId: int)
      requires Core(st, {}, 0) && nId in st.mapInfo && !st.mapInfo[nId].fInTried && st.mapInfo[nId].nLastSuccess != 0
      modifies this
      ensures st == Ops.MakeTried(old(st), nId)
    {
      hide LinksOk, EntriesOk, NewOk, CountsOk, Withdraw, Demote, AddrManState.ClearNew, AddrManState.Delete, Refs;
      Ops.WithdrawKeeps(st, nId);
      LeaveNew(nId);
      ghost var s1 := st;
      assert st.mapInfo[nId].nRefCount == 0;
      var kBucket := st.p.TriedBucket(st.mapInfo[nId].addr);
      var kPos := st.p.Position(false, kBucket, st.mapInfo[nId].addr);
      if st.vvTried[kBucket][kPos] != EMPTY {
        Ops.UnseatKeeps(s1, kBucket, kPos, {nId}, 1);
        ghost var out := st.vvTried[kBucket][kPos];
        Evict(kBucket, kPos, nId);
        Ops.DemoteFrame(Unseat(s1, kBucket, kPos), out, nId, {nId} + {out}, 2);
      }
      assert st.vvTried[kBucket][kPos] == EMPTY;
      st := st.(vvTried := Put(st.vvTried, kBucket, kPos, nId));
      st := st.(nTried := st.nTried + 1);
      st := st.SetInfo(nId, st.mapInfo[nId].(fInTried := true));
    }

    method Good(addr: Service, testBeforeEvict: bool, time: int, rnd: nat)
      requires Inv(st) && time > 0
      modifies this
      ensures st == Ops.Good(old(st), addr, testBeforeEvict, time) && Inv(st)
      ensures GoodEffect(old(st), st, addr, testBeforeEvict, time)
    {
      hide LinksOk, EntriesOk, NewOk, CountsOk, Ops.MakeTried, Refs, GoodEffect;
      ghost var s := st;
      GoodHasEffect(s, addr, testBeforeEvict, time);
      Ops.GoodKeeps(s, addr, testBeforeEvict, time);
      st := st.(nLastGood := time);
      var r := Find(addr);
      if r.None? || st.mapInfo[r.value].addr != addr {
        return;
      }
      var nId := r.value;
      st := st.SetInfo(nId, st.mapInfo[nId].(nLastSuccess := time, nLastTry := time, nAttempts := 0));
      Ops.TouchKeeps(s, nId, Succeeded(s.mapInfo[nId], time), time);
      if st.mapInfo[nId].fInTried {
        return;
      }
      var uBucket := FindBucket(nId, rnd);
      if uBucket == -1 {
        return;
      }
      var kBucket := st.p.TriedBucket(st.mapInfo[nId].addr);
      var kPos := st.p.Position(false, kBucket, st.mapInfo[nId].addr);
      if testBeforeEvict && st.vvTried[kBucket][kPos] != EMPTY {
        if |st.collisions| < SET_TRIED_COLLISION_SIZE {
          st := st.(collisions := st.collisions + {nId});
        }
      } else {
        MakeTried(nId);
      }
    }

    /** The scan of Good_ for a bucket that holds the entry: it always finds one, so the branch for
        finding none is never taken. */
    method FindBucket(nId: int, rnd: nat) returns (uBucket: int)
      requires Inv(st) && nId in st.mapInfo && !st.mapInfo[nId].fInTried
      ensures 0 <= uBucket < NEW_BUCKET_COUNT &&
        st.vvNew[uBucket][st.p.Position(true, uBucket, st.mapInfo[nId].addr)] == nId
    {
      uBucket := -1;
      ScanFinds(st, nId, rnd);
      var n := 0;
      while n < NEW_BUCKET_COUNT
        invariant n <= NEW_BUCKET_COUNT && uBucket == -1
        invariant forall m: nat :: m < n ==> !ScanHit(st, nId, rnd, m)
      {
        var nB := (n + rnd) % NEW_BUCKET_COUNT;
        var pos := st.p.Position(true, nB, st.mapInfo[nId].addr);
        if st.vvNew[nB][pos] == nId {
          uBucket := nB;
          break;
        }
        n := n + 1;
      }
    }

    method Add(addr: Address, source: NetAddr, timePenalty: int, now: int, roll: nat) returns (fNew: bool)
      requires Inv(st)
      modifies this
      ensures st == Ops.Add(old(st), addr, source, timePenalty, now, roll) && Inv(st)
      ensures AddEffect(old(st), st, addr, source, timePenalty, now, roll)
      ensures fNew == (old(st).p.env.routable(addr.service.ip) && old(st).Find(addr.service).None?)
    {
      hide LinksOk, EntriesOk, TriedOk, NewOk, CountsOk, PendingOk, Ops.Place, Refs, Info.IsTerrible, Announced,
        Powers.Pow, AddEffect;
      ghost var s := st;
      AddHasEffect(s, addr, source, timePenalty, now, roll);
      Ops.AddKeeps(s, addr, source, timePenalty, now, roll);
      if !st.p.env.routable(addr.service.ip) {
        return false;
      }
      fNew := false;
      var penalty := timePenalty;
      if addr.service.ip == source {
        penalty := 0;
      }
      var r := Find(addr.service);
      var nId: int;
      if r.Some? {
        nId := r.value;
        Refresh(nId, addr, penalty, now);
        var info := st.mapInfo[nId];
        Ops.TouchKeeps(s, nId, info, s.nLastGood);
        Ops.RefCountBounds(st, nId);
        if addr.nTime == 0 || (info.nTime != 0 && addr.nTime <= info.nTime) {
          return;
        }
        if info.fInTried {
          return;
        }
        if info.nRefCount == NEW_BUCKETS_PER_ADDRESS {
          return;
        }
        var nFactor := Doubled(info.nRefCount);
        if nFactor > 1 && roll % nFactor != 0 {
          return;
        }
      } else {
        Ops.AdmitKeeps(s, addr, source, penalty);
        nId := Create(addr, source);
        st := st.SetInfo(nId, st.mapInfo[nId].(nTime := Stamp(st.mapInfo[nId].nTime - penalty)));
        st := st.(nNew := st.nNew + 1);
        fNew := true;
      }
      PlaceNew(nId, source, now, fNew);
    }

    /** The part of Add_ that updates the time and services of a known entry. */
    method Refresh(nId: int, addr: Address, penalty: int, now: int)
      requires nId in st.mapInfo
      modifies this
      ensures st == old(st).SetInfo(nId, Announced(old(st).mapInfo[nId], addr, penalty, now))
      ensures SameSlots(old(st).mapInfo[nId], st.mapInfo[nId]) &&
        st.mapInfo[nId].nRandomPos == old(st).mapInfo[nId].nRandomPos
    {
      hide Stamp;
      var info := st.mapInfo[nId];
      var interval := if now - addr.nTime < 24 * 60 * 60 then 60 * 60 else 24 * 60 * 60;
      if addr.nTime != 0 && (info.nTime == 0 || info.nTime < addr.nTime - interval - penalty) {
        info := info.(nTime := Stamp(addr.nTime - penalty));
      }
      info := info.(nServices := info.nServices + addr.nServices);
      st := st.SetInfo(nId, info);
    }

    /** The last part of Add_: try to give the entry a reference in the bucket its source selects. */
    method PlaceNew(nId: int, source: NetAddr, now: int, ghost novel: bool)
      requires Core(st, Ops.Loose(novel, nId), 0) && nId in st.mapInfo && !st.mapInfo[nId].fInTried
      requires st.mapInfo[nId].nRefCount == 0 <==> novel
      modifies this
      ensures st == Ops.Place(old(st), nId, source, now, novel)
    {
      hide LinksOk, EntriesOk, TriedOk, NewOk, CountsOk, Info.IsTerrible, Refs;
      ghost var s := st;
      var addr := st.mapInfo[nId].addr;
      var uBucket := st.p.NewBucket(addr, source);
      var uPos := st.p.Position(true, uBucket, addr);
      SlotHolder(st, uBucket, uPos, Ops.Loose(novel, nId), 0);
      var holder := st.vvNew[uBucket][uPos];
      if holder != nId {
        var fInsert := holder == EMPTY;
        if !fInsert {
          if st.mapInfo[holder].IsTerrible(now) ||
              (st.mapInfo[holder].nRefCount > 1 && st.mapInfo[nId].nRefCount == 0) {
            fInsert := true;
          }
        }
        if fInsert {
          ClearNewKeeps(st, uBucket, uPos, Ops.Loose(novel, nId), 0);
          ClearNew(uBucket, uPos, Ops.Loose(novel, nId), 0);
          assert SameButPos(s.mapInfo[nId], st.mapInfo[nId]);
          st := st.SetInfo(nId, st.mapInfo[nId].(nRefCount := st.mapInfo[nId].nRefCount + 1));
          st := st.(vvNew := Put(st.vvNew, uBucket, uPos, nId));
        } else {
          if st.mapInfo[nId].nRefCount == 0 {
            DeletePossible(st, nId);
            Delete(nId);
          }
        }
      }
    }

    method Attempt(addr: Service, fCountFailure: bool, time: int)
      requires Inv(st) && time > 0
      modifies this
      ensures st == AddrManState.Attempt(old(st), addr, fCountFailure, time) && Inv(st)
      ensures AttemptEffect(old(st), st, addr, fCountFailure, time)
    {
      hide LinksOk, EntriesOk, NewOk, CountsOk, AttemptEffect, ConnectedEffect, SetServicesEffect;
      StatisticsHaveEffect(st, addr, fCountFailure, time, {});
      Runs.StepKeeps(st, Runs.CallAttempt(addr, fCountFailure, time));
      var r := Find(addr);
      if r.None? || st.mapInfo[r.value].addr != addr {
        return;
      }
      st := st.SetInfo(r.value, st.mapInfo[r.value].(nLastTry := time));
      if fCountFailure && st.mapInfo[r.value].nLastCountAttempt < st.nLastGood {
        st := st.SetInfo(r.value, st.mapInfo[r.value].(nLastCountAttempt := time));
        st := st.SetInfo(r.value, st.mapInfo[r.value].(nAttempts := st.mapInfo[r.value].nAttempts + 1));
      }
    }

    method Connected(addr: Service, time: int)
      requires Inv(st)
      modifies this
      ensures st == AddrManState.Connected(old(st), addr, time) && Inv(st)
      ensures ConnectedEffect(old(st), st, addr, time)
    {
      hide LinksOk, EntriesOk, NewOk, CountsOk, AttemptEffect, ConnectedEffect, SetServicesEffect;
      StatisticsHaveEffect(st, addr, false, time, {});
      Runs.StepKeeps(st, Runs.CallConnected(addr, time));
      var r := Find(addr);
      if r.None? || st.mapInfo[r.value].addr != addr {
        return;
      }
      if time - st.mapInfo[r.value].nTime > 20 * 60 {
        st := st.SetInfo(r.value, st.mapInfo[r.value].(nTime := time % 0x1_0000_0000));
      }
    }

    method SetServices(addr: Service, services: Services)
      requires Inv(st)
      modifies this
      ensures st == AddrManState.SetServices(old(st), addr, services) && Inv(st)
      ensures SetServicesEffect(old(st), st, addr, services)
    {
      hide LinksOk, EntriesOk, NewOk, CountsOk, AttemptEffect, ConnectedEffect, SetServicesEffect;
      StatisticsHaveEffect(st, addr, false, 0, services);
      Runs.StepKeeps(st, Runs.CallSetServices(addr, services));
      var r := Find(addr);
      if r.None? || st.mapInfo[r.value].addr != addr {
        return;
      }
      st := st.SetInfo(r.value, st.mapInfo[r.value].(nServices := services));
    }

    method GetAddr(now: int, drawing: nat -> nat) returns (ids: seq<int>)
      requires Inv(st)
      modifies this
      ensures (st, ids) == Ops.GetAddrFrom(old(st), 0, Ops.GetAddrLimit(old(st)), now, drawing, []) && Inv(st)
      ensures Ops.Answers(ids, Ops.GetAddrLimit(old(st)), Ops.GoodIds(old(st), now))
      ensures |ids| == Min(Min(23 * |old(st).vRandom| / 100, 2500), |Ops.GoodIds(old(st), now)|)
    {
      hide LinksOk, EntriesOk, TriedOk, NewOk, CountsOk, Info.IsTerrible, Ops.Answers, SameInfos;
      ghost var s := st;
      Ops.GetAddrLists(s, 0, Ops.GetAddrLimit(s), now, drawing, []);
      var nNodes := GETADDR_MAX_PCT * |st.vRandom| / 100;
      if nNodes > GETADDR_MAX {
        nNodes := GETADDR_MAX;
      }
      ids := [];
      var n := 0;
      while n < |st.vRandom|
        invariant n <= |st.vRandom| && Inv(st)
        invariant Ops.GetAddrFrom(st, n, nNodes, now, drawing, ids) == Ops.GetAddrFrom(s, 0, nNodes, now, drawing, [])
      {
        if |ids| >= nNodes {
          break;
        }
        var rndPos := Ops.Draw(drawing, n, |st.vRandom|);
        Ops.ShuffleKeeps(st, n, rndPos);
        SwapRandom(n, rndPos);
        Ops.RandomDistinct(st);
        assert st.vRandom[n] in st.mapInfo;
        if !st.mapInfo[st.vRandom[n]].IsTerrible(now) {
          ids := ids + [st.vRandom[n]];
        }
        n := n + 1;
      }
      AnswerSize(s, ids, Ops.GoodIds(s, now));
    }

    method ResolveCollisions(now: int, rnd: nat)
      requires Inv(st) && now > 0
      modifies this
      ensures st == Runs.ResolveAll(old(st), old(st).collisions, now) && Inv(st)
    {
      hide LinksOk, EntriesOk, TriedOk, NewOk, CountsOk, PendingOk, Runs.ResolveOne;
      ghost var s := st;
      var rest := st.collisions;
      while rest != {}
        invariant Inv(st) && Runs.ResolveAll(st, rest, now) == Runs.ResolveAll(s, s.collisions, now)
        decreases |rest|
      {
        var id := Least(rest);
        Runs.ResolveOneKeeps(st, id, now);
        ResolveCollision(id, now, rnd);
        rest := rest - {id};
      }
    }

    /** One iteration of ResolveCollisions_. */
    method ResolveCollision(id: int, now: int, rnd: nat)
      requires Inv(st) && now > 0
      modifies this
      ensures st == Runs.ResolveOne(old(st), id, now)
      ensures ResolveEffect(old(st), st, id, now)
    {
      hide LinksOk, EntriesOk, NewOk, CountsOk, Ops.Good, ResolveEffect;
      ResolveHasEffect(st, id, now);
      var erase := false;
      if id !in st.mapInfo {
        erase := true;
      } else {
        var kBucket := st.p.TriedBucket(st.mapInfo[id].addr);
        var kPos := st.p.Position(false, kBucket, st.mapInfo[id].addr);
        if !st.p.env.valid(st.mapInfo[id].addr.ip) {
          erase := true;
        } else if st.vvTried[kBucket][kPos] != EMPTY {
          Runs.HolderKnown(st, id);
          var idOld := st.vvTried[kBucket][kPos];
          if now - st.mapInfo[idOld].nLastSuccess < REPLACEMENT_SECONDS {
            erase := true;
          } else if now - st.mapInfo[idOld].nLastTry < REPLACEMENT_SECONDS {
            if now - st.mapInfo[idOld].nLastTry > 60 {
              Good(st.mapInfo[id].addr, false, now, rnd);
              erase := true;
            }
          } else if now - st.mapInfo[id].nLastSuccess > TEST_WINDOW {
            Good(st.mapInfo[id].addr, false, now, rnd);
            erase := true;
          }
        } else {
          Good(st.mapInfo[id].addr, false, now, rnd);
          erase := true;
        }
      }
      if erase {
        st := st.(collisions := st.collisions - {id});
      }
    }

    method SelectTriedCollision(id: int) returns (r: Option<Info>)
      requires Inv(st) && id in st.collisions
      modifies this
      ensures (st, r) == Runs.SelectTriedCollision(old(st), id) && Inv(st)
    {
      hide LinksOk, EntriesOk, NewOk, CountsOk;
      if id !in st.mapInfo {
        Runs.ForgetKeeps(st, id);
        st := st.(collisions := st.collisions - {id});
        return None;
      }
      var kBucket := st.p.TriedBucket(st.mapInfo[id].addr);
      var kPos := st.p.Position(false, kBucket, st.mapInfo[id].addr);
      Runs.HolderKnown(st, id);
      return Some(st.mapInfo[st.vvTried[kBucket][kPos]]);
    }
  }

  /** The loop of Add_ that doubles once per reference. */
  method Doubled(n: nat) returns (r: nat)
    ensures r == Powers.Pow(2, n)
  {
    r := 1;
    for i := 0 to n
      invariant r == Powers.Pow(2, i)
    {
      r := r * 2;
    }
  }
}
