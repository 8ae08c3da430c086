/** What the calls of the address manager do to its entries and tables, said of the states before and after a call
    without reference to the steps in between. */
module AddrManEffects {
  import opened AddrManState
  import opened AddrManInvariant
  import opened Collections
  import Ops = AddrManOperations
  import Runs = AddrManRuns
  import Powers

  // ----- slots -----

  /** Nothing but entries, their indexes, their number and the tables differs. */
  ghost predicate SameRest(s: State, t: State) {
    t == s.(mapInfo := t.mapInfo, mapAddr := t.mapAddr, vRandom := t.vRandom, nIdCount := t.nIdCount,
            nTried := t.nTried, nNew := t.nNew, vvTried := t.vvTried, vvNew := t.vvNew)
  }

  /** Table t is u with slot (b, q) set to v. */
  ghost predicate OneSlot(u: Table, t: Table, b: nat, q: nat, v: int) {
    && |t| == |u| && Within(t, b, q) && t[b][q] == v
    && (forall c :: 0 <= c < |u| ==> |t[c]| == |u[c]|)
    && forall c, r :: 0 <= c < |u| && 0 <= r < |u[c]| && !(c == b && r == q) ==> t[c][r] == u[c][r]
  }

  /** Entry x loses one reference, and disappears with its last one. */
  ghost predicate LosesOne(s: State, t: State, x: int) {
    x in s.mapInfo ==>
      if s.mapInfo[x].nRefCount == 1 then x !in t.mapInfo
      else x in t.mapInfo && SameButPos(t.mapInfo[x], s.mapInfo[x].(nRefCount := s.mapInfo[x].nRefCount - 1))
  }

  ghost predicate Untouched(s: State, t: State, x: int) {
    x in s.mapInfo ==> x in t.mapInfo && SameButPos(t.mapInfo[x], s.mapInfo[x])
  }

  lemma PutIsOneSlot(u: Table, b: nat, q: nat, v: int)
    requires Within(u, b, q)
    ensures OneSlot(u, Put(u, b, q, v), b, q, v)
  {
  }

  // ----- Good -----

  /** Entry id, which was not tried, has its tried slot and no other; whoever sat there is in the bucket of its own
      source with one reference, and the entry that held that place has one reference fewer. */
  ghost predicate Seized(s: State, t: State, id: int)
    requires id in s.mapInfo && Shape(s.vvTried, TRIED_BUCKET_COUNT) && Shape(s.vvNew, NEW_BUCKET_COUNT)
  {
    var b := s.p.TriedBucket(s.mapInfo[id].addr);
    var q := s.p.Position(false, b, s.mapInfo[id].addr);
    var out := s.vvTried[b][q];
    && id in t.mapInfo && SameButPos(t.mapInfo[id], s.mapInfo[id].(nRefCount := 0, fInTried := true))
    && OneSlot(s.vvTried, t.vvTried, b, q, id)
    && Shape(t.vvNew, NEW_BUCKET_COUNT) && t.mapInfo.Keys <= s.mapInfo.Keys && t.nIdCount == s.nIdCount
    && (forall c, r :: 0 <= c < NEW_BUCKET_COUNT && 0 <= r < BUCKET_SIZE ==> t.vvNew[c][r] != id)
    && (if out == EMPTY then
          && (forall c, r :: 0 <= c < NEW_BUCKET_COUNT && 0 <= r < BUCKET_SIZE && s.vvNew[c][r] != id ==>
                t.vvNew[c][r] == s.vvNew[c][r])
          && (forall c, r :: 0 <= c < NEW_BUCKET_COUNT && 0 <= r < BUCKET_SIZE && s.vvNew[c][r] == id ==>
                t.vvNew[c][r] == EMPTY)
          && (forall x :: x in s.mapInfo && x != id ==> Untouched(s, t, x))
        else out in s.mapInfo && Demoted(s, t, id, out))
  }

  /** Entry out was moved from the tried table to its home slot when id left the new table. */
  ghost predicate Demoted(s: State, t: State, id: int, out: int)
    requires out in s.mapInfo && Shape(s.vvNew, NEW_BUCKET_COUNT) && Shape(t.vvNew, NEW_BUCKET_COUNT)
  {
    var b := s.p.NewBucket(s.mapInfo[out].addr, s.mapInfo[out].source);
    var q := s.p.Position(true, b, s.mapInfo[out].addr);
    var loser := s.vvNew[b][q];
    && out in t.mapInfo && SameButPos(t.mapInfo[out], s.mapInfo[out].(nRefCount := 1, fInTried := false))
    && t.vvNew[b][q] == out
    && (forall c, r :: 0 <= c < NEW_BUCKET_COUNT && 0 <= r < BUCKET_SIZE && !(c == b && r == q) ==>
          t.vvNew[c][r] == if s.vvNew[c][r] == id then EMPTY else s.vvNew[c][r])
    && (loser != id ==> LosesOne(s, t, loser))
    && forall x :: x in s.mapInfo && x != id && x != out && x != loser ==> Untouched(s, t, x)
  }

  lemma StrippedAt(s: State, id: int, c: nat, r: nat)
    requires NewOk(s, {}) && id in s.mapInfo && id != EMPTY && c < NEW_BUCKET_COUNT && r < BUCKET_SIZE
    ensures Stripped(s.p, s.vvNew, id, s.mapInfo[id].addr, NEW_BUCKET_COUNT)[c][r] ==
      if s.vvNew[c][r] == id then EMPTY else s.vvNew[c][r]
  {
    assert NewSlotOk(s, c, r);
  }

  lemma PromotedDemotes(s: State, t: State, id: int, out: int)
    requires NewOk(s, {}) && Shape(s.vvTried, TRIED_BUCKET_COUNT) && Shape(t.vvNew, NEW_BUCKET_COUNT)
    requires id in s.mapInfo && EMPTY !in s.mapInfo && out != EMPTY && Ops.Promoted(s, t, id)
    requires out == s.vvTried[s.TriedSlot(s.mapInfo[id].addr).0][s.TriedSlot(s.mapInfo[id].addr).1]
    ensures out in s.mapInfo && Demoted(s, t, id, out)
  {
    assert Shape(s.vvNew, NEW_BUCKET_COUNT);
    hide NewOk, Stripped, Refs;
    forall c, r | 0 <= c < NEW_BUCKET_COUNT && 0 <= r < BUCKET_SIZE
      ensures Stripped(s.p, s.vvNew, id, s.mapInfo[id].addr, NEW_BUCKET_COUNT)[c][r] ==
        if s.vvNew[c][r] == id then EMPTY else s.vvNew[c][r]
    {
      StrippedAt(s, id, c, r);
    }
  }

  lemma PromotedSeizes(s: State, t: State, id: int)
    requires Inv(s) && Inv(t) && id in s.mapInfo && !s.mapInfo[id].fInTried && Ops.Promoted(s, t, id)
    ensures Seized(s, t, id)
  {
    assert EMPTY !in s.mapInfo;
    hide LinksOk, EntriesOk, CountsOk, PendingOk, Stripped, Refs, Demoted;
    var bq := s.TriedSlot(s.mapInfo[id].addr);
    PutIsOneSlot(s.vvTried, bq.0, bq.1, id);
    forall c, r | 0 <= c < NEW_BUCKET_COUNT && 0 <= r < BUCKET_SIZE ensures t.vvNew[c][r] != id {
      assert NewSlotOk(t, c, r);
    }
    if s.vvTried[bq.0][bq.1] != EMPTY {
      PromotedDemotes(s, t, id, s.vvTried[bq.0][bq.1]);
    } else {
      forall c, r | 0 <= c < NEW_BUCKET_COUNT && 0 <= r < BUCKET_SIZE
        ensures t.vvNew[c][r] == if s.vvNew[c][r] == id then EMPTY else s.vvNew[c][r]
      {
        StrippedAt(s, id, c, r);
      }
    }
  }

  /** Only the last success is newer, after a connection at the given time. */
  ghost predicate Fresh(s: State, id: int, time: int, r: State) {
    && id in s.mapInfo
    && r == s.(nLastGood := time, mapInfo := r.mapInfo) && r.mapInfo.Keys == s.mapInfo.Keys
    && r.mapInfo[id].nLastSuccess == time && r.mapInfo[id].nLastTry == time && r.mapInfo[id].nAttempts == 0
    && r.mapInfo[id].(nLastSuccess := 0, nLastTry := 0, nAttempts := 0) ==
         s.mapInfo[id].(nLastSuccess := 0, nLastTry := 0, nAttempts := 0)
    && forall x :: x in s.mapInfo && x != id ==> r.mapInfo[x] == s.mapInfo[x]
  }

  /** Good: an address without an entry changes nothing but the time of the last success. An entry with exactly that
      address gets its statistics refreshed (r). If it is tried already, that is all. If its tried slot is taken and
      the holder is to be tested first, it only becomes pending while there is room. Otherwise it takes its tried
      slot. */
  ghost predicate GoodEffect(s: State, t: State, a: Service, testBeforeEvict: bool, time: int)
    requires Inv(s)
  {
    && ((forall id :: id in s.mapInfo ==> s.mapInfo[id].addr != a) ==> t == s.(nLastGood := time))
    && forall id :: id in s.mapInfo && s.mapInfo[id].addr == a ==>
         exists r :: MarkedGood(s, r, t, id, testBeforeEvict, time)
  }

  ghost predicate MarkedGood(s: State, r: State, t: State, id: int, testBeforeEvict: bool, time: int)
    requires Shape(s.vvTried, TRIED_BUCKET_COUNT) && Shape(s.vvNew, NEW_BUCKET_COUNT)
  {
    && Fresh(s, id, time, r)
    && var b := s.p.TriedBucket(s.mapInfo[id].addr);
    var taken := s.vvTried[b][s.p.Position(false, b, s.mapInfo[id].addr)] != EMPTY;
    if s.mapInfo[id].fInTried then t == r
    else if testBeforeEvict && taken then
      t == r.(collisions := if |s.collisions| < 10 then s.collisions + {id} else s.collisions)
    else SameRest(r, t) && Seized(r, t, id)
  }

  /** Under the invariant an exact match is found if and only if there is one. */
  lemma ExactIsFound(s: State, id: int)
    requires LinksOk(s) && id in s.mapInfo
    ensures s.FindExact(s.mapInfo[id].addr) == Some(id)
  {
    assert LinkOk(s, id);
  }

  lemma GoodHasEffect(s: State, a: Service, testBeforeEvict: bool, time: int)
    requires Inv(s) && time > 0
    ensures GoodEffect(s, Ops.Good(s, a, testBeforeEvict, time), a, testBeforeEvict, time)
  {
    assert Shape(s.vvNew, NEW_BUCKET_COUNT);
    hide LinksOk, EntriesOk, NewOk, CountsOk, PendingOk, MarkedGood;
    forall id | id in s.mapInfo && s.mapInfo[id].addr == a
      ensures exists r :: MarkedGood(s, r, Ops.Good(s, a, testBeforeEvict, time), id, testBeforeEvict, time)
    {
      GoodMarks(s, id, testBeforeEvict, time);
    }
  }

  function Refreshed(s: State, id: int, time: int): State
    requires id in s.mapInfo
  {
    s.SetInfo(id, Succeeded(s.mapInfo[id], time)).(nLastGood := time)
  }

  lemma RefreshedFresh(s: State, id: int, time: int)
    requires id in s.mapInfo
    ensures Fresh(s, id, time, Refreshed(s, id, time))
  {
  }

  lemma MakeTriedSeizes(s: State, id: int)
    requires Inv(s) && id in s.mapInfo && !s.mapInfo[id].fInTried && s.mapInfo[id].nLastSuccess != 0
    ensures Shape(s.vvNew, NEW_BUCKET_COUNT)
    ensures SameRest(s, Ops.MakeTried(s, id)) && Seized(s, Ops.MakeTried(s, id), id)
  {
    assert Shape(s.vvNew, NEW_BUCKET_COUNT);
    hide LinksOk, EntriesOk, NewOk, CountsOk, PendingOk, Seized, Ops.MakeTried, Ops.Promoted;
    Ops.MakeTriedInv(s, id);
    PromotedSeizes(s, Ops.MakeTried(s, id), id);
    PromotedRest(s, Ops.MakeTried(s, id), id);
  }

  lemma GoodMarks(s: State, id: int, testBeforeEvict: bool, time: int)
    requires Inv(s) && time > 0 && id in s.mapInfo
    ensures MarkedGood(s, Refreshed(s, id, time), Ops.Good(s, s.mapInfo[id].addr, testBeforeEvict, time), id,
      testBeforeEvict, time)
  {
    assert Shape(s.vvNew, NEW_BUCKET_COUNT);
    hide LinksOk, EntriesOk, NewOk, CountsOk, PendingOk, Seized, SameRest, Fresh, Ops.MakeTried, State.FindExact;
    var a := s.mapInfo[id].addr;
    ExactIsFound(s, id);
    Ops.TouchKeeps(s, id, Succeeded(s.mapInfo[id], time), time);
    RefreshedFresh(s, id, time);
    var r := Refreshed(s, id, time);
    if !r.mapInfo[id].fInTried && !(testBeforeEvict && Occupied(r, a)) {
      MakeTriedSeizes(r, id);
    }
  }

  lemma PromotedRest(s: State, t: State, id: int)
    requires id in s.mapInfo && Shape(s.vvTried, TRIED_BUCKET_COUNT) && Shape(s.vvNew, NEW_BUCKET_COUNT)
    requires Ops.Promoted(s, t, id)
    ensures SameRest(s, t)
  {
    hide Stripped;
  }

  // ----- terrible entries -----

  /** Marked good at the given time, an entry is not terrible for a minute, and then only if its own time is unset,
      more than ten minutes ahead or more than thirty days back. */
  lemma GoodSpares(s: State, r: State, t: State, id: int, testBeforeEvict: bool, time: int, now: int)
    requires Inv(s) && MarkedGood(s, r, t, id, testBeforeEvict, time) && time > 0 && now >= time
    ensures id in t.mapInfo
    ensures t.mapInfo[id].IsTerrible(now) <==>
      now - time > 60 && var n := s.mapInfo[id].nTime; n == 0 || n > now + 600 || now - n > 2592000
  {
    hide LinksOk, EntriesOk, TriedOk, NewOk, CountsOk, PendingOk, Demoted;
  }

  /** Counted failures condemn an entry: the third if it never succeeded, the tenth once a week has passed since its
      last success; fewer do not. */
  lemma FailuresCondemn(i: Info, now: int)
    requires (i.nLastTry == 0 || now - i.nLastTry > 60) && i.nTime != 0 && now - 2592000 <= i.nTime <= now + 600
    ensures i.IsTerrible(now) <==>
      if i.nLastSuccess == 0 then i.nAttempts >= 3
      else i.nAttempts >= 10 && now - i.nLastSuccess > 604800
  {
  }

  // ----- Add -----

  /** The slot that an announcer's bucket offers to an address. */
  ghost predicate OffersSlot(s: State, a: Service, src: NetAddr, b: nat, q: nat) {
    b == s.p.NewBucket(a, src) && q == s.p.Position(true, b, a)
  }

  /** Entry id takes slot (b, q) as a further reference: nothing else changes but that the holder loses one. */
  ghost predicate Enters(u: State, t: State, b: nat, q: nat, id: int)
    requires id in u.mapInfo && Within(u.vvNew, b, q)
  {
    && OneSlot(u.vvNew, t.vvNew, b, q, id)
    && id in t.mapInfo && SameButPos(t.mapInfo[id], u.mapInfo[id].(nRefCount := u.mapInfo[id].nRefCount + 1))
    && LosesOne(u, t, u.vvNew[b][q]) && t.mapInfo.Keys <= u.mapInfo.Keys
    && (forall x :: x in u.mapInfo && x != id && x != u.vvNew[b][q] ==> Untouched(u, t, x))
    && t == u.(mapInfo := t.mapInfo, mapAddr := t.mapAddr, vRandom := t.vRandom, nNew := t.nNew, vvNew := t.vvNew)
  }

  lemma PlaceEnters(u: State, id: int, src: NetAddr, now: int, novel: bool, b: nat, q: nat)
    requires Core(u, Ops.Loose(novel, id), 0) && id in u.mapInfo && !u.mapInfo[id].fInTried
    requires (u.mapInfo[id].nRefCount == 0 <==> novel) && OffersSlot(u, u.mapInfo[id].addr, src, b, q)
    ensures Within(u.vvNew, b, q) && EMPTY !in u.mapInfo && (u.vvNew[b][q] == EMPTY || u.vvNew[b][q] in u.mapInfo)
    ensures var x := u.vvNew[b][q]; var t := Ops.Place(u, id, src, now, novel);
      if x == id then t == u
      else if x == EMPTY || u.mapInfo[x].IsTerrible(now) || (u.mapInfo[x].nRefCount > 1 && novel) then
        Enters(u, t, b, q, id)
      else if novel then
        && t.vvNew == u.vvNew && id !in t.mapInfo && t.mapInfo.Keys <= u.mapInfo.Keys
        && (forall x :: x in u.mapInfo && x != id ==> Untouched(u, t, x))
        && t == u.(mapInfo := t.mapInfo, mapAddr := t.mapAddr, vRandom := t.vRandom, nNew := t.nNew)
      else t == u
  {
    hide LinksOk, EntriesOk, TriedOk, NewOk, CountsOk, Info.IsTerrible;
    var loose := Ops.Loose(novel, id);
    SlotHolder(u, b, q, loose, 0);
    var x := u.vvNew[b][q];
    if x != id && (x == EMPTY || Ops.MayReplace(u.mapInfo[x], u.mapInfo[id], now)) {
      PlaceTakes(u, id, src, now, novel, b, q);
    } else if x != id && novel {
      DeleteKeeps(u, id, loose, 0);
      forall y | y in u.mapInfo && y != id ensures Untouched(u, Ops.Place(u, id, src, now, novel), y) {
        assert y in u.mapInfo - {id};
      }
    }
  }

  lemma PlaceTakes(u: State, id: int, src: NetAddr, now: int, novel: bool, b: nat, q: nat)
    requires Core(u, Ops.Loose(novel, id), 0) && id in u.mapInfo && !u.mapInfo[id].fInTried
    requires (u.mapInfo[id].nRefCount == 0 <==> novel) && OffersSlot(u, u.mapInfo[id].addr, src, b, q)
    requires Within(u.vvNew, b, q) && u.vvNew[b][q] != id
    requires u.vvNew[b][q] == EMPTY ||
      (u.vvNew[b][q] in u.mapInfo && Ops.MayReplace(u.mapInfo[u.vvNew[b][q]], u.mapInfo[id], now))
    ensures Enters(u, Ops.Place(u, id, src, now, novel), b, q, id)
  {
    hide LinksOk, EntriesOk, TriedOk, NewOk, CountsOk, Info.IsTerrible, Ops.MayReplace;
    SlotHolder(u, b, q, Ops.Loose(novel, id), 0);
    ClearNewKeeps(u, b, q, Ops.Loose(novel, id), 0);
    PutPutIs(u.vvNew, b, q, id);
  }

  lemma PutPutIs(u: Table, b: nat, q: nat, id: int)
    requires Within(u, b, q)
    ensures OneSlot(u, Put(Put(u, b, q, EMPTY), b, q, id), b, q, id)
  {
  }

  /** An announced time less the penalty, never negative, in 32 bits. */
  function Dated(a: Address, src: NetAddr, penalty: int): nat {
    var t := a.nTime - if a.service.ip == src then 0 else penalty;
    (if t < 0 then 0 else t) % 0x1_0000_0000
  }

  /** An unknown address gets a new id, and with it the offered slot and an entry exactly if the slot is empty, or its
      holder is terrible or has other references; the holder loses one reference. Otherwise no entry changes. */
  ghost predicate NewcomerEffect(s: State, t: State, a: Address, src: NetAddr, penalty: int, now: int, b: nat, q: nat)
    requires Within(s.vvNew, b, q)
  {
    var n, x := s.nIdCount, s.vvNew[b][q];
    && t.nIdCount == n + 1 && t.mapInfo.Keys <= s.mapInfo.Keys + {n}
    && SameRest(s, t) && t.vvTried == s.vvTried && t.nTried == s.nTried
    && (n in t.mapInfo <==>
          x == EMPTY || (x in s.mapInfo && (s.mapInfo[x].IsTerrible(now) || s.mapInfo[x].nRefCount > 1)))
    && (n in t.mapInfo ==>
          && SameButPos(t.mapInfo[n],
               Info(a.service, a.nServices, Dated(a, src, penalty), src, 0, 0, 0, 0, 1, false, 0))
          && OneSlot(s.vvNew, t.vvNew, b, q, n) && LosesOne(s, t, x)
          && forall y :: y in s.mapInfo && y != x ==> Untouched(s, t, y))
    && (n !in t.mapInfo ==> t.vvNew == s.vvNew && forall y :: y in s.mapInfo ==> Untouched(s, t, y))
  }

  /** A known entry after its address was announced again: its services grow, and its time moves on if the announced
      one is newer by more than an hour, or a day if that one is itself older than a day. */
  function Heard(i: Info, a: Address, src: NetAddr, penalty: int, now: int): Info {
    var late := (if now - a.nTime < 86400 then 3600 else 86400) + if a.service.ip == src then 0 else penalty;
    i.(nTime := if a.nTime != 0 && (i.nTime == 0 || i.nTime + late < a.nTime) then Dated(a, src, penalty) else i.nTime,
       nServices := i.nServices + a.nServices)
  }

  /** A known entry gets a further reference, in the offered slot, exactly if the announcement is newer than it, it is
      not tried and has fewer than eight, a draw with odds of one to two to the number of its references succeeds, and
      the slot is empty or its holder, another entry, terrible. The holder loses one reference. */
  ghost predicate KnownEffect(s: State, t: State, id: int, a: Address, src: NetAddr, penalty: int, now: int, roll: nat,
      b: nat, q: nat)
    requires id in s.mapInfo && s.mapInfo[id].nRefCount >= 0 && Within(s.vvNew, b, q)
  {
    var i, x := Heard(s.mapInfo[id], a, src, penalty, now), s.vvNew[b][q];
    var gains := a.nTime != 0 && (i.nTime == 0 || a.nTime > i.nTime) && !i.fInTried && i.nRefCount < 8
      && roll % Powers.Pow(2, i.nRefCount) == 0
      && x != id && (x == EMPTY || (x in s.mapInfo && s.mapInfo[x].IsTerrible(now)));
    if gains then Enters(s.SetInfo(id, i), t, b, q, id) else t == s.SetInfo(id, i)
  }

  ghost predicate AddEffect(s: State, t: State, a: Address, src: NetAddr, penalty: int, now: int, roll: nat)
    requires Inv(s)
  {
    var b := s.p.NewBucket(a.service, src);
    var q := s.p.Position(true, b, a.service);
    var k := s.Key(a.service);
    && (!s.p.env.routable(a.service.ip) ==> t == s)
    && (s.p.env.routable(a.service.ip) && (forall id :: id in s.mapInfo ==> s.Key(s.mapInfo[id].addr) != k) ==>
          NewcomerEffect(s, t, a, src, penalty, now, b, q))
    && forall id :: id in s.mapInfo && s.Key(s.mapInfo[id].addr) == k && s.p.env.routable(a.service.ip) ==>
         && s.mapInfo[id].nRefCount >= 0
         && var c := s.p.NewBucket(s.mapInfo[id].addr, src);
         KnownEffect(s, t, id, a, src, penalty, now, roll, c, s.p.Position(true, c, s.mapInfo[id].addr))
  }

  lemma NewcomerAdds(s: State, a: Address, src: NetAddr, penalty: int, now: int, roll: nat)
    requires Inv(s) && s.p.env.routable(a.service.ip) && s.Find(a.service).None?
    ensures var b := s.p.NewBucket(a.service, src); var q := s.p.Position(true, b, a.service);
      Within(s.vvNew, b, q) && NewcomerEffect(s, Ops.Add(s, a, src, penalty, now, roll), a, src, penalty, now, b, q)
  {
    assert Shape(s.vvNew, NEW_BUCKET_COUNT);
    var b := s.p.NewBucket(a.service, src);
    var q := s.p.Position(true, b, a.service);
    var pen := Ops.Penalty(a, src, penalty);
    var n, x := s.nIdCount, s.vvNew[b][q];
    SlotHolder(s, b, q, {}, 0);
    Ops.AdmitKeeps(s, a, src, pen);
    hide LinksOk, EntriesOk, TriedOk, NewOk, CountsOk, PendingOk, Info.IsTerrible, Ops.Place, OneSlot, Enters,
      NewcomerEffect;
    var u := Ops.Admit(s, a, src, pen);
    AdmittedInfos(s, u, a, src, penalty);
    PlaceEnters(u, n, src, now, true, b, q);
    var t := Ops.Add(s, a, src, penalty, now, roll);
    if x == EMPTY || u.mapInfo[x].IsTerrible(now) || u.mapInfo[x].nRefCount > 1 {
      EntersNew(s, u, t, a, src, penalty, now, b, q);
    } else {
      TurnedAway(s, u, t, a, src, penalty, now, b, q);
    }
  }

  /** State u is s with an entry for a new address that is in no slot yet. */
  ghost predicate Admitted(s: State, u: State, a: Address, src: NetAddr, penalty: int) {
    var n := s.nIdCount;
    && n !in s.mapInfo && n in u.mapInfo
    && u == s.(mapInfo := u.mapInfo, mapAddr := u.mapAddr, vRandom := u.vRandom, nIdCount := n + 1, nNew := u.nNew)
    && u.mapInfo.Keys == s.mapInfo.Keys + {n} && (forall y :: y in s.mapInfo ==> u.mapInfo[y] == s.mapInfo[y])
    && SameButPos(u.mapInfo[n], Info(a.service, a.nServices, Dated(a, src, penalty), src, 0, 0, 0, 0, 0, false, 0))
  }

  lemma AdmittedInfos(s: State, u: State, a: Address, src: NetAddr, penalty: int)
    requires u == Ops.Admit(s, a, src, Ops.Penalty(a, src, penalty)) && s.nIdCount !in s.mapInfo
    ensures Admitted(s, u, a, src, penalty)
  {
  }

  lemma EntersNew(s: State, u: State, t: State, a: Address, src: NetAddr, penalty: int, now: int, b: nat, q: nat)
    requires Admitted(s, u, a, src, penalty) && Within(s.vvNew, b, q) && Enters(u, t, b, q, s.nIdCount)
    requires var x := s.vvNew[b][q];
      x == EMPTY || (x in s.mapInfo && (s.mapInfo[x].IsTerrible(now) || s.mapInfo[x].nRefCount > 1))
    ensures NewcomerEffect(s, t, a, src, penalty, now, b, q)
  {
    hide Info.IsTerrible, OneSlot, Dated;
    forall y | y in s.mapInfo && y != s.vvNew[b][q] ensures Untouched(s, t, y) {
      assert Untouched(u, t, y);
    }
  }

  lemma TurnedAway(s: State, u: State, t: State, a: Address, src: NetAddr, penalty: int, now: int, b: nat, q: nat)
    requires Admitted(s, u, a, src, penalty) && Within(s.vvNew, b, q)
    requires var x := s.vvNew[b][q];
      x != EMPTY && x in s.mapInfo && !s.mapInfo[x].IsTerrible(now) && s.mapInfo[x].nRefCount <= 1
    requires t.vvNew == u.vvNew && s.nIdCount !in t.mapInfo && t.mapInfo.Keys <= u.mapInfo.Keys
    requires forall x :: x in u.mapInfo && x != s.nIdCount ==> Untouched(u, t, x)
    requires t == u.(mapInfo := t.mapInfo, mapAddr := t.mapAddr, vRandom := t.vRandom, nNew := t.nNew)
    ensures NewcomerEffect(s, t, a, src, penalty, now, b, q)
  {
    hide Info.IsTerrible, OneSlot, Dated;
    forall y | y in s.mapInfo ensures Untouched(s, t, y) {
      assert Untouched(u, t, y);
    }
  }

  lemma KnownAdds(s: State, id: int, a: Address, src: NetAddr, penalty: int, now: int, roll: nat)
    requires Inv(s) && s.p.env.routable(a.service.ip) && id in s.mapInfo && s.Find(a.service) == Some(id)
    ensures var b := s.p.NewBucket(s.mapInfo[id].addr, src); var q := s.p.Position(true, b, s.mapInfo[id].addr);
      && s.mapInfo[id].nRefCount >= 0 && Within(s.vvNew, b, q)
      && KnownEffect(s, Ops.Add(s, a, src, penalty, now, roll), id, a, src, penalty, now, roll, b, q)
  {
    assert Shape(s.vvNew, NEW_BUCKET_COUNT);
    var b := s.p.NewBucket(s.mapInfo[id].addr, src);
    var q := s.p.Position(true, b, s.mapInfo[id].addr);
    var i := Heard(s.mapInfo[id], a, src, penalty, now);
    assert i == Announced(s.mapInfo[id], a, Ops.Penalty(a, src, penalty), now);
    Ops.RefCountBounds(s, id);
    var u := s.SetInfo(id, i);
    Ops.TouchKeeps(s, id, i, s.nLastGood);
    assert u == s.SetInfo(id, i).(nLastGood := s.nLastGood);
    hide LinksOk, EntriesOk, TriedOk, NewOk, CountsOk, PendingOk, Info.IsTerrible, Ops.Place, OneSlot, Powers.Pow,
      Enters, Announced, Heard;
    if !i.fInTried {
      PlaceEnters(u, id, src, now, false, b, q);
    }
  }

  lemma AddHasEffect(s: State, a: Address, src: NetAddr, penalty: int, now: int, roll: nat)
    requires Inv(s)
    ensures AddEffect(s, Ops.Add(s, a, src, penalty, now, roll), a, src, penalty, now, roll)
  {
    hide LinksOk, EntriesOk, TriedOk, NewOk, CountsOk, PendingOk, NewcomerEffect, KnownEffect, Ops.Add;
    if s.p.env.routable(a.service.ip) {
      if s.Find(a.service).None? {
        NewcomerAdds(s, a, src, penalty, now, roll);
        NoneKnown(s, a.service);
      } else {
        KnownAdds(s, s.Find(a.service).value, a, src, penalty, now, roll);
        OnlyKnown(s, a.service);
      }
    } else {
      NotRoutable(s, a, src, penalty, now, roll);
    }
  }

  lemma NotRoutable(s: State, a: Address, src: NetAddr, penalty: int, now: int, roll: nat)
    requires Inv(s) && !s.p.env.routable(a.service.ip)
    ensures Ops.Add(s, a, src, penalty, now, roll) == s
  {
  }

  lemma NoneKnown(s: State, a: Service)
    requires LinksOk(s) && s.Find(a).None?
    ensures forall id :: id in s.mapInfo ==> s.Key(s.mapInfo[id].addr) != s.Key(a)
  {
    forall id | id in s.mapInfo ensures s.Key(s.mapInfo[id].addr) != s.Key(a) {
      assert LinkOk(s, id);
    }
  }

  lemma OnlyKnown(s: State, a: Service)
    requires LinksOk(s) && s.Find(a).Some?
    ensures forall id :: id in s.mapInfo ==> (s.Key(s.mapInfo[id].addr) == s.Key(a) <==> id == s.Find(a).value)
  {
    forall id | id in s.mapInfo ensures s.Key(s.mapInfo[id].addr) == s.Key(a) <==> id == s.Find(a).value {
      assert LinkOk(s, id);
    }
  }

  /** An entry that is not terrible and has a single reference survives every Add, in its slot. */
  lemma SoleHolderStays(s: State, t: State, a: Address, src: NetAddr, penalty: int, now: int, roll: nat, b: nat, q: nat)
    requires Inv(s) && AddEffect(s, t, a, src, penalty, now, roll) && Sole(s, now, b, q)
    ensures s.vvNew[b][q] in t.mapInfo && Within(t.vvNew, b, q) && t.vvNew[b][q] == s.vvNew[b][q]
  {
    assert Shape(s.vvNew, NEW_BUCKET_COUNT) && EMPTY !in s.mapInfo;
    hide LinksOk, EntriesOk, TriedOk, NewOk, CountsOk, PendingOk, Sole, KnownEffect, NewcomerEffect;
    if s.p.env.routable(a.service.ip) {
      if id :| id in s.mapInfo && s.Key(s.mapInfo[id].addr) == s.Key(a.service) {
        var c := s.p.NewBucket(s.mapInfo[id].addr, src);
        KnownKeepsSole(s, t, id, a, src, penalty, now, roll, c, s.p.Position(true, c, s.mapInfo[id].addr), b, q);
      } else {
        var c := s.p.NewBucket(a.service, src);
        NewcomerKeepsSole(s, t, a, src, penalty, now, c, s.p.Position(true, c, a.service), b, q);
      }
    }
  }

  ghost predicate Sole(s: State, now: int, b: nat, q: nat) {
    && Within(s.vvNew, b, q)
    && var x := s.vvNew[b][q];
    x in s.mapInfo && !s.mapInfo[x].IsTerrible(now) && s.mapInfo[x].nRefCount == 1
  }

  lemma KnownKeepsSole(s: State, t: State, id: int, a: Address, src: NetAddr, penalty: int, now: int, roll: nat,
      c: nat, r: nat, b: nat, q: nat)
    requires Sole(s, now, b, q) && id in s.mapInfo && s.mapInfo[id].nRefCount >= 0 && Within(s.vvNew, c, r)
    requires EMPTY !in s.mapInfo && KnownEffect(s, t, id, a, src, penalty, now, roll, c, r)
    ensures s.vvNew[b][q] in t.mapInfo && Within(t.vvNew, b, q) && t.vvNew[b][q] == s.vvNew[b][q]
  {
    hide Info.IsTerrible, Powers.Pow, Heard;
    var x, i := s.vvNew[b][q], Heard(s.mapInfo[id], a, src, penalty, now);
    if t != s.SetInfo(id, i) && x != id {
      assert x != s.vvNew[c][r];
      assert Untouched(s.SetInfo(id, i), t, x);
    }
  }

  lemma NewcomerKeepsSole(s: State, t: State, a: Address, src: NetAddr, penalty: int, now: int, c: nat, r: nat, b: nat,
      q: nat)
    requires Sole(s, now, b, q) && Within(s.vvNew, c, r) && EMPTY !in s.mapInfo
    requires NewcomerEffect(s, t, a, src, penalty, now, c, r)
    ensures s.vvNew[b][q] in t.mapInfo && Within(t.vvNew, b, q) && t.vvNew[b][q] == s.vvNew[b][q]
  {
    hide Info.IsTerrible, Dated;
    var x := s.vvNew[b][q];
    if s.nIdCount in t.mapInfo {
      assert x != s.vvNew[c][r];
    }
    assert Untouched(s, t, x);
  }

  // ----- collisions -----

  /** Settling a pending collision. It is forgotten if its entry is gone or invalid, or if the holder of its tried slot
      succeeded within four hours and so keeps its seat. The newcomer gets the seat if it is free, or if the holder was
      tried more than a minute ago and either within four hours, without success, or else the newcomer has been waiting
      for more than forty minutes. Otherwise everything stays as it is. */
  ghost predicate ResolveEffect(s: State, t: State, id: int, now: int)
    requires Inv(s)
  {
    var forgotten := s.(collisions := s.collisions - {id});
    if id !in s.mapInfo || !s.p.env.valid(s.mapInfo[id].addr.ip) then t == forgotten
    else
      var b := s.p.TriedBucket(s.mapInfo[id].addr);
      var out := s.vvTried[b][s.p.Position(false, b, s.mapInfo[id].addr)];
      var seated := t.collisions == s.collisions - {id} &&
        GoodEffect(s, t.(collisions := s.collisions), s.mapInfo[id].addr, false, now);
      if out == EMPTY then seated
      else
        && out in s.mapInfo
        && var sinceTry := now - s.mapInfo[out].nLastTry;
        if now - s.mapInfo[out].nLastSuccess < 4 * 3600 then t == forgotten
        else if sinceTry > 60 && (sinceTry < 4 * 3600 || now - s.mapInfo[id].nLastSuccess > 40 * 60) then seated
        else t == s
  }

  lemma ResolveHasEffect(s: State, id: int, now: int)
    requires Inv(s) && now > 0
    ensures ResolveEffect(s, Runs.ResolveOne(s, id, now), id, now)
  {
    hide LinksOk, EntriesOk, NewOk, CountsOk, PendingOk, Ops.Good, GoodEffect;
    if id in s.mapInfo {
      if Occupied(s, s.mapInfo[id].addr) {
        Runs.HolderKnown(s, id);
      }
      ForgottenSeat(s, id, now);
    }
  }

  lemma ForgottenSeat(s: State, id: int, now: int)
    requires Inv(s) && now > 0 && id in s.mapInfo
    ensures var g := Ops.Good(s, s.mapInfo[id].addr, false, now);
      var t := g.(collisions := g.collisions - {id});
      && t.collisions == s.collisions - {id}
      && GoodEffect(s, t.(collisions := s.collisions), s.mapInfo[id].addr, false, now)
  {
    hide Inv, Ops.Good, GoodEffect;
    var a := s.mapInfo[id].addr;
    GoodHasEffect(s, a, false, now);
    Runs.GoodCollisions(s, a, now);
    var g := Ops.Good(s, a, false, now);
    assert g.(collisions := s.collisions - {id}).(collisions := s.collisions) == g;
  }

  // ----- statistics -----

  /** The entry with exactly address a, if there is one, becomes j of it; nothing else changes. */
  ghost predicate OnlyEntry(s: State, t: State, a: Service, j: Info -> Info) {
    && ((forall id :: id in s.mapInfo ==> s.mapInfo[id].addr != a) ==> t == s)
    && forall id :: id in s.mapInfo && s.mapInfo[id].addr == a ==> t == s.(mapInfo := s.mapInfo[id := j(s.mapInfo[id])])
  }

  /** A connection attempt is noted; it counts as a failure if asked for and no failure was counted since the last
      success of any address. */
  ghost predicate AttemptEffect(s: State, t: State, a: Service, fCountFailure: bool, time: int) {
    OnlyEntry(s, t, a, (i: Info) =>
      if fCountFailure && i.nLastCountAttempt < s.nLastGood
      then i.(nLastTry := time, nLastCountAttempt := time, nAttempts := i.nAttempts + 1) else i.(nLastTry := time))
  }

  /** The time of an entry moves on once twenty minutes have passed. */
  ghost predicate ConnectedEffect(s: State, t: State, a: Service, time: int) {
    OnlyEntry(s, t, a, (i: Info) => if time > i.nTime + 1200 then i.(nTime := time % 0x1_0000_0000) else i)
  }

  ghost predicate SetServicesEffect(s: State, t: State, a: Service, services: Services) {
    OnlyEntry(s, t, a, (i: Info) => i.(nServices := services))
  }

  lemma StatisticsHaveEffect(s: State, a: Service, fCountFailure: bool, time: int, services: Services)
    requires LinksOk(s)
    ensures AttemptEffect(s, Attempt(s, a, fCountFailure, time), a, fCountFailure, time)
    ensures ConnectedEffect(s, Connected(s, a, time), a, time)
    ensures SetServicesEffect(s, SetServices(s, a, services), a, services)
  {
    hide LinksOk;
    forall id | id in s.mapInfo && s.mapInfo[id].addr == a ensures s.FindExact(a) == Some(id) {
      ExactIsFound(s, id);
    }
    assert forall id :: id in s.mapInfo ==> s.mapInfo[id := s.mapInfo[id]] == s.mapInfo;
  }

  // ----- GetAddr -----

  lemma {:induction false} DistinctCount(ids: seq<int>, good: set<int>)
    requires Distinct(ids) && forall id :: id in ids ==> id in good
    ensures |ids| <= |good| && ((forall id :: id in good ==> id in ids) ==> |ids| == |good|)
  {
    if ids == [] {
      if forall id :: id in good ==> id in ids {
        assert good == {};
      }
    } else {
      var last := ids[|ids| - 1];
      var rest := ids[..|ids| - 1];
      assert last in good && last !in rest && ids == rest + [last];
      assert good == (good - {last}) + {last};
      forall id | id in rest ensures id in good - {last} {
        assert id in ids;
      }
      DistinctCount(rest, good - {last});
    }
  }

  /** A proper answer has 23 percent of all entries, but no more than 2500 and no more than there are good ones. */
  lemma AnswerSize(s: State, ids: seq<int>, good: set<int>)
    requires Ops.Answers(ids, Ops.GetAddrLimit(s), good)
    ensures |ids| == Min(Min(23 * |s.vRandom| / 100, 2500), |good|)
  {
    DistinctCount(ids, good);
  }
}
