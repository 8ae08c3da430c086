/** Collision resolution and whole runs of the address manager. */
module AddrManRuns {
  import opened AddrManState
  import opened AddrManInvariant
  import opened AddrManOperations
  import opened Collections

  // ----- ResolveCollisions -----

  datatype Verdict = Keep | Drop | Replace

  /** What to do with a pending collision: keep waiting, forget it, or let the new entry in. */
  function Judge(s: State, id: int, now: int): Verdict
    requires Shape(s.vvTried, TRIED_BUCKET_COUNT)
    requires id in s.mapInfo && Occupied(s, s.mapInfo[id].addr) ==> TriedHolder(s, id) in s.mapInfo
  {
    if id !in s.mapInfo || !s.p.env.valid(s.mapInfo[id].addr.ip) then Drop
    else if !Occupied(s, s.mapInfo[id].addr) then Replace
    else
      var old' := s.mapInfo[TriedHolder(s, id)];
      if now - old'.nLastSuccess < REPLACEMENT_SECONDS then Drop
      else if now - old'.nLastTry < REPLACEMENT_SECONDS then (if now - old'.nLastTry > 60 then Replace else Keep)
      else if now - s.mapInfo[id].nLastSuccess > TEST_WINDOW then Replace
      else Keep
  }

  /** The id in the tried slot of an entry's address. */
  function TriedHolder(s: State, id: int): int
    requires Shape(s.vvTried, TRIED_BUCKET_COUNT) && id in s.mapInfo
  {
    var bq := s.TriedSlot(s.mapInfo[id].addr);
    s.vvTried[bq.0][bq.1]
  }

  lemma HolderKnown(s: State, id: int)
    requires TriedOk(s) && id in s.mapInfo && Occupied(s, s.mapInfo[id].addr)
    ensures TriedHolder(s, id) in s.mapInfo && s.mapInfo[TriedHolder(s, id)].fInTried
  {
    var bq := s.TriedSlot(s.mapInfo[id].addr);
    assert TriedSlotOk(s, bq.0, bq.1);
  }

  ghost function ResolveOne(s: State, id: int, now: int): State
    requires Inv(s) && now > 0
  {
    if id in s.mapInfo && Occupied(s, s.mapInfo[id].addr) then HolderKnown(s, id); Resolved(s, id, now)
    else Resolved(s, id, now)
  }

  ghost function Resolved(s: State, id: int, now: int): State
    requires Inv(s) && now > 0
    requires id in s.mapInfo && Occupied(s, s.mapInfo[id].addr) ==> TriedHolder(s, id) in s.mapInfo
  {
    match Judge(s, id, now)
    case Keep => s
    case Drop => s.(collisions := s.collisions - {id})
    case Replace =>
      var t := Good(s, s.mapInfo[id].addr, false, now);
      t.(collisions := t.collisions - {id})
  }

  lemma ForgetKeeps(s: State, id: int)
    requires Inv(s)
    ensures Inv(s.(collisions := s.collisions - {id}))
  {
    var t := s.(collisions := s.collisions - {id});
    hide LinksOk, EntriesOk, NewOk, CountsOk;
    forall c | c in t.collisions && c in t.mapInfo ensures Occupied(t, t.mapInfo[c].addr) {
      assert Occupied(s, s.mapInfo[c].addr);
    }
    if id in s.collisions {
      assert s.collisions == t.collisions + {id};
    } else {
      assert t.collisions == s.collisions;
    }
    StatsKeep(s, t);
  }

  lemma GoodCollisions(s: State, a: Service, time: int)
    requires Inv(s) && time > 0
    ensures Good(s, a, false, time).collisions == s.collisions
  {
    hide LinksOk, EntriesOk, NewOk, CountsOk;
    match s.FindExact(a)
    case None =>
    case Some(id) =>
      TouchKeeps(s, id, Succeeded(s.mapInfo[id], time), time);
      var s1 := s.SetInfo(id, Succeeded(s.mapInfo[id], time)).(nLastGood := time);
      if !s1.mapInfo[id].fInTried {
        MakeTriedInv(s1, id);
      }
  }

  lemma ResolveOneKeeps(s: State, id: int, now: int)
    requires Inv(s) && now > 0
    ensures Inv(ResolveOne(s, id, now))
    ensures ResolveOne(s, id, now).collisions == s.collisions ||
      ResolveOne(s, id, now).collisions == s.collisions - {id}
  {
    hide LinksOk, EntriesOk, NewOk, CountsOk;
    if id in s.mapInfo && Occupied(s, s.mapInfo[id].addr) {
      HolderKnown(s, id);
    }
    match Judge(s, id, now)
    case Keep =>
    case Drop =>
      ForgetKeeps(s, id);
    case Replace =>
      var a := s.mapInfo[id].addr;
      GoodKeeps(s, a, false, now);
      GoodCollisions(s, a, now);
      ForgetKeeps(Good(s, a, false, now), id);
  }

  /** Resolve the given pending collisions in increasing order of id. */
  ghost function ResolveAll(s: State, ids: set<int>, now: int): (t: State)
    requires Inv(s) && now > 0
    ensures Inv(t) && t.collisions <= s.collisions
    decreases |ids|
  {
    if ids == {} then s
    else
      var id := Least(ids);
      ResolveOneKeeps(s, id, now);
      ResolveAll(ResolveOne(s, id, now), ids - {id}, now)
  }

  // ----- SelectTriedCollision -----

  /** The tried entry that the chosen pending collision would evict. A stale collision is forgotten. */
  ghost function SelectTriedCollision(s: State, id: int): (r: (State, Option<Info>))
    requires Inv(s) && id in s.collisions
    ensures Inv(r.0)
    ensures r.1.Some? ==>
      && r.0 == s && id in s.mapInfo && r.1.value.fInTried
      && s.TriedSlot(r.1.value.addr) == s.TriedSlot(s.mapInfo[id].addr)
    ensures r.1.None? ==> id !in s.mapInfo
  {
    if id !in s.mapInfo then ForgetKeeps(s, id); (s.(collisions := s.collisions - {id}), None)
    else
      HolderKnown(s, id);
      var bq := s.TriedSlot(s.mapInfo[id].addr);
      assert TriedSlotOk(s, bq.0, bq.1);
      (s, Some(s.mapInfo[TriedHolder(s, id)]))
  }

  // ----- runs -----

  /** A call, with the clock reading and random draws it makes. */
  datatype Call =
    | CallAdd(a: Address, src: NetAddr, penalty: int, now: int, roll: nat)
    | CallGood(addr: Service, testBeforeEvict: bool, time: int)
    | CallAttempt(addr: Service, fCountFailure: bool, time: int)
    | CallConnected(addr: Service, time: int)
    | CallSetServices(addr: Service, services: Services)
    | CallGetAddr(now: int, drawing: nat -> nat)
    | CallResolve(now: int)
    | CallSelectCollision(pick: int)
    | CallClear(key: nat)
  {
    /** Clock readings are positive. */
    predicate Timed() {
      match this
      case CallGood(_, _, time) => time > 0
      case CallAttempt(_, _, time) => time > 0
      case CallResolve(now) => now > 0
      case _ => true
    }
  }

  /** Clock readings are positive, and a manager is cleared only while no collision is pending. */
  predicate Proper(s: State, c: Call) {
    c.Timed() && (c.CallClear? ==> s.collisions == {})
  }

  ghost function Step(s: State, c: Call): (t: State)
    requires Inv(s) && Proper(s, c)
  {
    match c
    case CallAdd(a, src, penalty, now, roll) => Add(s, a, src, penalty, now, roll)
    case CallGood(a, test, time) => Good(s, a, test, time)
    case CallAttempt(a, count, time) => Attempt(s, a, count, time)
    case CallConnected(a, time) => Connected(s, a, time)
    case CallSetServices(a, services) => SetServices(s, a, services)
    case CallGetAddr(now, drawing) => GetAddrFrom(s, 0, GetAddrLimit(s), now, drawing, []).0
    case CallResolve(now) => ResolveAll(s, s.collisions, now)
    case CallSelectCollision(pick) => if pick in s.collisions then SelectTriedCollision(s, pick).0 else s
    case CallClear(key) => Cleared(s.discriminatePorts, s.p.(nKey := key), s.collisions)
  }

  /** Clearing resets everything but the pending collisions; the result is sound exactly if there are none. */
  lemma ClearedInv(disc: bool, p: Placement, collisions: set<int>)
    ensures Inv(Cleared(disc, p, collisions)) <==> collisions == {}
  {
    var s := Cleared(disc, p, collisions);
    assert TriedIds(s) == {} && NewIds(s) == {};
    if collisions != {} {
      assert Least(collisions) in s.collisions;
    }
  }

  lemma StatsCallKeeps(s: State, c: Call)
    requires Inv(s) && Proper(s, c) && (c.CallAttempt? || c.CallConnected? || c.CallSetServices?)
    ensures Inv(Step(s, c))
  {
    hide LinksOk, EntriesOk, NewOk, CountsOk;
    match s.FindExact(c.addr)
    case None =>
    case Some(id) =>
      var t := Step(s, c);
      assert t == s.SetInfo(id, t.mapInfo[id]).(nLastGood := s.nLastGood);
      TouchKeeps(s, id, t.mapInfo[id], s.nLastGood);
  }

  lemma StepKeeps(s: State, c: Call)
    requires Inv(s) && Proper(s, c)
    ensures Inv(Step(s, c))
  {
    hide LinksOk, EntriesOk, NewOk, CountsOk;
    match c
    case CallAdd(a, src, penalty, now, roll) => AddKeeps(s, a, src, penalty, now, roll);
    case CallGood(a, test, time) => GoodKeeps(s, a, test, time);
    case CallAttempt(_, _, _) => StatsCallKeeps(s, c);
    case CallConnected(_, _) => StatsCallKeeps(s, c);
    case CallSetServices(_, _) => StatsCallKeeps(s, c);
    case CallGetAddr(_, _) =>
    case CallResolve(_) =>
    case CallSelectCollision(_) =>
    case CallClear(key) => ClearedInv(s.discriminatePorts, s.p.(nKey := key), s.collisions);
  }

  /** Every call of a run is proper in the state it meets. */
  ghost predicate AllProper(s: State, calls: seq<Call>)
    requires Inv(s)
    decreases |calls|
  {
    calls == [] || (Proper(s, calls[0]) && (StepKeeps(s, calls[0]); AllProper(Step(s, calls[0]), calls[1..])))
  }

  /** The state after a sequence of calls. */
  ghost function Run(s: State, calls: seq<Call>): State
    requires Inv(s) && AllProper(s, calls)
    decreases |calls|
  {
    if calls == [] then s else StepKeeps(s, calls[0]); Run(Step(s, calls[0]), calls[1..])
  }

  /** Every run from any sound state, in particular from an empty manager, ends in a sound state. */
  lemma {:induction false} RunKeepsInvariant(s: State, calls: seq<Call>)
    requires Inv(s) && AllProper(s, calls)
    ensures Inv(Run(s, calls))
    decreases |calls|
  {
    hide Inv, Step;
    if calls != [] {
      StepKeeps(s, calls[0]);
      RunKeepsInvariant(Step(s, calls[0]), calls[1..]);
    }
  }

  /** A new manager. */
  ghost function Fresh(disc: bool, p: Placement): (s: State)
    ensures Inv(s)
  {
    ClearedInv(disc, p, {});
    Cleared(disc, p, {})
  }

  lemma EveryRunFromEmpty(disc: bool, p: Placement, calls: seq<Call>)
    requires AllProper(Fresh(disc, p), calls)
    ensures Inv(Run(Fresh(disc, p), calls))
  {
    RunKeepsInvariant(Fresh(disc, p), calls);
  }
}
