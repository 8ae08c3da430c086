/** The address manager's state and its operations as state transformers.

    A State holds the five linked structures of CAddrMan (mapInfo, mapAddr, vRandom, vvNew, vvTried),
    its counters and the pending tried-table collisions. Each function below gives the effect of one
    operation in closed form; AddrManObject.dfy proves the step-by-step code equal to these functions,
    and AddrManInvariant.dfy proves what they keep. */
module AddrManState {
  import opened Collections

  const TRIED_BUCKET_COUNT: nat := 256
  const NEW_BUCKET_COUNT: nat := 1024
  const BUCKET_SIZE: nat := 64
  const TRIED_BUCKETS_PER_GROUP: nat := 8
  const NEW_BUCKETS_PER_SOURCE_GROUP: nat := 64
  const NEW_BUCKETS_PER_ADDRESS: nat := 8
  const HORIZON_SECONDS := 30 * 24 * 60 * 60
  const RETRIES := 3
  const MAX_FAILURES := 10
  const MIN_FAIL_SECONDS := 7 * 24 * 60 * 60
  const REPLACEMENT_SECONDS := 4 * (60 * 60)
  const GETADDR_MAX_PCT: nat := 23
  const GETADDR_MAX: nat := 2500
  const SET_TRIED_COLLISION_SIZE: nat := 10
  const TEST_WINDOW := 40 * 60
  const EMPTY := -1

  type NetAddr = string
  type Group = seq<nat>
  type Table = seq<seq<int>>

  /** Service flags, as the set of bit positions that are set. */
  type Services = set<nat>

  /** A network address together with a port (CService). */
  datatype Service = Service(ip: NetAddr, port: nat)

  /** A service with its advertised service bits and 32-bit last-seen time (CAddress). */
  datatype Address = Address(service: Service, nServices: Services, nTime: nat)

  /** CAddrInfo: an address and the manager's statistics about it. */
  datatype Info = Info(addr: Service, nServices: Services, nTime: nat, source: NetAddr,
                       nLastTry: int, nLastCountAttempt: int, nLastSuccess: int, nAttempts: int,
                       nRefCount: int, fInTried: bool, nRandomPos: int)
  {
    predicate IsTerrible(now: int) {
      if nLastTry != 0 && nLastTry >= now - 60 then false
      else
        || nTime > now + 10 * 60
        || nTime == 0
        || now - nTime > HORIZON_SECONDS
        || (nLastSuccess == 0 && nAttempts >= RETRIES)
        || (now - nLastSuccess > MIN_FAIL_SECONDS && nAttempts >= MAX_FAILURES)
    }
  }

  /** The hash functions and address predicates the manager calls but does not define. */
  datatype Env = Env(group: (NetAddr, seq<bool>) -> Group,
                     addrHash: (nat, Service) -> nat,
                     triedHash: (nat, Group, nat) -> nat,
                     sourceHash: (nat, Group, Group) -> nat,
                     newHash: (nat, Group, nat) -> nat,
                     slotHash: (nat, bool, nat, Service) -> nat,
                     routable: NetAddr -> bool,
                     valid: NetAddr -> bool,
                     digest: seq<bool> -> nat)

  /** Where an address belongs, given the secret key and the AS map. */
  datatype Placement = Placement(env: Env, nKey: nat, asmap: seq<bool>)
  {
    function TriedBucket(a: Service): (b: nat)
      ensures b < TRIED_BUCKET_COUNT
    {
      env.triedHash(nKey, env.group(a.ip, asmap), env.addrHash(nKey, a) % TRIED_BUCKETS_PER_GROUP) % TRIED_BUCKET_COUNT
    }

    function NewBucket(a: Service, src: NetAddr): (b: nat)
      ensures b < NEW_BUCKET_COUNT
    {
      var g := env.group(src, asmap);
      var h := env.sourceHash(nKey, env.group(a.ip, asmap), g) % NEW_BUCKETS_PER_SOURCE_GROUP;
      env.newHash(nKey, g, h) % NEW_BUCKET_COUNT
    }

    function Position(fNew: bool, bucket: nat, a: Service): (q: nat)
      ensures q < BUCKET_SIZE
    {
      env.slotHash(nKey, fNew, bucket, a) % BUCKET_SIZE
    }
  }

  datatype State = State(discriminatePorts: bool, p: Placement,
                         nIdCount: int, mapInfo: map<int, Info>, mapAddr: map<Service, int>, vRandom: seq<int>,
                         nTried: int, vvTried: Table, nNew: int, vvNew: Table,
                         nLastGood: int, collisions: set<int>)
  {
    /** mapAddr's key for an address: without port discrimination the port is replaced by 0. */
    function Key(a: Service): Service {
      if discriminatePorts then a else a.(port := 0)
    }

    function Find(a: Service): (r: Option<int>)
      ensures r.Some? ==> r.value in mapInfo
    {
      if Key(a) in mapAddr && mapAddr[Key(a)] in mapInfo then Some(mapAddr[Key(a)]) else None
    }

    /** Find, but only an entry with exactly this address and port. */
    function FindExact(a: Service): (r: Option<int>)
      ensures r.Some? ==> r.value in mapInfo && mapInfo[r.value].addr == a
    {
      var r := Find(a);
      if r.Some? && mapInfo[r.value].addr == a then r else None
    }

    function SetInfo(id: int, i: Info): State {
      this.(mapInfo := mapInfo[id := i])
    }

    function NewSlot(b: nat, a: Service): (nat, nat) {
      (b, p.Position(true, b, a))
    }

    function TriedSlot(a: Service): (bq: (nat, nat))
      ensures bq.0 < TRIED_BUCKET_COUNT && bq.1 < BUCKET_SIZE
    {
      (p.TriedBucket(a), p.Position(false, p.TriedBucket(a), a))
    }
  }

  predicate Shape(t: Table, n: nat) {
    |t| == n && forall b :: 0 <= b < n ==> |t[b]| == BUCKET_SIZE
  }

  predicate Within(t: Table, b: nat, q: nat) {
    b < |t| && q < |t[b]|
  }

  function Put(t: Table, b: nat, q: nat, id: int): (r: Table)
    requires Within(t, b, q)
    ensures |r| == |t| && forall c :: 0 <= c < |t| ==> |r[c]| == |t[c]|
  {
    t[b := t[b][q := id]]
  }

  function EmptyTable(n: nat): (t: Table)
    ensures Shape(t, n) && forall b, q :: 0 <= b < n && 0 <= q < BUCKET_SIZE ==> t[b][q] == EMPTY
  {
    seq(n, b => seq(BUCKET_SIZE, q => EMPTY))
  }

  function Cleared(disc: bool, p: Placement, collisions: set<int>): State {
    State(disc, p, 0, map[], map[], [], 0, EmptyTable(TRIED_BUCKET_COUNT), 0, EmptyTable(NEW_BUCKET_COUNT), 1,
      collisions)
  }

  /** The new-table buckets that hold id at the position its address hashes to. */
  function Refs(p: Placement, t: Table, id: int, a: Service): set<int>
    requires Shape(t, NEW_BUCKET_COUNT)
  {
    set b: int | 0 <= b < NEW_BUCKET_COUNT && t[b][p.Position(true, b, a)] == id
  }

  /** t with id removed from its position in each of the first n buckets. */
  function Stripped(p: Placement, t: Table, id: int, a: Service, n: nat): (r: Table)
    requires Shape(t, NEW_BUCKET_COUNT)
    ensures Shape(r, NEW_BUCKET_COUNT)
  {
    seq(NEW_BUCKET_COUNT, b requires 0 <= b < NEW_BUCKET_COUNT =>
      var q := p.Position(true, b, a);
      if b < n && t[b][q] == id then t[b][q := EMPTY] else t[b])
  }

  function Create(s: State, a: Address, src: NetAddr): State {
    s.(nIdCount := s.nIdCount + 1,
       mapInfo := s.mapInfo[s.nIdCount :=
         Info(a.service, a.nServices, a.nTime, src, 0, 0, 0, 0, 0, false, |s.vRandom|)],
       mapAddr := s.mapAddr[s.Key(a.service) := s.nIdCount],
       vRandom := s.vRandom + [s.nIdCount])
  }

  predicate SwapOk(s: State, i: nat, j: nat) {
    i < |s.vRandom| && j < |s.vRandom| && s.vRandom[i] in s.mapInfo && s.vRandom[j] in s.mapInfo
  }

  function SwapRandom(s: State, i: nat, j: nat): State
    requires SwapOk(s, i, j)
  {
    if i == j then s else
    var x, y := s.vRandom[i], s.vRandom[j];
    var m := s.mapInfo[x := s.mapInfo[x].(nRandomPos := j)];
    s.(mapInfo := m[y := m[y].(nRandomPos := i)], vRandom := s.vRandom[i := y][j := x])
  }

  predicate DeleteOk(s: State, id: int) {
    id in s.mapInfo && s.mapInfo[id].nRandomPos >= 0 && |s.vRandom| > 0 &&
    SwapOk(s, s.mapInfo[id].nRandomPos, |s.vRandom| - 1)
  }

  function Delete(s: State, id: int): State
    requires DeleteOk(s, id)
  {
    var s1 := SwapRandom(s, s.mapInfo[id].nRandomPos, |s.vRandom| - 1);
    s1.(vRandom := s1.vRandom[..|s1.vRandom| - 1],
        mapAddr := s1.mapAddr - {s.Key(s.mapInfo[id].addr)},
        mapInfo := s1.mapInfo - {id},
        nNew := s1.nNew - 1)
  }

  predicate ClearNewOk(s: State, b: nat, q: nat) {
    Within(s.vvNew, b, q) &&
    (s.vvNew[b][q] != EMPTY ==> s.vvNew[b][q] in s.mapInfo && DeleteOk(s, s.vvNew[b][q]))
  }

  /** Drop one reference from a new-table slot; an entry that loses its last reference is deleted. */
  function ClearNew(s: State, b: nat, q: nat): State
    requires ClearNewOk(s, b, q)
  {
    var id := s.vvNew[b][q];
    if id == EMPTY then s else
    var i := s.mapInfo[id];
    var s1 := s.SetInfo(id, i.(nRefCount := i.nRefCount - 1)).(vvNew := Put(s.vvNew, b, q, EMPTY));
    if i.nRefCount == 1 then Delete(s1, id) else s1
  }

  /** Take an entry out of every new bucket and stop counting it as new. */
  function Withdraw(s: State, id: int): State
    requires id in s.mapInfo && Shape(s.vvNew, NEW_BUCKET_COUNT)
  {
    var i := s.mapInfo[id];
    s.SetInfo(id, i.(nRefCount := i.nRefCount - |Refs(s.p, s.vvNew, id, i.addr)|))
     .(vvNew := Stripped(s.p, s.vvNew, id, i.addr, NEW_BUCKET_COUNT), nNew := s.nNew - 1)
  }

  /** Take the entry in a tried slot out of the tried table, without yet placing it anywhere. */
  function Unseat(s: State, b: nat, q: nat): State
    requires Within(s.vvTried, b, q) && s.vvTried[b][q] in s.mapInfo
  {
    var id := s.vvTried[b][q];
    s.SetInfo(id, s.mapInfo[id].(fInTried := false)).(vvTried := Put(s.vvTried, b, q, EMPTY), nTried := s.nTried - 1)
  }

  /** The new-table slot of an entry in the bucket of its own source. */
  function HomeSlot(s: State, id: int): (bq: (nat, nat))
    requires id in s.mapInfo
    ensures bq.0 < NEW_BUCKET_COUNT && bq.1 < BUCKET_SIZE
  {
    var i := s.mapInfo[id];
    s.NewSlot(s.p.NewBucket(i.addr, i.source), i.addr)
  }

  predicate DemoteOk(s: State, id: int) {
    id in s.mapInfo &&
    var bq := HomeSlot(s, id);
    ClearNewOk(s, bq.0, bq.1) &&
    var s1 := ClearNew(s, bq.0, bq.1);
    id in s1.mapInfo && Within(s1.vvNew, bq.0, bq.1)
  }

  /** Give an entry one reference, in its home slot, after clearing that slot. */
  function Demote(s: State, id: int): State
    requires DemoteOk(s, id)
  {
    var bq := HomeSlot(s, id);
    var s1 := ClearNew(s, bq.0, bq.1);
    s1.SetInfo(id, s1.mapInfo[id].(nRefCount := 1)).(vvNew := Put(s1.vvNew, bq.0, bq.1, id), nNew := s1.nNew + 1)
  }

  /** Seat an entry in its (empty) tried slot. */
  function Seat(s: State, id: int): State
    requires id in s.mapInfo && Shape(s.vvTried, TRIED_BUCKET_COUNT)
  {
    var bq := s.TriedSlot(s.mapInfo[id].addr);
    s.SetInfo(id, s.mapInfo[id].(fInTried := true)).(vvTried := Put(s.vvTried, bq.0, bq.1, id), nTried := s.nTried + 1)
  }

  /** The entry's statistics after a successful connection. */
  function Succeeded(i: Info, time: int): Info {
    i.(nLastSuccess := time, nLastTry := time, nAttempts := 0)
  }

  /** A time stored in the 32-bit last-seen field, negative values being raised to 0 first. */
  function Stamp(t: int): nat {
    (if t < 0 then 0 else t) % 0x1_0000_0000
  }

  /** An existing entry after its address was announced again. */
  function Announced(i: Info, a: Address, penalty: int, now: int): Info {
    var interval := if now - a.nTime < 24 * 60 * 60 then 60 * 60 else 24 * 60 * 60;
    var t := if a.nTime != 0 && (i.nTime == 0 || i.nTime < a.nTime - interval - penalty)
             then Stamp(a.nTime - penalty) else i.nTime;
    i.(nTime := t, nServices := i.nServices + a.nServices)
  }

  function Attempt(s: State, a: Service, fCountFailure: bool, time: int): State {
    match s.FindExact(a)
    case None => s
    case Some(id) =>
      var i := s.mapInfo[id].(nLastTry := time);
      s.SetInfo(id, if fCountFailure && i.nLastCountAttempt < s.nLastGood
                    then i.(nLastCountAttempt := time, nAttempts := i.nAttempts + 1) else i)
  }

  function Connected(s: State, a: Service, time: int): State {
    match s.FindExact(a)
    case None => s
    case Some(id) =>
      if time - s.mapInfo[id].nTime > 20 * 60 then s.SetInfo(id, s.mapInfo[id].(nTime := time % 0x1_0000_0000)) else s
  }

  function SetServices(s: State, a: Service, services: Services): State {
    match s.FindExact(a)
    case None => s
    case Some(id) => s.SetInfo(id, s.mapInfo[id].(nServices := services))
  }
}
