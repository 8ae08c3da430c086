/** Compact blocks (BIP 152): a block sent as short transaction ids, and its reconstruction from the mempool and
    other transactions at hand. Transaction hashes, the keyed short-id hash and the hash table's bucket sizes are
    parameters. */
module BlockEncodings {
  import opened Collections

  type Tx = nat
  datatype Status = Ok | Invalid | Failed | CheckBlockFailed

  /** What lies outside: hashes, short ids, null transactions, block checks, size limits. */
  datatype World = World(hash: Tx -> nat, short: nat -> nat, isNull: Tx -> bool, check: seq<Tx> -> Status,
      maxTxs: nat) {
    function Id(tx: Tx): nat { short(hash(tx)) }
  }

  datatype Prefilled = Prefilled(index: nat, tx: Tx)
  datatype CompactBlock = CompactBlock(headerNull: bool, ids: seq<nat>, prefilled: seq<Prefilled>) {
    function TxCount(): nat { |ids| + |prefilled| }
  }

  type Slots = seq<Option<Tx>>

  /** The compact form of a block: the first transaction in full, the others as short ids. */
  method Compress(w: World, vtx: seq<Tx>) returns (c: CompactBlock)
    requires |vtx| >= 1
    ensures c == CompactOf(w, vtx)
  {
    var ids := seq(|vtx| - 1, i => 0);
    for i := 1 to |vtx|
      invariant |ids| == |vtx| - 1
      invariant forall j :: 0 <= j < i - 1 ==> ids[j] == w.Id(vtx[j + 1])
    {
      ids := ids[i - 1 := w.short(w.hash(vtx[i]))];
    }
    c := CompactBlock(false, ids, [Prefilled(0, vtx[0])]);
  }

  function CompactOf(w: World, vtx: seq<Tx>): CompactBlock
    requires |vtx| >= 1
  {
    CompactBlock(false, seq(|vtx| - 1, i requires 0 <= i < |vtx| - 1 => w.Id(vtx[i + 1])), [Prefilled(0, vtx[0])])
  }

  // ----- empty slots -----

  /** How many of the first n slots are empty. */
  function CountEmpty(av: Slots, n: nat): nat
    requires n <= |av|
  {
    if n == 0 then 0 else CountEmpty(av, n - 1) + if av[n - 1].None? then 1 else 0
  }

  /** p is the i-th empty slot, counting from zero. */
  predicate IsSlot(av: Slots, i: nat, p: nat) { p < |av| && av[p].None? && CountEmpty(av, p) == i }

  lemma {:induction false} CountMono(av: Slots, m: nat, n: nat)
    requires m <= n <= |av|
    ensures CountEmpty(av, m) <= CountEmpty(av, n) <= CountEmpty(av, m) + (n - m)
  {
    if m < n {
      CountMono(av, m, n - 1);
    }
  }

  lemma SlotOrder(av: Slots, i: nat, p: nat, j: nat, q: nat)
    requires IsSlot(av, i, p) && IsSlot(av, j, q)
    ensures i < j <==> p < q
    ensures i == j <==> p == q
  {
    if p < q {
      CountMono(av, p + 1, q);
    } else if q < p {
      CountMono(av, q + 1, p);
    }
  }

  lemma {:induction false} CountPut(av: Slots, p: nat, tx: Tx, n: nat)
    requires p < |av| && av[p].None? && n <= |av|
    ensures CountEmpty(av[p := Some(tx)], n) == CountEmpty(av, n) - if p < n then 1 else 0
  {
    if n > 0 {
      CountPut(av, p, tx, n - 1);
    }
  }

  lemma {:induction false} AllEmpty(n: nat, m: nat)
    requires m <= n
    ensures CountEmpty(seq(n, i => None), m) == m
  {
    if m > 0 {
      AllEmpty(n, m - 1);
    }
  }

  // ----- prefilled transactions -----

  /** Prefilled indices are sent as differences. */
  function Position(pre: seq<Prefilled>, i: int): int
    requires -1 <= i < |pre|
    decreases i + 1
  {
    if i < 0 then -1 else Position(pre, i - 1) + pre[i].index + 1
  }

  predicate EntryOk(w: World, c: CompactBlock, i: nat)
    requires i < |c.prefilled|
  {
    !w.isNull(c.prefilled[i].tx) && Position(c.prefilled, i) <= 0xffff && Position(c.prefilled, i) <= |c.ids| + i
  }

  predicate PrefilledOk(w: World, c: CompactBlock)
  {
    forall i :: 0 <= i < |c.prefilled| ==> EntryOk(w, c, i)
  }

  /** The slots hold exactly the first n prefilled transactions, each at its position. */
  ghost predicate Placed(pre: seq<Prefilled>, n: nat, av: Slots)
    requires n <= |pre|
  {
    && (forall i :: 0 <= i < n ==> 0 <= Position(pre, i) < |av| && av[Position(pre, i)] == Some(pre[i].tx))
    && (forall p :: 0 <= p < |av| && p > Position(pre, n - 1) ==> av[p].None?)
    && CountEmpty(av, |av|) == |av| - n
  }

  lemma {:induction false} PositionsGrow(pre: seq<Prefilled>, i: int, j: int)
    requires -1 <= i <= j < |pre|
    ensures Position(pre, i) + (j - i) <= Position(pre, j)
    decreases j - i
  {
    if i < j {
      PositionsGrow(pre, i, j - 1);
    }
  }

  method PlacePrefilled(w: World, c: CompactBlock) returns (ok: bool, av: Slots)
    ensures ok <==> PrefilledOk(w, c)
    ensures ok ==> |av| == c.TxCount() && Placed(c.prefilled, |c.prefilled|, av)
  {
    hide CountEmpty, Placed, Position;
    var total := c.TxCount();
    av := seq(total, i => None);
    NonePlaced(c.prefilled, total);
    var last := -1;
    for i := 0 to |c.prefilled|
      invariant |av| == total && last == Position(c.prefilled, i - 1) && Placed(c.prefilled, i, av)
      invariant forall j :: 0 <= j < i ==> EntryOk(w, c, j)
    {
      PositionStep(c.prefilled, i);
      last := last + c.prefilled[i].index + 1;
      if w.isNull(c.prefilled[i].tx) || last > 0xffff || last > |c.ids| + i {
        assert !EntryOk(w, c, i);
        return false, av;
      }
      PlaceStep(c.prefilled, i, av, last);
      av := av[last := Some(c.prefilled[i].tx)];
    }
    return true, av;
  }

  lemma PositionStep(pre: seq<Prefilled>, i: nat)
    requires i < |pre|
    ensures Position(pre, i) == Position(pre, i - 1) + pre[i].index + 1 >= 0
  {
    PositionsGrow(pre, -1, i);
  }

  lemma NonePlaced(pre: seq<Prefilled>, total: nat)
    ensures Placed(pre, 0, seq(total, i => None)) && Position(pre, -1) == -1
  {
    AllEmpty(total, total);
  }

  lemma PlaceStep(pre: seq<Prefilled>, i: nat, av: Slots, p: nat)
    requires i < |pre| && Placed(pre, i, av) && p == Position(pre, i) < |av|
    ensures Placed(pre, i + 1, av[p := Some(pre[i].tx)])
  {
    hide CountEmpty;
    CountPut(av, p, pre[i].tx, |av|);
    forall j | 0 <= j < i
      ensures Position(pre, j) < p
    {
      PositionsGrow(pre, j, i);
    }
  }

  // ----- slots for short ids -----

  /** Each short id is mapped to the empty slot of the same rank. */
  ghost predicate SlotsOk(av: Slots, ids: seq<nat>, slots: map<nat, nat>)
  {
    && (forall i :: 0 <= i < |ids| ==> ids[i] in slots && IsSlot(av, i, slots[ids[i]]))
    && (forall s :: s in slots ==> s in ids)
    && |slots| == |ids|
  }

  /** The slot loop never leaves the block, and fails only for a repeated id or a crowded bucket. */
  method AssignSlots(av: Slots, ids: seq<nat>, crowded: nat -> bool) returns (ok: bool, slots: map<nat, nat>)
    requires |av| <= 0xffff && CountEmpty(av, |av|) == |ids|
    ensures ok <==> Distinct(ids) && forall i :: 0 <= i < |ids| ==> !crowded(i)
    ensures ok ==> SlotsOk(av, ids, slots)
  {
    hide CountEmpty, IsSlot, SoFar;
    slots := map[];
    NoneSoFar(av, ids);
    var offset := 0;
    NoneBefore(av);
    for i := 0 to |ids|
      invariant 0 <= offset && i + offset <= |av| && CountEmpty(av, i + offset) == i
      invariant SoFar(av, ids, i, slots)
      invariant forall j :: 0 <= j < i ==> !crowded(j)
    {
      CountMono(av, i + offset, |av|);
      while av[i + offset].Some?
        invariant 0 <= offset && i + offset < |av| && CountEmpty(av, i + offset) == i
        decreases |av| - offset
      {
        CountStep(av, i + offset);
        offset := offset + 1;
        CountMono(av, i + offset, |av|);
      }
      CountStep(av, i + offset);
      SlotFound(av, i, i + offset);
      Assigned(av, ids, slots, i, i + offset);
      slots := slots[ids[i] := i + offset];
      if crowded(i) {
        return false, slots;
      }
    }
    AllSoFar(av, ids, slots);
    ok := |slots| == |ids|;
  }

  /** After i ids the table has i entries exactly if none was repeated. */
  ghost predicate SoFar(av: Slots, ids: seq<nat>, i: nat, slots: map<nat, nat>)
    requires i <= |ids|
  {
    && |slots| <= i && (|slots| == i ==> Distinct(ids[..i]) && SlotsOk(av, ids[..i], slots))
    && (|slots| < i ==> !Distinct(ids))
    && forall s :: s in slots <==> s in ids[..i]
  }

  lemma NoneSoFar(av: Slots, ids: seq<nat>)
    ensures SoFar(av, ids, 0, map[])
  {
  }

  lemma AllSoFar(av: Slots, ids: seq<nat>, slots: map<nat, nat>)
    requires SoFar(av, ids, |ids|, slots)
    ensures |slots| == |ids| <==> Distinct(ids)
    ensures Distinct(ids) ==> SlotsOk(av, ids, slots)
  {
    assert ids[..|ids|] == ids;
  }

  lemma NoneBefore(av: Slots)
    ensures CountEmpty(av, 0) == 0
  {
  }

  lemma CountStep(av: Slots, p: nat)
    requires p < |av|
    ensures CountEmpty(av, p + 1) == CountEmpty(av, p) + if av[p].None? then 1 else 0
  {
  }

  lemma SlotFound(av: Slots, i: nat, p: nat)
    requires p < |av| && av[p].None? && CountEmpty(av, p) == i
    ensures IsSlot(av, i, p)
  {
  }

  lemma Assigned(av: Slots, ids: seq<nat>, slots: map<nat, nat>, i: nat, p: nat)
    requires i < |ids| && IsSlot(av, i, p) && SoFar(av, ids, i, slots)
    ensures SoFar(av, ids, i + 1, slots[ids[i] := p])
  {
    hide IsSlot;
    var r := slots[ids[i] := p];
    assert ids[..i + 1] == ids[..i] + [ids[i]];
    if ids[i] in slots {
      assert r.Keys == slots.Keys;
      assert |r| == |slots|;
      var j :| 0 <= j < i && ids[..i][j] == ids[i];
      assert ids[j] == ids[i];
    } else {
      assert r.Keys == slots.Keys + {ids[i]};
      assert |r| == |slots| + 1;
    }
  }

  // ----- matching transactions at hand -----

  /** A transaction at hand, with the hash it is filed under. */
  type Known = (nat, Tx)

  /** What has happened to one slot: nothing, one match, or matches that disagree. */
  datatype Claim = Untouched | Held(tx: Tx) | Disputed {
    function Shown(): Option<Tx> { if Held? then Some(tx) else None }
  }

  /** The fate of the slot of short id s after the first n mempool entries: a second match disputes it. */
  function PoolClaim(w: World, pool: seq<Known>, n: nat, s: nat): Claim
    requires n <= |pool|
  {
    if n == 0 then Untouched
    else
      var before := PoolClaim(w, pool, n - 1, s);
      if w.short(pool[n - 1].0) != s then before
      else if before.Untouched? then Held(pool[n - 1].1)
      else Disputed
  }

  /** The same for extra transactions, where a match with an equal hash is not a dispute. */
  function ExtraClaim(w: World, start: Claim, extra: seq<Known>, n: nat, s: nat): Claim
    requires n <= |extra|
  {
    if n == 0 then start
    else
      var before := ExtraClaim(w, start, extra, n - 1, s);
      if w.short(extra[n - 1].0) != s then before
      else if before.Untouched? then Held(extra[n - 1].1)
      else if before.Held? && w.hash(before.tx) != w.hash(extra[n - 1].1) then Disputed
      else before
  }

  ghost predicate Injective(slots: map<nat, nat>) {
    forall s, t :: s in slots && t in slots && s != t ==> slots[s] != slots[t]
  }

  ghost function HeldIds(claims: map<nat, Claim>): set<nat> { set s | s in claims && claims[s].Held? }

  /** The slot arrays say what the claims say, the other slots are as before, and the counter counts held slots. */
  ghost predicate Tracks(slots: map<nat, nat>, base: Slots, av: Slots, have: seq<bool>, count: int,
      claims: map<nat, Claim>)
  {
    && |av| == |base| == |have| && claims.Keys == slots.Keys && count == |HeldIds(claims)|
    && (forall s :: s in slots ==> slots[s] < |av|)
    && (forall s :: s in slots ==> have[slots[s]] == !claims[s].Untouched? && av[slots[s]] == claims[s].Shown())
    && (forall p :: 0 <= p < |av| && p !in slots.Values ==> av[p] == base[p])
  }

  lemma TrackFill(slots: map<nat, nat>, base: Slots, av: Slots, have: seq<bool>, count: int, claims: map<nat, Claim>,
      s: nat, tx: Tx)
    requires Tracks(slots, base, av, have, count, claims) && Injective(slots) && s in slots && claims[s].Untouched?
    ensures var p := slots[s];
      Tracks(slots, base, av[p := Some(tx)], have[p := true], count + 1, claims[s := Held(tx)])
  {
    hide HeldIds;
    HeldMore(claims, s, tx);
    assert slots[s] in slots.Values;
  }

  lemma HeldMore(claims: map<nat, Claim>, s: nat, tx: Tx)
    requires s in claims && !claims[s].Held?
    ensures |HeldIds(claims[s := Held(tx)])| == |HeldIds(claims)| + 1
  {
    assert HeldIds(claims[s := Held(tx)]) == HeldIds(claims) + {s};
  }

  lemma HeldFewer(claims: map<nat, Claim>, s: nat)
    requires s in claims && claims[s].Held?
    ensures |HeldIds(claims[s := Disputed])| == |HeldIds(claims)| - 1
  {
    assert HeldIds(claims) == HeldIds(claims[s := Disputed]) + {s};
  }

  lemma TrackReset(slots: map<nat, nat>, base: Slots, av: Slots, have: seq<bool>, count: int, claims: map<nat, Claim>,
      s: nat)
    requires Tracks(slots, base, av, have, count, claims) && Injective(slots) && s in slots && claims[s].Held?
    ensures count >= 1 && Tracks(slots, base, av[slots[s] := None], have, count - 1, claims[s := Disputed])
  {
    hide HeldIds;
    HeldFewer(claims, s);
    assert slots[s] in slots.Values;
  }

  lemma AllHeld(slots: map<nat, nat>, base: Slots, av: Slots, have: seq<bool>, count: int, claims: map<nat, Claim>)
    requires Tracks(slots, base, av, have, count, claims) && count == |slots|
    ensures forall s :: s in slots ==> claims[s].Held?
  {
    var held := HeldIds(claims);
    assert held <= slots.Keys && |slots| == |slots.Keys|;
    assert slots.Keys == held + (slots.Keys - held);
    assert slots.Keys - held == {};
  }

  ghost function PoolClaims(w: World, slots: map<nat, nat>, pool: seq<Known>, n: nat): map<nat, Claim>
    requires n <= |pool|
  {
    map s | s in slots :: PoolClaim(w, pool, n, s)
  }

  ghost function ExtraClaims(w: World, slots: map<nat, nat>, start: map<nat, Claim>, extra: seq<Known>,
      n: nat): map<nat, Claim>
    requires n <= |extra| && start.Keys == slots.Keys
  {
    map s | s in slots :: ExtraClaim(w, start[s], extra, n, s)
  }

  ghost predicate Vacant(slots: map<nat, nat>, base: Slots)
  {
    forall s :: s in slots ==> slots[s] < |base| && base[slots[s]].None?
  }

  lemma NoClaims(w: World, slots: map<nat, nat>, pool: seq<Known>, base: Slots)
    requires Vacant(slots, base)
    ensures Tracks(slots, base, base, seq(|base|, i => false), 0, PoolClaims(w, slots, pool, 0))
  {
    assert HeldIds(PoolClaims(w, slots, pool, 0)) == {};
  }

  method MatchPool(w: World, slots: map<nat, nat>, pool: seq<Known>, base: Slots)
    returns (av: Slots, have: seq<bool>, count: int, ghost n: nat)
    requires Injective(slots) && Vacant(slots, base)
    ensures n <= |pool| && Tracks(slots, base, av, have, count, PoolClaims(w, slots, pool, n))
    ensures n == |pool| || forall s :: s in slots ==> PoolClaim(w, pool, n, s).Held?
  {
    hide Tracks, PoolClaim, Injective, Vacant;
    av, have, count, n := base, seq(|base|, i => false), 0, 0;
    NoClaims(w, slots, pool, base);
    for i := 0 to |pool|
      invariant n == i && Tracks(slots, base, av, have, count, PoolClaims(w, slots, pool, i))
    {
      ghost var claims := PoolClaims(w, slots, pool, i);
      var shortid := w.short(pool[i].0);
      PoolNext(w, slots, pool, i);
      if shortid in slots {
        var p := slots[shortid];
        Reads(slots, base, av, have, count, claims, shortid);
        if !have[p] {
          TrackFill(slots, base, av, have, count, claims, shortid, pool[i].1);
          av, have, count := av[p := Some(pool[i].1)], have[p := true], count + 1;
        } else if av[p].Some? {
          TrackReset(slots, base, av, have, count, claims, shortid);
          av, count := av[p := None], count - 1;
        }
      }
      n := i + 1;
      if count == |slots| {
        AllHeld(slots, base, av, have, count, PoolClaims(w, slots, pool, n));
        break;
      }
    }
  }

  lemma Reads(slots: map<nat, nat>, base: Slots, av: Slots, have: seq<bool>, count: int, claims: map<nat, Claim>,
      s: nat)
    requires Tracks(slots, base, av, have, count, claims) && s in slots
    ensures s in claims && slots[s] < |av| == |have| && have[slots[s]] == !claims[s].Untouched? &&
      av[slots[s]] == claims[s].Shown()
  {
  }

  lemma PoolNext(w: World, slots: map<nat, nat>, pool: seq<Known>, i: nat)
    requires i < |pool|
    ensures var s, c := w.short(pool[i].0), PoolClaims(w, slots, pool, i);
      PoolClaims(w, slots, pool, i + 1) ==
      if s !in slots then c
      else if c[s].Untouched? then c[s := Held(pool[i].1)]
      else if c[s].Held? then c[s := Disputed]
      else c
  {
  }

  lemma ExtraNext(w: World, slots: map<nat, nat>, start: map<nat, Claim>, extra: seq<Known>, i: nat)
    requires i < |extra| && start.Keys == slots.Keys
    ensures var s, c, tx := w.short(extra[i].0), ExtraClaims(w, slots, start, extra, i), extra[i].1;
      ExtraClaims(w, slots, start, extra, i + 1) ==
      if s !in slots then c
      else if c[s].Untouched? then c[s := Held(tx)]
      else if c[s].Held? && w.hash(c[s].tx) != w.hash(tx) then c[s := Disputed]
      else c
  {
  }

  method MatchExtra(w: World, slots: map<nat, nat>, extra: seq<Known>, base: Slots, av0: Slots, have0: seq<bool>,
                    count0: int, ghost start: map<nat, Claim>)
    returns (av: Slots, ghost n: nat)
    requires Injective(slots) && Tracks(slots, base, av0, have0, count0, start)
    ensures n <= |extra| && start.Keys == slots.Keys
    ensures exists have, count :: Tracks(slots, base, av, have, count, ExtraClaims(w, slots, start, extra, n))
    ensures n == |extra| || forall s :: s in slots ==> ExtraClaim(w, start[s], extra, n, s).Held?
  {
    hide Tracks, ExtraClaim, Injective;
    var have, count := have0, count0;
    av, n := av0, 0;
    StartClaims(w, slots, extra, base, av0, have0, count0, start);
    for i := 0 to |extra|
      invariant n == i && Tracks(slots, base, av, have, count, ExtraClaims(w, slots, start, extra, i))
    {
      ghost var claims := ExtraClaims(w, slots, start, extra, i);
      var shortid := w.short(extra[i].0);
      ExtraNext(w, slots, start, extra, i);
      if shortid in slots {
        var p := slots[shortid];
        Reads(slots, base, av, have, count, claims, shortid);
        if !have[p] {
          TrackFill(slots, base, av, have, count, claims, shortid, extra[i].1);
          av, have, count := av[p := Some(extra[i].1)], have[p := true], count + 1;
        } else if av[p].Some? && w.hash(av[p].value) != w.hash(extra[i].1) {
          TrackReset(slots, base, av, have, count, claims, shortid);
          av, count := av[p := None], count - 1;
        }
      }
      n := i + 1;
      if count == |slots| {
        AllHeld(slots, base, av, have, count, ExtraClaims(w, slots, start, extra, n));
        break;
      }
    }
  }

  lemma StartClaims(w: World, slots: map<nat, nat>, extra: seq<Known>, base: Slots, av: Slots, have: seq<bool>,
      count: int, start: map<nat, Claim>)
    requires Tracks(slots, base, av, have, count, start)
    ensures start.Keys == slots.Keys && ExtraClaims(w, slots, start, extra, 0) == start
  {
  }
}
