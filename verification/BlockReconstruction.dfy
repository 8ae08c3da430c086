/** PartiallyDownloadedBlock: filling a compact block from transactions at hand, then from the ones requested. */
module BlockReconstruction {
  import opened Collections
  import opened BlockEncodings

  /** The outcome of a successful InitData: prefilled transactions at their positions, each short id at the empty
      slot of its rank, and every such slot in the state the scans of mempool and extra transactions leave it in.
      A scan stops early only when every slot is held. */
  ghost predicate Matched(w: World, c: CompactBlock, pool: seq<Known>, extra: seq<Known>, base: Slots,
      slots: map<nat, nat>,
                          n: nat, m: nat, av: Slots)
  {
    && Placed(c.prefilled, |c.prefilled|, base) && |base| == |av| == c.TxCount() && SlotsOk(base, c.ids, slots)
    && n <= |pool| && m <= |extra|
    && (n == |pool| || forall s :: s in slots ==> PoolClaim(w, pool, n, s).Held?)
    && (m == |extra| || forall s :: s in slots ==> FinalClaim(w, pool, n, extra, m, s).Held?)
    && (forall s :: s in slots ==> slots[s] < |av| && av[slots[s]] == FinalClaim(w, pool, n, extra, m, s).Shown())
    && (forall p :: 0 <= p < |av| && p !in slots.Values ==> av[p] == base[p])
  }

  function FinalClaim(w: World, pool: seq<Known>, n: nat, extra: seq<Known>, m: nat, s: nat): Claim
    requires n <= |pool| && m <= |extra|
  {
    ExtraClaim(w, PoolClaim(w, pool, n, s), extra, m, s)
  }

  predicate Acceptable(w: World, c: CompactBlock)
  {
    !c.headerNull && (c.ids != [] || c.prefilled != []) && c.TxCount() <= w.maxTxs && PrefilledOk(w, c)
  }

  class PartialBlock {
    const w: World
    const pool: seq<Known>
    var headerNull: bool
    var available: Slots

    constructor (w: World, pool: seq<Known>)
      ensures this.w == w && this.pool == pool && headerNull && available == []
    {
      this.w, this.pool, headerNull, available := w, pool, true, [];
    }

    /** The number of transactions is below 2^16, which reading a message enforces. */
    method InitData(c: CompactBlock, extra: seq<Known>, crowded: nat -> bool)
      returns (status: Status, ghost base: Slots, ghost slots: map<nat, nat>, ghost n: nat, ghost m: nat)
      requires headerNull && available == [] && c.TxCount() <= 0xffff
      modifies this
      ensures status == Invalid <==> !Acceptable(w, c)
      ensures status == Failed <==>
        Acceptable(w, c) && !(Distinct(c.ids) && forall i :: 0 <= i < |c.ids| ==> !crowded(i))
      ensures status != CheckBlockFailed
      ensures status == Ok ==> !headerNull && Matched(w, c, pool, extra, base, slots, n, m, available)
    {
      hide Placed, SlotsOk, Tracks, PoolClaim, ExtraClaim, PrefilledOk, CountEmpty;
      base, slots, n, m := [], map[], 0, 0;
      if c.headerNull || (c.ids == [] && c.prefilled == []) {
        return Invalid, base, slots, n, m;
      }
      if c.TxCount() > w.maxTxs {
        return Invalid, base, slots, n, m;
      }
      headerNull := false;
      var ok, placed := PlacePrefilled(w, c);
      available := placed;
      if !ok {
        return Invalid, base, slots, n, m;
      }
      base := placed;
      EmptyLeft(c, placed);
      var table;
      ok, table := AssignSlots(placed, c.ids, crowded);
      if !ok {
        return Failed, base, slots, n, m;
      }
      slots := table;
      SlotsApart(placed, c.ids, table);
      var have, count;
      available, have, count, n := MatchPool(w, table, pool, placed);
      available, m := MatchExtra(w, table, extra, placed, available, have, count, PoolClaims(w, table, pool, n));
      Combined(w, c, pool, extra, base, slots, n, m, available);
      return Ok, base, slots, n, m;
    }

    /** Fills the empty slots with the transactions received, in order. Too few of them is an error that leaves the
        object in use; otherwise it is spent, and too many is an error. */
    method FillBlock(missing: seq<Tx>) returns (status: Status, vtx: seq<Tx>)
      requires !headerNull
      modifies this
      ensures var av := old(available); var empty := CountEmpty(av, |av|);
        && (|missing| < empty ==> status == Invalid && !headerNull && MovedOut(av, |missing|, available))
        && (|missing| > empty ==> status == Invalid)
        && (|missing| >= empty ==> headerNull && available == [] && Filled(av, missing, vtx))
        && (|missing| == empty ==> status == w.check(vtx))
    {
      hide CountEmpty;
      ghost var av := available;
      vtx := seq(|available|, i => 0);
      var offset := 0;
      NoneBefore(av);
      for i := 0 to |available|
        invariant |vtx| == |available| == |av| && offset == CountEmpty(av, i) <= |missing| && !headerNull
        invariant forall j :: 0 <= j < |av| ==> available[j] == if j < i then None else av[j]
        invariant forall j :: 0 <= j < i ==> CountEmpty(av, j) <= CountEmpty(av, i)
        invariant forall j :: 0 <= j < i ==>
          (av[j].None? ==> CountEmpty(av, j) < offset) && vtx[j] == At(av, missing, j)
      {
        CountStep(av, i);
        if available[i].None? {
          if |missing| <= offset {
            CountMono(av, i + 1, |av|);
            SlotFound(av, offset, i);
            OnlyMoved(av, offset, i, available);
            return Invalid, vtx;
          }
          vtx := vtx[i := missing[offset]];
          offset := offset + 1;
        } else {
          vtx := vtx[i := available[i].value];
          available := available[i := None];
        }
      }
      headerNull := true;
      available := [];
      if |missing| != offset {
        return Invalid, vtx;
      }
      status := w.check(vtx);
    }
  }

  /** The transaction at slot i once the missing ones are filled in. */
  function At(av: Slots, missing: seq<Tx>, i: nat): Tx
    requires i < |av|
  {
    if av[i].Some? then av[i].value
    else if CountEmpty(av, i) < |missing| then missing[CountEmpty(av, i)]
    else 0
  }

  ghost predicate Filled(av: Slots, missing: seq<Tx>, vtx: seq<Tx>)
  {
    |vtx| == |av| && forall i :: 0 <= i < |av| ==> vtx[i] == At(av, missing, i)
  }

  /** When the transactions run out at the k-th empty slot, everything before it has been moved out. */
  ghost predicate MovedOut(av: Slots, k: nat, after: Slots)
  {
    |after| == |av| && forall i, j :: IsSlot(av, k, i) && 0 <= j < |av| ==> after[j] == if j < i then None else av[j]
  }

  lemma OnlyMoved(av: Slots, k: nat, i: nat, after: Slots)
    requires IsSlot(av, k, i) && |after| == |av| && forall j :: 0 <= j < |av| ==>
      after[j] == if j < i then None else av[j]
    ensures MovedOut(av, k, after)
  {
    hide IsSlot;
    forall i', j | IsSlot(av, k, i') && 0 <= j < |av|
      ensures after[j] == if j < i' then None else av[j]
    {
      SlotOrder(av, k, i, k, i');
    }
  }

  lemma EmptyLeft(c: CompactBlock, av: Slots)
    requires |av| == c.TxCount() && Placed(c.prefilled, |c.prefilled|, av)
    ensures CountEmpty(av, |av|) == |c.ids|
  {
  }

  lemma SlotsApart(base: Slots, ids: seq<nat>, slots: map<nat, nat>)
    requires SlotsOk(base, ids, slots)
    ensures Injective(slots) && Vacant(slots, base)
  {
    hide IsSlot;
    forall s, t | s in slots && t in slots && s != t
      ensures slots[s] != slots[t]
    {
      var i :| 0 <= i < |ids| && ids[i] == s;
      var j :| 0 <= j < |ids| && ids[j] == t;
      SlotOrder(base, i, slots[s], j, slots[t]);
    }
    forall s | s in slots
      ensures slots[s] < |base| && base[slots[s]].None?
    {
      var i :| 0 <= i < |ids| && ids[i] == s;
      SlotIs(base, i, slots[s]);
    }
  }

  lemma SlotIs(base: Slots, i: nat, p: nat)
    requires IsSlot(base, i, p)
    ensures p < |base| && base[p].None? && CountEmpty(base, p) == i
  {
  }

  lemma Combined(w: World, c: CompactBlock, pool: seq<Known>, extra: seq<Known>, base: Slots, slots: map<nat, nat>,
      n: nat, m: nat, av: Slots)
    requires Placed(c.prefilled, |c.prefilled|, base) && |base| == c.TxCount() && SlotsOk(base, c.ids, slots)
    requires n <= |pool| && m <= |extra|
    requires n == |pool| || forall s :: s in slots ==> PoolClaim(w, pool, n, s).Held?
    requires var start := PoolClaims(w, slots, pool, n);
      && (m == |extra| || forall s :: s in slots ==> ExtraClaim(w, start[s], extra, m, s).Held?)
      && exists have, count :: Tracks(slots, base, av, have, count, ExtraClaims(w, slots, start, extra, m))
    ensures Matched(w, c, pool, extra, base, slots, n, m, av)
  {
    hide Placed, SlotsOk, PoolClaim, ExtraClaim, HeldIds;
  }

  // ----- what the scans decide -----

  /** Entry i of a list has short id s. */
  predicate Claims(w: World, known: seq<Known>, i: nat, s: nat)
    requires i < |known|
  {
    w.short(known[i].0) == s
  }

  /** A slot is left alone by the mempool if none of the scanned entries has its id, holds the only one that has, and is
      disputed if two have. */
  lemma {:induction false} PoolClaimIs(w: World, pool: seq<Known>, n: nat, s: nat)
    requires n <= |pool|
    ensures var c := PoolClaim(w, pool, n, s);
      && (c.Untouched? <==> forall i :: 0 <= i < n ==> !Claims(w, pool, i, s))
      && (c.Held? ==> exists i :: 0 <= i < n && Claims(w, pool, i, s) && c.tx == pool[i].1)
      && (c.Disputed? <==> exists i, j :: 0 <= i < j < n && Claims(w, pool, i, s) && Claims(w, pool, j, s))
  {
    if n > 0 {
      PoolClaimIs(w, pool, n - 1, s);
      var before := PoolClaim(w, pool, n - 1, s);
      if Claims(w, pool, n - 1, s) && !before.Untouched? {
        var i :| 0 <= i < n - 1 && Claims(w, pool, i, s);
        assert 0 <= i < n - 1 < n && Claims(w, pool, i, s) && Claims(w, pool, n - 1, s);
      }
    }
  }

  /** Two entries of a list have short id s but different hashes. */
  ghost predicate Differ(w: World, known: seq<Known>, n: nat, s: nat)
    requires n <= |known|
  {
    exists i, j :: 0 <= i < j < n && Claims(w, known, i, s) && Claims(w, known, j, s)
      && w.hash(known[i].1) != w.hash(known[j].1)
  }

  /** A slot disputed before the extra transactions stays so. A held one stays held unless an extra transaction with its
      id has another hash. One that is free is taken by an extra transaction with its id, unless two of them differ. */
  lemma {:induction false} ExtraClaimIs(w: World, start: Claim, extra: seq<Known>, n: nat, s: nat)
    requires n <= |extra|
    ensures var c := ExtraClaim(w, start, extra, n, s);
      && (start.Disputed? ==> c == start)
      && (start.Held? ==> c == start || c.Disputed?)
      && (start.Held? ==> (c.Disputed? <==>
            exists i :: 0 <= i < n && Claims(w, extra, i, s) && w.hash(extra[i].1) != w.hash(start.tx)))
      && (start.Untouched? ==> (c.Untouched? <==> forall i :: 0 <= i < n ==> !Claims(w, extra, i, s)))
      && (start.Untouched? && c.Held? ==> exists i :: 0 <= i < n && Claims(w, extra, i, s) && c.tx == extra[i].1)
      && (start.Untouched? && c.Held? ==>
            forall i :: 0 <= i < n && Claims(w, extra, i, s) ==> w.hash(extra[i].1) == w.hash(c.tx))
      && (start.Untouched? ==> (c.Disputed? <==> Differ(w, extra, n, s)))
  {
    if n > 0 {
      ExtraClaimIs(w, start, extra, n - 1, s);
      var before := ExtraClaim(w, start, extra, n - 1, s);
      assert Claims(w, extra, n - 1, s) <==> w.short(extra[n - 1].0) == s;
      if start.Untouched? {
        if !before.Untouched? {
          var i :| 0 <= i < n - 1 && Claims(w, extra, i, s);
          assert 0 <= i < n && Claims(w, extra, i, s);
        }
        if before.Disputed? {
          var i, j :| 0 <= i < j < n - 1 && Claims(w, extra, i, s) && Claims(w, extra, j, s)
            && w.hash(extra[i].1) != w.hash(extra[j].1);
          assert 0 <= i < j < n && Claims(w, extra, i, s) && Claims(w, extra, j, s);
        } else if before.Held? && Claims(w, extra, n - 1, s) && w.hash(before.tx) != w.hash(extra[n - 1].1) {
          var i :| 0 <= i < n - 1 && Claims(w, extra, i, s) && before.tx == extra[i].1;
          assert 0 <= i < n - 1 < n && Claims(w, extra, i, s) && Claims(w, extra, n - 1, s);
        }
      }
    }
  }

  /** A slot whose short id two scanned mempool entries have is left empty, so that its transaction is requested. */
  lemma AmbiguousRequested(w: World, c: CompactBlock, pool: seq<Known>, extra: seq<Known>, base: Slots,
      slots: map<nat, nat>, n: nat, m: nat, av: Slots, s: nat, i: nat, j: nat)
    requires Matched(w, c, pool, extra, base, slots, n, m, av) && s in slots
    requires i < j < n && Claims(w, pool, i, s) && Claims(w, pool, j, s)
    ensures slots[s] < |av| && av[slots[s]].None?
  {
    hide Placed, SlotsOk, PoolClaim, ExtraClaim, HeldIds;
    PoolClaimIs(w, pool, n, s);
    ExtraClaimIs(w, PoolClaim(w, pool, n, s), extra, m, s);
  }

  // ----- what reconstruction guarantees -----

  /** The hash a transaction is filed under is its own. */
  ghost predicate Honest(w: World, known: seq<Known>) {
    forall i :: 0 <= i < |known| ==> known[i].0 == w.hash(known[i].1)
  }

  predicate Listed(known: seq<Known>, tx: Tx) { exists i :: 0 <= i < |known| && known[i].1 == tx }

  lemma {:induction false} PoolHeld(w: World, pool: seq<Known>, n: nat, s: nat)
    requires n <= |pool| && Honest(w, pool)
    ensures var c := PoolClaim(w, pool, n, s); c.Held? ==> w.Id(c.tx) == s && Listed(pool, c.tx)
    ensures PoolClaim(w, pool, n, s).Untouched? <==> forall i :: 0 <= i < n ==> w.Id(pool[i].1) != s
  {
    if n > 0 {
      PoolHeld(w, pool, n - 1, s);
    }
  }

  lemma {:induction false} ExtraHeld(w: World, start: Claim, pool: seq<Known>, extra: seq<Known>, n: nat, s: nat)
    requires n <= |extra| && Honest(w, extra)
    requires start.Held? ==> w.Id(start.tx) == s && Listed(pool, start.tx)
    ensures var c := ExtraClaim(w, start, extra, n, s); c.Held? ==>
      w.Id(c.tx) == s && (Listed(pool, c.tx) || Listed(extra, c.tx))
    ensures ExtraClaim(w, start, extra, n, s).Untouched? <==> start.Untouched? && forall i :: 0 <= i < n ==>
      w.Id(extra[i].1) != s
  {
    if n > 0 {
      ExtraHeld(w, start, pool, extra, n - 1, s);
    }
  }

  /** Any accepted message: a slot that is filled and was not prefilled holds a transaction with that slot's id. */
  lemma FilledMatches(w: World, c: CompactBlock, pool: seq<Known>, extra: seq<Known>, base: Slots,
      slots: map<nat, nat>, n: nat, m: nat, av: Slots, i: nat)
    requires Matched(w, c, pool, extra, base, slots, n, m, av) && Honest(w, pool) && Honest(w, extra) && i < |c.ids|
    ensures var s := c.ids[i];
      && s in slots && slots[s] < |av| && IsSlot(base, i, slots[s])
      && (var slot := av[slots[s]]; slot.Some? ==>
           w.Id(slot.value) == s && (Listed(pool, slot.value) || Listed(extra, slot.value)))
  {
    hide Placed, IsSlot, PoolClaim, ExtraClaim, Honest, Listed;
    var s := c.ids[i];
    PoolHeld(w, pool, n, s);
    ExtraHeld(w, PoolClaim(w, pool, n, s), pool, extra, m, s);
  }

  /** Every transaction concerned is told apart by its short id. */
  ghost predicate Unambiguous(w: World, vtx: seq<Tx>, pool: seq<Known>, extra: seq<Known>)
  {
    forall t, u :: Concerned(vtx, pool, extra, t) && Concerned(vtx, pool, extra, u) && w.Id(t) == w.Id(u) ==> t == u
  }

  ghost predicate Concerned(vtx: seq<Tx>, pool: seq<Known>, extra: seq<Known>, tx: Tx)
  {
    tx in vtx || Listed(pool, tx) || Listed(extra, tx)
  }

  /** In the slots of a compressed block only the first is prefilled, so the i-th short id belongs at i + 1. */
  lemma CompactSlots(w: World, vtx: seq<Tx>, base: Slots, p: nat)
    requires |vtx| >= 1 && |base| == |vtx| && Placed([Prefilled(0, vtx[0])], 1, base) && 1 <= p < |vtx|
    ensures base[0] == Some(vtx[0]) && base[p].None? && CountEmpty(base, p) == p - 1
  {
    var pre := [Prefilled(0, vtx[0])];
    assert Position(pre, -1) == -1;
    assert Position(pre, 0) == 0;
    assert base[Position(pre, 0)] == Some(pre[0].tx);
    if p > 1 {
      CompactSlots(w, vtx, base, p - 1);
    } else {
      assert CountEmpty(base, 0) == 0;
    }
  }

  /** A compressed block: slot p holds transaction p of the block or is empty. */
  lemma SlotsAgree(w: World, vtx: seq<Tx>, pool: seq<Known>, extra: seq<Known>, base: Slots, slots: map<nat, nat>,
      n: nat, m: nat, av: Slots, p: nat)
    requires |vtx| >= 1 && Matched(w, CompactOf(w, vtx), pool, extra, base, slots, n, m, av)
    requires Honest(w, pool) && Honest(w, extra) && Unambiguous(w, vtx, pool, extra) && p < |vtx|
    ensures |av| == |vtx| && (av[p].Some? ==> av[p].value == vtx[p])
    ensures p == 0 ==> av[p].Some?
    ensures p > 0 ==> w.Id(vtx[p]) in slots && slots[w.Id(vtx[p])] == p
  {
    hide Placed, SlotsOk, IsSlot, PoolClaim, ExtraClaim, Honest, CountEmpty, Position;
    if p == 0 {
      FirstPrefilled(w, vtx, base, slots);
    } else {
      SlotPosition(w, vtx, base, slots, p);
      FilledMatches(w, CompactOf(w, vtx), pool, extra, base, slots, n, m, av, p - 1);
      assert vtx[p] in vtx && Concerned(vtx, pool, extra, vtx[p]);
      if av[p].Some? {
        assert Concerned(vtx, pool, extra, av[p].value);
      }
    }
  }

  lemma SlotPosition(w: World, vtx: seq<Tx>, base: Slots, slots: map<nat, nat>, p: nat)
    requires |vtx| >= 1 && |base| == |vtx| && 0 < p < |vtx|
    requires Placed([Prefilled(0, vtx[0])], 1, base) && SlotsOk(base, CompactOf(w, vtx).ids, slots)
    ensures w.Id(vtx[p]) in slots && slots[w.Id(vtx[p])] == p
  {
    hide Placed, IsSlot, CountEmpty;
    var s := CompactOf(w, vtx).ids[p - 1];
    CompactSlots(w, vtx, base, p);
    SlotFound(base, p - 1, p);
    SlotOrder(base, p - 1, p, p - 1, slots[s]);
  }

  lemma FirstPrefilled(w: World, vtx: seq<Tx>, base: Slots, slots: map<nat, nat>)
    requires |vtx| >= 1 && |base| == |vtx|
    requires Placed([Prefilled(0, vtx[0])], 1, base) && SlotsOk(base, CompactOf(w, vtx).ids, slots)
    ensures base[0] == Some(vtx[0]) && 0 !in slots.Values
  {
    hide CountEmpty;
    var pre := [Prefilled(0, vtx[0])];
    assert Position(pre, -1) == -1;
    assert Position(pre, 0) == 0;
    assert base[Position(pre, 0)] == Some(pre[0].tx);
    SlotsApart(base, CompactOf(w, vtx).ids, slots);
  }

  /** The transactions of the block whose slots are empty, in order. */
  function Missing(vtx: seq<Tx>, av: Slots, n: nat): (r: seq<Tx>)
    requires n <= |vtx| && |av| == |vtx|
    ensures |r| == CountEmpty(av, n)
  {
    if n == 0 then [] else Missing(vtx, av, n - 1) + if av[n - 1].None? then [vtx[n - 1]] else []
  }

  lemma {:induction false} MissingAt(vtx: seq<Tx>, av: Slots, n: nat, i: nat)
    requires i < n <= |vtx| && |av| == |vtx| && av[i].None?
    ensures CountEmpty(av, i) < |Missing(vtx, av, n)| && Missing(vtx, av, n)[CountEmpty(av, i)] == vtx[i]
  {
    if i < n - 1 {
      MissingAt(vtx, av, n - 1, i);
    }
  }

  /** Compress a block, match it against mempool and extra transactions, request what is missing: if short ids are
      unambiguous, the block comes back exactly. */
  method Reconstruct(w: World, vtx: seq<Tx>, pool: seq<Known>, extra: seq<Known>, crowded: nat -> bool)
    returns (matched: Status, status: Status, r: seq<Tx>)
    requires 1 <= |vtx| <= 0xffff && Honest(w, pool) && Honest(w, extra) && Unambiguous(w, vtx, pool, extra)
    ensures matched == Ok ==> r == vtx && status == w.check(vtx)
  {
    hide Matched, Honest, Unambiguous, CountEmpty, Filled, Acceptable, CompactOf;
    var c := Compress(w, vtx);
    CompactCount(w, vtx);
    var block := new PartialBlock(w, pool);
    ghost var base, slots, n, m;
    matched, base, slots, n, m := block.InitData(c, extra, crowded);
    if matched != Ok {
      return matched, Invalid, [];
    }
    ghost var av := block.available;
    Rebuilt(w, vtx, pool, extra, base, slots, n, m, av);
    var missing := Missing(vtx, block.available, |vtx|);
    status, r := block.FillBlock(missing);
    RebuiltIs(vtx, av, missing, r);
  }

  lemma CompactCount(w: World, vtx: seq<Tx>)
    requires |vtx| >= 1
    ensures CompactOf(w, vtx).TxCount() == |vtx|
  {
  }

  lemma Rebuilt(w: World, vtx: seq<Tx>, pool: seq<Known>, extra: seq<Known>, base: Slots, slots: map<nat, nat>, n: nat,
      m: nat, av: Slots)
    requires |vtx| >= 1 && Matched(w, CompactOf(w, vtx), pool, extra, base, slots, n, m, av)
    requires Honest(w, pool) && Honest(w, extra) && Unambiguous(w, vtx, pool, extra)
    ensures |av| == |vtx| && forall p :: 0 <= p < |av| && av[p].Some? ==> av[p].value == vtx[p]
  {
    hide Matched, Honest, Unambiguous;
    SlotsAgree(w, vtx, pool, extra, base, slots, n, m, av, 0);
    forall p | 0 <= p < |av| && av[p].Some?
      ensures av[p].value == vtx[p]
    {
      SlotsAgree(w, vtx, pool, extra, base, slots, n, m, av, p);
    }
  }

  lemma RebuiltIs(vtx: seq<Tx>, av: Slots, missing: seq<Tx>, r: seq<Tx>)
    requires |av| == |vtx| && missing == Missing(vtx, av, |vtx|) && Filled(av, missing, r)
    requires forall p :: 0 <= p < |av| && av[p].Some? ==> av[p].value == vtx[p]
    ensures r == vtx
  {
    hide CountEmpty, Missing;
    forall i | 0 <= i < |vtx|
      ensures r[i] == vtx[i]
    {
      if av[i].None? {
        MissingAt(vtx, av, |vtx|, i);
      }
    }
  }

  // ----- nothing at hand is requested -----

  ghost predicate NoRepeats(pool: seq<Known>) { forall i, j :: 0 <= i < j < |pool| ==> pool[i].1 != pool[j].1 }

  lemma {:induction false} PoolNeverDisputed(w: World, vtx: seq<Tx>, pool: seq<Known>, extra: seq<Known>, n: nat,
      s: nat)
    requires n <= |pool| && Honest(w, pool) && NoRepeats(pool) && Unambiguous(w, vtx, pool, extra)
    ensures var c := PoolClaim(w, pool, n, s); !c.Disputed? && (c.Held? ==> exists i :: 0 <= i < n && pool[i].1 == c.tx)
  {
    if n > 0 {
      PoolNeverDisputed(w, vtx, pool, extra, n - 1, s);
      PoolHeld(w, pool, n - 1, s);
      var before := PoolClaim(w, pool, n - 1, s);
      assert Concerned(vtx, pool, extra, pool[n - 1].1);
      assert before.Held? ==> Concerned(vtx, pool, extra, before.tx);
    }
  }

  lemma {:induction false} ExtraNeverDisputed(w: World, vtx: seq<Tx>, start: Claim, pool: seq<Known>,
      extra: seq<Known>, n: nat, s: nat)
    requires n <= |extra| && Honest(w, extra) && Unambiguous(w, vtx, pool, extra)
    requires !start.Disputed? && (start.Held? ==> w.Id(start.tx) == s && Listed(pool, start.tx))
    ensures !ExtraClaim(w, start, extra, n, s).Disputed?
  {
    if n > 0 {
      ExtraNeverDisputed(w, vtx, start, pool, extra, n - 1, s);
      ExtraHeld(w, start, pool, extra, n - 1, s);
      var before := ExtraClaim(w, start, extra, n - 1, s);
      if before.Held? && w.Id(extra[n - 1].1) == s {
        assert Concerned(vtx, pool, extra, before.tx) && Concerned(vtx, pool, extra, extra[n - 1].1);
      }
    }
  }

  /** With unambiguous ids and a mempool without repetitions, a slot is filled exactly if its transaction is at
      hand, even though the scans may stop early. */
  lemma NothingAtHandRequested(w: World, vtx: seq<Tx>, pool: seq<Known>, extra: seq<Known>, base: Slots,
      slots: map<nat, nat>, n: nat, m: nat, av: Slots, p: nat)
    requires |vtx| >= 1 && Matched(w, CompactOf(w, vtx), pool, extra, base, slots, n, m, av)
    requires Honest(w, pool) && Honest(w, extra) && Unambiguous(w, vtx, pool, extra) && NoRepeats(pool) && 0 < p < |vtx|
    ensures |av| == |vtx| && (av[p].Some? <==> Listed(pool, vtx[p]) || Listed(extra, vtx[p]))
  {
    hide Placed, SlotsOk, PoolClaim, ExtraClaim, Unambiguous;
    SlotsAgree(w, vtx, pool, extra, base, slots, n, m, av, p);
    var s := w.Id(vtx[p]);
    var start := PoolClaim(w, pool, n, s);
    PoolHeld(w, pool, n, s);
    PoolNeverDisputed(w, vtx, pool, extra, n, s);
    ExtraHeld(w, start, pool, extra, m, s);
    ExtraNeverDisputed(w, vtx, start, pool, extra, m, s);
  }
}
