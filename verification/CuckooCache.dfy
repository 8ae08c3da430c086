/** CuckooCache::cache: a cache in which each element has eight places, insertion displaces elements, and
    elements of old epochs are discarded lazily. */
module CuckooCache {
  import opened Collections

  type Element = nat

  const WORD: nat := 0x1_0000_0000
  const INVALID: nat := 0xffff_ffff

  /** One place: the element in it, whether it may be collected (collection_flags), and whether it belongs
      to the current epoch (epoch_flags). */
  datatype Slot = Slot(elem: Element, dead: bool, recent: bool)

  type Table = seq<Slot>

  /** A slot's live content: the element with its epoch, or nothing. */
  function Content(s: Slot): multiset<(Element, bool)> {
    if s.dead then multiset{} else multiset{(s.elem, s.recent)}
  }

  /** The live elements of a table, with their epochs. */
  function Live(t: Table): multiset<(Element, bool)> {
    if t == [] then multiset{} else Content(t[0]) + Live(t[1..])
  }

  lemma LiveCons(t: Table)
    requires t != []
    ensures Live(t) == Content(t[0]) + Live(t[1..])
  {
  }

  lemma {:induction false} LiveUpdate(t: Table, i: nat, s: Slot)
    requires i < |t|
    ensures Live(t[i := s]) + Content(t[i]) == Live(t) + Content(s)
  {
    hide Live, Content;
    var rest, now := t[1..], t[i := s];
    LiveCons(t);
    LiveCons(now);
    if i == 0 {
      assert now[1..] == rest;
    } else {
      assert now[1..] == rest[i - 1 := s];
      LiveUpdate(rest, i - 1, s);
      Regroup(Content(t[0]), Live(rest[i - 1 := s]), Content(t[i]), Live(rest), Content(s));
    }
  }

  function Counts(s: Slot): nat { if s.recent && !s.dead then 1 else 0 }

  /** The number of live elements of the current epoch. */
  function EpochCount(t: Table): nat {
    if t == [] then 0 else Counts(t[0]) + EpochCount(t[1..])
  }

  lemma {:induction false} EpochUpdate(t: Table, i: nat, s: Slot)
    requires i < |t|
    ensures EpochCount(t[i := s]) + Counts(t[i]) == EpochCount(t) + Counts(s)
  {
    if i == 0 {
      assert t[0 := s][1..] == t[1..];
    } else {
      assert t[i := s][1..] == t[1..][i - 1 := s];
      EpochUpdate(t[1..], i - 1, s);
    }
  }

  lemma {:induction false} EpochAppend(t: Table, s: Slot)
    ensures EpochCount(t + [s]) == EpochCount(t) + Counts(s)
  {
    if t == [] {
      assert t + [s] == [s];
    } else {
      assert (t + [s])[1..] == t[1..] + [s];
      EpochAppend(t[1..], s);
    }
  }

  /** Start a new epoch: the current elements become old, the old ones may be collected. */
  function Aged(t: Table): (r: Table)
    ensures |r| == |t|
  {
    seq(|t|, i requires 0 <= i < |t| => if t[i].recent then t[i].(recent := false) else t[i].(dead := true))
  }

  lemma {:induction false} AgedCount(t: Table)
    ensures EpochCount(Aged(t)) == 0
  {
    if t != [] {
      assert Aged(t)[1..] == Aged(t[1..]);
      AgedCount(t[1..]);
    }
  }

  // ----- places -----

  /** The scaled hash: the upper half of a 32 by 32 bit product. */
  function Place(h: nat, size: nat): (loc: nat)
    requires size > 0
    ensures loc < size && loc * WORD <= h % WORD * size < (loc + 1) * WORD
  {
    PlaceBound(h % WORD, size);
    (h % WORD) * size / WORD
  }

  lemma PlaceBound(h: nat, size: nat)
    requires h < WORD && size > 0
    ensures h * size / WORD < size
  {
    assert h * size < WORD * size;
  }

  /** The eight places of an element. */
  function Places(hash: (nat, Element) -> nat, size: nat, e: Element): (locs: seq<nat>)
    requires size > 0
    ensures |locs| == 8 && forall i :: 0 <= i < 8 ==> locs[i] < size
  {
    [Place(hash(0, e), size), Place(hash(1, e), size), Place(hash(2, e), size), Place(hash(3, e), size),
     Place(hash(4, e), size), Place(hash(5, e), size), Place(hash(6, e), size), Place(hash(7, e), size)]
  }

  /** The i-th place of an element is where its i-th hash points to when the range of hashes is spread evenly. */
  lemma PlacesAre(hash: (nat, Element) -> nat, size: nat, e: Element, i: nat)
    requires size > 0 && i < 8
    ensures var h, loc := hash(i, e) % WORD, Places(hash, size, e)[i]; loc * WORD <= h * size < (loc + 1) * WORD
  {
    hide Place;
  }

  /** The first index holding x, or 8 if there is none. */
  function FindPlace(locs: seq<nat>, x: nat): (i: nat)
    ensures i <= |locs| && (i < |locs| ==> locs[i] == x) && forall j :: 0 <= j < i ==> locs[j] != x
  {
    if locs == [] then 0 else if locs[0] == x then 0 else 1 + FindPlace(locs[1..], x)
  }

  /** The place to swap with: the one after the last, going round; the second one if there was none. */
  function NextPlace(locs: seq<nat>, last: nat): (k: nat)
    requires |locs| == 8
    ensures k < 8
  {
    (1 + FindPlace(locs, last)) % 8
  }

  /** The element just put down is not picked up again, if its eight places are different. */
  lemma NextPlaceMoves(locs: seq<nat>, last: nat)
    requires |locs| == 8 && Distinct(locs)
    ensures locs[NextPlace(locs, last)] != last
    ensures last !in locs ==> NextPlace(locs, last) == 1
  {
    var k := FindPlace(locs, last);
    assert k < 8 ==> NextPlace(locs, last) != k;
  }

  /** The first of some places that holds e, or their number if none does. */
  function Holder(locs: seq<nat>, t: Table, e: Element): (k: nat)
    requires forall i :: 0 <= i < |locs| ==> locs[i] < |t|
    ensures k <= |locs| && (k < |locs| ==> t[locs[k]].elem == e) && forall j :: 0 <= j < k ==> t[locs[j]].elem != e
  {
    if locs == [] then 0 else if t[locs[0]].elem == e then 0 else 1 + Holder(locs[1..], t, e)
  }

  /** Slot i is the first place of its element that holds it. */
  predicate Leads(hash: (nat, Element) -> nat, t: Table, i: nat)
    requires i < |t|
  {
    var locs := Places(hash, |t|, t[i].elem);
    var k := Holder(locs, t, t[i].elem);
    k < 8 && locs[k] == i
  }

  /** Every live element sits at one of its own places; other places may hold a collectable copy, but only later ones.
      So no two live elements are equal. */
  ghost predicate Placed(hash: (nat, Element) -> nat, t: Table) {
    |t| > 0 && forall i :: 0 <= i < |t| && !t[i].dead ==> Leads(hash, t, i)
  }

  /** The element in hand is live in no slot. */
  ghost predicate Apart(t: Table, e: Element) {
    forall i :: 0 <= i < |t| && !t[i].dead ==> t[i].elem != e
  }

  predicate Present(hash: (nat, Element) -> nat, t: Table, e: Element)
    requires |t| > 0
  {
    exists i :: 0 <= i < 8 && t[Places(hash, |t|, e)[i]].elem == e
  }

  lemma {:induction false} LiveSlot(t: Table, p: (Element, bool)) returns (i: nat)
    requires p in Live(t)
    ensures i < |t| && t[i] == Slot(p.0, false, p.1)
  {
    if p in Content(t[0]) {
      i := 0;
    } else {
      var j := LiveSlot(t[1..], p);
      i := j + 1;
    }
  }

  lemma {:induction false} SlotLive(t: Table, i: nat)
    requires i < |t| && !t[i].dead
    ensures (t[i].elem, t[i].recent) in Live(t)
  {
    if i > 0 {
      SlotLive(t[1..], i - 1);
    }
  }

  /** Every live element is found. */
  lemma LivePresent(hash: (nat, Element) -> nat, t: Table, p: (Element, bool))
    requires Placed(hash, t) && p in Live(t)
    ensures Present(hash, t, p.0)
  {
    hide Places;
    var i := LiveSlot(t, p);
    assert Leads(hash, t, i);
  }

  /** The most live elements the current epoch may reach. */
  function EpochLimit(epochSize: nat): nat {
    epochSize + (if epochSize / 16 > 1 then epochSize / 16 else 1)
  }

  method CountEpoch(t: Table) returns (n: nat)
    ensures n == EpochCount(t)
  {
    n := 0;
    for i := 0 to |t|
      invariant n == EpochCount(t[..i])
    {
      assert t[..i + 1] == t[..i] + [t[i]];
      EpochAppend(t[..i], t[i]);
      n := n + (if t[i].recent && !t[i].dead then 1 else 0);
    }
    assert t[..|t|] == t;
  }

  /** The element in hand goes into a collectable place. */
  lemma PutAway(t: Table, i: nat, e: Element, recent: bool, all: multiset<(Element, bool)>)
    requires i < |t| && t[i].dead && Live(t) + multiset{(e, recent)} == all
    ensures Live(t[i := Slot(e, false, recent)]) == all
    ensures EpochCount(t[i := Slot(e, false, recent)]) == EpochCount(t) + (if recent then 1 else 0)
  {
    hide Live, EpochCount;
    LiveUpdate(t, i, Slot(e, false, recent));
    EpochUpdate(t, i, Slot(e, false, recent));
  }

  /** The element in hand changes places with a live one. */
  lemma Exchange(t: Table, i: nat, e: Element, recent: bool, all: multiset<(Element, bool)>)
    requires i < |t| && !t[i].dead && Live(t) + multiset{(e, recent)} == all
    ensures Live(t[i := Slot(e, false, recent)]) + multiset{(t[i].elem, t[i].recent)} == all
    ensures EpochCount(t[i := Slot(e, false, recent)]) + (if t[i].recent then 1 else 0) ==
      EpochCount(t) + (if recent then 1 else 0)
  {
    hide Live, EpochCount;
    LiveUpdate(t, i, Slot(e, false, recent));
    EpochUpdate(t, i, Slot(e, false, recent));
  }

  /** What the scan for a new epoch looks at and changes. */
  datatype State = State(table: Table, counter: nat)

  /** Before an insertion: count down, or scan and start a new epoch once the current one has its size. */
  function AfterCheck(epochSize: nat, s: State): State {
    var unused := EpochCount(s.table);
    if s.counter != 0 then s.(counter := s.counter - 1)
    else if unused >= epochSize then State(Aged(s.table), epochSize)
    else s.(counter := Max(1, Max(epochSize / 16, epochSize - unused)))
  }

  /** The live elements of the current epoch. */
  ghost function Recent(t: Table): set<Element> {
    set i | 0 <= i < |t| && t[i].recent && !t[i].dead :: t[i].elem
  }

  /** Since no two live elements are equal, counting slots counts elements. */
  lemma RecentCount(hash: (nat, Element) -> nat, t: Table)
    requires Placed(hash, t)
    ensures EpochCount(t) == |Recent(t)|
  {
    hide Places;
    forall i, j | 0 <= i < j < |t| && !t[i].dead && !t[j].dead ensures t[i].elem != t[j].elem {
      assert Leads(hash, t, i) && Leads(hash, t, j);
    }
    RecentPrefix(t, |t|);
    assert t[..|t|] == t;
  }

  lemma {:induction false} RecentPrefix(t: Table, n: nat)
    requires n <= |t| && forall i, j :: 0 <= i < j < |t| && !t[i].dead && !t[j].dead ==> t[i].elem != t[j].elem
    ensures EpochCount(t[..n]) == |Recent(t[..n])|
  {
    hide EpochCount, Recent;
    if n == 0 {
      NoneRecent();
    } else {
      var before, s := t[..n - 1], t[n - 1];
      RecentPrefix(t, n - 1);
      assert t[..n] == before + [s];
      EpochAppend(before, s);
      RecentAppend(before, s);
    }
  }

  lemma NoneRecent()
    ensures Recent([]) == {} && EpochCount([]) == 0
  {
  }

  lemma RecentAppend(t: Table, s: Slot)
    requires !s.dead ==> forall i :: 0 <= i < |t| && !t[i].dead ==> t[i].elem != s.elem
    ensures |Recent(t + [s])| == |Recent(t)| + Counts(s)
  {
    var r := t + [s];
    var more := if s.recent && !s.dead then {s.elem} else {};
    forall e ensures e in Recent(r) <==> e in Recent(t) + more {
      if e in Recent(t) {
        var i :| 0 <= i < |t| && t[i].recent && !t[i].dead && t[i].elem == e;
        assert r[i] == t[i];
      }
      if e in more {
        assert r[|t|] == s;
      }
    }
    assert Recent(r) == Recent(t) + more;
  }

  class Cache {
    const hash: (nat, Element) -> nat
    const epochSize: nat
    const depthLimit: nat
    var table: Table
    var counter: nat

    ghost function View(): State
      reads this
    {
      State(table, counter)
    }

    /** Elements lead their places, and even if every insertion until the next scan grows the
        current epoch, it stays within its limit. */
    ghost predicate Valid()
      reads this
    {
      && Placed(hash, table) && epochSize >= 1 && depthLimit >= 1
      && EpochCount(table) + counter <= EpochLimit(epochSize)
    }

    /** A cache set up for newSize elements; filler is the default element, depthLimit its binary logarithm. */
    constructor (hash: (nat, Element) -> nat, newSize: nat, depthLimit: nat, filler: Element)
      requires newSize < WORD && depthLimit >= 1
      ensures Valid() && Live(table) == multiset{} && |table| == Max(2, newSize)
      ensures this.hash == hash && counter == epochSize
      ensures epochSize == Max(1, (45 * |table|) % WORD / 100)
    {
      this.hash := hash;
      this.depthLimit := depthLimit;
      var size := Max(2, newSize);
      table := seq(size, i => Slot(filler, true, false));
      var es := Max(1, (45 * size) % WORD / 100);
      epochSize, counter := es, es;
      new;
      EmptyTable(table);
    }

    /** Age the epochs when the current one has grown to its size. One more insertion then fits the limit. */
    method EpochCheck()
      requires Valid()
      modifies this`table, this`counter
      ensures View() == AfterCheck(epochSize, old(View()))
      ensures old(counter) == 0 && |Recent(old(table))| >= epochSize ==>
        table == Aged(old(table)) && counter == epochSize
      ensures !(old(counter) == 0 && |Recent(old(table))| >= epochSize) ==> table == old(table)
      ensures Placed(hash, table) && |table| == |old(table)|
      ensures EpochCount(table) + counter + 1 <= EpochLimit(epochSize)
      ensures old(counter) == 0 ==>
        counter >= 1 && counter >= epochSize / 16 && EpochCount(table) + counter >= epochSize
    {
      hide EpochCount, Placed, Aged, Recent;
      RecentCount(hash, table);
      if counter != 0 {
        counter := counter - 1;
        return;
      }
      var unused := CountEpoch(table);
      if unused >= epochSize {
        AgedCount(table);
        AgedPlaced(hash, table);
        AgeAll();
        counter := epochSize;
      } else {
        counter := Max(1, Max(epochSize / 16, epochSize - unused));
      }
    }

    method AgeAll()
      modifies this`table
      ensures table == Aged(old(table))
    {
      ghost var t := table;
      for i := 0 to |table|
        invariant |table| == |t| && table == Aged(t)[..i] + t[i..]
      {
        if table[i].recent {
          table := table[i := table[i].(recent := false)];
        } else {
          table := table[i := table[i].(dead := true)];
        }
      }
    }

    /** Look for an element among its places, optionally allowing its collection. The elements stay. */
    method Contains(e: Element, erase: bool) returns (found: bool)
      requires Valid()
      modifies this`table
      ensures Valid() && found == Present(hash, old(table), e)
      ensures LookedUp(hash, old(table), e, erase, table)
    {
      hide EpochCount, Placed, Places;
      assert |table| > 0 by { PlacedTable(hash, table); }
      var locs := Places(hash, |table|, e);
      for k := 0 to 8
        invariant table == old(table) && forall j :: 0 <= j < k ==> table[locs[j]].elem != e
      {
        if table[locs[k]].elem == e {
          if erase {
            EpochUpdate(table, locs[k], table[locs[k]].(dead := true));
            RevivePlaced(hash, table, k, table[locs[k]].(dead := true));
            table := table[locs[k] := table[locs[k]].(dead := true)];
            assert Erased(hash, old(table), e, table);
          }
          return true;
        }
      }
      return false;
    }

    /** Insert an element. After the epoch check the live elements are those before, plus the new one, minus
        at most one, all at their own places; an element already there is only kept and made recent. */
    method Insert(e: Element) returns (ghost lost: set<Element>)
      requires Valid()
      modifies this`table, this`counter
      ensures Valid() && counter == AfterCheck(epochSize, old(View())).counter
      ensures Inserted(hash, AfterCheck(epochSize, old(View())).table, e, table, lost)
    {
      hide Live, EpochCount, Placed, Places, Aged, Displaced;
      lost := {};
      EpochCheck();
      ghost var t0 := table;
      assert |table| > 0 by { PlacedTable(hash, table); }
      var locs := Places(hash, |table|, e);
      for k := 0 to 8
        invariant table == t0 && EpochCount(table) + counter + 1 <= EpochLimit(epochSize)
        invariant forall j :: 0 <= j < k ==> table[locs[j]].elem != e
      {
        if table[locs[k]].elem == e {
          var kept := Slot(e, false, true);
          EpochUpdate(table, locs[k], kept);
          RevivePlaced(hash, table, k, kept);
          table := table[locs[k] := kept];
          assert Kept(hash, t0, e, table);
          return;
        }
      }
      lost := Displace(e);
    }

    /** The loop of insert: put the element in hand into a collectable place, or swap it with an occupant. Nothing is
        lost if one of the first element's places was collectable. */
    method Displace(e0: Element) returns (ghost lost: set<Element>)
      requires |table| > 0 && Placed(hash, table) && !Present(hash, table, e0) && depthLimit >= 1
      modifies this`table
      ensures Placed(hash, table)
      ensures EpochCount(table) <= EpochCount(old(table)) + 1
      ensures Displaced(hash, old(table), e0, table, lost)
    {
      hide Live, EpochCount, Placed, Places, Apart, Displaced;
      var e, lastLoc, lastEpoch := e0, INVALID, true;
      ghost var t0 := table;
      ghost var all := Live(t0) + multiset{(e0, true)};
      lost := {};
      AbsentApart(hash, table, e0);
      for depth := 0 to depthLimit
        invariant Placed(hash, table) && Apart(table, e) && |table| == |t0|
        invariant Live(table) + multiset{(e, lastEpoch)} == all
        invariant EpochCount(table) + (if lastEpoch then 1 else 0) == EpochCount(t0) + 1
        invariant if depth == 0 then table == t0 && e == e0 else Crowded(hash, t0, e0)
      {
        var locs := Places(hash, |table|, e);
        var k := FindDead(table, locs);
        if k < 8 {
          PutAway(table, locs[k], e, lastEpoch, all);
          PutPlaced(hash, table, k, e, lastEpoch);
          table := table[locs[k] := Slot(e, false, lastEpoch)];
          NothingLost(hash, t0, e0, table);
          return;
        }
        ghost var chosen := NextPlace(locs, lastLoc);
        lastLoc := locs[NextPlace(locs, lastLoc)];
        var victim := table[lastLoc];
        Exchange(table, lastLoc, e, lastEpoch, all);
        PutPlaced(hash, table, chosen, e, lastEpoch);
        table := table[lastLoc := Slot(e, victim.dead, lastEpoch)];
        e, lastEpoch := victim.elem, victim.recent;
      }
      OneLost(hash, t0, e0, table, (e, lastEpoch));
      lost := {e};
    }
  }

  /** The first collectable place, or 8 if there is none. */
  method FindDead(t: Table, locs: seq<nat>) returns (k: nat)
    requires |locs| == 8 && forall i :: 0 <= i < 8 ==> locs[i] < |t|
    ensures k <= 8 && (k < 8 ==> t[locs[k]].dead) && forall i :: 0 <= i < k ==> !t[locs[i]].dead
  {
    k := 0;
    while k < 8
      invariant k <= 8 && forall i :: 0 <= i < k ==> !t[locs[i]].dead
    {
      if t[locs[k]].dead {
        return;
      }
      k := k + 1;
    }
  }

  /** The first place of e that holds it was made collectable; nothing else changed. */
  predicate Erased(hash: (nat, Element) -> nat, t: Table, e: Element, r: Table)
    requires |t| > 0
  {
    var locs := Places(hash, |t|, e);
    var k := Holder(locs, t, e);
    k < 8 && r == t[locs[k] := t[locs[k]].(dead := true)]
  }

  /** The first place of e that holds it is now live and recent; nothing else changed. */
  predicate Kept(hash: (nat, Element) -> nat, t: Table, e: Element, r: Table)
    requires |t| > 0
  {
    var locs := Places(hash, |t|, e);
    var k := Holder(locs, t, e);
    k < 8 && r == t[locs[k] := Slot(e, false, true)]
  }

  /** All eight places of e are taken by live elements. */
  ghost predicate Crowded(hash: (nat, Element) -> nat, t: Table, e: Element)
    requires |t| > 0
  {
    forall k :: 0 <= k < 8 ==> !t[Places(hash, |t|, e)[k]].dead
  }

  /** A new element e was put into t0: the live elements gain it and lose at most one, and none unless all its places
      were taken. */
  ghost predicate Displaced(hash: (nat, Element) -> nat, t0: Table, e: Element, t: Table, lost: set<Element>)
    requires |t0| > 0
  {
    && |t| == |t0|
    && (|| (lost == {} && Live(t) == Live(t0) + multiset{(e, true)})
        || exists x: (Element, bool) :: lost == {x.0} && Crowded(hash, t0, e) && Lacks(t0, e, t, x))
  }

  ghost predicate Lacks(t0: Table, e: Element, t: Table, x: (Element, bool)) {
    Live(t) + multiset{x} == Live(t0) + multiset{(e, true)}
  }

  /** What inserting e does after the epoch check. */
  ghost predicate Inserted(hash: (nat, Element) -> nat, t0: Table, e: Element, t: Table, lost: set<Element>) {
    && |t0| > 0
    && if Present(hash, t0, e) then lost == {} && Kept(hash, t0, e, t)
       else Displaced(hash, t0, e, t, lost)
  }

  /** What looking for e does. */
  ghost predicate LookedUp(hash: (nat, Element) -> nat, t: Table, e: Element, erase: bool, r: Table) {
    && |t| > 0
    && if erase && Present(hash, t, e) then Erased(hash, t, e, r) else r == t
  }

  /** An erased element is still found. */
  lemma ErasedFound(hash: (nat, Element) -> nat, t: Table, e: Element, r: Table)
    requires LookedUp(hash, t, e, true, r)
    ensures |r| == |t| && Present(hash, r, e) == Present(hash, t, e)
  {
    if Present(hash, t, e) {
      var locs := Places(hash, |t|, e);
      assert r[locs[Holder(locs, t, e)]].elem == e;
    }
  }

  lemma NothingLost(hash: (nat, Element) -> nat, t0: Table, e: Element, t: Table)
    requires |t0| == |t| > 0 && Live(t) == Live(t0) + multiset{(e, true)}
    ensures Displaced(hash, t0, e, t, {})
  {
  }

  lemma OneLost(hash: (nat, Element) -> nat, t0: Table, e: Element, t: Table, x: (Element, bool))
    requires |t0| == |t| > 0 && Crowded(hash, t0, e) && Live(t) + multiset{x} == Live(t0) + multiset{(e, true)}
    ensures Displaced(hash, t0, e, t, {x.0})
  {
    assert Lacks(t0, e, t, x);
  }

  lemma PlacedTable(hash: (nat, Element) -> nat, t: Table)
    requires Placed(hash, t)
    ensures |t| > 0
  {
  }

  lemma AbsentApart(hash: (nat, Element) -> nat, t: Table, e: Element)
    requires Placed(hash, t) && !Present(hash, t, e)
    ensures Apart(t, e)
  {
    hide Places;
    forall i | 0 <= i < |t| && !t[i].dead ensures t[i].elem != e {
      assert Leads(hash, t, i);
    }
  }

  /** Changing only the flags of the first place that holds an element. */
  lemma RevivePlaced(hash: (nat, Element) -> nat, t: Table, k: nat, s: Slot)
    requires Placed(hash, t) && k == Holder(Places(hash, |t|, s.elem), t, s.elem) < 8
    ensures Placed(hash, t[Places(hash, |t|, s.elem)[k] := s])
  {
    hide Places;
    var loc := Places(hash, |t|, s.elem)[k];
    var r := t[loc := s];
    forall i | 0 <= i < |r| && !r[i].dead ensures Leads(hash, r, i) {
      assert Leads(hash, t, i);
      SameHolder(hash, t, r, i);
    }
  }

  /** A slot goes on leading while no other one comes to hold its element. */
  lemma SameHolder(hash: (nat, Element) -> nat, t: Table, r: Table, i: nat)
    requires |t| == |r| && i < |t| && Leads(hash, t, i)
    requires r[i].elem == t[i].elem && forall j :: 0 <= j < |t| && r[j].elem == t[i].elem ==> t[j].elem == t[i].elem
    ensures Leads(hash, r, i)
  {
    hide Places;
    var locs := Places(hash, |t|, t[i].elem);
    var k := Holder(locs, t, t[i].elem);
    assert r[locs[k]].elem == t[i].elem;
    assert Holder(locs, r, t[i].elem) == k;
  }

  /** Putting the element in hand at one of its places, all earlier ones being live; a live element that was there is
      then in hand. */
  lemma PutPlaced(hash: (nat, Element) -> nat, t: Table, k: nat, e: Element, recent: bool)
    requires Placed(hash, t) && k < 8 && Apart(t, e)
    requires forall j :: 0 <= j < k ==> !t[Places(hash, |t|, e)[j]].dead
    ensures var loc := Places(hash, |t|, e)[k];
      var r := t[loc := Slot(e, false, recent)];
      Placed(hash, r) && (!t[loc].dead ==> Apart(r, t[loc].elem))
  {
    hide Places;
    var locs := Places(hash, |t|, e);
    var loc := locs[k];
    var r := t[loc := Slot(e, false, recent)];
    forall i | 0 <= i < |r| && !r[i].dead ensures Leads(hash, r, i) {
      if i == loc {
        PutLeads(hash, t, k, e, recent);
      } else {
        assert Leads(hash, t, i);
        SameHolder(hash, t, r, i);
      }
    }
    forall i, j | 0 <= i < j < |t| && !t[i].dead && !t[j].dead ensures t[i].elem != t[j].elem {
      assert Leads(hash, t, i) && Leads(hash, t, j);
    }
  }

  lemma PutLeads(hash: (nat, Element) -> nat, t: Table, k: nat, e: Element, recent: bool)
    requires |t| > 0 && k < 8 && Apart(t, e)
    requires forall j :: 0 <= j < k ==> !t[Places(hash, |t|, e)[j]].dead
    ensures var loc := Places(hash, |t|, e)[k];
      Leads(hash, t[loc := Slot(e, false, recent)], loc)
  {
    hide Places;
    var locs := Places(hash, |t|, e);
    var r := t[locs[k] := Slot(e, false, recent)];
    var h := Holder(locs, r, e);
    assert r[locs[k]].elem == e;
    assert h <= k;
  }

  lemma AgedPlaced(hash: (nat, Element) -> nat, t: Table)
    requires Placed(hash, t)
    ensures Placed(hash, Aged(t))
  {
    hide Places;
    var r := Aged(t);
    forall i | 0 <= i < |r| && !r[i].dead ensures Leads(hash, r, i) {
      assert Leads(hash, t, i);
      SameHolder(hash, t, r, i);
    }
  }

  lemma {:induction false} EmptyTable(t: Table)
    requires forall i :: 0 <= i < |t| ==> t[i].dead
    ensures Live(t) == multiset{} && EpochCount(t) == 0
  {
    if t != [] {
      EmptyTable(t[1..]);
    }
  }
}
