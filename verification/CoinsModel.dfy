/** Coins, cache entries and what a write-back cache over a set of unspent coins means. */
module CoinsModel {
  import opened Collections

  const OP_RETURN: nat := 0x6a
  const MAX_SCRIPT_SIZE: nat := 10000
  const NULL_VALUE := -1

  type Script = seq<nat>

  datatype OutPoint = OutPoint(hash: nat, n: nat)

  predicate IsUnspendable(s: Script) {
    (|s| > 0 && s[0] == OP_RETURN) || |s| > MAX_SCRIPT_SIZE
  }

  datatype Coin = Coin(nValue: int, scriptPubKey: Script, fCoinBase: bool, nHeight: nat) {
    predicate IsSpent() { nValue == NULL_VALUE }
  }

  /** The empty coin, which Coin::Clear leaves behind. */
  const NO_COIN := Coin(NULL_VALUE, [], false, 0)

  /** Heap memory held by a script of the given length; a cleared script holds none. */
  datatype Memory = Memory(alloc: nat -> nat) {
    function Usage(c: Coin): nat {
      if c.scriptPubKey == [] then 0 else alloc(|c.scriptPubKey|)
    }
  }

  datatype Entry = Entry(coin: Coin, dirty: bool, fresh': bool)

  type Coins = map<OutPoint, Coin>
  type CacheMap = map<OutPoint, Entry>

  /** The five documented states of a cache entry. */
  predicate LegalState(e: Entry) {
    || (!e.coin.IsSpent() && e.fresh' && e.dirty)
    || (!e.coin.IsSpent() && !e.fresh' && e.dirty)
    || (!e.coin.IsSpent() && !e.fresh' && !e.dirty)
    || (e.coin.IsSpent() && e.fresh' && !e.dirty)
    || (e.coin.IsSpent() && !e.fresh' && e.dirty)
  }

  /** An entry is sound over a parent that shows the coins b: FRESH means the parent shows no coin there,
      and an entry that is not DIRTY agrees with the parent. */
  predicate EntryOk(b: Coins, o: OutPoint, e: Entry) {
    && LegalState(e)
    && (e.fresh' ==> o !in b)
    && (!e.dirty && !e.coin.IsSpent() ==> o in b && b[o] == e.coin)
  }

  ghost predicate CacheOk(b: Coins, m: CacheMap) {
    forall o :: o in m ==> EntryOk(b, o, m[o])
  }

  /** The coins shown by a cache m over a parent that shows b. */
  function Overlay(b: Coins, m: CacheMap): (r: Coins)
    ensures forall o :: o in r <==> if o in m then !m[o].coin.IsSpent() else o in b
    ensures forall o :: o in r ==> r[o] == if o in m then m[o].coin else b[o]
  {
    map o | o in b.Keys + m.Keys && (o in m ==> !m[o].coin.IsSpent()) :: if o in m then m[o].coin else b[o]
  }

  /** Reference meaning of a flush: the parent's coins with the dirty entries written over them. */
  function WriteBack(b: Coins, m: CacheMap): (r: Coins)
    ensures forall o :: o in r <==> if o in m && m[o].dirty then !m[o].coin.IsSpent() else o in b
    ensures forall o :: o in r ==> r[o] == if o in m && m[o].dirty then m[o].coin else b[o]
  {
    map o | o in b.Keys + m.Keys && (if o in m && m[o].dirty then !m[o].coin.IsSpent() else o in b) ::
      if o in m && m[o].dirty then m[o].coin else b[o]
  }

  /** Writing back only the dirty entries transfers exactly the coins the cache shows. */
  lemma WriteBackIsOverlay(b: Coins, m: CacheMap)
    requires CacheOk(b, m)
    ensures WriteBack(b, m) == Overlay(b, m)
  {
    var l, r := WriteBack(b, m), Overlay(b, m);
    forall o ensures (o in l <==> o in r) && (o in l ==> l[o] == r[o]) {
      assert o in m ==> EntryOk(b, o, m[o]);
    }
  }

  // ----- memory accounting -----

  /** Total memory of the coins in a cache. */
  ghost function TotalUsage(mem: Memory, m: CacheMap): nat {
    Sum(map o | o in m :: mem.Usage(m[o].coin))
  }

  lemma UsageRemove(mem: Memory, m: CacheMap, o: OutPoint)
    requires o in m
    ensures TotalUsage(mem, m) == mem.Usage(m[o].coin) + TotalUsage(mem, m - {o})
  {
    var usage: map<OutPoint, nat> := map x | x in m :: mem.Usage(m[x].coin);
    SumWithout(usage, o);
    var rest: map<OutPoint, nat> := map x | x in m - {o} :: mem.Usage((m - {o})[x].coin);
    assert usage - {o} == rest;
  }

  lemma UsageUpdate(mem: Memory, m: CacheMap, o: OutPoint, e: Entry)
    ensures TotalUsage(mem, m[o := e]) == TotalUsage(mem, m - {o}) + mem.Usage(e.coin)
  {
    UsageRemove(mem, m[o := e], o);
    assert m[o := e] - {o} == m - {o};
  }

  lemma UsageAbsent(mem: Memory, m: CacheMap, o: OutPoint)
    requires o !in m
    ensures m - {o} == m
  {
  }
}
