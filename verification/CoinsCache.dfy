/** CCoinsViewCache: stacked write-back caches over a coin database. */
module CoinsCache {
  import opened CoinsModel
  import opened Collections

  // ----- one cache level as a map -----

  function Fetched(b: Coins, m: CacheMap, o: OutPoint): CacheMap {
    if o in m || o !in b then m else m[o := Entry(b[o], false, false)]
  }

  lemma FetchedKeeps(b: Coins, m: CacheMap, o: OutPoint)
    requires CacheOk(b, m) && (o in b ==> !b[o].IsSpent())
    ensures CacheOk(b, Fetched(b, m, o)) && Overlay(b, Fetched(b, m, o)) == Overlay(b, m)
  {
  }

  /** A spent coin is dropped if the parent never had it, and otherwise kept as a tombstone. */
  function Spent(m: CacheMap, o: OutPoint): CacheMap
    requires o in m
  {
    if m[o].fresh' then m - {o} else m[o := Entry(NO_COIN, true, false)]
  }

  lemma SpentKeeps(b: Coins, m: CacheMap, o: OutPoint)
    requires CacheOk(b, m) && o in m
    ensures CacheOk(b, Spent(m, o)) && Overlay(b, Spent(m, o)) == Overlay(b, m) - {o}
  {
    assert EntryOk(b, o, m[o]);
  }

  function Added(m: CacheMap, o: OutPoint, c: Coin, overwrite: bool): CacheMap {
    var e := if o in m then m[o] else Entry(NO_COIN, false, false);
    m[o := Entry(c, true, e.fresh' || (!overwrite && !e.dirty))]
  }

  /** Adding a coin keeps a sound cache sound exactly when it does not mark FRESH a coin that the parent
      shows: the coin may be overwritten, or an entry for it is cached, or the parent has none. */
  lemma AddedKeeps(b: Coins, m: CacheMap, o: OutPoint, c: Coin, overwrite: bool)
    requires CacheOk(b, m) && !c.IsSpent()
    requires o in m && !overwrite ==> m[o].coin.IsSpent()
    ensures CacheOk(b, Added(m, o, c, overwrite)) <==> overwrite || o in m || o !in b
    ensures Overlay(b, Added(m, o, c, overwrite)) == Overlay(b, m)[o := c]
  {
    var t := Added(m, o, c, overwrite);
    assert o in m ==> EntryOk(b, o, m[o]);
    if overwrite || o in m || o !in b {
      forall x | x in t ensures EntryOk(b, x, t[x]) {
        assert x != o ==> EntryOk(b, x, m[x]);
      }
    } else {
      assert !EntryOk(b, o, t[o]);
    }
  }

  lemma UncachedKeeps(b: Coins, m: CacheMap, o: OutPoint)
    requires CacheOk(b, m) && o in m && !m[o].dirty && !m[o].fresh'
    ensures CacheOk(b, m - {o}) && Overlay(b, m - {o}) == Overlay(b, m)
  {
    assert EntryOk(b, o, m[o]);
  }

  /** One entry of a child written into its parent's map. */
  function Merged(m: CacheMap, o: OutPoint, e: Entry): CacheMap {
    if !e.dirty then m
    else if o !in m then
      (if e.fresh' && e.coin.IsSpent() then m else m[o := Entry(e.coin, true, e.fresh')])
    else if m[o].fresh' && e.coin.IsSpent() then m - {o}
    else m[o := Entry(e.coin, true, m[o].fresh')]
  }

  /** The coins after one dirty entry is written over them. */
  function Written(b: Coins, o: OutPoint, e: Entry): Coins {
    if !e.dirty then b else if e.coin.IsSpent() then b - {o} else b[o := e.coin]
  }

  lemma MergedSound(b: Coins, m: CacheMap, o: OutPoint, e: Entry)
    requires CacheOk(b, m) && EntryOk(Overlay(b, m), o, e)
    ensures CacheOk(b, Merged(m, o, e))
    ensures e.dirty && e.fresh' && o in m ==> m[o].coin.IsSpent()
  {
    assert o in m ==> EntryOk(b, o, m[o]);
  }

  lemma MergedShown(b: Coins, m: CacheMap, o: OutPoint, e: Entry)
    requires CacheOk(b, m) && EntryOk(Overlay(b, m), o, e)
    ensures Overlay(b, Merged(m, o, e)) == Written(Overlay(b, m), o, e)
  {
    assert o in m ==> EntryOk(b, o, m[o]);
    var l, r := Overlay(b, Merged(m, o, e)), Written(Overlay(b, m), o, e);
    forall x ensures (x in l <==> x in r) && (x in l ==> l[x] == r[x]) {}
  }

  /** Writing one entry first and the others later gives the same coins, and leaves the others sound. */
  lemma WriteOneFirst(b: Coins, rest: CacheMap, o: OutPoint)
    requires CacheOk(b, rest) && o in rest
    ensures WriteBack(Written(b, o, rest[o]), rest - {o}) == WriteBack(b, rest)
    ensures CacheOk(Written(b, o, rest[o]), rest - {o})
  {
    var w := Written(b, o, rest[o]);
    var l, r := WriteBack(w, rest - {o}), WriteBack(b, rest);
    forall x ensures (x in l <==> x in r) && (x in l ==> l[x] == r[x]) {}
    forall x | x in rest - {o} ensures EntryOk(w, x, (rest - {o})[x]) {
      assert EntryOk(b, x, rest[x]);
    }
  }

  lemma NothingToWrite(b: Coins, m: CacheMap)
    requires m.Keys == {}
    ensures WriteBack(b, m) == b && Overlay(b, m) == b && m == map[]
  {
    assert forall o :: o !in m by { assert forall o :: o in m <==> o in m.Keys; }
    assert WriteBack(b, m) == b;
    assert Overlay(b, m) == b;
  }

  lemma UsageWithout(mem: Memory, m: CacheMap, o: OutPoint, c: Coin)
    requires o in m ==> c == m[o].coin
    ensures TotalUsage(mem, m - {o}) == TotalUsage(mem, m) - (if o in m then mem.Usage(c) else 0)
  {
    if o in m {
      UsageRemove(mem, m, o);
    } else {
      UsageAbsent(mem, m, o);
    }
  }

  // ----- the object -----

  datatype AddResult = Stored | Ignored | OverwriteRefused

  /** A coins view: a database if it has no base, otherwise a cache over its base. */
  class View {
    const base: View?
    const mem: Memory
    var stored: Coins
    var cacheCoins: CacheMap
    var cachedCoinsUsage: int
    ghost const repr: set<View>

    /** This view and all views below it, each once. */
    ghost predicate Linked()
      decreases repr
    {
      && this in repr
      && (base == null ==> repr == {this})
      && (base != null ==> base in repr && base.repr == repr - {this} && base.Linked())
    }

    /** The coins this view shows. */
    ghost function Shown(): Coins
      requires Linked()
      reads repr
      decreases repr
    {
      if base == null then stored else Overlay(base.Shown(), cacheCoins)
    }

    /** What this view and each view below it show, the database first. */
    ghost function Layers(): (r: seq<Coins>)
      requires Linked()
      reads repr
      ensures |r| >= 1 && r[|r| - 1] == Shown()
      decreases repr
    {
      if base == null then [stored] else base.Layers() + [Shown()]
    }

    ghost predicate Valid()
      reads repr
      decreases repr
    {
      && Linked()
      && (base == null ==> forall o :: o in stored ==> !stored[o].IsSpent())
      && (base != null ==> base.Valid() && CacheOk(base.Shown(), cacheCoins))
    }

    ghost predicate UsageOk()
      reads this
    {
      cachedCoinsUsage == TotalUsage(mem, cacheCoins)
    }

    /** The memory accounting of this cache and of every cache below it is exact. */
    ghost predicate AllUsageOk()
      requires Linked()
      reads repr
      decreases repr
    {
      base != null ==> UsageOk() && base.AllUsageOk()
    }

    constructor Database(mem: Memory, stored: Coins)
      requires forall o :: o in stored ==> !stored[o].IsSpent()
      ensures Valid() && Shown() == stored && fresh(repr) && base == null
    {
      base, this.mem, this.stored, cacheCoins, cachedCoinsUsage := null, mem, stored, map[], 0;
      repr := {this};
    }

    constructor (base: View)
      requires base.Valid()
      ensures Valid() && UsageOk() && this.base == base && repr == base.repr + {this} && fresh(this)
      ensures Shown() == base.Shown() && cacheCoins == map[]
    {
      this.base, mem, stored, cacheCoins, cachedCoinsUsage := base, base.mem, map[], map[], 0;
      repr := base.repr + {this};
      new;
      assert repr - {this} == base.repr;
      NothingToWrite(base.Shown(), cacheCoins);
    }

    lemma ShownUnspent()
      requires Valid()
      ensures forall o :: o in Shown() ==> !Shown()[o].IsSpent()
      decreases repr
    {
      if base != null {
        base.ShownUnspent();
      }
    }

    /** Look an outpoint up, filling the caches on the way. The coins shown never change. */
    method GetCoin(o: OutPoint) returns (found: bool, coin: Coin)
      requires Valid()
      modifies repr
      ensures Valid() && Shown() == old(Shown())
      ensures Layers() == old(Layers())
      ensures old(AllUsageOk()) ==> AllUsageOk()
      ensures found <==> o in Shown()
      ensures found ==> coin == Shown()[o]
      decreases repr, 1
    {
      if base == null {
        found := o in stored;
        coin := if found then stored[o] else NO_COIN;
      } else {
        var cached := FetchCoin(o);
        if cached {
          coin := cacheCoins[o].coin;
          found := !coin.IsSpent();
        } else {
          found, coin := false, NO_COIN;
        }
      }
    }

    method FetchCoin(o: OutPoint) returns (cached: bool)
      requires Valid() && base != null
      modifies repr
      ensures Valid() && Shown() == old(Shown()) && base.Shown() == old(base.Shown())
      ensures base.Layers() == old(base.Layers())
      ensures cacheCoins == Fetched(old(base.Shown()), old(cacheCoins), o)
      ensures cached <==> o in cacheCoins
      ensures old(UsageOk()) ==> UsageOk()
      ensures old(base.AllUsageOk()) ==> base.AllUsageOk()
      decreases repr, 0
    {
      hide Overlay, CacheOk, EntryOk, LegalState, UsageOk, AllUsageOk;
      base.ShownUnspent();
      if o in cacheCoins {
        return true;
      }
      var found, tmp := base.GetCoin(o);
      if !found {
        return false;
      }
      Remember(o, tmp);
      return true;
    }

    /** The part of FetchCoin that caches a coin found in the base. A spent coin would be FRESH here, but a
        base never reports one. */
    method Remember(o: OutPoint, coin: Coin)
      requires Valid() && base != null && o !in cacheCoins && o in base.Shown() && base.Shown()[o] == coin &&
        !coin.IsSpent()
      modifies this
      ensures Valid() && Shown() == old(Shown()) && cacheCoins == Fetched(old(base.Shown()), old(cacheCoins), o)
      ensures old(UsageOk()) ==> UsageOk()
    {
      hide Overlay, TotalUsage, CacheOk, EntryOk, LegalState;
      ghost var b := base.Shown();
      FetchedKeeps(b, cacheCoins, o);
      var entry := Entry(coin, false, coin.IsSpent());
      UsageUpdate(mem, cacheCoins, o, entry);
      UsageAbsent(mem, cacheCoins, o);
      cacheCoins := cacheCoins[o := entry];
      cachedCoinsUsage := cachedCoinsUsage + mem.Usage(entry.coin);
      assert base.Shown() == b;
    }

    method AddCoin(o: OutPoint, coin: Coin, possibleOverwrite: bool) returns (r: AddResult)
      requires Valid() && base != null && !coin.IsSpent()
      modifies this
      ensures Valid() <==> r != Stored || possibleOverwrite || o in old(cacheCoins) || o !in base.Shown()
      ensures r == Ignored <==> IsUnspendable(coin.scriptPubKey)
      ensures r == OverwriteRefused <==>
        r != Ignored && !possibleOverwrite && o in old(cacheCoins) && !old(cacheCoins)[o].coin.IsSpent()
      ensures cacheCoins == if r == Stored then Added(old(cacheCoins), o, coin, possibleOverwrite) else old(cacheCoins)
      ensures Shown() == if r == Stored then old(Shown())[o := coin] else old(Shown())
      ensures old(UsageOk()) && r != OverwriteRefused ==> UsageOk()
      ensures old(UsageOk()) && r == OverwriteRefused ==>
        cachedCoinsUsage == TotalUsage(mem, cacheCoins) - mem.Usage(cacheCoins[o].coin)
    {
      hide TotalUsage, CacheOk, EntryOk, LegalState, Overlay, IsUnspendable, Added;
      OverlayAt(base.Shown(), cacheCoins, o);
      if IsUnspendable(coin.scriptPubKey) {
        return Ignored;
      }
      var it := if o in cacheCoins then cacheCoins[o] else Entry(NO_COIN, false, false);
      UsageWithout(mem, cacheCoins, o, it.coin);
      if o in cacheCoins {
        cachedCoinsUsage := cachedCoinsUsage - mem.Usage(it.coin);
      }
      if !possibleOverwrite && !it.coin.IsSpent() {
        return OverwriteRefused;
      }
      StoreCoin(o, coin, it, possibleOverwrite);
      return Stored;
    }

    /** The part of AddCoin after its checks: the old coin is no longer accounted for. */
    method StoreCoin(o: OutPoint, coin: Coin, it: Entry, possibleOverwrite: bool)
      requires Valid() && base != null && !coin.IsSpent()
      requires it == if o in cacheCoins then cacheCoins[o] else Entry(NO_COIN, false, false)
      requires possibleOverwrite || it.coin.IsSpent()
      modifies this
      ensures Valid() <==> possibleOverwrite || o in old(cacheCoins) || o !in base.Shown()
      ensures cacheCoins == Added(old(cacheCoins), o, coin, possibleOverwrite) && Shown() == old(Shown())[o := coin]
      ensures old(cachedCoinsUsage) == TotalUsage(mem, old(cacheCoins) - {o}) ==> UsageOk()
    {
      hide TotalUsage, CacheOk, EntryOk, LegalState, Overlay;
      ghost var b, m := base.Shown(), cacheCoins;
      AddedKeeps(b, m, o, coin, possibleOverwrite);
      var isFresh := false;
      if !possibleOverwrite {
        isFresh := !it.dirty;
      }
      UsageUpdate(mem, m, o, Entry(coin, true, it.fresh' || isFresh));
      cacheCoins := cacheCoins[o := Entry(coin, true, it.fresh' || isFresh)];
      cachedCoinsUsage := cachedCoinsUsage + mem.Usage(coin);
      assert base.Shown() == b;
    }

    method SpendCoin(o: OutPoint) returns (ok: bool, moved: Coin)
      requires Valid() && base != null
      modifies repr
      ensures Valid() && Shown() == old(Shown()) - {o}
      ensures base.Layers() == old(base.Layers())
      ensures ok <==> o in old(Shown()) || o in old(cacheCoins)
      ensures o in old(Shown()) ==> moved == old(Shown())[o]
      ensures old(UsageOk()) ==> UsageOk()
      ensures old(base.AllUsageOk()) ==> base.AllUsageOk()
    {
      hide CacheOk, EntryOk, LegalState, Overlay, Spent, UsageOk, AllUsageOk;
      OverlayAt(base.Shown(), cacheCoins, o);
      moved := NO_COIN;
      ok := FetchCoin(o);
      OverlayAt(base.Shown(), cacheCoins, o);
      if ok {
        moved := SpendCached(o);
      } else {
        assert Shown() - {o} == Shown();
      }
    }

    /** The part of SpendCoin after the coin was fetched. */
    method SpendCached(o: OutPoint) returns (moved: Coin)
      requires Valid() && base != null && o in cacheCoins
      modifies this
      ensures Valid() && Shown() == old(Shown()) - {o} && moved == old(cacheCoins)[o].coin &&
        cacheCoins == Spent(old(cacheCoins), o)
      ensures old(UsageOk()) ==> UsageOk()
    {
      hide TotalUsage, CacheOk, EntryOk, LegalState, Overlay;
      ghost var b, m := base.Shown(), cacheCoins;
      SpentKeeps(b, m, o);
      UsageRemove(mem, m, o);
      UsageUpdate(mem, m, o, Entry(NO_COIN, true, false));
      cachedCoinsUsage := cachedCoinsUsage - mem.Usage(cacheCoins[o].coin);
      moved := cacheCoins[o].coin;
      if cacheCoins[o].fresh' {
        cacheCoins := cacheCoins - {o};
      } else {
        cacheCoins := cacheCoins[o := Entry(NO_COIN, true, cacheCoins[o].fresh')];
      }
      assert base.Shown() == b;
    }

    method Uncache(o: OutPoint)
      requires Valid() && base != null
      modifies this
      ensures Valid() && Shown() == old(Shown())
      ensures cacheCoins ==
        if o in old(cacheCoins) && !old(cacheCoins)[o].dirty && !old(cacheCoins)[o].fresh' then old(cacheCoins) - {o}
        else old(cacheCoins)
      ensures old(UsageOk()) ==> UsageOk()
    {
      hide Overlay, TotalUsage, CacheOk, EntryOk, LegalState;
      if o in cacheCoins && !cacheCoins[o].dirty && !cacheCoins[o].fresh' {
        UncachedKeeps(base.Shown(), cacheCoins, o);
        UsageRemove(mem, cacheCoins, o);
        cachedCoinsUsage := cachedCoinsUsage - mem.Usage(cacheCoins[o].coin);
        cacheCoins := cacheCoins - {o};
      }
    }

    /** Write the entries of a child into this view. If they are sound over this view, the view shows
        afterwards what the child showed, stays sound over its own base, and no FRESH flag is misapplied. */
    method BatchWrite(mapCoins: CacheMap) returns (misapplied: bool)
      requires Valid() && CacheOk(Shown(), mapCoins)
      modifies this
      ensures !misapplied && Valid() && Shown() == Overlay(old(Shown()), mapCoins)
      ensures old(UsageOk()) && base != null ==> UsageOk()
      ensures old(AllUsageOk()) ==> AllUsageOk()
    {
      hide Overlay, WriteBack, TotalUsage, CacheOk, EntryOk, LegalState, Merged, Written;
      WriteBackIsOverlay(Shown(), mapCoins);
      misapplied := false;
      var rest := mapCoins;
      ghost var target := WriteBack(Shown(), mapCoins);
      while rest.Keys != {}
        invariant Valid() && CacheOk(Shown(), rest) && WriteBack(Shown(), rest) == target
        invariant old(UsageOk()) && base != null ==> UsageOk()
        decreases |rest|
      {
        assert exists o :: o in rest.Keys by { var x := Pick(rest.Keys); }
        var o :| o in rest.Keys;
        WriteOneFirst(Shown(), rest, o);
        assert rest.Keys == (rest - {o}).Keys + {o};
        EntryAt(Shown(), rest, o);
        if base == null {
          StoreOne(o, rest[o]);
        } else {
          misapplied := MergeOne(o, rest[o]);
          if misapplied {
            return;
          }
        }
        rest := rest - {o};
      }
      NothingToWrite(Shown(), rest);
    }

    /** One iteration of the database's BatchWrite. */
    method StoreOne(o: OutPoint, e: Entry)
      requires Valid() && base == null
      modifies this
      ensures Valid() && Shown() == Written(old(Shown()), o, e) && unchanged(this`cacheCoins) &&
        unchanged(this`cachedCoinsUsage)
    {
      if e.dirty {
        if e.coin.IsSpent() {
          stored := stored - {o};
        } else {
          stored := stored[o := e.coin];
        }
      }
    }

    /** One iteration of the cache's BatchWrite. */
    method MergeOne(o: OutPoint, e: Entry) returns (misapplied: bool)
      requires Valid() && base != null && EntryOk(Shown(), o, e)
      modifies this
      ensures !misapplied && Valid() && cacheCoins == Merged(old(cacheCoins), o, e) &&
        Shown() == Written(old(Shown()), o, e)
      ensures old(UsageOk()) ==> UsageOk()
    {
      hide Overlay, TotalUsage, CacheOk, EntryOk, LegalState, Written;
      ghost var b, m := base.Shown(), cacheCoins;
      MergedSound(b, m, o, e);
      MergedShown(b, m, o, e);
      misapplied := false;
      if !e.dirty {
        return;
      }
      if o !in cacheCoins {
        UsageAbsent(mem, m, o);
        if !(e.fresh' && e.coin.IsSpent()) {
          UsageUpdate(mem, m, o, Entry(e.coin, true, e.fresh'));
          cacheCoins := cacheCoins[o := Entry(e.coin, true, e.fresh')];
          cachedCoinsUsage := cachedCoinsUsage + mem.Usage(e.coin);
        }
      } else {
        UsageRemove(mem, m, o);
        if e.fresh' && !cacheCoins[o].coin.IsSpent() {
          return true;
        }
        if cacheCoins[o].fresh' && e.coin.IsSpent() {
          cachedCoinsUsage := cachedCoinsUsage - mem.Usage(cacheCoins[o].coin);
          cacheCoins := cacheCoins - {o};
        } else {
          UsageUpdate(mem, m, o, Entry(e.coin, true, m[o].fresh'));
          cachedCoinsUsage := cachedCoinsUsage - mem.Usage(cacheCoins[o].coin);
          cacheCoins := cacheCoins[o := cacheCoins[o].(coin := e.coin, dirty := true)];
          cachedCoinsUsage := cachedCoinsUsage + mem.Usage(cacheCoins[o].coin);
        }
      }
      assert cacheCoins == Merged(m, o, e) && base.Shown() == b;
    }

    /** Push the modifications to the base: it then shows exactly what this view showed, which this view,
        now empty, still shows. */
    method Flush() returns (ok: bool)
      requires Valid() && base != null
      modifies this, base
      ensures ok && Valid() && UsageOk() && cacheCoins == map[]
      ensures Shown() == old(Shown()) && base.Shown() == old(Shown())
      ensures old(base.UsageOk()) && base.base != null ==> base.UsageOk()
      ensures old(base.AllUsageOk()) ==> base.AllUsageOk()
    {
      hide Overlay, CacheOk, EntryOk, LegalState;
      var misapplied := base.BatchWrite(cacheCoins);
      cacheCoins := map[];
      NothingToWrite(base.Shown(), cacheCoins);
      cachedCoinsUsage := 0;
      EmptySound(base.Shown());
      return !misapplied;
    }
  }

  lemma OverlayAt(b: Coins, m: CacheMap, o: OutPoint)
    ensures o !in m ==> (o in Overlay(b, m) <==> o in b)
    ensures o in m ==> (o in Overlay(b, m) <==> !m[o].coin.IsSpent())
    ensures o in m && o in Overlay(b, m) ==> Overlay(b, m)[o] == m[o].coin
  {
  }

  lemma EntryAt(b: Coins, m: CacheMap, o: OutPoint)
    requires CacheOk(b, m) && o in m
    ensures EntryOk(b, o, m[o])
  {
  }

  lemma EmptySound(b: Coins)
    ensures CacheOk(b, map[])
  {
  }
}
