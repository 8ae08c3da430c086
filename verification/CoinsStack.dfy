/** Whole runs over a stack of coin caches, compared with plain maps of coins. */
module CoinsStack {
  import opened CoinsModel
  import opened CoinsCache

  /** A call on the topmost cache, or a change of the stack itself. */
  datatype Call =
    | Get(o: OutPoint)
    | Add(o: OutPoint, coin: Coin, possibleOverwrite: bool)
    | Spend(o: OutPoint)
    | Uncache(o: OutPoint)
    | Flush
    | Push
    | Drop

  /** The plain meaning of a call on a list of coin maps, the database first. */
  function Play(maps: seq<Coins>, c: Call): (r: seq<Coins>)
    requires |maps| >= 2
    ensures |r| >= 2
  {
    var top := |maps| - 1;
    match c
    case Get(_) => maps
    case Uncache(_) => maps
    case Add(o, coin, _) => if IsUnspendable(coin.scriptPubKey) then maps else maps[top := maps[top][o := coin]]
    case Spend(o) => maps[top := maps[top] - {o}]
    case Flush => maps[top - 1 := maps[top]]
    case Push => maps + [maps[top]]
    case Drop => if |maps| == 2 then maps else maps[..top]
  }

  /** The caller's obligations: only unspent coins are added, and as a possible overwrite if one is there. */
  predicate Allowed(maps: seq<Coins>, c: Call)
    requires |maps| >= 2
  {
    c.Add? ==> !c.coin.IsSpent() && (c.possibleOverwrite || c.o !in maps[|maps| - 1])
  }

  ghost predicate AllAllowed(maps: seq<Coins>, calls: seq<Call>)
    requires |maps| >= 2
    decreases |calls|
  {
    calls != [] ==> Allowed(maps, calls[0]) && AllAllowed(Play(maps, calls[0]), calls[1..])
  }

  ghost function PlayAll(maps: seq<Coins>, calls: seq<Call>): seq<Coins>
    requires |maps| >= 2
    decreases |calls|
  {
    if calls == [] then maps else PlayAll(Play(maps, calls[0]), calls[1..])
  }

  method PerformAdd(top: View, o: OutPoint, coin: Coin, overwrite: bool)
    requires top.Valid() && top.base != null && !coin.IsSpent() && (overwrite || o !in top.Shown())
    modifies top
    ensures old(top.AllUsageOk()) ==> top.AllUsageOk()
    ensures top.Valid() && top.Layers() == Play(old(top.Layers()), Add(o, coin, overwrite))
  {
    hide Overlay, CacheOk, Added, IsUnspendable;
    OverlayAt(top.base.Shown(), top.cacheCoins, o);
    var r := top.AddCoin(o, coin, overwrite);
  }

  method PerformSpend(top: View, o: OutPoint)
    requires top.Valid() && top.base != null
    modifies top.repr
    ensures old(top.AllUsageOk()) ==> top.AllUsageOk()
    ensures top.Valid() && top.Layers() == Play(old(top.Layers()), Spend(o))
  {
    hide Overlay, CacheOk;
    var ok, moved := top.SpendCoin(o);
  }

  method PerformFlush(top: View)
    requires top.Valid() && top.base != null
    modifies top, top.base
    ensures old(top.AllUsageOk()) ==> top.AllUsageOk()
    ensures top.Valid() && top.Layers() == Play(old(top.Layers()), Flush)
  {
    hide Overlay, CacheOk;
    ghost var maps := top.Layers();
    var ok := top.Flush();
    assert top.base.Layers() == maps[..|maps| - 2] + [maps[|maps| - 1]];
    assert top.Layers() == top.base.Layers() + [top.Shown()];
  }

  /** One call changes the stack of caches exactly as it changes the stack of plain maps. */
  method Perform(top: View, c: Call) returns (top': View)
    requires top.Valid() && top.base != null && Allowed(top.Layers(), c)
    modifies top.repr
    ensures top'.Valid() && top'.base != null && top'.Layers() == Play(old(top.Layers()), c)
    ensures fresh(top'.repr - top.repr)
    ensures old(top.AllUsageOk()) ==> top'.AllUsageOk()
  {
    hide Overlay, CacheOk;
    top' := top;
    match c
    case Get(o) =>
      var found, coin := top.GetCoin(o);
    case Add(o, coin, overwrite) =>
      PerformAdd(top, o, coin, overwrite);
    case Spend(o) =>
      PerformSpend(top, o);
    case Uncache(o) =>
      top.Uncache(o);
    case Flush =>
      PerformFlush(top);
    case Push =>
      top' := new View(top);
    case Drop =>
      if top.base.base != null {
        top' := top.base;
      }
  }

  /** After any run of allowed calls, every view of the stack shows exactly what the plain maps hold, and the memory
      accounting of every cache is exact if it was at the start. */
  method Run(start: View, calls: seq<Call>) returns (top: View)
    requires start.Valid() && start.base != null && AllAllowed(start.Layers(), calls)
    modifies start.repr
    ensures top.Valid() && top.base != null && top.Layers() == PlayAll(old(start.Layers()), calls)
    ensures old(start.AllUsageOk()) ==> top.AllUsageOk()
  {
    top := start;
    ghost var maps := start.Layers();
    for i := 0 to |calls|
      invariant top.Valid() && top.base != null && fresh(top.repr - start.repr)
      invariant old(start.AllUsageOk()) ==> top.AllUsageOk()
      invariant AllAllowed(top.Layers(), calls[i..]) && PlayAll(top.Layers(), calls[i..]) == PlayAll(maps, calls)
    {
      assert calls[i..][0] == calls[i] && calls[i..][1..] == calls[i + 1..];
      top := Perform(top, calls[i]);
    }
  }
}
