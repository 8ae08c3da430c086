/** The block tree: CBlockIndex links and skip links, and the active chain kept in CChain. */
module BlockTree {
  import opened Powers

  // ----- skip heights -----

  /** n & (n - 1); for zero that is 0 & -1. */
  function InvertLowestOne(n: nat): nat { if n == 0 then 0 else BitAnd(n, n - 1) }

  /** The value of the lowest set bit. */
  function LowestOne(n: nat): (r: nat)
    requires n > 0
    ensures 1 <= r <= n
  {
    if n % 2 == 1 then 1 else 2 * LowestOne(n / 2)
  }

  lemma {:induction false} AndSelf(n: nat)
    ensures BitAnd(n, n) == n
  {
    if n > 0 {
      AndSelf(n / 2);
    }
  }

  lemma {:induction false} InvertIs(n: nat)
    requires n > 0
    ensures InvertLowestOne(n) == n - LowestOne(n)
  {
    if n % 2 == 1 {
      AndSelf(n / 2);
    } else {
      InvertIs(n / 2);
      assert (n - 1) / 2 == n / 2 - 1;
    }
  }

  function GetSkipHeight(height: int): int
  {
    if height < 2 then 0
    else if height % 2 == 1 then InvertLowestOne(InvertLowestOne(height - 1)) + 1
    else InvertLowestOne(height)
  }

  /** The lowest set bit is the power of two by which the number is an odd multiple. */
  lemma {:induction false} LowestOneIs(n: nat) returns (k: nat, odd: nat)
    requires n > 0
    ensures LowestOne(n) == Pow(2, k) && n == Pow(2, k) * odd && odd % 2 == 1
  {
    if n % 2 == 1 {
      k, odd := 0, n;
    } else {
      k, odd := LowestOneIs(n / 2);
      k := k + 1;
      Assoc(2, Pow(2, k - 1), odd);
    }
  }

  /** From an even height the skip goes back by its lowest set bit; from an odd one by the two lowest set bits of the
      even height below, if there are two, and else to height one. */
  lemma SkipIs(height: nat)
    requires height >= 2
    ensures height % 2 == 0 ==> GetSkipHeight(height) == height - LowestOne(height)
    ensures height % 2 == 1 ==>
      var low := LowestOne(height - 1);
      var rest := height - 1 - low;
      GetSkipHeight(height) == if rest == 0 then 1 else height - low - LowestOne(rest)
  {
    if height % 2 == 0 {
      InvertIs(height);
    } else {
      InvertIs(height - 1);
      if InvertLowestOne(height - 1) > 0 {
        InvertIs(InvertLowestOne(height - 1));
      }
    }
  }

  lemma SkipBelow(height: nat)
    requires height >= 1
    ensures 0 <= GetSkipHeight(height) < height
  {
    if height >= 2 {
      SkipIs(height);
    }
  }

  // ----- the tree -----

  class BlockIndex {
    var pprev: BlockIndex?
    var pskip: BlockIndex?
    var nHeight: int
    /** The blocks from the root to this one, by height. */
    ghost var path: seq<BlockIndex>

    constructor ()
      ensures pprev == null && pskip == null && nHeight == 0 && path == [this]
    {
      pprev, pskip, nHeight, path := null, null, 0, [this];
    }

    /** This block hangs below its predecessor, and its skip link, if set, leads to the ancestor at the skip
        height. */
    ghost predicate Linked(blocks: set<BlockIndex>)
      reads this, blocks
    {
      && (if pprev == null then nHeight == 0 && path == [this]
          else pprev in blocks && nHeight == pprev.nHeight + 1 && path == pprev.path + [this])
      && |path| == nHeight + 1
      && (pskip != null ==>
           nHeight >= 1 && 0 <= GetSkipHeight(nHeight) < nHeight && pskip == path[GetSkipHeight(nHeight)])
    }

    /** The block at the given height above this one's root, or null. */
    method GetAncestor(height: int, ghost blocks: set<BlockIndex>) returns (r: BlockIndex?)
      requires Tree(blocks) && this in blocks
      ensures |path| == nHeight + 1
      ensures r == if 0 <= height <= nHeight then path[height] else null
    {
      hide GetSkipHeight, Tree, Linked;
      AncestorIs(this, nHeight, blocks);
      if height > nHeight || height < 0 {
        return null;
      }
      var walk := this;
      var heightWalk := nHeight;
      while heightWalk > height
        invariant height <= heightWalk <= nHeight && walk == path[heightWalk]
      {
        AncestorIs(this, heightWalk, blocks);
        SkipBelow(heightWalk);
        var heightSkip := GetSkipHeight(heightWalk);
        var heightSkipPrev := GetSkipHeight(heightWalk - 1);
        if walk.pskip != null && (heightSkip == height ||
            (heightSkip > height && !(heightSkipPrev < heightSkip - 2 && heightSkipPrev >= height))) {
          walk := walk.pskip;
          heightWalk := heightSkip;
        } else {
          assert walk.pprev != null;
          walk := walk.pprev;
          heightWalk := heightWalk - 1;
        }
      }
      return walk;
    }

    /** Sets the skip link of a block that has just been given a predecessor in the tree. */
    method BuildSkip(ghost blocks: set<BlockIndex>)
      requires Tree(blocks) && this !in blocks
      requires pprev != null ==> pprev in blocks && nHeight == pprev.nHeight + 1
      modifies this`pskip
      ensures pprev == null ==> pskip == old(pskip)
      ensures pprev != null ==> 0 <= GetSkipHeight(nHeight) < nHeight == |pprev.path|
      ensures pprev != null ==> pskip == pprev.path[GetSkipHeight(nHeight)]
    {
      hide GetSkipHeight, Tree, Linked;
      if pprev != null {
        AncestorIs(pprev, pprev.nHeight, blocks);
        SkipBelow(nHeight);
        pskip := pprev.GetAncestor(GetSkipHeight(nHeight), blocks);
      }
    }
  }

  ghost predicate Tree(blocks: set<BlockIndex>)
    reads blocks
  {
    forall b :: b in blocks ==> b.Linked(blocks)
  }

  /** Every entry of a block's path is a block of the tree at that height, with the same path below it. */
  lemma {:induction false} AncestorIs(b: BlockIndex, h: int, blocks: set<BlockIndex>)
    requires Tree(blocks) && b in blocks && (0 <= h <= b.nHeight || h == b.nHeight)
    ensures 0 <= h <= b.nHeight && |b.path| == b.nHeight + 1 && b.path[b.nHeight] == b
    ensures var c := b.path[h];
      c in blocks && c.nHeight == h && c.path == b.path[..h + 1] && c.pprev == (if h == 0 then null else b.path[h - 1])
    ensures var c := b.path[h];
      c.pskip != null ==> h >= 1 && 0 <= GetSkipHeight(h) < h && c.pskip == b.path[GetSkipHeight(h)]
    decreases |b.path|
  {
    hide GetSkipHeight;
    assert b.Linked(blocks);
    if b.pprev != null {
      var p := b.pprev;
      assert p.Linked(blocks);
      AncestorIs(p, if h < b.nHeight then h else p.nHeight, blocks);
    }
    if h == b.nHeight {
      assert b.path[..h + 1] == b.path;
    }
  }

  /** The reference: n single steps along pprev. */
  ghost function Back(b: BlockIndex?, n: nat, blocks: set<BlockIndex>): BlockIndex?
    requires b != null ==> b in blocks
    requires Tree(blocks)
    reads blocks
    decreases n
  {
    if n == 0 || b == null then b
    else
      assert b.Linked(blocks);
      Back(b.pprev, n - 1, blocks)
  }

  /** A block's path is what walking one step at a time finds. */
  lemma {:induction false} PathIsWalk(b: BlockIndex, n: nat, blocks: set<BlockIndex>)
    requires Tree(blocks) && b in blocks
    ensures |b.path| == b.nHeight + 1
    ensures Back(b, n, blocks) == if n <= b.nHeight then b.path[b.nHeight - n] else null
  {
    hide BlockIndex.Linked, Tree;
    AncestorIs(b, b.nHeight, blocks);
    if n > 0 && b.pprev != null {
      AncestorIs(b, b.nHeight - 1, blocks);
      PathIsWalk(b.pprev, n - 1, blocks);
    }
  }

  /** A new block below prev; the tree grows by it and no other block changes. */
  method AddToBlockIndex(prev: BlockIndex?, ghost blocks: set<BlockIndex>) returns (b: BlockIndex)
    requires Tree(blocks) && (prev != null ==> prev in blocks)
    ensures fresh(b) && Tree(blocks + {b})
    ensures b.pprev == prev && b.nHeight == if prev == null then 0 else prev.nHeight + 1
    ensures prev != null ==> b.pskip != null
  {
    hide GetSkipHeight, Tree;
    b := new BlockIndex();
    if prev != null {
      AncestorIs(prev, prev.nHeight, blocks);
      b.pprev := prev;
      b.nHeight := prev.nHeight + 1;
      b.BuildSkip(blocks);
      b.path := prev.path + [b];
    }
    Grown(b, blocks);
  }

  lemma Grown(b: BlockIndex, blocks: set<BlockIndex>)
    requires Tree(blocks) && b.Linked(blocks) && b !in blocks
    ensures Tree(blocks + {b})
  {
    hide GetSkipHeight;
  }

  // ----- the active chain -----

  class Chain {
    var vChain: seq<BlockIndex?>

    /** The entries are exactly the path of the last one. */
    ghost predicate Active(blocks: set<BlockIndex>)
      reads this, blocks
    {
      vChain == [] || (
        var tip := vChain[|vChain| - 1];
        tip != null && tip in blocks && vChain == tip.path)
    }

    constructor ()
      ensures vChain == []
    {
      vChain := [];
    }

    function At(nHeight: int): BlockIndex?
      reads this
    {
      if nHeight < 0 || nHeight >= |vChain| then null else vChain[nHeight]
    }

    function Height(): int
      reads this
    {
      |vChain| - 1
    }

    predicate Contains(b: BlockIndex)
      reads this, b
    {
      At(b.nHeight) == b
    }

    /** Makes tip the last block; only the entries that differ are rewritten, yet all of them are the tip's
        ancestors afterwards. */
    method SetTip(tip: BlockIndex?, ghost blocks: set<BlockIndex>)
      requires Tree(blocks) && Active(blocks) && (tip != null ==> tip in blocks)
      modifies this
      ensures Active(blocks)
      ensures vChain == if tip == null then [] else tip.path
    {
      hide BlockIndex.Linked, Tree;
      if tip == null {
        vChain := [];
        return;
      }
      AncestorIs(tip, tip.nHeight, blocks);
      ghost var before := vChain;
      vChain := Resized(vChain, tip.nHeight + 1);
      ghost var resized := vChain;
      var pindex: BlockIndex? := tip;
      ghost var h := tip.nHeight;
      while pindex != null && vChain[pindex.nHeight] != pindex
        invariant -1 <= h <= tip.nHeight && |vChain| == tip.nHeight + 1
        invariant if h < 0 then pindex == null else pindex == tip.path[h] && pindex.nHeight == h
        invariant forall i :: h < i <= tip.nHeight ==> vChain[i] == tip.path[i]
        invariant forall i :: 0 <= i <= h ==> vChain[i] == resized[i]
        decreases h
      {
        AncestorIs(tip, h, blocks);
        vChain := vChain[pindex.nHeight := pindex];
        pindex := pindex.pprev;
        h := h - 1;
        if h >= 0 {
          AncestorIs(tip, h, blocks);
        }
      }
      if h >= 0 {
        SharedBelow(before, resized, tip, h, blocks);
      }
      assert vChain == tip.path;
    }

    /** The tip, or a given block, and its ancestors at ever larger distances, down to the root. */
    method GetLocator(b: BlockIndex?, ghost blocks: set<BlockIndex>) returns (have: seq<BlockIndex>)
      requires Tree(blocks) && Active(blocks) && (b != null ==> b in blocks)
      ensures b == null && vChain == [] ==> have == []
      ensures b != null || vChain != [] ==>
        var start: BlockIndex := if b != null then b else vChain[|vChain| - 1];
        Located(have, start)
    {
      hide BlockIndex.Linked, Tree, Located;
      have := [];
      var pindex := b;
      if pindex == null {
        if vChain == [] {
          return;
        }
        pindex := vChain[|vChain| - 1];
      }
      have := Locate(pindex, blocks);
    }

    method Locate(start: BlockIndex, ghost blocks: set<BlockIndex>) returns (have: seq<BlockIndex>)
      requires Tree(blocks) && Active(blocks) && start in blocks
      ensures Located(have, start)
    {
      hide BlockIndex.Linked, Tree, Active, LocatorStep, LocatorHeights;
      have := [];
      var nStep: nat := 1;
      var pindex := start;
      AncestorIs(start, start.nHeight, blocks);
      ghost var h: nat := start.nHeight;
      FirstStep();
      ghost var heights: seq<nat> := [];
      while true
        invariant h <= start.nHeight && pindex == start.path[h] && nStep == LocatorStep(|have|)
        invariant |heights| == |have| && heights + LocatorHeights(h, |have|) == LocatorHeights(start.nHeight, 0)
        invariant forall i :: 0 <= i < |have| ==> heights[i] < |start.path| && have[i] == start.path[heights[i]]
        decreases h
      {
        AncestorIs(start, h, blocks);
        NextStep(|have|);
        have := have + [pindex];
        LocatorNext(heights, h, |heights|);
        heights := heights + [h];
        if pindex.nHeight == 0 {
          break;
        }
        var nHeight := if pindex.nHeight > nStep then pindex.nHeight - nStep else 0;
        pindex := Jump(pindex, nHeight, blocks);
        if |have| > 10 {
          nStep := nStep * 2;
        }
        h := nHeight;
      }
    }

    /** The ancestor at a lower height, by direct index where the active chain holds it. */
    method Jump(b: BlockIndex, nHeight: nat, ghost blocks: set<BlockIndex>) returns (r: BlockIndex?)
      requires Tree(blocks) && Active(blocks) && b in blocks && nHeight <= b.nHeight
      ensures nHeight < |b.path| && r == b.path[nHeight]
    {
      hide BlockIndex.Linked, Tree, Active;
      if Contains(b) {
        OnPath(b, nHeight, this, blocks);
        r := At(nHeight);
      } else {
        r := b.GetAncestor(nHeight, blocks);
      }
    }

    /** The highest block on b's path that is on the active chain, or null if there is none. */
    method FindFork(b: BlockIndex?, ghost blocks: set<BlockIndex>) returns (r: BlockIndex?)
      requires Tree(blocks) && Active(blocks) && (b != null ==> b in blocks)
      ensures b == null ==> r == null
      ensures r != null ==> r in vChain && 0 <= r.nHeight < |b.path| && r == b.path[r.nHeight]
      ensures r != null ==> forall i :: r.nHeight < i < |b.path| ==> b.path[i] !in vChain
      ensures b != null && r == null ==> forall i :: 0 <= i < |b.path| ==> b.path[i] !in vChain
    {
      hide BlockIndex.Linked, Tree, Active;
      if b == null {
        return null;
      }
      AncestorIs(b, b.nHeight, blocks);
      var pindex: BlockIndex? := b;
      if pindex.nHeight > Height() {
        pindex := pindex.GetAncestor(Height(), blocks);
      }
      ghost var h := if b.nHeight > Height() then Height() else b.nHeight;
      TooHigh(b, this, blocks);
      while pindex != null && !Contains(pindex)
        invariant -1 <= h <= b.nHeight && pindex == if h < 0 then null else b.path[h]
        invariant forall i :: h < i < |b.path| ==> b.path[i] !in vChain
        invariant h <= Height()
        decreases h
      {
        AncestorIs(b, h, blocks);
        OnChain(pindex, this, blocks);
        pindex := pindex.pprev;
        h := h - 1;
      }
      if pindex != null {
        AncestorIs(b, h, blocks);
        OnChain(pindex, this, blocks);
      }
      return pindex;
    }
  }

  // ----- block locators -----

  /** How far the i-th step of a locator goes back: one block for the first eleven, then doubling. */
  function LocatorStep(i: nat): nat { if i <= 10 then 1 else Pow(2, i - 10) }

  /** The heights a locator lists, from height h on, when i entries precede it. */
  function LocatorHeights(h: nat, i: nat): seq<nat>
    decreases h
  {
    if h == 0 then [0]
    else
      var next := if h > LocatorStep(i) then h - LocatorStep(i) else 0;
      [h] + LocatorHeights(next, i + 1)
  }

  /** A locator starts at the given height, goes strictly down and ends at the root. */
  lemma {:induction false} LocatorDescends(h: nat, i: nat)
    ensures var r := LocatorHeights(h, i);
      r != [] && r[0] == h && r[|r| - 1] == 0 && forall j :: 0 < j < |r| ==> r[j] < r[j - 1]
    decreases h
  {
    if h > 0 {
      LocatorDescends(if h > LocatorStep(i) then h - LocatorStep(i) else 0, i + 1);
    }
  }

  /** How far back the j-th entry of a locator is: the first twelve are consecutive, then the distance doubles. */
  function Distance(j: nat): nat { if j <= 11 then j else 9 + Pow(2, j - 10) }

  lemma DistanceStep(j: nat)
    ensures Distance(j + 1) == Distance(j) + LocatorStep(j)
  {
    if j == 11 {
      assert Pow(2, 1) == 2 && Pow(2, 2) == 4;
    } else if j > 11 {
      PowStep(2, j - 10);
    }
  }

  /** The j-th entry of a locator is that far back, or the root. */
  lemma {:induction false} LocatorAt(h: nat, i: nat, j: nat)
    requires j < |LocatorHeights(h, i)|
    ensures var back := Distance(i + j) - Distance(i);
      LocatorHeights(h, i)[j] == if h > back then h - back else 0
    decreases j
  {
    if j > 0 {
      DistanceStep(i);
      var step := LocatorStep(i);
      LocatorAt(if h > step then h - step else 0, i + 1, j - 1);
      DistanceGrows(i + 1, j - 1);
    }
  }

  lemma {:induction false} DistanceGrows(i: nat, n: nat)
    ensures Distance(i) <= Distance(i + n)
  {
    if n > 0 {
      DistanceGrows(i, n - 1);
      DistanceStep(i + n - 1);
    }
  }

  function Resized(v: seq<BlockIndex?>, n: nat): (r: seq<BlockIndex?>)
    ensures |r| == n
    ensures forall i :: 0 <= i < n ==> r[i] == if i < |v| then v[i] else null
  {
    if n <= |v| then v[..n] else v + seq(n - |v|, i => null)
  }

  /** Where the walk meets an old entry that is already right, everything below it is right too. */
  lemma SharedBelow(before: seq<BlockIndex?>, resized: seq<BlockIndex?>, tip: BlockIndex, h: nat,
      blocks: set<BlockIndex>)
    requires Tree(blocks) && tip in blocks && |tip.path| == tip.nHeight + 1 && h <= tip.nHeight
    requires before == [] || (var t := before[|before| - 1]; t != null && t in blocks && before == t.path)
    requires resized == Resized(before, tip.nHeight + 1) && resized[h] == tip.path[h]
    ensures forall i :: 0 <= i <= h ==> resized[i] == tip.path[i]
  {
    hide BlockIndex.Linked, Tree;
    assert h < |before|;
    var t: BlockIndex := before[|before| - 1];
    AncestorIs(t, t.nHeight, blocks);
    AncestorIs(t, h, blocks);
    AncestorIs(tip, h, blocks);
    forall i | 0 <= i <= h
      ensures resized[i] == tip.path[i]
    {
      assert t.path[i] == t.path[..h + 1][i] == tip.path[..h + 1][i];
    }
  }

  /** The locator's entries are the ancestors of start at the locator heights. */
  ghost predicate Located(have: seq<BlockIndex>, start: BlockIndex)
    reads start
  {
    start.nHeight >= 0 && (
      var heights := LocatorHeights(start.nHeight, 0);
      |have| == |heights| && forall i :: 0 <= i < |have| ==>
        heights[i] < |start.path| && have[i] == start.path[heights[i]])
  }

  lemma LocatorNext(before: seq<nat>, h: nat, i: nat)
    ensures before + LocatorHeights(h, i) == before + [h] +
      if h == 0 then [] else LocatorHeights(if h > LocatorStep(i) then h - LocatorStep(i) else 0, i + 1)
  {
  }

  lemma FirstStep()
    ensures LocatorStep(0) == 1
  {
  }

  lemma NextStep(i: nat)
    ensures LocatorStep(i + 1) == if i + 1 > 10 then LocatorStep(i) * 2 else LocatorStep(i)
    ensures LocatorStep(i) > 0
  {
    if i >= 10 {
      PowStep(2, i - 10);
      assert Pow(2, 0) == 1;
    }
  }

  /** Entries below a block on the active chain are that block's ancestors. */
  lemma OnPath(b: BlockIndex, h: nat, chain: Chain, blocks: set<BlockIndex>)
    requires Tree(blocks) && b in blocks && chain.Active(blocks) && chain.Contains(b) && h <= b.nHeight
    ensures |b.path| == b.nHeight + 1 && chain.At(h) == b.path[h]
  {
    hide BlockIndex.Linked, Tree;
    var tip: BlockIndex := chain.vChain[|chain.vChain| - 1];
    AncestorIs(tip, tip.nHeight, blocks);
    AncestorIs(tip, b.nHeight, blocks);
    AncestorIs(b, b.nHeight, blocks);
    assert b.path[h] == tip.path[..b.nHeight + 1][h];
  }

  /** Contains looks at one entry only; on an active chain that decides membership. */
  lemma OnChain(b: BlockIndex, chain: Chain, blocks: set<BlockIndex>)
    requires Tree(blocks) && b in blocks && chain.Active(blocks)
    ensures chain.Contains(b) <==> b in chain.vChain
  {
    if b in chain.vChain {
      var tip: BlockIndex := chain.vChain[|chain.vChain| - 1];
      AncestorIs(tip, tip.nHeight, blocks);
      var i :| 0 <= i < |chain.vChain| && chain.vChain[i] == b;
      AncestorIs(tip, i, blocks);
    }
  }

  lemma TooHigh(b: BlockIndex, chain: Chain, blocks: set<BlockIndex>)
    requires Tree(blocks) && b in blocks && chain.Active(blocks) && |b.path| == b.nHeight + 1
    ensures forall i :: chain.Height() < i < |b.path| && i >= 0 ==> b.path[i] !in chain.vChain
  {
    hide BlockIndex.Linked, Tree, Chain.Active;
    AncestorIs(b, b.nHeight, blocks);
    forall i | chain.Height() < i < |b.path| && i >= 0
      ensures b.path[i] !in chain.vChain
    {
      AncestorIs(b, i, blocks);
      OnChain(b.path[i], chain, blocks);
    }
  }

  /** The highest block on both paths, or null if the two blocks have different roots. */
  method LastCommonAncestor(a: BlockIndex, b: BlockIndex, ghost blocks: set<BlockIndex>) returns (r: BlockIndex?)
    requires Tree(blocks) && a in blocks && b in blocks
    ensures |a.path| > 0 && |b.path| > 0 && (r == null <==> a.path[0] != b.path[0])
    ensures r != null ==> 0 <= r.nHeight < |a.path| && r.nHeight < |b.path|
    ensures r != null ==> r == a.path[r.nHeight] == b.path[r.nHeight]
    ensures r != null ==> forall i :: r.nHeight < i < |a.path| && i < |b.path| ==> a.path[i] != b.path[i]
  {
    hide BlockIndex.Linked, Tree;
    AncestorIs(a, a.nHeight, blocks);
    AncestorIs(b, b.nHeight, blocks);
    var pa: BlockIndex?, pb: BlockIndex? := a, b;
    ghost var h := if a.nHeight < b.nHeight then a.nHeight else b.nHeight;
    if a.nHeight > b.nHeight {
      pa := a.GetAncestor(b.nHeight, blocks);
    } else if b.nHeight > a.nHeight {
      pb := b.GetAncestor(a.nHeight, blocks);
    }
    while pa != pb && pa != null && pb != null
      invariant -1 <= h <= a.nHeight && h <= b.nHeight
      invariant pa == (if h < 0 then null else a.path[h]) && pb == (if h < 0 then null else b.path[h])
      invariant forall i :: h < i < |a.path| && i < |b.path| ==> a.path[i] != b.path[i]
      decreases h
    {
      AncestorIs(a, h, blocks);
      AncestorIs(b, h, blocks);
      pa := pa.pprev;
      pb := pb.pprev;
      h := h - 1;
    }
    assert pa == pb;
    if h >= 0 {
      AncestorIs(a, h, blocks);
      AncestorIs(b, h, blocks);
      assert a.path[0] == a.path[..h + 1][0] == b.path[0];
    }
    return pa;
  }

  // ----- whole runs -----

  /** Add a block below an earlier one, or make an earlier one the tip; an index of no block stands for none. */
  datatype Op = Add(parent: int) | Tip(index: int)

  function Pick(list: seq<BlockIndex>, i: int): BlockIndex? { if 0 <= i < |list| then list[i] else null }

  /** The parents named by the Add operations, in order. */
  function Parents(ops: seq<Op>): seq<int> {
    if ops == [] then []
    else
      var before, op := Parents(ops[..|ops| - 1]), ops[|ops| - 1];
      if op.Add? then before + [op.parent] else before
  }

  /** The number of the block that the last Tip operation names, among the blocks there were then; -1 for none. */
  function LastTip(ops: seq<Op>): int {
    if ops == [] then -1
    else
      var before, op := ops[..|ops| - 1], ops[|ops| - 1];
      match op
      case Add(_) => LastTip(before)
      case Tip(index) => if 0 <= index < |Parents(before)| then index else -1
  }

  /** The blocks are those of the Add operations, each below the block its operation names. */
  ghost predicate Grows(list: seq<BlockIndex>, parents: seq<int>)
    reads list
  {
    && |list| == |parents|
    && (forall k :: 0 <= k < |list| ==> list[k].pprev == Pick(list[..k], parents[k]))
    && (forall j, k :: 0 <= j < k < |list| ==> list[j] != list[k])
  }

  /** In every run the blocks are those added, each below its parent; the active chain is the path of the last tip
      set; and entry i is the block found by walking back from that tip one step at a time. */
  method Run(ops: seq<Op>) returns (list: seq<BlockIndex>, chain: Chain, ghost blocks: set<BlockIndex>)
    ensures Tree(blocks) && chain.Active(blocks) && forall b :: b in list <==> b in blocks
    ensures Grows(list, Parents(ops))
    ensures -1 <= LastTip(ops) < |list|
    ensures LastTip(ops) == -1 ==> chain.vChain == []
    ensures LastTip(ops) >= 0 ==>
      var tip := list[LastTip(ops)];
      && chain.vChain == tip.path && |chain.vChain| == tip.nHeight + 1
      && forall i :: 0 <= i < |chain.vChain| ==> chain.vChain[i] == Back(tip, tip.nHeight - i, blocks)
  {
    hide BlockIndex.Linked, Tree, Chain.Active, Parents, LastTip, Grows, Back;
    list, blocks := [], {};
    chain := new Chain();
    Empty(chain);
    assert ops[..0] == [];
    StartOps();
    for n := 0 to |ops|
      invariant fresh(chain) && Tree(blocks) && chain.Active(blocks) && forall b :: b in list <==> b in blocks
      invariant forall b :: b in blocks ==> fresh(b)
      invariant Grows(list, Parents(ops[..n])) && |list| == |Parents(ops[..n])| && -1 <= LastTip(ops[..n]) < |list|
      invariant chain.vChain == if LastTip(ops[..n]) < 0 then [] else list[LastTip(ops[..n])].path
    {
      NextOp(ops, n);
      match ops[n]
      case Add(parent) =>
        var b := AddToBlockIndex(Pick(list, parent), blocks);
        StillActive(chain, blocks, blocks + {b});
        assert Grows(list + [b], Parents(ops[..n + 1])) by {
          GrowsBy(list, Parents(ops[..n]), b, parent);
        }
        list, blocks := list + [b], blocks + {b};
      case Tip(index) =>
        chain.SetTip(Pick(list, index), blocks);
    }
    assert ops[..|ops|] == ops;
    if LastTip(ops) >= 0 {
      ActiveIsWalk(list[LastTip(ops)], blocks);
    }
  }

  lemma StartOps()
    ensures Parents([]) == [] && LastTip([]) == -1 && Grows([], [])
  {
  }

  lemma NextOp(ops: seq<Op>, n: nat)
    requires n < |ops|
    ensures Parents(ops[..n + 1]) ==
      if ops[n].Add? then Parents(ops[..n]) + [ops[n].parent] else Parents(ops[..n])
    ensures LastTip(ops[..n + 1]) ==
      if ops[n].Add? then LastTip(ops[..n])
      else if 0 <= ops[n].index < |Parents(ops[..n])| then ops[n].index else -1
  {
    assert ops[..n + 1][..n] == ops[..n];
  }

  lemma GrowsBy(list: seq<BlockIndex>, parents: seq<int>, b: BlockIndex, parent: int)
    requires Grows(list, parents) && b !in list && b.pprev == Pick(list, parent)
    ensures Grows(list + [b], parents + [parent])
  {
    var more := list + [b];
    forall k | 0 <= k < |more|
      ensures more[k].pprev == Pick(more[..k], (parents + [parent])[k])
    {
      if k < |list| {
        assert more[..k] == list[..k];
      } else {
        assert more[..k] == list;
      }
    }
  }

  lemma Empty(chain: Chain)
    requires chain.vChain == []
    ensures Tree({}) && chain.Active({})
  {
  }

  lemma StillActive(chain: Chain, blocks: set<BlockIndex>, more: set<BlockIndex>)
    requires chain.Active(blocks) && blocks <= more
    ensures chain.Active(more)
  {
  }

  lemma ActiveIsWalk(tip: BlockIndex, blocks: set<BlockIndex>)
    requires Tree(blocks) && tip in blocks
    ensures |tip.path| == tip.nHeight + 1
    ensures forall i :: 0 <= i < |tip.path| ==> tip.path[i] == Back(tip, tip.nHeight - i, blocks)
  {
    hide BlockIndex.Linked, Tree, Back;
    AncestorIs(tip, tip.nHeight, blocks);
    forall i | 0 <= i < |tip.path|
      ensures tip.path[i] == Back(tip, tip.nHeight - i, blocks)
    {
      PathIsWalk(tip, tip.nHeight - i, blocks);
    }
  }
}
