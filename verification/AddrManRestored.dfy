/** What reading an image back preserves: everything but the ids, and the address index exactly when the
    raw addresses are the index keys. */
module AddrManRestored {
  import opened AddrManState
  import opened AddrManInvariant
  import opened AddrManImage
  import opened Collections

  lemma {:induction false} IndexOfUnique(r: seq<int>, k: nat)
    requires k < |r| && forall i, j :: 0 <= i < j < |r| ==> r[i] != r[j]
    ensures IndexOf(r, r[k]) == k
  {
    var m := IndexOf(r, r[k]);
    assert r[m] == r[k];
  }

  /** Renaming is a bijection between the ids of s and 0, 1, ..., fixing the empty mark. */
  lemma RenamedId(s: State, x: int)
    requires EntriesOk(s) && (x == EMPTY || x in s.mapInfo)
    ensures x in s.mapInfo ==> 0 <= Renamed(s, x) < |Order(s)| && Order(s)[Renamed(s, x)] == x
    ensures x == EMPTY ==> Renamed(s, x) == EMPTY
  {
    OrderLists(s);
    assert x in Order(s) <==> x in s.mapInfo;
  }

  lemma RenamedBijection(s: State, x: int, k: int)
    requires EntriesOk(s) && (x == EMPTY || x in s.mapInfo) && 0 <= k < |Order(s)|
    ensures Renamed(s, x) == k <==> x == Order(s)[k]
  {
    RenamedId(s, x);
    OrderLists(s);
    IndexOfUnique(Order(s), k);
  }

  /** The parts of the restored state that matter to the tables. */
  lemma RestoredParts(s: State)
    ensures var t := Restored(s);
      && t.p == s.p && t.discriminatePorts == s.discriminatePorts && t.nTried == s.nTried && t.nNew == s.nNew
      && t.vvTried == RenamedTable(s, s.vvTried) && t.vvNew == RenamedTable(s, s.vvNew)
      && t.mapAddr == RawIndex(s, |Order(s)|) && t.collisions == {} && t.nIdCount == |Order(s)| == |t.vRandom|
      && (forall k :: 0 <= k < |Order(s)| ==> t.vRandom[k] == k)
      && (forall k :: k in t.mapInfo <==> 0 <= k < |Order(s)|)
      && (forall k :: 0 <= k < |Order(s)| ==> t.mapInfo[k] == RestoredInfo(s, k))
  {
  }

  lemma RestoredEntry(s: State, k: nat)
    requires k < |Order(s)|
    ensures Order(s)[k] in s.mapInfo
    ensures var i := s.mapInfo[Order(s)[k]]; var j := RestoredInfo(s, k);
      && j.addr == i.addr && j.source == i.source && j.nServices == i.nServices && j.nTime == i.nTime
      && j.nLastSuccess == i.nLastSuccess && j.nAttempts == i.nAttempts
      && j.nRefCount == i.nRefCount && j.fInTried == i.fInTried && j.nRandomPos == k && j.nLastTry == 0
  {
  }

  lemma RestoredTriedSlot(s: State, b: nat, q: nat)
    requires TriedOk(s) && EntriesOk(s) && b < TRIED_BUCKET_COUNT && q < BUCKET_SIZE
    ensures Within(Restored(s).vvTried, b, q) && TriedSlotOk(Restored(s), b, q)
  {
    hide Restored, Order, IndexOf, RestoredInfo, RawIndex, Renamed;
    RestoredParts(s);
    assert TriedSlotOk(s, b, q);
    var x := s.vvTried[b][q];
    RenamedId(s, x);
    if x != EMPTY {
      RestoredEntry(s, Renamed(s, x));
    }
  }

  lemma RestoredSeat(s: State, k: nat)
    requires TriedOk(s) && EntriesOk(s) && k < |Order(s)| && Restored(s).mapInfo[k].fInTried
    ensures Shape(Restored(s).vvTried, TRIED_BUCKET_COUNT) && Seated(Restored(s), k)
  {
    hide Restored, Order, IndexOf, RestoredInfo, RawIndex, Renamed;
    RestoredParts(s);
    RestoredEntry(s, k);
    var id := Order(s)[k];
    assert Seated(s, id);
    RenamedBijection(s, id, k);
  }

  lemma RestoredTried(s: State)
    requires TriedOk(s) && EntriesOk(s)
    ensures TriedOk(Restored(s))
  {
    hide Restored, Order, IndexOf, RestoredInfo, RawIndex, Renamed, TriedSlotOk, Seated;
    var t := Restored(s);
    RestoredParts(s);
    forall b, q | 0 <= b < TRIED_BUCKET_COUNT && 0 <= q < BUCKET_SIZE ensures TriedSlotOk(t, b, q) {
      RestoredTriedSlot(s, b, q);
    }
    forall k | k in t.mapInfo && t.mapInfo[k].fInTried ensures Seated(t, k) {
      RestoredSeat(s, k);
    }
  }

  lemma RestoredRefs(s: State, k: nat)
    requires NewOk(s, {}) && EntriesOk(s) && k < |Order(s)|
    ensures Order(s)[k] in s.mapInfo && Shape(Restored(s).vvNew, NEW_BUCKET_COUNT)
    ensures var id := Order(s)[k]; var a := s.mapInfo[id].addr;
      Refs(s.p, Restored(s).vvNew, k, a) == Refs(s.p, s.vvNew, id, a)
  {
    var id := Order(s)[k];
    var a := s.mapInfo[id].addr;
    var t := Restored(s);
    forall b | 0 <= b < NEW_BUCKET_COUNT
      ensures t.vvNew[b][s.p.Position(true, b, a)] == k <==> s.vvNew[b][s.p.Position(true, b, a)] == id
    {
      var q := s.p.Position(true, b, a);
      assert NewSlotOk(s, b, q);
      RenamedBijection(s, s.vvNew[b][q], k);
      assert t.vvNew[b][q] == Renamed(s, s.vvNew[b][q]);
    }
  }

  lemma RestoredNewSlot(s: State, b: nat, q: nat)
    requires NewOk(s, {}) && EntriesOk(s) && b < NEW_BUCKET_COUNT && q < BUCKET_SIZE
    ensures Within(Restored(s).vvNew, b, q) && NewSlotOk(Restored(s), b, q)
  {
    hide Restored, Order, IndexOf, RestoredInfo, RawIndex, Renamed;
    RestoredParts(s);
    assert NewSlotOk(s, b, q);
    var x := s.vvNew[b][q];
    RenamedId(s, x);
    if x != EMPTY {
      RestoredEntry(s, Renamed(s, x));
    }
  }

  lemma RestoredNew(s: State)
    requires NewOk(s, {}) && EntriesOk(s)
    ensures NewOk(Restored(s), {})
  {
    hide Restored, Order, IndexOf, RestoredInfo, RawIndex, Renamed, NewSlotOk;
    var t := Restored(s);
    RestoredParts(s);
    forall b, q | 0 <= b < NEW_BUCKET_COUNT && 0 <= q < BUCKET_SIZE ensures NewSlotOk(t, b, q) {
      RestoredNewSlot(s, b, q);
    }
    forall k | k in t.mapInfo && !t.mapInfo[k].fInTried ensures RefsOk(t, k, 1) {
      RestoredEntry(s, k);
      RestoredRefs(s, k);
      assert RefsOk(s, Order(s)[k], 1);
    }
  }

  lemma RestoredFlag(s: State, k: nat)
    requires k < |Order(s)|
    ensures RestoredInfo(s, k).fInTried <==> |NewIds(s)| <= k
  {
    var n := |NewIds(s)|;
    assert k < n ==> Order(s)[k] == NewList(s)[k] && NewList(s)[k] in NewIds(s);
    assert n <= k ==> Order(s)[k] == TriedList(s)[k - n] && TriedList(s)[k - n] in TriedIds(s);
  }

  lemma RestoredCounts(s: State)
    requires CountsOk(s, 0)
    ensures CountsOk(Restored(s), 0)
  {
    hide Restored, Order, IndexOf, RestoredInfo, RawIndex, Renamed;
    var t := Restored(s);
    RestoredParts(s);
    var n, m := |NewIds(s)|, |Order(s)|;
    forall k | 0 <= k < m ensures t.mapInfo[k].fInTried <==> n <= k {
      RestoredFlag(s, k);
    }
    forall k ensures k in NewIds(t) <==> k in Span(0, n) {}
    forall k ensures k in TriedIds(t) <==> k in Span(n, m) {}
    assert NewIds(t) == Span(0, n) && TriedIds(t) == Span(n, m);
  }

  lemma RestoredEntries(s: State)
    requires EntriesOk(s)
    ensures EntriesOk(Restored(s))
  {
    hide Restored, Order, IndexOf, RestoredInfo, RawIndex, Renamed;
    var t := Restored(s);
    RestoredParts(s);
    forall k | k in t.mapInfo ensures 0 <= k < t.nIdCount && t.mapInfo[k].nLastTry >= 0 &&
      t.mapInfo[k].nLastSuccess >= 0 {
      RestoredEntry(s, k);
      var id := Order(s)[k];
      assert id in s.mapInfo && s.mapInfo[id].nLastSuccess >= 0;
    }
  }

  // ----- the address index -----

  lemma {:induction false} RawIndexIs(s: State, n: nat, a: Service)
    requires n <= |Order(s)|
    requires forall i, j :: 0 <= i < j < n ==> RestoredInfo(s, i).addr != RestoredInfo(s, j).addr
    ensures a in RawIndex(s, n) <==> exists k :: 0 <= k < n && RestoredInfo(s, k).addr == a
    ensures a in RawIndex(s, n) ==> 0 <= RawIndex(s, n)[a] < n && RestoredInfo(s, RawIndex(s, n)[a]).addr == a
  {
    hide Order, RestoredInfo;
    if n > 0 {
      RawIndexIs(s, n - 1, a);
    }
  }

  lemma DistinctAddresses(s: State, i: nat, j: nat)
    requires LinksOk(s) && i < j < |Order(s)|
    ensures s.Key(RestoredInfo(s, i).addr) != s.Key(RestoredInfo(s, j).addr)
  {
    OrderLists(s);
    assert LinkOk(s, Order(s)[i]) && LinkOk(s, Order(s)[j]);
  }

  /** Index keys and raw addresses coincide. */
  ghost predicate RawKeys(s: State) {
    s.discriminatePorts || forall id :: id in s.mapInfo ==> s.mapInfo[id].addr.port == 0
  }

  lemma KeysAreRaw(s: State, k: nat)
    requires RawKeys(s) && k < |Order(s)|
    ensures s.Key(RestoredInfo(s, k).addr) == RestoredInfo(s, k).addr
  {
    assert Order(s)[k] in s.mapInfo;
  }

  lemma DistinctRaw(s: State)
    requires LinksOk(s)
    ensures forall i, j :: 0 <= i < j < |Order(s)| ==> RestoredInfo(s, i).addr != RestoredInfo(s, j).addr
  {
    forall i, j | 0 <= i < j < |Order(s)| ensures RestoredInfo(s, i).addr != RestoredInfo(s, j).addr {
      DistinctAddresses(s, i, j);
    }
  }

  lemma RestoredLinks(s: State)
    requires LinksOk(s) && EntriesOk(s) && RawKeys(s)
    ensures LinksOk(Restored(s))
  {
    hide Restored, Order, IndexOf, RestoredInfo, RawIndex, Renamed;
    var t := Restored(s);
    var n := |Order(s)|;
    RestoredParts(s);
    DistinctRaw(s);
    forall k | k in t.mapInfo ensures LinkOk(t, k) {
      KeysAreRaw(s, k);
      RestoredEntry(s, k);
      RawIndexIs(s, n, RestoredInfo(s, k).addr);
    }
    forall a | a in t.mapAddr ensures t.mapAddr[a] in t.mapInfo && t.Key(t.mapInfo[t.mapAddr[a]].addr) == a {
      RawIndexIs(s, n, a);
      KeysAreRaw(s, t.mapAddr[a]);
    }
    forall i | 0 <= i < |t.vRandom| ensures t.vRandom[i] in t.mapInfo && t.mapInfo[t.vRandom[i]].nRandomPos == i {
      RestoredEntry(s, i);
    }
  }

  /** Without port discrimination, an entry with a non-zero port cannot be found after reading back. */
  lemma RestoredUnlinked(s: State, id: int)
    requires LinksOk(s) && EntriesOk(s) && !s.discriminatePorts && id in s.mapInfo && s.mapInfo[id].addr.port != 0
    ensures !LinksOk(Restored(s)) && Restored(s).Find(s.mapInfo[id].addr).None?
  {
    hide Restored, Order, IndexOf, RestoredInfo, RawIndex, Renamed;
    var t := Restored(s);
    var n := |Order(s)|;
    RestoredParts(s);
    RenamedId(s, id);
    var k := Renamed(s, id);
    RestoredEntry(s, k);
    var a := s.Key(s.mapInfo[id].addr);
    DistinctRaw(s);
    RawIndexIs(s, n, a);
    forall j | 0 <= j < n ensures RestoredInfo(s, j).addr != a {
      if j < k {
        DistinctAddresses(s, j, k);
      } else if k < j {
        DistinctAddresses(s, k, j);
      }
    }
    assert a !in t.mapAddr;
    assert k in t.mapInfo && !LinkOk(t, k);
  }

  lemma Sections(h: seq<Token>, a: seq<Token>, b: seq<Token>, r: seq<Token>, k: nat)
    requires k < |a| + |b| && r != []
    ensures var m := h + (a + (b + r));
      && |m| == |h| + |a| + |b| + |r| && m[..|h|] == h && m[|m| - 1] == r[|r| - 1]
      && m[|h| + k] == if k < |a| then a[k] else b[k - |a|]
  {
  }

  /** The layout of an image: version 3 (BIP 155), the size of the key and the key, the numbers of new and tried
      entries, the number of buckets with bit 30 set, and at the end the checksum of the AS map. */
  lemma ImageFrame(s: State)
    requires Core(s, {}, 0) && Listable(s)
    ensures var m := Image(s);
      && |m| >= 7 + |NewIds(s)| + |TriedIds(s)|
      && m[..6] == [TInt(3), TInt(32), TInt(s.p.nKey), TInt(|NewIds(s)|), TInt(|TriedIds(s)|), TInt(0x4000_0400)]
      && m[|m| - 1] == TInt(if s.p.asmap == [] then 0 else s.p.env.digest(s.p.asmap))
  {
    ListsKnown(s);
    hide LinksOk, TriedOk, NewOk, EntriesOk, BucketsFrom, NewIds, TriedIds, NewList, TriedList;
    var rest := BucketsFrom(s, 0) + [TInt(Checksum(s.p))];
    var a, b := Infos(s, NewList(s)), Infos(s, TriedList(s));
    if |a| + |b| > 0 {
      Sections(Header(s), a, b, rest, 0);
    } else {
      assert Image(s) == Header(s) + rest;
    }
  }

  /** In between are first the new entries, then the tried ones, each in the order of their ids. */
  lemma ImageEntry(s: State, j: nat, k: nat)
    requires Listable(s) && j < k < |Order(s)|
    ensures 6 + k < |Image(s)| && Image(s)[6 + k] == TInfo(Saved(s.mapInfo[Order(s)[k]]))
    ensures Order(s)[j] in NewIds(s) || Order(s)[k] in TriedIds(s)
    ensures k < |NewIds(s)| || j >= |NewIds(s)| ==> Order(s)[j] < Order(s)[k]
  {
    ListsKnown(s);
    hide BucketsFrom, NewList, TriedList;
    var rest := BucketsFrom(s, 0) + [TInt(Checksum(s.p))];
    Sections(Header(s), Infos(s, NewList(s)), Infos(s, TriedList(s)), rest, k);
  }

  lemma ListsKnown(s: State)
    ensures var n, t := NewList(s), TriedList(s);
      && |n| == |NewIds(s)| && |t| == |TriedIds(s)| && Increasing(n) && Increasing(t)
      && (forall i :: 0 <= i < |n| ==> n[i] in NewIds(s) && n[i] in s.mapInfo)
      && (forall i :: 0 <= i < |t| ==> t[i] in TriedIds(s) && t[i] in s.mapInfo)
  {
  }

  /** Reading back restores the invariant if and only if the raw addresses are the index keys. */
  lemma RestoredInvariant(s: State)
    requires Inv(s)
    ensures Inv(Restored(s)) <==> RawKeys(s)
  {
    hide LinksOk, EntriesOk, TriedOk, NewOk, CountsOk, Restored, Order, RawIndex, Renamed;
    RestoredParts(s);
    RestoredTried(s);
    RestoredNew(s);
    RestoredCounts(s);
    RestoredEntries(s);
    if RawKeys(s) {
      RestoredLinks(s);
    } else {
      var id :| id in s.mapInfo && s.mapInfo[id].addr.port != 0;
      RestoredUnlinked(s, id);
    }
  }
}
