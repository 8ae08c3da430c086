/** Writing the address manager to a stream. */
module AddrManStream {
  import opened AddrManState
  import opened AddrManInvariant
  import opened AddrManImage
  import opened AddrManRestored
  import opened Collections

  lemma InvListable(s: State)
    requires Core(s, {}, 0)
    ensures Listable(s)
  {
    forall b, q | 0 <= b < NEW_BUCKET_COUNT && 0 <= q < BUCKET_SIZE
      ensures s.vvNew[b][q] == EMPTY || s.vvNew[b][q] in NewIds(s) {
      assert NewSlotOk(s, b, q);
    }
  }

  // ----- writing -----

  ghost predicate Known(s: State, r: seq<int>) {
    forall i :: 0 <= i < |r| ==> r[i] in s.mapInfo
  }

  lemma SortedKnown(s: State, ids: set<int>)
    requires ids <= s.mapInfo.Keys
    ensures Known(s, Sorted(ids))
  {
    var r := Sorted(ids);
    forall i | 0 <= i < |r| ensures r[i] in s.mapInfo {
      assert r[i] in ids;
    }
  }

  lemma InfosAppend(s: State, r: seq<int>, id: int)
    requires Known(s, r) && id in s.mapInfo
    ensures Known(s, r + [id]) && Infos(s, r + [id]) == Infos(s, r) + [TInfo(Saved(s.mapInfo[id]))]
  {
  }

  /** Passing one more listed id appends it and its entry. */
  lemma ListOne(s: State, ids: set<int>, id: int)
    requires ids <= s.mapInfo.Keys && id in s.mapInfo && id !in ids && forall y :: y in ids ==> y < id
    ensures Sorted(ids + {id}) == Sorted(ids) + [id] && |ids + {id}| == |ids| + 1 && |Sorted(ids)| == |ids|
    ensures Known(s, Sorted(ids)) && Known(s, Sorted(ids + {id}))
    ensures Infos(s, Sorted(ids + {id})) == Infos(s, Sorted(ids)) + [TInfo(Saved(s.mapInfo[id]))]
  {
    hide Sorted, Known, Infos;
    SortedAppend(ids, id);
    SortedKnown(s, ids);
    InfosAppend(s, Sorted(ids), id);
  }

  /** The ids of mapInfo that iteration has passed are all below those still to come. */
  ghost predicate Passed(all: set<int>, done: set<int>, rest: set<int>) {
    done + rest == all && done !! rest && forall x, y :: x in done && y in rest ==> x < y
  }

  lemma PassOne(all: set<int>, done: set<int>, rest: set<int>)
    requires Passed(all, done, rest) && rest != {}
    ensures Passed(all, done + {Least(rest)}, rest - {Least(rest)}) && forall x :: x in done ==> x < Least(rest)
  {
  }

  /** The state of the loop that writes the ids in target, after passing the ids in done. */
  ghost predicate Written(s: State, target: set<int>, done: set<int>, nIds: int, out: seq<Token>) {
    && nIds == |target * done| && Known(s, Sorted(target * done)) && out == Infos(s, Sorted(target * done))
  }

  lemma WriteOne(s: State, target: set<int>, done: set<int>, id: int, nIds: int, out: seq<Token>)
    requires Written(s, target, done, nIds, out) && target <= s.mapInfo.Keys && id in s.mapInfo
    requires forall x :: x in done ==> x < id
    ensures id in target ==>
      nIds < |target| && Written(s, target, done + {id}, nIds + 1, out + [TInfo(Saved(s.mapInfo[id]))])
    ensures id in target ==>
      |Sorted(target * done)| == nIds && Sorted(target * (done + {id})) == Sorted(target * done) + [id]
    ensures id !in target ==> Written(s, target, done + {id}, nIds, out) && target * (done + {id}) == target * done
  {
    hide Sorted, Known, Infos;
    var was := target * done;
    if id in target {
      assert was + {id} == target * (done + {id});
      ListOne(s, was, id);
      SubsetSize(was + {id}, target);
    } else {
      assert was == target * (done + {id});
    }
  }

  /** The index of each written id is recorded. */
  ghost predicate Indexed(unkIds: map<int, int>, ids: set<int>) {
    forall id :: id in ids ==> id in unkIds && 0 <= unkIds[id] < |Sorted(ids)| && Sorted(ids)[unkIds[id]] == id
  }

  lemma IndexOne(unkIds: map<int, int>, ids: set<int>, ids': set<int>, id: int)
    requires Indexed(unkIds, ids)
    requires ids' == ids || (ids' == ids + {id} && Sorted(ids') == Sorted(ids) + [id])
    requires id !in ids
    ensures Indexed(unkIds[id := |Sorted(ids)|], ids')
  {
  }

  method WriteNew(s: State) returns (out: seq<Token>, unkIds: map<int, int>)
    requires Inv(s)
    ensures Known(s, NewList(s)) && out == Infos(s, NewList(s)) && Indexed(unkIds, NewIds(s))
  {
    hide LinksOk, TriedOk, NewOk, EntriesOk, Sorted, IndexOf, PendingOk, Known, Infos, Indexed;
    out, unkIds := [], map[];
    var nIds := 0;
    var rest := s.mapInfo.Keys;
    ghost var target := NewIds(s);
    ghost var done: set<int> := {};
    NothingWritten(s, target, unkIds);
    while rest != {}
      invariant Passed(s.mapInfo.Keys, done, rest)
      invariant Written(s, target, done, nIds, out) && Indexed(unkIds, target * done) && nIds == |Sorted(target * done)|
      decreases |rest|
    {
      var id := Least(rest);
      PassOne(s.mapInfo.Keys, done, rest);
      NewIffReferenced(s, id);
      WriteOne(s, target, done, id, nIds, out);
      ghost var ids := target * done;
      assert id in target ==> target * (done + {id}) == ids + {id};
      IndexOne(unkIds, ids, target * (done + {id}), id);
      unkIds := unkIds[id := nIds];
      if s.mapInfo[id].nRefCount != 0 {
        assert nIds != s.nNew;
        out := out + [TInfo(Saved(s.mapInfo[id]))];
        nIds := nIds + 1;
      }
      done, rest := done + {id}, rest - {id};
    }
    assert target * done == target;
  }

  lemma NothingWritten(s: State, target: set<int>, unkIds: map<int, int>)
    ensures Written(s, target, {}, 0, []) && Indexed(unkIds, target * {}) && |Sorted(target * {})| == 0
  {
    assert target * {} == {};
    SortedEmpty();
  }

  lemma SortedEmpty()
    ensures Sorted({}) == []
  {
  }

  lemma NewIffReferenced(s: State, id: int)
    requires Inv(s) && id in s.mapInfo
    ensures id in NewIds(s) <==> s.mapInfo[id].nRefCount != 0
    ensures id in TriedIds(s) <==> s.mapInfo[id].fInTried
  {
    if s.mapInfo[id].fInTried {
      assert Seated(s, id);
    } else {
      assert RefsOk(s, id, 1);
    }
  }

  method WriteTried(s: State) returns (out: seq<Token>)
    requires Inv(s)
    ensures Known(s, TriedList(s)) && out == Infos(s, TriedList(s))
  {
    hide LinksOk, TriedOk, NewOk, EntriesOk, Sorted, PendingOk, Known, Infos, Indexed;
    out := [];
    var nIds := 0;
    var rest := s.mapInfo.Keys;
    ghost var target := TriedIds(s);
    ghost var done: set<int> := {};
    NothingWritten(s, target, map[]);
    while rest != {}
      invariant Passed(s.mapInfo.Keys, done, rest) && Written(s, target, done, nIds, out)
      decreases |rest|
    {
      var id := Least(rest);
      PassOne(s.mapInfo.Keys, done, rest);
      WriteOne(s, target, done, id, nIds, out);
      if s.mapInfo[id].fInTried {
        assert nIds != s.nTried;
        out := out + [TInfo(Saved(s.mapInfo[id]))];
        nIds := nIds + 1;
      }
      done, rest := done + {id}, rest - {id};
    }
    assert target * done == target;
  }

  lemma OccupantsStep(row: seq<int>, i: nat)
    requires i < |row|
    ensures Occupants(row[..i + 1]) == Occupants(row[..i]) + (if row[i] == EMPTY then [] else [row[i]])
  {
    assert row[..i + 1][..i] == row[..i];
  }

  method WriteBucket(s: State, bucket: nat, unkIds: map<int, int>) returns (out: seq<Token>)
    requires Listable(s) && bucket < NEW_BUCKET_COUNT
    requires Indexed(unkIds, NewIds(s))
    ensures out == BucketTokens(s, bucket)
  {
    hide IndexOf, NewList, NewIds, Sorted, Indexed;
    var row := s.vvNew[bucket];
    var nSize := 0;
    for i := 0 to BUCKET_SIZE
      invariant nSize == |Occupants(row[..i])|
    {
      OccupantsStep(row, i);
      if row[i] != EMPTY {
        nSize := nSize + 1;
      }
    }
    assert row[..BUCKET_SIZE] == row;
    out := [TInt(nSize)];
    for i := 0 to BUCKET_SIZE
      invariant OccupantsListed(s, row[..i])
      invariant out == [TInt(nSize)] + Indices(s, Occupants(row[..i]))
    {
      OccupantsStep(row, i);
      if row[i] != EMPTY {
        IndexedAt(s, unkIds, row[i]);
        ghost var was := Occupants(row[..i]);
        var nIndex := unkIds[row[i]];
        out := out + [TInt(nIndex)];
        assert Indices(s, was + [row[i]]) == Indices(s, was) + [TInt(nIndex)];
      }
    }
  }

  ghost predicate OccupantsListed(s: State, row: seq<int>) {
    forall i :: 0 <= i < |Occupants(row)| ==> Occupants(row)[i] in NewList(s)
  }

  lemma IndexedAt(s: State, unkIds: map<int, int>, id: int)
    requires id in NewIds(s) && Indexed(unkIds, NewIds(s))
    ensures id in NewList(s) && id in unkIds && unkIds[id] == IndexOf(NewList(s), id)
  {
    IndexOfUnique(NewList(s), unkIds[id]);
  }

  method Serialize(s: State) returns (out: seq<Token>)
    requires Inv(s)
    ensures Listable(s) && out == Image(s)
  {
    hide LinksOk, TriedOk, NewOk, EntriesOk, CountsOk, PendingOk, BucketTokens, Infos, NewList, TriedList, NewIds,
      TriedIds, IndexOf, Indexed, Known;
    InvListable(s);
    out := [TInt(FORMAT_V3_BIP155), TInt(KEY_SIZE), TInt(s.p.nKey), TInt(s.nNew), TInt(s.nTried)];
    out := out + [TInt(Marked(NEW_BUCKET_COUNT))];
    var part, unkIds := WriteNew(s);
    out := out + part;
    part := WriteTried(s);
    out := out + part;
    ghost var cs := [TInt(Checksum(s.p))];
    assert out + (BucketsFrom(s, 0) + cs) == Image(s);
    for bucket := 0 to NEW_BUCKET_COUNT
      invariant out + (BucketsFrom(s, bucket) + cs) == Image(s)
    {
      part := WriteBucket(s, bucket, unkIds);
      assert out + (part + BucketsFrom(s, bucket + 1) + cs) == (out + part) + (BucketsFrom(s, bucket + 1) + cs);
      out := out + part;
    }
    assert BucketsFrom(s, NEW_BUCKET_COUNT) + cs == cs;
    var checksum := 0;
    if |s.p.asmap| != 0 {
      checksum := s.p.env.digest(s.p.asmap);
    }
    out := out + [TInt(checksum)];
  }
}
