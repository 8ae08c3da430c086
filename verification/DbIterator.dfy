/** CDBTransactionIterator: a merge of the pending writes with the parent's iterator. A position in an ordered
    collection is modelled by the set of the keys from that position on. */
module DbIterator {
  import opened ByteOrder
  import opened DbTransaction

  /** The keys of s that are not below k. */
  function From(s: set<Bytes>, k: Bytes): set<Bytes> { set x | x in s && AtMost(k, x) }

  /** What an iterator shows: its own keys and those of its parent that are neither deleted nor overwritten. */
  function Merged(rest: set<Bytes>, below: set<Bytes>, hidden: set<Bytes>): set<Bytes> { rest + (below - hidden) }

  /** The choice of the current side, given that the parent's first key is not hidden. */
  ghost predicate Chosen(rest: set<Bytes>, below: set<Bytes>, hidden: set<Bytes>, parentKey: Bytes, curIsParent: bool)
  {
    && (below != {} ==> parentKey == LeastKey(below) && parentKey !in hidden)
    && (rest != {} && below == {} ==> !curIsParent)
    && (rest == {} && below != {} ==> curIsParent)
    && (rest != {} && below != {} ==> (curIsParent <==> !Less(LeastKey(rest), parentKey)))
  }

  /** The current key is the smaller of the two heads, and the two never tie. */
  lemma CurrentKey(rest: set<Bytes>, below: set<Bytes>, hidden: set<Bytes>, parentKey: Bytes, curIsParent: bool)
    requires Chosen(rest, below, hidden, parentKey, curIsParent) && rest <= hidden && (rest != {} || below != {})
    ensures curIsParent ==> below != {}
    ensures !curIsParent ==> rest != {}
    ensures below != {} ==> parentKey == LeastKey(below) && parentKey !in hidden
    ensures Merged(rest, below, hidden) != {}
    ensures LeastKey(Merged(rest, below, hidden)) == if curIsParent then parentKey else LeastKey(rest)
  {
    var all := Merged(rest, below, hidden);
    if below != {} {
      assert parentKey in all;
    }
    if rest != {} {
      assert LeastKey(rest) in all;
    }
    var m := if curIsParent then parentKey else LeastKey(rest);
    forall x | x in all
      ensures AtMost(m, x)
    {
      if x in rest && curIsParent {
        Transitive(parentKey, LeastKey(rest), x);
      } else if x in below && !curIsParent {
        Trichotomy(LeastKey(rest), parentKey);
        Transitive(LeastKey(rest), parentKey, x);
      }
    }
    LeastKeyIs(all, m);
  }

  /** Advancing the chosen side removes exactly the current key. */
  lemma Advanced(rest: set<Bytes>, below: set<Bytes>, hidden: set<Bytes>, k: Bytes, curIsParent: bool)
    requires rest <= hidden && (if curIsParent then k in below && k !in hidden else k in rest)
    ensures curIsParent ==> Merged(rest, below - {k}, hidden) == Merged(rest, below, hidden) - {k}
    ensures !curIsParent ==> Merged(rest - {k}, below, hidden) == Merged(rest, below, hidden) - {k}
  {
  }

  lemma MergedAll(writes: set<Bytes>, below: set<Bytes>, deletes: set<Bytes>)
    ensures Merged(writes, below, deletes + writes) == below - deletes + writes
  {
  }

  lemma MergedFrom(writes: set<Bytes>, below: set<Bytes>, deletes: set<Bytes>, k: Bytes)
    ensures From(writes, k) <= writes
    ensures Merged(From(writes, k), From(below, k), deletes + writes) == From(below - deletes + writes, k)
  {
  }

  class Iterator {
    const store: Store
    const parentIt: Iterator?
    ghost const repr: set<Iterator>
    var rest: set<Bytes>
    var parentKey: Bytes
    var curIsParent: bool

    ghost predicate Linked()
      decreases repr
    {
      && this in repr && store.Linked() && (parentIt == null <==> store.parent == null)
      && (parentIt != null ==>
           parentIt in repr && parentIt.repr == repr - {this} && parentIt.store == store.parent && parentIt.Linked())
    }

    /** The keys still to be visited. */
    ghost function Remaining(): set<Bytes>
      requires Linked()
      reads repr, store.repr
      decreases repr
    {
      if parentIt == null then rest else Merged(rest, parentIt.Remaining(), Hidden())
    }

    /** The parent's keys that this transaction deletes or overwrites. */
    ghost function Hidden(): set<Bytes>
      reads store
    {
      store.deletes + store.writes.Keys
    }

    ghost predicate Positioned()
      reads repr, store.repr
      decreases repr
    {
      && Linked() && store.Valid()
      && (parentIt != null ==>
        && parentIt.Positioned() && rest <= store.writes.Keys
        && Chosen(rest, parentIt.Remaining(), Hidden(), parentKey, curIsParent))
    }

    /** A new iterator points behind the last key. */
    constructor (store: Store)
      requires store.Valid()
      ensures Positioned() && fresh(repr) && this.store == store && Remaining() == {}
      decreases store.repr
    {
      this.store := store;
      rest, parentKey, curIsParent := {}, [], false;
      var it: Iterator? := null;
      if store.parent != null {
        it := new Iterator(store.parent);
      }
      parentIt := it;
      repr := if it == null then {this} else it.repr + {this};
      new;
      if it != null {
        assert repr - {this} == it.repr;
      }
    }

    method Valid() returns (b: bool)
      requires Positioned()
      ensures b <==> Remaining() != {}
      decreases repr
    {
      hide LeastKey;
      if parentIt == null {
        return rest != {};
      }
      var p := parentIt.Valid();
      b := rest != {} || p;
      if b {
        CurrentKey(rest, parentIt.Remaining(), Hidden(), parentKey, curIsParent);
      }
    }

    /** The smallest key still to be visited. */
    method GetKey() returns (k: Bytes)
      requires Positioned()
      ensures k == if Remaining() == {} then [] else LeastKey(Remaining())
    {
      hide LeastKey;
      var v := Valid();
      if !v {
        return [];
      }
      if parentIt == null {
        return LeastKey(rest);
      }
      CurrentKey(rest, parentIt.Remaining(), Hidden(), parentKey, curIsParent);
      k := if curIsParent then parentKey else LeastKey(rest);
    }

    /** The value the transaction shows for the current key. */
    method GetValue() returns (found: bool, value: Bytes)
      requires Positioned()
      ensures Remaining() == {} ==> !found
      ensures Remaining() != {} ==> (found <==> LeastKey(Remaining()) in store.View())
      ensures found ==> value == store.View()[LeastKey(Remaining())]
    {
      hide LeastKey, Positioned;
      ValidStore();
      var v := Valid();
      if !v {
        return false, [];
      }
      var k := GetKey();
      found, value := store.Read(k);
    }

    lemma ValidStore()
      requires Positioned()
      ensures Linked() && store.Valid() && store.Linked()
    {
    }

    /** Moves the parent's iterator past the keys this transaction hides. */
    method SkipDeletedAndOverwritten()
      requires Linked() && store.Valid() && parentIt != null && parentIt.Positioned()
      modifies this`parentKey, parentIt.repr
      ensures Linked() && parentIt.Positioned()
      ensures parentIt.Remaining() <= old(parentIt.Remaining())
      ensures parentIt.Remaining() - Hidden() == old(parentIt.Remaining()) - Hidden()
      ensures var below := parentIt.Remaining(); below != {} ==> parentKey == LeastKey(below) && parentKey !in Hidden()
      decreases repr, 0
    {
      hide LeastKey, Chosen, Merged, Positioned, Remaining, Store.Valid, Store.Linked, Store.View;
      ghost var start := parentIt.Remaining();
      var more := parentIt.Valid();
      while more
        invariant Linked() && parentIt.Positioned() && parentIt.Remaining() <= start
        invariant more <==> parentIt.Remaining() != {}
        invariant parentIt.Remaining() - Hidden() == start - Hidden()
        decreases parentIt.Remaining()
      {
        parentKey := parentIt.GetKey();
        if parentKey !in store.deletes && parentKey !in store.writes {
          break;
        }
        parentIt.Next();
        more := parentIt.Valid();
      }
    }

    method DecideCur()
      requires Linked() && parentIt != null && parentIt.Positioned()
      requires var below := parentIt.Remaining(); below != {} ==> parentKey == LeastKey(below) && parentKey !in Hidden()
      modifies this`curIsParent
      ensures Linked() && parentIt.Positioned() && parentIt.Remaining() == old(parentIt.Remaining())
      ensures Chosen(rest, parentIt.Remaining(), Hidden(), parentKey, curIsParent)
      decreases repr, 0
    {
      hide LeastKey, Merged, Positioned, Remaining, Store.Valid, Store.Linked, Store.View;
      var p := parentIt.Valid();
      if rest != {} && !p {
        curIsParent := false;
      } else if rest == {} && p {
        curIsParent := true;
      } else if rest != {} && p {
        curIsParent := !Less(LeastKey(rest), parentKey);
      }
    }

    /** After both positions are set: skip what is hidden, then choose a side. */
    method Settle()
      requires Linked() && store.Valid() && parentIt != null && parentIt.Positioned() && rest <= store.writes.Keys
      modifies this`parentKey, this`curIsParent, parentIt.repr
      ensures Positioned() && Remaining() == old(Merged(rest, parentIt.Remaining(), Hidden()))
      decreases repr, 1
    {
      hide LeastKey, Chosen, Store.Valid, Store.Linked, Store.View;
      SkipDeletedAndOverwritten();
      DecideCur();
    }

    method SeekToFirst()
      requires Linked() && store.Valid()
      modifies repr
      ensures Positioned() && Remaining() == store.View().Keys
      decreases repr, 2
    {
      hide LeastKey, Chosen, Merged, Store.Valid, Store.View;
      if parentIt == null {
        rest := store.stored.Keys;
        store.Bottom();
        return;
      }
      store.Below();
      rest := store.writes.Keys;
      parentIt.SeekToFirst();
      MergedAll(store.writes.Keys, store.parent.View().Keys, store.deletes);
      Settle();
    }

    method Seek(k: Bytes)
      requires Linked() && store.Valid()
      modifies repr
      ensures Positioned() && Remaining() == From(store.View().Keys, k)
      decreases repr, 2
    {
      hide LeastKey, Chosen, Merged, From, Store.Valid, Store.View;
      if parentIt == null {
        rest := From(store.stored.Keys, k);
        store.Bottom();
        return;
      }
      store.Below();
      rest := From(store.writes.Keys, k);
      parentIt.Seek(k);
      MergedFrom(store.writes.Keys, store.parent.View().Keys, store.deletes, k);
      Settle();
    }

    /** Past the current key. */
    method Next()
      requires Positioned()
      modifies repr
      ensures Positioned()
      ensures var was := old(Remaining()); Remaining() == if was == {} then {} else was - {LeastKey(was)}
      decreases repr, 2
    {
      hide LeastKey, Chosen, Store.Valid, Store.Linked, Store.View;
      var v := Valid();
      if !v {
        return;
      }
      if parentIt == null {
        rest := rest - {LeastKey(rest)};
        return;
      }
      CurrentKey(rest, parentIt.Remaining(), Hidden(), parentKey, curIsParent);
      if curIsParent {
        Advanced(rest, parentIt.Remaining(), Hidden(), parentKey, true);
        parentIt.Next();
        SkipDeletedAndOverwritten();
      } else {
        Advanced(rest, parentIt.Remaining(), Hidden(), LeastKey(rest), false);
        rest := rest - {LeastKey(rest)};
      }
      DecideCur();
    }
  }

  /** Visits what an iterator has left: every key once, in increasing byte order, with the value shown for it. */
  method Scan(it: Iterator) returns (keys: seq<Bytes>, values: seq<Bytes>)
    requires it.Positioned() && it.Remaining() <= it.store.View().Keys
    modifies it.repr
    ensures it.Positioned() && it.store.View() == old(it.store.View()) && |keys| == |values|
    ensures forall i :: 0 < i < |keys| ==> Less(keys[i - 1], keys[i])
    ensures forall k :: k in keys <==> k in old(it.Remaining())
    ensures forall i :: 0 <= i < |keys| ==> keys[i] in it.store.View() && values[i] == it.store.View()[keys[i]]
  {
    hide LeastKey, Iterator.Positioned, Iterator.Remaining, Store.View, Less, AtMost;
    it.ValidStore();
    ghost var all, view := it.Remaining(), it.store.View();
    keys, values := [], [];
    var more := it.Valid();
    while more
      invariant it.Positioned() && it.store.View() == view && it.Remaining() <= all && |keys| == |values|
      invariant more <==> it.Remaining() != {}
      invariant forall k :: k in keys <==> k in all - it.Remaining()
      invariant forall i :: 0 < i < |keys| ==> Less(keys[i - 1], keys[i])
      invariant |keys| > 0 ==> forall k :: k in it.Remaining() ==> Less(keys[|keys| - 1], k)
      invariant forall i :: 0 <= i < |keys| ==> keys[i] in view && values[i] == view[keys[i]]
      decreases it.Remaining()
    {
      var k := it.GetKey();
      var found, value := it.GetValue();
      LeastFirst(it.Remaining());
      ghost var was := it.Remaining();
      it.Next();
      keys, values := keys + [k], values + [value];
      more := it.Valid();
      forall x
        ensures x in keys <==> x in all - it.Remaining()
      {
        assert x in keys <==> x in keys[..|keys| - 1] || x == k;
      }
    }
  }

  /** The least key is strictly below the others. */
  lemma LeastFirst(s: set<Bytes>)
    requires s != {}
    ensures forall k :: k in s && k != LeastKey(s) ==> Less(LeastKey(s), k)
  {
    hide LeastKey;
    forall k | k in s && k != LeastKey(s)
      ensures Less(LeastKey(s), k)
    {
      Trichotomy(LeastKey(s), k);
    }
  }

  /** A whole scan lists exactly the data shown, in order. */
  method ScanAll(store: Store) returns (keys: seq<Bytes>, values: seq<Bytes>)
    requires store.Valid()
    ensures |keys| == |values| && forall i :: 0 < i < |keys| ==> Less(keys[i - 1], keys[i])
    ensures forall k :: k in keys <==> k in store.View()
    ensures forall i :: 0 <= i < |keys| ==> values[i] == store.View()[keys[i]]
  {
    hide Iterator.Remaining, Store.View, Less, AtMost, LeastKey;
    var it := new Iterator(store);
    it.SeekToFirst();
    keys, values := Scan(it);
  }

  /** A scan from a key lists the data at or after that key. */
  method ScanFrom(store: Store, from: Bytes) returns (keys: seq<Bytes>, values: seq<Bytes>)
    requires store.Valid()
    ensures |keys| == |values| && forall i :: 0 < i < |keys| ==> Less(keys[i - 1], keys[i])
    ensures forall k :: k in keys <==> k in store.View() && AtMost(from, k)
    ensures forall i :: 0 <= i < |keys| ==> keys[i] in store.View() && values[i] == store.View()[keys[i]]
  {
    hide Iterator.Remaining, Store.View, Less, AtMost, LeastKey;
    var it := new Iterator(store);
    it.Seek(from);
    keys, values := Scan(it);
  }

  /** Committing a transaction into the root transaction, that one into the batch, and the batch into the database:
      the database then holds what the innermost transaction showed. */
  method CommitThrough(cur: Store, root: Store, db: Store)
    requires cur.Valid() && cur.parent == root && root.parent == db && db.parent == null && db.batch == []
    modifies cur, root, db
    ensures cur.Valid() && db.stored == old(cur.View()) == cur.View() == root.View()
    ensures db.batch == [] && cur.memoryUsage == root.memoryUsage == 0
  {
    hide Usage;
    ghost var shown := cur.View();
    cur.Commit();
    root.Commit();
    db.WriteBatch();
    assert Overlaid(db.stored, {}, map[]) == db.stored;
  }
}
