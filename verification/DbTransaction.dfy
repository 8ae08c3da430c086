/** CDBTransaction: pending writes and deletes over a parent, which is the database or another transaction. */
module DbTransaction {
  import opened Collections
  import opened ByteOrder

  type Data = map<Bytes, Bytes>

  /** A change queued in a CDBBatch. */
  datatype Change = Put(key: Bytes, value: Bytes) | Delete(key: Bytes)

  function Applied(data: Data, batch: seq<Change>): Data
  {
    if batch == [] then data
    else
      var d := Applied(data, batch[..|batch| - 1]);
      match batch[|batch| - 1]
      case Put(k, v) => d[k := v]
      case Delete(k) => d - {k}
  }

  /** What a transaction shows over its parent. */
  function Overlaid(data: Data, deletes: set<Bytes>, writes: Data): Data { data - deletes + writes }

  /** The bytes held by pending writes and deletes. */
  ghost function Usage(writes: Data, deletes: set<Bytes>): nat
  {
    Sum(map k | k in writes :: |k| + |writes[k]|) + Sum(map k | k in deletes :: |k|)
  }

  lemma UsageWrite(writes: Data, deletes: set<Bytes>, k: Bytes, v: Bytes)
    requires k !in writes
    ensures Usage(writes[k := v], deletes) == Usage(writes, deletes) + |k| + |v|
  {
    var m := map j | j in writes :: |j| + |writes[j]|;
    var w := writes[k := v];
    SumPut(m, k, |k| + |v|);
    assert (map j | j in w :: |j| + |w[j]|) == m[k := |k| + |v|];
  }

  lemma UsageUnwrite(writes: Data, deletes: set<Bytes>, k: Bytes)
    requires k in writes
    ensures Usage(writes - {k}, deletes) == Usage(writes, deletes) - |k| - |writes[k]|
  {
    UsageWrite(writes - {k}, deletes, k, writes[k]);
    assert (writes - {k})[k := writes[k]] == writes;
  }

  lemma UsageDelete(writes: Data, deletes: set<Bytes>, k: Bytes)
    requires k !in deletes
    ensures Usage(writes, deletes + {k}) == Usage(writes, deletes) + |k|
  {
    var m := map j | j in deletes :: |j|;
    SumPut(m, k, |k|);
    assert (map j | j in deletes + {k} :: |j|) == m[k := |k|];
  }

  lemma UsageUndelete(writes: Data, deletes: set<Bytes>, k: Bytes)
    requires k in deletes
    ensures Usage(writes, deletes - {k}) == Usage(writes, deletes) - |k|
  {
    UsageDelete(writes, deletes - {k}, k);
    assert deletes - {k} + {k} == deletes;
  }

  /** The accounting of one write, whatever was pending for its key. */
  lemma UsageOfWrite(writes: Data, deletes: set<Bytes>, k: Bytes, v: Bytes)
    ensures Usage(writes[k := v], deletes - {k}) == Usage(writes, deletes)
      - (if k in deletes then |k| else 0) - (if k in writes then |k| + |writes[k]| else 0) + (|k| + |v|)
  {
    hide Usage;
    if k in deletes {
      UsageUndelete(writes, deletes, k);
    } else {
      assert deletes - {k} == deletes;
    }
    if k in writes {
      UsageUnwrite(writes, deletes - {k}, k);
    } else {
      assert writes - {k} == writes;
    }
    UsageWrite(writes - {k}, deletes - {k}, k, v);
    assert (writes - {k})[k := v] == writes[k := v];
  }

  lemma UsageOfErase(writes: Data, deletes: set<Bytes>, k: Bytes)
    ensures Usage(writes - {k}, deletes + {k}) == Usage(writes, deletes)
      - (if k in writes then |k| + |writes[k]| else 0) + (if k in deletes then 0 else |k|)
  {
    hide Usage;
    if k in writes {
      UsageUnwrite(writes, deletes, k);
    } else {
      assert writes - {k} == writes;
    }
    if k !in deletes {
      UsageDelete(writes - {k}, deletes, k);
    } else {
      assert deletes + {k} == deletes;
    }
  }

  lemma OverlaidWrite(data: Data, deletes: set<Bytes>, writes: Data, k: Bytes, v: Bytes)
    ensures Overlaid(data, deletes - {k}, writes[k := v]) == Overlaid(data, deletes, writes)[k := v]
  {
  }

  lemma OverlaidErase(data: Data, deletes: set<Bytes>, writes: Data, k: Bytes)
    ensures Overlaid(data, deletes + {k}, writes - {k}) == Overlaid(data, deletes, writes) - {k}
  {
  }

  lemma NothingPending()
    ensures Usage(map[], {}) == 0
  {
  }

  /** The database (no parent) or a transaction over its parent. */
  class Store {
    const parent: Store?
    ghost const repr: set<Store>
    var stored: Data
    var batch: seq<Change>
    var writes: Data
    var deletes: set<Bytes>
    var memoryUsage: int

    ghost predicate Linked()
      decreases repr
    {
      this in repr && (parent != null ==> parent in repr && parent.repr == repr - {this} && parent.Linked())
    }

    /** The data visible to readers. */
    ghost function View(): Data
      requires Linked()
      reads repr
      decreases repr
    {
      if parent == null then stored else Overlaid(parent.View(), deletes, writes)
    }

    /** The data as it will be once queued changes reach the database. */
    ghost function Target(): Data
      requires Linked()
      reads repr
    {
      if parent == null then Applied(stored, batch) else View()
    }

    ghost predicate Valid()
      reads repr
      decreases repr
    {
      && Linked()
      && (parent != null ==> parent.Valid() && writes.Keys !! deletes && memoryUsage == Usage(writes, deletes))
    }

    /** One level down. */
    lemma Below()
      requires Valid() && parent != null
      ensures Linked() && parent.Valid() && parent.Linked()
      ensures View().Keys == parent.View().Keys - deletes + writes.Keys
    {
      hide Usage;
    }

    lemma Bottom()
      requires Linked() && parent == null
      ensures View() == stored
    {
    }

    constructor Database(stored: Data)
      ensures Valid() && fresh(repr) && parent == null && View() == stored && batch == []
    {
      parent, this.stored, batch, writes, deletes, memoryUsage := null, stored, [], map[], {}, 0;
      repr := {this};
    }

    constructor (parent: Store)
      requires parent.Valid()
      ensures Valid() && this.parent == parent && repr == parent.repr + {this} && fresh(this)
      ensures View() == parent.View() && writes == map[] && deletes == {}
    {
      this.parent, stored, batch, writes, deletes, memoryUsage := parent, map[], [], map[], {}, 0;
      repr := parent.repr + {this};
      new;
      assert repr - {this} == parent.repr;
      NothingPending();
    }

    /** Reads see the parent overlaid by the pending changes. */
    method Read(k: Bytes) returns (found: bool, value: Bytes)
      requires Valid()
      ensures found <==> k in View()
      ensures found ==> value == View()[k]
      decreases repr
    {
      if parent == null {
        found := k in stored;
        value := if found then stored[k] else [];
        return;
      }
      if k in deletes {
        return false, [];
      }
      if k in writes {
        return true, writes[k];
      }
      found, value := parent.Read(k);
    }

    method Exists(k: Bytes) returns (found: bool)
      requires Valid()
      ensures found <==> k in View()
      decreases repr
    {
      if parent == null {
        return k in stored;
      }
      if k in deletes {
        return false;
      }
      if k in writes {
        return true;
      }
      found := parent.Exists(k);
    }

    method Write(k: Bytes, v: Bytes)
      requires Valid()
      modifies this
      ensures Valid() && Target() == old(Target())[k := v] && stored == old(stored)
    {
      hide Usage, Overlaid;
      if parent == null {
        batch := batch + [Put(k, v)];
        return;
      }
      UsageOfWrite(writes, deletes, k, v);
      OverlaidWrite(parent.View(), deletes, writes, k, v);
      if k in deletes {
        memoryUsage := memoryUsage - |k|;
      }
      deletes := deletes - {k};
      if k in writes {
        memoryUsage := memoryUsage - (|k| + |writes[k]|);
      }
      writes := writes[k := v];
      memoryUsage := memoryUsage + (|k| + |v|);
    }

    method Erase(k: Bytes)
      requires Valid()
      modifies this
      ensures Valid() && Target() == old(Target()) - {k} && stored == old(stored)
    {
      hide Usage, Overlaid;
      if parent == null {
        batch := batch + [Delete(k)];
        return;
      }
      UsageOfErase(writes, deletes, k);
      OverlaidErase(parent.View(), deletes, writes, k);
      if k in writes {
        memoryUsage := memoryUsage - (|k| + |writes[k]|);
      }
      writes := writes - {k};
      if k !in deletes {
        memoryUsage := memoryUsage + |k|;
      }
      deletes := deletes + {k};
    }

    /** Forgets everything pending. */
    method Clear()
      requires Valid() && parent != null
      modifies this
      ensures Valid() && writes == map[] && deletes == {} && memoryUsage == 0
      ensures View() == old(parent.View()) == parent.View()
    {
      hide Usage;
      writes, deletes, memoryUsage := map[], {}, 0;
      NothingPending();
      assert Overlaid(parent.View(), deletes, writes) == parent.View();
    }

    /** Moves the pending changes to the parent: what the parent is going to hold is what this transaction showed,
        and over another transaction nothing visible changes here. */
    method Commit()
      requires Valid() && parent != null
      modifies this, parent
      ensures Valid() && writes == map[] && deletes == {} && memoryUsage == 0
      ensures parent.Target() == Overlaid(old(parent.Target()), old(deletes), old(writes))
      ensures parent.parent != null ==> View() == old(View()) == parent.View()
      ensures parent.stored == old(parent.stored)
      ensures parent.parent == null && old(parent.batch) == [] ==> parent.Target() == old(View())
    {
      hide Usage;
      ghost var t, d, w := parent.Target(), deletes, writes;
      ghost var shown := View();
      CommitDeletes();
      CommitWrites(t - d);
      Clear();
      assert parent.Target() == Overlaid(t, d, w);
    }

    method CommitDeletes()
      requires Valid() && parent != null
      modifies parent
      ensures Valid() && parent.Target() == old(parent.Target()) - deletes && parent.stored == old(parent.stored)
    {
      hide Usage, Overlaid;
      ghost var t := parent.Target();
      var rest := deletes;
      while rest != {}
        invariant Valid() && rest <= deletes && parent.stored == old(parent.stored)
        invariant parent.Target() == t - (deletes - rest)
        decreases rest
      {
        var k := LeastKey(rest);
        parent.Erase(k);
        assert t - (deletes - rest) - {k} == t - (deletes - (rest - {k}));
        rest := rest - {k};
      }
      assert deletes - rest == deletes;
    }

    method CommitWrites(ghost t: Data)
      requires Valid() && parent != null && parent.Target() == t
      modifies parent
      ensures Valid() && parent.Target() == t + writes && parent.stored == old(parent.stored)
    {
      hide Usage, Overlaid;
      var rest := writes.Keys;
      assert t + (writes - rest) == t;
      while rest != {}
        invariant Valid() && rest <= writes.Keys && parent.stored == old(parent.stored)
        invariant parent.Target() == t + (writes - rest)
        decreases rest
      {
        var k := LeastKey(rest);
        parent.Write(k, writes[k]);
        assert (t + (writes - rest))[k := writes[k]] == t + (writes - (rest - {k}));
        rest := rest - {k};
      }
      assert writes - rest == writes;
    }

    /** The queued changes reach the database. */
    method WriteBatch()
      requires Valid() && parent == null
      modifies this
      ensures Valid() && batch == [] && stored == View() == old(Target())
    {
      stored := ApplyAll(stored, batch);
      batch := [];
    }
  }

  method ApplyAll(data: Data, batch: seq<Change>) returns (r: Data)
    ensures r == Applied(data, batch)
  {
    r := data;
    assert batch[..0] == [];
    for i := 0 to |batch|
      invariant r == Applied(data, batch[..i])
    {
      assert batch[..i + 1][..i] == batch[..i];
      match batch[i]
      case Put(k, v) => r := r[k := v];
      case Delete(k) => r := r - {k};
    }
    assert batch[..|batch|] == batch;
  }
}
