/** Optional values, and small definitions and facts that the other modules share. */
module Collections {

  datatype Option<+T> = None | Some(value: T)

  function Min(a: nat, b: nat): nat { if a < b then a else b }

  function Max(a: nat, b: nat): nat { if a < b then b else a }

  predicate Distinct<T(==)>(s: seq<T>) { forall i, j :: 0 <= i < j < |s| ==> s[i] != s[j] }

  /** Some element of a non-empty set. */
  ghost function Pick<T>(s: set<T>): (e: T)
    requires s != {}
    ensures e in s
  {
    var e :| e in s;
    e
  }

  lemma {:induction false} LeastExists(ids: set<int>)
    requires ids != {}
    ensures exists m :: m in ids && forall x :: x in ids ==> m <= x
  {
    var e := Pick(ids);
    var rest := ids - {e};
    assert ids == rest + {e};
    if rest == {} {
      assert e in ids && forall x :: x in ids ==> e <= x;
    } else {
      LeastExists(rest);
      var m :| m in rest && forall x :: x in rest ==> m <= x;
      var k := if m <= e then m else e;
      assert k in ids && forall x :: x in ids ==> k <= x;
    }
  }

  /** The smallest element, where iteration over an ordered set begins. */
  function Least(ids: set<int>): (m: int)
    requires ids != {}
    ensures m in ids && forall x :: x in ids ==> m <= x
  {
    LeastExists(ids);
    var m :| m in ids && forall x :: x in ids ==> m <= x;
    m
  }

  /** The integers from lo up to but excluding hi. */
  ghost function Span(lo: int, hi: int): (r: set<int>)
    requires lo <= hi
    ensures |r| == hi - lo && forall k :: k in r <==> lo <= k < hi
    decreases hi - lo
  {
    if lo == hi then {} else Span(lo, hi - 1) + {hi - 1}
  }

  /** Distinct keys with distinct values below n: there are at most n of them. */
  lemma {:induction false} Pigeonhole(m: map<int, int>, n: nat)
    requires forall x :: x in m ==> 0 <= m[x] < n
    requires forall x, y :: x in m && y in m && x != y ==> m[x] != m[y]
    ensures |m| <= n
  {
    var image := MapImage(m);
    assert image <= Span(0, n);
    SubsetSize(image, Span(0, n));
  }

  /** The values of an injective map, as many as its keys. */
  ghost function MapImage(m: map<int, int>): (r: set<int>)
    requires forall x, y :: x in m && y in m && x != y ==> m[x] != m[y]
    ensures |r| == |m| && forall v :: v in r ==> exists x :: x in m && m[x] == v
    decreases |m|
  {
    if m.Keys == {} then {} else
    var k := Pick(m.Keys);
    var m' := m - {k};
    assert m.Keys == m'.Keys + {k};
    MapImage(m') + {m[k]}
  }

  lemma SubsetSize(a: set<int>, b: set<int>)
    requires a <= b
    ensures |a| <= |b|
  {
    assert b == a + (b - a);
  }

  // ----- sets listed in increasing order -----

  predicate Increasing(r: seq<int>) {
    forall i, j :: 0 <= i < j < |r| ==> r[i] < r[j]
  }

  ghost predicate Lists(r: seq<int>, ids: set<int>) {
    && |r| == |ids|
    && (forall i :: 0 <= i < |r| ==> r[i] in ids)
    && (forall id :: id in ids ==> id in r)
  }

  /** The elements of a set in increasing order, the order of iteration over an ordered container. */
  function Sorted(ids: set<int>): (r: seq<int>)
    ensures Lists(r, ids) && Increasing(r)
    decreases |ids|
  {
    if ids == {} then [] else
    var m := Least(ids);
    var t := Sorted(ids - {m});
    SortedCons(ids, m, t);
    [m] + t
  }

  lemma ListsCons(ids: set<int>, m: int, t: seq<int>)
    requires m in ids && Lists(t, ids - {m})
    ensures Lists([m] + t, ids)
  {
    var r := [m] + t;
    assert ids == (ids - {m}) + {m};
    forall i | 0 <= i < |r| ensures r[i] in ids {
      assert i > 0 ==> r[i] == t[i - 1] && t[i - 1] in ids - {m};
    }
    forall id | id in ids ensures id in r {
      if id == m {
        assert r[0] == id;
      } else {
        assert id in ids - {m};
        var k :| 0 <= k < |t| && t[k] == id;
        assert r[k + 1] == id;
      }
    }
  }

  lemma SortedCons(ids: set<int>, m: int, t: seq<int>)
    requires m in ids && (forall x :: x in ids ==> m <= x) && Lists(t, ids - {m}) && Increasing(t)
    ensures Lists([m] + t, ids) && Increasing([m] + t)
  {
    ListsCons(ids, m, t);
    var r := [m] + t;
    forall i, j | 0 <= i < j < |r| ensures r[i] < r[j] {
      var y := t[j - 1];
      assert r[j] == y && y in ids - {m};
    }
  }

  /** An increasing listing of a set is the only one. */
  lemma {:induction false} ListingUnique(r: seq<int>, t: seq<int>, ids: set<int>)
    requires Lists(r, ids) && Lists(t, ids) && Increasing(r) && Increasing(t)
    ensures r == t
    decreases |r|
  {
    if r != [] {
      assert r[0] in ids && t[0] in ids;
      assert r[0] in t && t[0] in r;
      var m := r[0];
      assert t[0] == m;
      ListingTail(r, ids);
      ListingTail(t, ids);
      ListingUnique(r[1..], t[1..], ids - {m});
      assert r == [m] + r[1..] && t == [m] + t[1..];
    }
  }

  lemma ListingTail(r: seq<int>, ids: set<int>)
    requires Lists(r, ids) && Increasing(r) && r != []
    ensures Lists(r[1..], ids - {r[0]}) && Increasing(r[1..])
  {
    var t := r[1..];
    assert r[0] in ids;
    forall i | 0 <= i < |t| ensures t[i] in ids - {r[0]} {
      assert t[i] == r[i + 1];
    }
    forall id | id in ids - {r[0]} ensures id in t {
      var i :| 0 <= i < |r| && r[i] == id;
      assert t[i - 1] == id;
    }
  }

  lemma ListsAppend(r: seq<int>, ids: set<int>, x: int)
    requires Lists(r, ids) && x !in ids
    ensures Lists(r + [x], ids + {x})
  {
    var t := r + [x];
    forall i | 0 <= i < |t| ensures t[i] in ids + {x} {
      assert i < |r| ==> t[i] == r[i] && r[i] in ids;
    }
    forall id | id in ids + {x} ensures id in t {
      if id == x {
        assert t[|r|] == id;
      } else {
        assert id in ids;
        var k :| 0 <= k < |r| && r[k] == id;
        assert t[k] == id;
      }
    }
  }

  lemma SortedAppend(ids: set<int>, x: int)
    requires forall y :: y in ids ==> y < x
    ensures Sorted(ids + {x}) == Sorted(ids) + [x]
  {
    hide Sorted;
    var r := Sorted(ids);
    ListsAppend(r, ids, x);
    var t := r + [x];
    forall i, j | 0 <= i < j < |t| ensures t[i] < t[j] {
      var y := r[i];
      assert t[i] == y && y in ids;
    }
    ListingUnique(Sorted(ids + {x}), t, ids + {x});
  }

  // ----- multisets -----

  /** Two equal sums stay equal when something is put in front of one term of each. */
  lemma Regroup<T>(f: multiset<T>, a: multiset<T>, x: multiset<T>, b: multiset<T>, y: multiset<T>)
    requires a + x == b + y
    ensures (f + a) + x == (f + b) + y
  {
    assert (f + a) + x == f + (a + x);
    assert (f + b) + y == f + (b + y);
  }

  // ----- sums over maps -----

  ghost function Sum<K>(m: map<K, nat>): nat
    decreases |m|
  {
    if m.Keys == {} then 0 else
    var k := Pick(m.Keys);
    Shorter(m, k);
    m[k] + Sum(m - {k})
  }

  lemma Shorter<K, V>(m: map<K, V>, k: K)
    requires k in m
    ensures |m - {k}| < |m|
  {
    assert m.Keys == (m - {k}).Keys + {k};
  }

  /** Any key may be taken out first. */
  lemma {:induction false} SumWithout<K>(m: map<K, nat>, k: K)
    requires k in m
    ensures Sum(m) == m[k] + Sum(m - {k})
    decreases |m|
  {
    var e := Pick(m.Keys);
    if e != k {
      Shorter(m, e);
      SumWithout(m - {e}, k);
      Shorter(m, k);
      SumWithout(m - {k}, e);
      assert m - {e} - {k} == m - {k} - {e};
    }
  }

  lemma SumPut<K>(m: map<K, nat>, k: K, v: nat)
    requires k !in m
    ensures Sum(m[k := v]) == Sum(m) + v
  {
    SumWithout(m[k := v], k);
    assert m[k := v] - {k} == m;
  }
}
