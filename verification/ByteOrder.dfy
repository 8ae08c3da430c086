/** Byte strings in lexicographic order. */
module ByteOrder {
  import opened Collections

  type Bytes = seq<nat>

  /** std::lexicographical_compare. */
  predicate Less(a: Bytes, b: Bytes)
  {
    if b == [] then false
    else if a == [] || a[0] < b[0] then true
    else if b[0] < a[0] then false
    else Less(a[1..], b[1..])
  }

  predicate AtMost(a: Bytes, b: Bytes) { !Less(b, a) }

  lemma {:induction false} Trichotomy(a: Bytes, b: Bytes)
    ensures Less(a, b) || a == b || Less(b, a)
    ensures !(Less(a, b) && (a == b || Less(b, a)))
  {
    if a != [] && b != [] {
      assert a == [a[0]] + a[1..] && b == [b[0]] + b[1..];
      Trichotomy(a[1..], b[1..]);
    }
    if a == b && a != [] {
      Trichotomy(a[1..], b[1..]);
    }
  }

  lemma {:induction false} Transitive(a: Bytes, b: Bytes, c: Bytes)
    requires AtMost(a, b) && AtMost(b, c)
    ensures AtMost(a, c)
    ensures Less(a, b) || Less(b, c) ==> Less(a, c)
  {
    if a != [] && b != [] && c != [] && a[0] == b[0] == c[0] {
      Transitive(a[1..], b[1..], c[1..]);
    }
  }

  lemma {:induction false} LeastKeyExists(s: set<Bytes>)
    requires s != {}
    ensures exists m :: m in s && forall k :: k in s ==> AtMost(m, k)
    decreases s
  {
    var e := Pick(s);
    var rest := s - {e};
    Trichotomy(e, e);
    if rest == {} {
      forall k | k in s
        ensures AtMost(e, k)
      {
        assert k == e || k in rest;
      }
      assert e in s && forall k :: k in s ==> AtMost(e, k);
    } else {
      LeastKeyExists(rest);
      var m :| m in rest && forall k :: k in rest ==> AtMost(m, k);
      var r := if Less(e, m) then e else m;
      forall k | k in s
        ensures AtMost(r, k)
      {
        if k != e {
          assert k in rest;
          Trichotomy(e, m);
          if r == e {
            Transitive(e, m, k);
          }
        }
      }
      assert r in s;
    }
  }

  lemma LeastKeyUnique(s: set<Bytes>)
    ensures forall m, n ::
      m in s && n in s && (forall k :: k in s ==> AtMost(m, k)) && (forall k :: k in s ==> AtMost(n, k)) ==> m == n
  {
    forall m, n | m in s && n in s && (forall k :: k in s ==> AtMost(m, k)) && (forall k :: k in s ==> AtMost(n, k))
      ensures m == n
    {
      Trichotomy(m, n);
    }
  }

  /** The key an ordered map or set lists first. */
  function LeastKey(s: set<Bytes>): (m: Bytes)
    requires s != {}
    ensures m in s && forall k :: k in s ==> AtMost(m, k)
  {
    LeastKeyExists(s);
    LeastKeyUnique(s);
    var m :| m in s && forall k :: k in s ==> AtMost(m, k);
    m
  }

  lemma LeastKeyIs(s: set<Bytes>, m: Bytes)
    requires m in s && forall k :: k in s ==> AtMost(m, k)
    ensures LeastKey(s) == m
  {
    Trichotomy(m, LeastKey(s));
  }
}
