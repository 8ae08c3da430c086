/** How far one group of addresses or announcers can spread over the tables. */
module AddrManSpread {
  import opened AddrManState
  import opened AddrManInvariant
  import opened Collections

  lemma {:induction false} ImageSize(n: nat, f: nat -> int)
    ensures |set i: nat | i < n :: f(i)| <= n
  {
    if n > 0 {
      ImageSize(n - 1, f);
      assert (set i: nat | i < n :: f(i)) == (set i: nat | i < n - 1 :: f(i)) + {f(n - 1)};
    } else {
      assert (set i: nat | i < n :: f(i)) == {};
    }
  }

  /** All addresses of one group share at most eight tried buckets. */
  lemma TriedSpread(p: Placement, addrs: set<Service>, g: Group)
    requires forall a :: a in addrs ==> p.env.group(a.ip, p.asmap) == g
    ensures |set a | a in addrs :: p.TriedBucket(a)| <= 8
  {
    var f: nat -> int := (i: nat) => p.env.triedHash(p.nKey, g, i) % 256;
    ImageSize(8, f);
    var used: set<int> := set a | a in addrs :: p.TriedBucket(a);
    forall b | b in used ensures b in set i: nat | i < 8 :: f(i) {
      var a :| a in addrs && p.TriedBucket(a) == b;
      assert b == f(p.env.addrHash(p.nKey, a) % 8);
    }
    SubsetSize(used, set i: nat | i < 8 :: f(i));
    assert used == set a | a in addrs :: p.TriedBucket(a);
  }

  /** Whatever the announcers of one group announce goes to at most sixty-four new buckets. */
  lemma NewSpread(p: Placement, news: set<(Service, NetAddr)>, g: Group)
    requires forall x :: x in news ==> p.env.group(x.1, p.asmap) == g
    ensures |set x | x in news :: p.NewBucket(x.0, x.1)| <= 64
  {
    var f: nat -> int := (i: nat) => p.env.newHash(p.nKey, g, i) % 1024;
    ImageSize(64, f);
    var used: set<int> := set x | x in news :: p.NewBucket(x.0, x.1);
    forall b | b in used ensures b in set i: nat | i < 64 :: f(i) {
      var x :| x in news && p.NewBucket(x.0, x.1) == b;
      assert b == f(p.env.sourceHash(p.nKey, p.env.group(x.0.ip, p.asmap), g) % 64);
    }
    SubsetSize(used, set i: nat | i < 64 :: f(i));
    assert used == set x | x in news :: p.NewBucket(x.0, x.1);
  }

  function Number(b: int, q: int): int { BUCKET_SIZE * b + q }

  /** The slots of some buckets, numbered through. */
  ghost function Slots(buckets: set<int>): set<int> {
    set b, q | b in buckets && 0 <= q < BUCKET_SIZE :: Number(b, q)
  }

  lemma {:induction false} SlotsSize(buckets: set<int>)
    ensures |Slots(buckets)| <= BUCKET_SIZE * |buckets|
    decreases |buckets|
  {
    if buckets == {} {
      assert Slots(buckets) == {};
    } else {
      var b := Pick(buckets);
      var rest := buckets - {b};
      SlotsSize(rest);
      OneMoreBucket(rest, b);
      assert buckets == rest + {b};
    }
  }

  lemma OneMoreBucket(rest: set<int>, b: int)
    ensures |Slots(rest + {b})| <= |Slots(rest)| + BUCKET_SIZE
  {
    hide Number;
    var f: nat -> int := (q: nat) => Number(b, q);
    var row := set q: nat | q < BUCKET_SIZE :: f(q);
    ImageSize(BUCKET_SIZE, f);
    forall x | x in Slots(rest + {b}) ensures x in Slots(rest) + row {
      var c, q :| c in rest + {b} && 0 <= q < BUCKET_SIZE && x == Number(c, q);
      assert c == b ==> x == f(q);
    }
    SubsetSize(Slots(rest + {b}), Slots(rest) + row);
  }

  function SlotNumber(s: State, id: int): int
    requires id in s.mapInfo
  {
    Number(s.TriedSlot(s.mapInfo[id].addr).0, s.TriedSlot(s.mapInfo[id].addr).1)
  }

  ghost predicate TriedOf(s: State, ids: set<int>, g: Group) {
    forall id :: id in ids ==>
      id in s.mapInfo && s.mapInfo[id].fInTried && s.p.env.group(s.mapInfo[id].addr.ip, s.p.asmap) == g
  }

  lemma DifferentSlots(s: State, x: int, y: int)
    requires TriedOk(s) && x in s.mapInfo && y in s.mapInfo && s.mapInfo[x].fInTried && s.mapInfo[y].fInTried && x != y
    ensures SlotNumber(s, x) != SlotNumber(s, y)
  {
    assert Seated(s, x) && Seated(s, y);
  }

  /** In every sound state, so after every run, one group of addresses has at most 512 of the 16384 tried entries. */
  lemma GroupShare(s: State, ids: set<int>, g: Group)
    requires Inv(s) && TriedOf(s, ids, g)
    ensures |ids| <= 512
  {
    hide LinksOk, EntriesOk, TriedOk, NewOk, CountsOk, PendingOk, SlotNumber, Slots;
    var addrs := set id | id in ids :: s.mapInfo[id].addr;
    var buckets: set<int> := set a | a in addrs :: s.p.TriedBucket(a);
    TriedSpread(s.p, addrs, g);
    var m: map<int, int> := map id | id in ids :: SlotNumber(s, id);
    forall x, y | x in m && y in m && x != y ensures m[x] != m[y] {
      DifferentSlots(s, x, y);
    }
    var used := MapImage(m);
    forall v | v in used ensures v in Slots(buckets) {
      var x :| x in m && m[x] == v;
      assert s.mapInfo[x].addr in addrs;
      SlotIn(s, x, buckets);
    }
    SubsetSize(used, Slots(buckets));
    SlotsSize(buckets);
    assert m.Keys == ids;
    assert |buckets| <= 8;
  }

  lemma SlotIn(s: State, id: int, buckets: set<int>)
    requires id in s.mapInfo && s.p.TriedBucket(s.mapInfo[id].addr) in buckets
    ensures SlotNumber(s, id) in Slots(buckets)
  {
  }
}
