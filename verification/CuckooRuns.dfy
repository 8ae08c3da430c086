/** Whole runs of the cuckoo cache: what is in it is wanted, and what is recent and wanted is in it. */
module CuckooRuns {
  import opened Collections
  import opened CuckooCache

  datatype Call = CallInsert(e: Element) | CallContains(e: Element, erase: bool)

  /** One call, with the elements it lost. */
  ghost predicate Step(hash: (nat, Element) -> nat, epochSize: nat, s: State, call: Call, r: State,
      lost: set<Element>) {
    match call
    case CallInsert(e) =>
      var c := AfterCheck(epochSize, s);
      r.counter == c.counter && Inserted(hash, c.table, e, r.table, lost)
    case CallContains(e, erase) =>
      r.counter == s.counter && LookedUp(hash, s.table, e, erase, r.table) && lost == {}
  }

  /** The states of a run from an empty cache, and the elements that each call lost. */
  ghost predicate Trace(hash: (nat, Element) -> nat, epochSize: nat, calls: seq<Call>,
      states: seq<State>, losses: seq<set<Element>>) {
    && |states| == |calls| + 1 && |losses| == |calls|
    && Live(states[0].table) == multiset{}
    && (forall n :: 0 <= n < |states| ==> Placed(hash, states[n].table))
    && (forall n :: 0 <= n < |calls| ==> Step(hash, epochSize, states[n], calls[n], states[n + 1], losses[n]))
  }

  predicate IsLive(t: Table, e: Element) { (e, true) in Live(t) || (e, false) in Live(t) }

  /** The number of insertions. */
  function Inserts(calls: seq<Call>): nat {
    if calls == [] then 0
    else Inserts(calls[..|calls| - 1]) + if calls[|calls| - 1].CallInsert? then 1 else 0
  }

  /** The element was inserted, and not erased after its last insertion. */
  predicate Wanted(calls: seq<Call>, e: Element) {
    calls != [] && (
      var before, call := calls[..|calls| - 1], calls[|calls| - 1];
      call == CallInsert(e) || (call != CallContains(e, true) && Wanted(before, e)))
  }

  // ----- one step -----

  /** Aging makes recent elements old and drops the old ones. */
  lemma AgedLive(t: Table, p: (Element, bool))
    ensures p in Live(Aged(t)) <==> !p.1 && (p.0, true) in Live(t)
  {
    if p in Live(Aged(t)) {
      var i := LiveSlot(Aged(t), p);
      SlotLive(t, i);
    }
    if (p.0, true) in Live(t) {
      var i := LiveSlot(t, (p.0, true));
      SlotLive(Aged(t), i);
    }
  }

  lemma CheckGains(epochSize: nat, s: State, e: Element)
    requires IsLive(AfterCheck(epochSize, s).table, e)
    ensures IsLive(s.table, e)
  {
    hide Live, Aged, EpochCount;
    AgedLive(s.table, (e, true));
    AgedLive(s.table, (e, false));
  }

  /** Inserting e brings in no other element. */
  lemma InsertGains(hash: (nat, Element) -> nat, t0: Table, e: Element, t: Table, lost: set<Element>,
      p: (Element, bool))
    requires Inserted(hash, t0, e, t, lost) && p in Live(t)
    ensures p == (e, true) || p in Live(t0)
  {
    hide Live, Places;
    if Present(hash, t0, e) {
      var locs := Places(hash, |t0|, e);
      LiveUpdate(t0, locs[Holder(locs, t0, e)], Slot(e, false, true));
      assert p in Live(t0) + multiset{(e, true)};
    } else {
      assert p in Live(t0) + multiset{(e, true)};
    }
  }

  /** Inserting e keeps every live element that is not lost, and e. */
  lemma InsertKeeps(hash: (nat, Element) -> nat, t0: Table, e: Element, t: Table, lost: set<Element>,
      p: (Element, bool))
    requires Inserted(hash, t0, e, t, lost) && p.0 !in lost && (p == (e, true) || (p.0 != e && p in Live(t0)))
    ensures p in Live(t)
  {
    hide Live, Places;
    if Present(hash, t0, e) {
      var locs := Places(hash, |t0|, e);
      var loc := locs[Holder(locs, t0, e)];
      LiveUpdate(t0, loc, Slot(e, false, true));
      assert p !in Content(t0[loc]) || p == (e, true);
      if p == (e, true) {
        SlotLive(t, loc);
      } else {
        assert p in Live(t) + Content(t0[loc]);
      }
    } else {
      assert p in Live(t0) + multiset{(e, true)};
    }
  }

  lemma LiveOnce(hash: (nat, Element) -> nat, t: Table, p: (Element, bool), q: (Element, bool))
    requires Placed(hash, t) && p.0 == q.0 && p in Live(t) && q in Live(t)
    ensures p == q && Live(t)[p] == 1
  {
    hide Live, Places;
    var i := LiveSlot(t, p);
    var j := LiveSlot(t, q);
    assert Leads(hash, t, i) && Leads(hash, t, j);
    forall k | 0 <= k < |t| && !t[k].dead && k != i ensures t[k].elem != p.0 {
      assert Leads(hash, t, k);
    }
    CountOne(t, i, p);
  }

  lemma {:induction false} CountOne(t: Table, i: nat, p: (Element, bool))
    requires i < |t| && t[i] == Slot(p.0, false, p.1)
    requires forall k :: 0 <= k < |t| && !t[k].dead && k != i ==> t[k].elem != p.0
    ensures Live(t)[p] == 1
  {
    if i == 0 {
      forall k | 0 <= k < |t[1..]| && !t[1..][k].dead ensures t[1..][k].elem != p.0 {
        assert t[1..][k] == t[k + 1];
      }
      if p in Live(t[1..]) {
        var k := LiveSlot(t[1..], p);
      }
    } else {
      CountOne(t[1..], i - 1, p);
    }
  }

  lemma TwoEpochs(p: (Element, bool))
    ensures p == (p.0, true) || p == (p.0, false)
  {
    match p
    case (e, true) =>
    case (e, false) =>
  }

  /** A new element and the live ones are all different. */
  lemma GainedOnce(hash: (nat, Element) -> nat, t: Table, e: Element, p: (Element, bool), q: (Element, bool))
    requires Placed(hash, t) && !Present(hash, t, e) && p.0 == q.0
    requires p in Live(t) + multiset{(e, true)} && q in Live(t) + multiset{(e, true)}
    ensures p == q && (Live(t) + multiset{(e, true)})[p] == 1
  {
    hide Live, Present;
    NotPresent(hash, t, e);
    if p.0 != e {
      LiveOnce(hash, t, p, q);
    } else {
      TwoEpochs(p);
      TwoEpochs(q);
    }
  }

  /** A lost element is not there any more. */
  lemma LostGone(hash: (nat, Element) -> nat, t0: Table, e: Element, t: Table, x: Element, lost: set<Element>)
    requires Inserted(hash, t0, e, t, lost) && Placed(hash, t0) && x in lost
    ensures !IsLive(t, x)
  {
    hide Live, Places;
    var y: (Element, bool) :| lost == {y.0} && Crowded(hash, t0, e) && Lacks(t0, e, t, y);
    forall f | (x, f) in Live(t) ensures false {
      assert y in Live(t0) + multiset{(e, true)} && (x, f) in Live(t0) + multiset{(e, true)};
      GainedOnce(hash, t0, e, (x, f), y);
    }
  }

  lemma NotPresent(hash: (nat, Element) -> nat, t: Table, e: Element)
    requires Placed(hash, t) && !Present(hash, t, e)
    ensures !IsLive(t, e)
  {
    if IsLive(t, e) {
      LivePresent(hash, t, (e, (e, true) in Live(t)));
    }
  }

  /** Looking for e keeps everything but, if it erases, e. */
  lemma LookKeeps(hash: (nat, Element) -> nat, t: Table, e: Element, erase: bool, r: Table, p: (Element, bool))
    requires LookedUp(hash, t, e, erase, r)
    ensures p in Live(r) ==> p in Live(t)
    ensures p in Live(t) && !(erase && p.0 == e) ==> p in Live(r)
  {
    hide Live, Places;
    if erase && Present(hash, t, e) {
      var locs := Places(hash, |t|, e);
      var loc := locs[Holder(locs, t, e)];
      LiveUpdate(t, loc, t[loc].(dead := true));
      assert Live(t) == Live(r) + Content(t[loc]);
    }
  }

  lemma LeaderErased(hash: (nat, Element) -> nat, t: Table, e: Element, r: Table, j: nat)
    requires Placed(hash, t) && Erased(hash, t, e, r) && j < |r| && r[j].elem == e
    ensures r[j].dead
  {
    hide Places;
    assert !t[j].dead ==> Leads(hash, t, j);
  }

  /** An erased element is not live any more. */
  lemma EraseGone(hash: (nat, Element) -> nat, t: Table, e: Element, r: Table)
    requires Placed(hash, t) && LookedUp(hash, t, e, true, r)
    ensures !IsLive(r, e)
  {
    hide Live, Places;
    if Present(hash, t, e) {
      forall f | (e, f) in Live(r) ensures false {
        var j := LiveSlot(r, (e, f));
        LeaderErased(hash, t, e, r, j);
      }
    } else {
      NotPresent(hash, t, e);
    }
  }

  lemma StepGains(hash: (nat, Element) -> nat, epochSize: nat, s: State, call: Call, r: State,
      lost: set<Element>, e: Element)
    requires Step(hash, epochSize, s, call, r, lost) && Placed(hash, s.table) && IsLive(r.table, e)
    ensures call == CallInsert(e) || IsLive(s.table, e)
    ensures call != CallContains(e, true)
  {
    hide Live, Inserted, LookedUp, AfterCheck, Placed;
    var p := (e, (e, true) in Live(r.table));
    match call
    case CallInsert(x) =>
      var c := AfterCheck(epochSize, s);
      InsertGains(hash, c.table, x, r.table, lost, p);
      if IsLive(c.table, e) {
        CheckGains(epochSize, s, e);
      }
    case CallContains(x, erase) =>
      LookKeeps(hash, s.table, x, erase, r.table, p);
      if x == e && erase {
        EraseGone(hash, s.table, e, r.table);
      }
  }

  // ----- whole runs -----

  lemma NextCall(calls: seq<Call>, i: nat, n: nat, e: Element)
    requires i <= n < |calls|
    ensures Inserts(calls[i..n + 1]) == Inserts(calls[i..n]) + if calls[n].CallInsert? then 1 else 0
    ensures Wanted(calls[..n + 1], e) <==>
      calls[n] == CallInsert(e) || (calls[n] != CallContains(e, true) && Wanted(calls[..n], e))
  {
    assert calls[i..n + 1][..n - i] == calls[i..n];
    assert calls[..n + 1][..n] == calls[..n];
  }

  /** What is live was inserted, and not erased since. */
  lemma {:induction false} OnlyWanted(hash: (nat, Element) -> nat, epochSize: nat, calls: seq<Call>,
      states: seq<State>, losses: seq<set<Element>>, n: nat, e: Element)
    requires Trace(hash, epochSize, calls, states, losses) && n <= |calls| && IsLive(states[n].table, e)
    ensures CallInsert(e) in calls[..n]
    ensures Wanted(calls[..n], e)
    decreases n
  {
    hide Live, Step, Wanted, Inserts, Placed;
    if n > 0 {
      NextCall(calls, 0, n - 1, e);
      assert Step(hash, epochSize, states[n - 1], calls[n - 1], states[n], losses[n - 1]);
      StepGains(hash, epochSize, states[n - 1], calls[n - 1], states[n], losses[n - 1], e);
      assert calls[..n][n - 1] == calls[n - 1];
      if calls[n - 1] != CallInsert(e) {
        OnlyWanted(hash, epochSize, calls, states, losses, n - 1, e);
        var k :| 0 <= k < n - 1 && calls[k] == CallInsert(e);
        assert calls[..n][k] == CallInsert(e);
      }
    }
  }

  /** Call i inserts e, which until state n is neither erased nor lost. */
  ghost predicate Holds(calls: seq<Call>, losses: seq<set<Element>>, i: nat, n: nat, e: Element) {
    && i < n <= |calls| == |losses| && calls[i] == CallInsert(e)
    && (forall j :: i < j < n ==> calls[j] != CallContains(e, true))
    && (forall j :: i <= j < n ==> e !in losses[j])
  }

  /** How an element ages: it is recent; or it is old, and an epoch has passed but for the counter; or an epoch has
      passed since it became old. */
  ghost predicate Aging(epochSize: nat, s: State, e: Element, inserts: nat) {
    || (e, true) in Live(s.table)
    || ((e, false) in Live(s.table) && inserts + s.counter >= epochSize + 1)
    || inserts >= epochSize + 2
  }

  lemma CheckAging(epochSize: nat, s: State, e: Element, inserts: nat)
    requires Aging(epochSize, s, e, inserts)
    ensures Aging(epochSize, AfterCheck(epochSize, s), e, inserts + 1)
  {
    hide Live, Aged, EpochCount;
    AgedLive(s.table, (e, true));
    AgedLive(s.table, (e, false));
  }

  lemma StepAging(hash: (nat, Element) -> nat, epochSize: nat, s: State, call: Call, r: State, lost: set<Element>,
      e: Element,
      inserts: nat)
    requires Step(hash, epochSize, s, call, r, lost) && e !in lost && call != CallContains(e, true)
    requires Aging(epochSize, s, e, inserts)
    ensures Aging(epochSize, r, e, inserts + if call.CallInsert? then 1 else 0)
  {
    hide Live, AfterCheck, Inserted, LookedUp;
    match call
    case CallInsert(x) =>
      var c := AfterCheck(epochSize, s);
      CheckAging(epochSize, s, e, inserts);
      if x == e || (e, true) in Live(c.table) {
        InsertKeeps(hash, c.table, x, r.table, lost, (e, true));
      } else if (e, false) in Live(c.table) {
        InsertKeeps(hash, c.table, x, r.table, lost, (e, false));
      }
    case CallContains(x, erase) =>
      LookKeeps(hash, s.table, x, erase, r.table, (e, true));
      LookKeeps(hash, s.table, x, erase, r.table, (e, false));
  }

  lemma {:induction false} Ages(hash: (nat, Element) -> nat, epochSize: nat, calls: seq<Call>,
      states: seq<State>, losses: seq<set<Element>>, i: nat, n: nat, e: Element)
    requires Trace(hash, epochSize, calls, states, losses) && Holds(calls, losses, i, n, e)
    ensures Aging(epochSize, states[n], e, Inserts(calls[i + 1..n]))
    decreases n
  {
    hide Live, Step, Inserts, Placed, Aging;
    assert Step(hash, epochSize, states[n - 1], calls[n - 1], states[n], losses[n - 1]);
    if n == i + 1 {
      FreshAging(hash, epochSize, states[i], e, states[n], losses[i]);
      assert calls[i + 1..n] == [];
      assert Inserts([]) == 0 by { NoInserts(); }
    } else {
      Ages(hash, epochSize, calls, states, losses, i, n - 1, e);
      NextCall(calls, i + 1, n - 1, e);
      StepAging(hash, epochSize, states[n - 1], calls[n - 1], states[n], losses[n - 1], e,
        Inserts(calls[i + 1..n - 1]));
    }
  }

  lemma NoInserts()
    ensures Inserts([]) == 0
  {
  }

  lemma FreshAging(hash: (nat, Element) -> nat, epochSize: nat, s: State, e: Element, r: State, lost: set<Element>)
    requires Step(hash, epochSize, s, CallInsert(e), r, lost) && e !in lost
    ensures Aging(epochSize, r, e, 0)
  {
    hide Live, AfterCheck, Inserted;
    InsertKeeps(hash, AfterCheck(epochSize, s).table, e, r.table, lost, (e, true));
  }

  /** An element that is not live comes back only by being inserted. */
  lemma {:induction false} StaysGone(hash: (nat, Element) -> nat, epochSize: nat, calls: seq<Call>,
      states: seq<State>, losses: seq<set<Element>>, j: nat, n: nat, e: Element)
    requires Trace(hash, epochSize, calls, states, losses) && j <= n <= |calls| && !IsLive(states[j].table, e)
    requires forall k :: j <= k < n ==> calls[k] != CallInsert(e)
    ensures !IsLive(states[n].table, e)
    decreases n
  {
    hide IsLive, Step, Placed;
    if j < n {
      StaysGone(hash, epochSize, calls, states, losses, j, n - 1, e);
      assert Step(hash, epochSize, states[n - 1], calls[n - 1], states[n], losses[n - 1]);
      if IsLive(states[n].table, e) {
        StepGains(hash, epochSize, states[n - 1], calls[n - 1], states[n], losses[n - 1], e);
      }
    }
  }

  lemma LossGone(hash: (nat, Element) -> nat, epochSize: nat, s: State, call: Call, r: State,
      lost: set<Element>, e: Element)
    requires Step(hash, epochSize, s, call, r, lost) && Placed(hash, s.table) && e in lost
    ensures !IsLive(r.table, e)
  {
    hide Live, Aged, EpochCount, Inserted, Placed;
    AgedPlaced(hash, s.table);
    LostGone(hash, AfterCheck(epochSize, s).table, call.e, r.table, e, lost);
  }

  /** Call i is the last one that inserts or erases e, and at most an epoch of insertions follow it. */
  ghost predicate LastInserted(epochSize: nat, calls: seq<Call>, i: nat, e: Element) {
    && i < |calls| && calls[i] == CallInsert(e)
    && (forall j :: i < j < |calls| ==> calls[j] != CallInsert(e) && calls[j] != CallContains(e, true))
    && Inserts(calls[i + 1..]) <= epochSize + 1
  }

  /** No call from i on lost e. */
  ghost predicate Unlost(losses: seq<set<Element>>, i: nat, e: Element) {
    forall j :: i <= j < |losses| ==> e !in losses[j]
  }

  /** A recent element is live exactly if no insertion since has lost it. */
  lemma RecentKept(hash: (nat, Element) -> nat, epochSize: nat, calls: seq<Call>, states: seq<State>,
      losses: seq<set<Element>>, i: nat, e: Element)
    requires Trace(hash, epochSize, calls, states, losses) && LastInserted(epochSize, calls, i, e)
    ensures IsLive(states[|calls|].table, e) <==> Unlost(losses, i, e)
  {
    hide Live, Step, Inserts, Placed;
    var n := |calls|;
    if Unlost(losses, i, e) {
      Ages(hash, epochSize, calls, states, losses, i, n, e);
      assert calls[i + 1..n] == calls[i + 1..];
    } else {
      var j :| i <= j < n && e in losses[j];
      assert Step(hash, epochSize, states[j], calls[j], states[j + 1], losses[j]);
      LossGone(hash, epochSize, states[j], calls[j], states[j + 1], losses[j], e);
      StaysGone(hash, epochSize, calls, states, losses, j + 1, n, e);
    }
  }

  // ----- when the epochs age -----

  /** If an element grows old or dies without being inserted again, erased or lost, the insertion found the counter run
      out and an epoch's worth of recent elements. */
  lemma AgesOnlyWhenFull(hash: (nat, Element) -> nat, epochSize: nat, s: State, call: Call, r: State,
                         lost: set<Element>, p: (Element, bool))
    requires Step(hash, epochSize, s, call, r, lost) && Placed(hash, s.table)
    requires p in Live(s.table) && p !in Live(r.table)
    requires p.0 !in lost && call != CallInsert(p.0) && call != CallContains(p.0, true)
    ensures s.counter == 0 && |Recent(s.table)| >= epochSize
  {
    hide Live, Inserted, LookedUp, Placed, Recent, EpochCount, Aged;
    RecentCount(hash, s.table);
    match call
    case CallInsert(x) =>
      var c := AfterCheck(epochSize, s);
      if p in Live(c.table) {
        InsertKeeps(hash, c.table, x, r.table, lost, p);
      }
    case CallContains(x, erase) =>
      LookKeeps(hash, s.table, x, erase, r.table, p);
  }

  /** The elements that some calls insert. */
  function Insertions(calls: seq<Call>): set<Element> {
    set c | c in calls && c.CallInsert? :: c.e
  }

  /** The recent elements are among those inserted. */
  lemma RecentInserted(hash: (nat, Element) -> nat, epochSize: nat, calls: seq<Call>, states: seq<State>,
      losses: seq<set<Element>>, n: nat)
    requires Trace(hash, epochSize, calls, states, losses) && n <= |calls|
    ensures |Recent(states[n].table)| <= |Insertions(calls[..n])|
  {
    hide Live, Step, Placed;
    var t := states[n].table;
    forall e | e in Recent(t) ensures e in Insertions(calls[..n]) {
      var i :| 0 <= i < |t| && t[i].recent && !t[i].dead && t[i].elem == e;
      SlotLive(t, i);
      OnlyWanted(hash, epochSize, calls, states, losses, n, e);
      assert CallInsert(e) in calls[..n];
    }
    SubsetSize(Recent(t), Insertions(calls[..n]));
  }

  /** As long as fewer different elements than make an epoch have been inserted, nothing ages: every element that was
      inserted and neither erased nor lost since is live and recent. */
  lemma {:induction false} FewNeverAge(hash: (nat, Element) -> nat, epochSize: nat, calls: seq<Call>,
                                          states: seq<State>, losses: seq<set<Element>>, i: nat, n: nat, e: Element)
    requires Trace(hash, epochSize, calls, states, losses) && Holds(calls, losses, i, n, e)
    requires |Insertions(calls)| < epochSize
    ensures (e, true) in Live(states[n].table)
    decreases n
  {
    hide Live, Step, Placed, Recent;
    var s, r := states[n - 1], states[n];
    assert Step(hash, epochSize, s, calls[n - 1], r, losses[n - 1]);
    if calls[n - 1] == CallInsert(e) {
      InsertedRecent(hash, epochSize, s, e, r, losses[n - 1]);
    } else {
      FewNeverAge(hash, epochSize, calls, states, losses, i, n - 1, e);
      if (e, true) !in Live(r.table) {
        AgesOnlyWhenFull(hash, epochSize, s, calls[n - 1], r, losses[n - 1], (e, true));
        RecentInserted(hash, epochSize, calls, states, losses, n - 1);
        SubsetSize(Insertions(calls[..n - 1]), Insertions(calls));
      }
    }
  }

  lemma InsertedRecent(hash: (nat, Element) -> nat, epochSize: nat, s: State, e: Element, r: State, lost: set<Element>)
    requires Step(hash, epochSize, s, CallInsert(e), r, lost) && e !in lost
    ensures (e, true) in Live(r.table)
  {
    hide Live, AfterCheck, Inserted;
    InsertKeeps(hash, AfterCheck(epochSize, s).table, e, r.table, lost, (e, true));
  }

  lemma TraceStart(hash: (nat, Element) -> nat, epochSize: nat, s: State)
    requires Placed(hash, s.table) && Live(s.table) == multiset{}
    ensures Trace(hash, epochSize, [], [s], [])
  {
  }

  lemma TraceNext(hash: (nat, Element) -> nat, epochSize: nat, calls: seq<Call>, states: seq<State>,
      losses: seq<set<Element>>, call: Call, s: State, lost: set<Element>)
    requires Trace(hash, epochSize, calls, states, losses) && Placed(hash, s.table)
    requires Step(hash, epochSize, states[|calls|], call, s, lost)
    ensures Trace(hash, epochSize, calls + [call], states + [s], losses + [lost])
  {
    hide Step, Placed, Live;
    var cs, ss, ls := calls + [call], states + [s], losses + [lost];
    forall n | 0 <= n < |cs| ensures Step(hash, epochSize, ss[n], cs[n], ss[n + 1], ls[n]) {
      if n < |calls| {
        assert Step(hash, epochSize, states[n], calls[n], states[n + 1], losses[n]);
      }
    }
  }

  /** What is live is found, was inserted and not erased since. */
  ghost predicate AllWanted(hash: (nat, Element) -> nat, t: Table, calls: seq<Call>) {
    && |t| > 0
    && forall e :: IsLive(t, e) ==>
         Present(hash, t, e) && CallInsert(e) in calls && (Wanted(calls, e))
  }

  /** Of the elements inserted within the last epoch exactly those are missing that some insertion lost. */
  ghost predicate AllRecentKept(epochSize: nat, t: Table, calls: seq<Call>, losses: seq<set<Element>>) {
    forall i: nat, e :: LastInserted(epochSize, calls, i, e) ==> (IsLive(t, e) <==> Unlost(losses, i, e))
  }

  /** What Contains must have answered. */
  ghost predicate Answered(hash: (nat, Element) -> nat, s: State, call: Call, found: bool) {
    call.CallContains? ==> |s.table| > 0 && found == Present(hash, s.table, call.e)
  }

  /** Any calls on a new cache. Each call does its step and answers right; the current epoch never exceeds its limit;
      what is live is found, was inserted and not erased since; and of the elements inserted within the last epoch
      exactly those are missing that some insertion lost, which is at most one each. */
  method Run(hash: (nat, Element) -> nat, newSize: nat, depthLimit: nat, filler: Element, calls: seq<Call>)
      returns (c: Cache, found: seq<bool>, ghost states: seq<State>, ghost losses: seq<set<Element>>)
    requires newSize < WORD && depthLimit >= 1
    ensures Trace(hash, c.epochSize, calls, states, losses) && |states| == |calls| + 1 && states[|calls|] == c.View()
    ensures |found| == |calls| && forall n :: 0 <= n < |calls| ==> Answered(hash, states[n], calls[n], found[n])
    ensures forall n :: 0 <= n <= |calls| ==> EpochCount(states[n].table) <= EpochLimit(c.epochSize)
    ensures AllWanted(hash, c.table, calls)
    ensures AllRecentKept(c.epochSize, c.table, calls, losses)
  {
    hide Live, EpochCount, Places, Placed, AfterCheck, Inserted, LookedUp, AllWanted, AllRecentKept, Trace;
    c := new Cache(hash, newSize, depthLimit, filler);
    states, losses, found := [c.View()], [], [];
    TraceStart(hash, c.epochSize, c.View());
    assert calls[..0] == [];
    for n := 0 to |calls|
      invariant fresh(c) && c.hash == hash && c.Valid()
      invariant |states| == n + 1 && |losses| == n == |found| && states[n] == c.View()
      invariant Trace(hash, c.epochSize, calls[..n], states, losses)
      invariant forall k :: 0 <= k < n ==> Answered(hash, states[k], calls[k], found[k])
      invariant forall k :: 0 <= k <= n ==> EpochCount(states[k].table) <= EpochLimit(c.epochSize)
    {
      ghost var lost: set<Element> := {};
      var answer := false;
      match calls[n] {
        case CallInsert(e) =>
          lost := c.Insert(e);
        case CallContains(e, erase) =>
          answer := c.Contains(e, erase);
      }
      assert Answered(hash, states[n], calls[n], answer) by {
        PlacedTable(hash, states[n].table);
      }
      TraceNext(hash, c.epochSize, calls[..n], states, losses, calls[n], c.View(), lost);
      assert calls[..n + 1] == calls[..n] + [calls[n]];
      states, losses, found := states + [c.View()], losses + [lost], found + [answer];
    }
    assert calls[..|calls|] == calls;
    AllAreWanted(hash, c.epochSize, calls, states, losses);
    RecentAreKept(hash, c.epochSize, calls, states, losses);
  }

  lemma AllAreWanted(hash: (nat, Element) -> nat, epochSize: nat, calls: seq<Call>, states: seq<State>,
      losses: seq<set<Element>>)
    requires Trace(hash, epochSize, calls, states, losses)
    ensures AllWanted(hash, states[|calls|].table, calls)
  {
    hide IsLive, Places, Step, Wanted, Present;
    var t := states[|calls|].table;
    assert calls[..|calls|] == calls;
    assert Placed(hash, t);
    forall e | IsLive(t, e)
      ensures Present(hash, t, e) && CallInsert(e) in calls && (Wanted(calls, e))
    {
      if !Present(hash, t, e) {
        NotPresent(hash, t, e);
      }
      OnlyWanted(hash, epochSize, calls, states, losses, |calls|, e);
    }
  }

  lemma RecentAreKept(hash: (nat, Element) -> nat, epochSize: nat, calls: seq<Call>, states: seq<State>,
      losses: seq<set<Element>>)
    requires Trace(hash, epochSize, calls, states, losses)
    ensures AllRecentKept(epochSize, states[|calls|].table, calls, losses)
  {
    hide IsLive, Step, Placed, LastInserted, Unlost;
    forall i: nat, e | LastInserted(epochSize, calls, i, e)
      ensures IsLive(states[|calls|].table, e) <==> Unlost(losses, i, e)
    {
      RecentKept(hash, epochSize, calls, states, losses, i, e);
    }
  }
}
