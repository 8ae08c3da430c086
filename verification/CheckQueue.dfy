/** CCheckQueue: one master and any number of workers sharing a queue of checks under one mutex.
    A step is what one thread does between two releases of the mutex. */
module CheckQueue {
  import opened Collections
  import Powers

  type Check = nat
  type Verifier = Check -> bool

  /** Where a thread is: outside the loop, past adding some checks but not yet notifying the workers, before its
      first lock, running a batch (with the status it read when it took it), waiting on its condition variable, or
      woken up but without the lock yet. */
  datatype Phase = Outside | Adding(count: nat) | Entering | Running(batch: seq<Check>, ok: bool) | Asleep | Awake

  /** The queue object, its threads (the master is thread 0) and, as history, the checks added and
      completed since the last return of Wait and the outcome of that return. */
  datatype State = State(queue: seq<Check>, nIdle: int, nTotal: int, fAllOk: bool, nTodo: int,
                         threads: seq<Phase>, added: seq<Check>, done: multiset<Check>, verdict: Option<bool>)

  const MASTER: nat := 0

  // ----- steps -----

  /** Run the checks of a batch until one fails. */
  function Execute(v: Verifier, ok: bool, batch: seq<Check>): bool {
    if batch == [] then ok else Execute(v, if ok then v(batch[0]) else ok, batch[1..])
  }

  /** How many checks to take: a share of the queue, between 1 and the batch size. */
  function BatchSize(nBatchSize: nat, s: State): (n: nat)
    requires s.queue != [] && s.nTotal + s.nIdle >= 0
    ensures 1 <= n <= |s.queue|
  {
    ShareBound(|s.queue|, s.nTotal + s.nIdle + 1);
    Max(1, Min(nBatchSize, |s.queue| / (s.nTotal + s.nIdle + 1)))
  }

  /** A batch is a share of the queue for each thread at work or about to be, but at least one check and, beyond that,
      no more than the batch size. */
  lemma BatchShare(nBatchSize: nat, s: State)
    requires s.queue != [] && s.nTotal + s.nIdle >= 0
    ensures var n := BatchSize(nBatchSize, s);
      && 1 <= n <= |s.queue| && (n == 1 || n <= nBatchSize)
      && (n == 1 || n * (s.nTotal + s.nIdle + 1) <= |s.queue|)
      && (n < nBatchSize ==> |s.queue| < (n + 1) * (s.nTotal + s.nIdle + 1))
  {
    var d: nat := s.nTotal + s.nIdle + 1;
    var n, share := BatchSize(nBatchSize, s), |s.queue| / d;
    Share(|s.queue|, d);
    if n > 1 {
      Powers.Scale(d, n, share);
    }
    if n < nBatchSize {
      Powers.Scale(d, share + 1, n + 1);
    }
  }

  lemma Share(a: nat, d: nat)
    requires d >= 1
    ensures a / d * d <= a < (a / d + 1) * d
  {
  }

  lemma ShareBound(a: nat, d: nat)
    requires d >= 1
    ensures a / d <= a
  {
  }

  /** The last n elements, last first: the order in which a batch is popped off the queue. */
  function Popped(queue: seq<Check>, n: nat): (r: seq<Check>)
    requires n <= |queue|
  {
    seq(n, i requires 0 <= i < n => queue[|queue| - 1 - i])
  }

  function SetThread(s: State, t: nat, p: Phase): State
    requires t < |s.threads|
  {
    s.(threads := s.threads[t := p])
  }

  predicate Enabled(s: State, t: nat) {
    t < |s.threads| && (s.threads[t].Entering? || s.threads[t].Running? || s.threads[t].Awake?)
  }

  /** The first part of a critical section: report the finished batch, or register, or stop being idle. */
  function Report(v: Verifier, s: State, t: nat): State
    requires Enabled(s, t)
  {
    match s.threads[t]
    case Running(batch, ok) =>
      var s1 := s.(fAllOk := s.fAllOk && Execute(v, ok, batch), nTodo := s.nTodo - |batch|,
        done := s.done + multiset(batch));
      if s1.nTodo == 0 && t != MASTER && s1.threads[MASTER] == Asleep then SetThread(s1, MASTER, Awake) else s1
    case Entering => s.(nTotal := s.nTotal + 1)
    case Awake => s.(nIdle := s.nIdle - 1)
    case _ => s
  }

  /** The rest of a critical section: return, wait, or take a batch. */
  function Proceed(nBatchSize: nat, s: State, t: nat): State
    requires t < |s.threads| && s.nTotal + s.nIdle >= 0
  {
    if s.queue == [] then
      if t == MASTER && s.nTodo == 0 then
        SetThread(s, t, Outside).(nTotal := s.nTotal - 1, verdict := Some(s.fAllOk), fAllOk := true, added := [],
          done := multiset{})
      else SetThread(s, t, Asleep).(nIdle := s.nIdle + 1)
    else
      var n := BatchSize(nBatchSize, s);
      SetThread(s, t, Running(Popped(s.queue, n), s.fAllOk)).(queue := s.queue[..|s.queue| - n])
  }

  datatype Label =
    | Lock(t: nat)
    | Spurious(t: nat)
    | AddChecks(checks: seq<Check>)
    | Notify(woken: nat)
    | StartWait

  predicate SleepingWorker(s: State, t: nat) {
    0 < t < |s.threads| && s.threads[t] == Asleep
  }

  function WakeAll(threads: seq<Phase>): (r: seq<Phase>)
    ensures |r| == |threads|
  {
    seq(|threads|, i requires 0 <= i < |threads| => if i > 0 && threads[i] == Asleep then Awake else threads[i])
  }

  /** The threads after the notification that the master still owes. */
  function Notified(s: State, woken: nat): (r: seq<Phase>)
    requires |s.threads| > 0 && s.threads[MASTER].Adding?
    ensures |r| == |s.threads|
  {
    if s.threads[MASTER].count != 1 then WakeAll(s.threads)
    else if SleepingWorker(s, woken) then s.threads[woken := Awake]
    else s.threads
  }

  /** After the notification no worker sleeps, if several checks were added; if one was, one worker fewer sleeps, unless
      none did. */
  lemma NotifyWakes(s: State, woken: nat)
    requires Can(s, Notify(woken))
    ensures var r := Notified(s, woken);
      && (s.threads[MASTER].count != 1 ==> forall t :: 0 < t < |r| ==> r[t] != Asleep)
      && (s.threads[MASTER].count == 1 && (exists t :: SleepingWorker(s, t)) ==>
            SleepingWorker(s, woken) && r == s.threads[woken := Awake])
  {
  }

  /** The steps that can happen. Only the master adds checks, and never while it waits. It notifies the workers after
      releasing the lock, when they may already have taken the checks. Waking one worker wakes a sleeping one if there
      is any. */
  ghost predicate Can(s: State, l: Label) {
    match l
    case Lock(t) => Enabled(s, t)
    case Spurious(t) => t < |s.threads| && s.threads[t] == Asleep
    case AddChecks(checks) => |s.threads| > 0 && s.threads[MASTER] == Outside
    case Notify(woken) =>
      && |s.threads| > 0 && s.threads[MASTER].Adding?
      && (s.threads[MASTER].count == 1 && (exists t :: SleepingWorker(s, t)) ==> SleepingWorker(s, woken))
    case StartWait => |s.threads| > 0 && s.threads[MASTER] == Outside
  }

  // ----- totals over the threads -----

  /** The sum of a weight over the threads. */
  function Sum(threads: seq<Phase>, w: Phase -> nat): nat {
    if threads == [] then 0 else w(threads[0]) + Sum(threads[1..], w)
  }

  lemma {:induction false} SumUpdate(threads: seq<Phase>, t: nat, p: Phase, w: Phase -> nat)
    requires t < |threads|
    ensures Sum(threads[t := p], w) + w(threads[t]) == Sum(threads, w) + w(p)
  {
    if t == 0 {
      assert threads[0 := p][1..] == threads[1..];
    } else {
      assert threads[t := p][1..] == threads[1..][t - 1 := p];
      SumUpdate(threads[1..], t - 1, p, w);
    }
  }

  lemma {:induction false} SumContains(threads: seq<Phase>, t: nat, w: Phase -> nat)
    requires t < |threads|
    ensures w(threads[t]) <= Sum(threads, w)
  {
    if t > 0 {
      SumContains(threads[1..], t - 1, w);
    }
  }

  /** Waking the sleeping workers changes no sum of a weight that treats both kinds of idleness alike. */
  lemma {:induction false} SumAlike(a: seq<Phase>, b: seq<Phase>, w: Phase -> nat)
    requires |a| == |b| && forall i :: 0 <= i < |a| ==> w(a[i]) == w(b[i])
    ensures Sum(a, w) == Sum(b, w)
  {
    if a != [] {
      SumAlike(a[1..], b[1..], w);
    }
  }

  function Batch(p: Phase): seq<Check> { if p.Running? then p.batch else [] }

  /** The checks in the threads' batches. */
  function Work(threads: seq<Phase>): multiset<Check> {
    if threads == [] then multiset{} else multiset(Batch(threads[0])) + Work(threads[1..])
  }

  lemma WorkCons(threads: seq<Phase>)
    requires threads != []
    ensures Work(threads) == multiset(Batch(threads[0])) + Work(threads[1..])
  {
  }

  lemma {:induction false} WorkUpdate(threads: seq<Phase>, t: nat, p: Phase)
    requires t < |threads|
    ensures Work(threads[t := p]) + multiset(Batch(threads[t])) == Work(threads) + multiset(Batch(p))
  {
    hide Work, Batch;
    var rest, first, now := threads[1..], multiset(Batch(threads[0])), threads[t := p];
    WorkCons(threads);
    WorkCons(now);
    if t == 0 {
      assert now[1..] == rest;
    } else {
      assert now[1..] == rest[t - 1 := p];
      WorkUpdate(rest, t - 1, p);
      Regroup(first, Work(rest[t - 1 := p]), multiset(Batch(threads[t])), Work(rest), multiset(Batch(p)));
    }
  }

  /** The threads' work when t, which holds a batch or not, is put into a phase without one. */
  lemma WorkWithout(threads: seq<Phase>, t: nat, p: Phase)
    requires t < |threads| && !p.Running?
    ensures Work(threads) == Work(threads[t := p]) + multiset(Batch(threads[t]))
    ensures |Work(threads)| == |Work(threads[t := p])| + |Batch(threads[t])|
  {
    WorkUpdate(threads, t, p);
  }

  lemma {:induction false} WorkAlike(a: seq<Phase>, b: seq<Phase>)
    requires |a| == |b| && forall i :: 0 <= i < |a| ==> Batch(a[i]) == Batch(b[i])
    ensures Work(a) == Work(b)
  {
    if a != [] {
      WorkAlike(a[1..], b[1..]);
    }
  }

  lemma {:induction false} WorkHolder(threads: seq<Phase>)
    requires Work(threads) != multiset{}
    ensures exists t :: 0 <= t < |threads| && threads[t].Running?
  {
    if !threads[0].Running? {
      WorkHolder(threads[1..]);
      var t :| 0 <= t < |threads[1..]| && threads[1..][t].Running?;
      assert threads[t + 1].Running?;
    }
  }

  lemma {:induction false} WorkContains(threads: seq<Phase>, t: nat)
    requires t < |threads|
    ensures multiset(Batch(threads[t])) <= Work(threads)
  {
    if t > 0 {
      WorkContains(threads[1..], t - 1);
    }
  }

  function Idle(p: Phase): nat { if p.Asleep? || p.Awake? then 1 else 0 }

  function Registered(p: Phase): nat { if p.Asleep? || p.Awake? || p.Running? then 1 else 0 }

  // ----- the invariant -----

  ghost predicate ThreadsOk(s: State) {
    && |s.threads| >= 1
    && (forall t :: 0 < t < |s.threads| ==> s.threads[t] != Outside && !s.threads[t].Adding?)
    && (forall t :: 0 <= t < |s.threads| && s.threads[t].Running? ==> s.threads[t].batch != [])
    && (forall t :: 0 <= t < |s.threads| && s.threads[t].Running? && !s.threads[t].ok ==> !s.fAllOk)
    && (s.threads[MASTER] == Asleep ==> s.queue == [] && s.nTodo > 0)
  }

  ghost predicate CountersOk(s: State) {
    && s.nTodo == |s.queue| + |Work(s.threads)|
    && s.nIdle == Sum(s.threads, Idle)
    && s.nTotal == Sum(s.threads, Registered)
  }

  /** Every check added in this session is queued, in a batch, or done. The status is true only if all
      done checks pass, and false only if some added check fails. */
  ghost predicate SessionOk(v: Verifier, s: State) {
    && multiset(s.added) == multiset(s.queue) + Work(s.threads) + s.done
    && (s.fAllOk ==> forall c :: c in s.done ==> v(c))
    && (!s.fAllOk ==> exists c :: c in s.added && !v(c))
  }

  ghost predicate Inv(v: Verifier, s: State) {
    ThreadsOk(s) && CountersOk(s) && SessionOk(v, s)
  }

  predicate AllPass(v: Verifier, checks: seq<Check>) {
    forall i :: 0 <= i < |checks| ==> v(checks[i])
  }

  function Next(v: Verifier, nBatchSize: nat, s: State, l: Label): State
    requires Inv(v, s) && Can(s, l)
  {
    match l
    case Lock(t) => SumContains(s.threads, t, Idle); Proceed(nBatchSize, Report(v, s, t), t)
    case Spurious(t) => SetThread(s, t, Awake)
    case AddChecks(checks) =>
      if checks == [] then s
      else
        var s1 := s.(queue := s.queue + checks, nTodo := s.nTodo + |checks|, added := s.added + checks);
        SetThread(s1, MASTER, Adding(|checks|))
    case Notify(woken) => SetThread(s.(threads := Notified(s, woken)), MASTER, Outside)
    case StartWait => SetThread(s, MASTER, Entering)
  }

  /** All workers about to enter the loop, the master outside. */
  function Initial(workers: nat): State {
    State([], 0, 0, true, 0, [Outside] + seq(workers, i => Entering), [], multiset{}, None)
  }

  // ----- every step keeps the invariant -----

  lemma {:induction false} ExecuteIs(v: Verifier, ok: bool, batch: seq<Check>)
    ensures Execute(v, ok, batch) <==> ok && AllPass(v, batch)
  {
    if batch != [] {
      ExecuteIs(v, if ok then v(batch[0]) else ok, batch[1..]);
      assert AllPass(v, batch) <==> v(batch[0]) && AllPass(v, batch[1..]) by {
        assert forall i :: 0 <= i < |batch[1..]| ==> batch[1..][i] == batch[i + 1];
        assert forall i :: 0 < i < |batch| ==> batch[i] == batch[1..][i - 1];
      }
    }
  }

  lemma PoppedElements(queue: seq<Check>, n: nat)
    requires n <= |queue|
    ensures multiset(queue) == multiset(queue[..|queue| - n]) + multiset(Popped(queue, n))
    decreases n
  {
    if n == 0 {
      assert queue[..|queue|] == queue;
    } else {
      var k := |queue| - n;
      PoppedElements(queue, n - 1);
      assert queue[..k + 1] == queue[..k] + [queue[k]];
      assert Popped(queue, n) == Popped(queue, n - 1) + [queue[k]];
    }
  }

  /** The invariant in the middle of a critical section of thread t, which is registered, not idle and
      without a batch. */
  ghost predicate Mid(v: Verifier, s: State, t: nat) {
    && t < |s.threads|
    && var u := s.(threads := s.threads[t := Entering]);
    && ThreadsOk(u) && SessionOk(v, u)
    && s.nTodo == |s.queue| + |Work(u.threads)|
    && s.nIdle == Sum(u.threads, Idle)
    && s.nTotal == Sum(u.threads, Registered) + 1
  }

  /** Waking the master changes no total. */
  lemma WakeMaster(threads: seq<Phase>)
    requires |threads| > 0 && threads[MASTER] == Asleep
    ensures Sum(threads[MASTER := Awake], Idle) == Sum(threads, Idle)
    ensures Sum(threads[MASTER := Awake], Registered) == Sum(threads, Registered)
    ensures Work(threads[MASTER := Awake]) == Work(threads)
  {
    hide Sum, Work;
    SumUpdate(threads, MASTER, Awake, Idle);
    SumUpdate(threads, MASTER, Awake, Registered);
    WorkWithout(threads, MASTER, Awake);
  }

  lemma ReportCounters(v: Verifier, s: State, t: nat)
    requires Inv(v, s) && Enabled(s, t)
    ensures var r := Report(v, s, t);
      && t < |r.threads|
      && r.nTodo == |r.queue| + |Work(r.threads[t := Entering])|
      && r.nIdle == Sum(r.threads[t := Entering], Idle)
      && r.nTotal == Sum(r.threads[t := Entering], Registered) + 1
      && Work(s.threads) == Work(r.threads[t := Entering]) + multiset(Batch(s.threads[t]))
  {
    hide SessionOk, Sum, Work, Execute;
    var r := Report(v, s, t);
    var u := s.threads[t := Entering];
    SumUpdate(s.threads, t, Entering, Idle);
    SumUpdate(s.threads, t, Entering, Registered);
    WorkWithout(s.threads, t, Entering);
    if r.threads != s.threads {
      assert r.threads[t := Entering] == u[MASTER := Awake];
      WakeMaster(u);
    }
  }

  lemma BatchAdded(v: Verifier, s: State, t: nat, i: nat)
    requires Inv(v, s) && t < |s.threads| && s.threads[t].Running? && i < |s.threads[t].batch|
    ensures s.threads[t].batch[i] in s.added
  {
    WorkContains(s.threads, t);
    assert s.threads[t].batch[i] in multiset(s.added);
  }

  /** A finished batch moves to the completed checks; the status stays meaningful. */
  lemma StatusAfter(v: Verifier, s: State, t: nat)
    requires Inv(v, s) && t < |s.threads| && s.threads[t].Running?
    ensures var batch := s.threads[t].batch; var ok := s.fAllOk && Execute(v, s.threads[t].ok, batch);
      && (ok ==> forall c :: c in s.done + multiset(batch) ==> v(c))
      && (!ok ==> exists c :: c in s.added && !v(c))
  {
    hide Sum, Work, CountersOk, Execute;
    var batch := s.threads[t].batch;
    ExecuteIs(v, s.threads[t].ok, batch);
    if s.fAllOk && Execute(v, s.threads[t].ok, batch) {
      forall c | c in s.done + multiset(batch) ensures v(c) {
        assert c in s.done || c in batch;
      }
    } else if s.fAllOk {
      var i :| 0 <= i < |batch| && !v(batch[i]);
      BatchAdded(v, s, t, i);
    }
  }

  lemma SessionMoved(v: Verifier, s: State, r: State, b: multiset<Check>)
    requires SessionOk(v, s) && r.added == s.added && r.queue == s.queue && r.done == s.done + b &&
      Work(s.threads) == Work(r.threads) + b
    requires r.fAllOk ==> forall c :: c in s.done + b ==> v(c)
    requires !r.fAllOk ==> exists c :: c in s.added && !v(c)
    ensures SessionOk(v, r)
  {
    hide Work;
    MoveWork(multiset(s.queue), Work(r.threads), b, s.done);
  }

  lemma ReportSession(v: Verifier, s: State, t: nat)
    requires Inv(v, s) && Enabled(s, t)
    ensures t < |Report(v, s, t).threads|
    ensures var r := Report(v, s, t); SessionOk(v, r.(threads := r.threads[t := Entering]))
  {
    hide Sum, Work, ThreadsOk, CountersOk, SessionOk, Execute;
    var r := Report(v, s, t);
    var u := r.(threads := r.threads[t := Entering]);
    ReportCounters(v, s, t);
    if s.threads[t].Running? {
      StatusAfter(v, s, t);
    } else {
      Status(v, s);
      assert s.done + multiset{} == s.done;
    }
    SessionMoved(v, s, u, multiset(Batch(s.threads[t])));
  }

  lemma Status(v: Verifier, s: State)
    requires SessionOk(v, s)
    ensures s.fAllOk ==> forall c :: c in s.done ==> v(c)
    ensures !s.fAllOk ==> exists c :: c in s.added && !v(c)
  {
  }

  lemma MoveWork(q: multiset<Check>, w: multiset<Check>, b: multiset<Check>, d: multiset<Check>)
    ensures q + (w + b) + d == q + w + (d + b)
  {
  }

  lemma ReportThreads(v: Verifier, s: State, t: nat)
    requires Inv(v, s) && Enabled(s, t)
    ensures var r := Report(v, s, t); ThreadsOk(r.(threads := r.threads[t := Entering]))
  {
    hide Sum, Work, SessionOk, Execute;
    ReportCounters(v, s, t);
    var r := Report(v, s, t);
    assert r.threads == s.threads || r.threads == s.threads[MASTER := Awake];
  }

  lemma ReportKeeps(v: Verifier, s: State, t: nat)
    requires Inv(v, s) && Enabled(s, t)
    ensures Mid(v, Report(v, s, t), t)
  {
    hide Inv, ThreadsOk, SessionOk, Report, Sum, Work;
    ReportCounters(v, s, t);
    ReportSession(v, s, t);
    ReportThreads(v, s, t);
  }

  /** No work left: no thread holds a batch. */
  lemma NoneRunning(threads: seq<Phase>)
    requires |Work(threads)| == 0
    requires forall t :: 0 <= t < |threads| && threads[t].Running? ==> threads[t].batch != []
    ensures Work(threads) == multiset{} && forall t :: 0 <= t < |threads| ==> !threads[t].Running?
  {
    hide Work;
    assert Work(threads) == multiset{};
    forall t | 0 <= t < |threads| ensures !threads[t].Running? {
      WorkContains(threads, t);
    }
  }

  /** When all added checks are done, the status says whether they all pass. */
  lemma StatusIsVerdict(v: Verifier, s: State)
    requires SessionOk(v, s) && s.queue == [] && Work(s.threads) == multiset{}
    ensures s.fAllOk <==> AllPass(v, s.added)
  {
    assert multiset(s.added) == s.done;
    forall i | 0 <= i < |s.added| ensures s.added[i] in s.done {
      assert s.added[i] in multiset(s.added);
    }
  }

  lemma ProceedReturns(v: Verifier, nBatchSize: nat, s: State)
    requires Mid(v, s, MASTER) && s.queue == [] && s.nTodo == 0 && s.nTotal + s.nIdle >= 0
    ensures Inv(v, Proceed(nBatchSize, s, MASTER))
    ensures s.fAllOk <==> AllPass(v, s.added)
    ensures forall t :: 0 < t < |s.threads| ==> !s.threads[t].Running?
  {
    hide Sum, Work;
    var u := s.threads[MASTER := Entering];
    NoneRunning(u);
    StatusIsVerdict(v, s.(threads := u));
    assert forall t :: 0 < t < |s.threads| ==> s.threads[t] == u[t];
    assert u[MASTER := Outside] == s.threads[MASTER := Outside];
    SumUpdate(u, MASTER, Outside, Idle);
    SumUpdate(u, MASTER, Outside, Registered);
    WorkWithout(u, MASTER, Outside);
  }

  lemma ProceedSleeps(v: Verifier, nBatchSize: nat, s: State, t: nat)
    requires Mid(v, s, t) && s.queue == [] && !(t == MASTER && s.nTodo == 0) && s.nTotal + s.nIdle >= 0
    ensures Inv(v, Proceed(nBatchSize, s, t))
  {
    hide Sum, Work;
    var u := s.threads[t := Entering];
    assert u[t := Asleep] == s.threads[t := Asleep];
    SumUpdate(u, t, Asleep, Idle);
    SumUpdate(u, t, Asleep, Registered);
    WorkWithout(u, t, Asleep);
  }

  lemma ProceedTakes(v: Verifier, nBatchSize: nat, s: State, t: nat)
    requires Mid(v, s, t) && s.queue != [] && s.nTotal + s.nIdle >= 0
    ensures Inv(v, Proceed(nBatchSize, s, t))
  {
    hide Sum, Work, BatchSize;
    var n := BatchSize(nBatchSize, s);
    var p := Running(Popped(s.queue, n), s.fAllOk);
    var u := s.threads[t := Entering];
    assert u[t := p] == s.threads[t := p];
    SumUpdate(u, t, p, Idle);
    SumUpdate(u, t, p, Registered);
    WorkUpdate(u, t, p);
    PoppedElements(s.queue, n);
    assert Work(u[t := p]) == Work(u) + multiset(Popped(s.queue, n));
    assert |multiset(s.queue)| == |s.queue|;
  }

  lemma LockKeeps(v: Verifier, nBatchSize: nat, s: State, t: nat)
    requires Inv(v, s) && Enabled(s, t)
    ensures Inv(v, Next(v, nBatchSize, s, Lock(t)))
  {
    hide ThreadsOk, SessionOk, Report, Proceed;
    SumContains(s.threads, t, Idle);
    ReportKeeps(v, s, t);
    var r := Report(v, s, t);
    if r.queue != [] {
      ProceedTakes(v, nBatchSize, r, t);
    } else if t == MASTER && r.nTodo == 0 {
      ProceedReturns(v, nBatchSize, r);
    } else {
      ProceedSleeps(v, nBatchSize, r, t);
    }
  }

  /** Waking sleepers keeps the invariant. */
  lemma WakeKeeps(v: Verifier, s: State, threads: seq<Phase>)
    requires Inv(v, s) && |threads| == |s.threads|
    requires forall i :: 0 <= i < |threads| ==>
      threads[i] == s.threads[i] || (s.threads[i] == Asleep && threads[i] == Awake)
    ensures Inv(v, s.(threads := threads))
  {
    SumAlike(s.threads, threads, Idle);
    SumAlike(s.threads, threads, Registered);
    WorkAlike(s.threads, threads);
  }

  lemma QueueKeeps(v: Verifier, s: State, checks: seq<Check>)
    requires Inv(v, s) && s.threads[MASTER] == Outside
    ensures Inv(v, s.(queue := s.queue + checks, nTodo := s.nTodo + |checks|, added := s.added + checks))
  {
    hide Sum, Work;
    var t := s.(queue := s.queue + checks, nTodo := s.nTodo + |checks|, added := s.added + checks);
    assert multiset(t.added) == multiset(s.added) + multiset(checks);
    assert multiset(t.queue) == multiset(s.queue) + multiset(checks);
    if !s.fAllOk {
      var c :| c in s.added && !v(c);
      assert c in t.added;
    }
  }

  lemma NextKeeps(v: Verifier, nBatchSize: nat, s: State, l: Label)
    requires Inv(v, s) && Can(s, l)
    ensures Inv(v, Next(v, nBatchSize, s, l))
  {
    hide Sum, Work, SessionOk;
    match l
    case Lock(t) =>
      LockKeeps(v, nBatchSize, s, t);
    case Spurious(t) =>
      WakeKeeps(v, s, s.threads[t := Awake]);
    case AddChecks(checks) =>
      QueueKeeps(v, s, checks);
      MoveKeeps(v, s.(queue := s.queue + checks, nTodo := s.nTodo + |checks|, added := s.added + checks),
        Adding(|checks|));
    case Notify(woken) =>
      var threads := Notified(s, woken);
      WakeKeeps(v, s, threads);
      MoveKeeps(v, s.(threads := threads), Outside);
    case StartWait =>
      MoveKeeps(v, s, Entering);
  }

  /** The master moves on outside the loop. */
  lemma MoveKeeps(v: Verifier, s: State, p: Phase)
    requires Inv(v, s) && (s.threads[MASTER] == Outside || s.threads[MASTER].Adding?)
    requires p == Outside || p == Entering || p.Adding?
    ensures Inv(v, SetThread(s, MASTER, p))
  {
    hide Sum, Work;
    SumUpdate(s.threads, MASTER, p, Idle);
    SumUpdate(s.threads, MASTER, p, Registered);
    WorkWithout(s.threads, MASTER, p);
  }

  lemma {:induction false} InitialTotals(n: nat)
    ensures var w := seq(n, i => Entering); Sum(w, Idle) == 0 && Sum(w, Registered) == 0 && Work(w) == multiset{}
  {
    var w := seq(n, i => Entering);
    if n > 0 {
      assert w[1..] == seq(n - 1, i => Entering);
      InitialTotals(n - 1);
    }
  }

  lemma InitialInv(v: Verifier, workers: nat)
    ensures Inv(v, Initial(workers))
  {
    InitialTotals(workers);
    var s := Initial(workers);
    assert s.threads[1..] == seq(workers, i => Entering);
  }

  /** Where every run starts. */
  ghost function Start(v: Verifier, workers: nat): (s: State)
    ensures s == Initial(workers) && Inv(v, s)
  {
    InitialInv(v, workers);
    Initial(workers)
  }

  // ----- whole runs -----

  /** A run: each label can happen in the state reached so far. */
  ghost predicate Legal(v: Verifier, nBatchSize: nat, s: State, run: seq<Label>)
    requires Inv(v, s)
    decreases |run|
  {
    run != [] ==>
      && Can(s, run[0])
      && (NextKeeps(v, nBatchSize, s, run[0]); Legal(v, nBatchSize, Next(v, nBatchSize, s, run[0]), run[1..]))
  }

  ghost function After(v: Verifier, nBatchSize: nat, s: State, run: seq<Label>): (r: State)
    requires Inv(v, s) && Legal(v, nBatchSize, s, run)
    ensures Inv(v, r)
    decreases |run|
  {
    if run == [] then s
    else
      NextKeeps(v, nBatchSize, s, run[0]);
      After(v, nBatchSize, Next(v, nBatchSize, s, run[0]), run[1..])
  }

  /** The step by which the master's Wait returns. */
  predicate Returns(v: Verifier, s: State, l: Label) {
    l == Lock(MASTER) && Enabled(s, MASTER) && Report(v, s, MASTER).queue == [] && Report(v, s, MASTER).nTodo == 0
  }

  /** The checks that a run adds after the last step by which Wait returns, or in all if it never returns, following
      those in earlier. */
  ghost function Session(v: Verifier, nBatchSize: nat, s: State, run: seq<Label>, earlier: seq<Check>): seq<Check>
    requires Inv(v, s) && Legal(v, nBatchSize, s, run)
    decreases |run|
  {
    if run == [] then earlier
    else
      NextKeeps(v, nBatchSize, s, run[0]);
      var r := Next(v, nBatchSize, s, run[0]);
      var so := if run[0].AddChecks? then earlier + run[0].checks
                else if run[0] == Lock(MASTER) && r.threads[MASTER] == Outside then [] else earlier;
      Session(v, nBatchSize, r, run[1..], so)
  }

  /** What one step does to the checks of the session. */
  lemma AddedStep(v: Verifier, nBatchSize: nat, s: State, l: Label)
    requires Inv(v, s) && Can(s, l)
    ensures var r := Next(v, nBatchSize, s, l);
      |r.threads| > 0 && r.added == if l.AddChecks? then s.added + l.checks
        else if l == Lock(MASTER) && r.threads[MASTER] == Outside then [] else s.added
  {
    hide Sum, Work, SessionOk, CountersOk, Report, Proceed;
    if l.Lock? {
      SumContains(s.threads, l.t, Idle);
      ReportAdded(v, s, l.t);
      ReportKeeps(v, s, l.t);
      ProceedAdded(nBatchSize, Report(v, s, l.t), l.t);
    }
  }

  lemma ReportAdded(v: Verifier, s: State, t: nat)
    requires Enabled(s, t)
    ensures var r := Report(v, s, t); r.added == s.added && |r.threads| == |s.threads|
  {
  }

  lemma ProceedAdded(nBatchSize: nat, s: State, t: nat)
    requires t < |s.threads| && s.nTotal + s.nIdle >= 0
    ensures var r := Proceed(nBatchSize, s, t);
      && |r.threads| == |s.threads|
      && r.added == if t == MASTER && r.threads[MASTER] == Outside then [] else s.added
  {
    hide BatchSize;
  }

  /** The history kept in the state is that of the run. */
  lemma {:induction false} AddedIsSession(v: Verifier, nBatchSize: nat, s: State, run: seq<Label>)
    requires Inv(v, s) && Legal(v, nBatchSize, s, run)
    ensures After(v, nBatchSize, s, run).added == Session(v, nBatchSize, s, run, s.added)
    decreases |run|
  {
    hide Inv, Next, Can;
    if run != [] {
      NextKeeps(v, nBatchSize, s, run[0]);
      AddedStep(v, nBatchSize, s, run[0]);
      AddedIsSession(v, nBatchSize, Next(v, nBatchSize, s, run[0]), run[1..]);
    }
  }

  /** In every interleaving, when Wait returns its result is true exactly when every check that the run added since the
      previous return passes, no thread holds a batch, and nothing of the session is left over. */
  lemma WaitIsRight(v: Verifier, nBatchSize: nat, workers: nat, run: seq<Label>, l: Label)
    requires Legal(v, nBatchSize, Start(v, workers), run)
    requires Can(After(v, nBatchSize, Start(v, workers), run), l)
    requires Returns(v, After(v, nBatchSize, Start(v, workers), run), l)
    ensures var r := Next(v, nBatchSize, After(v, nBatchSize, Start(v, workers), run), l);
      && r.verdict == Some(AllPass(v, Session(v, nBatchSize, Start(v, workers), run, [])))
      && (forall t :: 0 <= t < |r.threads| ==> !r.threads[t].Running?)
      && r.queue == [] && r.nTodo == 0 && r.fAllOk && r.added == [] && r.threads[MASTER] == Outside
  {
    hide Sum, Work, ThreadsOk, SessionOk;
    var s := After(v, nBatchSize, Start(v, workers), run);
    AddedIsSession(v, nBatchSize, Start(v, workers), run);
    SumContains(s.threads, MASTER, Idle);
    ReportKeeps(v, s, MASTER);
    var r := Report(v, s, MASTER);
    ProceedReturns(v, nBatchSize, r);
    assert r.added == s.added;
  }

  /** Wait returns exactly by the steps after which the master is outside the loop again. */
  lemma ReturnsIs(v: Verifier, nBatchSize: nat, s: State, l: Label)
    requires Inv(v, s) && Can(s, l)
    ensures Next(v, nBatchSize, s, l).threads != [] &&
      (Returns(v, s, l) <==> l == Lock(MASTER) && Next(v, nBatchSize, s, l).threads[MASTER] == Outside)
  {
    hide Sum, Work, SessionOk, CountersOk, Execute, BatchSize;
    NextKeeps(v, nBatchSize, s, l);
    if l.Lock? {
      SumContains(s.threads, l.t, Idle);
    }
  }

  /** Only a return of Wait changes the verdict. */
  lemma VerdictStable(v: Verifier, nBatchSize: nat, s: State, l: Label)
    requires Inv(v, s) && Can(s, l) && !Returns(v, s, l)
    ensures Next(v, nBatchSize, s, l).verdict == s.verdict
  {
    hide Sum, Work, SessionOk, CountersOk;
  }

  // ----- progress -----

  function Weight(p: Phase): nat { if p.Running? then 2 else if p.Awake? || p.Entering? then 1 else 0 }

  /** The work that locking steps use up. */
  function Variant(s: State): nat { 3 * |s.queue| + Sum(s.threads, Weight) }

  lemma ReportWeight(v: Verifier, s: State, t: nat)
    requires Inv(v, s) && Enabled(s, t)
    ensures var r := Report(v, s, t); t < |r.threads| && r.queue == s.queue
    ensures var r := Report(v, s, t); Sum(r.threads[t := Outside], Weight) + 1 <= Sum(s.threads, Weight)
    ensures var r := Report(v, s, t); s.threads[t].Running? && r.threads == s.threads ==>
      Sum(r.threads[t := Outside], Weight) + 2 <= Sum(s.threads, Weight)
  {
    hide Sum, Work, SessionOk, CountersOk, Execute;
    var r := Report(v, s, t);
    var u := s.threads[t := Outside];
    SumUpdate(s.threads, t, Outside, Weight);
    if r.threads != s.threads {
      assert r.threads[t := Outside] == u[MASTER := Awake];
      SumUpdate(u, MASTER, Awake, Weight);
    }
  }

  /** Every critical section uses up some of the work: a batch taken is never empty, and a thread that
      finishes a batch wakes at most the master. */
  lemma LockDecreases(v: Verifier, nBatchSize: nat, s: State, t: nat)
    requires Inv(v, s) && Enabled(s, t)
    ensures Variant(Next(v, nBatchSize, s, Lock(t))) < Variant(s)
  {
    hide Sum, Work, SessionOk, CountersOk, Execute, Report, BatchSize;
    SumContains(s.threads, t, Idle);
    ReportKeeps(v, s, t);
    ReportWeight(v, s, t);
    var r := Report(v, s, t);
    var n := Proceed(nBatchSize, r, t);
    var u := r.threads[t := Outside];
    assert u[t := n.threads[t]] == n.threads;
    SumUpdate(u, t, n.threads[t], Weight);
  }

  lemma SpuriousCosts(v: Verifier, nBatchSize: nat, s: State, t: nat)
    requires Inv(v, s) && Can(s, Spurious(t))
    ensures Variant(Next(v, nBatchSize, s, Spurious(t))) == Variant(s) + 1
  {
    hide Sum;
    SumUpdate(s.threads, t, Awake, Weight);
  }

  /** While the master is inside Wait, some thread can take the lock; if the master sleeps, the queue is
      empty and another thread holds a batch whose completion it is waiting for. */
  lemma NeverStuck(v: Verifier, s: State)
    requires Inv(v, s) && s.threads[MASTER] != Outside && !s.threads[MASTER].Adding?
    ensures exists t :: 0 <= t < |s.threads| && Enabled(s, t)
    ensures s.threads[MASTER] == Asleep ==> s.queue == [] && exists t ::
      0 < t < |s.threads| && s.threads[t].Running? && s.threads[t].batch != []
  {
    hide Sum, Work, SessionOk;
    if s.threads[MASTER] == Asleep {
      WorkHolder(s.threads);
      var t :| 0 <= t < |s.threads| && s.threads[t].Running?;
      assert Enabled(s, t);
    } else {
      assert Enabled(s, MASTER);
    }
  }

  predicate Waiting(l: Label) { l.Lock? || l.Spurious? }

  function SpuriousCount(run: seq<Label>): nat {
    if run == [] then 0 else (if run[0].Spurious? then 1 else 0) + SpuriousCount(run[1..])
  }

  /** Nobody waits forever: a run of locking steps and k spurious wake-ups has at most Variant(s) + 2k
      steps. With NeverStuck, the master's Wait returns in every schedule that keeps running threads. */
  lemma {:induction false} WaitEnds(v: Verifier, nBatchSize: nat, s: State, run: seq<Label>)
    requires Inv(v, s) && Legal(v, nBatchSize, s, run) && forall i :: 0 <= i < |run| ==> Waiting(run[i])
    ensures |run| <= Variant(s) + 2 * SpuriousCount(run)
    decreases |run|
  {
    hide Inv, Sum, Next, Variant, Can;
    if run != [] {
      NextKeeps(v, nBatchSize, s, run[0]);
      if run[0].Lock? {
        CanLock(s, run[0]);
        LockDecreases(v, nBatchSize, s, run[0].t);
      } else {
        SpuriousCosts(v, nBatchSize, s, run[0].t);
      }
      WaitEnds(v, nBatchSize, Next(v, nBatchSize, s, run[0]), run[1..]);
    }
  }

  lemma CanLock(s: State, l: Label)
    requires Can(s, l) && l.Lock?
    ensures Enabled(s, l.t)
  {
  }

  // ----- the critical section step by step -----

  /** Execute the work: the loop over a batch. */
  method RunChecks(v: Verifier, ok: bool, vChecks: seq<Check>) returns (fOk: bool)
    ensures fOk == Execute(v, ok, vChecks)
  {
    hide Execute;
    fOk := ok;
    assert vChecks[0..] == vChecks;
    for i := 0 to |vChecks|
      invariant Execute(v, fOk, vChecks[i..]) == Execute(v, ok, vChecks)
    {
      ExecuteStep(v, fOk, vChecks[i..]);
      assert vChecks[i..][1..] == vChecks[i + 1..];
      if fOk {
        fOk := v(vChecks[i]);
      }
    }
    ExecuteNone(v, fOk, vChecks[|vChecks|..]);
  }

  /** Pop a batch off the queue, one check at a time. */
  method PopBatch(queue: seq<Check>, nNow: nat) returns (vChecks: seq<Check>, rest: seq<Check>)
    requires nNow <= |queue|
    ensures vChecks == Popped(queue, nNow) && rest == queue[..|queue| - nNow]
  {
    vChecks, rest := [], queue;
    for i := 0 to nNow
      invariant rest == queue[..|queue| - i] && vChecks == Popped(queue, i)
    {
      vChecks := vChecks + [rest[|rest| - 1]];
      rest := rest[..|rest| - 1];
    }
  }

  /** The clean-up at the start of a critical section. */
  method FinishBatch(v: Verifier, s: State, t: nat) returns (r: State)
    requires Enabled(s, t)
    ensures r == Report(v, s, t)
  {
    hide Execute;
    r := s;
    if s.threads[t].Running? {
      var fOk := RunChecks(v, s.threads[t].ok, s.threads[t].batch);
      r := r.(fAllOk := r.fAllOk && fOk, done := r.done + multiset(s.threads[t].batch));
      r := r.(nTodo := r.nTodo - |s.threads[t].batch|);
      if r.nTodo == 0 && t != MASTER && r.threads[MASTER] == Asleep {
        r := SetThread(r, MASTER, Awake);
      }
    } else if s.threads[t].Entering? {
      r := r.(nTotal := r.nTotal + 1);
    } else {
      r := r.(nIdle := r.nIdle - 1);
    }
  }

  /** The rest of a critical section: return the status, wait, or take the next batch. */
  method NextBatch(nBatchSize: nat, s: State, t: nat) returns (r: State)
    requires t < |s.threads| && s.nTotal + s.nIdle >= 0
    ensures r == Proceed(nBatchSize, s, t)
  {
    hide Popped;
    r := s;
    if r.queue == [] {
      if t == MASTER && r.nTodo == 0 {
        r := SetThread(r, t, Outside).(nTotal := r.nTotal - 1, verdict := Some(r.fAllOk), fAllOk := true, added := [],
          done := multiset{});
      } else {
        r := SetThread(r, t, Asleep).(nIdle := r.nIdle + 1);
      }
    } else {
      var nNow := BatchSize(nBatchSize, r);
      var vChecks, rest := PopBatch(r.queue, nNow);
      r := SetThread(r.(queue := rest), t, Running(vChecks, r.fAllOk));
    }
  }

  /** One round of Loop: run the batch taken before, then everything from the acquisition of the mutex to
      its release. */
  method LoopRound(v: Verifier, nBatchSize: nat, s: State, t: nat) returns (r: State)
    requires Inv(v, s) && Enabled(s, t)
    ensures r == Next(v, nBatchSize, s, Lock(t)) && Inv(v, r)
  {
    hide Inv, Report, Proceed;
    LockKeeps(v, nBatchSize, s, t);
    RoundFacts(v, s, t);
    r := FinishBatch(v, s, t);
    r := NextBatch(nBatchSize, r, t);
  }

  lemma RoundFacts(v: Verifier, s: State, t: nat)
    requires Inv(v, s) && Enabled(s, t)
    ensures var r := Report(v, s, t); r.nTotal + r.nIdle >= 0 && |r.threads| == |s.threads| > 0
  {
    SumContains(s.threads, t, Idle);
  }

  lemma ExecuteStep(v: Verifier, ok: bool, batch: seq<Check>)
    requires batch != []
    ensures Execute(v, ok, batch) == Execute(v, if ok then v(batch[0]) else ok, batch[1..])
  {
  }

  lemma ExecuteNone(v: Verifier, ok: bool, batch: seq<Check>)
    requires batch == []
    ensures Execute(v, ok, batch) == ok
  {
  }
}
