/** What every interleaving of the check queue keeps, what `Wait` returns, and that it returns. */
module CheckQueueRuns {

  import opened CheckQueue

  // ---------- sums over threads ----------

  function BatchOf(p: Pc): seq<Check> {
    if p.Working? then p.batch else []
  }

  /** The checks in the batches of all threads. */
  function InFlight(threads: seq<Pc>): multiset<Check> {
    if threads == [] then multiset{}
    else InFlight(threads[..|threads| - 1]) + multiset(BatchOf(threads[|threads| - 1]))
  }

  predicate IsIdle(p: Pc) { p.Sleeping? || p.Woken? }

  predicate IsInside(p: Pc) { p.Sleeping? || p.Woken? || p.Locked? || p.Working? || p.Stopped? }

  predicate IsAwake(p: Pc) { p.Starting? || p.Woken? }

  function Count(threads: seq<Pc>, f: Pc -> bool): nat {
    if threads == [] then 0
    else Count(threads[..|threads| - 1], f) + if f(threads[|threads| - 1]) then 1 else 0
  }

  lemma AlsoWith(a: multiset<Check>, b: multiset<Check>, c: multiset<Check>, d: multiset<Check>, e: multiset<Check>)
    requires a + b == c + d
    ensures a + e + b == c + e + d
  {
    assert a + e + b == (a + b) + e;
    assert c + e + d == (c + d) + e;
  }

  /** The sum of all but the last thread, and the last. */
  lemma InFlightLast(threads: seq<Pc>, front: seq<Pc>)
    requires threads != [] && front == threads[..|threads| - 1]
    ensures InFlight(threads) == InFlight(front) + multiset(BatchOf(threads[|threads| - 1]))
  {
  }

  lemma Swapped(a: multiset<Check>, b: multiset<Check>, c: multiset<Check>)
    ensures a + b + c == a + c + b
  {
  }

  lemma {:induction false} InFlightSet(threads: seq<Pc>, t: nat, p: Pc)
    requires t < |threads|
    ensures InFlight(threads[t := p]) + multiset(BatchOf(threads[t])) == InFlight(threads) + multiset(BatchOf(p))
  {
    hide InFlight, BatchOf;
    var n := |threads| - 1;
    var front := threads[..n];
    InFlightLast(threads, front);
    if t == n {
      InFlightLast(threads[t := p], front);
      Swapped(InFlight(front), multiset(BatchOf(p)), multiset(BatchOf(threads[t])));
    } else {
      InFlightSet(front, t, p);
      InFlightLast(threads[t := p], front[t := p]);
      AlsoWith(InFlight(front[t := p]), multiset(BatchOf(threads[t])), InFlight(front), multiset(BatchOf(p)),
               multiset(BatchOf(threads[n])));
    }
  }

  lemma {:induction false} CountSet(threads: seq<Pc>, f: Pc -> bool, t: nat, p: Pc)
    requires t < |threads|
    ensures Count(threads[t := p], f) == Count(threads, f) - (if f(threads[t]) then 1 else 0) + (if f(p) then 1 else 0)
  {
    var n := |threads| - 1;
    if t == n {
      assert threads[t := p][..n] == threads[..n];
    } else {
      CountSet(threads[..n], f, t, p);
      assert threads[t := p][..n] == threads[..n][t := p];
    }
  }

  lemma {:induction false} InFlightSame(a: seq<Pc>, b: seq<Pc>)
    requires |a| == |b| && forall k :: 0 <= k < |a| ==> BatchOf(a[k]) == BatchOf(b[k])
    ensures InFlight(a) == InFlight(b)
  {
    if a != [] { InFlightSame(a[..|a| - 1], b[..|b| - 1]); }
  }

  lemma {:induction false} CountSame(a: seq<Pc>, b: seq<Pc>, f: Pc -> bool)
    requires |a| == |b| && forall k :: 0 <= k < |a| ==> f(a[k]) == f(b[k])
    ensures Count(a, f) == Count(b, f)
  {
    if a != [] { CountSame(a[..|a| - 1], b[..|b| - 1], f); }
  }

  lemma {:induction false} InFlightHas(threads: seq<Pc>, t: nat)
    requires t < |threads|
    ensures multiset(BatchOf(threads[t])) <= InFlight(threads)
  {
    var n := |threads| - 1;
    if t < n { InFlightHas(threads[..n], t); }
  }

  /** Something in flight is in the batch of some thread. */
  lemma {:induction false} InFlightOf(threads: seq<Pc>) returns (t: nat)
    requires InFlight(threads) != multiset{}
    ensures t < |threads| && BatchOf(threads[t]) != []
  {
    var n := |threads| - 1;
    if BatchOf(threads[n]) != [] {
      t := n;
    } else {
      assert InFlight(threads) == InFlight(threads[..n]);
      t := InFlightOf(threads[..n]);
    }
  }

  // ---------- the batches ----------

  predicate AllOk(checks: multiset<Check>) {
    forall c :: c in checks ==> c.ok
  }

  /** A batch started in good standing comes out true exactly if all of it is good; otherwise it is skipped. */
  lemma {:induction false} OutcomeIs(batch: seq<Check>, startOk: bool, n: nat)
    requires n <= |batch|
    ensures Outcome(batch, startOk, n) == (startOk && AllOk(multiset(batch[..n])))
    ensures Ran(batch, startOk, n) <= multiset(batch[..n])
    ensures Outcome(batch, startOk, n) ==> Ran(batch, startOk, n) == multiset(batch[..n])
  {
    if n > 0 {
      OutcomeIs(batch, startOk, n - 1);
      assert batch[..n] == batch[..n - 1] + [batch[n - 1]];
      assert multiset(batch[..n]) == multiset(batch[..n - 1]) + multiset{batch[n - 1]};
    }
  }

  lemma {:induction false} TakenIs(queue: seq<Check>, n: nat)
    requires n <= |queue|
    ensures |Taken(queue, n)| == n
    ensures multiset(queue) == multiset(queue[..|queue| - n]) + multiset(Taken(queue, n))
  {
    if n == 0 {
      assert queue[..|queue|] == queue;
    } else {
      var last := queue[|queue| - n];
      TakenIs(queue, n - 1);
      assert Taken(queue, n) == Taken(queue, n - 1) + [last];
      assert queue[..|queue| - (n - 1)] == queue[..|queue| - n] + [last];
    }
  }

  lemma BatchFits(s: State)
    requires s.queue != [] && s.total >= 0 && s.idle >= 0
    ensures 1 <= BatchSize(s) <= |s.queue|
  {
    var d := s.total + s.idle + 1;
    DivideLess(|s.queue|, d);
  }

  lemma DivideLess(a: nat, d: int)
    requires d >= 1
    ensures 0 <= a / d <= a
  {
    var q := a / d;
    assert a == q * d + a % d;
    assert q * d >= q by { MulGrows(q, d); }
  }

  lemma MulGrows(q: int, d: int)
    requires d >= 1 && q >= 0
    ensures q * d >= q
  {
  }

  // ---------- the invariant ----------

  /** Every check added is queued, in one batch, or done; and `nTodo` counts those not done. */
  ghost predicate Conserved(s: State) {
    && s.added == multiset(s.queue) + InFlight(s.threads) + s.done
    && s.todo == |s.queue| + |InFlight(s.threads)|
  }

  ghost predicate Counted(s: State) {
    && s.idle == Count(s.threads, IsIdle)
    && s.total == Count(s.threads, IsInside)
  }

  /** `fAllOk` is the verdict on what is done; a batch is only skipped if that verdict is already false. */
  ghost predicate Judged(s: State) {
    && (s.allOk <==> AllOk(s.done))
    && s.ran <= s.done
    && (s.allOk ==> s.ran == s.done)
    && (forall t :: 0 <= t < |s.threads| && s.threads[t].Working? ==>
          s.threads[t].batch != [] && (!s.threads[t].startOk ==> !s.allOk))
  }

  predicate Roles(threads: seq<Pc>) {
    forall t :: 0 < t < |threads| ==> !threads[t].Outside? && !threads[t].Notifying?
  }

  /** The master only sleeps while some worker still has a batch to report. */
  ghost predicate MasterSleeps(s: State) {
    0 < |s.threads| && s.threads[MASTER].Sleeping? ==> s.queue == [] && s.todo > 0
  }

  /** Work is never left lying while all workers sleep, unless a notification is on its way. */
  ghost predicate WorkersAwake(s: State) {
    s.queue != [] && 1 < |s.threads| && !s.threads[MASTER].Notifying? ==>
      exists t :: 0 < t < |s.threads| && !s.threads[t].Sleeping?
  }

  /** What `Wait` returned is the verdict on everything added; if true, each check was evaluated. */
  ghost predicate RoundOk(r: Round) {
    && (r.result <==> AllOk(r.added))
    && r.ran <= r.added
    && (r.result ==> r.ran == r.added)
  }

  ghost predicate Inv(s: State) {
    && 0 < |s.threads|
    && Conserved(s) && Counted(s) && Judged(s)
    && Roles(s.threads) && MasterSleeps(s) && WorkersAwake(s)
    && (forall k :: 0 <= k < |s.rounds| ==> RoundOk(s.rounds[k]))
  }

  // ---------- one lock section ----------

  /** A thread changes without touching its batch. */
  lemma SetKeeps(threads: seq<Pc>, t: nat, p: Pc)
    requires t < |threads| && BatchOf(threads[t]) == BatchOf(p)
    ensures InFlight(threads[t := p]) == InFlight(threads)
  {
    InFlightSet(threads, t, p);
    var m := multiset(BatchOf(p));
    assert InFlight(threads[t := p]) == InFlight(threads[t := p]) + m - m;
    assert InFlight(threads) == InFlight(threads) + m - m;
  }

  lemma CountsSet(threads: seq<Pc>, t: nat, p: Pc)
    requires t < |threads|
    ensures Count(threads[t := p], IsIdle) ==
            Count(threads, IsIdle) - (if IsIdle(threads[t]) then 1 else 0) + (if IsIdle(p) then 1 else 0)
    ensures Count(threads[t := p], IsInside) ==
            Count(threads, IsInside) - (if IsInside(threads[t]) then 1 else 0) + (if IsInside(p) then 1 else 0)
    ensures Count(threads[t := p], IsAwake) ==
            Count(threads, IsAwake) - (if IsAwake(threads[t]) then 1 else 0) + (if IsAwake(p) then 1 else 0)
  {
    CountSet(threads, IsIdle, t, p);
    CountSet(threads, IsInside, t, p);
    CountSet(threads, IsAwake, t, p);
  }

  lemma MoveConserves(s: State, t: nat, p: Pc)
    requires Conserved(s) && t < |s.threads| && BatchOf(s.threads[t]) == BatchOf(p)
    ensures Conserved(SetThread(s, t, p))
  {
    SetKeeps(s.threads, t, p);
    hide InFlight;
  }

  lemma MoveCounts(s: State, t: nat, p: Pc, total: int, idle: int)
    requires Counted(s) && t < |s.threads|
    requires idle == s.idle - (if IsIdle(s.threads[t]) then 1 else 0) + (if IsIdle(p) then 1 else 0)
    requires total == s.total - (if IsInside(s.threads[t]) then 1 else 0) + (if IsInside(p) then 1 else 0)
    ensures Counted(SetThread(s, t, p).(total := total, idle := idle))
  {
    CountsSet(s.threads, t, p);
    hide Count;
  }

  lemma MoveJudges(s: State, t: nat, p: Pc)
    requires Judged(s) && t < |s.threads| && (p.Working? ==> p.batch != [] && p.startOk == s.allOk)
    ensures Judged(SetThread(s, t, p))
  {
    hide AllOk;
  }

  /** A thread without a batch moves on without one; the counters are adjusted by `idle` and `total`. */
  lemma MoveKeeps(s: State, t: nat, p: Pc, total: int, idle: int)
    requires Conserved(s) && Counted(s) && Judged(s) && t < |s.threads| && BatchOf(s.threads[t]) == [] && !p.Working?
    requires idle == s.idle - (if IsIdle(s.threads[t]) then 1 else 0) + (if IsIdle(p) then 1 else 0)
    requires total == s.total - (if IsInside(s.threads[t]) then 1 else 0) + (if IsInside(p) then 1 else 0)
    ensures var s' := SetThread(s, t, p).(total := total, idle := idle); Conserved(s') && Counted(s') && Judged(s')
  {
    var s' := SetThread(s, t, p).(total := total, idle := idle);
    assert Conserved(s') by { MoveConserves(s, t, p); hide InFlight; }
    assert Counted(s') by { MoveCounts(s, t, p, total, idle); }
    assert Judged(s') by { MoveJudges(s, t, p); }
  }

  lemma AwakeStays(s: State, t: nat, p: Pc)
    requires WorkersAwake(s) && t < |s.threads| && !s.threads[t].Notifying? && !p.Sleeping?
    ensures WorkersAwake(SetThread(s, t, p))
  {
    var s' := SetThread(s, t, p);
    if s.queue != [] && 1 < |s.threads| && !s.threads[MASTER].Notifying? {
      var k :| 0 < k < |s.threads| && !s.threads[k].Sleeping?;
      assert !s'.threads[k].Sleeping?;
    }
  }

  /** A thread takes the lock, not having a batch to report. */
  lemma LockKeeps(s: State, t: nat)
    requires Inv(s) && t < |s.threads| && (s.threads[t].Starting? || s.threads[t].Woken?)
    ensures var d := if s.threads[t].Woken? then 1 else 0;
            Inv(SetThread(s, t, Locked).(total := s.total + 1 - d, idle := s.idle - d))
  {
    hide Conserved, Counted, Judged;
    var d := if s.threads[t].Woken? then 1 else 0;
    MoveKeeps(s, t, Locked, s.total + 1 - d, s.idle - d);
    AwakeStays(s, t, Locked);
  }

  lemma AllOkPlus(a: multiset<Check>, b: multiset<Check>)
    ensures AllOk(a + b) <==> AllOk(a) && AllOk(b)
  {
    forall c ensures c in a + b <==> c in a || c in b {}
  }

  /** The part of the clean-up that concerns the thread itself. */
  function Reported(s: State, t: nat): State
    requires t < |s.threads| && s.threads[t].Working?
  {
    var batch, startOk := s.threads[t].batch, s.threads[t].startOk;
    s.(allOk := s.allOk && Outcome(batch, startOk, |batch|), todo := s.todo - |batch|,
       done := s.done + multiset(batch), ran := s.ran + Ran(batch, startOk, |batch|),
       threads := s.threads[t := Locked])
  }

  lemma ReportConserves(s: State, t: nat)
    requires Conserved(s) && t < |s.threads| && s.threads[t].Working?
    ensures Conserved(Reported(s, t)) && InFlight(s.threads) == InFlight(Reported(s, t).threads) + multiset(s.threads[t].batch)
  {
    var m := multiset(s.threads[t].batch);
    InFlightSet(s.threads, t, Locked);
    var rest := InFlight(s.threads[t := Locked]);
    assert multiset(BatchOf(Locked)) == multiset{};
    assert rest + m == InFlight(s.threads);
    assert multiset(s.queue) + (rest + m) + s.done == multiset(s.queue) + rest + (s.done + m);
    assert |rest + m| == |rest| + |m|;
  }

  lemma ReportJudges(s: State, t: nat)
    requires Judged(s) && t < |s.threads| && s.threads[t].Working?
    ensures Judged(Reported(s, t))
  {
    var batch, startOk := s.threads[t].batch, s.threads[t].startOk;
    OutcomeIs(batch, startOk, |batch|);
    assert batch[..|batch|] == batch;
    AllOkPlus(s.done, multiset(batch));
  }

  lemma ReportKeeps(s: State, t: nat)
    requires Inv(s) && t < |s.threads| && s.threads[t].Working?
    ensures var s1 := Reported(s, t);
            && Conserved(s1) && Counted(s1) && Judged(s1) && Roles(s1.threads) && WorkersAwake(s1) && s1.todo >= 0
  {
    hide Judged, Outcome, Ran, Count, InFlight;
    ReportConserves(s, t);
    ReportJudges(s, t);
    CountsSet(s.threads, t, Locked);
    AwakeStays(s, t, Locked);
  }

  lemma CleanUpKeeps(s: State, t: nat)
    requires Inv(s) && t < |s.threads| && s.threads[t].Working?
    ensures Inv(CleanUp(s, t)) && CleanUp(s, t).threads[t].Locked?
  {
    hide Conserved, Judged, Counted, Outcome, Ran;
    ReportKeeps(s, t);
    var s1 := Reported(s, t);
    if s1.todo == 0 && t != MASTER && s1.threads[MASTER].Sleeping? {
      assert CleanUp(s, t) == SetThread(s1, MASTER, Woken);
      MoveKeeps(s1, MASTER, Woken, s1.total, s1.idle);
      AwakeStays(s1, MASTER, Woken);
    } else {
      assert CleanUp(s, t) == s1;
    }
  }

  // ---------- the decision ----------

  /** The master returns: nothing is queued or in flight, so what is done is all that was added. */
  lemma ReturnKeeps(s: State)
    requires Inv(s) && s.threads[MASTER].Locked? && s.queue == [] && s.todo == 0 && !s.stop
    ensures Inv(Decide(s, MASTER))
  {
    hide InFlight, Count;
    assert InFlight(s.threads) == multiset{};
    assert s.added == s.done;
    SetKeeps(s.threads, MASTER, Outside);
    CountsSet(s.threads, MASTER, Outside);
    assert RoundOk(Round(s.added, s.ran, s.allOk));
    forall t | 0 <= t < |s.threads| ensures !s.threads[t].Working? { InFlightHas(s.threads, t); }
  }

  lemma SleepKeeps(s: State, t: nat)
    requires Inv(s) && t < |s.threads| && s.threads[t].Locked? && s.queue == [] && !s.stop && (t == MASTER ==> s.todo != 0)
    ensures Inv(Decide(s, t))
  {
    assert s.todo >= 0;
    hide Conserved, Counted, Judged;
    MoveKeeps(s, t, Sleeping, s.total, s.idle + 1);
  }

  lemma StopKeeps(s: State, t: nat)
    requires Inv(s) && t < |s.threads| && s.threads[t].Locked? && s.stop
    ensures Inv(Decide(s, t))
  {
    hide Conserved, Counted, Judged;
    MoveKeeps(s, t, Stopped, s.total, s.idle);
    AwakeStays(s, t, Stopped);
  }

  lemma TakeConserves(s: State, t: nat, n: nat)
    requires Conserved(s) && t < |s.threads| && s.threads[t].Locked? && n <= |s.queue|
    ensures Conserved(TakeBatch(s, t, n))
    ensures InFlight(s.threads[t := Working(Taken(s.queue, n), s.allOk)]) == InFlight(s.threads) + multiset(Taken(s.queue, n))
  {
    hide InFlight, Taken;
    var batch, f := Taken(s.queue, n), InFlight(s.threads);
    TakenIs(s.queue, n);
    InFlightSet(s.threads, t, Working(batch, s.allOk));
    var now := InFlight(s.threads[t := Working(batch, s.allOk)]);
    assert now == now + multiset(BatchOf(Locked)) == f + multiset(batch);
    Regroup(multiset(s.queue[..|s.queue| - n]), multiset(batch), f, s.done);
    assert |now| == |f| + n;
  }

  lemma Regroup(a: multiset<Check>, b: multiset<Check>, c: multiset<Check>, d: multiset<Check>)
    ensures (a + b) + c + d == a + (c + b) + d
  {
  }

  lemma CountNonNegative(s: State)
    requires Counted(s)
    ensures s.total >= 0 && s.idle >= 0
  {
  }

  lemma TakeKeeps(s: State, t: nat)
    requires Inv(s) && t < |s.threads| && s.threads[t].Locked? && s.queue != [] && !s.stop
    ensures Inv(Decide(s, t))
  {
    hide Conserved, Counted, Judged, WorkersAwake, BatchSize;
    CountNonNegative(s);
    BatchFits(s);
    var n := BatchSize(s);
    assert Decide(s, t) == TakeBatch(s, t, n) by { hide TakeBatch; }
    TakenKeeps(s, t, n);
  }

  lemma TakenKeeps(s: State, t: nat, n: nat)
    requires Inv(s) && t < |s.threads| && s.threads[t].Locked? && 1 <= n <= |s.queue|
    ensures Inv(TakeBatch(s, t, n))
  {
    hide Conserved, Counted, Judged, WorkersAwake, Taken, InFlight, Count, AllOk, RoundOk;
    TakeConserves(s, t, n);
    TakeRest(s, t, n);
  }

  lemma TakeRest(s: State, t: nat, n: nat)
    requires Counted(s) && Judged(s) && WorkersAwake(s)
    requires t < |s.threads| && s.threads[t].Locked? && 1 <= n <= |s.queue|
    ensures var s' := TakeBatch(s, t, n); Counted(s') && Judged(s') && WorkersAwake(s')
  {
    var p := Working(Taken(s.queue, n), s.allOk);
    assert |p.batch| == n;
    MoveCounts(s, t, p, s.total, s.idle);
    MoveJudges(s, t, p);
    AwakeStays(s, t, p);
    hide Count, AllOk, Taken;
  }

  lemma DecideKeeps(s: State, t: nat)
    requires Inv(s) && t < |s.threads| && s.threads[t].Locked?
    ensures Inv(Decide(s, t))
  {
    hide Inv, Decide;
    if s.stop {
      StopKeeps(s, t);
    } else if s.queue != [] {
      TakeKeeps(s, t);
    } else if t == MASTER && s.todo == 0 {
      ReturnKeeps(s);
    } else {
      SleepKeeps(s, t);
    }
  }

  lemma SameThreads(s: State, t: nat)
    requires t < |s.threads| && s.threads[t].Working?
    ensures |CleanUp(s, t).threads| == |s.threads|
  {
  }

  lemma TurnKeeps(s: State, t: nat)
    requires Inv(s) && Enabled(s, LoopTurn(t))
    ensures Inv(Turn(s, t))
  {
    hide Inv, Decide, CleanUp;
    if s.threads[t].Working? {
      CleanUpKeeps(s, t);
      assert |CleanUp(s, t).threads| == |s.threads| by { SameThreads(s, t); }
      DecideKeeps(CleanUp(s, t), t);
    } else {
      LockKeeps(s, t);
      var d := if s.threads[t].Woken? then 1 else 0;
      DecideKeeps(SetThread(s, t, Locked).(total := s.total + 1 - d, idle := s.idle - d), t);
    }
  }

  // ---------- the other steps ----------

  lemma AddConserves(s: State, checks: seq<Check>)
    requires Conserved(s) && 0 < |s.threads| && s.threads[MASTER].Outside?
    ensures Conserved(SetThread(s, MASTER, Notifying(|checks| != 1))
              .(queue := s.queue + checks, todo := s.todo + |checks|, added := s.added + multiset(checks)))
  {
    hide InFlight;
    SetKeeps(s.threads, MASTER, Notifying(|checks| != 1));
    assert multiset(s.queue + checks) == multiset(s.queue) + multiset(checks);
    var f := InFlight(s.threads);
    assert multiset(s.queue) + f + s.done + multiset(checks) == (multiset(s.queue) + multiset(checks)) + f + s.done;
  }

  lemma AddKeeps(s: State, checks: seq<Check>)
    requires Inv(s) && s.threads[MASTER].Outside?
    ensures Inv(Apply(s, AddChecks(checks)))
  {
    hide Conserved, Count, AllOk, RoundOk;
    if checks != [] {
      AddConserves(s, checks);
      MoveCounts(s, MASTER, Notifying(|checks| != 1), s.total, s.idle);
      MoveJudges(s, MASTER, Notifying(|checks| != 1));
    }
  }

  lemma WakeAllCounts(s: State)
    requires Conserved(s) && Counted(s) && Judged(s)
    ensures var s' := s.(threads := WakeWorkers(s.threads)); Conserved(s') && Counted(s') && Judged(s')
  {
    var ts := WakeWorkers(s.threads);
    InFlightSame(ts, s.threads);
    CountSame(ts, s.threads, IsIdle);
    CountSame(ts, s.threads, IsInside);
    hide InFlight, Count, AllOk;
  }

  lemma WakeAllKeeps(s: State)
    requires Inv(s)
    ensures Inv(s.(threads := WakeWorkers(s.threads)))
  {
    hide Conserved, Counted, Judged, RoundOk;
    WakeAllCounts(s);
    if s.queue != [] && 1 < |s.threads| { assert !WakeWorkers(s.threads)[1].Sleeping?; }
  }

  lemma LeaveAddKeeps(s: State)
    requires Inv(s) && s.threads[MASTER].Notifying?
    requires 1 < |s.threads| ==> exists t :: 0 < t < |s.threads| && !s.threads[t].Sleeping?
    ensures Inv(SetThread(s, MASTER, Outside))
  {
    hide Conserved, Counted, Judged, RoundOk;
    var s' := SetThread(s, MASTER, Outside);
    MoveKeeps(s, MASTER, Outside, s.total, s.idle);
    if 1 < |s.threads| {
      var t :| 0 < t < |s.threads| && !s.threads[t].Sleeping?;
      assert !s'.threads[t].Sleeping?;
    }
  }

  lemma WakeOneKeeps(s: State, t: nat)
    requires Inv(s) && t < |s.threads| && s.threads[t].Sleeping?
    ensures Inv(SetThread(s, t, Woken))
  {
    hide Conserved, Counted, Judged, RoundOk;
    MoveKeeps(s, t, Woken, s.total, s.idle);
    AwakeStays(s, t, Woken);
  }

  /** The notification is out: whoever sleeps is woken, and if nobody does, somebody is awake. */
  lemma NotifyKeeps(s: State, pick: nat)
    requires Inv(s) && Enabled(s, Notify(pick))
    ensures Inv(Apply(s, Notify(pick)))
  {
    hide Inv;
    if s.threads[MASTER].all {
      WakeAllKeeps(s);
      var s1 := s.(threads := WakeWorkers(s.threads));
      if 1 < |s.threads| { assert !s1.threads[1].Sleeping?; }
      LeaveAddKeeps(s1);
      assert s1.threads[MASTER := Outside] == WakeWorkers(s.threads[MASTER := Outside]);
    } else if 0 < pick < |s.threads| && s.threads[pick].Sleeping? {
      WakeOneKeeps(s, pick);
      var s1 := SetThread(s, pick, Woken);
      assert !s1.threads[pick].Sleeping?;
      LeaveAddKeeps(s1);
      assert s1.threads[MASTER := Outside] == s.threads[MASTER := Outside][pick := Woken];
    } else {
      if 1 < |s.threads| { assert !s.threads[1].Sleeping?; }
      LeaveAddKeeps(s);
    }
  }

  lemma CallKeeps(s: State)
    requires Inv(s) && s.threads[MASTER].Outside?
    ensures Inv(SetThread(s, MASTER, Starting))
  {
    hide Conserved, Counted, Judged, RoundOk;
    MoveKeeps(s, MASTER, Starting, s.total, s.idle);
    AwakeStays(s, MASTER, Starting);
  }

  lemma StepKeeps(s: State, step: Step)
    requires Inv(s) && Enabled(s, step)
    ensures Inv(Apply(s, step))
  {
    match step
    case LoopTurn(t) => TurnKeeps(s, t);
    case AddChecks(checks) => AddKeeps(s, checks);
    case Notify(pick) => NotifyKeeps(s, pick);
    case CallWait => CallKeeps(s);
    case Spurious(t) => WakeOneKeeps(s, t);
    case RequestStop =>
    case NotifyStop => WakeAllKeeps(s);
  }

  // ---------- every run ----------

  lemma {:induction false} InitInFlight(threads: seq<Pc>)
    requires forall k :: 0 <= k < |threads| ==> threads[k].Outside? || threads[k].Starting?
    ensures InFlight(threads) == multiset{} && Count(threads, IsIdle) == 0 && Count(threads, IsInside) == 0
  {
    if threads != [] { InitInFlight(threads[..|threads| - 1]); }
  }

  lemma InitInv(batchSize: nat, workers: nat)
    ensures Inv(Init(batchSize, workers))
  {
    InitInFlight(Init(batchSize, workers).threads);
  }

  ghost predicate CanRun(s: State, steps: seq<Step>)
    decreases |steps|
  {
    steps == [] || (Enabled(s, steps[0]) && CanRun(Apply(s, steps[0]), steps[1..]))
  }

  function Run(s: State, steps: seq<Step>): State
    requires CanRun(s, steps)
    decreases |steps|
  {
    if steps == [] then s else Run(Apply(s, steps[0]), steps[1..])
  }

  lemma {:induction false} RunKeeps(s: State, steps: seq<Step>)
    requires Inv(s) && CanRun(s, steps)
    ensures Inv(Run(s, steps)) && (Unlocked(s.threads) ==> Unlocked(Run(s, steps).threads))
    decreases |steps|
  {
    hide Inv, Apply, Enabled, Unlocked;
    if steps != [] {
      StepKeeps(s, steps[0]);
      if Unlocked(s.threads) { StepUnlocks(s, steps[0]); }
      RunKeeps(Apply(s, steps[0]), steps[1..]);
    }
  }

  /**
    For any number of workers, any batch size and any interleaving: every call of `Wait` that
    returned a verdict returned true exactly if all checks added since the previous one are good,
    and then each of them was evaluated exactly once. At every moment `nTodo` counts what is
    queued or in a batch, and `nIdle` and `nTotal` count threads.
   */
  lemma WaitAnswers(batchSize: nat, workers: nat, steps: seq<Step>)
    requires CanRun(Init(batchSize, workers), steps)
    ensures var s := Run(Init(batchSize, workers), steps);
            && (forall k :: 0 <= k < |s.rounds| ==> RoundOk(s.rounds[k]))
            && Conserved(s) && Counted(s) && Judged(s)
  {
    hide CanRun, Run;
    InitInv(batchSize, workers);
    RunKeeps(Init(batchSize, workers), steps);
  }

  // ---------- nothing added is lost ----------

  /** Everything that the finished rounds account for. */
  function InRounds(rounds: seq<Round>): multiset<Check> {
    if rounds == [] then multiset{} else InRounds(rounds[..|rounds| - 1]) + rounds[|rounds| - 1].added
  }

  function AddedBy(step: Step): multiset<Check> {
    if step.AddChecks? then multiset(step.checks) else multiset{}
  }

  function AddedIn(steps: seq<Step>): multiset<Check> {
    if steps == [] then multiset{} else AddedBy(steps[0]) + AddedIn(steps[1..])
  }

  /** The finished rounds and the current one. */
  function Account(s: State): multiset<Check> { InRounds(s.rounds) + s.added }

  /** The master leaves `Wait`, and the round that ends accounts for all that was added since the last one. */
  predicate RoundEnds(s: State, t: State) {
    && 0 < |t.threads| && t.threads[MASTER].Outside? && t.added == multiset{}
    && |t.rounds| == |s.rounds| + 1 && t.rounds[..|s.rounds|] == s.rounds && t.rounds[|s.rounds|].added == s.added
  }

  /** `s1` is `s` with the batch of `t` cleaned up, or with `t` just within the lock. */
  lemma DecideAccounts(s: State, s1: State, t: nat)
    requires s1.rounds == s.rounds && s1.added == s.added && t < |s1.threads|
    ensures Account(Decide(s1, t)) == Account(s)
    ensures Decide(s1, t).rounds == s.rounds || (t == MASTER && RoundEnds(s, Decide(s1, t)))
  {
    var r := Round(s1.added, s1.ran, s1.allOk);
    assert (s.rounds + [r])[..|s.rounds|] == s.rounds;
  }

  lemma TurnAccounts(s: State, t: nat)
    requires t < |s.threads|
    ensures Account(Turn(s, t)) == Account(s)
    ensures Turn(s, t).rounds == s.rounds || (t == MASTER && RoundEnds(s, Turn(s, t)))
  {
    hide Decide, CleanUp, Account, RoundEnds;
    if s.threads[t].Starting? {
      DecideAccounts(s, SetThread(s, t, Locked).(total := s.total + 1), t);
    } else if s.threads[t].Woken? {
      DecideAccounts(s, SetThread(s, t, Locked).(idle := s.idle - 1), t);
    } else if s.threads[t].Working? {
      CleanUpAccounts(s, t);
      DecideAccounts(s, CleanUp(s, t), t);
    }
  }

  lemma CleanUpAccounts(s: State, t: nat)
    requires t < |s.threads| && s.threads[t].Working?
    ensures var u := CleanUp(s, t); u.rounds == s.rounds && u.added == s.added && |u.threads| == |s.threads|
  {
  }

  /** A round ends only in a turn of the master. */
  lemma StepAccounts(s: State, step: Step)
    requires Enabled(s, step)
    ensures Account(Apply(s, step)) == Account(s) + AddedBy(step)
    ensures Apply(s, step).rounds == s.rounds || (step == LoopTurn(MASTER) && RoundEnds(s, Apply(s, step)))
  {
    hide Turn, InRounds, RoundEnds;
    if step.LoopTurn? { TurnAccounts(s, step.t); }
  }

  /** In every run, the finished rounds and the current one together account for exactly what was added. */
  lemma {:induction false} NothingLost(s: State, steps: seq<Step>)
    requires CanRun(s, steps)
    ensures Account(Run(s, steps)) == Account(s) + AddedIn(steps)
    decreases |steps|
  {
    if steps == [] {
      assert AddedIn([]) == multiset{};
    } else {
      hide Apply, Enabled, Account;
      StepAccounts(s, steps[0]);
      NothingLost(Apply(s, steps[0]), steps[1..]);
    }
  }

  // ---------- nobody sleeps for ever ----------

  predicate InWait(p: Pc) { IsInside(p) || p.Starting? }

  /** Between steps nobody is within a lock section. */
  predicate Unlocked(threads: seq<Pc>) {
    forall t :: 0 <= t < |threads| ==> !threads[t].Locked?
  }

  lemma TurnUnlocks(s: State, t: nat)
    requires Inv(s) && Enabled(s, LoopTurn(t)) && Unlocked(s.threads)
    ensures Unlocked(Turn(s, t).threads)
  {
    hide Inv, Decide, CleanUp;
    var d := if s.threads[t].Woken? then 1 else 0;
    if s.threads[t].Working? {
      CleanUpKeeps(s, t);
      CleanUpUnlocks(s, t);
      DecideUnlocks(CleanUp(s, t), t);
    } else {
      LockKeeps(s, t);
      DecideUnlocks(SetThread(s, t, Locked).(total := s.total + 1 - d, idle := s.idle - d), t);
    }
  }

  lemma CleanUpUnlocks(s: State, t: nat)
    requires t < |s.threads| && s.threads[t].Working? && Unlocked(s.threads)
    ensures |CleanUp(s, t).threads| == |s.threads|
    ensures forall k :: 0 <= k < |s.threads| && k != t ==> !CleanUp(s, t).threads[k].Locked?
  {
    hide Outcome, Ran;
  }

  lemma DecideUnlocks(s: State, t: nat)
    requires Inv(s) && t < |s.threads| && forall k :: 0 <= k < |s.threads| && k != t ==> !s.threads[k].Locked?
    ensures Unlocked(Decide(s, t).threads)
  {
    hide Conserved, Judged, WorkersAwake, RoundOk, BatchSize;
    CountNonNegative(s);
    if s.queue != [] { BatchFits(s); }
  }

  lemma StepUnlocks(s: State, step: Step)
    requires Inv(s) && Enabled(s, step) && Unlocked(s.threads)
    ensures Unlocked(Apply(s, step).threads)
  {
    hide Inv, Turn;
    if step.LoopTurn? { TurnUnlocks(s, step.t); }
  }

  /** While the master waits some thread can take a turn; if the master sleeps, a worker with a batch can. */
  lemma SomeoneCanMove(s: State) returns (t: nat)
    requires Inv(s) && Unlocked(s.threads) && InWait(s.threads[MASTER]) && !s.threads[MASTER].Stopped?
    ensures Enabled(s, LoopTurn(t))
    ensures s.threads[MASTER].Sleeping? ==> t != MASTER && s.threads[t].Working?
  {
    if s.threads[MASTER].Sleeping? {
      assert |InFlight(s.threads)| > 0;
      t := InFlightOf(s.threads);
    } else {
      t := MASTER;
    }
  }

  /** Queued checks still need taking and reporting, batches reporting, and each wake-up a turn. */
  function Rank(s: State): nat {
    3 * |s.queue| + 2 * |InFlight(s.threads)| + Count(s.threads, IsAwake)
  }

  lemma LockRank(s: State, t: nat, total: int, idle: int)
    requires t < |s.threads| && (s.threads[t].Starting? || s.threads[t].Woken?)
    ensures Rank(SetThread(s, t, Locked).(total := total, idle := idle)) == Rank(s) - 1
  {
    SetKeeps(s.threads, t, Locked);
    CountsSet(s.threads, t, Locked);
    hide InFlight, Count;
  }

  lemma CleanUpRank(s: State, t: nat)
    requires Inv(s) && t < |s.threads| && s.threads[t].Working?
    ensures Rank(CleanUp(s, t)) < Rank(s)
  {
    hide InFlight, Count, Outcome, Ran, Inv;
    var s1 := Reported(s, t);
    assert |s.threads[t].batch| >= 1 && Conserved(s) by { BatchesFull(s, t); }
    ReportConserves(s, t);
    CountsSet(s.threads, t, Locked);
    assert Rank(s1) <= Rank(s) - 2;
    if s1.todo == 0 && t != MASTER && s1.threads[MASTER].Sleeping? {
      SetKeeps(s1.threads, MASTER, Woken);
      CountsSet(s1.threads, MASTER, Woken);
      assert CleanUp(s, t) == SetThread(s1, MASTER, Woken);
    } else {
      assert CleanUp(s, t) == s1;
    }
  }

  lemma BatchesFull(s: State, t: nat)
    requires Inv(s) && t < |s.threads| && s.threads[t].Working?
    ensures |s.threads[t].batch| >= 1 && Conserved(s)
  {
  }

  lemma DecideRank(s: State, t: nat)
    requires Inv(s) && t < |s.threads| && s.threads[t].Locked?
    ensures Rank(Decide(s, t)) <= Rank(s)
  {
    hide Inv, InFlight, Count, BatchSize, TakeBatch;
    if s.queue == [] && !s.stop {
      var p := if t == MASTER && s.todo == 0 then Outside else Sleeping;
      SetKeeps(s.threads, t, p);
      CountsSet(s.threads, t, p);
    } else if s.stop {
      SetKeeps(s.threads, t, Stopped);
      CountsSet(s.threads, t, Stopped);
    } else if s.total + s.idle + 1 > 0 && BatchSize(s) <= |s.queue| {
      TakeRank(s, t, BatchSize(s));
    }
  }

  lemma TakeRank(s: State, t: nat, n: nat)
    requires Inv(s) && t < |s.threads| && s.threads[t].Locked? && n <= |s.queue|
    ensures Rank(TakeBatch(s, t, n)) <= Rank(s)
  {
    TakeConserves(s, t, n);
    TakenIs(s.queue, n);
    CountsSet(s.threads, t, Working(Taken(s.queue, n), s.allOk));
    hide InFlight, Count, Inv, Taken;
  }

  lemma TurnRank(s: State, t: nat)
    requires Inv(s) && Enabled(s, LoopTurn(t))
    ensures Rank(Turn(s, t)) < Rank(s)
  {
    hide Inv, Decide, CleanUp, Rank;
    if s.threads[t].Working? {
      CleanUpKeeps(s, t);
      CleanUpRank(s, t);
      assert |CleanUp(s, t).threads| == |s.threads| by { SameThreads(s, t); }
      DecideRank(CleanUp(s, t), t);
    } else {
      LockKeeps(s, t);
      var d := if s.threads[t].Woken? then 1 else 0;
      LockRank(s, t, s.total + 1 - d, s.idle - d);
      DecideRank(SetThread(s, t, Locked).(total := s.total + 1 - d, idle := s.idle - d), t);
    }
  }

  predicate OnlyTurns(steps: seq<Step>) {
    forall k :: 0 <= k < |steps| ==> steps[k].LoopTurn?
  }

  /**
    Threads left to themselves take at most `Rank` turns, whatever the schedule. While the master is
    in `Wait` a turn is always possible, so under every schedule `Wait` returns.
   */
  lemma {:induction false} WaitEnds(s: State, steps: seq<Step>)
    requires Inv(s) && Unlocked(s.threads) && CanRun(s, steps) && OnlyTurns(steps)
    ensures Inv(Run(s, steps)) && |steps| + Rank(Run(s, steps)) <= Rank(s)
    ensures var p := Run(s, steps).threads[MASTER];
            InWait(p) && !p.Stopped? ==> exists t: nat :: Enabled(Run(s, steps), LoopTurn(t))
    decreases |steps|
  {
    if steps == [] {
      if InWait(s.threads[MASTER]) && !s.threads[MASTER].Stopped? { var t := SomeoneCanMove(s); }
    } else {
      hide Inv, Apply, Enabled, Rank, InWait, Unlocked;
      StepKeeps(s, steps[0]);
      StepUnlocks(s, steps[0]);
      TurnRank(s, steps[0].t);
      assert Apply(s, steps[0]) == Turn(s, steps[0].t) by { TurnApplies(s, steps[0].t); }
      WaitEnds(Apply(s, steps[0]), steps[1..]);
    }
  }

  lemma TurnApplies(s: State, t: nat)
    requires Enabled(s, LoopTurn(t))
    ensures Apply(s, LoopTurn(t)) == Turn(s, t)
  {
  }
}
