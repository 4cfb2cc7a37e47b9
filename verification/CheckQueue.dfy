/**
  The check queue (src/checkqueue.h): a master adds checks, workers and the master evaluate them in
  batches. The model is a state machine whose steps are the sections of `Loop`, `Add` and
  `StopWorkerThreads` that run under the lock, and the notifications sent outside it; a run is any
  interleaving of them.
 */
module CheckQueue {

  /** A check and what evaluating it returns. */
  datatype Check = Check(name: nat, ok: bool)

  /** Where a thread stands between two lock sections. */
  datatype Pc =
    | Outside                                        // the master, between calls
    | Notifying(all: bool)                           // the master, in `Add` after releasing the lock
    | Starting                                       // has called `Loop`, not yet locked
    | Sleeping                                       // waits on its condition variable
    | Woken                                          // notified or spuriously woken, not yet locked
    | Locked                                         // within a lock section of `Loop`
    | Working(batch: seq<Check>, startOk: bool)      // evaluates a batch, outside the lock
    | Stopped                                        // left `Loop` because of a stop request

  /** A finished round: what was added, what was evaluated, and what `Wait` returned. */
  datatype Round = Round(added: multiset<Check>, ran: multiset<Check>, result: bool)

  /**
    Thread 0 is the master. The last four fields are history: what was added, completed and
    evaluated in this round, and the rounds before it.
   */
  datatype State = State(batchSize: nat, queue: seq<Check>, idle: int, total: int, allOk: bool, todo: int, stop: bool,
                         threads: seq<Pc>,
                         added: multiset<Check>, done: multiset<Check>, ran: multiset<Check>, rounds: seq<Round>)

  const MASTER := 0

  function Init(batchSize: nat, workers: nat): State {
    State(batchSize, [], 0, 0, true, 0, false,
          [Outside] + seq(workers, _ => Starting),
          multiset{}, multiset{}, multiset{}, [])
  }

  // ---------- evaluating a batch ----------

  /** `for (T& check : vChecks) if (fOk) fOk = check();`, on the first `n` checks. */
  function Outcome(batch: seq<Check>, startOk: bool, n: nat): bool
    requires n <= |batch|
  {
    if n == 0 then startOk
    else
      var ok := Outcome(batch, startOk, n - 1);
      if ok then batch[n - 1].ok else ok
  }

  /** The checks that this evaluates. */
  function Ran(batch: seq<Check>, startOk: bool, n: nat): multiset<Check>
    requires n <= |batch|
  {
    if n == 0 then multiset{}
    else Ran(batch, startOk, n - 1) + if Outcome(batch, startOk, n - 1) then multiset{batch[n - 1]} else multiset{}
  }

  // ---------- the lock sections ----------

  function Clamp(x: nat, limit: nat): nat {
    var low := if x < limit then x else limit;
    if low < 1 then 1 else low
  }

  function BatchSize(s: State): nat
    requires s.total + s.idle + 1 > 0
  {
    Clamp(|s.queue| / (s.total + s.idle + 1), s.batchSize)
  }

  /** The last `n` checks of the queue, last first. */
  function Taken(queue: seq<Check>, n: nat): seq<Check>
    requires n <= |queue|
  {
    seq(n, k requires 0 <= k < n => queue[|queue| - 1 - k])
  }

  function SetThread(s: State, t: nat, p: Pc): State
    requires t < |s.threads|
  {
    s.(threads := s.threads[t := p])
  }

  function TakeBatch(s: State, t: nat, n: nat): State
    requires t < |s.threads| && n <= |s.queue|
  {
    SetThread(s, t, Working(Taken(s.queue, n), s.allOk)).(queue := s.queue[..|s.queue| - n])
  }

  /**
    From the inner `while` of `Loop` to the end of the lock section, for thread `t`. The two
    branches that change nothing cannot be reached.
   */
  function Decide(s: State, t: nat): State
    requires t < |s.threads|
  {
    if s.queue == [] && !s.stop then
      if t == MASTER && s.todo == 0 then
        SetThread(s, t, Outside).(total := s.total - 1, allOk := true,
          added := multiset{}, done := multiset{}, ran := multiset{},
          rounds := s.rounds + [Round(s.added, s.ran, s.allOk)])
      else SetThread(s, t, Sleeping).(idle := s.idle + 1)
    else if s.stop then SetThread(s, t, Stopped)
    else if s.total + s.idle + 1 <= 0 then s
    else
      var n := BatchSize(s);
      if n > |s.queue| then s else TakeBatch(s, t, n)
  }

  /** The clean-up of the previous batch of thread `t`. */
  function CleanUp(s: State, t: nat): State
    requires t < |s.threads| && s.threads[t].Working?
  {
    var batch, startOk := s.threads[t].batch, s.threads[t].startOk;
    var s1 := s.(allOk := s.allOk && Outcome(batch, startOk, |batch|), todo := s.todo - |batch|,
                 done := s.done + multiset(batch), ran := s.ran + Ran(batch, startOk, |batch|),
                 threads := s.threads[t := Locked]);
    if s1.todo == 0 && t != MASTER && s1.threads[MASTER].Sleeping? then SetThread(s1, MASTER, Woken) else s1
  }

  /** One lock section of `Loop`. */
  function Turn(s: State, t: nat): State
    requires t < |s.threads|
  {
    match s.threads[t]
    case Starting => Decide(SetThread(s, t, Locked).(total := s.total + 1), t)
    case Woken => Decide(SetThread(s, t, Locked).(idle := s.idle - 1), t)
    case Working(_, _) => Decide(CleanUp(s, t), t)
    case _ => s
  }

  function WakeWorkers(threads: seq<Pc>): seq<Pc> {
    seq(|threads|, k requires 0 <= k < |threads| => if k != MASTER && threads[k].Sleeping? then Woken else threads[k])
  }

  datatype Step =
    | LoopTurn(t: nat)                 // a lock section of `Loop`
    | AddChecks(checks: seq<Check>)    // the lock section of `Add`
    | Notify(pick: nat)                // the notification of `Add`; `pick` is who gets a single one
    | CallWait                         // the master enters `Loop`
    | Spurious(t: nat)                 // a condition variable wakes without cause
    | RequestStop                      // the lock section of `StopWorkerThreads`
    | NotifyStop                       // its notification

  predicate Enabled(s: State, step: Step) {
    && 0 < |s.threads|
    && match step
       case LoopTurn(t) => t < |s.threads| && (s.threads[t].Starting? || s.threads[t].Woken? || s.threads[t].Working?)
       case AddChecks(_) => s.threads[MASTER].Outside?
       case Notify(pick) =>
         && s.threads[MASTER].Notifying?
         && (!s.threads[MASTER].all && (exists k :: 0 < k < |s.threads| && s.threads[k].Sleeping?) ==>
               0 < pick < |s.threads| && s.threads[pick].Sleeping?)
       case CallWait => s.threads[MASTER].Outside?
       case Spurious(t) => t < |s.threads| && s.threads[t].Sleeping?
       case RequestStop => true
       case NotifyStop => s.stop
  }

  function Apply(s: State, step: Step): State
    requires Enabled(s, step)
  {
    match step
    case LoopTurn(t) => Turn(s, t)
    case AddChecks(checks) =>
      if checks == [] then s
      else SetThread(s, MASTER, Notifying(|checks| != 1))
           .(queue := s.queue + checks, todo := s.todo + |checks|, added := s.added + multiset(checks))
    case Notify(pick) =>
      var s1 := SetThread(s, MASTER, Outside);
      if s.threads[MASTER].all then s1.(threads := WakeWorkers(s1.threads))
      else if 0 < pick < |s.threads| && s.threads[pick].Sleeping? then SetThread(s1, pick, Woken)
      else s1
    case CallWait => SetThread(s, MASTER, Starting)
    case Spurious(t) => SetThread(s, t, Woken)
    case RequestStop => s.(stop := true)
    case NotifyStop => s.(threads := WakeWorkers(s.threads))
  }

  // ---------- the loops ----------

  /** Moving a batch off the queue, one check at a time from the back. */
  method MoveBatch(queue: seq<Check>, n: nat) returns (batch: seq<Check>, rest: seq<Check>)
    requires n <= |queue|
    ensures batch == Taken(queue, n) && rest == queue[..|queue| - n]
  {
    batch, rest := [], queue;
    for i := 0 to n
      invariant rest == queue[..|queue| - i] && batch == Taken(queue, i)
    {
      batch := batch + [rest[|rest| - 1]];
      rest := rest[..|rest| - 1];
    }
  }

  /** Evaluating a batch outside the lock; `evaluated` records which checks are called. */
  method Evaluate(batch: seq<Check>, startOk: bool) returns (ok: bool, evaluated: multiset<Check>)
    ensures ok == Outcome(batch, startOk, |batch|) && evaluated == Ran(batch, startOk, |batch|)
  {
    ok, evaluated := startOk, multiset{};
    for i := 0 to |batch|
      invariant ok == Outcome(batch, startOk, i) && evaluated == Ran(batch, startOk, i)
    {
      if ok {
        evaluated := evaluated + multiset{batch[i]};
        ok := batch[i].ok;
      }
    }
  }
}
