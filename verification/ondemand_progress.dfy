/**
 Progress of the single-flight coordinator: when `FetchOnce` always returns or
 panics, the threads of any run make at most as many moves as the callers and
 closers that arrive bring along, however clock ticks and cancellations fall in
 between, and they can only stop in a state where every caller has its answer,
 every goroutine has exited and every `Close` has returned. No fairness is assumed.
 */
module OnDemandProgress {
  import opened Wrappers
  import opened OnDemandModel
  import opened OnDemandSafety

  // ---- the measure ----

  function CallerWork(c: Caller): nat {
    match c.pc
    case Fresh => 11
    case WantsLock => 10
    case Locked => 9
    case Spawning(_, _) => 8
    case Waiting(_, _) => 1
    case Returned(_) => 0
  }

  function FetchWork(f: Fetch): nat {
    match f.pc
    case Created => 5
    case Running => 4
    case Unwinding(_) => 3
    case Publishing(_) => 2
    case Published => 1
    case Exited => 0
  }

  function CloserWork(c: CloserPc): nat {
    match c
    case Entering => 3
    case Closing => 2
    case Draining => 1
    case Closed => 0
  }

  function Total<T>(work: T -> nat, threads: seq<T>): nat {
    if threads == [] then 0 else work(threads[0]) + Total(work, threads[1..])
  }

  /** The moves the threads of `s` still have in them. */
  function Work(s: State): nat {
    Total(CallerWork, s.callers) + Total(FetchWork, s.fetches) + Total(CloserWork, s.closers)
  }

  lemma {:induction false} TotalUpdate<T>(work: T -> nat, threads: seq<T>, i: nat, t: T)
    requires i < |threads|
    ensures Total(work, threads[i := t]) + work(threads[i]) == Total(work, threads) + work(t)
  {
    if i > 0 {
      assert threads[i := t][1..] == threads[1..][i - 1 := t];
      TotalUpdate(work, threads[1..], i - 1, t);
    }
  }

  lemma {:induction false} TotalAppend<T>(work: T -> nat, threads: seq<T>, t: T)
    ensures Total(work, threads + [t]) == Total(work, threads) + work(t)
  {
    if threads != [] {
      assert (threads + [t])[1..] == threads[1..] + [t];
      TotalAppend(work, threads[1..], t);
    }
  }

  lemma CallerStepUsesWork(s: State, t: Step)
    requires Enabled(s, t)
    requires t.CheckCtx? || t.Lock? || t.Judge? || t.Spawn? || t.WakeDone? || t.WakeCancel?
    ensures Work(Apply(s, t)) < Work(s)
  {
    var s' := Apply(s, t);
    TotalUpdate(CallerWork, s.callers, t.i, s'.callers[t.i]);
    if t.Spawn? {
      TotalAppend(FetchWork, s.fetches, s'.fetches[|s.fetches|]);
    }
  }

  /** Every move that is not the environment's uses up work, whatever the state. */
  lemma StepUsesWork(s: State, t: Step)
    requires Enabled(s, t) && !Environment(t)
    ensures Work(Apply(s, t)) < Work(s)
  {
    var s' := Apply(s, t);
    if t.CloseLock? || t.CloseBody? || t.CloseReturn? {
      TotalUpdate(CloserWork, s.closers, t.k, s'.closers[t.k]);
    } else if t.Begin? || t.Finish? || t.FetchLock? || t.PublishStep? || t.WgDone? {
      TotalUpdate(FetchWork, s.fetches, t.g, s'.fetches[t.g]);
    } else {
      CallerStepUsesWork(s, t);
    }
  }

  /** The work an environment step brings: a new caller has eleven moves in it, a new closer three. */
  function Brought(t: Step): nat {
    match t
    case Arrive => 11
    case CloseArrive => 3
    case _ => 0
  }

  /** Clock ticks and cancellations bring no work. */
  lemma EnvironmentWork(s: State, t: Step)
    requires Enabled(s, t) && Environment(t)
    ensures Work(Apply(s, t)) == Work(s) + Brought(t)
  {
    match t
    case Arrive => TotalAppend(CallerWork, s.callers, Caller(s.now, false, Fresh));
    case CloseArrive => TotalAppend(CloserWork, s.closers, Entering);
    case CancelCtx(i) => TotalUpdate(CallerWork, s.callers, i, s.callers[i].(cancelled := true));
    case Tick(_) =>
  }

  /** The moves threads make in a run. */
  function Moves(run: seq<Step>): nat {
    if run == [] then 0 else (if Environment(run[0]) then 0 else 1) + Moves(run[1..])
  }

  function BroughtBy(run: seq<Step>): nat {
    if run == [] then 0 else Brought(run[0]) + BroughtBy(run[1..])
  }

  /** In any run, whatever arrives, is cancelled or passes in time, the threads never make more moves
      than the work at the start and the work brought along allow. */
  lemma {:induction false} MovesAreBounded(s: State, run: seq<Step>)
    requires ValidRun(s, run)
    ensures Moves(run) + Work(Exec(s, run)) <= Work(s) + BroughtBy(run)
    decreases |run|
  {
    if run != [] {
      if Environment(run[0]) {
        EnvironmentWork(s, run[0]);
      } else {
        StepUsesWork(s, run[0]);
      }
      MovesAreBounded(Apply(s, run[0]), run[1..]);
    }
  }

  // ---- no deadlock ----

  ghost predicate Quiescent(s: State) {
    forall t | Enabled(s, t) :: Environment(t)
  }

  ghost predicate AllDone(s: State) {
    && (forall i | 0 <= i < |s.callers| :: s.callers[i].pc.Returned?)
    && (forall g | 0 <= g < |s.fetches| :: s.fetches[g].pc.Exited?)
    && (forall k | 0 <= k < |s.closers| :: s.closers[k].Closed?)
    && (forall c | 0 <= c < |s.shared.calls| :: s.shared.calls[c].Done())
    && s.shared.inflight.None?
    && s.shared.wg == 0
    && s.mu.Free?
  }

  lemma QuiescentMutexFree(s: State)
    requires Inv(s) && Quiescent(s)
    ensures s.mu.Free?
  {
    assert s.mu.ByCaller? ==> Enabled(s, Judge(s.mu.i));
    assert s.mu.ByFetch? ==> Enabled(s, PublishStep(s.mu.g));
    assert s.mu.ByCloser? ==> Enabled(s, CloseBody(s.mu.k));
  }

  lemma QuiescentFetchesExited(s: State)
    requires Inv(s) && Quiescent(s)
    ensures forall g | 0 <= g < |s.fetches| :: s.fetches[g].pc.Exited?
  {
    QuiescentMutexFree(s);
    forall g | 0 <= g < |s.fetches|
      ensures s.fetches[g].pc.Exited?
    {
      assert !Enabled(s, Begin(g)) && !Enabled(s, Finish(g, None));
      assert !Enabled(s, FetchLock(g)) && !Enabled(s, PublishStep(g)) && !Enabled(s, WgDone(g));
    }
  }

  lemma QuiescentCallsDone(s: State)
    requires Inv(s) && Quiescent(s)
    ensures |s.fetches| == |s.shared.calls| && s.shared.inflight.None? && s.shared.wg == 0
  {
    QuiescentFetchesExited(s);
    if |s.fetches| < |s.shared.calls| {
      var i :| 0 <= i < |s.callers| && s.callers[i].pc.Spawning?;
      assert Enabled(s, Spawn(i));
      assert false;
    }
    assert LiveFetches(s.fetches) == {};
    assert forall g | 0 <= g < |s.fetches| :: s.shared.calls[g].Done();
  }

  lemma QuiescentCallersReturned(s: State)
    requires Inv(s) && Quiescent(s)
    ensures forall i | 0 <= i < |s.callers| :: s.callers[i].pc.Returned?
  {
    QuiescentMutexFree(s);
    QuiescentCallsDone(s);
    forall i | 0 <= i < |s.callers|
      ensures s.callers[i].pc.Returned?
    {
      assert !Enabled(s, CheckCtx(i)) && !Enabled(s, Lock(i)) && !Enabled(s, Judge(i));
      assert !Enabled(s, Spawn(i)) && !Enabled(s, WakeDone(i));
      assert CallerInv(s.callers[i], s.shared.calls, s.minInterval, s.now, s.shared.closed);
    }
  }

  lemma QuiescentClosersReturned(s: State)
    requires Inv(s) && Quiescent(s)
    ensures forall k | 0 <= k < |s.closers| :: s.closers[k].Closed?
  {
    QuiescentMutexFree(s);
    QuiescentCallsDone(s);
    forall k | 0 <= k < |s.closers|
      ensures s.closers[k].Closed?
    {
      assert !Enabled(s, CloseLock(k)) && !Enabled(s, CloseBody(k)) && !Enabled(s, CloseReturn(k));
    }
  }

  /** Where a run can stop, nobody is left waiting. */
  lemma NoDeadlock(s: State)
    requires Reachable(s) && Quiescent(s)
    ensures AllDone(s)
  {
    ReachableInv(s);
    QuiescentMutexFree(s);
    QuiescentFetchesExited(s);
    QuiescentCallsDone(s);
    QuiescentCallersReturned(s);
    QuiescentClosersReturned(s);
  }

  // ---- what the protocol does allow ----

  ghost predicate Idle(s: State) {
    Reachable(s) && s.minInterval == 0 && s.mu.Free? && s.shared.inflight.None? && !s.shared.closed
  }

  /** A new caller of an idle coordinator passes the check and starts a call. */
  lemma Start(s: State) returns (s': State)
    requires Idle(s)
    ensures Reachable(s') && s'.minInterval == 0 && s'.mu.Free? && !s'.shared.closed
    ensures s'.fetches == s.fetches && |s'.callers| == |s.callers| + 1 && |s'.shared.calls| == |s.shared.calls| + 1
    ensures s'.callers[|s.callers|].pc == Spawning(|s.shared.calls|, s.now)
  {
    var i := |s.callers|;
    ReachableStep(s, Arrive); s' := Apply(s, Arrive);
    ReachableStep(s', CheckCtx(i)); s' := Apply(s', CheckCtx(i));
    ReachableStep(s', Lock(i)); s' := Apply(s', Lock(i));
    ReachableStep(s', Judge(i)); s' := Apply(s', Judge(i));
  }

  lemma TakeOff(s: State) returns (s': State)
    requires Idle(s)
    ensures Reachable(s') && s'.minInterval == 0 && s'.mu.Free? && !s'.shared.closed
    ensures s'.fetches == s.fetches + [Fetch(|s.shared.calls|, Running)]
    ensures |s'.shared.calls| == |s.shared.calls| + 1
  {
    s' := Start(s);
    ReachableStep(s', Spawn(|s.callers|)); s' := Apply(s', Spawn(|s.callers|));
    ReachableStep(s', Begin(|s.fetches|)); s' := Apply(s', Begin(|s.fetches|));
  }

  lemma Land(s: State, g: nat) returns (s': State)
    requires Reachable(s) && s.minInterval == 0 && s.mu.Free? && !s.shared.closed
    requires g < |s.fetches| && s.fetches[g].pc.Running? && s.fetches[g].call < |s.shared.calls|
    ensures Idle(s') && s'.fetches == s.fetches[g := Fetch(s.fetches[g].call, Published)]
    ensures |s'.shared.calls| == |s.shared.calls|
  {
    ReachableStep(s, Finish(g, None)); s' := Apply(s, Finish(g, None));
    ReachableStep(s', FetchLock(g)); s' := Apply(s', FetchLock(g));
    ReachableStep(s', PublishStep(g)); s' := Apply(s', PublishStep(g));
  }

  /** The deferred block runs before `wg.Done`, so a second goroutine can be fetching while the
      first is still counted: only the `FetchOnce` bodies exclude each other, not the goroutines. */
  lemma TwoGoroutinesCanBeAlive() returns (s: State)
    ensures Reachable(s)
    ensures s.fetches == [Fetch(0, Published), Fetch(1, Running)]
    ensures |LiveFetches(s.fetches)| == 2
  {
    s := Init(0, 0);
    assert ReachedBy(s, 0, []);
    s := TakeOff(s);
    s := Land(s, 0);
    s := TakeOff(s);
    assert LiveFetches(s.fetches) == {0, 1};
  }
}
