/**
 Safety of the single-flight coordinator over every run: mutual exclusion of
 `FetchOnce`, no orphaned waiter, exact wait-group accounting, shutdown,
 coalescing, and the invisibility of impatient callers.
 */
module OnDemandSafety {
  import opened Wrappers
  import opened OnDemandModel

  // ---- the invariant ----

  ghost predicate MutexInv(mu: Mutex, callers: seq<Caller>, fetches: seq<Fetch>, closers: seq<CloserPc>) {
    && (mu.ByCaller? ==> mu.i < |callers|)
    && (mu.ByFetch? ==> mu.g < |fetches|)
    && (mu.ByCloser? ==> mu.k < |closers|)
    && (forall i | 0 <= i < |callers| :: callers[i].pc.Locked? <==> mu == ByCaller(i))
    && (forall g | 0 <= g < |fetches| :: fetches[g].pc.Publishing? <==> mu == ByFetch(g))
    && (forall k | 0 <= k < |closers| :: closers[k].Closing? <==> mu == ByCloser(k))
  }

  /** Every call but the one in flight is finished; goroutine `g` serves call `g`. */
  ghost predicate FlightInv(sh: Shared, fetches: seq<Fetch>) {
    && (sh.inflight.Some? ==> sh.inflight.value == |sh.calls| - 1)
    && (forall c | 0 <= c < |sh.calls| ::
          && sh.calls[c].closes == sh.calls[c].writes
          && sh.calls[c].closes == (if sh.inflight == Some(c) then 0 else 1))
    && |sh.calls| - 1 <= |fetches| <= |sh.calls|
    && (|fetches| < |sh.calls| ==> sh.inflight.Some?)
    && (forall g | 0 <= g < |fetches| ::
          && fetches[g].call == g
          && (sh.calls[g].Done() <==> fetches[g].pc.Published? || fetches[g].pc.Exited?))
  }

  /** A call without goroutine belongs to the one caller about to execute `go o.fetch(c)`. */
  ghost predicate SpawnInv(callers: seq<Caller>, calls: nat, fetches: nat) {
    && (fetches < calls ==> exists i :: 0 <= i < |callers| && callers[i].pc.Spawning?)
    && (forall i | 0 <= i < |callers| && callers[i].pc.Spawning? ::
          fetches < calls && callers[i].pc.call == fetches)
    && (forall i, j | 0 <= i < |callers| && 0 <= j < |callers| &&
                      callers[i].pc.Spawning? && callers[j].pc.Spawning? :: i == j)
  }

  ghost function LiveFetches(fetches: seq<Fetch>): set<nat> {
    set g | 0 <= g < |fetches| && !fetches[g].pc.Exited?
  }

  ghost predicate WaitGroupInv(wg: int, fetches: seq<Fetch>, calls: nat) {
    wg == |LiveFetches(fetches)| + calls - |fetches|
  }

  ghost predicate ShutdownInv(sh: Shared, closers: seq<CloserPc>) {
    && (sh.fetchCtx.NoCtx? <==> sh.calls == [])
    && (sh.fetchCtx.Cancelled? ==> sh.closed)
    && (sh.closed ==> !sh.fetchCtx.Live?)
    && (forall k | 0 <= k < |closers| ::
          && (closers[k].Draining? || closers[k].Closed? ==> sh.closed)
          && (closers[k].Closed? ==> sh.wg == 0))
  }

  /** The finished call with the highest number, if any. */
  ghost function Latest(sh: Shared): int {
    |sh.calls| - 1 - (if sh.inflight.Some? then 1 else 0)
  }

  ghost predicate TimesInv(calls: seq<Call>, now: Time) {
    forall c | 0 <= c < |calls| ::
      && calls[c].startedAt <= now
      && (calls[c].Done() ==> calls[c].startedAt <= calls[c].doneAt <= now)
  }

  ghost predicate Spaced(calls: seq<Call>, c: nat, minInterval: int)
    requires 0 < c < |calls|
  {
    && calls[c].startedAt >= calls[c - 1].doneAt
    && calls[c].startedAt - calls[c - 1].doneAt >= minInterval
  }

  ghost predicate SpacedInv(calls: seq<Call>, minInterval: int) {
    forall c | 0 < c < |calls| :: Spaced(calls, c, minInterval)
  }

  ghost predicate LatestInv(sh: Shared) {
    && -1 <= Latest(sh)
    && (Latest(sh) == -1 ==> sh.lastDone.None?)
    && (Latest(sh) >= 0 ==>
          && sh.lastDone == Some(sh.calls[Latest(sh)].doneAt)
          && sh.lastErr == sh.calls[Latest(sh)].err)
  }

  /** An answer is the result of one finished call: either it finished after the caller's locked
      check, or it was the latest one at that check and less than `minInterval` old. */
  ghost predicate Justified(calls: seq<Call>, minInterval: int, enteredAt: Time, err: Err, call: nat, checkedAt: Time) {
    && call < |calls|
    && calls[call].Done()
    && err == calls[call].err
    && enteredAt <= checkedAt
    && (|| checkedAt <= calls[call].doneAt
        || (&& calls[call].doneAt <= checkedAt < calls[call].doneAt + minInterval
            && (call + 1 < |calls| ==> checkedAt <= calls[call + 1].startedAt)))
  }

  ghost predicate CallerInv(c: Caller, calls: seq<Call>, minInterval: int, now: Time, closed: bool) {
    && c.enteredAt <= now
    && match c.pc
       case Waiting(call, at) =>
         && call < |calls|
         && c.enteredAt <= at <= now
         && (calls[call].Done() ==> at <= calls[call].doneAt)
       case Spawning(call, at) => c.enteredAt <= at <= now
       case Returned(Answer(err, call, at)) => at <= now && Justified(calls, minInterval, c.enteredAt, err, call, at)
       case Returned(CtxErr) => c.cancelled
       case Returned(Shutdown) => closed
       case _ => true
  }

  ghost predicate CallersInv(callers: seq<Caller>, calls: seq<Call>, minInterval: int, now: Time, closed: bool) {
    forall i | 0 <= i < |callers| :: CallerInv(callers[i], calls, minInterval, now, closed)
  }

  ghost predicate Inv(s: State) {
    && MutexInv(s.mu, s.callers, s.fetches, s.closers)
    && FlightInv(s.shared, s.fetches)
    && SpawnInv(s.callers, |s.shared.calls|, |s.fetches|)
    && WaitGroupInv(s.shared.wg, s.fetches, |s.shared.calls|)
    && ShutdownInv(s.shared, s.closers)
    && TimesInv(s.shared.calls, s.now)
    && SpacedInv(s.shared.calls, s.minInterval)
    && LatestInv(s.shared)
    && CallersInv(s.callers, s.shared.calls, s.minInterval, s.now, s.shared.closed)
  }

  // ---- one step ----

  /** A goroutine that moves without exiting leaves the live set alone. */
  lemma LiveUnchanged(fetches: seq<Fetch>, g: nat, pc: FetchPc)
    requires g < |fetches| && (fetches[g].pc.Exited? <==> pc.Exited?)
    ensures LiveFetches(fetches[g := fetches[g].(pc := pc)]) == LiveFetches(fetches)
  {
  }

  lemma LiveAfterExit(fetches: seq<Fetch>, g: nat)
    requires g < |fetches| && !fetches[g].pc.Exited?
    ensures |LiveFetches(fetches[g := fetches[g].(pc := Exited)])| == |LiveFetches(fetches)| - 1
  {
    assert LiveFetches(fetches[g := fetches[g].(pc := Exited)]) == LiveFetches(fetches) - {g};
  }

  lemma LiveAfterSpawn(fetches: seq<Fetch>, call: nat)
    ensures |LiveFetches(fetches + [Fetch(call, Created)])| == |LiveFetches(fetches)| + 1
  {
    var grown := fetches + [Fetch(call, Created)];
    assert forall g | 0 <= g < |fetches| :: grown[g] == fetches[g];
    assert grown[|fetches|].pc == Created;
    assert LiveFetches(grown) == LiveFetches(fetches) + {|fetches|};
  }

  lemma JudgeKeepsCallers(s: State, i: nat)
    requires Inv(s) && Enabled(s, Judge(i))
    ensures var s' := Apply(s, Judge(i)); CallersInv(s'.callers, s'.shared.calls, s.minInterval, s.now, s'.shared.closed)
  {
    var s' := Apply(s, Judge(i));
    assert s.shared.calls <= s'.shared.calls;
    forall j | 0 <= j < |s'.callers|
      ensures CallerInv(s'.callers[j], s'.shared.calls, s.minInterval, s.now, s'.shared.closed)
    {
      assert CallerInv(s.callers[j], s.shared.calls, s.minInterval, s.now, s.shared.closed);
      if j != i {
        assert s'.callers[j] == s.callers[j];
      }
    }
  }

  lemma JudgeKeepsSpacing(s: State, i: nat)
    requires Inv(s) && Enabled(s, Judge(i))
    ensures SpacedInv(Apply(s, Judge(i)).shared.calls, s.minInterval)
  {
    var calls := Apply(s, Judge(i)).shared.calls;
    forall c | 0 < c < |calls|
      ensures Spaced(calls, c, s.minInterval)
    {
      assert c < |s.shared.calls| ==> Spaced(s.shared.calls, c, s.minInterval);
    }
  }

  lemma JudgeKeepsInv(s: State, i: nat)
    requires Inv(s) && Enabled(s, Judge(i))
    ensures Inv(Apply(s, Judge(i)))
  {
    JudgeKeepsCallers(s, i);
    JudgeKeepsSpacing(s, i);
  }

  lemma SpawnKeepsInv(s: State, i: nat)
    requires Inv(s) && Enabled(s, Spawn(i))
    ensures Inv(Apply(s, Spawn(i)))
  {
    LiveAfterSpawn(s.fetches, s.callers[i].pc.call);
  }

  lemma ArrivalKeepsInv(s: State, t: Step)
    requires Inv(s) && Enabled(s, t) && (t.Arrive? || t.CloseArrive?)
    ensures Inv(Apply(s, t))
  {
  }

  lemma CancelKeepsInv(s: State, i: nat)
    requires Inv(s) && Enabled(s, CancelCtx(i))
    ensures Inv(Apply(s, CancelCtx(i)))
  {
  }

  lemma TickKeepsInv(s: State, dt: nat)
    requires Inv(s)
    ensures Inv(Apply(s, Tick(dt)))
  {
  }

  lemma CheckCtxKeepsInv(s: State, i: nat)
    requires Inv(s) && Enabled(s, CheckCtx(i))
    ensures Inv(Apply(s, CheckCtx(i)))
  {
  }

  lemma LockKeepsInv(s: State, i: nat)
    requires Inv(s) && Enabled(s, Lock(i))
    ensures Inv(Apply(s, Lock(i)))
  {
  }

  lemma WakeKeepsInv(s: State, t: Step)
    requires Inv(s) && Enabled(s, t)
    requires t.WakeDone? || t.WakeCancel?
    ensures Inv(Apply(s, t))
  {
  }

  lemma FetchMoveKeepsInv(s: State, g: nat, pc: FetchPc)
    requires Inv(s) && g < |s.fetches|
    requires s.fetches[g].pc.Created? || s.fetches[g].pc.Running?
    requires pc.Running? || pc.Unwinding?
    ensures Inv(SetFetch(s, g, pc))
  {
    LiveUnchanged(s.fetches, g, pc);
  }

  lemma FetchLockKeepsInv(s: State, g: nat)
    requires Inv(s) && Enabled(s, FetchLock(g))
    ensures Inv(Apply(s, FetchLock(g)))
  {
    LiveUnchanged(s.fetches, g, Publishing(s.fetches[g].pc.err));
  }

  lemma PublishKeepsCallers(s: State, g: nat)
    requires Inv(s) && Enabled(s, PublishStep(g))
    ensures CallersInv(s.callers, Apply(s, PublishStep(g)).shared.calls, s.minInterval, s.now, s.shared.closed)
  {
    var calls := Apply(s, PublishStep(g)).shared.calls;
    assert !s.shared.calls[g].Done();
    assert forall c | 0 <= c < |calls| && c != g :: calls[c] == s.shared.calls[c];
    forall j | 0 <= j < |s.callers|
      ensures CallerInv(s.callers[j], calls, s.minInterval, s.now, s.shared.closed)
    {
      assert CallerInv(s.callers[j], s.shared.calls, s.minInterval, s.now, s.shared.closed);
    }
  }

  lemma PublishKeepsSpacing(s: State, g: nat)
    requires Inv(s) && Enabled(s, PublishStep(g))
    ensures SpacedInv(Apply(s, PublishStep(g)).shared.calls, s.minInterval)
  {
    var calls := Apply(s, PublishStep(g)).shared.calls;
    forall c | 0 < c < |calls|
      ensures Spaced(calls, c, s.minInterval)
    {
      assert Spaced(s.shared.calls, c, s.minInterval);
    }
  }

  lemma PublishKeepsInv(s: State, g: nat)
    requires Inv(s) && Enabled(s, PublishStep(g))
    ensures Inv(Apply(s, PublishStep(g)))
  {
    LiveUnchanged(s.fetches, g, Published);
    PublishKeepsCallers(s, g);
    PublishKeepsSpacing(s, g);
  }

  lemma WgDoneKeepsInv(s: State, g: nat)
    requires Inv(s) && Enabled(s, WgDone(g))
    ensures Inv(Apply(s, WgDone(g)))
  {
    LiveAfterExit(s.fetches, g);
    assert g in LiveFetches(s.fetches);
  }

  lemma CloserStepKeepsInv(s: State, t: Step)
    requires Inv(s) && Enabled(s, t)
    requires t.CloseLock? || t.CloseBody? || t.CloseReturn?
    ensures Inv(Apply(s, t))
  {
  }

  lemma StepKeepsInv(s: State, t: Step)
    requires Inv(s) && Enabled(s, t)
    ensures Inv(Apply(s, t))
  {
    match t
    case CheckCtx(i) => CheckCtxKeepsInv(s, i);
    case Lock(i) => LockKeepsInv(s, i);
    case Judge(i) => JudgeKeepsInv(s, i);
    case Spawn(i) => SpawnKeepsInv(s, i);
    case WakeDone(_) => WakeKeepsInv(s, t);
    case WakeCancel(_) => WakeKeepsInv(s, t);
    case Begin(g) => FetchMoveKeepsInv(s, g, Running);
    case Finish(g, err) => FetchMoveKeepsInv(s, g, Unwinding(err));
    case FetchLock(g) => FetchLockKeepsInv(s, g);
    case PublishStep(g) => PublishKeepsInv(s, g);
    case WgDone(g) => WgDoneKeepsInv(s, g);
    case CloseLock(_) => CloserStepKeepsInv(s, t);
    case CloseBody(_) => CloserStepKeepsInv(s, t);
    case CloseReturn(_) => CloserStepKeepsInv(s, t);
    case CancelCtx(i) => CancelKeepsInv(s, i);
    case Tick(dt) => TickKeepsInv(s, dt);
    case _ => ArrivalKeepsInv(s, t);
  }

  // ---- every run ----

  lemma {:induction false} RunKeepsInv(s: State, run: seq<Step>)
    requires Inv(s) && ValidRun(s, run)
    ensures Inv(Exec(s, run))
    decreases |run|
  {
    if run != [] {
      StepKeepsInv(s, run[0]);
      RunKeepsInv(Apply(s, run[0]), run[1..]);
    }
  }

  ghost predicate ReachedBy(s: State, start: Time, run: seq<Step>) {
    var s0 := Init(s.minInterval, start);
    ValidRun(s0, run) && Exec(s0, run) == s
  }

  ghost predicate Reachable(s: State) {
    exists start, run :: ReachedBy(s, start, run)
  }

  lemma ReachableInv(s: State)
    requires Reachable(s)
    ensures Inv(s)
  {
    var start, run :| ReachedBy(s, start, run);
    RunKeepsInv(Init(s.minInterval, start), run);
  }

  lemma {:induction false} RunExtended(s: State, run: seq<Step>, t: Step)
    requires ValidRun(s, run) && Enabled(Exec(s, run), t)
    ensures ValidRun(s, run + [t]) && Exec(s, run + [t]) == Apply(Exec(s, run), t)
    decreases |run|
  {
    if run == [] {
      assert (run + [t])[1..] == [];
    } else {
      RunExtended(Apply(s, run[0]), run[1..], t);
      assert (run + [t])[1..] == run[1..] + [t];
    }
  }

  lemma ReachableStep(s: State, t: Step)
    requires Reachable(s) && Enabled(s, t)
    ensures Reachable(Apply(s, t))
  {
    var start, run :| ReachedBy(s, start, run);
    RunExtended(Init(s.minInterval, start), run, t);
    assert ReachedBy(Apply(s, t), start, run + [t]);
  }

  // ---- single flight ----

  /** From `go o.fetch(c)` up to the moment its result is published. */
  predicate Pending(pc: FetchPc) {
    pc.Created? || pc.Running? || pc.Unwinding? || pc.Publishing?
  }

  lemma SingleFlight(s: State, g: nat, h: nat)
    requires Reachable(s)
    requires g < |s.fetches| && h < |s.fetches|
    requires Pending(s.fetches[g].pc) && Pending(s.fetches[h].pc)
    ensures g == h
  {
    ReachableInv(s);
    assert !s.shared.calls[g].Done() && !s.shared.calls[h].Done();
  }

  ghost function SpawnersOf(s: State, call: nat): set<nat> {
    set i | 0 <= i < |s.callers| && s.callers[i].pc.Spawning? && s.callers[i].pc.call == call
  }

  ghost function FetchersOf(s: State, call: nat): set<nat> {
    set g | 0 <= g < |s.fetches| && s.fetches[g].call == call && Pending(s.fetches[g].pc)
  }

  /** No orphaned waiter: an open call is the one in flight, and exactly one thread owes it a result. */
  lemma OpenCallHasOneOwner(s: State, call: nat)
    requires Reachable(s) && call < |s.shared.calls|
    ensures !s.shared.calls[call].Done() <==> s.shared.inflight == Some(call)
    ensures |SpawnersOf(s, call)| + |FetchersOf(s, call)| == if s.shared.calls[call].Done() then 0 else 1
  {
    ReachableInv(s);
    if call < |s.fetches| {
      assert SpawnersOf(s, call) == {};
      assert FetchersOf(s, call) == if s.shared.calls[call].Done() then {} else {call};
    } else {
      var i :| 0 <= i < |s.callers| && s.callers[i].pc.Spawning?;
      assert SpawnersOf(s, call) == {i};
      assert FetchersOf(s, call) == {};
    }
  }

  /** `done` is closed at most once (a second close would panic), and only after the one write to `err`. */
  lemma ResultPublishedOnce(s: State, call: nat)
    requires Reachable(s) && call < |s.shared.calls|
    ensures s.shared.calls[call].writes == s.shared.calls[call].closes <= 1
    ensures forall g: nat | Enabled(s, PublishStep(g)) && s.fetches[g].call == call :: s.shared.calls[call].closes == 0
  {
    ReachableInv(s);
    forall g: nat | Enabled(s, PublishStep(g)) && s.fetches[g].call == call
      ensures !s.shared.calls[call].Done()
    {
      assert s.fetches[g].call == g;
    }
  }

  // ---- wait group and shutdown ----

  ghost function Spawners(callers: seq<Caller>): set<nat> {
    set i | 0 <= i < |callers| && callers[i].pc.Spawning?
  }

  /** The counter covers the goroutines alive and those announced but not yet started. */
  lemma WaitGroupExact(s: State)
    requires Reachable(s)
    ensures s.shared.wg == |LiveFetches(s.fetches)| + |Spawners(s.callers)|
    ensures forall g: nat | Enabled(s, WgDone(g)) :: s.shared.wg > 0
  {
    ReachableInv(s);
    if |s.fetches| < |s.shared.calls| {
      var i :| 0 <= i < |s.callers| && s.callers[i].pc.Spawning?;
      assert Spawners(s.callers) == {i};
    } else {
      assert Spawners(s.callers) == {};
    }
    forall g: nat | Enabled(s, WgDone(g))
      ensures s.shared.wg > 0
    {
      assert g in LiveFetches(s.fetches);
    }
  }

  /** A fetch always has a parent context to derive from, and after `Close` that parent is cancelled. */
  lemma CloseReachesEveryFetch(s: State)
    requires Reachable(s)
    ensures s.fetches != [] ==> !s.shared.fetchCtx.NoCtx?
    ensures s.shared.closed && s.fetches != [] ==> s.shared.fetchCtx.Cancelled?
    ensures s.shared.fetchCtx.Cancelled? ==> s.shared.closed
  {
    ReachableInv(s);
  }

  lemma ClosedStartsNothing(s: State, t: Step)
    requires s.shared.closed && Enabled(s, t)
    ensures Apply(s, t).shared.closed
    ensures |Apply(s, t).shared.calls| == |s.shared.calls|
    ensures Apply(s, t).shared.wg <= s.shared.wg
  {
  }

  /** No fetch is ever started again, and the counter never goes up, once `closed` is set. */
  lemma {:induction false} ClosedForGood(s: State, run: seq<Step>)
    requires ValidRun(s, run) && s.shared.closed
    ensures Exec(s, run).shared.closed
    ensures |Exec(s, run).shared.calls| == |s.shared.calls| && Exec(s, run).shared.wg <= s.shared.wg
    decreases |run|
  {
    if run != [] {
      ClosedStartsNothing(s, run[0]);
      ClosedForGood(Apply(s, run[0]), run[1..]);
    }
  }

  /** Once any `Close` has returned, whatever happens next: nothing is alive and nothing starts. */
  lemma ShutdownComplete(s: State, k: nat, run: seq<Step>)
    requires Reachable(s) && ValidRun(s, run)
    requires k < |s.closers| && s.closers[k].Closed?
    ensures var s' := Exec(s, run);
            && |s'.shared.calls| == |s.shared.calls| == |s'.fetches|
            && forall g | 0 <= g < |s'.fetches| :: s'.fetches[g].pc.Exited?
  {
    ReachableInv(s);
    RunKeepsInv(s, run);
    ClosedForGood(s, run);
    var s' := Exec(s, run);
    assert |LiveFetches(s'.fetches)| == 0 && LiveFetches(s'.fetches) == {};
    forall g | 0 <= g < |s'.fetches|
      ensures s'.fetches[g].pc.Exited?
    {
      assert g !in LiveFetches(s'.fetches);
    }
  }

  // ---- coalescing ----

  /** Consecutive fetches, failed ones included, keep their distance. */
  lemma FetchesAreSpaced(s: State, c: nat)
    requires Reachable(s) && c + 1 < |s.shared.calls|
    ensures s.shared.calls[c].Done()
    ensures s.shared.calls[c].startedAt <= s.shared.calls[c].doneAt <= s.shared.calls[c + 1].startedAt
    ensures s.shared.calls[c + 1].startedAt - s.shared.calls[c].doneAt >= s.minInterval
  {
    ReachableInv(s);
    assert Spaced(s.shared.calls, c + 1, s.minInterval);
  }

  /** What a caller gets is its own cancellation, a shutdown notice, or one real fetch's result. */
  lemma AnswersAreFetches(s: State, i: nat)
    requires Reachable(s) && i < |s.callers| && s.callers[i].pc.Returned?
    ensures match s.callers[i].pc.outcome
            case CtxErr => s.callers[i].cancelled
            case Shutdown => s.shared.closed
            case Answer(err, call, at) =>
              Justified(s.shared.calls, s.minInterval, s.callers[i].enteredAt, err, call, at)
  {
    ReachableInv(s);
    assert CallerInv(s.callers[i], s.shared.calls, s.minInterval, s.now, s.shared.closed);
  }

  // ---- cancellation of a waiter ----

  /** The steps of caller `i` itself once it waits. */
  predicate OwnStep(t: Step, i: nat) {
    t == CancelCtx(i) || t == WakeDone(i) || t == WakeCancel(i)
  }

  function Without(run: seq<Step>, i: nat): seq<Step> {
    if run == [] then []
    else if OwnStep(run[0], i) then Without(run[1..], i)
    else [run[0]] + Without(run[1..], i)
  }

  /** `s` with caller `i` put back to `c`. */
  function Masked(s: State, i: nat, c: Caller): State
    requires i < |s.callers|
  {
    s.(callers := s.callers[i := c])
  }

  predicate Parked(c: Caller) {
    c.pc.Waiting? || c.pc.Returned?
  }

  lemma MaskedStep(s: State, t: Step, i: nat, c: Caller)
    requires i < |s.callers| && Parked(s.callers[i]) && Parked(c)
    requires Enabled(s, t) && !OwnStep(t, i)
    ensures Enabled(Masked(s, i, c), t)
    ensures i < |Apply(s, t).callers| && Parked(Apply(s, t).callers[i])
    ensures Apply(Masked(s, i, c), t) == Masked(Apply(s, t), i, c)
  {
    var m := Masked(s, i, c);
    assert forall j | 0 <= j < |s.callers| && j != i :: m.callers[j] == s.callers[j];
    assert Apply(m, t).callers == Masked(Apply(s, t), i, c).callers;
  }

  /** A waiter that is cancelled and leaves is invisible: cut its own moves out of any run and the
      rest is still a run, with the same fetches, the same shared state and the same other callers. */
  lemma {:induction false} ImpatientWaiterInvisible(s: State, run: seq<Step>, i: nat, c: Caller)
    requires i < |s.callers| && Parked(s.callers[i]) && Parked(c) && ValidRun(s, run)
    ensures ValidRun(Masked(s, i, c), Without(run, i))
    ensures i < |Exec(s, run).callers|
    ensures Exec(Masked(s, i, c), Without(run, i)) == Masked(Exec(s, run), i, c)
    decreases |run|
  {
    if run != [] {
      var s' := Apply(s, run[0]);
      if OwnStep(run[0], i) {
        assert Masked(s', i, c) == Masked(s, i, c);
        ImpatientWaiterInvisible(s', run[1..], i, c);
      } else {
        MaskedStep(s, run[0], i, c);
        ImpatientWaiterInvisible(s', run[1..], i, c);
        assert Without(run, i)[1..] == Without(run[1..], i);
      }
    }
  }
}
