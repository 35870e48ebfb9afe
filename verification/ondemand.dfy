/**
 The single-flight coordinator of ingest/ondemand.go.

 `Shared` is what the mutex protects. The three critical sections of the source
 (`SyncContext`, the deferred block of `fetch`, `Close`) are functions on it, and
 the class `OnDemand` carries them out field by field.

 `State` adds the threads: any number of callers, fetch goroutines and closers,
 the mutex they compete for, and a monotone clock. `Step` lists every move a
 thread or its environment can make.
 */
module OnDemandModel {
  import opened Wrappers

  type Time = nat

  /** A Go error: `None` is nil. */
  type Err = Option<string>

  /** One shared fetch. `closes` and `writes` count what happened to `done` and `err`. */
  datatype Call = Call(startedAt: Time, doneAt: Time, err: Err, writes: nat, closes: nat) {
    predicate Done() { closes > 0 }
  }

  /** The lazily created parent context of all fetches. */
  datatype Ctx = NoCtx | Live | Cancelled

  datatype Shared = Shared(
    inflight: Option<nat>,
    lastDone: Option<Time>,
    lastErr: Err,
    fetchCtx: Ctx,
    closed: bool,
    wg: int,
    calls: seq<Call>)

  const EMPTY := Shared(None, None, None, NoCtx, false, 0, [])

  /** How the locked part of `SyncContext` ends. */
  datatype Verdict = Refused | Join(call: nat) | Cached(err: Err) | Start(call: nat)

  function Decide(sh: Shared, minInterval: int, now: Time): (Shared, Verdict) {
    if sh.closed then (sh, Refused)
    else if sh.inflight.Some? then (sh, Join(sh.inflight.value))
    else if minInterval > 0 && sh.lastDone.Some? && now - sh.lastDone.value < minInterval then
      (sh, Cached(sh.lastErr))
    else
      (sh.(calls := sh.calls + [Call(now, 0, None, 0, 0)],
           fetchCtx := if sh.fetchCtx.NoCtx? then Live else sh.fetchCtx,
           inflight := Some(|sh.calls|),
           wg := sh.wg + 1),
       Start(|sh.calls|))
  }

  /** The deferred block of `fetch`. */
  function Publish(sh: Shared, call: nat, err: Err, now: Time): Shared
    requires call < |sh.calls|
  {
    var c := sh.calls[call];
    sh.(calls := sh.calls[call := c.(err := err, writes := c.writes + 1, closes := c.closes + 1, doneAt := now)],
        lastDone := Some(now), lastErr := err, inflight := None)
  }

  /** The locked part of `Close`. */
  function Shut(sh: Shared): Shared {
    if sh.closed then sh
    else sh.(closed := true, fetchCtx := if sh.fetchCtx.NoCtx? then NoCtx else Cancelled)
  }

  /** The coordinator's own fields, with each critical section as a method. */
  class OnDemand {
    const minInterval: int
    var inflight: Option<nat>
    var lastDone: Option<Time>
    var lastErr: Err
    var fetchCtx: Ctx
    var closed: bool
    var wg: int
    var calls: seq<Call>

    ghost function Fields(): Shared
      reads this
    {
      Shared(inflight, lastDone, lastErr, fetchCtx, closed, wg, calls)
    }

    constructor (minInterval: int)
      ensures this.minInterval == minInterval && Fields() == EMPTY
    {
      this.minInterval := minInterval;
      inflight, lastDone, lastErr := None, None, None;
      fetchCtx, closed, wg, calls := NoCtx, false, 0, [];
    }

    method SyncLocked(now: Time) returns (v: Verdict)
      modifies this
      ensures (Fields(), v) == Decide(old(Fields()), minInterval, now)
    {
      if closed {
        return Refused;
      }
      if inflight.Some? {
        return Join(inflight.value);
      }
      if minInterval > 0 && lastDone.Some? && now - lastDone.value < minInterval {
        return Cached(lastErr);
      }
      var c := |calls|;
      calls := calls + [Call(now, 0, None, 0, 0)];
      if fetchCtx.NoCtx? {
        fetchCtx := Live;
      }
      inflight := Some(c);
      wg := wg + 1;
      return Start(c);
    }

    method FetchDone(call: nat, err: Err, now: Time)
      requires call < |calls|
      modifies this
      ensures Fields() == Publish(old(Fields()), call, err, now)
    {
      var c := calls[call];
      c := c.(err := err, writes := c.writes + 1);
      lastDone := Some(now);
      lastErr := err;
      inflight := None;
      calls := calls[call := c.(closes := c.closes + 1, doneAt := now)];
    }

    method CloseLocked()
      modifies this
      ensures Fields() == Shut(old(Fields()))
    {
      if !closed {
        closed := true;
        if !fetchCtx.NoCtx? {
          fetchCtx := Cancelled;
        }
      }
    }
  }

  /** What a caller gets back. `call` and `checkedAt` record where an answer came from. */
  datatype Outcome = CtxErr | Shutdown | Answer(err: Err, call: nat, checkedAt: Time)

  datatype CallerPc =
    | Fresh
    | WantsLock
    | Locked
    | Spawning(call: nat, checkedAt: Time)  // unlocked, `go o.fetch(c)` not yet executed
    | Waiting(call: nat, checkedAt: Time)
    | Returned(outcome: Outcome)

  datatype Caller = Caller(enteredAt: Time, cancelled: bool, pc: CallerPc)

  datatype FetchPc =
    | Created
    | Running                // inside Fetcher.FetchOnce
    | Unwinding(err: Err)    // FetchOnce returned or panicked
    | Publishing(err: Err)   // deferred block, mutex held
    | Published              // `wg.Done` still to come
    | Exited

  datatype Fetch = Fetch(call: nat, pc: FetchPc)

  datatype CloserPc = Entering | Closing | Draining | Closed

  datatype Mutex = Free | ByCaller(i: nat) | ByFetch(g: nat) | ByCloser(k: nat)

  datatype State = State(
    minInterval: int,
    shared: Shared,
    mu: Mutex,
    callers: seq<Caller>,
    fetches: seq<Fetch>,
    closers: seq<CloserPc>,
    now: Time)

  function Init(minInterval: int, now: Time): State {
    State(minInterval, EMPTY, Free, [], [], [], now)
  }

  datatype Step =
    // environment
    | Arrive
    | CancelCtx(i: nat)
    | CloseArrive
    | Tick(dt: nat)
    // callers
    | CheckCtx(i: nat)
    | Lock(i: nat)
    | Judge(i: nat)
    | Spawn(i: nat)
    | WakeDone(i: nat)
    | WakeCancel(i: nat)
    // fetch goroutines
    | Begin(g: nat)
    | Finish(g: nat, err: Err)
    | FetchLock(g: nat)
    | PublishStep(g: nat)
    | WgDone(g: nat)
    // closers
    | CloseLock(k: nat)
    | CloseBody(k: nat)
    | CloseReturn(k: nat)

  predicate Environment(t: Step) {
    t.Arrive? || t.CancelCtx? || t.CloseArrive? || t.Tick?
  }

  predicate Enabled(s: State, t: Step) {
    match t
    case Arrive => true
    case CancelCtx(i) => i < |s.callers|
    case CloseArrive => true
    case Tick(_) => true
    case CheckCtx(i) => i < |s.callers| && s.callers[i].pc.Fresh?
    case Lock(i) => i < |s.callers| && s.callers[i].pc.WantsLock? && s.mu.Free?
    case Judge(i) => i < |s.callers| && s.callers[i].pc.Locked?
    case Spawn(i) => i < |s.callers| && s.callers[i].pc.Spawning?
    case WakeDone(i) =>
      && i < |s.callers|
      && s.callers[i].pc.Waiting?
      && s.callers[i].pc.call < |s.shared.calls|
      && s.shared.calls[s.callers[i].pc.call].Done()
    case WakeCancel(i) => i < |s.callers| && s.callers[i].pc.Waiting? && s.callers[i].cancelled
    case Begin(g) => g < |s.fetches| && s.fetches[g].pc.Created?
    case Finish(g, _) => g < |s.fetches| && s.fetches[g].pc.Running?
    case FetchLock(g) => g < |s.fetches| && s.fetches[g].pc.Unwinding? && s.mu.Free?
    case PublishStep(g) =>
      g < |s.fetches| && s.fetches[g].pc.Publishing? && s.fetches[g].call < |s.shared.calls|
    case WgDone(g) => g < |s.fetches| && s.fetches[g].pc.Published?
    case CloseLock(k) => k < |s.closers| && s.closers[k].Entering? && s.mu.Free?
    case CloseBody(k) => k < |s.closers| && s.closers[k].Closing?
    case CloseReturn(k) => k < |s.closers| && s.closers[k].Draining? && s.shared.wg == 0
  }

  function SetCaller(s: State, i: nat, pc: CallerPc): State
    requires i < |s.callers|
  {
    s.(callers := s.callers[i := s.callers[i].(pc := pc)])
  }

  function SetFetch(s: State, g: nat, pc: FetchPc): State
    requires g < |s.fetches|
  {
    s.(fetches := s.fetches[g := s.fetches[g].(pc := pc)])
  }

  /** The whole critical section of `SyncContext`, up to the unlock. */
  function JudgeStep(s: State, i: nat): State
    requires i < |s.callers|
  {
    var (sh, v) := Decide(s.shared, s.minInterval, s.now);
    var pc := match v
      case Refused => Returned(Shutdown)
      case Join(c) => Waiting(c, s.now)
      case Cached(err) => Returned(Answer(err, |sh.calls| - (if |sh.calls| > 0 then 1 else 0), s.now))
      case Start(c) => Spawning(c, s.now);
    SetCaller(s, i, pc).(shared := sh, mu := Free)
  }

  function Apply(s: State, t: Step): State
    requires Enabled(s, t)
  {
    match t
    case Arrive => s.(callers := s.callers + [Caller(s.now, false, Fresh)])
    case CancelCtx(i) => s.(callers := s.callers[i := s.callers[i].(cancelled := true)])
    case CloseArrive => s.(closers := s.closers + [Entering])
    case Tick(dt) => s.(now := s.now + dt)
    case CheckCtx(i) => SetCaller(s, i, if s.callers[i].cancelled then Returned(CtxErr) else WantsLock)
    case Lock(i) => SetCaller(s, i, Locked).(mu := ByCaller(i))
    case Judge(i) => JudgeStep(s, i)
    case Spawn(i) =>
      var pc := s.callers[i].pc;
      SetCaller(s, i, Waiting(pc.call, pc.checkedAt)).(fetches := s.fetches + [Fetch(pc.call, Created)])
    case WakeDone(i) =>
      var pc := s.callers[i].pc;
      SetCaller(s, i, Returned(Answer(s.shared.calls[pc.call].err, pc.call, pc.checkedAt)))
    case WakeCancel(i) => SetCaller(s, i, Returned(CtxErr))
    case Begin(g) => SetFetch(s, g, Running)
    case Finish(g, err) => SetFetch(s, g, Unwinding(err))
    case FetchLock(g) => SetFetch(s, g, Publishing(s.fetches[g].pc.err)).(mu := ByFetch(g))
    case PublishStep(g) =>
      var f := s.fetches[g];
      SetFetch(s, g, Published).(shared := Publish(s.shared, f.call, f.pc.err, s.now), mu := Free)
    case WgDone(g) => SetFetch(s, g, Exited).(shared := s.shared.(wg := s.shared.wg - 1))
    case CloseLock(k) => s.(closers := s.closers[k := Closing], mu := ByCloser(k))
    case CloseBody(k) => s.(closers := s.closers[k := Draining], shared := Shut(s.shared), mu := Free)
    case CloseReturn(k) => s.(closers := s.closers[k := Closed])
  }

  predicate ValidRun(s: State, run: seq<Step>)
    decreases |run|
  {
    run == [] || (Enabled(s, run[0]) && ValidRun(Apply(s, run[0]), run[1..]))
  }

  function Exec(s: State, run: seq<Step>): State
    requires ValidRun(s, run)
    decreases |run|
  {
    if run == [] then s else Exec(Apply(s, run[0]), run[1..])
  }
}
