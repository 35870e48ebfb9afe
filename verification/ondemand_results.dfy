/**
 What the coordinator publishes: over every run, the result callers get is the one
 `FetchOnce` returned, recorded at the time its goroutine published it.
 */
module OnDemandResults {
  import opened Wrappers
  import opened OnDemandModel
  import opened OnDemandSafety

  /** What `FetchOnce` returned in a run so far, goroutine by goroutine. */
  type Returns = map<nat, Err>

  function After(results: Returns, t: Step): Returns {
    if t.Finish? then results[t.g := t.err] else results
  }

  function AfterAll(results: Returns, run: seq<Step>): Returns
    decreases |run|
  {
    if run == [] then results else AfterAll(After(results, run[0]), run[1..])
  }

  /** A goroutine past `FetchOnce` carries the result along, and a finished call has it. */
  ghost predicate ResultKept(pc: FetchPc, err: Err, results: Returns, g: nat) {
    match pc
    case Created => g !in results
    case Running => g !in results
    case Unwinding(e) => g in results && results[g] == e
    case Publishing(e) => g in results && results[g] == e
    case Published => g in results && results[g] == err
    case Exited => g in results && results[g] == err
  }

  ghost predicate ResultsKept(s: State, results: Returns) {
    forall g: nat | g < |s.fetches| && g < |s.shared.calls| ::
      ResultKept(s.fetches[g].pc, s.shared.calls[g].err, results, g)
  }

  ghost predicate NoneAhead(s: State, results: Returns) {
    forall g | g in results :: g < |s.fetches|
  }

  /** Only the publishing goroutine's own call changes, and it gets the result carried along. */
  lemma CallsKept(s: State, t: Step, g: nat)
    requires Inv(s) && Enabled(s, t) && g < |s.fetches|
    ensures var s' := Apply(s, t);
            && g < |s.shared.calls| <= |s'.shared.calls| && |s.fetches| <= |s'.fetches|
            && s.shared.calls[g].startedAt == s'.shared.calls[g].startedAt
            && s'.shared.calls[g].err ==
               (if t == PublishStep(g) then s.fetches[g].pc.err else s.shared.calls[g].err)
  {
    assert s.fetches[g].call == g;
    if t.PublishStep? {
      assert s.fetches[t.g].call == t.g;
    }
  }

  lemma OnlySpawnsAreNew(s: State, t: Step)
    requires Inv(s) && Enabled(s, t)
    ensures forall g | |s.fetches| <= g < |Apply(s, t).fetches| :: Apply(s, t).fetches[g].pc.Created?
  {
  }

  lemma StepKeepsResult(s: State, t: Step, results: Returns, g: nat)
    requires Inv(s) && Enabled(s, t) && ResultsKept(s, results) && g < |s.fetches|
    ensures var s' := Apply(s, t);
            && g < |s'.fetches| && g < |s'.shared.calls|
            && ResultKept(s'.fetches[g].pc, s'.shared.calls[g].err, After(results, t), g)
  {
    CallsKept(s, t, g);
    assert ResultKept(s.fetches[g].pc, s.shared.calls[g].err, results, g);
  }

  lemma StepKeepsResults(s: State, t: Step, results: Returns)
    requires Inv(s) && Enabled(s, t) && ResultsKept(s, results) && NoneAhead(s, results)
    ensures ResultsKept(Apply(s, t), After(results, t)) && NoneAhead(Apply(s, t), After(results, t))
  {
    var s' := Apply(s, t);
    OnlySpawnsAreNew(s, t);
    assert |s.fetches| <= |s'.fetches|;
    forall g: nat | g < |s'.fetches| && g < |s'.shared.calls|
      ensures ResultKept(s'.fetches[g].pc, s'.shared.calls[g].err, After(results, t), g)
    {
      if g < |s.fetches| {
        StepKeepsResult(s, t, results, g);
      }
    }
  }

  lemma FinishIsFresh(s: State, t: Step, results: Returns)
    requires Inv(s) && Enabled(s, t) && t.Finish? && ResultsKept(s, results)
    ensures t.g !in results
  {
    assert s.fetches[t.g].call == t.g;
  }

  lemma {:induction false} RunKeepsResults(s: State, run: seq<Step>, results: Returns)
    requires Inv(s) && ValidRun(s, run) && ResultsKept(s, results) && NoneAhead(s, results)
    ensures ResultsKept(Exec(s, run), AfterAll(results, run)) && NoneAhead(Exec(s, run), AfterAll(results, run))
    ensures forall g | g in results :: g in AfterAll(results, run) && AfterAll(results, run)[g] == results[g]
    decreases |run|
  {
    if run != [] {
      StepKeepsInv(s, run[0]);
      StepKeepsResults(s, run[0], results);
      if run[0].Finish? {
        FinishIsFresh(s, run[0], results);
      }
      RunKeepsResults(Apply(s, run[0]), run[1..], After(results, run[0]));
    }
  }

  lemma {:induction false} ReturnedIff(s: State, run: seq<Step>, results: Returns, g: nat, err: Err)
    requires Inv(s) && ValidRun(s, run) && ResultsKept(s, results) && NoneAhead(s, results)
    ensures g in AfterAll(results, run) && AfterAll(results, run)[g] == err <==>
            (g in results && results[g] == err) || Finish(g, err) in run
    decreases |run|
  {
    if run != [] {
      var next := After(results, run[0]);
      StepKeepsInv(s, run[0]);
      StepKeepsResults(s, run[0], results);
      ReturnedIff(Apply(s, run[0]), run[1..], next, g, err);
      RunKeepsResults(Apply(s, run[0]), run[1..], next);
      if run[0].Finish? {
        FinishIsFresh(s, run[0], results);
      }
      assert Finish(g, err) in run <==> Finish(g, err) == run[0] || Finish(g, err) in run[1..];
    }
  }

  lemma DoneWasReturned(minInterval: int, start: Time, run: seq<Step>, c: nat)
    requires ValidRun(Init(minInterval, start), run)
    requires var calls := Exec(Init(minInterval, start), run).shared.calls; c < |calls| && calls[c].Done()
    ensures var err := Exec(Init(minInterval, start), run).shared.calls[c].err;
            Finish(c, err) in run && c in AfterAll(map[], run) && AfterAll(map[], run)[c] == err
  {
    var s0 := Init(minInterval, start);
    var s := Exec(s0, run);
    RunKeepsInv(s0, run);
    RunKeepsResults(s0, run, map[]);
    DoneIsPublished(s, c);
    assert ResultKept(s.fetches[c].pc, s.shared.calls[c].err, AfterAll(map[], run), c);
    ReturnedIff(s0, run, map[], c, s.shared.calls[c].err);
  }

  /** In every run a call that is finished has exactly the result its goroutine's `FetchOnce` returned. */
  lemma ResultIsFetchedIff(minInterval: int, start: Time, run: seq<Step>, c: nat, err: Err)
    requires ValidRun(Init(minInterval, start), run)
    requires var calls := Exec(Init(minInterval, start), run).shared.calls; c < |calls| && calls[c].Done()
    ensures Exec(Init(minInterval, start), run).shared.calls[c].err == err <==> Finish(c, err) in run
  {
    var s0 := Init(minInterval, start);
    DoneWasReturned(minInterval, start, run, c);
    ReturnedIff(s0, run, map[], c, err);
  }

  /** The remembered result is that of the latest finished fetch, and every answer a caller gets is the
      result one `FetchOnce` returned. */
  lemma AnswersAreFetched(minInterval: int, start: Time, run: seq<Step>, i: nat)
    requires ValidRun(Init(minInterval, start), run)
    ensures var sh := Exec(Init(minInterval, start), run).shared;
            sh.lastDone.Some? ==> Latest(sh) >= 0 && Finish(Latest(sh), sh.lastErr) in run
    ensures var s := Exec(Init(minInterval, start), run);
            i < |s.callers| && s.callers[i].pc.Returned? && s.callers[i].pc.outcome.Answer? ==>
              Finish(s.callers[i].pc.outcome.call, s.callers[i].pc.outcome.err) in run
  {
    var s := Exec(Init(minInterval, start), run);
    RunKeepsInv(Init(minInterval, start), run);
    if s.shared.lastDone.Some? {
      DoneWasReturned(minInterval, start, run, Latest(s.shared));
    }
    if i < |s.callers| && s.callers[i].pc.Returned? && s.callers[i].pc.outcome.Answer? {
      assert CallerInv(s.callers[i], s.shared.calls, s.minInterval, s.now, s.shared.closed);
      DoneWasReturned(minInterval, start, run, s.callers[i].pc.outcome.call);
    }
  }

  lemma DoneIsPublished(s: State, c: nat)
    requires Inv(s) && c < |s.shared.calls| && s.shared.calls[c].Done()
    ensures c < |s.fetches| && (s.fetches[c].pc.Published? || s.fetches[c].pc.Exited?)
  {
    if c < |s.fetches| {
      assert s.fetches[c].call == c;
    }
  }

  // ---- what is recorded when ----

  /** A call that gets published records the moment and the result, as does the coordinator; nothing
      else about it or about the other calls changes. */
  lemma PublishedNow(s: State, g: nat)
    requires Inv(s) && Enabled(s, PublishStep(g))
    ensures var sh, sh' := s.shared, Apply(s, PublishStep(g)).shared;
            && |sh'.calls| == |sh.calls| && g < |sh.calls|
            && sh'.calls[g].startedAt == sh.calls[g].startedAt
            && sh'.calls[g].doneAt == s.now && sh'.lastDone == Some(s.now)
            && sh'.calls[g].err == s.fetches[g].pc.err == sh'.lastErr
            && sh'.inflight.None? && sh'.closed == sh.closed && sh'.wg == sh.wg && sh'.fetchCtx == sh.fetchCtx
            && forall c | 0 <= c < |sh.calls| && c != g :: sh'.calls[c] == sh.calls[c]
  {
    assert s.fetches[g].call == g;
  }

  /** A locked check starts a call of that very moment, exactly if the coordinator is open, nothing is in
      flight and no result is young enough; otherwise it changes nothing that is shared. */
  lemma StartedNowIff(s: State, i: nat)
    requires Inv(s) && Enabled(s, Judge(i))
    ensures var sh, s' := s.shared, Apply(s, Judge(i));
            if !sh.closed && sh.inflight.None? && (sh.lastDone.Some? ==> s.minInterval <= 0 || s.now - sh.lastDone.value >= s.minInterval)
            then |s'.shared.calls| == |sh.calls| + 1 && s'.shared.calls[|sh.calls|].startedAt == s.now
                 && s'.callers[i].pc == Spawning(|sh.calls|, s.now)
            else s'.shared == sh && !s'.callers[i].pc.Spawning?
  {
  }

  /** What a caller then does: it gets the shutdown, waits for the call in flight, gets the result of the
      latest call while that is young, or goes on to spawn its own. */
  lemma JudgedAs(s: State, i: nat)
    requires Inv(s) && Enabled(s, Judge(i))
    ensures var sh, pc := s.shared, Apply(s, Judge(i)).callers[i].pc;
            if sh.closed then pc == Returned(Shutdown)
            else if sh.inflight.Some? then pc == Waiting(sh.inflight.value, s.now)
            else if s.minInterval > 0 && sh.lastDone.Some? && s.now - sh.lastDone.value < s.minInterval
            then pc == Returned(Answer(sh.lastErr, |sh.calls| - 1, s.now))
            else pc == Spawning(|sh.calls|, s.now)
  {
  }

  /** A caller whose context is cancelled when it enters returns at once, without a trace. */
  lemma CancelledEntryReturns(s: State, i: nat)
    requires Enabled(s, CheckCtx(i)) && s.callers[i].cancelled
    ensures var s' := Apply(s, CheckCtx(i));
            s'.callers[i].pc == Returned(CtxErr) && s'.shared == s.shared && s'.mu == s.mu && s'.fetches == s.fetches
  {
  }
}
