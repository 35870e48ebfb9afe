/**
 The coordinator and the store together: `StoreGraphMessage` calls run statement by
 statement inside `FetchOnce`, while callers come and go, other deliveries write,
 and mailboxes and messages are deleted.

 `StoreGraphMessage` checks for a GraphID and inserts later, without a transaction
 or a unique index. What makes that safe is that the coordinator never lets two
 `FetchOnce` bodies overlap.
 */
module Composition {
  import opened Wrappers
  import opened Tables
  import opened Store
  import P = OnDemandModel
  import Safety = OnDemandSafety
  import D = Interleaving

  /** `owner` maps a delivery started by a fetch to its goroutine. */
  datatype World = World(proto: P.State, db: D.System, owner: map<nat, nat>)

  datatype Step =
    | Coordinate(t: P.Step)
    | StartGraph(g: nat, job: Job)  // the next message of goroutine g's page
    | Touch(u: D.Step)

  predicate Running(w: World, g: nat) {
    g < |w.proto.fetches| && w.proto.fetches[g].pc.Running?
  }

  predicate Unfinished(w: World, k: nat) {
    k < |w.db.tasks| && w.db.tasks[k].Delivery? && !w.db.tasks[k].pc.Finished?
  }

  predicate HarmlessFault(rows: Rows, task: D.Task) {
    task.Delivery? && task.pc.Dedup? ==> !HasGraphId(rows, task.job.graphId)
  }

  /** A goroutine works on one message at a time, and only while inside `FetchOnce`; a panic may
      leave a delivery half done for good. Other deliveries carry no GraphID. The GraphID query, whose
      error the source ignores, may fail only while the GraphID is not stored. */
  ghost predicate Enabled(w: World, s: Step) {
    match s
    case Coordinate(t) => P.Enabled(w.proto, t)
    case StartGraph(g, _) =>
      && Running(w, g)
      && (forall k | k in w.owner && w.owner[k] == g :: !Unfinished(w, k))
    case Touch(t) =>
      && D.Enabled(w.db, t)
      && (t.StartDelivery? ==> t.job.graphId == "")
      && (t.Statement? && t.k in w.owner ==> Running(w, w.owner[t.k]))
      && (t.Fault? && t.k in w.owner ==> Running(w, w.owner[t.k]) && HarmlessFault(w.db.rows, w.db.tasks[t.k]))
  }

  ghost function Apply(w: World, s: Step): World
    requires Enabled(w, s)
  {
    match s
    case Coordinate(t) => w.(proto := P.Apply(w.proto, t))
    case StartGraph(g, job) =>
      w.(db := D.Apply(w.db, D.StartDelivery(job, job.graphId != "")), owner := w.owner[|w.db.tasks| := g])
    case Touch(t) => w.(db := D.Apply(w.db, t))
  }

  ghost predicate ValidRun(w: World, run: seq<Step>)
    decreases |run|
  {
    run == [] || (Enabled(w, run[0]) && ValidRun(Apply(w, run[0]), run[1..]))
  }

  ghost function Exec(w: World, run: seq<Step>): World
    requires ValidRun(w, run)
    decreases |run|
  {
    if run == [] then w else Exec(Apply(w, run[0]), run[1..])
  }

  // ---- the invariant ----

  ghost predicate DistinctGraphIds(rows: Rows) {
    forall i, j | i in rows.messages && j in rows.messages &&
                  rows.messages[i].graphId == rows.messages[j].graphId != "" :: i == j
  }

  /** A delivery that can still take a step. */
  ghost predicate Active(w: World, k: nat) {
    k in w.owner && Unfinished(w, k) && Running(w, w.owner[k])
  }

  ghost predicate OwnershipInv(w: World) {
    && (forall k | k in w.owner ::
          && k < |w.db.tasks| && w.db.tasks[k].Delivery?
          && w.owner[k] < |w.proto.fetches| && !w.proto.fetches[w.owner[k]].pc.Created?)
    && (forall k | 0 <= k < |w.db.tasks| && k !in w.owner ::
          w.db.tasks[k].Delivery? ==> w.db.tasks[k].job.graphId == "")
    && (forall j, k | j in w.owner && k in w.owner && w.owner[j] == w.owner[k] && Unfinished(w, j) && Unfinished(w, k) :: j == k)
  }

  /** Past its check, an active delivery's GraphID is still absent. */
  ghost predicate CheckedInv(w: World) {
    forall k | k in w.owner && Active(w, k) && !w.db.tasks[k].pc.Dedup? && w.db.tasks[k].job.graphId != "" ::
      !HasGraphId(w.db.rows, w.db.tasks[k].job.graphId)
  }

  ghost predicate Inv(w: World) {
    && Safety.Inv(w.proto)
    && D.Inv(w.db)
    && OwnershipInv(w)
    && CheckedInv(w)
    && DistinctGraphIds(w.db.rows)
  }

  lemma OneRunning(proto: P.State, g: nat, h: nat)
    requires Safety.Inv(proto)
    requires g < |proto.fetches| && h < |proto.fetches|
    requires proto.fetches[g].pc.Running? && proto.fetches[h].pc.Running?
    ensures g == h
  {
    assert !proto.shared.calls[g].Done() && !proto.shared.calls[h].Done();
  }

  lemma OneActive(w: World, j: nat, k: nat)
    requires Inv(w) && Active(w, j) && Active(w, k)
    ensures j == k
  {
    OneRunning(w.proto, w.owner[j], w.owner[k]);
  }

  // ---- one step ----

  lemma CoordinateStartsNoBody(proto: P.State, t: P.Step, g: nat)
    requires P.Enabled(proto, t) && g < |proto.fetches| && !proto.fetches[g].pc.Created?
    ensures var proto' := P.Apply(proto, t);
            && g < |proto'.fetches| && !proto'.fetches[g].pc.Created?
            && (proto'.fetches[g].pc.Running? ==> proto.fetches[g].pc.Running?)
  {
  }

  /** The coordinator can stop a delivery for good, never revive or create one. */
  lemma CoordinateKeepsDeliveries(w: World, t: P.Step)
    requires OwnershipInv(w) && CheckedInv(w) && P.Enabled(w.proto, t)
    ensures OwnershipInv(w.(proto := P.Apply(w.proto, t)))
    ensures CheckedInv(w.(proto := P.Apply(w.proto, t)))
  {
    var w' := w.(proto := P.Apply(w.proto, t));
    forall k | k in w.owner
      ensures w.owner[k] < |w'.proto.fetches| && !w'.proto.fetches[w.owner[k]].pc.Created?
      ensures Active(w', k) ==> Active(w, k)
    {
      CoordinateStartsNoBody(w.proto, t, w.owner[k]);
    }
  }

  lemma CoordinateKeepsInv(w: World, t: P.Step)
    requires Inv(w) && P.Enabled(w.proto, t)
    ensures Inv(w.(proto := P.Apply(w.proto, t)))
  {
    Safety.StepKeepsInv(w.proto, t);
    CoordinateKeepsDeliveries(w, t);
  }

  lemma StartGraphKeepsOwnership(w: World, g: nat, job: Job)
    requires OwnershipInv(w) && Enabled(w, StartGraph(g, job))
    ensures OwnershipInv(Apply(w, StartGraph(g, job)))
  {
    var w' := Apply(w, StartGraph(g, job));
    var added := |w.db.tasks|;
    assert added !in w.owner;
    forall k | k in w'.owner
      ensures k < |w'.db.tasks| && w'.db.tasks[k].Delivery?
      ensures k != added ==> k in w.owner && w'.db.tasks[k] == w.db.tasks[k] && w'.owner[k] == w.owner[k]
      ensures k != added && Unfinished(w', k) ==> w'.owner[k] != g
    {
      if k != added {
        assert k in w.owner;
        assert Unfinished(w', k) ==> Unfinished(w, k);
      }
    }
  }

  lemma StartGraphKeepsInv(w: World, g: nat, job: Job)
    requires Inv(w) && Enabled(w, StartGraph(g, job))
    ensures Inv(Apply(w, StartGraph(g, job)))
  {
    var w' := Apply(w, StartGraph(g, job));
    D.StepKeepsInv(w.db, D.StartDelivery(job, job.graphId != ""));
    StartGraphKeepsOwnership(w, g, job);
    forall k | k in w'.owner && Active(w', k) && !w'.db.tasks[k].pc.Dedup? && w'.db.tasks[k].job.graphId != ""
      ensures !HasGraphId(w'.db.rows, w'.db.tasks[k].job.graphId)
    {
      assert k != |w.db.tasks| && Active(w, k);
    }
  }

  /** Statements other than inserts can only remove rows or add rows without messages. */
  ghost predicate NoNewGraphIds(rows: Rows, rows': Rows) {
    forall i | i in rows'.messages && rows'.messages[i].graphId != "" :: i in rows.messages && rows.messages[i] == rows'.messages[i]
  }

  lemma NoNewGraphIdsKeeps(rows: Rows, rows': Rows)
    requires NoNewGraphIds(rows, rows')
    ensures DistinctGraphIds(rows) ==> DistinctGraphIds(rows')
    ensures forall id | id != "" && HasGraphId(rows', id) :: HasGraphId(rows, id)
  {
  }

  /** An insert with a GraphID belongs to the one active delivery, which found the GraphID absent. */
  lemma GraphInsertKeepsInv(w: World, k: nat, clock: Clock)
    requires Inv(w) && Enabled(w, Touch(D.Statement(k, clock)))
    requires Active(w, k) && w.db.tasks[k].pc.Insert? && w.db.tasks[k].job.graphId != ""
    ensures CheckedInv(Apply(w, Touch(D.Statement(k, clock))))
    ensures DistinctGraphIds(Apply(w, Touch(D.Statement(k, clock))).db.rows)
  {
    var w' := Apply(w, Touch(D.Statement(k, clock)));
    assert w'.db.tasks[k].pc.Finished?;
    forall j | j in w'.owner && Active(w', j)
      ensures false
    {
      assert j != k && w'.db.tasks[j] == w.db.tasks[j];
      assert Active(w, j);
      OneActive(w, j, k);
    }
    assert !HasGraphId(w.db.rows, w.db.tasks[k].job.graphId);
  }

  /** Any other statement brings no new GraphID. */
  lemma QuietStatement(w: World, t: D.Step)
    requires OwnershipInv(w) && Enabled(w, Touch(t))
    requires !(t.Statement? && Active(w, t.k) && w.db.tasks[t.k].pc.Insert? && w.db.tasks[t.k].job.graphId != "")
    ensures NoNewGraphIds(w.db.rows, Apply(w, Touch(t)).db.rows)
  {
    if t.Statement? {
      var task := w.db.tasks[t.k];
      if task.Delivery? && task.pc.Insert? {
        assert t.k in w.owner ==> Active(w, t.k);
      }
    }
  }

  /** A quiet step leaves other deliveries where they are; the one it moves, if it passes its check,
      has just seen that its GraphID is absent. */
  lemma QuietKeepsChecked(w: World, t: D.Step)
    requires Inv(w) && Enabled(w, Touch(t))
    requires NoNewGraphIds(w.db.rows, Apply(w, Touch(t)).db.rows)
    ensures CheckedInv(Apply(w, Touch(t)))
  {
    var w' := Apply(w, Touch(t));
    NoNewGraphIdsKeeps(w.db.rows, w'.db.rows);
    forall k | k in w'.owner && Active(w', k) && !w'.db.tasks[k].pc.Dedup? && w'.db.tasks[k].job.graphId != ""
      ensures !HasGraphId(w'.db.rows, w'.db.tasks[k].job.graphId)
    {
      assert k < |w.db.tasks|;
      if (t.Statement? || t.Fault?) && t.k == k {
        assert Active(w, k);
        assert w.db.tasks[k].job == w'.db.tasks[k].job;
      } else {
        assert w'.db.tasks[k] == w.db.tasks[k];
        assert Active(w, k);
      }
    }
  }

  lemma TouchKeepsOwnership(w: World, t: D.Step)
    requires OwnershipInv(w) && Enabled(w, Touch(t))
    ensures OwnershipInv(Apply(w, Touch(t)))
  {
    var w' := Apply(w, Touch(t));
    forall k | 0 <= k < |w.db.tasks|
      ensures w.db.tasks[k].Delivery? <==> w'.db.tasks[k].Delivery?
      ensures w.db.tasks[k].Delivery? ==> w'.db.tasks[k].job == w.db.tasks[k].job
      ensures Unfinished(w', k) ==> Unfinished(w, k)
    {
    }
  }

  lemma TouchKeepsInv(w: World, t: D.Step)
    requires Inv(w) && Enabled(w, Touch(t))
    ensures Inv(Apply(w, Touch(t)))
  {
    D.StepKeepsInv(w.db, t);
    TouchKeepsOwnership(w, t);
    if t.Statement? && Active(w, t.k) && w.db.tasks[t.k].pc.Insert? && w.db.tasks[t.k].job.graphId != "" {
      GraphInsertKeepsInv(w, t.k, t.clock);
    } else {
      QuietStatement(w, t);
      QuietKeepsChecked(w, t);
      NoNewGraphIdsKeeps(w.db.rows, Apply(w, Touch(t)).db.rows);
    }
  }

  lemma StepKeepsInv(w: World, s: Step)
    requires Inv(w) && Enabled(w, s)
    ensures Inv(Apply(w, s))
  {
    match s
    case Coordinate(t) => CoordinateKeepsInv(w, t);
    case StartGraph(g, job) => StartGraphKeepsInv(w, g, job);
    case Touch(t) => TouchKeepsInv(w, t);
  }

  // ---- every run ----

  function Start(minInterval: int, now: P.Time, rows: Rows): World {
    World(P.Init(minInterval, now), D.System(rows, []), map[])
  }

  lemma {:induction false} RunKeepsInv(w: World, run: seq<Step>)
    requires Inv(w) && ValidRun(w, run)
    ensures Inv(Exec(w, run))
    decreases |run|
  {
    if run != [] {
      StepKeepsInv(w, run[0]);
      RunKeepsInv(Apply(w, run[0]), run[1..]);
    }
  }

  /** From a new coordinator on any sound database without doubles: however callers, fetches,
      panics, other writers, deletes and cleanups interleave, no two messages ever share a GraphID. */
  lemma NoDoubleGraphMessage(minInterval: int, now: P.Time, rows: Rows, run: seq<Step>)
    requires Sound(rows) && DistinctGraphIds(rows)
    requires ValidRun(Start(minInterval, now, rows), run)
    ensures DistinctGraphIds(Exec(Start(minInterval, now, rows), run).db.rows)
    ensures Sound(Exec(Start(minInterval, now, rows), run).db.rows)
  {
    RunKeepsInv(Start(minInterval, now, rows), run);
  }

  // ---- why the single flight is needed ----

  /** Two deliveries of one message, each at its place. */
  function BothAt(rows: Rows, job: Job, first: DeliverPc, second: DeliverPc): D.System {
    D.System(rows, [D.Delivery(job, first), D.Delivery(job, second)])
  }

  lemma OverlapIsReached(rows: Rows, job: Job, mailboxId: nat, clock: Clock)
    requires Sound(rows) && mailboxId in rows.mailboxes && rows.mailboxes[mailboxId].address == job.to
    requires !HasGraphId(rows, job.graphId)
    ensures D.Reaches(D.System(rows, []), BothAt(rows, job, Insert(mailboxId), Insert(mailboxId)))
  {
    var s0 := D.System(rows, []);
    FirstFinds(rows, job.to);
    assert FirstByAddress(rows, job.to) == Some(mailboxId);
    assert D.ValidRun(s0, []) && D.Exec(s0, []) == s0;
    D.ReachesStep(s0, s0, D.StartDelivery(job, true));
    var s1 := D.System(rows, [D.Delivery(job, Dedup)]);
    assert D.Apply(s0, D.StartDelivery(job, true)) == s1;
    D.ReachesStep(s0, s1, D.StartDelivery(job, true));
    var s2 := BothAt(rows, job, Dedup, Dedup);
    D.ReachesStep(s0, s2, D.Statement(0, clock));
    D.ReachesStep(s0, BothAt(rows, job, Lookup, Dedup), D.Statement(1, clock));
    D.ReachesStep(s0, BothAt(rows, job, Lookup, Lookup), D.Statement(0, clock));
    D.ReachesStep(s0, BothAt(rows, job, Insert(mailboxId), Lookup), D.Statement(1, clock));
  }

  /** Two deliveries of the same message that overlap can both be stored: the store alone, request by
      request, does not prevent doubles. */
  lemma OverlapWouldDouble(rows: Rows, job: Job, mailboxId: nat, clock: Clock) returns (s: D.System)
    requires Sound(rows) && mailboxId in rows.mailboxes && rows.mailboxes[mailboxId].address == job.to
    requires job.graphId != "" && !HasGraphId(rows, job.graphId)
    ensures D.Reaches(D.System(rows, []), s)
    ensures |s.tasks| == 2 && D.Reported(s.tasks[0]) && D.Reported(s.tasks[1]) && !DistinctGraphIds(s.rows)
  {
    var s0, both := D.System(rows, []), BothAt(rows, job, Insert(mailboxId), Insert(mailboxId));
    OverlapIsReached(rows, job, mailboxId, clock);
    D.ReachesStep(s0, both, D.Statement(0, clock));
    var once := D.Apply(both, D.Statement(0, clock));
    D.ReachesStep(s0, once, D.Statement(1, clock));
    s := D.Apply(once, D.Statement(1, clock));
    assert s.rows.messages[rows.nextMessage].graphId == s.rows.messages[once.rows.nextMessage].graphId;
  }

  /** The premise on the GraphID query is exact: a failed query is harmless if and only if the GraphID
      is not stored at that moment. Otherwise the delivery goes on and stores the message again. */
  lemma FailedCheckDoublesIff(rows: Rows, job: Job, attempt: Attempt)
    requires Sound(rows) && DistinctGraphIds(rows) && job.graphId != "" && attempt.Flawless()
    ensures D.AfterFault(D.Delivery(job, Dedup)) == D.Delivery(job, Lookup)
    ensures DistinctGraphIds(Deliver(rows, job, Lookup, attempt).0) <==> HarmlessFault(rows, D.Delivery(job, Dedup))
  {
    DeliverFilesIff(rows, job, attempt);
    var rows' := Deliver(rows, job, Lookup, attempt).0;
    assert rows'.messages[rows.nextMessage].graphId == job.graphId;
    if i :| i in rows.messages && rows.messages[i].graphId == job.graphId {
      assert rows'.messages[i].graphId == rows'.messages[rows.nextMessage].graphId;
    }
  }
}
