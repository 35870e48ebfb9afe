/**
 Any number of requests against one database, interleaved statement by statement:
 deliveries (`StoreMessage`, `StoreGraphMessage`), registrations (`CreateMailbox`),
 listings (`ListMessages` with its auto-create), deletes and both cleanups. Every
 statement may also fail with an I/O error, which the source sometimes ignores.
 */
module Interleaving {
  import opened Wrappers
  import opened Tables
  import opened Store

  datatype RegisterPc = CheckTaken | Register | Registered(id: nat) | Rejected

  datatype ListPc =
    | Find
    | Make
    | FindAgain
    | Fetch(mailboxId: nat)
    | Listed(ids: set<nat>)
    | NotFound
    | Broken

  datatype Task =
    | Delivery(job: Job, pc: DeliverPc)
    | Registration(mailbox: Mailbox, rpc: RegisterPc)
    | Listing(address: string, configured: bool, lpc: ListPc)

  datatype System = System(rows: Rows, tasks: seq<Task>)

  datatype Step =
    | StartDelivery(job: Job, dedup: bool)
    | StartRegistration(mailbox: Mailbox, custom: bool)
    | StartListing(address: string, configured: bool)
    | Statement(k: nat, clock: Clock)
    | Fault(k: nat)
    | RemoveMailbox(address: string)
    | CleanupExpired(now: int)
    | CleanupOld(cutoff: int)
    | RemoveMessage(id: nat)

  predicate Enabled(s: System, t: Step) {
    t.Statement? || t.Fault? ==> t.k < |s.tasks|
  }

  function MessagesOf(rows: Rows, mailboxId: nat): set<nat> {
    set i | i in rows.messages && rows.messages[i].mailboxId == mailboxId
  }

  /** The next statement of a task. */
  function Advance(rows: Rows, task: Task, clock: Clock): (Rows, Task) {
    match task
    case Delivery(job, pc) =>
      var (rows', pc') := DeliverStep(rows, job, pc, clock);
      (rows', Delivery(job, pc'))
    case Registration(mb, CheckTaken) =>
      (rows, Registration(mb, if WithAddress(rows, mb.address) != {} then Rejected else Register))
    case Registration(mb, Register) =>
      (match CreateMailbox(rows, mb)
       case Ok(rows') => (rows', Registration(mb, Registered(rows.nextMailbox)))
       case Err(_) => (rows, Registration(mb, Rejected)))
    case Listing(a, configured, Find) =>
      (match FirstByAddress(rows, a)
       case Some(id) => (rows, Listing(a, configured, Fetch(id)))
       case None => (rows, Listing(a, configured, if configured then Make else NotFound)))
    case Listing(a, configured, Make) =>
      (match CreateMailbox(rows, NewMailbox(a, clock))
       case Ok(rows') => (rows', Listing(a, configured, Fetch(rows.nextMailbox)))
       case Err(_) => (rows, Listing(a, configured, FindAgain)))
    case Listing(a, configured, FindAgain) =>
      (match FirstByAddress(rows, a)
       case Some(id) => (rows, Listing(a, configured, Fetch(id)))
       case None => (rows, Listing(a, configured, Broken)))
    case Listing(a, configured, Fetch(id)) => (rows, Listing(a, configured, Listed(MessagesOf(rows, id))))
    case _ => (rows, task)
  }

  /** What a task does when its statement fails without effect. Both existence counts ignore the
      error and read as zero; a failed listing query reads as empty. */
  function AfterFault(task: Task): Task {
    match task
    case Delivery(job, pc) => Delivery(job, Store.AfterFault(pc))
    case Registration(mb, CheckTaken) => Registration(mb, Register)
    case Registration(mb, Register) => Registration(mb, Rejected)
    case Listing(a, configured, Find) => Listing(a, configured, Broken)
    case Listing(a, configured, Make) => Listing(a, configured, FindAgain)
    case Listing(a, configured, FindAgain) => Listing(a, configured, Broken)
    case Listing(a, configured, Fetch(_)) => Listing(a, configured, Listed({}))
    case _ => task
  }

  function Apply(s: System, t: Step): System
    requires Enabled(s, t)
  {
    match t
    case StartDelivery(job, dedup) => s.(tasks := s.tasks + [Delivery(job, if dedup then Dedup else Lookup)])
    case StartRegistration(mb, custom) => s.(tasks := s.tasks + [Registration(mb, if custom then CheckTaken else Register)])
    case StartListing(a, configured) => s.(tasks := s.tasks + [Listing(a, configured, Find)])
    case Statement(k, clock) =>
      var (rows', task') := Advance(s.rows, s.tasks[k], clock);
      System(rows', s.tasks[k := task'])
    case Fault(k) => s.(tasks := s.tasks[k := AfterFault(s.tasks[k])])
    case RemoveMailbox(a) => s.(rows := DeleteByAddress(s.rows, a))
    case CleanupExpired(now) => s.(rows := DeleteExpired(s.rows, now))
    case CleanupOld(cutoff) => s.(rows := DeleteReceivedBefore(s.rows, cutoff))
    case RemoveMessage(id) => s.(rows := DeleteMessage(s.rows, id))
  }

  predicate ValidRun(s: System, run: seq<Step>)
    decreases |run|
  {
    run == [] || (Enabled(s, run[0]) && ValidRun(Apply(s, run[0]), run[1..]))
  }

  function Exec(s: System, run: seq<Step>): System
    requires ValidRun(s, run)
    decreases |run|
  {
    if run == [] then s else Exec(Apply(s, run[0]), run[1..])
  }

  /** Some interleaving leads from `s` to `s'`. */
  ghost predicate Reaches(s: System, s': System) {
    exists run :: ValidRun(s, run) && Exec(s, run) == s'
  }

  lemma {:induction false} RunExtended(s: System, run: seq<Step>, t: Step)
    requires ValidRun(s, run) && Enabled(Exec(s, run), t)
    ensures ValidRun(s, run + [t]) && Exec(s, run + [t]) == Apply(Exec(s, run), t)
    decreases |run|
  {
    if run == [] {
      assert (run + [t])[1..] == [];
    } else {
      RunExtended(Apply(s, run[0]), run[1..], t);
      assert (run + [t])[1..] == run[1..] + [t];
    }
  }

  lemma ReachesStep(s: System, s': System, t: Step)
    requires Reaches(s, s') && Enabled(s', t)
    ensures Reaches(s, Apply(s', t))
  {
    var run :| ValidRun(s, run) && Exec(s, run) == s';
    RunExtended(s, run, t);
  }

  // ---- what a task remembers ----

  /** A remembered mailbox key was issued for this address: gone by now, or still that mailbox. */
  ghost predicate Issued(rows: Rows, id: nat, address: string) {
    id < rows.nextMailbox && (id in rows.mailboxes ==> rows.mailboxes[id].address == address)
  }

  ghost predicate TaskInv(rows: Rows, task: Task) {
    match task
    case Delivery(job, Insert(id)) => Issued(rows, id, job.to)
    case Listing(a, _, Fetch(id)) => Issued(rows, id, a)
    case _ => true
  }

  ghost predicate Inv(s: System) {
    && Sound(s.rows)
    && forall k | 0 <= k < |s.tasks| :: TaskInv(s.rows, s.tasks[k])
  }

  /** Keys are not reused: whatever a statement does, an issued key keeps its address. */
  ghost predicate KeysStable(rows: Rows, rows': Rows) {
    && rows.nextMailbox <= rows'.nextMailbox
    && forall i | i in rows'.mailboxes && i < rows.nextMailbox :: i in rows.mailboxes && rows'.mailboxes[i] == rows.mailboxes[i]
  }

  lemma KeysStableKeepsTask(rows: Rows, rows': Rows, task: Task)
    requires KeysStable(rows, rows') && TaskInv(rows, task)
    ensures TaskInv(rows', task)
  {
  }

  lemma DeliverStepKeepsInv(rows: Rows, job: Job, pc: DeliverPc, clock: Clock)
    requires Sound(rows) && TaskInv(rows, Delivery(job, pc))
    ensures var (rows', pc') := DeliverStep(rows, job, pc, clock);
            Sound(rows') && KeysStable(rows, rows') && TaskInv(rows', Delivery(job, pc'))
  {
    FirstFinds(rows, job.to);
    if pc.Create? && CreateMailbox(rows, NewMailbox(job.to, clock)).Ok? {
      CreateMailboxSound(rows, NewMailbox(job.to, clock));
    }
    if pc.Insert? && CreateMessage(rows, MessageOf(job, pc.mailboxId)).Ok? {
      CreateMessageSound(rows, MessageOf(job, pc.mailboxId));
    }
  }

  lemma AdvanceKeepsInv(rows: Rows, task: Task, clock: Clock)
    requires Sound(rows) && TaskInv(rows, task)
    ensures var (rows', task') := Advance(rows, task, clock);
            Sound(rows') && KeysStable(rows, rows') && TaskInv(rows', task')
  {
    match task
    case Delivery(job, pc) => DeliverStepKeepsInv(rows, job, pc, clock);
    case Registration(mb, pc) =>
      if CreateMailbox(rows, mb).Ok? {
        CreateMailboxSound(rows, mb);
      }
    case Listing(a, configured, pc) =>
      FirstFinds(rows, a);
      if CreateMailbox(rows, NewMailbox(a, clock)).Ok? {
        CreateMailboxSound(rows, NewMailbox(a, clock));
      }
  }

  lemma CleanupKeepsInv(rows: Rows, t: Step)
    requires Sound(rows)
    requires t.RemoveMailbox? || t.CleanupExpired? || t.CleanupOld? || t.RemoveMessage?
    ensures var rows' := Apply(System(rows, []), t).rows; Sound(rows') && KeysStable(rows, rows')
  {
    match t
    case RemoveMailbox(a) => DropMailboxesSound(rows, WithAddress(rows, a));
    case CleanupExpired(now) => DropMailboxesSound(rows, Expired(rows, now));
    case CleanupOld(cutoff) => DeleteMessagesSound(rows, DeleteReceivedBefore(rows, cutoff).messages);
    case RemoveMessage(id) => DeleteMessagesSound(rows, DeleteMessage(rows, id).messages);
  }

  lemma StepKeepsInv(s: System, t: Step)
    requires Inv(s) && Enabled(s, t)
    ensures Inv(Apply(s, t))
  {
    var s' := Apply(s, t);
    if t.Statement? {
      AdvanceKeepsInv(s.rows, s.tasks[t.k], t.clock);
    } else if t.RemoveMailbox? || t.CleanupExpired? || t.CleanupOld? || t.RemoveMessage? {
      CleanupKeepsInv(s.rows, t);
    }
    assert KeysStable(s.rows, s'.rows);
    forall k | 0 <= k < |s'.tasks|
      ensures TaskInv(s'.rows, s'.tasks[k])
    {
      if k < |s.tasks| {
        KeysStableKeepsTask(s.rows, s'.rows, s.tasks[k]);
      }
    }
  }

  /** In every interleaving addresses stay unique and no message is ever filed under a mailbox that
      is gone or belongs to another address. */
  lemma {:induction false} ReferentialSafety(s: System, run: seq<Step>)
    requires Inv(s) && ValidRun(s, run)
    ensures Inv(Exec(s, run))
    decreases |run|
  {
    if run != [] {
      StepKeepsInv(s, run[0]);
      ReferentialSafety(Apply(s, run[0]), run[1..]);
    }
  }

  /** A delivery whose mailbox vanished after the lookup fails and changes nothing; any other one
      files its message under the address it was looked up for. */
  lemma InsertFilesOrFails(s: System, k: nat, clock: Clock)
    requires Inv(s) && k < |s.tasks|
    requires s.tasks[k].Delivery? && s.tasks[k].pc.Insert?
    ensures var id, s' := s.tasks[k].pc.mailboxId, Apply(s, Statement(k, clock));
            if id in s.rows.mailboxes then
              && s'.tasks[k].pc == Finished(Stored(s.rows.nextMessage))
              && s'.rows.messages == s.rows.messages[s.rows.nextMessage := MessageOf(s.tasks[k].job, id)]
              && Filed(s'.rows, MessageOf(s.tasks[k].job, id))
            else
              s'.tasks[k].pc == Finished(Failed(ForeignKeyViolation)) && s'.rows == s.rows
  {
    assert TaskInv(s.rows, s.tasks[k]);
  }

  /** A listing never shows another address's mail, and as long as its mailbox lives it shows all
      mail to the address. */
  lemma ListingShowsOwnMail(s: System, k: nat, clock: Clock)
    requires Inv(s) && k < |s.tasks|
    requires s.tasks[k].Listing? && s.tasks[k].lpc.Fetch?
    ensures var id, a, shown := s.tasks[k].lpc.mailboxId, s.tasks[k].address, Apply(s, Statement(k, clock)).tasks[k].lpc;
            && shown.Listed?
            && (forall i | i in shown.ids :: i in s.rows.messages && s.rows.messages[i].to == a)
            && (id in s.rows.mailboxes ==> shown.ids == set i | i in s.rows.messages && s.rows.messages[i].to == a)
  {
    var rows, id, a := s.rows, s.tasks[k].lpc.mailboxId, s.tasks[k].address;
    assert TaskInv(rows, s.tasks[k]);
    forall i | i in rows.messages
      ensures rows.messages[i].mailboxId == id ==> rows.messages[i].to == a
      ensures id in rows.mailboxes && rows.messages[i].to == a ==> rows.messages[i].mailboxId == id
    {
      assert Filed(rows, rows.messages[i]);
    }
  }

  // ---- every report is one message ----

  predicate Reported(task: Task) {
    task.Delivery? && task.pc.Finished? && task.pc.outcome.Stored?
  }

  ghost function ReportedBy(tasks: seq<Task>): set<nat> {
    set k | 0 <= k < |tasks| && Reported(tasks[k])
  }

  /** The key a delivery reported is its own, and the message under it, unless deleted since, is the
      one it was to deliver. */
  ghost predicate Truthful(rows: Rows, task: Task, base: nat)
    requires Reported(task)
  {
    var id := task.pc.outcome.id;
    && base <= id < rows.nextMessage
    && (id in rows.messages ==> rows.messages[id] == MessageOf(task.job, rows.messages[id].mailboxId))
  }

  /** Counted from key `base` on, as many message keys were handed out as deliveries reported success,
      to each its own. */
  ghost predicate Booked(s: System, base: nat) {
    && s.rows.nextMessage == base + |ReportedBy(s.tasks)|
    && (forall k | 0 <= k < |s.tasks| && Reported(s.tasks[k]) :: Truthful(s.rows, s.tasks[k], base))
    && (forall j, k | 0 <= j < |s.tasks| && 0 <= k < |s.tasks| && Reported(s.tasks[j]) && Reported(s.tasks[k]) &&
                      s.tasks[j].pc.outcome.id == s.tasks[k].pc.outcome.id :: j == k)
  }

  /** Messages are only ever removed, or added under the next key. */
  ghost predicate MessagesGrowByKey(rows: Rows, rows': Rows) {
    forall i | i in rows'.messages && i != rows.nextMessage :: i in rows.messages && rows'.messages[i] == rows.messages[i]
  }

  /** A statement hands out a message key exactly if it completes a delivery. */
  lemma StatementStores(rows: Rows, task: Task, clock: Clock)
    ensures var (rows', task') := Advance(rows, task, clock);
            && MessagesGrowByKey(rows, rows')
            && (Reported(task) ==> task' == task && rows' == rows)
            && rows'.nextMessage == rows.nextMessage + (if Reported(task') && !Reported(task) then 1 else 0)
            && (Reported(task') && !Reported(task) ==>
                  && task'.pc.outcome.id == rows.nextMessage && rows.nextMessage in rows'.messages
                  && rows'.messages[rows.nextMessage] == MessageOf(task'.job, rows'.messages[rows.nextMessage].mailboxId))
  {
  }

  lemma OneMoreReported(tasks: seq<Task>, k: nat, task: Task)
    requires k < |tasks| && (Reported(tasks[k]) ==> Reported(task))
    ensures |ReportedBy(tasks[k := task])| == |ReportedBy(tasks)| + (if Reported(task) && !Reported(tasks[k]) then 1 else 0)
  {
    if Reported(task) && !Reported(tasks[k]) {
      assert ReportedBy(tasks[k := task]) == ReportedBy(tasks) + {k};
    } else {
      assert ReportedBy(tasks[k := task]) == ReportedBy(tasks);
    }
  }

  lemma StatementKeepsBooked(s: System, k: nat, clock: Clock, base: nat)
    requires Booked(s, base) && k < |s.tasks|
    ensures Booked(Apply(s, Statement(k, clock)), base)
  {
    var s' := Apply(s, Statement(k, clock));
    StatementStores(s.rows, s.tasks[k], clock);
    OneMoreReported(s.tasks, k, s'.tasks[k]);
    forall j | 0 <= j < |s'.tasks| && Reported(s'.tasks[j])
      ensures Truthful(s'.rows, s'.tasks[j], base)
      ensures j != k ==> s'.tasks[j] == s.tasks[j] && s.tasks[j].pc.outcome.id < s.rows.nextMessage
    {
      if j != k || Reported(s.tasks[k]) {
        assert Truthful(s.rows, s.tasks[j], base);
      }
    }
  }

  lemma OtherStepKeepsBooked(s: System, t: Step, base: nat)
    requires Booked(s, base) && Enabled(s, t) && !t.Statement?
    ensures Booked(Apply(s, t), base)
  {
    var s' := Apply(s, t);
    assert ReportedBy(s'.tasks) == ReportedBy(s.tasks);
    assert forall j | 0 <= j < |s'.tasks| && Reported(s'.tasks[j]) :: j < |s.tasks| && s'.tasks[j] == s.tasks[j];
    forall j | 0 <= j < |s'.tasks| && Reported(s'.tasks[j])
      ensures Truthful(s'.rows, s'.tasks[j], base)
    {
      assert Truthful(s.rows, s.tasks[j], base);
    }
  }

  /** Over every interleaving a delivery that reports success stored exactly one message, its own, and
      one that fails or is dropped stored none: no message key goes to anyone else. */
  lemma {:induction false} EveryReportIsOneMessage(s: System, run: seq<Step>, base: nat)
    requires Booked(s, base) && ValidRun(s, run)
    ensures Booked(Exec(s, run), base)
    decreases |run|
  {
    if run != [] {
      if run[0].Statement? {
        StatementKeepsBooked(s, run[0].k, run[0].clock, base);
      } else {
        OtherStepKeepsBooked(s, run[0], base);
      }
      EveryReportIsOneMessage(Apply(s, run[0]), run[1..], base);
    }
  }

  /** The message keys that task `k` takes in a run. */
  function KeysTaken(s: System, run: seq<Step>, k: nat): nat
    requires ValidRun(s, run)
    decreases |run|
  {
    if run == [] then 0
    else
      var s' := Apply(s, run[0]);
      (if run[0].Statement? && run[0].k == k then s'.rows.nextMessage - s.rows.nextMessage else 0) + KeysTaken(s', run[1..], k)
  }

  /** Nobody else's step touches a task, and a finished one stays as it is. */
  lemma TaskMoves(s: System, t: Step, k: nat)
    requires Enabled(s, t) && k < |s.tasks|
    ensures var s' := Apply(s, t);
            && k < |s'.tasks|
            && (s'.tasks[k] == s.tasks[k] || ((t.Statement? || t.Fault?) && t.k == k))
            && (s.tasks[k].Delivery? ==> s'.tasks[k].Delivery? && s'.tasks[k].job == s.tasks[k].job)
            && (Reported(s.tasks[k]) ==> s'.tasks[k] == s.tasks[k])
            && (t.Fault? ==> (Reported(s'.tasks[k]) <==> Reported(s.tasks[k])))
  {
  }

  /** A delivery takes one key if it comes to report success, and none otherwise, whatever else goes on
      and whatever fails. */
  lemma {:induction false} OneKeyIffReported(s: System, run: seq<Step>, k: nat)
    requires ValidRun(s, run) && k < |s.tasks|
    ensures k < |Exec(s, run).tasks|
    ensures KeysTaken(s, run, k) == if Reported(Exec(s, run).tasks[k]) && !Reported(s.tasks[k]) then 1 else 0
    ensures Reported(s.tasks[k]) ==> Exec(s, run).tasks[k] == s.tasks[k]
    ensures s.tasks[k].Delivery? ==> Exec(s, run).tasks[k].Delivery? && Exec(s, run).tasks[k].job == s.tasks[k].job
    decreases |run|
  {
    if run != [] {
      TaskMoves(s, run[0], k);
      if run[0].Statement? && run[0].k == k {
        StatementStores(s.rows, s.tasks[k], run[0].clock);
      }
      OneKeyIffReported(Apply(s, run[0]), run[1..], k);
    }
  }

  // ---- why keys must not be reused ----

  /** With keys handed out again after a delete, the same interleaving files mail for one address
      under another: a lookup for `first`, its mailbox deleted, its key given to `second`. */
  lemma RecycledKeyMisfiles(first: Job, second: string, clock: Clock)
    requires first.to != second
    ensures var looked := CreateMailbox(EMPTY, NewMailbox(first.to, clock)).value;
            var recycled := DeleteByAddress(looked, first.to).(nextMailbox := EMPTY.nextMailbox);
            var taken := CreateMailbox(recycled, NewMailbox(second, clock)).value;
            var (rows', pc') := DeliverStep(taken, first, Insert(EMPTY.nextMailbox), clock);
            && DeliverStep(looked, first, Lookup, clock).1 == Insert(EMPTY.nextMailbox)
            && Sound(taken) && pc' == Finished(Stored(1)) && !Sound(rows')
  {
    var looked := CreateMailbox(EMPTY, NewMailbox(first.to, clock)).value;
    assert WithAddress(looked, first.to) == {1};
    FirstFinds(looked, first.to);
    var recycled := DeleteByAddress(looked, first.to).(nextMailbox := EMPTY.nextMailbox);
    assert recycled.mailboxes == map[] && recycled.messages == map[];
    var taken := CreateMailbox(recycled, NewMailbox(second, clock)).value;
    var rows' := DeliverStep(taken, first, Insert(1), clock).0;
    assert !Filed(rows', rows'.messages[1]);
  }
}
