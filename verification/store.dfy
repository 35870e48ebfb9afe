/**
 Storing a mail: `StoreMessage` (handlers/store.go) and `StoreGraphMessage`
 (handlers/graph_store.go) as chains of single statements.

 `DeliverStep` is one statement of such a chain, `AfterFault` what follows one that
 fails. `Deliver` runs the rest of the chain with nothing in between, under any
 faults; the methods do the same on a `Database`. What happens when other
 statements come in between is in interleaving.dfy.
 */
module Store {
  import opened Wrappers
  import opened GoStrings
  import opened Routing
  import opened Tables

  /** The two clock readings of one store call: `time.Now()` and `time.Now().AddDate(1, 0, 0)`. */
  datatype Clock = Clock(now: int, inAYear: int)

  /** Which of its statements the database fails: each then returns an error and has no effect. */
  datatype Faults = Faults(dedup: bool, lookup: bool, create: bool, insert: bool)

  /** What one store call meets with. */
  datatype Attempt = Attempt(clock: Clock, faults: Faults) {
    predicate Flawless() {
      !faults.dedup && !faults.lookup && !faults.create && !faults.insert
    }
  }

  /** What is to be stored, once the recipient is known. */
  datatype Job = Job(
    graphId: string,
    to: string,
    sender: string,
    subject: string,
    text: string,
    html: string,
    raw: string,
    receivedAt: int)

  datatype Outcome = Stored(id: nat) | Duplicate | NotForOurDomain | Unreadable | Failed(error: DbError)

  datatype DeliverPc = Dedup | Lookup | Create | Insert(mailboxId: nat) | Finished(outcome: Outcome)

  function LocalPart(address: string): string {
    var i := Index(address, '@');
    if i >= 0 then address[..i] else address
  }

  function NewMailbox(address: string, clock: Clock): Mailbox {
    Mailbox(address, LocalPart(address), clock.inAYear)
  }

  function MessageOf(job: Job, mailboxId: nat): Message {
    Message(mailboxId, job.graphId, job.sender, job.to, job.subject, job.text, job.html, job.raw, job.receivedAt)
  }

  function DeliverStep(rows: Rows, job: Job, pc: DeliverPc, clock: Clock): (Rows, DeliverPc) {
    match pc
    case Dedup => (rows, if HasGraphId(rows, job.graphId) then Finished(Duplicate) else Lookup)
    case Lookup =>
      (match FirstByAddress(rows, job.to)
       case Some(id) => (rows, Insert(id))
       case None => (rows, Create))
    case Create =>
      (match CreateMailbox(rows, NewMailbox(job.to, clock))
       case Ok(rows') => (rows', Insert(rows.nextMailbox))
       case Err(e) => (rows, Finished(Failed(e))))
    case Insert(id) =>
      (match CreateMessage(rows, MessageOf(job, id))
       case Ok(rows') => (rows', Finished(Stored(rows.nextMessage)))
       case Err(e) => (rows, Finished(Failed(e))))
    case Finished(_) => (rows, pc)
  }

  predicate Fails(faults: Faults, pc: DeliverPc) {
    match pc
    case Dedup => faults.dedup
    case Lookup => faults.lookup
    case Create => faults.create
    case Insert(_) => faults.insert
    case Finished(_) => false
  }

  /** The error of the GraphID count is ignored, so that the count reads zero; any other error ends
      the delivery. */
  function AfterFault(pc: DeliverPc): DeliverPc {
    match pc
    case Dedup => Lookup
    case Finished(_) => pc
    case _ => Finished(Failed(IoError))
  }

  function DeliverNext(rows: Rows, job: Job, pc: DeliverPc, attempt: Attempt): (Rows, DeliverPc) {
    if Fails(attempt.faults, pc) then (rows, AfterFault(pc)) else DeliverStep(rows, job, pc, attempt.clock)
  }

  function Remaining(pc: DeliverPc): nat {
    match pc
    case Dedup => 4
    case Lookup => 3
    case Create => 2
    case Insert(_) => 1
    case Finished(_) => 0
  }

  function Deliver(rows: Rows, job: Job, pc: DeliverPc, attempt: Attempt): (Rows, Outcome)
    decreases Remaining(pc)
  {
    if pc.Finished? then (rows, pc.outcome)
    else
      var (rows', pc') := DeliverNext(rows, job, pc, attempt);
      Deliver(rows', job, pc', attempt)
  }

  /** The statement at `pc`, executed on a database object. */
  method Execute(db: Database, job: Job, pc: DeliverPc, attempt: Attempt) returns (next: DeliverPc)
    requires !pc.Finished?
    modifies db
    ensures (db.Contents(), next) == DeliverNext(old(db.Contents()), job, pc, attempt)
  {
    if Fails(attempt.faults, pc) {
      return if pc.Dedup? then Lookup else Finished(Failed(IoError));
    }
    var clock := attempt.clock;
    match pc
    case Dedup =>
      var count := db.CountGraphId(job.graphId);
      return if count > 0 then Finished(Duplicate) else Lookup;
    case Lookup =>
      var found := db.First(job.to);
      return if found.Some? then Insert(found.value) else Create;
    case Create =>
      var created := db.InsertMailbox(NewMailbox(job.to, clock));
      return if created.Ok? then Insert(created.value) else Finished(Failed(created.error));
    case Insert(id) =>
      var inserted := db.InsertMessage(MessageOf(job, id));
      return Finished(if inserted.Ok? then Stored(inserted.value) else Failed(inserted.error));
  }

  /** The chain with nothing in between. */
  method DeliverTo(db: Database, job: Job, dedup: bool, attempt: Attempt) returns (outcome: Outcome)
    modifies db
    ensures (db.Contents(), outcome) == Deliver(old(db.Contents()), job, if dedup then Dedup else Lookup, attempt)
  {
    var pc := if dedup then Dedup else Lookup;
    while !pc.Finished?
      invariant Deliver(db.Contents(), job, pc, attempt)
             == Deliver(old(db.Contents()), job, if dedup then Dedup else Lookup, attempt)
      decreases Remaining(pc)
    {
      pc := Execute(db, job, pc, attempt);
    }
    return pc.outcome;
  }

  // ---- raw mail ----

  /** The parts of a parsed RFC 5322 message the program looks at. */
  datatype Envelope = Envelope(
    to: string,
    deliveredTo: string,
    forwardedTo: string,
    originalTo: string,
    sender: string,
    subject: string,
    text: string,
    html: string)

  function RoutingHeaders(env: Envelope): seq<string> {
    [env.to, env.deliveredTo, env.forwardedTo, env.originalTo]
  }

  function RawJob(env: Envelope, to: string, raw: string, now: int): Job {
    Job("", to, TrimSpace(env.sender), env.subject, env.text, env.html, raw, now)
  }

  function StoreRaw(rows: Rows, domains: seq<string>, env: Option<Envelope>, raw: string, attempt: Attempt): (Rows, Outcome) {
    if env.None? then (rows, Unreadable)
    else
      var to := Recipient(RoutingHeaders(env.value), domains);
      if to == "" then (rows, NotForOurDomain)
      else Deliver(rows, RawJob(env.value, to, raw, attempt.clock.now), Lookup, attempt)
  }

  /** `StoreMessage`; `env` is what the MIME parser made of `raw`, if anything. */
  method StoreMessage(db: Database, domains: seq<string>, env: Option<Envelope>, raw: string, attempt: Attempt)
    returns (outcome: Outcome)
    modifies db
    ensures (db.Contents(), outcome) == StoreRaw(old(db.Contents()), domains, env, raw, attempt)
  {
    if env.None? {
      return Unreadable;
    }
    var e := env.value;
    var to := FindRecipient(e.to, e.deliveredTo, e.forwardedTo, e.originalTo, domains);
    if to == "" {
      return NotForOurDomain;
    }
    outcome := DeliverTo(db, RawJob(e, to, raw, attempt.clock.now), false, attempt);
  }

  // ---- Graph mail ----

  /** A Graph message. `stamp` is the server's receive time; `received` is that time as parsed by
      the client from `receivedDateTime`, if it parses. */
  datatype GraphMessage = GraphMessage(
    id: string,
    subject: string,
    sender: string,
    to: seq<string>,
    cc: seq<string>,
    contentType: string,
    content: string,
    received: Option<int>,
    stamp: int)

  /** `splitGraphBody`: (text, html). */
  function SplitBody(contentType: string, content: string): (string, string) {
    if ToLower(contentType) == "html" then ("", content) else (content, "")
  }

  function GraphJob(gm: GraphMessage, to: string, now: int): Job {
    var (text, html) := SplitBody(gm.contentType, gm.content);
    Job(gm.id, to, TrimSpace(gm.sender), gm.subject, text, html, "",
        if gm.received.Some? then gm.received.value else now)
  }

  function GraphTo(domains: seq<string>, gm: GraphMessage): string {
    GraphRecipient(gm.to, gm.cc, domains)
  }

  function StoreGraph(rows: Rows, domains: seq<string>, gm: GraphMessage, attempt: Attempt): (Rows, Outcome) {
    var to := GraphTo(domains, gm);
    if to == "" then (rows, NotForOurDomain)
    else Deliver(rows, GraphJob(gm, to, attempt.clock.now), if gm.id != "" then Dedup else Lookup, attempt)
  }

  /** `StoreGraphMessage`. */
  method StoreGraphMessage(db: Database, domains: seq<string>, gm: GraphMessage, attempt: Attempt) returns (outcome: Outcome)
    modifies db
    ensures (db.Contents(), outcome) == StoreGraph(old(db.Contents()), domains, gm, attempt)
  {
    var to := FindGraphRecipient(gm.to, gm.cc, domains);
    if to == "" {
      return NotForOurDomain;
    }
    outcome := DeliverTo(db, GraphJob(gm, to, attempt.clock.now), gm.id != "", attempt);
  }

  // ---- what the callers count ----

  /** A delivery takes a message key exactly if it reports a stored message, which has that key. */
  lemma {:induction false} StoredTakesKey(rows: Rows, job: Job, pc: DeliverPc, attempt: Attempt)
    requires !pc.Finished?
    ensures var (rows', outcome) := Deliver(rows, job, pc, attempt);
            && rows'.nextMessage == rows.nextMessage + (if outcome.Stored? then 1 else 0)
            && (outcome.Stored? ==> outcome.id == rows.nextMessage)
            && (!outcome.Stored? ==> rows'.messages == rows.messages)
    decreases Remaining(pc)
  {
    var (rows', pc') := DeliverNext(rows, job, pc, attempt);
    if !pc'.Finished? {
      StoredTakesKey(rows', job, pc', attempt);
    }
  }

  lemma StoreGraphTakesKey(rows: Rows, domains: seq<string>, gm: GraphMessage, attempt: Attempt)
    ensures var (rows', outcome) := StoreGraph(rows, domains, gm, attempt);
            rows'.nextMessage == rows.nextMessage + if outcome.Stored? then 1 else 0
  {
    var to := GraphTo(domains, gm);
    if to != "" {
      StoredTakesKey(rows, GraphJob(gm, to, attempt.clock.now), if gm.id != "" then Dedup else Lookup, attempt);
    }
  }

  lemma StoreRawTakesKey(rows: Rows, domains: seq<string>, env: Option<Envelope>, raw: string, attempt: Attempt)
    ensures var (rows', outcome) := StoreRaw(rows, domains, env, raw, attempt);
            && rows'.nextMessage == rows.nextMessage + (if outcome.Stored? then 1 else 0)
            && (!outcome.Stored? ==> rows'.messages == rows.messages)
  {
    if env.Some? {
      var to := Recipient(RoutingHeaders(env.value), domains);
      StoredTakesKey(rows, RawJob(env.value, to, raw, attempt.clock.now), Lookup, attempt);
    }
  }

  // ---- what a stored row says ----

  /** The new row of a stored mail has the mail's own fields, is addressed to the first recipient found in
      the four routing headers, and lies in that address's mailbox. */
  lemma StoredMailSays(rows: Rows, domains: seq<string>, env: Envelope, raw: string, attempt: Attempt)
    requires Sound(rows) && StoreRaw(rows, domains, Some(env), raw, attempt).1.Stored?
    ensures var rows' := StoreRaw(rows, domains, Some(env), raw, attempt).0;
            && rows'.messages.Keys == rows.messages.Keys + {rows.nextMessage}
            && var m := rows'.messages[rows.nextMessage];
               && m.raw == raw && m.subject == env.subject && m.sender == TrimSpace(env.sender)
               && m.text == env.text && m.html == env.html
               && m.graphId == "" && m.receivedAt == attempt.clock.now
               && m.to == Recipient([env.to, env.deliveredTo, env.forwardedTo, env.originalTo], domains)
               && m.mailboxId in rows'.mailboxes && rows'.mailboxes[m.mailboxId].address == m.to
  {
    var to := Recipient(RoutingHeaders(env), domains);
    DeliverFilesIff(rows, RawJob(env, to, raw, attempt.clock.now), attempt);
  }

  /** The same for Graph mail: the body is HTML exactly if its content type says so, and the receive time
      is the parsed one if there is one. */
  lemma StoredGraphSays(rows: Rows, domains: seq<string>, gm: GraphMessage, attempt: Attempt)
    requires Sound(rows) && StoreGraph(rows, domains, gm, attempt).1.Stored?
    ensures var rows' := StoreGraph(rows, domains, gm, attempt).0;
            && rows'.messages.Keys == rows.messages.Keys + {rows.nextMessage}
            && var m := rows'.messages[rows.nextMessage];
               && m.graphId == gm.id && m.subject == gm.subject && m.sender == TrimSpace(gm.sender) && m.raw == ""
               && (if ToLower(gm.contentType) == "html" then m.html == gm.content && m.text == "" else m.text == gm.content && m.html == "")
               && (gm.received.Some? ==> m.receivedAt == gm.received.value)
               && (gm.received.None? ==> m.receivedAt == attempt.clock.now)
               && m.to == GraphRecipient(gm.to, gm.cc, domains)
               && m.mailboxId in rows'.mailboxes && rows'.mailboxes[m.mailboxId].address == m.to
  {
    StoreGraphEnds(rows, domains, gm, attempt);
  }

  /** A mailbox made for an address is named by what stands before its first `@` and expires in a year. */
  lemma MadeMailboxSays(address: string, clock: Clock)
    ensures var mb := NewMailbox(address, clock);
            && mb.address == address && mb.expiresAt == clock.inAYear
            && (if '@' in address then '@' !in mb.name && mb.name + "@" <= address else mb.name == address)
  {
    var i := Index(address, '@');
    if i >= 0 {
      assert address[..i] + "@" == address[..i + 1];
    }
  }

  /** A delivery makes a mailbox exactly if the address has none and neither its lookup nor its creation
      fails; otherwise the mailboxes stay as they are. */
  lemma MailboxMadeIff(rows: Rows, job: Job, attempt: Attempt)
    requires Sound(rows)
    ensures var rows' := Deliver(rows, job, Lookup, attempt).0;
            if (forall i | i in rows.mailboxes :: rows.mailboxes[i].address != job.to) && !attempt.faults.lookup && !attempt.faults.create
            then rows'.mailboxes == rows.mailboxes[rows.nextMailbox := NewMailbox(job.to, attempt.clock)]
            else rows'.mailboxes == rows.mailboxes
  {
    if !attempt.faults.lookup {
      FirstFinds(rows, job.to);
      if WithAddress(rows, job.to) == {} {
        assert Deliver(rows, job, Lookup, attempt) == Deliver(rows, job, Create, attempt);
        if !attempt.faults.create {
          var mid := CreateMailbox(rows, NewMailbox(job.to, attempt.clock)).value;
          CreateMailboxSound(rows, NewMailbox(job.to, attempt.clock));
          assert Deliver(rows, job, Create, attempt) == Deliver(mid, job, Insert(rows.nextMailbox), attempt);
          InsertFiles(mid, job, rows.nextMailbox, attempt);
        }
      } else {
        var id := FirstByAddress(rows, job.to).value;
        assert Deliver(rows, job, Lookup, attempt) == Deliver(rows, job, Insert(id), attempt);
        InsertFiles(rows, job, id, attempt);
      }
    }
  }

  // ---- storing without interference ----

  /** Nothing removed, and what was there is untouched. */
  ghost predicate Extends(rows: Rows, rows': Rows) {
    && (forall i | i in rows.mailboxes :: i in rows'.mailboxes && rows'.mailboxes[i] == rows.mailboxes[i])
    && (forall i | i in rows.messages :: i in rows'.messages && rows'.messages[i] == rows.messages[i])
  }

  /** None of the statements a delivery comes to after its check fails. */
  predicate Unhindered(rows: Rows, to: string, faults: Faults) {
    && !faults.lookup
    && (WithAddress(rows, to) == {} ==> !faults.create)
    && !faults.insert
  }

  /** `m` was stored for `job` under the next key, in the mailbox of its own address. */
  ghost predicate FiledAs(rows: Rows, rows': Rows, job: Job) {
    && rows'.messages.Keys == rows.messages.Keys + {rows.nextMessage}
    && var m := rows'.messages[rows.nextMessage];
       m == MessageOf(job, m.mailboxId) && Filed(rows', m)
  }

  /** Left alone, a delivery stores its message exactly if none of its statements fails: no constraint
      can stop it. If one fails, at most an empty mailbox is left behind. */
  lemma DeliverFilesIff(rows: Rows, job: Job, attempt: Attempt)
    requires Sound(rows)
    ensures var (rows', outcome) := Deliver(rows, job, Lookup, attempt);
            && Sound(rows') && Extends(rows, rows')
            && (rows'.mailboxes == rows.mailboxes ||
                rows'.mailboxes == rows.mailboxes[rows.nextMailbox := NewMailbox(job.to, attempt.clock)])
            && (if Unhindered(rows, job.to, attempt.faults)
                then outcome == Stored(rows.nextMessage) && FiledAs(rows, rows', job)
                else outcome == Failed(IoError) && rows'.messages == rows.messages)
  {
    if !attempt.faults.lookup {
      FirstFinds(rows, job.to);
      match FirstByAddress(rows, job.to)
      case Some(id) =>
        assert Deliver(rows, job, Lookup, attempt) == Deliver(rows, job, Insert(id), attempt);
        InsertFiles(rows, job, id, attempt);
      case None =>
        DeliverToNewMailbox(rows, job, attempt);
    }
  }

  lemma InsertFiles(rows: Rows, job: Job, id: nat, attempt: Attempt)
    requires Sound(rows) && id in rows.mailboxes && rows.mailboxes[id].address == job.to
    ensures var (rows', outcome) := Deliver(rows, job, Insert(id), attempt);
            && Sound(rows') && Extends(rows, rows') && rows'.mailboxes == rows.mailboxes
            && (if attempt.faults.insert
                then outcome == Failed(IoError) && rows' == rows
                else outcome == Stored(rows.nextMessage) && FiledAs(rows, rows', job))
  {
    CreateMessageSound(rows, MessageOf(job, id));
  }

  lemma DeliverToNewMailbox(rows: Rows, job: Job, attempt: Attempt)
    requires Sound(rows) && WithAddress(rows, job.to) == {} && !attempt.faults.lookup
    ensures var (rows', outcome) := Deliver(rows, job, Lookup, attempt);
            && Sound(rows') && Extends(rows, rows')
            && (rows'.mailboxes == rows.mailboxes ||
                rows'.mailboxes == rows.mailboxes[rows.nextMailbox := NewMailbox(job.to, attempt.clock)])
            && (if attempt.faults.create || attempt.faults.insert
                then outcome == Failed(IoError) && rows'.messages == rows.messages
                else outcome == Stored(rows.nextMessage) && FiledAs(rows, rows', job))
  {
    assert Deliver(rows, job, Lookup, attempt) == Deliver(rows, job, Create, attempt);
    if !attempt.faults.create {
      var mb := NewMailbox(job.to, attempt.clock);
      var mid := CreateMailbox(rows, mb).value;
      CreateMailboxSound(rows, mb);
      assert Deliver(rows, job, Create, attempt) == Deliver(mid, job, Insert(rows.nextMailbox), attempt);
      InsertFiles(mid, job, rows.nextMailbox, attempt);
    }
  }

  /** A Graph message the store has nothing left to do for. */
  ghost predicate Absorbed(rows: Rows, domains: seq<string>, gm: GraphMessage) {
    GraphTo(domains, gm) == "" || (gm.id != "" && HasGraphId(rows, gm.id))
  }

  /** The check of a store call finds the message stored, so that nothing else is tried. */
  predicate Caught(rows: Rows, gm: GraphMessage, faults: Faults) {
    gm.id != "" && !faults.dedup && HasGraphId(rows, gm.id)
  }

  /** With a working check, offering an absorbed message again changes nothing. */
  lemma AbsorbedIsSkipped(rows: Rows, domains: seq<string>, gm: GraphMessage, attempt: Attempt)
    requires Absorbed(rows, domains, gm) && !attempt.faults.dedup
    ensures StoreGraph(rows, domains, gm, attempt).0 == rows
  {
  }

  /** How a store call of a Graph message ends, whatever fails on the way. */
  lemma StoreGraphEnds(rows: Rows, domains: seq<string>, gm: GraphMessage, attempt: Attempt)
    requires Sound(rows)
    ensures var (rows', outcome) := StoreGraph(rows, domains, gm, attempt);
            var to, faults := GraphTo(domains, gm), attempt.faults;
            && Sound(rows') && Extends(rows, rows')
            && (outcome.NotForOurDomain? <==> to == "")
            && (outcome.Duplicate? <==> to != "" && Caught(rows, gm, faults))
            && (outcome.Stored? <==> to != "" && !Caught(rows, gm, faults) && Unhindered(rows, to, faults))
            && (outcome.Failed? <==> to != "" && !Caught(rows, gm, faults) && !Unhindered(rows, to, faults))
            && (if outcome.Stored? then FiledAs(rows, rows', GraphJob(gm, to, attempt.clock.now)) else rows'.messages == rows.messages)
  {
    var to := GraphTo(domains, gm);
    if to != "" && !Caught(rows, gm, attempt.faults) {
      var job := GraphJob(gm, to, attempt.clock.now);
      assert StoreGraph(rows, domains, gm, attempt) == Deliver(rows, job, Lookup, attempt);
      DeliverFilesIff(rows, job, attempt);
    }
  }

  /** A store call leaves the message absorbed exactly if it was before or the call does not fail, and
      it brings no other GraphID. */
  lemma StoreGraphAbsorbsIff(rows: Rows, domains: seq<string>, gm: GraphMessage, attempt: Attempt, id: string)
    requires Sound(rows)
    ensures var (rows', outcome) := StoreGraph(rows, domains, gm, attempt);
            && (HasGraphId(rows', id) <==> HasGraphId(rows, id) || (outcome.Stored? && gm.id == id))
            && (gm.id != "" ==> (Absorbed(rows', domains, gm) <==> Absorbed(rows, domains, gm) || !outcome.Failed?))
  {
    StoreGraphEnds(rows, domains, gm, attempt);
    var (rows', outcome) := StoreGraph(rows, domains, gm, attempt);
    if outcome.Stored? {
      assert rows'.messages[rows.nextMessage].graphId == gm.id;
      assert forall i | i in rows.messages :: rows'.messages[i] == rows.messages[i];
    }
  }

  lemma ExtendsKeepsAbsorbed(rows: Rows, rows': Rows, domains: seq<string>, gm: GraphMessage)
    requires Extends(rows, rows') && Absorbed(rows, domains, gm)
    ensures Absorbed(rows', domains, gm)
  {
    if GraphTo(domains, gm) != "" {
      var i :| i in rows.messages && rows.messages[i].graphId == gm.id;
      assert rows'.messages[i].graphId == gm.id;
    }
  }
}
