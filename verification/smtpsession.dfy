/**
 The receiving side of smtp/server.go: which recipients a session accepts, and what
 its answer to DATA says about the mail, alone and while other requests go on.
 */
module SmtpSession {
  import opened Wrappers
  import opened GoStrings
  import opened Routing
  import opened Tables
  import opened Store
  import I = Interleaving

  /** 250, 550 "relaying denied", 450 "temporary failure", or the read error handed through. */
  datatype Reply = Accepted | Denied | Temporary | Broken

  function ReplyTo(outcome: Outcome): Reply {
    if outcome.Unreadable? || outcome.Failed? then Temporary else Accepted
  }

  /** What `Data` does before its first statement: an answer at once, or a delivery. `raw` is the mail as
      read from the connection, if it could be read. */
  datatype Reception = Answered(reply: Reply) | Delivering(job: Job)

  function Receive(domains: seq<string>, parse: string -> Option<Envelope>, raw: Option<string>, now: int): Reception {
    if raw.None? then Answered(Broken)
    else if parse(raw.value).None? then Answered(Temporary)
    else
      var env := parse(raw.value).value;
      var to := Recipient(RoutingHeaders(env), domains);
      if to == "" then Answered(Accepted) else Delivering(RawJob(env, to, raw.value, now))
  }

  /** `Data` with nothing in between. */
  function DataReply(rows: Rows, domains: seq<string>, parse: string -> Option<Envelope>, raw: Option<string>, attempt: Attempt): (Rows, Reply) {
    match Receive(domains, parse, raw, attempt.clock.now)
    case Answered(reply) => (rows, reply)
    case Delivering(job) =>
      var (rows', outcome) := Deliver(rows, job, Lookup, attempt);
      (rows', ReplyTo(outcome))
  }

  class Session {
    const db: Database
    const domains: seq<string>
    const allowSubdomains: bool
    var sender: string

    /** `Start` lowers the configured domains once, for all sessions. */
    constructor (db: Database, configured: seq<string>, allowSubdomains: bool)
      ensures this.db == db && domains == Lowered(configured) && this.allowSubdomains == allowSubdomains
    {
      this.db, this.allowSubdomains := db, allowSubdomains;
      domains, sender := Lowered(configured), "";
    }

    method Mail(from_: string) returns (reply: Reply)
      modifies this
      ensures reply == Accepted && sender == from_
    {
      sender := from_;
      return Accepted;
    }

    method Rcpt(to: string) returns (reply: Reply)
      ensures reply == if Accepts(Normal(to), domains, allowSubdomains) then Accepted else Denied
    {
      var ours := Routing.Rcpt(to, domains, allowSubdomains);
      return if ours then Accepted else Denied;
    }

    method Data(raw: Option<string>, parse: string -> Option<Envelope>, attempt: Attempt) returns (reply: Reply)
      modifies db
      ensures (db.Contents(), reply) == DataReply(old(db.Contents()), domains, parse, raw, attempt)
    {
      if raw.None? {
        return Broken;
      }
      var outcome := StoreMessage(db, domains, parse(raw.value), raw.value, attempt);
      match outcome
      case Stored(_) => return Accepted;
      case NotForOurDomain => return Accepted;
      case Duplicate => return Accepted;
      case Unreadable => return Temporary;
      case Failed(_) => return Temporary;
    }
  }

  /** Some address of some routing header lies on or below a configured domain. */
  ghost predicate HeaderAccepted(env: Envelope, domains: seq<string>) {
    exists h, a :: h in RoutingHeaders(env) && a in Extract(h) && Accepts(Normal(a), domains, true)
  }

  predicate Parses(parse: string -> Option<Envelope>, raw: Option<string>) {
    raw.Some? && parse(raw.value).Some?
  }

  // ---- a session alone ----

  /** On any database and whatever fails, an answer other than 250 means that no message was stored. */
  lemma RefusedStoresNothing(rows: Rows, domains: seq<string>, parse: string -> Option<Envelope>, raw: Option<string>, attempt: Attempt)
    ensures var (rows', reply) := DataReply(rows, domains, parse, raw, attempt);
            !reply.Accepted? ==> rows'.messages == rows.messages && rows'.nextMessage == rows.nextMessage
    ensures var reply := DataReply(rows, domains, parse, raw, attempt).1;
            && !reply.Denied? && (reply.Broken? <==> raw.None?)
            && (raw.Some? && parse(raw.value).None? ==> reply.Temporary?)
  {
    var r := Receive(domains, parse, raw, attempt.clock.now);
    if r.Delivering? {
      StoredTakesKey(rows, r.job, Lookup, attempt);
    }
  }

  /** Left alone, a session answers 250 exactly to mail that is read and parses and that either has no
      routing header on a configured domain or meets no failing statement. Such mail is stored exactly
      if a header leads to a configured domain; the recipients accepted before play no part. */
  lemma AcceptedIff(rows: Rows, domains: seq<string>, parse: string -> Option<Envelope>, raw: Option<string>, attempt: Attempt)
    requires Sound(rows)
    ensures var (rows', reply) := DataReply(rows, domains, parse, raw, attempt);
            && Sound(rows')
            && (reply.Accepted? <==>
                  && Parses(parse, raw)
                  && var env := parse(raw.value).value;
                     (HeaderAccepted(env, domains) ==> Unhindered(rows, Recipient(RoutingHeaders(env), domains), attempt.faults)))
            && (if reply.Accepted? && HeaderAccepted(parse(raw.value).value, domains)
                then rows'.messages.Keys == rows.messages.Keys + {rows.nextMessage} && rows'.messages[rows.nextMessage].raw == raw.value
                else rows'.messages == rows.messages)
  {
    if Parses(parse, raw) {
      var env := parse(raw.value).value;
      var to := Recipient(RoutingHeaders(env), domains);
      DroppedIffNoneAccepted(RoutingHeaders(env), domains);
      if to != "" {
        DeliverFilesIff(rows, RawJob(env, to, raw.value, attempt.clock.now), attempt);
      }
    }
  }

  // ---- among other requests ----

  lemma ReceivesIff(domains: seq<string>, parse: string -> Option<Envelope>, raw: Option<string>, now: int)
    ensures var r := Receive(domains, parse, raw, now);
            && (r.Delivering? <==> Parses(parse, raw) && HeaderAccepted(parse(raw.value).value, domains))
            && (r.Answered? ==> (r.reply.Accepted? <==> Parses(parse, raw)))
            && (r.Delivering? ==> r.job.raw == raw.value)
  {
    if Parses(parse, raw) {
      DroppedIffNoneAccepted(RoutingHeaders(parse(raw.value).value), domains);
    }
  }

  /** Task `k` of `s` is the delivery of this mail, not yet begun. */
  predicate Handles(s: I.System, k: nat, r: Reception) {
    k < |s.tasks| && r.Delivering? && s.tasks[k] == I.Delivery(r.job, Lookup)
  }

  predicate Ended(s: I.System, k: nat) {
    k < |s.tasks| && s.tasks[k].Delivery? && s.tasks[k].pc.Finished?
  }

  /** The answer to DATA, once its delivery, if there is one, is task `k` and has ended. */
  function FinalReply(r: Reception, s: I.System, k: nat): Reply
    requires r.Delivering? ==> Ended(s, k)
  {
    if r.Answered? then r.reply else ReplyTo(s.tasks[k].pc.outcome)
  }

  /** What a delivery took and left behind when it has ended. */
  lemma DeliveryAccount(s: I.System, run: seq<I.Step>, k: nat, base: nat, job: Job)
    requires I.Booked(s, base) && I.ValidRun(s, run)
    requires k < |s.tasks| && s.tasks[k] == I.Delivery(job, Lookup) && Ended(I.Exec(s, run), k)
    ensures var s' := I.Exec(s, run);
            var outcome := s'.tasks[k].pc.outcome;
            && ReplyTo(outcome) == (if outcome.Stored? then Accepted else Temporary)
            && I.KeysTaken(s, run, k) == (if outcome.Stored? then 1 else 0)
            && (outcome.Stored? ==>
                  && base <= outcome.id < s'.rows.nextMessage
                  && (outcome.id in s'.rows.messages ==> s'.rows.messages[outcome.id] == MessageOf(job, s'.rows.messages[outcome.id].mailboxId)))
  {
    I.OneKeyIffReported(s, run, k);
    I.EveryReportIsOneMessage(s, run, base);
    DeliveryEnds(s, run, k);
    var s' := I.Exec(s, run);
    if I.Reported(s'.tasks[k]) {
      assert I.Truthful(s'.rows, s'.tasks[k], base);
    }
  }

  /** Over every interleaving of requests, deletes and cleanups, with any statement failing: the answer
      is 250 if and only if the mail was read, parses, and either no routing header is ours or its
      delivery ended with the mail stored. Otherwise it took no message key. */
  lemma ReplyAmongOthersIff(s: I.System, run: seq<I.Step>, k: nat, base: nat,
                            domains: seq<string>, parse: string -> Option<Envelope>, raw: Option<string>, now: int)
    requires I.Booked(s, base) && I.ValidRun(s, run)
    requires var r := Receive(domains, parse, raw, now); r.Delivering? ==> Handles(s, k, r) && Ended(I.Exec(s, run), k)
    ensures var r, s' := Receive(domains, parse, raw, now), I.Exec(s, run);
            && (FinalReply(r, s', k).Accepted? <==>
                  && Parses(parse, raw)
                  && (HeaderAccepted(parse(raw.value).value, domains) ==> Ended(s', k) && s'.tasks[k].pc.outcome.Stored?))
            && (!FinalReply(r, s', k).Accepted? ==> FinalReply(r, s', k) == if raw.None? then Broken else Temporary)
            && (r.Delivering? ==> I.KeysTaken(s, run, k) == if FinalReply(r, s', k).Accepted? then 1 else 0)
  {
    var r := Receive(domains, parse, raw, now);
    ReceivesIff(domains, parse, raw, now);
    if r.Delivering? {
      DeliveryAccount(s, run, k, base, r.job);
    }
  }

  /** A delivery past its check ends stored or failed. */
  predicate PastCheck(task: I.Task) {
    task.Delivery? && !task.pc.Dedup? && (task.pc.Finished? ==> task.pc.outcome.Stored? || task.pc.outcome.Failed?)
  }

  lemma {:induction false} DeliveryEnds(s: I.System, run: seq<I.Step>, k: nat)
    requires I.ValidRun(s, run) && k < |s.tasks| && PastCheck(s.tasks[k])
    ensures k < |I.Exec(s, run).tasks| && PastCheck(I.Exec(s, run).tasks[k])
    decreases |run|
  {
    if run != [] {
      I.TaskMoves(s, run[0], k);
      DeliveryEnds(I.Apply(s, run[0]), run[1..], k);
    }
  }
}
