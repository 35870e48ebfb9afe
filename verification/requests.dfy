/**
 The HTTP requests on mailboxes from first to last statement: `ListMessages` with its
 auto-create (handlers/message.go) and `CreateMailbox` (handlers/email.go), left
 alone by other requests. interleaving.dfy has them among others.
 */
module Requests {
  import opened Wrappers
  import opened GoStrings
  import opened Tables
  import opened Store
  import opened Routing
  import opened Addresses
  import opened Interleaving

  // ---- statement after statement ----

  function Left(task: Task): nat {
    match task
    case Delivery(_, pc) => Remaining(pc)
    case Registration(_, CheckTaken) => 2
    case Registration(_, Register) => 1
    case Listing(_, _, Find) => 4
    case Listing(_, _, Make) => 3
    case Listing(_, _, FindAgain) => 2
    case Listing(_, _, Fetch(_)) => 1
    case _ => 0
  }

  /** The task run to its end with nothing in between. */
  function Complete(rows: Rows, task: Task, clock: Clock): (Rows, Task)
    decreases Left(task)
  {
    if Left(task) == 0 then (rows, task)
    else
      var (rows', task') := Advance(rows, task, clock);
      Complete(rows', task', clock)
  }

  ghost predicate Exists(rows: Rows, address: string) {
    exists i :: i in rows.mailboxes && rows.mailboxes[i].address == address
  }

  lemma TakenIff(rows: Rows, address: string)
    ensures WithAddress(rows, address) != {} <==> Exists(rows, address)
  {
    if i :| i in rows.mailboxes && rows.mailboxes[i].address == address {
      assert i in WithAddress(rows, address);
    }
  }

  lemma FetchedIs(rows: Rows, a: string, id: nat)
    requires Sound(rows) && id in rows.mailboxes && rows.mailboxes[id].address == a
    ensures MessagesOf(rows, id) == set i | i in rows.messages && rows.messages[i].to == a
  {
    forall i | i in rows.messages
      ensures rows.messages[i].mailboxId == id <==> rows.messages[i].to == a
    {
      assert Filed(rows, rows.messages[i]);
    }
  }

  lemma FetchCompletes(rows: Rows, a: string, configured: bool, id: nat, clock: Clock)
    ensures Complete(rows, Listing(a, configured, Fetch(id)), clock) == (rows, Listing(a, configured, Listed(MessagesOf(rows, id))))
  {
  }

  lemma NewMailboxIsEmpty(rows: Rows, mb: Mailbox)
    requires Sound(rows) && !Exists(rows, mb.address)
    ensures Tables.CreateMailbox(rows, mb).Ok?
    ensures var made := Tables.CreateMailbox(rows, mb).value;
            && made.messages == rows.messages && made.mailboxes == rows.mailboxes[rows.nextMailbox := mb]
            && MessagesOf(made, rows.nextMailbox) == {}
  {
    TakenIff(rows, mb.address);
    CreateMailboxSound(rows, mb);
    assert forall i | i in rows.messages :: Filed(rows, rows.messages[i]);
  }

  /** A listing shows exactly the mail to its address if the mailbox is there; makes an empty mailbox of
      that address, good for a year, if it is not but the address is on a configured domain; and else
      finds nothing. */
  lemma ListingIs(rows: Rows, a: string, configured: bool, clock: Clock)
    requires Sound(rows)
    ensures var (rows', task) := Complete(rows, Listing(a, configured, Find), clock);
            && task.Listing? && rows'.messages == rows.messages
            && (if Exists(rows, a) then
                  rows' == rows && task.lpc == Listed(set i | i in rows.messages && rows.messages[i].to == a)
                else if configured then
                  && task.lpc == Listed({})
                  && rows'.mailboxes == rows.mailboxes[rows.nextMailbox := Mailbox(a, LocalPart(a), clock.inAYear)]
                else rows' == rows && task.lpc == NotFound)
  {
    TakenIff(rows, a);
    FirstFinds(rows, a);
    if Exists(rows, a) {
      var id := FirstByAddress(rows, a).value;
      FetchedIs(rows, a, id);
      FetchCompletes(rows, a, configured, id, clock);
      assert Complete(rows, Listing(a, configured, Find), clock) == Complete(rows, Listing(a, configured, Fetch(id)), clock);
    } else if configured {
      var id, made := rows.nextMailbox, Tables.CreateMailbox(rows, NewMailbox(a, clock)).value;
      NewMailboxIsEmpty(rows, NewMailbox(a, clock));
      FetchCompletes(made, a, configured, id, clock);
      assert Complete(rows, Listing(a, configured, Find), clock) == Complete(rows, Listing(a, configured, Make), clock);
      assert Complete(rows, Listing(a, configured, Make), clock) == Complete(made, Listing(a, configured, Fetch(id)), clock);
    }
  }

  /** Another request may make the mailbox behind the lookup of a listing or a delivery. The listing then
      shows that mailbox; the delivery fails and stores nothing. */
  lemma Overtaken(rows: Rows, a: string, configured: bool, job: Job, attempt: Attempt)
    requires Sound(rows) && Exists(rows, a) && job.to == a
    ensures var (rows', task) := Complete(rows, Listing(a, configured, Make), attempt.clock);
            && rows' == rows && task.Listing? && task.lpc.Listed?
            && task.lpc.ids == set i | i in rows.messages && rows.messages[i].to == a
    ensures Deliver(rows, job, Create, attempt).0 == rows && Deliver(rows, job, Create, attempt).1.Failed?
  {
    TakenIff(rows, a);
    FirstFinds(rows, a);
    var id, clock := FirstByAddress(rows, a).value, attempt.clock;
    FetchedIs(rows, a, id);
    FetchCompletes(rows, a, configured, id, clock);
    assert Complete(rows, Listing(a, configured, Make), clock) == Complete(rows, Listing(a, configured, FindAgain), clock);
    assert Complete(rows, Listing(a, configured, FindAgain), clock) == Complete(rows, Listing(a, configured, Fetch(id)), clock);
  }

  /** A registration adds exactly its mailbox if the address is free and is rejected without effect if
      not, whether or not it checks first. */
  lemma RegistrationIs(rows: Rows, mb: Mailbox, custom: bool, clock: Clock)
    requires Sound(rows)
    ensures var (rows', task) := Complete(rows, Registration(mb, if custom then CheckTaken else Register), clock);
            && task.Registration? && rows'.messages == rows.messages
            && (if Exists(rows, mb.address)
                then rows' == rows && task.rpc == Rejected
                else rows'.mailboxes == rows.mailboxes[rows.nextMailbox := mb] && task.rpc == Registered(rows.nextMailbox))
  {
    TakenIff(rows, mb.address);
    if custom && !Exists(rows, mb.address) {
      assert Complete(rows, Registration(mb, CheckTaken), clock) == Complete(rows, Registration(mb, Register), clock);
    }
  }

  /** What a failing statement makes of a request: the ignored errors let it go on as if nothing had been
      found, or end a listing as empty; every other one ends the request as failed. */
  lemma FaultEnds(job: Job, id: nat, mb: Mailbox, a: string, configured: bool)
    ensures Interleaving.AfterFault(Delivery(job, Dedup)) == Delivery(job, Lookup)
    ensures Interleaving.AfterFault(Delivery(job, Lookup)) == Interleaving.AfterFault(Delivery(job, Create)) == Interleaving.AfterFault(Delivery(job, Insert(id)))
         == Delivery(job, Finished(Failed(IoError)))
    ensures Interleaving.AfterFault(Registration(mb, CheckTaken)) == Registration(mb, Register)
    ensures Interleaving.AfterFault(Registration(mb, Register)) == Registration(mb, Rejected)
    ensures Interleaving.AfterFault(Listing(a, configured, Find)) == Interleaving.AfterFault(Listing(a, configured, FindAgain)) == Listing(a, configured, Broken)
    ensures Interleaving.AfterFault(Listing(a, configured, Make)) == Listing(a, configured, FindAgain)
    ensures Interleaving.AfterFault(Listing(a, configured, Fetch(id))) == Listing(a, configured, Listed({}))
  {
  }

  /** Deleting a mailbox in the middle of other requests does nothing to those, and takes exactly the
      mailbox of the address and the mail to it. */
  lemma RemovalAmongOthers(s: System, a: string)
    requires Interleaving.Inv(s)
    ensures var s' := Apply(s, RemoveMailbox(a));
            && s'.tasks == s.tasks && Shrinks(s.rows, s'.rows)
            && (forall i | i in s.rows.mailboxes :: i in s'.rows.mailboxes <==> s.rows.mailboxes[i].address != a)
            && (forall i | i in s.rows.messages :: i in s'.rows.messages <==> s.rows.messages[i].to != a)
  {
    DeletedByAddress(s.rows, a);
  }

  /** The cleanup of mailboxes takes exactly those past their expiry. */
  lemma ExpiryAmongOthers(s: System, now: int)
    requires Interleaving.Inv(s)
    ensures var s' := Apply(s, CleanupExpired(now));
            && s'.tasks == s.tasks && Shrinks(s.rows, s'.rows)
            && (forall i | i in s.rows.mailboxes :: i in s'.rows.mailboxes <==> s.rows.mailboxes[i].expiresAt >= now)
  {
    DeletedExpired(s.rows, now);
  }

  /** The cleanup of messages takes exactly the old ones, and a delete exactly its one message. */
  lemma MessagesGoAmongOthers(s: System, cutoff: int, id: nat)
    requires Interleaving.Inv(s)
    ensures var s' := Apply(s, CleanupOld(cutoff));
            && s'.tasks == s.tasks && Shrinks(s.rows, s'.rows) && s'.rows.mailboxes == s.rows.mailboxes
            && (forall i | i in s.rows.messages :: i in s'.rows.messages <==> s.rows.messages[i].receivedAt >= cutoff)
    ensures var s' := Apply(s, RemoveMessage(id));
            && s'.tasks == s.tasks && Shrinks(s.rows, s'.rows) && s'.rows.mailboxes == s.rows.mailboxes
            && (forall i | i in s.rows.messages :: i in s'.rows.messages <==> i != id)
  {
    DeletedMessages(s.rows, cutoff, id);
  }

  // ---- the handlers ----

  /** `ListMessages` behind the sync: the messages of the mailbox, or nothing for the 404 answer. */
  method ListMessages(db: Database, param: string, domains: seq<string>, allowSubdomains: bool, clock: Clock)
    returns (shown: Option<set<nat>>)
    requires Sound(db.Contents())
    modifies db
    ensures var address, rows := ToLower(param), old(db.Contents());
            && db.messages == rows.messages
            && (if Exists(rows, address) then
                  db.Contents() == rows && shown == Some(set i | i in rows.messages && rows.messages[i].to == address)
                else if Configured(address, domains, allowSubdomains) then
                  && shown == Some({})
                  && db.mailboxes == rows.mailboxes[rows.nextMailbox := Mailbox(address, LocalPart(address), clock.inAYear)]
                else db.Contents() == rows && shown == None)
  {
    ghost var before := db.Contents();
    var address := ToLower(param);
    var found := db.First(address);
    var id: nat;
    if found.None? {
      var ours := IsConfiguredAddress(address, domains, allowSubdomains);
      if !ours {
        return None;
      }
      NewMailboxIsEmpty(before, NewMailbox(address, clock));
      var made := db.InsertMailbox(NewMailbox(address, clock));
      id := made.value;
    } else {
      id := found.value;
      FetchedIs(before, address, id);
    }
    shown := Some(set i | i in db.messages && db.messages[i].mailboxId == id);
    assert shown.value == MessagesOf(db.Contents(), id);
  }

  datatype Creation = Refused(why: Refusal) | Taken | Created(id: nat, address: string)

  const HOUR := 3600 * 1_000_000_000

  /** `CreateMailbox`: the address, the collision check for custom names, and the new row. */
  method CreateMailbox(db: Database, cfg: Config, req: Request, ttlHours: int, requestedHours: int,
                       nameUuid: string, subUuid: string, now: int)
    returns (r: Creation)
    requires Sound(db.Contents()) && IsUuid(nameUuid) && IsUuid(subUuid)
    modifies db
    ensures var wanted, rows := NewAddress(cfg, req, nameUuid, subUuid), old(db.Contents());
            match wanted
            case Err(e) => r == Refused(e) && db.Contents() == rows
            case Ok(address) =>
              if Exists(rows, address) then r == Taken && db.Contents() == rows
              else
                && r == Created(rows.nextMailbox, address) && db.messages == rows.messages
                && var hours := if requestedHours > 0 then requestedHours else ttlHours;
                   db.mailboxes == rows.mailboxes[rows.nextMailbox := Mailbox(address, LocalPart(address), now + hours * 3_600_000_000_000)]
  {
    ghost var before := db.Contents();
    var wanted := CreateAddress(cfg, req, nameUuid, subUuid);
    if wanted.Err? {
      return Refused(wanted.error);
    }
    var address := wanted.value;
    if req.name != "" {
      var count := db.First(address);
      if count.Some? {
        return Taken;
      }
    }
    var ttl := ttlHours;
    if requestedHours > 0 {
      ttl := requestedHours;
    }
    var created := db.InsertMailbox(Mailbox(address, LocalPart(address), now + ttl * HOUR));
    if created.Err? {
      return Taken;
    }
    return Created(created.value, address);
  }
}
