/**
 The two tables of models/models.go and the single statements run on them.

 storage/db.go switches default transactions off, so a statement is the unit of
 atomicity. Each one is a function on `Rows`; the class `Database` executes it on
 its own tables. Primary keys count up and are never handed out twice.
 */
module Tables {
  import opened Wrappers

  datatype Mailbox = Mailbox(address: string, name: string, expiresAt: int)

  datatype Message = Message(
    mailboxId: nat,
    graphId: string,
    sender: string,
    to: string,
    subject: string,
    text: string,
    html: string,
    raw: string,
    receivedAt: int)

  datatype Rows = Rows(
    mailboxes: map<nat, Mailbox>,
    messages: map<nat, Message>,
    nextMailbox: nat,
    nextMessage: nat)

  datatype DbError = UniqueViolation | ForeignKeyViolation | IoError

  const EMPTY := Rows(map[], map[], 1, 1)

  // ---- the schema's promises ----

  ghost predicate UniqueAddresses(rows: Rows) {
    forall i, j | i in rows.mailboxes && j in rows.mailboxes &&
                  rows.mailboxes[i].address == rows.mailboxes[j].address :: i == j
  }

  ghost predicate Filed(rows: Rows, m: Message) {
    m.mailboxId in rows.mailboxes && rows.mailboxes[m.mailboxId].address == m.to
  }

  ghost predicate KeysBelowCounters(rows: Rows) {
    && (forall i | i in rows.mailboxes :: i < rows.nextMailbox)
    && (forall i | i in rows.messages :: i < rows.nextMessage)
  }

  /** Addresses are unique and every message lies in the live mailbox of its own `To` address. */
  ghost predicate Sound(rows: Rows) {
    && UniqueAddresses(rows)
    && KeysBelowCounters(rows)
    && (forall i | i in rows.messages :: Filed(rows, rows.messages[i]))
  }

  // ---- statements ----

  function WithAddress(rows: Rows, address: string): set<nat> {
    set i | i in rows.mailboxes && rows.mailboxes[i].address == address
  }

  lemma {:induction false} LeastFrom(s: set<nat>, low: nat, x: nat) returns (least: nat)
    requires x in s && low <= x && forall y | y in s :: low <= y
    ensures least in s && forall y | y in s :: least <= y
    decreases x - low
  {
    if low in s {
      least := low;
    } else {
      least := LeastFrom(s, low + 1, x);
    }
  }

  lemma LeastExists(s: set<nat>)
    requires s != {}
    ensures exists x :: x in s && forall y | y in s :: x <= y
  {
    var x :| x in s;
    var least := LeastFrom(s, 0, x);
  }

  function Least(s: set<nat>): (least: nat)
    requires s != {}
    ensures least in s && forall y | y in s :: least <= y
  {
    LeastExists(s);
    var x :| x in s && forall y | y in s :: x <= y;
    x
  }

  /** `First(&mb, "address = ?", address)`: the match with the lowest primary key. */
  function FirstByAddress(rows: Rows, address: string): Option<nat> {
    var found := WithAddress(rows, address);
    if found == {} then None else Some(Least(found))
  }

  /** `Create(&mb)` under the unique index on `address`. */
  function CreateMailbox(rows: Rows, mb: Mailbox): Result<Rows, DbError> {
    if WithAddress(rows, mb.address) != {} then Err(UniqueViolation)
    else Ok(rows.(mailboxes := rows.mailboxes[rows.nextMailbox := mb], nextMailbox := rows.nextMailbox + 1))
  }

  /** `Create(msg)` under the foreign key to `mailboxes`. */
  function CreateMessage(rows: Rows, m: Message): Result<Rows, DbError> {
    if m.mailboxId !in rows.mailboxes then Err(ForeignKeyViolation)
    else Ok(rows.(messages := rows.messages[rows.nextMessage := m], nextMessage := rows.nextMessage + 1))
  }

  /** `Where("graph_id = ?", id).Count(&count)` and `count > 0`. */
  predicate HasGraphId(rows: Rows, id: string) {
    exists i :: i in rows.messages && rows.messages[i].graphId == id
  }

  /** Deletes mailboxes; `ON DELETE CASCADE` takes their messages along. */
  function DropMailboxes(rows: Rows, doomed: set<nat>): Rows {
    rows.(mailboxes := map i | i in rows.mailboxes && i !in doomed :: rows.mailboxes[i],
          messages := map i | i in rows.messages && rows.messages[i].mailboxId !in doomed :: rows.messages[i])
  }

  function DeleteByAddress(rows: Rows, address: string): Rows {
    DropMailboxes(rows, WithAddress(rows, address))
  }

  function Expired(rows: Rows, now: int): set<nat> {
    set i | i in rows.mailboxes && rows.mailboxes[i].expiresAt < now
  }

  function DeleteExpired(rows: Rows, now: int): Rows {
    DropMailboxes(rows, Expired(rows, now))
  }

  function DeleteReceivedBefore(rows: Rows, cutoff: int): Rows {
    rows.(messages := map i | i in rows.messages && rows.messages[i].receivedAt >= cutoff :: rows.messages[i])
  }

  function DeleteMessage(rows: Rows, id: nat): Rows {
    rows.(messages := map i | i in rows.messages && i != id :: rows.messages[i])
  }

  // ---- the database as an object ----

  class Database {
    var mailboxes: map<nat, Mailbox>
    var messages: map<nat, Message>
    var nextMailbox: nat
    var nextMessage: nat

    ghost function Contents(): Rows
      reads this
    {
      Rows(mailboxes, messages, nextMailbox, nextMessage)
    }

    constructor ()
      ensures Contents() == EMPTY
    {
      mailboxes, messages, nextMailbox, nextMessage := map[], map[], 1, 1;
    }

    /** The match with the lowest key, found by scanning all matches. */
    method First(address: string) returns (id: Option<nat>)
      ensures id.None? <==> forall i | i in mailboxes :: mailboxes[i].address != address
      ensures id.Some? ==> id.value in mailboxes && mailboxes[id.value].address == address
      ensures id.Some? ==> forall i | i in mailboxes && mailboxes[i].address == address :: id.value <= i
      ensures id == FirstByAddress(Contents(), address)
    {
      var left := set i | i in mailboxes && mailboxes[i].address == address;
      ghost var found := left;
      assert found == WithAddress(Contents(), address);
      FirstFinds(Contents(), address);
      id := None;
      while left != {}
        invariant left <= found
        invariant id.None? ==> left == found
        invariant id.Some? ==> id.value in found && forall i | i in found :: i in left || id.value <= i
        decreases left
      {
        var i :| i in left;
        left := left - {i};
        if id.None? || i < id.value {
          id := Some(i);
        }
      }
    }

    method CountGraphId(graphId: string) returns (count: nat)
      ensures count > 0 <==> HasGraphId(Contents(), graphId)
    {
      var hits := set i | i in messages && messages[i].graphId == graphId;
      count := |hits|;
      if i :| i in messages && messages[i].graphId == graphId {
        assert i in hits;
      }
    }

    method InsertMailbox(mb: Mailbox) returns (r: Result<nat, DbError>)
      modifies this
      ensures match CreateMailbox(old(Contents()), mb)
              case Ok(rows) => r == Ok(old(nextMailbox)) && Contents() == rows
              case Err(e) => r == Err(e) && Contents() == old(Contents())
      ensures r.Ok? <==> forall i | i in old(mailboxes) :: old(mailboxes)[i].address != mb.address
      ensures r.Ok? ==> mailboxes == old(mailboxes)[r.value := mb] && r.value == old(nextMailbox) && messages == old(messages)
    {
      var taken := exists i :: i in mailboxes && mailboxes[i].address == mb.address;
      if taken {
        ghost var i :| i in mailboxes && mailboxes[i].address == mb.address;
        assert i in WithAddress(Contents(), mb.address);
        return Err(UniqueViolation);
      }
      mailboxes := mailboxes[nextMailbox := mb];
      r := Ok(nextMailbox);
      nextMailbox := nextMailbox + 1;
    }

    method InsertMessage(m: Message) returns (r: Result<nat, DbError>)
      modifies this
      ensures match CreateMessage(old(Contents()), m)
              case Ok(rows) => r == Ok(old(nextMessage)) && Contents() == rows
              case Err(e) => r == Err(e) && Contents() == old(Contents())
      ensures r.Ok? <==> m.mailboxId in old(mailboxes)
      ensures r.Ok? ==> messages == old(messages)[r.value := m] && r.value == old(nextMessage) && mailboxes == old(mailboxes)
    {
      if m.mailboxId !in mailboxes {
        return Err(ForeignKeyViolation);
      }
      messages := messages[nextMessage := m];
      r := Ok(nextMessage);
      nextMessage := nextMessage + 1;
    }

    /** `DeleteMailbox` of handlers/email.go: reports the number of rows affected. */
    method RemoveMailbox(address: string) returns (affected: nat)
      modifies this
      ensures Contents() == DeleteByAddress(old(Contents()), address)
      ensures affected == |set i | i in old(mailboxes) && old(mailboxes)[i].address == address|
    {
      var doomed := set i | i in mailboxes && mailboxes[i].address == address;
      assert doomed == WithAddress(Contents(), address);
      affected := Drop(doomed);
      assert doomed == set i | i in old(mailboxes) && old(mailboxes)[i].address == address;
    }

    /** `CleanupExpired` of handlers/email.go. */
    method CleanupExpired(now: int) returns (affected: nat)
      modifies this
      ensures Contents() == DeleteExpired(old(Contents()), now)
      ensures affected == |set i | i in old(mailboxes) && old(mailboxes)[i].expiresAt < now|
    {
      var doomed := set i | i in mailboxes && mailboxes[i].expiresAt < now;
      assert doomed == Expired(Contents(), now);
      affected := Drop(doomed);
      assert doomed == set i | i in old(mailboxes) && old(mailboxes)[i].expiresAt < now;
    }

    /** `CleanupOldMessages` of handlers/email.go. */
    method CleanupOldMessages(now: int, maxAge: int) returns (affected: nat)
      modifies this
      ensures maxAge <= 0 ==> Contents() == old(Contents()) && affected == 0
      ensures maxAge > 0 ==>
        && Contents() == DeleteReceivedBefore(old(Contents()), now - maxAge)
        && affected == |set i | i in old(messages) && old(messages)[i].receivedAt < now - maxAge|
    {
      if maxAge <= 0 {
        return 0;
      }
      var cutoff := now - maxAge;
      var doomed := set i | i in messages && messages[i].receivedAt < cutoff;
      messages := map i | i in messages && i !in doomed :: messages[i];
      affected := |doomed|;
    }

    /** `DeleteMessage` of handlers/message.go. */
    method RemoveMessage(id: nat) returns (affected: nat)
      modifies this
      ensures Contents() == DeleteMessage(old(Contents()), id)
      ensures affected == if id in old(messages) then 1 else 0
    {
      affected := if id in messages then 1 else 0;
      messages := map i | i in messages && i != id :: messages[i];
    }

    method Drop(doomed: set<nat>) returns (affected: nat)
      requires doomed <= mailboxes.Keys
      modifies this
      ensures Contents() == DropMailboxes(old(Contents()), doomed)
      ensures affected == |doomed|
    {
      mailboxes, messages :=
        map i | i in mailboxes && i !in doomed :: mailboxes[i],
        map i | i in messages && messages[i].mailboxId !in doomed :: messages[i];
      affected := |doomed|;
    }
  }

  // ---- what each statement keeps ----

  lemma FirstFinds(rows: Rows, address: string)
    ensures match FirstByAddress(rows, address)
            case Some(i) =>
              && i in rows.mailboxes && rows.mailboxes[i].address == address
              && forall j | j in rows.mailboxes && rows.mailboxes[j].address == address :: i <= j
            case None => forall i | i in rows.mailboxes :: rows.mailboxes[i].address != address
  {
    var found := WithAddress(rows, address);
    if found != {} {
      assert forall j | j in rows.mailboxes && rows.mailboxes[j].address == address :: j in found;
    } else {
      assert forall i | i in rows.mailboxes :: i !in found;
    }
  }

  lemma CreateMailboxSound(rows: Rows, mb: Mailbox)
    requires Sound(rows) && CreateMailbox(rows, mb).Ok?
    ensures var rows' := CreateMailbox(rows, mb).value;
            && Sound(rows') && rows'.messages == rows.messages && rows'.nextMessage == rows.nextMessage
            && rows'.mailboxes == rows.mailboxes[rows.nextMailbox := mb] && rows'.nextMailbox == rows.nextMailbox + 1
    ensures forall i | i in rows.mailboxes :: rows.mailboxes[i].address != mb.address
  {
    assert forall i | i in rows.mailboxes :: i !in WithAddress(rows, mb.address);
  }

  lemma CreateMessageSound(rows: Rows, m: Message)
    requires Sound(rows) && CreateMessage(rows, m).Ok? && Filed(rows, m)
    ensures var rows' := CreateMessage(rows, m).value;
            && Sound(rows') && rows'.mailboxes == rows.mailboxes && rows'.nextMailbox == rows.nextMailbox
            && rows'.messages == rows.messages[rows.nextMessage := m] && rows'.nextMessage == rows.nextMessage + 1
  {
  }

  /** What is left of the tables is what was there, and no key becomes free again. */
  ghost predicate Shrinks(rows: Rows, rows': Rows) {
    && rows'.nextMailbox == rows.nextMailbox && rows'.nextMessage == rows.nextMessage
    && (forall i | i in rows'.mailboxes :: i in rows.mailboxes && rows'.mailboxes[i] == rows.mailboxes[i])
    && (forall i | i in rows'.messages :: i in rows.messages && rows'.messages[i] == rows.messages[i])
  }

  /** The cascade takes exactly the doomed mailboxes and their messages, and leaves the tables sound. */
  lemma DropMailboxesSound(rows: Rows, doomed: set<nat>)
    requires Sound(rows)
    ensures var rows' := DropMailboxes(rows, doomed);
            && Sound(rows') && Shrinks(rows, rows')
            && (forall i | i in rows.mailboxes :: i in rows'.mailboxes <==> i !in doomed)
            && (forall i | i in rows.messages :: i in rows'.messages <==> rows.messages[i].mailboxId !in doomed)
  {
    var rows' := DropMailboxes(rows, doomed);
    forall i | i in rows'.messages
      ensures Filed(rows', rows'.messages[i])
    {
      assert Filed(rows, rows.messages[i]);
    }
  }

  /** Deleting an address takes its mailbox and exactly the mail to it. */
  lemma DeletedByAddress(rows: Rows, address: string)
    requires Sound(rows)
    ensures var rows' := DeleteByAddress(rows, address);
            && Sound(rows') && Shrinks(rows, rows')
            && (forall i | i in rows.mailboxes :: i in rows'.mailboxes <==> rows.mailboxes[i].address != address)
            && (forall i | i in rows.messages :: i in rows'.messages <==> rows.messages[i].to != address)
  {
    DropMailboxesSound(rows, WithAddress(rows, address));
    forall i | i in rows.messages
      ensures rows.messages[i].mailboxId in WithAddress(rows, address) <==> rows.messages[i].to == address
    {
      assert Filed(rows, rows.messages[i]);
    }
  }

  /** The cleanup of mailboxes takes exactly those past their expiry, with their mail. */
  lemma DeletedExpired(rows: Rows, now: int)
    requires Sound(rows)
    ensures var rows' := DeleteExpired(rows, now);
            && Sound(rows') && Shrinks(rows, rows')
            && (forall i | i in rows.mailboxes :: i in rows'.mailboxes <==> rows.mailboxes[i].expiresAt >= now)
            && (forall i | i in rows.messages :: i in rows'.messages <==> rows.mailboxes[rows.messages[i].mailboxId].expiresAt >= now)
  {
    DropMailboxesSound(rows, Expired(rows, now));
    assert forall i | i in rows.messages :: Filed(rows, rows.messages[i]);
  }

  /** The cleanup of messages takes exactly the older ones, and a single delete exactly the one. */
  lemma DeletedMessages(rows: Rows, cutoff: int, id: nat)
    requires Sound(rows)
    ensures var rows' := DeleteReceivedBefore(rows, cutoff);
            && Sound(rows') && Shrinks(rows, rows') && rows'.mailboxes == rows.mailboxes
            && forall i | i in rows.messages :: i in rows'.messages <==> rows.messages[i].receivedAt >= cutoff
    ensures var rows' := DeleteMessage(rows, id);
            && Sound(rows') && Shrinks(rows, rows') && rows'.mailboxes == rows.mailboxes
            && forall i | i in rows.messages :: i in rows'.messages <==> i != id
  {
    DeleteMessagesSound(rows, DeleteReceivedBefore(rows, cutoff).messages);
    DeleteMessagesSound(rows, DeleteMessage(rows, id).messages);
  }

  lemma DeleteMessagesSound(rows: Rows, kept: map<nat, Message>)
    requires Sound(rows)
    requires forall i | i in kept :: i in rows.messages && kept[i] == rows.messages[i]
    ensures Sound(rows.(messages := kept))
  {
    forall i | i in kept
      ensures Filed(rows.(messages := kept), kept[i])
    {
      assert Filed(rows, rows.messages[i]);
    }
  }
}
