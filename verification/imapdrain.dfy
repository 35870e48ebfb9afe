/**
 The IMAP drain of imap/poller.go: `FetchOnce` repeats `fetchUnread` until a search
 for unseen mail comes back empty. There is no GraphID here, so the \Seen flag alone
 decides whether a mail is stored once.
 */
module ImapDrain {
  import opened Wrappers
  import opened Tables
  import opened Store

  /** `body` is what can be read of the mail; `None` stands for a missing, unreadable or empty body. */
  datatype Mail = Mail(seen: bool, body: Option<string>)

  /** How a round ends: an error at SELECT or SEARCH, an error during FETCH after `received` mails came
      through and `lost` more were served but did not arrive, or a complete FETCH followed by a STORE
      of \Seen that works or fails (only logged). */
  datatype Ending = SelectFails | SearchFails | FetchFails(received: nat, lost: nat) | Served(marked: bool)

  /** `arrivals` is the mail that comes in before the round. */
  datatype Round = Round(arrivals: seq<Mail>, ending: Ending, attempts: nat -> Attempt)

  datatype Verdict = Drained | Faulted | StillDraining

  /** `offered` is the history of mails, by position in the mailbox, handed to `StoreMessage`. */
  datatype State = State(box: seq<Mail>, rows: Rows, offered: seq<nat>)

  /** Deployment facts: the configured domains, what the MIME parser does, and whether the server
      sets \Seen when it serves a FETCH of the body (section 6.4.5 of RFC 3501). */
  datatype Setup = Setup(domains: seq<string>, parse: string -> Option<Envelope>, fetchSetsSeen: bool)

  // ---- the server ----

  /** Positions of the unseen mails, ascending. */
  function Unseen(box: seq<Mail>): seq<nat> {
    UnseenBelow(box, |box|)
  }

  function UnseenBelow(box: seq<Mail>, n: nat): (ids: seq<nat>)
    requires n <= |box|
    ensures forall j | 0 <= j < |ids| :: ids[j] < n && !box[ids[j]].seen
    ensures forall i | 0 <= i < n && !box[i].seen :: i in ids
    ensures forall j, k | 0 <= j < k < |ids| :: ids[j] < ids[k]
  {
    if n == 0 then [] else UnseenBelow(box, n - 1) + (if box[n - 1].seen then [] else [n - 1])
  }

  function Marked(box: seq<Mail>, ids: seq<nat>): seq<Mail> {
    seq(|box|, i requires 0 <= i < |box| => if i in ids then box[i].(seen := true) else box[i])
  }

  // ---- one round ----

  function Readable(box: seq<Mail>, ids: seq<nat>): seq<nat>
    requires forall j | 0 <= j < |ids| :: ids[j] < |box|
  {
    if ids == [] then []
    else Readable(box, ids[..|ids| - 1]) + (if box[ids[|ids| - 1]].body.Some? then [ids[|ids| - 1]] else [])
  }

  function StoreMails(setup: Setup, rows: Rows, box: seq<Mail>, ids: seq<nat>, attempts: nat -> Attempt): Rows
    requires forall j | 0 <= j < |ids| :: ids[j] < |box|
  {
    if ids == [] then rows
    else
      var before, mail := StoreMails(setup, rows, box, ids[..|ids| - 1], attempts), box[ids[|ids| - 1]];
      if mail.body.None? then before
      else StoreRaw(before, setup.domains, setup.parse(mail.body.value), mail.body.value, attempts(|ids| - 1)).0
  }

  /** One more mail of a round. */
  lemma NextMail(setup: Setup, rows: Rows, box: seq<Mail>, ids: seq<nat>, attempts: nat -> Attempt, k: nat)
    requires k < |ids| && forall j | 0 <= j < |ids| :: ids[j] < |box|
    ensures Readable(box, ids[..k + 1]) == Readable(box, ids[..k]) + (if box[ids[k]].body.Some? then [ids[k]] else [])
    ensures StoreMails(setup, rows, box, ids[..k + 1], attempts) ==
            var before := StoreMails(setup, rows, box, ids[..k], attempts);
            match box[ids[k]].body
            case None => before
            case Some(raw) => StoreRaw(before, setup.domains, setup.parse(raw), raw, attempts(k)).0
    ensures ids[..k + 1] == ids[..k] + [ids[k]]
  {
    assert ids[..k + 1][..k] == ids[..k];
  }

  function UpTo(ids: seq<nat>, n: nat): seq<nat> {
    if n < |ids| then ids[..n] else ids
  }

  /** The mails that come through of those there are to ask for. */
  function Through(ids: seq<nat>, ending: Ending): seq<nat> {
    match ending
    case SelectFails => []
    case SearchFails => []
    case FetchFails(received, _) => UpTo(ids, received)
    case Served(_) => ids
  }

  /** The mails the server has served by then, whether or not they arrived. */
  function ServedOf(ids: seq<nat>, ending: Ending): seq<nat> {
    match ending
    case FetchFails(received, lost) => UpTo(ids, received + lost)
    case _ => Through(ids, ending)
  }

  /** The mailbox after FETCH and STORE. */
  function Flagged(setup: Setup, box: seq<Mail>, ids: seq<nat>, ending: Ending): seq<Mail> {
    var read := if setup.fetchSetsSeen then Marked(box, ServedOf(ids, ending)) else box;
    if ending == Served(true) then Marked(read, ids) else read
  }

  function Apply(setup: Setup, s: State, r: Round): (State, Result<nat, Ending>) {
    var box := s.box + r.arrivals;
    var ids := Unseen(box);
    if r.ending.SelectFails? || r.ending.SearchFails? then (s.(box := box), Err(r.ending))
    else if ids == [] then (s.(box := box), Ok(0))
    else
      var got := Through(ids, r.ending);
      var s' := State(Flagged(setup, box, ids, r.ending),
                      StoreMails(setup, s.rows, box, got, r.attempts),
                      s.offered + Readable(box, got));
      (s', if r.ending.FetchFails? then Err(r.ending) else Ok(|ids|))
  }

  function Run(setup: Setup, s: State, rounds: seq<Round>): (State, Verdict)
    decreases |rounds|
  {
    if rounds == [] then (s, StillDraining)
    else
      var (s', fetched) := Apply(setup, s, rounds[0]);
      if fetched.Err? then (s', Faulted)
      else if fetched.value == 0 then (s', Drained)
      else Run(setup, s', rounds[1..])
  }

  /** The mailbox session and the database a drain works on. */
  class Poller {
    const setup: Setup
    const db: Database
    var box: seq<Mail>
    ghost var offered: seq<nat>

    ghost function Contents(): State
      reads this, db
    {
      State(box, db.Contents(), offered)
    }

    constructor (setup: Setup, db: Database, box: seq<Mail>)
      ensures this.setup == setup && this.db == db && this.box == box && offered == []
    {
      this.setup, this.db, this.box, offered := setup, db, box, [];
    }

    /** The receive loop of `fetchUnread`. */
    method StoreIncoming(incoming: seq<nat>, attempts: nat -> Attempt) returns (toMarkSeen: seq<nat>, stored: nat, skipped: nat)
      requires forall j | 0 <= j < |incoming| :: incoming[j] < |box|
      modifies this`offered, db
      ensures toMarkSeen == incoming && stored + skipped == |incoming|
      ensures offered == old(offered) + Readable(box, incoming)
      ensures db.Contents() == StoreMails(setup, old(db.Contents()), box, incoming, attempts)
      ensures db.nextMessage == old(db.nextMessage) + stored
    {
      stored, skipped, toMarkSeen := 0, 0, [];
      for k := 0 to |incoming|
        invariant toMarkSeen == incoming[..k]
        invariant stored + skipped == k
        invariant db.nextMessage == old(db.nextMessage) + stored
        invariant offered == old(offered) + Readable(box, incoming[..k])
        invariant db.Contents() == StoreMails(setup, old(db.Contents()), box, incoming[..k], attempts)
      {
        var num := incoming[k];
        NextMail(setup, old(db.Contents()), box, incoming, attempts, k);
        if box[num].body.None? {
          skipped := skipped + 1;
          toMarkSeen := toMarkSeen + [num];
          continue;
        }
        var raw := box[num].body.value;
        StoreRawTakesKey(db.Contents(), setup.domains, setup.parse(raw), raw, attempts(k));
        var outcome := StoreMessage(db, setup.domains, setup.parse(raw), raw, attempts(k));
        offered := offered + [num];
        if outcome.Stored? {
          stored := stored + 1;
        } else {
          skipped := skipped + 1;
        }
        toMarkSeen := toMarkSeen + [num];
      }
      assert incoming[..|incoming|] == incoming;
    }

    /** The flags the server sets while serving, and those the poller asks for after a complete FETCH. */
    method SetFlags(ids: seq<nat>, toMarkSeen: seq<nat>, ending: Ending)
      requires ending.Served? ==> toMarkSeen == ids != []
      modifies this`box
      ensures box == Flagged(setup, old(box), ids, ending)
    {
      if setup.fetchSetsSeen {
        box := Marked(box, ServedOf(ids, ending));
      }
      if ending.Served? {
        if |toMarkSeen| > 0 && ending.marked {
          box := Marked(box, toMarkSeen);
        }
      }
    }

    method FetchUnread(r: Round) returns (fetched: Result<nat, Ending>, stored: nat, skipped: nat)
      modifies this, db
      ensures (Contents(), fetched) == Apply(setup, old(Contents()), r)
      ensures fetched.Ok? ==> stored + skipped == fetched.value
      ensures db.nextMessage == old(db.nextMessage) + stored
    {
      stored, skipped := 0, 0;
      box := box + r.arrivals;
      if r.ending.SelectFails? || r.ending.SearchFails? {
        return Err(r.ending), 0, 0;
      }
      var ids := Unseen(box);
      if ids == [] {
        return Ok(0), 0, 0;
      }
      var incoming := Through(ids, r.ending);
      var toMarkSeen;
      toMarkSeen, stored, skipped := StoreIncoming(incoming, r.attempts);
      SetFlags(ids, toMarkSeen, r.ending);
      if r.ending.FetchFails? {
        return Err(r.ending), stored, skipped;
      }
      return Ok(|ids|), stored, skipped;
    }

    /** The loop of `FetchOnce`; the rounds stand for what the server does. */
    method FetchOnce(rounds: seq<Round>) returns (verdict: Verdict)
      modifies this, db
      ensures (Contents(), verdict) == Run(setup, old(Contents()), rounds)
    {
      for i := 0 to |rounds|
        invariant Run(setup, Contents(), rounds[i..]) == Run(setup, old(Contents()), rounds)
      {
        var fetched, _, _ := FetchUnread(rounds[i]);
        assert rounds[i..][1..] == rounds[i + 1..];
        if fetched.Err? {
          return Faulted;
        }
        if fetched.value == 0 {
          return Drained;
        }
      }
      return StillDraining;
    }
  }

  // ---- exactly once ----

  /** The count due for a mail: one if it became seen since the start and can be read. */
  function Expected(m: Mail, wasRead: bool): nat {
    if !wasRead && m.seen && m.body.Some? then 1 else 0
  }

  ghost predicate CountRight(s: State, read: set<nat>, i: nat)
    requires i < |s.box|
  {
    multiset(s.offered)[i] == Expected(s.box[i], i in read)
  }

  /** Since the start, when the mails in `read` were already seen, each readable mail was offered
      once if it is seen now and never if it is not. */
  ghost predicate OfferedOnce(s: State, read: set<nat>) {
    && (forall i | i in s.offered :: i < |s.box|)
    && forall i | 0 <= i < |s.box| :: CountRight(s, read, i)
  }

  lemma {:induction false} ReadableCount(box: seq<Mail>, ids: seq<nat>)
    requires forall j | 0 <= j < |ids| :: ids[j] < |box|
    requires forall j, k | 0 <= j < k < |ids| :: ids[j] < ids[k]
    ensures forall i | i in Readable(box, ids) :: i in ids
    ensures forall i | 0 <= i < |box| ::
              multiset(Readable(box, ids))[i] == if i in ids && box[i].body.Some? then 1 else 0
  {
    if ids != [] {
      ReadableCount(box, ids[..|ids| - 1]);
      assert ids == ids[..|ids| - 1] + [ids[|ids| - 1]];
    }
  }

  /** What came through is flagged before the next search. */
  predicate Flags(setup: Setup, ending: Ending) {
    setup.fetchSetsSeen || ending == Served(true)
  }

  /** The mails a round hands over. */
  function Taken(s: State, r: Round): (ids: seq<nat>)
    ensures forall j | 0 <= j < |ids| :: ids[j] < |s.box + r.arrivals| && !(s.box + r.arrivals)[ids[j]].seen
    ensures forall j, k | 0 <= j < k < |ids| :: ids[j] < ids[k]
  {
    Through(Unseen(s.box + r.arrivals), r.ending)
  }

  /** Mails the server flagged as it served them, but which never arrived. */
  function LostIn(setup: Setup, s: State, r: Round): set<nat> {
    var ids := Unseen(s.box + r.arrivals);
    if setup.fetchSetsSeen
    then set i | i in ServedOf(ids, r.ending) && i !in Through(ids, r.ending)
    else {}
  }

  lemma LostWereUnseen(setup: Setup, s: State, r: Round)
    ensures forall i | i in LostIn(setup, s, r) :: i < |s.box + r.arrivals| && !(s.box + r.arrivals)[i].seen
  {
    var box := s.box + r.arrivals;
    assert forall i | i in ServedOf(Unseen(box), r.ending) :: i in Unseen(box);
  }

  lemma FirstOf(ids: seq<nat>, n: nat, j: nat)
    requires j < |ids| && forall k, l | 0 <= k < l < |ids| :: ids[k] < ids[l]
    ensures ids[j] in UpTo(ids, n) <==> j < n
  {
    if j < n {
      assert UpTo(ids, n)[j] == ids[j];
    }
  }

  /** Which of the unseen mails, in mailbox order, come through a round, and which are lost in it. */
  lemma TakenIs(setup: Setup, s: State, r: Round, j: nat)
    requires j < |Unseen(s.box + r.arrivals)|
    ensures var i := Unseen(s.box + r.arrivals)[j];
            match r.ending
            case Served(_) => i in Taken(s, r) && i !in LostIn(setup, s, r)
            case FetchFails(received, lost) =>
              && (i in Taken(s, r) <==> j < received)
              && (i in LostIn(setup, s, r) <==> setup.fetchSetsSeen && received <= j < received + lost)
            case _ => i !in Taken(s, r) && i !in LostIn(setup, s, r)
  {
    if r.ending.FetchFails? {
      FirstOf(Unseen(s.box + r.arrivals), r.ending.received, j);
      FirstOf(Unseen(s.box + r.arrivals), r.ending.received + r.ending.lost, j);
    }
  }

  /** `after` is `box` with the mails of `ids`, if `flags`, and those of `lost` flagged. */
  ghost predicate FlagsSet(box: seq<Mail>, after: seq<Mail>, ids: seq<nat>, flags: bool, lost: set<nat>) {
    && |after| == |box|
    && forall i | 0 <= i < |box| ::
         after[i].body == box[i].body && after[i].seen == (box[i].seen || (flags && i in ids) || i in lost)
  }

  lemma MarkedEffect(box: seq<Mail>, ids: seq<nat>)
    ensures FlagsSet(box, Marked(box, ids), ids, true, {})
  {
  }

  lemma FlaggedEffect(setup: Setup, s: State, r: Round)
    ensures var box := s.box + r.arrivals;
            FlagsSet(box, Flagged(setup, box, Unseen(box), r.ending), Taken(s, r), Flags(setup, r.ending), LostIn(setup, s, r))
  {
    var box := s.box + r.arrivals;
    var ids := Unseen(box);
    var served := ServedOf(ids, r.ending);
    var read := if setup.fetchSetsSeen then Marked(box, served) else box;
    MarkedEffect(box, served);
    MarkedEffect(read, ids);
    assert forall i | i in Taken(s, r) :: i in served;
  }

  lemma RoundFlags(setup: Setup, s: State, r: Round)
    ensures FlagsSet(s.box + r.arrivals, Apply(setup, s, r).0.box, Taken(s, r), Flags(setup, r.ending), LostIn(setup, s, r))
  {
    var box := s.box + r.arrivals;
    if r.ending.SelectFails? || r.ending.SearchFails? || Unseen(box) == [] {
      assert Taken(s, r) == [] && LostIn(setup, s, r) == {};
    } else {
      FlaggedEffect(setup, s, r);
    }
  }

  /** What a round does, mail by mail, however it ends. */
  lemma RoundEffect(setup: Setup, s: State, r: Round)
    ensures Apply(setup, s, r).0.offered == s.offered + Readable(s.box + r.arrivals, Taken(s, r))
    ensures FlagsSet(s.box + r.arrivals, Apply(setup, s, r).0.box, Taken(s, r), Flags(setup, r.ending), LostIn(setup, s, r))
  {
    RoundFlags(setup, s, r);
    if Taken(s, r) == [] {
      assert s.offered + [] == s.offered;
    }
  }

  lemma CountAfterRound(setup: Setup, s: State, r: Round, i: nat)
    requires i < |s.box + r.arrivals|
    ensures var box, s' := s.box + r.arrivals, Apply(setup, s, r).0;
            multiset(s'.offered)[i] == multiset(s.offered)[i] + (if i in Taken(s, r) && box[i].body.Some? then 1 else 0)
  {
    var box := s.box + r.arrivals;
    RoundEffect(setup, s, r);
    ReadableCount(box, Taken(s, r));
  }

  lemma OfferedInRange(setup: Setup, s: State, r: Round)
    requires forall i | i in s.offered :: i < |s.box|
    ensures forall i | i in Apply(setup, s, r).0.offered :: i < |s.box + r.arrivals|
  {
    var box := s.box + r.arrivals;
    RoundEffect(setup, s, r);
    ReadableCount(box, Taken(s, r));
    forall i | i in s.offered + Readable(box, Taken(s, r))
      ensures i < |box|
    {
      if i !in s.offered {
        assert i in Taken(s, r);
      }
    }
  }

  lemma ExpectedBefore(s: State, arrivals: seq<Mail>, read: set<nat>, i: nat)
    requires OfferedOnce(s, read) && i < |s.box + arrivals|
    ensures multiset(s.offered)[i] == if i < |s.box| then Expected(s.box[i], i in read) else 0
  {
    if i >= |s.box| {
      assert i !in s.offered;
    } else {
      assert CountRight(s, read, i);
    }
  }

  ghost predicate Unread(arrivals: seq<Mail>) {
    forall i | 0 <= i < |arrivals| :: !arrivals[i].seen
  }

  ghost predicate ReadIn(read: set<nat>, box: seq<Mail>) {
    forall i | i in read :: i < |box| && box[i].seen
  }

  /** The mails with which a round upsets the books: handed over without a flag, or flagged without
      having been handed over. */
  ghost predicate Upsets(setup: Setup, s: State, r: Round, i: nat) {
    && i < |s.box + r.arrivals| && (s.box + r.arrivals)[i].body.Some?
    && ((i in Taken(s, r) && !Flags(setup, r.ending)) || i in LostIn(setup, s, r))
  }

  ghost predicate Clean(setup: Setup, s: State, r: Round) {
    forall i: nat :: !Upsets(setup, s, r, i)
  }

  lemma CountRightIff(setup: Setup, s: State, r: Round, read: set<nat>, i: nat)
    requires OfferedOnce(s, read) && ReadIn(read, s.box) && Unread(r.arrivals)
    requires i < |s.box + r.arrivals|
    ensures var box, s' := s.box + r.arrivals, Apply(setup, s, r).0;
            |s'.box| == |box| && (CountRight(s', read, i) <==> !Upsets(setup, s, r, i))
  {
    CountAfterRound(setup, s, r, i);
    ExpectedBefore(s, r.arrivals, read, i);
    RoundEffect(setup, s, r);
    LostWereUnseen(setup, s, r);
    var box := s.box + r.arrivals;
    assert i in Taken(s, r) ==> !box[i].seen;
    assert i < |s.box| ==> box[i] == s.box[i];
  }

  /** A round, complete or broken off, keeps the books straight exactly if it flags every readable
      mail that came through and none that did not. */
  lemma RoundOffersOnceIff(setup: Setup, s: State, r: Round, read: set<nat>)
    requires OfferedOnce(s, read) && ReadIn(read, s.box) && Unread(r.arrivals)
    ensures OfferedOnce(Apply(setup, s, r).0, read) <==> Clean(setup, s, r)
  {
    var box, s' := s.box + r.arrivals, Apply(setup, s, r).0;
    OfferedInRange(setup, s, r);
    assert |s'.box| == |box| by { RoundEffect(setup, s, r); }
    forall i | 0 <= i < |box|
      ensures CountRight(s', read, i) <==> !Upsets(setup, s, r, i)
    {
      CountRightIff(setup, s, r, read, i);
    }
  }

  lemma RoundKeepsSeen(setup: Setup, s: State, r: Round, read: set<nat>)
    requires ReadIn(read, s.box)
    ensures ReadIn(read, Apply(setup, s, r).0.box)
  {
    RoundEffect(setup, s, r);
  }

  /** The mailbox after any number of rounds, of one drain or of many. */
  function AfterRounds(setup: Setup, s: State, rounds: seq<Round>): State
    decreases |rounds|
  {
    if rounds == [] then s else AfterRounds(setup, Apply(setup, s, rounds[0]).0, rounds[1..])
  }

  /** Every one of these rounds keeps the books straight where it starts. */
  ghost predicate AllClean(setup: Setup, s: State, rounds: seq<Round>)
    decreases |rounds|
  {
    rounds == [] || (Clean(setup, s, rounds[0]) && AllClean(setup, Apply(setup, s, rounds[0]).0, rounds[1..]))
  }

  /** Mail arrives unseen. */
  ghost predicate FreshArrivals(rounds: seq<Round>) {
    forall k | 0 <= k < |rounds| :: Unread(rounds[k].arrivals)
  }

  ghost predicate AllSeen(box: seq<Mail>) {
    forall i | 0 <= i < |box| :: box[i].seen
  }

  lemma SeenStaysUncounted(setup: Setup, s: State, r: Round, i: nat)
    requires i < |s.box| && s.box[i].seen
    ensures var s' := Apply(setup, s, r).0;
            && i < |s'.box| && s'.box[i] == s.box[i]
            && multiset(s'.offered)[i] == multiset(s.offered)[i]
  {
    assert (s.box + r.arrivals)[i] == s.box[i];
    RoundEffect(setup, s, r);
    CountAfterRound(setup, s, r, i);
  }

  /** A seen mail is never offered again; one that was lost when it got its flag is never offered. */
  lemma {:induction false} SeenIsNeverOffered(setup: Setup, s: State, rounds: seq<Round>, i: nat)
    requires i < |s.box| && s.box[i].seen
    ensures var s' := AfterRounds(setup, s, rounds);
            && i < |s'.box| && s'.box[i] == s.box[i]
            && multiset(s'.offered)[i] == multiset(s.offered)[i]
    decreases |rounds|
  {
    if rounds != [] {
      SeenStaysUncounted(setup, s, rounds[0], i);
      SeenIsNeverOffered(setup, Apply(setup, s, rounds[0]).0, rounds[1..], i);
    }
  }

  /** Mail flagged as it was served, but lost on the way, is lost for good: no continuation offers it. */
  lemma LostMailIsNeverOffered(setup: Setup, s: State, r: Round, rounds: seq<Round>, i: nat)
    requires i in LostIn(setup, s, r)
    ensures multiset(AfterRounds(setup, Apply(setup, s, r).0, rounds).offered)[i] == multiset(s.offered)[i]
  {
    LostWereUnseen(setup, s, r);
    RoundEffect(setup, s, r);
    CountAfterRound(setup, s, r, i);
    SeenIsNeverOffered(setup, Apply(setup, s, r).0, rounds, i);
  }

  /** Offered without getting its flag: offered too often by now, or bound to be. */
  ghost predicate Repeated(s: State, i: nat) {
    && i < |s.box| && s.box[i].body.Some?
    && multiset(s.offered)[i] >= (if s.box[i].seen then 2 else 1)
  }

  lemma {:induction false} RepeatedForGood(setup: Setup, s: State, rounds: seq<Round>, i: nat)
    requires !setup.fetchSetsSeen && Repeated(s, i)
    ensures Repeated(AfterRounds(setup, s, rounds), i)
    decreases |rounds|
  {
    if rounds != [] {
      assert (s.box + rounds[0].arrivals)[i] == s.box[i];
      RoundEffect(setup, s, rounds[0]);
      CountAfterRound(setup, s, rounds[0], i);
      RepeatedForGood(setup, Apply(setup, s, rounds[0]).0, rounds[1..], i);
    }
  }

  /** Books once upset are never put straight again. */
  lemma UpsetForGood(setup: Setup, s: State, r: Round, rounds: seq<Round>, read: set<nat>, i: nat)
    requires OfferedOnce(s, read) && ReadIn(read, s.box) && Unread(r.arrivals) && Upsets(setup, s, r, i)
    ensures !OfferedOnce(AfterRounds(setup, Apply(setup, s, r).0, rounds), read)
  {
    var s1 := Apply(setup, s, r).0;
    ExpectedBefore(s, r.arrivals, read, i);
    LostWereUnseen(setup, s, r);
    RoundEffect(setup, s, r);
    CountAfterRound(setup, s, r, i);
    var s' := AfterRounds(setup, s1, rounds);
    if i in LostIn(setup, s, r) {
      SeenIsNeverOffered(setup, s1, rounds, i);
      assert i < |s.box| ==> (s.box + r.arrivals)[i] == s.box[i];
      assert !CountRight(s', read, i);
    } else {
      RepeatedForGood(setup, s1, rounds, i);
      assert !CountRight(s', read, i);
    }
  }

  /** Over any number of drains, with mail arriving in between and drains breaking off anywhere, each
      readable mail not yet seen at the start is offered exactly once when it is seen and never before,
      if and only if every round was clean. */
  lemma {:induction false} EachMailOfferedOnceIff(setup: Setup, s: State, rounds: seq<Round>, read: set<nat>)
    requires OfferedOnce(s, read) && ReadIn(read, s.box) && FreshArrivals(rounds)
    ensures OfferedOnce(AfterRounds(setup, s, rounds), read) <==> AllClean(setup, s, rounds)
    decreases |rounds|
  {
    if rounds != [] {
      assert Unread(rounds[0].arrivals);
      if i: nat :| Upsets(setup, s, rounds[0], i) {
        UpsetForGood(setup, s, rounds[0], rounds[1..], read, i);
      } else {
        RoundOffersOnceIff(setup, s, rounds[0], read);
        RoundKeepsSeen(setup, s, rounds[0], read);
        EachMailOfferedOnceIff(setup, Apply(setup, s, rounds[0]).0, rounds[1..], read);
      }
    }
  }

  lemma EmptyRound(setup: Setup, s: State, r: Round)
    requires Apply(setup, s, r).1 == Ok(0)
    ensures AllSeen(Apply(setup, s, r).0.box)
  {
    NothingUnseen(s.box + r.arrivals);
  }

  /** A drain that ends without error leaves no mail unseen, whatever happened on the way. */
  lemma {:induction false} DrainedMeansSeen(setup: Setup, s: State, rounds: seq<Round>)
    requires Run(setup, s, rounds).1 == Drained
    ensures AllSeen(Run(setup, s, rounds).0.box)
    decreases |rounds|
  {
    var (s', fetched) := Apply(setup, s, rounds[0]);
    if fetched == Ok(0) {
      EmptyRound(setup, s, rounds[0]);
    } else {
      DrainedMeansSeen(setup, s', rounds[1..]);
    }
  }

  predicate Found(s: State, r: Round) {
    Unseen(s.box + r.arrivals) != []
  }

  predicate Breaks(s: State, r: Round) {
    r.ending.SelectFails? || r.ending.SearchFails? || (r.ending.FetchFails? && Found(s, r))
  }

  /** Where and how a drain stops: its rounds follow each other as long as they find mail and do not break
      off; it is faulted exactly if the last of them broke off, and drained exactly if that found none. */
  ghost predicate StopsAt(setup: Setup, s: State, rounds: seq<Round>, verdict: Verdict, n: nat)
    requires n <= |rounds|
    decreases |rounds|
  {
    if rounds == [] then n == 0 && verdict == StillDraining
    else if n == 0 then false
    else if Breaks(s, rounds[0]) then n == 1 && verdict == Faulted
    else if !Found(s, rounds[0]) then n == 1 && verdict == Drained
    else StopsAt(setup, Apply(setup, s, rounds[0]).0, rounds[1..], verdict, n - 1)
  }

  lemma RoundEnds(setup: Setup, s: State, r: Round)
    ensures var fetched := Apply(setup, s, r).1;
            && (fetched.Err? <==> Breaks(s, r))
            && (fetched.Ok? ==> (fetched.value == 0 <==> !Found(s, r)))
  {
  }

  lemma DrainStep(setup: Setup, s: State, rounds: seq<Round>)
    requires rounds != []
    ensures var s' := Apply(setup, s, rounds[0]).0;
            Run(setup, s, rounds) ==
            if Breaks(s, rounds[0]) then (s', Faulted)
            else if !Found(s, rounds[0]) then (s', Drained)
            else Run(setup, s', rounds[1..])
  {
    RoundEnds(setup, s, rounds[0]);
  }

  lemma RoundsStep(setup: Setup, s: State, rounds: seq<Round>, n: nat)
    requires 0 < n <= |rounds|
    ensures AfterRounds(setup, s, rounds[..n]) == AfterRounds(setup, Apply(setup, s, rounds[0]).0, rounds[1..][..n - 1])
  {
    assert rounds[..n][1..] == rounds[1..][..n - 1];
  }

  lemma {:induction false} DrainReaches(setup: Setup, s: State, rounds: seq<Round>, verdict: Verdict, n: nat)
    requires n <= |rounds| && StopsAt(setup, s, rounds, verdict, n)
    ensures Run(setup, s, rounds) == (AfterRounds(setup, s, rounds[..n]), verdict)
    decreases |rounds|
  {
    if rounds != [] {
      var s' := Apply(setup, s, rounds[0]).0;
      DrainStep(setup, s, rounds);
      RoundsStep(setup, s, rounds, n);
      if Breaks(s, rounds[0]) || !Found(s, rounds[0]) {
        assert rounds[1..][..0] == [];
      } else {
        DrainReaches(setup, s', rounds[1..], verdict, n - 1);
      }
    }
  }

  /** How many of the rounds a drain takes. */
  function Taking(setup: Setup, s: State, rounds: seq<Round>): (n: nat)
    ensures n <= |rounds|
    decreases |rounds|
  {
    if rounds == [] then 0
    else if Breaks(s, rounds[0]) || !Found(s, rounds[0]) then 1
    else 1 + Taking(setup, Apply(setup, s, rounds[0]).0, rounds[1..])
  }

  lemma {:induction false} DrainStops(setup: Setup, s: State, rounds: seq<Round>)
    ensures StopsAt(setup, s, rounds, Run(setup, s, rounds).1, Taking(setup, s, rounds))
    decreases |rounds|
  {
    if rounds != [] {
      DrainStep(setup, s, rounds);
      if !Breaks(s, rounds[0]) && Found(s, rounds[0]) {
        DrainStops(setup, Apply(setup, s, rounds[0]).0, rounds[1..]);
      }
    }
  }

  /** A drain is its rounds one after another, up to where it stops. */
  lemma DrainIsRounds(setup: Setup, s: State, rounds: seq<Round>) returns (n: nat)
    ensures n <= |rounds| && Run(setup, s, rounds).0 == AfterRounds(setup, s, rounds[..n])
    ensures StopsAt(setup, s, rounds, Run(setup, s, rounds).1, n)
  {
    n := Taking(setup, s, rounds);
    DrainStops(setup, s, rounds);
    DrainReaches(setup, s, rounds, Run(setup, s, rounds).1, n);
  }

  /** A new poller has offered nothing, so for it the books start straight. */
  lemma FreshPollerOffersOnceIff(setup: Setup, box: seq<Mail>, rows: Rows, rounds: seq<Round>)
    requires FreshArrivals(rounds)
    ensures var s := State(box, rows, []);
            OfferedOnce(AfterRounds(setup, s, rounds), set i | 0 <= i < |box| && box[i].seen) <==> AllClean(setup, s, rounds)
  {
    EachMailOfferedOnceIff(setup, State(box, rows, []), rounds, set i | 0 <= i < |box| && box[i].seen);
  }

  // ---- termination ----

  predicate Quiet(rounds: seq<Round>) {
    forall k | 0 <= k < |rounds| :: rounds[k].arrivals == []
  }

  predicate Smooth(setup: Setup, rounds: seq<Round>) {
    forall k | 0 <= k < |rounds| :: rounds[k].ending.Served? && Flags(setup, rounds[k].ending)
  }

  lemma NothingUnseen(box: seq<Mail>)
    ensures Unseen(box) == [] <==> AllSeen(box)
  {
    if Unseen(box) != [] {
      assert !box[Unseen(box)[0]].seen;
    } else {
      assert forall i | 0 <= i < |box| :: box[i].seen || i in Unseen(box);
    }
  }

  lemma ServedSeesAll(setup: Setup, s: State, r: Round)
    requires r.ending.Served? && Flags(setup, r.ending)
    ensures AllSeen(Apply(setup, s, r).0.box)
  {
    var box := s.box + r.arrivals;
    RoundEffect(setup, s, r);
    assert forall i | 0 <= i < |box| :: box[i].seen || i in Taken(s, r);
  }

  lemma QuietRound(setup: Setup, s: State, r: Round)
    requires r.ending.Served? && Flags(setup, r.ending) && r.arrivals == []
    ensures var (s', fetched) := Apply(setup, s, r);
            && AllSeen(s'.box) && fetched.Ok?
            && (fetched.value == 0 <==> AllSeen(s.box))
  {
    assert s.box + [] == s.box;
    ServedSeesAll(setup, s, r);
    NothingUnseen(s.box);
  }

  /** With no new mail and no command errors two rounds are enough: one to take everything, one to
      see that nothing is left. */
  lemma DrainEndsInTwoRounds(setup: Setup, s: State, rounds: seq<Round>)
    requires Smooth(setup, rounds) && Quiet(rounds) && |rounds| >= 2
    ensures var (s', verdict) := Run(setup, s, rounds); verdict == Drained && AllSeen(s'.box)
  {
    var s1 := Apply(setup, s, rounds[0]).0;
    QuietRound(setup, s, rounds[0]);
    QuietRound(setup, s1, rounds[1]);
    assert rounds[1..][0] == rounds[1];
  }

  // ---- what goes wrong without flags ----

  /** A readable mail that comes through without being flagged stays due. */
  lemma UnflaggedStaysDue(setup: Setup, s: State, r: Round, i: nat)
    requires !Flags(setup, r.ending) && i in Taken(s, r) && (s.box + r.arrivals)[i].body.Some?
    ensures var s' := Apply(setup, s, r).0;
            && |s'.box| == |s.box + r.arrivals| && !s'.box[i].seen && s'.box[i].body.Some?
            && multiset(s'.offered)[i] == multiset(s.offered)[i] + 1
  {
    RoundEffect(setup, s, r);
    CountAfterRound(setup, s, r, i);
  }

  lemma DueIsTaken(s: State, r: Round, i: nat)
    requires i < |s.box| && !s.box[i].seen && r.ending.Served?
    ensures i in Taken(s, r)
  {
    assert (s.box + r.arrivals)[i] == s.box[i];
    assert i in Unseen(s.box + r.arrivals);
  }

  lemma AfterTwo(setup: Setup, s: State, first: Round, second: Round)
    ensures AfterRounds(setup, s, [first, second]) == Apply(setup, Apply(setup, s, first).0, second).0
  {
    var s1 := Apply(setup, s, first).0;
    assert [first, second][1..] == [second] && [second][1..] == [];
    assert AfterRounds(setup, s, [first, second]) == AfterRounds(setup, s1, [second]);
  }

  /** A FETCH that breaks off repeats too: on a server that leaves flagging to the client, every
      readable mail received before the break is stored again by the next complete round. */
  lemma BrokenFetchRepeats(setup: Setup, s: State, broken: Round, next: Round, i: nat)
    requires broken.ending.FetchFails? && !setup.fetchSetsSeen && next.ending.Served?
    requires i in Taken(s, broken) && (s.box + broken.arrivals)[i].body.Some?
    ensures multiset(AfterRounds(setup, s, [broken, next]).offered)[i] == multiset(s.offered)[i] + 2
  {
    var s1 := Apply(setup, s, broken).0;
    UnflaggedStaysDue(setup, s, broken, i);
    DueIsTaken(s1, next, i);
    CountAfterRound(setup, s1, next, i);
    AfterTwo(setup, s, broken, next);
  }

  lemma LostRound(setup: Setup, s: State, r: Round, i: nat)
    requires r.arrivals == [] && r.ending == Served(false) && !setup.fetchSetsSeen
    requires i < |s.box| && !s.box[i].seen && s.box[i].body.Some?
    ensures var (s', fetched) := Apply(setup, s, r);
            && |s'.box| == |s.box| && !s'.box[i].seen && s'.box[i].body.Some?
            && multiset(s'.offered)[i] == multiset(s.offered)[i] + 1
            && fetched.Ok? && fetched.value > 0
  {
    assert s.box + [] == s.box;
    DueIsTaken(s, r, i);
    UnflaggedStaysDue(setup, s, r, i);
  }

  /** If neither FETCH nor STORE gets the flag set, the loop does not end, and every due mail is
      stored again in each round. */
  lemma {:induction false} LostFlagsRepeat(setup: Setup, s: State, rounds: seq<Round>, i: nat)
    requires Quiet(rounds) && forall k | 0 <= k < |rounds| :: rounds[k].ending == Served(false)
    requires !setup.fetchSetsSeen && i < |s.box| && !s.box[i].seen && s.box[i].body.Some?
    ensures var (s', verdict) := Run(setup, s, rounds);
            verdict == StillDraining && multiset(s'.offered)[i] == multiset(s.offered)[i] + |rounds|
    decreases |rounds|
  {
    if rounds != [] {
      LostRound(setup, s, rounds[0], i);
      LostFlagsRepeat(setup, Apply(setup, s, rounds[0]).0, rounds[1..], i);
    }
  }
}
