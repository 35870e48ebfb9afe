/**
 What the IMAP drain leaves in the database: which of the mails it offers become
 rows, what those rows say, and that nothing else is added.
 */
module ImapStore {
  import opened Wrappers
  import opened GoStrings
  import opened Routing
  import opened Tables
  import opened Store
  import opened ImapDrain

  // ---- one mail ----

  /** The address a raw mail is stored under, empty if it cannot be parsed or is for no configured domain. */
  function AddressOf(setup: Setup, raw: string): string {
    match setup.parse(raw)
    case None => ""
    case Some(env) => Recipient([env.to, env.deliveredTo, env.forwardedTo, env.originalTo], setup.domains)
  }

  predicate Wanted(setup: Setup, m: Mail) {
    m.body.Some? && AddressOf(setup, m.body.value) != ""
  }

  /** The row is that of the raw mail. */
  predicate RowOf(setup: Setup, raw: string, row: Message) {
    && setup.parse(raw).Some?
    && var env := setup.parse(raw).value;
       && row.raw == raw && row.to == AddressOf(setup, raw) && row.graphId == ""
       && row.sender == TrimSpace(env.sender) && row.subject == env.subject
       && row.text == env.text && row.html == env.html
  }

  /** A mail for a configured domain gets one new row, exactly if no statement fails; any other adds no
      message. */
  ghost predicate Placed(setup: Setup, m: Mail, attempt: Attempt, before: Rows, after: Rows) {
    && Sound(after) && Extends(before, after)
    && if Wanted(setup, m) && Unhindered(before, AddressOf(setup, m.body.value), attempt.faults)
       then
         && after.nextMessage == before.nextMessage + 1
         && after.messages.Keys == before.messages.Keys + {before.nextMessage}
         && RowOf(setup, m.body.value, after.messages[before.nextMessage])
         && after.messages[before.nextMessage].receivedAt == attempt.clock.now
       else after.messages == before.messages && after.nextMessage == before.nextMessage
  }

  lemma MailIsPlaced(setup: Setup, raw: string, seen: bool, attempt: Attempt, before: Rows)
    requires Sound(before)
    ensures Placed(setup, Mail(seen, Some(raw)), attempt, before, StoreRaw(before, setup.domains, setup.parse(raw), raw, attempt).0)
  {
    StoreRawTakesKey(before, setup.domains, setup.parse(raw), raw, attempt);
    if setup.parse(raw).Some? {
      var env := setup.parse(raw).value;
      var to := Recipient(RoutingHeaders(env), setup.domains);
      if to != "" {
        DeliverFilesIff(before, RawJob(env, to, raw, attempt.clock.now), attempt);
        if Unhindered(before, to, attempt.faults) {
          StoredMailSays(before, setup.domains, env, raw, attempt);
        }
      }
    }
  }

  // ---- one round ----

  /** The rows in front of each mail of a round and behind the last one. */
  ghost predicate PlacedAll(setup: Setup, box: seq<Mail>, ids: seq<nat>, attempts: nat -> Attempt, states: seq<Rows>) {
    && |states| == |ids| + 1
    && forall j: nat | j < |ids| :: ids[j] < |box| && Placed(setup, box[ids[j]], attempts(j), states[j], states[j + 1])
  }

  lemma {:induction false} MailsArePlaced(setup: Setup, rows: Rows, box: seq<Mail>, ids: seq<nat>, attempts: nat -> Attempt)
    returns (states: seq<Rows>)
    requires Sound(rows) && forall j | 0 <= j < |ids| :: ids[j] < |box|
    ensures PlacedAll(setup, box, ids, attempts, states)
    ensures states[0] == rows && states[|ids|] == StoreMails(setup, rows, box, ids, attempts) && Sound(states[|ids|])
  {
    if ids == [] {
      states := [rows];
    } else {
      var n := |ids| - 1;
      var front := MailsArePlaced(setup, rows, box, ids[..n], attempts);
      var after := StoreMails(setup, rows, box, ids, attempts);
      assert Placed(setup, box[ids[n]], attempts(n), front[n], after) by {
        NextMail(setup, rows, box, ids, attempts, n);
        assert ids[..n + 1] == ids;
        if box[ids[n]].body.Some? {
          MailIsPlaced(setup, box[ids[n]].body.value, box[ids[n]].seen, attempts(n), front[n]);
        }
      }
      states := front + [after];
      forall j: nat | j < |ids|
        ensures Placed(setup, box[ids[j]], attempts(j), states[j], states[j + 1])
      {
        if j < n {
          assert ids[..n][j] == ids[j];
          assert states[j] == front[j] && states[j + 1] == front[j + 1];
        }
      }
    }
  }

  /** What a round adds to the database, mail by mail, however it ends and whatever statements fail. */
  lemma RoundPlaces(setup: Setup, s: State, r: Round) returns (states: seq<Rows>)
    requires Sound(s.rows)
    ensures PlacedAll(setup, s.box + r.arrivals, Taken(s, r), r.attempts, states)
    ensures states[0] == s.rows && states[|Taken(s, r)|] == Apply(setup, s, r).0.rows
    ensures Sound(Apply(setup, s, r).0.rows)
  {
    states := MailsArePlaced(setup, s.rows, s.box + r.arrivals, Taken(s, r), r.attempts);
  }

  // ---- the rows of a whole history ----

  /** Which of the first `n` mails handed over became rows, in order. */
  function KeptIn(ids: seq<nat>, states: seq<Rows>, n: nat): seq<nat>
    requires n <= |ids| && |states| == |ids| + 1
  {
    if n == 0 then []
    else KeptIn(ids, states, n - 1) + KeptAt(ids[n - 1], states[n - 1], states[n])
  }

  function KeptAt(id: nat, before: Rows, after: Rows): seq<nat> {
    if after.nextMessage > before.nextMessage then [id] else []
  }

  /** Under `key` lies the row of mail `id`. */
  ghost predicate RowAt(setup: Setup, rows: Rows, key: nat, box: seq<Mail>, id: nat) {
    && id < |box| && box[id].body.Some?
    && key in rows.messages && RowOf(setup, box[id].body.value, rows.messages[key])
  }

  /** Since the rows were `first`, exactly one row was added for each entry of `kept`, in that order, and
      it is the row of that mail; all older rows are as they were. */
  ghost predicate Mirrors(setup: Setup, first: Rows, rows: Rows, box: seq<Mail>, kept: seq<nat>) {
    && rows.nextMessage == first.nextMessage + |kept|
    && (forall i | i in first.messages :: i in rows.messages && rows.messages[i] == first.messages[i])
    && (forall i | i in rows.messages :: i in first.messages || first.nextMessage <= i < rows.nextMessage)
    && (forall j: nat | j < |kept| :: RowAt(setup, rows, first.nextMessage + j, box, kept[j]))
  }

  lemma RowsStay(setup: Setup, first: Rows, before: Rows, after: Rows, box: seq<Mail>, kept: seq<nat>)
    requires Mirrors(setup, first, before, box, kept) && Extends(before, after)
    ensures forall j: nat | j < |kept| :: RowAt(setup, after, first.nextMessage + j, box, kept[j])
    ensures forall i | i in first.messages :: i in after.messages && after.messages[i] == first.messages[i]
  {
    forall j: nat | j < |kept|
      ensures RowAt(setup, after, first.nextMessage + j, box, kept[j])
    {
      assert RowAt(setup, before, first.nextMessage + j, box, kept[j]);
    }
  }

  lemma NewRowMirrored(setup: Setup, first: Rows, before: Rows, after: Rows, box: seq<Mail>, kept: seq<nat>, id: nat)
    requires Mirrors(setup, first, before, box, kept) && Extends(before, after)
    requires after.nextMessage == before.nextMessage + 1 && after.messages.Keys == before.messages.Keys + {before.nextMessage}
    requires RowAt(setup, after, before.nextMessage, box, id)
    ensures Mirrors(setup, first, after, box, kept + [id])
  {
    var more := kept + [id];
    RowsStay(setup, first, before, after, box, kept);
    forall i | i in after.messages
      ensures i in first.messages || first.nextMessage <= i < after.nextMessage
    {
      assert i in before.messages || i == before.nextMessage;
    }
    forall j: nat | j < |more|
      ensures RowAt(setup, after, first.nextMessage + j, box, more[j])
    {
      if j < |kept| {
        assert more[j] == kept[j];
      }
    }
  }

  lemma NoRowMirrored(setup: Setup, first: Rows, before: Rows, after: Rows, box: seq<Mail>, kept: seq<nat>)
    requires Mirrors(setup, first, before, box, kept)
    requires after.messages == before.messages && after.nextMessage == before.nextMessage
    ensures Mirrors(setup, first, after, box, kept + [])
  {
    assert kept + [] == kept;
    forall j: nat | j < |kept|
      ensures RowAt(setup, after, first.nextMessage + j, box, kept[j])
    {
      assert RowAt(setup, before, first.nextMessage + j, box, kept[j]);
    }
  }

  lemma OneMoreMirrored(setup: Setup, first: Rows, before: Rows, after: Rows, box: seq<Mail>, kept: seq<nat>, id: nat, attempt: Attempt)
    requires Mirrors(setup, first, before, box, kept) && id < |box| && Placed(setup, box[id], attempt, before, after)
    ensures Mirrors(setup, first, after, box, kept + KeptAt(id, before, after))
  {
    if after.nextMessage > before.nextMessage {
      NewRowMirrored(setup, first, before, after, box, kept, id);
    } else {
      NoRowMirrored(setup, first, before, after, box, kept);
    }
  }

  lemma StepMirrors(setup: Setup, first: Rows, box: seq<Mail>, ids: seq<nat>, attempts: nat -> Attempt,
                    states: seq<Rows>, kept: seq<nat>, n: nat)
    requires n < |ids| && PlacedAll(setup, box, ids, attempts, states) && Mirrors(setup, first, states[n], box, kept)
    ensures Mirrors(setup, first, states[n + 1], box, kept + KeptAt(ids[n], states[n], states[n + 1]))
  {
    OneMoreMirrored(setup, first, states[n], states[n + 1], box, kept, ids[n], attempts(n));
  }

  lemma {:induction false} ChainMirrors(setup: Setup, first: Rows, box: seq<Mail>, ids: seq<nat>, attempts: nat -> Attempt,
                                        states: seq<Rows>, kept: seq<nat>, n: nat)
    requires n <= |ids| && PlacedAll(setup, box, ids, attempts, states) && Mirrors(setup, first, states[0], box, kept)
    ensures Mirrors(setup, first, states[n], box, kept + KeptIn(ids, states, n))
  {
    if n == 0 {
      assert kept + KeptIn(ids, states, 0) == kept;
    } else {
      ChainMirrors(setup, first, box, ids, attempts, states, kept, n - 1);
      StepMirrors(setup, first, box, ids, attempts, states, kept + KeptIn(ids, states, n - 1), n - 1);
      KeptGrows(ids, states, kept, n);
    }
  }

  lemma KeptGrows(ids: seq<nat>, states: seq<Rows>, kept: seq<nat>, n: nat)
    requires 0 < n <= |ids| && |states| == |ids| + 1
    ensures (kept + KeptIn(ids, states, n - 1)) + KeptAt(ids[n - 1], states[n - 1], states[n]) == kept + KeptIn(ids, states, n)
  {
  }

  lemma KeptAtCount(setup: Setup, m: Mail, attempt: Attempt, before: Rows, after: Rows, id: nat)
    requires Placed(setup, m, attempt, before, after)
    ensures |KeptAt(id, before, after)| <= (if Wanted(setup, m) then 1 else 0)
    ensures attempt.Flawless() ==> |KeptAt(id, before, after)| == if Wanted(setup, m) then 1 else 0
  {
  }

  lemma OneMoreId(ids: seq<nat>, n: nat, i: nat)
    requires 0 < n <= |ids| && forall j, k | 0 <= j < k < |ids| :: ids[j] < ids[k]
    ensures i in ids[..n] <==> i in ids[..n - 1] || i == ids[n - 1]
    ensures ids[n - 1] !in ids[..n - 1]
  {
    assert ids[..n] == ids[..n - 1] + [ids[n - 1]];
  }

  lemma CountAppend(front: seq<nat>, id: nat, last: seq<nat>, i: nat)
    requires last == [] || last == [id]
    ensures multiset(front + last)[i] == multiset(front)[i] + if i == id then |last| else 0
  {
  }

  /** A mail handed over became a row at most once; with no failing statement exactly if it is wanted. */
  lemma {:induction false} KeptCount(setup: Setup, box: seq<Mail>, ids: seq<nat>, attempts: nat -> Attempt,
                                     states: seq<Rows>, i: nat, n: nat)
    requires n <= |ids| && forall j, k | 0 <= j < k < |ids| :: ids[j] < ids[k]
    requires PlacedAll(setup, box, ids, attempts, states) && i < |box|
    ensures multiset(KeptIn(ids, states, n))[i] <= if i in ids[..n] && Wanted(setup, box[i]) then 1 else 0
    ensures (forall k: nat :: attempts(k).Flawless()) ==>
              multiset(KeptIn(ids, states, n))[i] == if i in ids[..n] && Wanted(setup, box[i]) then 1 else 0
  {
    if n > 0 {
      var front, last := KeptIn(ids, states, n - 1), KeptAt(ids[n - 1], states[n - 1], states[n]);
      assert Placed(setup, box[ids[n - 1]], attempts(n - 1), states[n - 1], states[n - 1 + 1]);
      KeptCount(setup, box, ids, attempts, states, i, n - 1);
      KeptAtCount(setup, box[ids[n - 1]], attempts(n - 1), states[n - 1], states[n], ids[n - 1]);
      OneMoreId(ids, n, i);
      CountAppend(front, ids[n - 1], last, i);
    }
  }

  ghost predicate FlawlessRounds(rounds: seq<Round>) {
    forall r, k: nat | 0 <= r < |rounds| :: rounds[r].attempts(k).Flawless()
  }

  /** How often mail `i` was stored, in terms of how often it was offered. */
  ghost predicate CountsAgree(setup: Setup, box: seq<Mail>, kept: seq<nat>, offered: seq<nat>, flawless: bool) {
    forall i | 0 <= i < |box| ::
      && multiset(kept)[i] <= (if Wanted(setup, box[i]) then multiset(offered)[i] else 0)
      && (flawless ==> multiset(kept)[i] == if Wanted(setup, box[i]) then multiset(offered)[i] else 0)
  }

  lemma RoundMirrors(setup: Setup, first: Rows, s: State, r: Round, kept: seq<nat>, flawless: bool) returns (kept': seq<nat>)
    requires Sound(s.rows) && Mirrors(setup, first, s.rows, s.box, kept)
    requires (forall i | i in kept :: i < |s.box|) && (forall i | i in s.offered :: i < |s.box|)
    requires CountsAgree(setup, s.box, kept, s.offered, flawless)
    requires flawless ==> forall k: nat :: r.attempts(k).Flawless()
    ensures var s' := Apply(setup, s, r).0;
            && Sound(s'.rows) && Mirrors(setup, first, s'.rows, s'.box, kept')
            && (forall i | i in kept' :: i < |s'.box|) && (forall i | i in s'.offered :: i < |s'.box|)
            && CountsAgree(setup, s'.box, kept', s'.offered, flawless)
  {
    var box, s' := s.box + r.arrivals, Apply(setup, s, r).0;
    var states := RoundPlaces(setup, s, r);
    kept' := kept + KeptIn(Taken(s, r), states, |Taken(s, r)|);
    BoxKeepsBodies(setup, s, r);
    MirrorsBodies(setup, first, s.rows, s.box, box, kept);
    ChainMirrors(setup, first, box, Taken(s, r), r.attempts, states, kept, |Taken(s, r)|);
    MirrorsBodies(setup, first, s'.rows, box, s'.box, kept');
    OfferedInRange(setup, s, r);
    KeptInRange(setup, first, s'.rows, s'.box, kept');
    forall i: nat | i < |s'.box|
      ensures multiset(kept')[i] <= (if Wanted(setup, s'.box[i]) then multiset(s'.offered)[i] else 0)
      ensures flawless ==> multiset(kept')[i] == if Wanted(setup, s'.box[i]) then multiset(s'.offered)[i] else 0
    {
      CountGrows(setup, s, r, kept, states, flawless, i);
      assert s'.box[i].body == box[i].body;
    }
  }

  lemma BoxKeepsBodies(setup: Setup, s: State, r: Round)
    ensures var box, s' := s.box + r.arrivals, Apply(setup, s, r).0;
            && |s'.box| == |box| && (forall i | 0 <= i < |box| :: s'.box[i].body == box[i].body)
            && forall i | 0 <= i < |s.box| :: box[i].body == s.box[i].body
  {
    RoundEffect(setup, s, r);
  }

  lemma KeptInRange(setup: Setup, first: Rows, rows: Rows, box: seq<Mail>, kept: seq<nat>)
    requires Mirrors(setup, first, rows, box, kept)
    ensures forall i | i in kept :: i < |box|
  {
  }

  /** Flags set on mails do not matter for the rows, nor do mails that come in behind them. */
  lemma MirrorsBodies(setup: Setup, first: Rows, rows: Rows, box: seq<Mail>, box': seq<Mail>, kept: seq<nat>)
    requires Mirrors(setup, first, rows, box, kept) && |box| <= |box'|
    requires forall i | 0 <= i < |box| :: box'[i].body == box[i].body
    ensures Mirrors(setup, first, rows, box', kept)
  {
    forall j: nat | j < |kept|
      ensures RowAt(setup, rows, first.nextMessage + j, box', kept[j])
    {
      assert RowAt(setup, rows, first.nextMessage + j, box, kept[j]);
    }
  }

  lemma CountGrows(setup: Setup, s: State, r: Round, kept: seq<nat>, states: seq<Rows>, flawless: bool, i: nat)
    requires (forall k | k in kept :: k < |s.box|) && (forall k | k in s.offered :: k < |s.box|)
    requires CountsAgree(setup, s.box, kept, s.offered, flawless)
    requires flawless ==> forall k: nat :: r.attempts(k).Flawless()
    requires PlacedAll(setup, s.box + r.arrivals, Taken(s, r), r.attempts, states) && i < |s.box + r.arrivals|
    ensures var box, s' := s.box + r.arrivals, Apply(setup, s, r).0;
            var count := multiset(kept + KeptIn(Taken(s, r), states, |Taken(s, r)|))[i];
            && count <= (if Wanted(setup, box[i]) then multiset(s'.offered)[i] else 0)
            && (flawless ==> count == if Wanted(setup, box[i]) then multiset(s'.offered)[i] else 0)
  {
    var box := s.box + r.arrivals;
    CountAfterRound(setup, s, r, i);
    KeptCount(setup, box, Taken(s, r), r.attempts, states, i, |Taken(s, r)|);
    assert Taken(s, r)[..|Taken(s, r)|] == Taken(s, r);
    if i < |s.box| {
      assert box[i] == s.box[i];
    } else {
      assert i !in kept && i !in s.offered;
    }
  }

  lemma {:induction false} RoundsMirror(setup: Setup, first: Rows, s: State, rounds: seq<Round>, kept: seq<nat>, flawless: bool)
    returns (kept': seq<nat>)
    requires Sound(s.rows) && Mirrors(setup, first, s.rows, s.box, kept)
    requires (forall i | i in kept :: i < |s.box|) && (forall i | i in s.offered :: i < |s.box|)
    requires CountsAgree(setup, s.box, kept, s.offered, flawless)
    requires flawless ==> FlawlessRounds(rounds)
    ensures var s' := AfterRounds(setup, s, rounds);
            && Sound(s'.rows) && Mirrors(setup, first, s'.rows, s'.box, kept')
            && CountsAgree(setup, s'.box, kept', s'.offered, flawless)
    decreases |rounds|
  {
    if rounds == [] {
      kept' := kept;
    } else {
      var next := RoundMirrors(setup, first, s, rounds[0], kept, flawless);
      kept' := RoundsMirror(setup, first, Apply(setup, s, rounds[0]).0, rounds[1..], next, flawless);
    }
  }

  /** Over any number of drains of a new poller, whatever breaks off or fails, the messages added to the
      database are exactly rows of wanted mails that were offered, none more often than it was. If no
      statement fails, each is stored as often as it was offered. */
  lemma StoredAsOffered(setup: Setup, box: seq<Mail>, rows: Rows, rounds: seq<Round>) returns (kept: seq<nat>)
    requires Sound(rows)
    ensures var s' := AfterRounds(setup, State(box, rows, []), rounds);
            && Sound(s'.rows) && Mirrors(setup, rows, s'.rows, s'.box, kept)
            && CountsAgree(setup, s'.box, kept, s'.offered, FlawlessRounds(rounds))
  {
    if FlawlessRounds(rounds) {
      kept := RoundsMirror(setup, rows, State(box, rows, []), rounds, [], true);
    } else {
      kept := RoundsMirror(setup, rows, State(box, rows, []), rounds, [], false);
    }
  }

  /** With clean rounds and no failing statement, each wanted mail that was unseen at the start is stored
      exactly once when it is seen and not before, and nothing else is stored. */
  lemma EachMailStoredOnce(setup: Setup, box: seq<Mail>, rows: Rows, rounds: seq<Round>) returns (kept: seq<nat>)
    requires Sound(rows) && FreshArrivals(rounds)
    requires AllClean(setup, State(box, rows, []), rounds) && FlawlessRounds(rounds)
    ensures var s' := AfterRounds(setup, State(box, rows, []), rounds);
            && Mirrors(setup, rows, s'.rows, s'.box, kept)
            && forall i | 0 <= i < |s'.box| ::
                 multiset(kept)[i] ==
                 if Wanted(setup, s'.box[i]) && s'.box[i].seen && !(i < |box| && box[i].seen) then 1 else 0
  {
    var read := set i | 0 <= i < |box| && box[i].seen;
    var s' := AfterRounds(setup, State(box, rows, []), rounds);
    kept := StoredAsOffered(setup, box, rows, rounds);
    FreshPollerOffersOnceIff(setup, box, rows, rounds);
    forall i: nat | i < |s'.box|
      ensures multiset(kept)[i] == if Wanted(setup, s'.box[i]) && s'.box[i].seen && !(i < |box| && box[i].seen) then 1 else 0
    {
      assert CountRight(s', read, i);
    }
  }
}
