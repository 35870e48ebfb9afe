/**
 The high-water mark of graph/poller.go over whole runs: polls that succeed, fail or
 panic half way, mail arriving and leaving, and unrelated database changes in any
 order.
 */
module HighWater {
  import opened Tables
  import opened Store
  import opened GraphDrain

  /** `offered` is the history of messages handed to `StoreGraphMessage`, `outcomes` how those calls
      ended. The code counts a failed call as skipped and moves the mark on all the same. */
  datatype Session = Session(
    inbox: seq<GraphMessage>,
    since: int,
    rows: Rows,
    offered: seq<GraphMessage>,
    outcomes: seq<Outcome>)

  datatype Event =
    | Change(inbox: seq<GraphMessage>)  // mail arrives and leaves
    | PollOk(attempts: nat -> Attempt)
    | PollError
    | PollPanics(reached: nat, attempts: nat -> Attempt)  // after handing over so many messages
    | Churn(rows: Rows)  // anything else that happens to the database

  ghost predicate Enabled(s: Session, e: Event) {
    match e
    case Change(inbox) => Orderly(inbox) && Identified(inbox)
    case Churn(rows) => Sound(rows)
    case _ => true
  }

  /** The messages a poll hands to the store. */
  function Window(s: Session, e: Event): seq<GraphMessage> {
    var page := Page(s.inbox, Sec(s.since));
    match e
    case PollOk(_) => page
    case PollPanics(reached, _) => if reached < |page| then page[..reached] else page
    case _ => []
  }

  function Handled(s: Session, domains: seq<string>, window: seq<GraphMessage>, attempts: nat -> Attempt): Session {
    var tries := Upto(attempts, |window|);
    s.(rows := StoreAll(s.rows, domains, window, tries),
       offered := s.offered + window,
       outcomes := s.outcomes + Outcomes(s.rows, domains, window, tries))
  }

  function Apply(s: Session, domains: seq<string>, e: Event): Session {
    match e
    case Change(inbox) => s.(inbox := inbox)
    case PollOk(attempts) => Handled(s, domains, Window(s, e), attempts).(since := Advance(s.since, Window(s, e)))
    case PollError => s
    case PollPanics(_, attempts) => Handled(s, domains, Window(s, e), attempts)
    case Churn(rows) => s.(rows := rows)
  }

  ghost predicate ValidRun(s: Session, domains: seq<string>, run: seq<Event>)
    decreases |run|
  {
    run == [] || (Enabled(s, run[0]) && ValidRun(Apply(s, domains, run[0]), domains, run[1..]))
  }

  ghost function Exec(s: Session, domains: seq<string>, run: seq<Event>): Session
    requires ValidRun(s, domains, run)
    decreases |run|
  {
    if run == [] then s else Exec(Apply(s, domains, run[0]), domains, run[1..])
  }

  /** The mail that arrives with `e` stamped before the second the mark then stands on. */
  function LateNow(s: Session, e: Event): set<GraphMessage> {
    if e.Change? then set m | m in e.inbox && m !in s.inbox && Sec(m.stamp) < Sec(s.since) else {}
  }

  /** All such mail of a run. */
  ghost function LateArrivals(s: Session, domains: seq<string>, run: seq<Event>): set<GraphMessage>
    requires ValidRun(s, domains, run)
    decreases |run|
  {
    if run == [] then {}
    else LateNow(s, run[0]) + LateArrivals(Apply(s, domains, run[0]), domains, run[1..])
  }

  predicate Undisturbed(run: seq<Event>) {
    forall i | 0 <= i < |run| :: !run[i].Churn?
  }

  // ---- what each event does ----

  ghost predicate Regular(s: Session) {
    Orderly(s.inbox) && Identified(s.inbox)
  }

  lemma PageIsInInbox(inbox: seq<GraphMessage>, mark: int)
    requires Orderly(inbox) && Identified(inbox)
    ensures Identified(Page(inbox, mark))
    ensures forall m | m in Page(inbox, mark) :: m in inbox && Sec(m.stamp) >= mark
  {
    var k, page := Cut(inbox, mark), Page(inbox, mark);
    assert page == inbox[k..k + |page|] by { PageIsWindow(inbox, mark); }
    EligibleIsSuffix(inbox, mark);
    forall i | 0 <= i < |page|
      ensures page[i] in inbox && Sec(page[i].stamp) >= mark && page[i].id != ""
    {
      assert page[i] == inbox[k + i];
    }
  }

  lemma WindowIsOnPage(s: Session, e: Event)
    requires Regular(s)
    ensures Identified(Window(s, e))
    ensures forall m | m in Window(s, e) :: m in s.inbox && Sec(m.stamp) >= Sec(s.since)
  {
    var page, window := Page(s.inbox, Sec(s.since)), Window(s, e);
    PageIsInInbox(s.inbox, Sec(s.since));
    assert forall i | 0 <= i < |window| :: window[i] == page[i];
    assert forall m | m in window :: m in page;
  }

  lemma MarkNeverMovesBack(s: Session, domains: seq<string>, e: Event)
    requires Orderly(s.inbox) && Enabled(s, e)
    ensures Sec(s.since) <= Sec(Apply(s, domains, e).since)
    ensures s.offered <= Apply(s, domains, e).offered
  {
    if e.PollOk? {
      PageIsWindow(s.inbox, Sec(s.since));
    }
  }

  /** Whatever lies behind the page is not passed either. */
  lemma BeyondPage(inbox: seq<GraphMessage>, since: int)
    requires Orderly(inbox)
    ensures var page := Page(inbox, Sec(since));
            forall i | Cut(inbox, Sec(since)) + |page| <= i < |inbox| :: Sec(inbox[i].stamp) >= Sec(Advance(since, page))
  {
    var last := Cut(inbox, Sec(since)) + |Page(inbox, Sec(since))| - 1;
    PageIsWindow(inbox, Sec(since));
    forall i | 0 <= last < i < |inbox|
      ensures Sec(inbox[i].stamp) >= Sec(inbox[last].stamp)
    {
      SecMonotone(inbox[last].stamp, inbox[i].stamp);
    }
  }

  /** What the mark moves past was on the page. */
  lemma PassedIsOnPage(inbox: seq<GraphMessage>, since: int, m: GraphMessage)
    requires Orderly(inbox) && m in inbox
    requires Sec(since) <= Sec(m.stamp) < Sec(Advance(since, Page(inbox, Sec(since))))
    ensures m in Page(inbox, Sec(since))
  {
    var k, page := Cut(inbox, Sec(since)), Page(inbox, Sec(since));
    var i :| 0 <= i < |inbox| && inbox[i] == m;
    assert k <= i by { EligibleIsSuffix(inbox, Sec(since)); }
    assert i < k + |page| by { BeyondPage(inbox, since); }
    assert page == inbox[k..k + |page|] by { PageIsWindow(inbox, Sec(since)); }
    assert page[i - k] == m;
  }

  // ---- what was offered ----

  /** Every mail in the inbox received between second `first` and the mark has been offered to the
      store, or is one of `late`. */
  ghost predicate CaughtUp(s: Session, first: int, late: set<GraphMessage>) {
    && Regular(s) && first <= Sec(s.since)
    && forall m | m in s.inbox && first <= Sec(m.stamp) < Sec(s.since) :: m in s.offered || m in late
  }

  /** A page offers all there is between the old mark and the new one. */
  lemma PollCatchesUp(s: Session, domains: seq<string>, attempts: nat -> Attempt, first: int, late: set<GraphMessage>)
    requires CaughtUp(s, first, late)
    ensures CaughtUp(Apply(s, domains, PollOk(attempts)), first, late)
  {
    var s' := Apply(s, domains, PollOk(attempts));
    MarkNeverMovesBack(s, domains, PollOk(attempts));
    forall m | m in s.inbox && first <= Sec(m.stamp) < Sec(s'.since)
      ensures m in s'.offered || m in late
    {
      if Sec(m.stamp) >= Sec(s.since) {
        PassedIsOnPage(s.inbox, s.since, m);
      }
    }
  }

  lemma EventCatchesUp(s: Session, domains: seq<string>, e: Event, first: int, late: set<GraphMessage>)
    requires CaughtUp(s, first, late) && Enabled(s, e)
    ensures CaughtUp(Apply(s, domains, e), first, late + LateNow(s, e))
  {
    if e.PollOk? {
      PollCatchesUp(s, domains, e.attempts, first, late);
    }
  }

  /** Over any run, however many polls fail or panic and whatever arrives or leaves, each mail below the
      mark has been offered or was late when it arrived. */
  lemma {:induction false} BelowMarkOfferedOrLate(s: Session, domains: seq<string>, run: seq<Event>, first: int, late: set<GraphMessage>)
    requires CaughtUp(s, first, late) && ValidRun(s, domains, run)
    ensures CaughtUp(Exec(s, domains, run), first, late + LateArrivals(s, domains, run))
    ensures Sec(s.since) <= Sec(Exec(s, domains, run).since)
    decreases |run|
  {
    if run != [] {
      var s', now := Apply(s, domains, run[0]), LateNow(s, run[0]);
      var later := LateArrivals(s', domains, run[1..]);
      MarkNeverMovesBack(s, domains, run[0]);
      EventCatchesUp(s, domains, run[0], first, late);
      BelowMarkOfferedOrLate(s', domains, run[1..], first, late + now);
      assert (late + now) + later == late + (now + later);
    }
  }

  /** With no late arrival nothing below the mark is missed. */
  lemma NothingBelowMarkIsMissed(s: Session, domains: seq<string>, run: seq<Event>, first: int)
    requires CaughtUp(s, first, {}) && ValidRun(s, domains, run) && LateArrivals(s, domains, run) == {}
    ensures CaughtUp(Exec(s, domains, run), first, {})
  {
    BelowMarkOfferedOrLate(s, domains, run, first, {});
  }

  lemma PartialPageHoldsRest(inbox: seq<GraphMessage>, mark: int, m: GraphMessage)
    requires Orderly(inbox) && |Page(inbox, mark)| < PAGE_SIZE
    requires m in inbox && Sec(m.stamp) >= mark
    ensures m in Page(inbox, mark)
  {
    var k, page := Cut(inbox, mark), Page(inbox, mark);
    var i :| 0 <= i < |inbox| && inbox[i] == m;
    assert k <= i by { EligibleIsSuffix(inbox, mark); }
    assert page == inbox[k..] by { PageIsWindow(inbox, mark); }
    assert page[i - k] == m;
  }

  /** After a poll with a partial page there is nothing left to offer but what was late. */
  lemma PartialPageOffersEverything(s: Session, domains: seq<string>, attempts: nat -> Attempt, first: int, late: set<GraphMessage>)
    requires CaughtUp(s, first, late) && |Page(s.inbox, Sec(s.since))| < PAGE_SIZE
    ensures forall m | m in s.inbox && first <= Sec(m.stamp) ::
              m in Apply(s, domains, PollOk(attempts)).offered || m in late
  {
    forall m | m in s.inbox && first <= Sec(m.stamp)
      ensures m in s.offered + Page(s.inbox, Sec(s.since)) || m in late
    {
      if Sec(m.stamp) >= Sec(s.since) {
        PartialPageHoldsRest(s.inbox, Sec(s.since), m);
      }
    }
  }

  // ---- what is stored of what was offered ----

  /** Every message offered so far is absorbed, unless that very store call failed. */
  ghost predicate AbsorbedUnlessFailed(s: Session, domains: seq<string>) {
    && Sound(s.rows) && Regular(s)
    && |s.outcomes| == |s.offered|
    && forall i | 0 <= i < |s.offered| :: Absorbed(s.rows, domains, s.offered[i]) || s.outcomes[i].Failed?
  }

  lemma MoreAbsorbed(rows: Rows, rows': Rows, domains: seq<string>, before: seq<GraphMessage>, outcomes: seq<Outcome>,
                     window: seq<GraphMessage>, windowOutcomes: seq<Outcome>)
    requires Extends(rows, rows') && |before| == |outcomes| && |window| == |windowOutcomes|
    requires forall i | 0 <= i < |before| :: Absorbed(rows, domains, before[i]) || outcomes[i].Failed?
    requires forall i | 0 <= i < |window| :: Absorbed(rows', domains, window[i]) || windowOutcomes[i].Failed?
    ensures forall i | 0 <= i < |before + window| ::
              Absorbed(rows', domains, (before + window)[i]) || (outcomes + windowOutcomes)[i].Failed?
  {
    forall i | 0 <= i < |before| && !outcomes[i].Failed?
      ensures Absorbed(rows', domains, before[i])
    {
      ExtendsKeepsAbsorbed(rows, rows', domains, before[i]);
    }
  }

  lemma HandledAbsorbs(s: Session, domains: seq<string>, window: seq<GraphMessage>, attempts: nat -> Attempt)
    requires AbsorbedUnlessFailed(s, domains) && Identified(window)
    ensures AbsorbedUnlessFailed(Handled(s, domains, window, attempts), domains)
  {
    var s' := Handled(s, domains, window, attempts);
    StoreAllAbsorbs(s.rows, domains, window, Upto(attempts, |window|));
    MoreAbsorbed(s.rows, s'.rows, domains, s.offered, s.outcomes,
                 window, Outcomes(s.rows, domains, window, Upto(attempts, |window|)));
  }

  /** As long as nothing else changes the database, whatever statements fail, every message offered is
      stored or foreign, unless that store call failed. */
  lemma {:induction false} OfferedStaysStored(s: Session, domains: seq<string>, run: seq<Event>)
    requires AbsorbedUnlessFailed(s, domains) && ValidRun(s, domains, run) && Undisturbed(run)
    ensures AbsorbedUnlessFailed(Exec(s, domains, run), domains)
    decreases |run|
  {
    if run != [] {
      if run[0].PollOk? || run[0].PollPanics? {
        WindowIsOnPage(s, run[0]);
        HandledAbsorbs(s, domains, Window(s, run[0]), run[0].attempts);
      }
      OfferedStaysStored(Apply(s, domains, run[0]), domains, run[1..]);
    }
  }

  /** Counted from the rows `first`, a GraphID is stored exactly if it was then or an offer of it since
      reports it stored. */
  ghost predicate IdsAccounted(s: Session, first: Rows) {
    && Sound(s.rows) && |s.outcomes| == |s.offered|
    && forall id: string :: HasGraphId(s.rows, id) <==> HasGraphId(first, id) || ReportedStored(s.offered, s.outcomes, id)
  }

  lemma HandledAccountsFor(s: Session, domains: seq<string>, window: seq<GraphMessage>, attempts: nat -> Attempt, first: Rows)
    requires IdsAccounted(s, first) && Identified(window)
    ensures IdsAccounted(Handled(s, domains, window, attempts), first)
  {
    var tries := Upto(attempts, |window|);
    var outcomes := Outcomes(s.rows, domains, window, tries);
    var s' := Handled(s, domains, window, attempts);
    StoreAllAbsorbs(s.rows, domains, window, tries);
    forall id: string
      ensures HasGraphId(s'.rows, id) <==> HasGraphId(first, id) || ReportedStored(s'.offered, s'.outcomes, id)
    {
      StoreAllIdsIff(s.rows, domains, window, tries, id);
      ReportedStoredAppend(s.offered, s.outcomes, window, outcomes, id);
    }
  }

  lemma {:induction false} StoredIffReported(s: Session, domains: seq<string>, run: seq<Event>, first: Rows)
    requires IdsAccounted(s, first) && Regular(s) && ValidRun(s, domains, run) && Undisturbed(run)
    ensures IdsAccounted(Exec(s, domains, run), first)
    decreases |run|
  {
    if run != [] {
      if run[0].PollOk? || run[0].PollPanics? {
        WindowIsOnPage(s, run[0]);
        HandledAccountsFor(s, domains, Window(s, run[0]), run[0].attempts, first);
      }
      StoredIffReported(Apply(s, domains, run[0]), domains, run[1..], first);
    }
  }

  // ---- a failed store call is a loss ----

  /** The message is not stored, and the mark has passed every copy of it in the inbox. */
  ghost predicate Lost(s: Session, id: string) {
    && Regular(s) && Sound(s.rows) && !HasGraphId(s.rows, id)
    && forall m | m in s.inbox && m.id == id :: Sec(m.stamp) < Sec(s.since)
  }

  /** No message with this id arrives in a run. */
  ghost predicate NoCopyArrives(s: Session, domains: seq<string>, run: seq<Event>, id: string)
    requires ValidRun(s, domains, run)
    decreases |run|
  {
    run == [] ||
    (&& (run[0].Change? ==> forall m | m in run[0].inbox && m.id == id :: m in s.inbox)
     && NoCopyArrives(Apply(s, domains, run[0]), domains, run[1..], id))
  }

  lemma PollKeepsLost(s: Session, domains: seq<string>, e: Event, id: string)
    requires Lost(s, id) && (e.PollOk? || e.PollPanics?)
    ensures Lost(Apply(s, domains, e), id)
  {
    var window := Window(s, e);
    var tries := Upto(e.attempts, |window|);
    MarkNeverMovesBack(s, domains, e);
    WindowIsOnPage(s, e);
    StoreAllAbsorbs(s.rows, domains, window, tries);
    StoreAllIdsIff(s.rows, domains, window, tries, id);
    assert forall i | 0 <= i < |window| :: window[i] in window;
  }

  /** A message that is not stored when the mark passes its second is lost: unless a copy arrives, no
      run stores it. A failed store call is tried again only while the mark stays on its second. */
  lemma {:induction false} FailedOfferIsLost(s: Session, domains: seq<string>, run: seq<Event>, id: string)
    requires Lost(s, id) && ValidRun(s, domains, run) && Undisturbed(run) && NoCopyArrives(s, domains, run, id)
    ensures Lost(Exec(s, domains, run), id)
    decreases |run|
  {
    if run != [] {
      if run[0].PollOk? || run[0].PollPanics? {
        PollKeepsLost(s, domains, run[0], id);
      }
      FailedOfferIsLost(Apply(s, domains, run[0]), domains, run[1..], id);
    }
  }

  // ---- late mail ----

  /** Mail stamped below the mark that was not offered before is never offered, whatever happens from
      then on. */
  lemma {:induction false} LateMailIsNeverOffered(s: Session, domains: seq<string>, run: seq<Event>, m: GraphMessage)
    requires Regular(s) && ValidRun(s, domains, run)
    requires Sec(m.stamp) < Sec(s.since) && m !in s.offered
    ensures m !in Exec(s, domains, run).offered
    decreases |run|
  {
    if run != [] {
      MarkNeverMovesBack(s, domains, run[0]);
      WindowIsOnPage(s, run[0]);
      LateMailIsNeverOffered(Apply(s, domains, run[0]), domains, run[1..], m);
    }
  }

  // ---- the drain as events ----

  /** What the rounds of one drain are as events, as far as the drain takes them. */
  function EventsOf(s: Session, domains: seq<string>, rounds: seq<Round>): seq<Event>
    decreases |rounds|
  {
    if rounds == [] then []
    else
      match rounds[0]
      case Fault => [PollError]
      case Serve(inbox, attempts) =>
        var s' := Apply(Apply(s, domains, Change(inbox)), domains, PollOk(attempts));
        [Change(inbox), PollOk(attempts)] +
        if |Page(inbox, Sec(s.since))| < PAGE_SIZE then [] else EventsOf(s', domains, rounds[1..])
  }

  ghost predicate RegularRounds(rounds: seq<Round>) {
    forall r | 0 <= r < |rounds| && rounds[r].Serve? :: Orderly(rounds[r].inbox) && Identified(rounds[r].inbox)
  }

  /** A drain does to rows and mark what its events do, whatever its rounds see and wherever a request
      fails. It ends as faulted exactly at a failed request, as drained exactly at a partial page. */
  lemma {:induction false} DrainIsEvents(s: Session, domains: seq<string>, rounds: seq<Round>)
    requires RegularRounds(rounds)
    ensures var run, d := EventsOf(s, domains, rounds), Run(s.rows, domains, s.since, rounds);
            && ValidRun(s, domains, run)
            && Exec(s, domains, run).rows == d.rows && Exec(s, domains, run).since == d.since
            && (d.verdict.Faulted? <==> run != [] && run[|run| - 1].PollError?)
            && (d.verdict.Drained? <==> run != [] && run[|run| - 1].PollOk? &&
                                        |Page(Before(s, domains, run).inbox, Sec(Before(s, domains, run).since))| < PAGE_SIZE)
    decreases |rounds|
  {
    if rounds != [] && rounds[0].Serve? {
      var Serve(inbox, attempts) := rounds[0];
      var s1 := Apply(s, domains, Change(inbox));
      var s2 := Apply(s1, domains, PollOk(attempts));
      var rest := if |Page(inbox, Sec(s.since))| < PAGE_SIZE then [] else EventsOf(s2, domains, rounds[1..]);
      if |Page(inbox, Sec(s.since))| == PAGE_SIZE {
        DrainIsEvents(s2, domains, rounds[1..]);
      }
      TwoEventsFirst(s, domains, Change(inbox), PollOk(attempts), rest);
    }
  }

  /** The session in front of the last event of a run. */
  ghost function Before(s: Session, domains: seq<string>, run: seq<Event>): Session
    requires run != [] && ValidRun(s, domains, run)
    decreases |run|
  {
    if |run| == 1 then s else Before(Apply(s, domains, run[0]), domains, run[1..])
  }

  lemma TwoEventsFirst(s: Session, domains: seq<string>, e: Event, f: Event, rest: seq<Event>)
    requires Enabled(s, e) && Enabled(Apply(s, domains, e), f)
    requires ValidRun(Apply(Apply(s, domains, e), domains, f), domains, rest)
    ensures var run, s2 := [e, f] + rest, Apply(Apply(s, domains, e), domains, f);
            && ValidRun(s, domains, run) && Exec(s, domains, run) == Exec(s2, domains, rest)
            && Before(s, domains, run) == (if rest == [] then Apply(s, domains, e) else Before(s2, domains, rest))
  {
    var run := [e, f] + rest;
    assert run[1..] == [f] + rest && run[1..][1..] == rest;
  }

  /** So a drain, broken off or not, misses nothing: every mail of the inbox it saw last, from the first
      mark up to where the drain leaves the mark, has been offered or was late. */
  lemma DrainMissesNothing(s: Session, domains: seq<string>, rounds: seq<Round>, first: int, late: set<GraphMessage>)
    requires RegularRounds(rounds) && CaughtUp(s, first, late)
    ensures var run := EventsOf(s, domains, rounds);
            && ValidRun(s, domains, run)
            && var s', mark := Exec(s, domains, run), Sec(Run(s.rows, domains, s.since, rounds).since);
               && Sec(s.since) <= mark == Sec(s'.since)
               && forall m | m in s'.inbox && first <= Sec(m.stamp) < mark ::
                    m in s'.offered || m in late || m in LateArrivals(s, domains, run)
  {
    DrainIsEvents(s, domains, rounds);
    BelowMarkOfferedOrLate(s, domains, EventsOf(s, domains, rounds), first, late);
  }

  /** A failed request leaves rows and mark as they are. */
  lemma FailedRequestKeepsMark(rows: Rows, domains: seq<string>, since: int, rounds: seq<Round>)
    requires rounds != [] && rounds[0].Fault?
    ensures var d := Run(rows, domains, since, rounds); d.rows == rows && d.since == since && d.verdict == Faulted
  {
  }
}
