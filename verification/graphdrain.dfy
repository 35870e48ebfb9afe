/**
 The incremental drain of graph/poller.go.

 `PollOnce` reads one page of at most fifty messages received at or after the
 high-water mark, stores them and moves the mark; `FetchOnce` repeats that until a
 page is not full. The mark is sent in whole seconds, so boundary seconds are read
 again and the GraphID check of the store absorbs the repeats.
 */
module GraphDrain {
  import opened Wrappers
  import opened Tables
  import opened Store

  const PAGE_SIZE := 50
  /** Times are in nanoseconds. */
  const SECOND := 1_000_000_000
  const START_WINDOW := 120 * SECOND

  /** RFC 3339 without a fraction: the whole second a time falls in. */
  function Sec(t: int): int {
    t / SECOND
  }

  // ---- the server ----

  /** `receivedDateTime ge mark`, in inbox order. */
  function Eligible(inbox: seq<GraphMessage>, mark: int): seq<GraphMessage> {
    if inbox == [] then []
    else (if Sec(inbox[0].stamp) >= mark then [inbox[0]] else []) + Eligible(inbox[1..], mark)
  }

  function Page(inbox: seq<GraphMessage>, mark: int): (page: seq<GraphMessage>)
    ensures |page| <= PAGE_SIZE
  {
    var e := Eligible(inbox, mark);
    if |e| <= PAGE_SIZE then e else e[..PAGE_SIZE]
  }

  // ---- one poll ----

  function StoreAll(rows: Rows, domains: seq<string>, ms: seq<GraphMessage>, attempts: seq<Attempt>): Rows
    requires |ms| == |attempts|
    decreases |ms|
  {
    if ms == [] then rows
    else StoreAll(StoreGraph(rows, domains, ms[0], attempts[0]).0, domains, ms[1..], attempts[1..])
  }

  /** The latest parseable receive time of a page, zero if there is none. */
  function Latest(page: seq<GraphMessage>): int {
    if page == [] then 0
    else
      var before, m := Latest(page[..|page| - 1]), page[|page| - 1];
      if m.received.Some? && m.received.value > before then m.received.value else before
  }

  function Advance(since: int, page: seq<GraphMessage>): int {
    var latest := Latest(page);
    if latest == 0 then since else if |page| >= PAGE_SIZE then latest else latest + SECOND
  }

  function Upto(attempts: nat -> Attempt, n: nat): seq<Attempt> {
    seq(n, i requires 0 <= i < n => attempts(i))
  }

  lemma {:induction false} StoreAllAppend(rows: Rows, domains: seq<string>, ms: seq<GraphMessage>, attempts: seq<Attempt>,
                                          more: seq<GraphMessage>, moreAttempts: seq<Attempt>)
    requires |ms| == |attempts| && |more| == |moreAttempts|
    ensures StoreAll(rows, domains, ms + more, attempts + moreAttempts)
         == StoreAll(StoreAll(rows, domains, ms, attempts), domains, more, moreAttempts)
    decreases |ms|
  {
    if ms == [] {
      assert ms + more == more && attempts + moreAttempts == moreAttempts;
    } else {
      assert (ms + more)[1..] == ms[1..] + more && (attempts + moreAttempts)[1..] == attempts[1..] + moreAttempts;
      StoreAllAppend(StoreGraph(rows, domains, ms[0], attempts[0]).0, domains, ms[1..], attempts[1..], more, moreAttempts);
    }
  }

  /** One more message of a page. */
  lemma StoreNext(rows: Rows, domains: seq<string>, page: seq<GraphMessage>, attempts: nat -> Attempt, i: nat)
    requires i < |page|
    ensures StoreAll(rows, domains, page[..i + 1], Upto(attempts, i + 1))
         == StoreGraph(StoreAll(rows, domains, page[..i], Upto(attempts, i)), domains, page[i], attempts(i)).0
    ensures Latest(page[..i + 1]) ==
            var r := page[i].received; if r.Some? && r.value > Latest(page[..i]) then r.value else Latest(page[..i])
  {
    StoreAllAppend(rows, domains, page[..i], Upto(attempts, i), [page[i]], [attempts(i)]);
    assert page[..i + 1] == page[..i] + [page[i]];
    assert Upto(attempts, i + 1) == Upto(attempts, i) + [attempts(i)];
    var before := StoreAll(rows, domains, page[..i], Upto(attempts, i));
    assert StoreAll(before, domains, [page[i]], [attempts(i)]) == StoreGraph(before, domains, page[i], attempts(i)).0;
    assert page[..i + 1][..i] == page[..i];
  }

  /** How a page request can end: an error before anything is stored, or a view of the inbox together
      with what each store call of its page meets. */
  datatype Round = Fault | Serve(inbox: seq<GraphMessage>, attempts: nat -> Attempt)

  /** `StillDraining`: the rounds considered are used up and the loop goes on. */
  datatype Verdict = Drained | Faulted | StillDraining

  datatype Drain = Drain(rows: Rows, since: int, verdict: Verdict)

  function PollRows(rows: Rows, domains: seq<string>, since: int, inbox: seq<GraphMessage>, attempts: nat -> Attempt): Rows {
    var page := Page(inbox, Sec(since));
    StoreAll(rows, domains, page, Upto(attempts, |page|))
  }

  /** The loop of `FetchOnce`, as far as the given rounds take it. */
  function Run(rows: Rows, domains: seq<string>, since: int, rounds: seq<Round>): Drain
    decreases |rounds|
  {
    if rounds == [] then Drain(rows, since, StillDraining)
    else if rounds[0].Fault? then Drain(rows, since, Faulted)
    else
      var Serve(inbox, attempts) := rounds[0];
      var page := Page(inbox, Sec(since));
      var rows', since' := PollRows(rows, domains, since, inbox, attempts), Advance(since, page);
      if |page| < PAGE_SIZE then Drain(rows', since', Drained)
      else Run(rows', domains, since', rounds[1..])
  }

  class Poller {
    const db: Database
    const domains: seq<string>
    var since: int

    constructor (db: Database, domains: seq<string>)
      ensures this.db == db && this.domains == domains && since == 0
    {
      this.db, this.domains, since := db, domains, 0;
    }

    /** The part of `pollOnce` after a successful page request. */
    method PollOnce(inbox: seq<GraphMessage>, attempts: nat -> Attempt) returns (full: bool, stored: nat, skipped: nat)
      modifies this`since, db
      ensures full <==> |Page(inbox, Sec(old(since)))| == PAGE_SIZE
      ensures db.Contents() == PollRows(old(db.Contents()), domains, old(since), inbox, attempts)
      ensures since == Advance(old(since), Page(inbox, Sec(old(since))))
      ensures stored + skipped == |Page(inbox, Sec(old(since)))|
      ensures db.nextMessage == old(db.nextMessage) + stored
    {
      var page := Page(inbox, Sec(since));
      if page == [] {
        return false, 0, 0;
      }
      stored, skipped := 0, 0;
      var latest := 0;
      for i := 0 to |page|
        invariant stored + skipped == i
        invariant db.nextMessage == old(db.nextMessage) + stored
        invariant latest == Latest(page[..i])
        invariant since == old(since)
        invariant db.Contents() == StoreAll(old(db.Contents()), domains, page[..i], Upto(attempts, i))
      {
        StoreGraphTakesKey(db.Contents(), domains, page[i], attempts(i));
        var outcome := StoreGraphMessage(db, domains, page[i], attempts(i));
        if outcome.Stored? {
          stored := stored + 1;
        } else {
          skipped := skipped + 1;
        }
        StoreNext(old(db.Contents()), domains, page, attempts, i);
        var t := page[i].received;
        if t.Some? && t.value > latest {
          latest := t.value;
        }
      }
      assert page[..|page|] == page;
      full := |page| >= PAGE_SIZE;
      if latest != 0 {
        if full {
          since := latest;
        } else {
          since := latest + SECOND;
        }
      }
    }

    /** `FetchOnce`. The rounds stand for what the network does; `now` is read once, at the first use. */
    method FetchOnce(now: int, rounds: seq<Round>) returns (verdict: Verdict)
      modifies this`since, db
      ensures Run(old(db.Contents()), domains, if old(since) == 0 then now - 120 * 1_000_000_000 else old(since), rounds)
           == Drain(db.Contents(), since, verdict)
    {
      if since == 0 {
        since := now - START_WINDOW;
      }
      ghost var start := Run(db.Contents(), domains, since, rounds);
      for i := 0 to |rounds|
        invariant Run(db.Contents(), domains, since, rounds[i..]) == start
      {
        if rounds[i].Fault? {
          return Faulted;
        }
        var full, _, _ := PollOnce(rounds[i].inbox, rounds[i].attempts);
        assert rounds[i..][1..] == rounds[i + 1..];
        if !full {
          return Drained;
        }
      }
      return StillDraining;
    }
  }

  // ---- where the mark goes ----

  /** The latest parseable receive time of the page. */
  lemma {:induction false} LatestIsMax(page: seq<GraphMessage>)
    ensures Latest(page) >= 0
    ensures forall m | m in page && m.received.Some? :: m.received.value <= Latest(page)
    ensures Latest(page) > 0 ==> exists m :: m in page && m.received == Some(Latest(page))
  {
    if page != [] {
      var front, last := page[..|page| - 1], page[|page| - 1];
      LatestIsMax(front);
      assert page == front + [last];
      assert Latest(page) == Latest(front) || last.received == Some(Latest(page));
    }
  }

  /** The mark goes to the latest receive time on a full page of fifty, one second past it on any other,
      and stays where it is if no receive time parses. A mark is asked for as the whole second it is in. */
  lemma MarkGoesTo(since: int, page: seq<GraphMessage>, t: int)
    ensures (forall m | m in page :: m.received.None?) ==> Advance(since, page) == since
    ensures t > 0 && (exists m :: m in page && m.received == Some(t)) && (forall m | m in page && m.received.Some? :: m.received.value <= t)
            ==> Advance(since, page) == if |page| < 50 then t + 1_000_000_000 else t
    ensures Sec(t) * 1_000_000_000 <= t < (Sec(t) + 1) * 1_000_000_000
  {
    LatestIsMax(page);
  }

  // ---- the inbox ----

  /** In receive order, with times that parse to the server's own. */
  ghost predicate Orderly(inbox: seq<GraphMessage>) {
    && (forall i | 0 <= i < |inbox| :: inbox[i].stamp > 0 && inbox[i].received == Some(inbox[i].stamp))
    && (forall i, j | 0 <= i < j < |inbox| :: inbox[i].stamp <= inbox[j].stamp)
  }

  ghost predicate Identified(inbox: seq<GraphMessage>) {
    forall i | 0 <= i < |inbox| :: inbox[i].id != ""
  }

  function CountIn(inbox: seq<GraphMessage>, second: int): nat {
    if inbox == [] then 0
    else (if Sec(inbox[0].stamp) == second then 1 else 0) + CountIn(inbox[1..], second)
  }

  predicate Crowded(inbox: seq<GraphMessage>, second: int) {
    CountIn(inbox, second) >= PAGE_SIZE
  }

  ghost predicate Uncrowded(inbox: seq<GraphMessage>, mark: int) {
    forall second | mark <= second :: !Crowded(inbox, second)
  }

  lemma {:induction false} CountAppend(a: seq<GraphMessage>, b: seq<GraphMessage>, second: int)
    ensures CountIn(a + b, second) == CountIn(a, second) + CountIn(b, second)
  {
    if a == [] {
      assert a + b == b;
    } else {
      assert (a + b)[1..] == a[1..] + b;
      CountAppend(a[1..], b, second);
    }
  }

  lemma {:induction false} CountBounds(a: seq<GraphMessage>, second: int)
    ensures CountIn(a, second) <= |a|
    ensures (forall i | 0 <= i < |a| :: Sec(a[i].stamp) == second) ==> CountIn(a, second) == |a|
    ensures (forall i | 0 <= i < |a| :: Sec(a[i].stamp) != second) ==> CountIn(a, second) == 0
  {
    if a != [] {
      CountBounds(a[1..], second);
    }
  }

  lemma CountSplit(inbox: seq<GraphMessage>, lo: nat, hi: nat, second: int)
    requires lo <= hi <= |inbox|
    ensures CountIn(inbox, second) == CountIn(inbox[..lo], second) + CountIn(inbox[lo..hi], second) + CountIn(inbox[hi..], second)
  {
    assert inbox == inbox[..lo] + inbox[lo..hi] + inbox[hi..];
    CountAppend(inbox[..lo] + inbox[lo..hi], inbox[hi..], second);
    CountAppend(inbox[..lo], inbox[lo..hi], second);
  }

  lemma SecMonotone(t: int, u: int)
    requires t <= u
    ensures Sec(t) <= Sec(u)
  {
  }

  /** Where the eligible part of an orderly inbox starts. */
  function Cut(inbox: seq<GraphMessage>, mark: int): (k: nat)
    ensures k <= |inbox|
  {
    if inbox == [] || Sec(inbox[0].stamp) >= mark then 0 else 1 + Cut(inbox[1..], mark)
  }

  lemma LaterIsEligible(inbox: seq<GraphMessage>, mark: int)
    requires Orderly(inbox) && inbox != [] && Sec(inbox[0].stamp) >= mark
    ensures forall i | 0 <= i < |inbox| :: Sec(inbox[i].stamp) >= mark
  {
    forall i | 0 <= i < |inbox|
      ensures Sec(inbox[i].stamp) >= mark
    {
      SecMonotone(inbox[0].stamp, inbox[i].stamp);
    }
  }

  lemma {:induction false} CutSeparates(inbox: seq<GraphMessage>, mark: int)
    requires Orderly(inbox)
    ensures forall i | 0 <= i < Cut(inbox, mark) :: Sec(inbox[i].stamp) < mark
    ensures forall i | Cut(inbox, mark) <= i < |inbox| :: Sec(inbox[i].stamp) >= mark
  {
    if inbox != [] {
      if Sec(inbox[0].stamp) >= mark {
        LaterIsEligible(inbox, mark);
      } else {
        CutSeparates(inbox[1..], mark);
        assert forall i | 1 <= i < |inbox| :: inbox[i] == inbox[1..][i - 1];
      }
    }
  }

  lemma {:induction false} EligibleFromCut(inbox: seq<GraphMessage>, mark: int)
    requires Orderly(inbox)
    ensures Eligible(inbox, mark) == inbox[Cut(inbox, mark)..]
  {
    if inbox != [] {
      var rest := inbox[1..];
      EligibleFromCut(rest, mark);
      if Sec(inbox[0].stamp) >= mark {
        LaterIsEligible(inbox, mark);
        assert rest != [] ==> rest[0] == inbox[1];
        assert rest[0..] == rest && inbox == [inbox[0]] + rest;
      } else {
        assert rest[Cut(rest, mark)..] == inbox[Cut(inbox, mark)..];
      }
    }
  }

  lemma EligibleIsSuffix(inbox: seq<GraphMessage>, mark: int)
    requires Orderly(inbox)
    ensures Eligible(inbox, mark) == inbox[Cut(inbox, mark)..]
    ensures forall i | 0 <= i < Cut(inbox, mark) :: Sec(inbox[i].stamp) < mark
    ensures forall i | Cut(inbox, mark) <= i < |inbox| :: Sec(inbox[i].stamp) >= mark
  {
    EligibleFromCut(inbox, mark);
    CutSeparates(inbox, mark);
  }

  lemma {:induction false} LatestIsLast(page: seq<GraphMessage>)
    requires Orderly(page)
    ensures Latest(page) == if page == [] then 0 else page[|page| - 1].stamp
  {
    if page != [] {
      LatestIsLast(page[..|page| - 1]);
    }
  }

  /** The page at a mark: a window of the inbox that starts at the cut. */
  lemma PageIsWindow(inbox: seq<GraphMessage>, mark: int)
    requires Orderly(inbox)
    ensures var k, page := Cut(inbox, mark), Page(inbox, mark);
            && k + |page| <= |inbox| && page == inbox[k..k + |page|]
            && (|page| < PAGE_SIZE ==> k + |page| == |inbox|)
            && Latest(page) == (if page == [] then 0 else inbox[k + |page| - 1].stamp)
            && (page != [] ==> Sec(Latest(page)) >= mark)
  {
    EligibleIsSuffix(inbox, mark);
    LatestIsLast(Page(inbox, mark));
  }

  // ---- termination ----

  ghost predicate Fixed(rounds: seq<Round>, inbox: seq<GraphMessage>) {
    forall i | 0 <= i < |rounds| :: rounds[i].Serve? && rounds[i].inbox == inbox
  }

  lemma OneSecondIsCrowded(inbox: seq<GraphMessage>, k: nat)
    requires Orderly(inbox) && k + PAGE_SIZE <= |inbox|
    requires Sec(inbox[k].stamp) == Sec(inbox[k + PAGE_SIZE - 1].stamp)
    ensures Crowded(inbox, Sec(inbox[k].stamp))
  {
    var second := Sec(inbox[k].stamp);
    forall i | k <= i < k + PAGE_SIZE
      ensures Sec(inbox[i].stamp) == second
    {
      SecMonotone(inbox[k].stamp, inbox[i].stamp);
      SecMonotone(inbox[i].stamp, inbox[k + PAGE_SIZE - 1].stamp);
    }
    CountSplit(inbox, k, k + PAGE_SIZE, second);
    CountBounds(inbox[k..k + PAGE_SIZE], second);
  }

  lemma CutMonotone(inbox: seq<GraphMessage>, mark: int, mark': int)
    requires Orderly(inbox) && mark <= mark'
    ensures Cut(inbox, mark) <= Cut(inbox, mark')
  {
    EligibleIsSuffix(inbox, mark);
    EligibleIsSuffix(inbox, mark');
    var k' := Cut(inbox, mark');
    assert k' < |inbox| ==> Sec(inbox[k'].stamp) >= mark;
  }

  /** A full page moves the cut forward, unless all of it lies in one second. */
  lemma FullPageProgress(inbox: seq<GraphMessage>, since: int)
    requires Orderly(inbox) && |Page(inbox, Sec(since))| == PAGE_SIZE
    ensures var mark, mark' := Sec(since), Sec(Advance(since, Page(inbox, Sec(since))));
            var k, k' := Cut(inbox, mark), Cut(inbox, mark');
            && mark <= mark' && k <= k' < k + PAGE_SIZE <= |inbox|
            && (k' == k ==> Crowded(inbox, mark'))
  {
    var mark := Sec(since);
    var mark' := Sec(Advance(since, Page(inbox, mark)));
    PageIsWindow(inbox, mark);
    var k, k' := Cut(inbox, mark), Cut(inbox, mark');
    var last := k + PAGE_SIZE - 1;
    assert mark' == Sec(inbox[last].stamp);
    CutMonotone(inbox, mark, mark');
    EligibleIsSuffix(inbox, mark');
    assert k' <= last;
    if k' == k {
      SecMonotone(inbox[k].stamp, inbox[last].stamp);
      OneSecondIsCrowded(inbox, k);
    }
  }

  /** With fewer than a page of messages in every second from the mark on, the drain ends within one
      round more than there are eligible messages. */
  lemma {:induction false} UncrowdedDrains(rows: Rows, domains: seq<string>, since: int, inbox: seq<GraphMessage>, rounds: seq<Round>)
    requires Orderly(inbox) && Uncrowded(inbox, Sec(since)) && Fixed(rounds, inbox)
    requires |rounds| > |inbox| - Cut(inbox, Sec(since))
    ensures Run(rows, domains, since, rounds).verdict == Drained
    decreases |rounds|
  {
    var page := Page(inbox, Sec(since));
    if |page| == PAGE_SIZE {
      FullPageProgress(inbox, since);
      UncrowdedDrains(PollRows(rows, domains, since, inbox, rounds[0].attempts), domains, Advance(since, page), inbox, rounds[1..]);
    }
  }

  /** The eligible part of the inbox holds a later second completely. */
  lemma SecondIsEligible(inbox: seq<GraphMessage>, mark: int, second: int)
    requires Orderly(inbox) && mark <= second
    ensures CountIn(inbox, second) == CountIn(inbox[Cut(inbox, mark)..], second)
  {
    var k := Cut(inbox, mark);
    EligibleIsSuffix(inbox, mark);
    CountSplit(inbox, k, k, second);
    CountBounds(inbox[..k], second);
  }

  lemma SecondEndsBefore(inbox: seq<GraphMessage>, k: nat, last: nat, second: int)
    requires Orderly(inbox) && k <= last < |inbox| && Sec(inbox[last].stamp) > second
    ensures CountIn(inbox[k..], second) <= last - k
  {
    forall i | last <= i < |inbox|
      ensures Sec(inbox[i].stamp) != second
    {
      SecMonotone(inbox[last].stamp, inbox[i].stamp);
    }
    assert inbox[k..] == inbox[k..last] + inbox[last..];
    CountAppend(inbox[k..last], inbox[last..], second);
    CountBounds(inbox[k..last], second);
    CountBounds(inbox[last..], second);
  }

  /** A crowded second ahead keeps every page full, and the mark never gets past it. */
  lemma CrowdedAhead(inbox: seq<GraphMessage>, since: int, second: int)
    requires Orderly(inbox) && Sec(since) <= second && Crowded(inbox, second)
    ensures |Page(inbox, Sec(since))| == PAGE_SIZE
    ensures Sec(Advance(since, Page(inbox, Sec(since)))) <= second
  {
    var k := Cut(inbox, Sec(since));
    PageIsWindow(inbox, Sec(since));
    SecondIsEligible(inbox, Sec(since), second);
    CountBounds(inbox[k..], second);
    var last := k + PAGE_SIZE - 1;
    if Sec(inbox[last].stamp) > second {
      SecondEndsBefore(inbox, k, last, second);
    }
  }

  lemma {:induction false} CrowdedNeverDrains(rows: Rows, domains: seq<string>, since: int, inbox: seq<GraphMessage>,
                                              rounds: seq<Round>, second: int)
    requires Orderly(inbox) && Fixed(rounds, inbox)
    requires Sec(since) <= second && Crowded(inbox, second)
    ensures Run(rows, domains, since, rounds).verdict == StillDraining
    decreases |rounds|
  {
    if rounds != [] {
      CrowdedAhead(inbox, since, second);
      var page := Page(inbox, Sec(since));
      CrowdedNeverDrains(PollRows(rows, domains, since, inbox, rounds[0].attempts), domains, Advance(since, page), inbox, rounds[1..], second);
    }
  }

  /** `second` is the first crowded one from `mark` on. */
  ghost predicate FirstCrowded(inbox: seq<GraphMessage>, mark: int, second: int) {
    && mark <= second && Crowded(inbox, second)
    && forall earlier | mark <= earlier < second :: !Crowded(inbox, earlier)
  }

  lemma {:induction false} MarkStaysOnCrowded(rows: Rows, domains: seq<string>, since: int, inbox: seq<GraphMessage>, rounds: seq<Round>)
    requires Orderly(inbox) && Fixed(rounds, inbox) && Crowded(inbox, Sec(since))
    ensures Sec(Run(rows, domains, since, rounds).since) == Sec(since)
    decreases |rounds|
  {
    if rounds != [] {
      var page := Page(inbox, Sec(since));
      CrowdedAhead(inbox, since, Sec(since));
      FullPageProgress(inbox, since);
      MarkStaysOnCrowded(PollRows(rows, domains, since, inbox, rounds[0].attempts), domains, Advance(since, page), inbox, rounds[1..]);
    }
  }

  /** A drain that does not end brings its mark to the first crowded second, within one round more than
      there are eligible messages. */
  lemma {:induction false} MarkReachesCrowded(rows: Rows, domains: seq<string>, since: int, inbox: seq<GraphMessage>,
                                              rounds: seq<Round>, second: int)
    requires Orderly(inbox) && Fixed(rounds, inbox) && FirstCrowded(inbox, Sec(since), second)
    requires |rounds| > |inbox| - Cut(inbox, Sec(since))
    ensures Sec(Run(rows, domains, since, rounds).since) == second
    decreases |rounds|
  {
    var page := Page(inbox, Sec(since));
    var since' := Advance(since, page);
    var rows' := PollRows(rows, domains, since, inbox, rounds[0].attempts);
    CrowdedAhead(inbox, since, second);
    FullPageProgress(inbox, since);
    if Cut(inbox, Sec(since')) == Cut(inbox, Sec(since)) {
      MarkStaysOnCrowded(rows', domains, since', inbox, rounds[1..]);
    } else {
      MarkReachesCrowded(rows', domains, since', inbox, rounds[1..], second);
    }
  }

  /** Exactly when the drain of an unchanging inbox ends. */
  lemma DrainsIffUncrowded(rows: Rows, domains: seq<string>, since: int, inbox: seq<GraphMessage>, rounds: seq<Round>)
    requires Orderly(inbox) && Fixed(rounds, inbox)
    requires |rounds| > |Eligible(inbox, Sec(since))|
    ensures Run(rows, domains, since, rounds).verdict == (if Uncrowded(inbox, Sec(since)) then Drained else StillDraining)
  {
    EligibleIsSuffix(inbox, Sec(since));
    if Uncrowded(inbox, Sec(since)) {
      UncrowdedDrains(rows, domains, since, inbox, rounds);
    } else {
      var second :| Sec(since) <= second && Crowded(inbox, second);
      CrowdedNeverDrains(rows, domains, since, inbox, rounds, second);
    }
  }

  // ---- what becomes of each message ----

  /** How the store calls of a window end. */
  function Outcomes(rows: Rows, domains: seq<string>, ms: seq<GraphMessage>, attempts: seq<Attempt>): (outcomes: seq<Outcome>)
    requires |ms| == |attempts|
    ensures |outcomes| == |ms|
    decreases |ms|
  {
    if ms == [] then []
    else
      var (rows', outcome) := StoreGraph(rows, domains, ms[0], attempts[0]);
      [outcome] + Outcomes(rows', domains, ms[1..], attempts[1..])
  }

  /** One of the offers of a message with this id reports it stored. */
  ghost predicate ReportedStored(ms: seq<GraphMessage>, outcomes: seq<Outcome>, id: string)
    requires |ms| == |outcomes|
  {
    exists i :: 0 <= i < |ms| && ms[i].id == id && outcomes[i].Stored?
  }

  lemma ReportedStoredAppend(ms: seq<GraphMessage>, outcomes: seq<Outcome>, more: seq<GraphMessage>, moreOutcomes: seq<Outcome>, id: string)
    requires |ms| == |outcomes| && |more| == |moreOutcomes|
    ensures ReportedStored(ms + more, outcomes + moreOutcomes, id) <==>
            ReportedStored(ms, outcomes, id) || ReportedStored(more, moreOutcomes, id)
  {
    var all, ends := ms + more, outcomes + moreOutcomes;
    if i :| 0 <= i < |ms| && ms[i].id == id && outcomes[i].Stored? {
      assert all[i].id == id && ends[i].Stored?;
    }
    if i :| 0 <= i < |more| && more[i].id == id && moreOutcomes[i].Stored? {
      assert all[|ms| + i].id == id && ends[|ms| + i].Stored?;
    }
    if i :| 0 <= i < |all| && all[i].id == id && ends[i].Stored? {
      if i >= |ms| {
        assert more[i - |ms|].id == id && moreOutcomes[i - |ms|].Stored?;
      } else {
        assert ms[i].id == id && outcomes[i].Stored?;
      }
    }
  }

  /** Whatever fails, a window only adds rows, and a message of it is absorbed afterwards unless its
      own store call failed. */
  lemma {:induction false} StoreAllAbsorbs(rows: Rows, domains: seq<string>, ms: seq<GraphMessage>, attempts: seq<Attempt>)
    requires Sound(rows) && Identified(ms) && |ms| == |attempts|
    ensures var rows' := StoreAll(rows, domains, ms, attempts);
            && Sound(rows') && Extends(rows, rows')
            && forall i | 0 <= i < |ms| :: Absorbed(rows', domains, ms[i]) || Outcomes(rows, domains, ms, attempts)[i].Failed?
    decreases |ms|
  {
    if ms != [] {
      var (next, outcome) := StoreGraph(rows, domains, ms[0], attempts[0]);
      var rows' := StoreAll(rows, domains, ms, attempts);
      StoreGraphAbsorbsIff(rows, domains, ms[0], attempts[0], ms[0].id);
      StoreGraphEnds(rows, domains, ms[0], attempts[0]);
      StoreAllAbsorbs(next, domains, ms[1..], attempts[1..]);
      if !outcome.Failed? {
        ExtendsKeepsAbsorbed(next, rows', domains, ms[0]);
      }
      forall i | 0 <= i < |ms|
        ensures Absorbed(rows', domains, ms[i]) || Outcomes(rows, domains, ms, attempts)[i].Failed?
      {
        assert i > 0 ==> ms[i] == ms[1..][i - 1];
      }
    }
  }

  /** A GraphID is stored after a window exactly if it was before or an offer of it reports so. */
  lemma {:induction false} StoreAllIdsIff(rows: Rows, domains: seq<string>, ms: seq<GraphMessage>, attempts: seq<Attempt>, id: string)
    requires Sound(rows) && |ms| == |attempts|
    ensures HasGraphId(StoreAll(rows, domains, ms, attempts), id) <==>
            HasGraphId(rows, id) || ReportedStored(ms, Outcomes(rows, domains, ms, attempts), id)
    decreases |ms|
  {
    if ms != [] {
      var (next, outcome) := StoreGraph(rows, domains, ms[0], attempts[0]);
      var rest := Outcomes(next, domains, ms[1..], attempts[1..]);
      StoreGraphAbsorbsIff(rows, domains, ms[0], attempts[0], id);
      StoreGraphEnds(rows, domains, ms[0], attempts[0]);
      StoreAllIdsIff(next, domains, ms[1..], attempts[1..], id);
      ReportedStoredAppend([ms[0]], [outcome], ms[1..], rest, id);
      assert ms == [ms[0]] + ms[1..];
      assert ReportedStored([ms[0]], [outcome], id) <==> ms[0].id == id && outcome.Stored? by {
        assert [ms[0]][0].id == ms[0].id && [outcome][0] == outcome;
      }
    }
  }

  predicate AllFlawless(attempts: seq<Attempt>) {
    forall i | 0 <= i < |attempts| :: attempts[i].Flawless()
  }

  lemma {:induction false} FlawlessNeverFail(rows: Rows, domains: seq<string>, ms: seq<GraphMessage>, attempts: seq<Attempt>)
    requires Sound(rows) && |ms| == |attempts| && AllFlawless(attempts)
    ensures forall i | 0 <= i < |ms| :: !Outcomes(rows, domains, ms, attempts)[i].Failed?
    decreases |ms|
  {
    if ms != [] {
      StoreGraphEnds(rows, domains, ms[0], attempts[0]);
      FlawlessNeverFail(StoreGraph(rows, domains, ms[0], attempts[0]).0, domains, ms[1..], attempts[1..]);
    }
  }

  // ---- the drain refines one pass ----

  lemma {:induction false} AbsorbedAreSkipped(rows: Rows, domains: seq<string>, ms: seq<GraphMessage>, attempts: seq<Attempt>)
    requires |ms| == |attempts|
    requires forall i | 0 <= i < |ms| :: Absorbed(rows, domains, ms[i]) && !attempts[i].faults.dedup
    ensures StoreAll(rows, domains, ms, attempts) == rows
    decreases |ms|
  {
    if ms != [] {
      AbsorbedIsSkipped(rows, domains, ms[0], attempts[0]);
      AbsorbedAreSkipped(rows, domains, ms[1..], attempts[1..]);
    }
  }

  /** Storing a window and then everything from an earlier point on is storing everything once, if
      nothing fails in the window and no check when it is offered again. */
  lemma OverlapAbsorbed(rows: Rows, domains: seq<string>, window: seq<GraphMessage>, attempts: seq<Attempt>,
                        cut: nat, tail: seq<GraphMessage>, again: seq<Attempt>)
    requires Sound(rows) && Identified(window) && |window| == |attempts| && AllFlawless(attempts)
    requires cut <= |window| && |again| == |window| - cut + |tail|
    requires forall i | 0 <= i < |window| - cut :: !again[i].faults.dedup
    ensures StoreAll(StoreAll(rows, domains, window, attempts), domains, window[cut..] + tail, again)
         == StoreAll(rows, domains, window + tail, attempts + again[|window| - cut..])
  {
    var n := |window| - cut;
    var mid := StoreAll(rows, domains, window, attempts);
    StoreAllAbsorbs(rows, domains, window, attempts);
    FlawlessNeverFail(rows, domains, window, attempts);
    AbsorbedAreSkipped(mid, domains, window[cut..], again[..n]);
    assert again == again[..n] + again[n..];
    StoreAllAppend(mid, domains, window[cut..], again[..n], tail, again[n..]);
    StoreAllAppend(rows, domains, window, attempts, tail, again[n..]);
  }

  /** No statement fails in any store call of these rounds. */
  ghost predicate FlawlessRounds(rounds: seq<Round>) {
    forall r, i: nat | 0 <= r < |rounds| && rounds[r].Serve? :: rounds[r].attempts(i).Flawless()
  }

  ghost predicate Drawn(rounds: seq<Round>, t: Attempt) {
    exists r, i: nat :: 0 <= r < |rounds| && rounds[r].Serve? && t == rounds[r].attempts(i)
  }

  lemma DrawnLater(rounds: seq<Round>, t: Attempt)
    requires rounds != [] && Drawn(rounds[1..], t)
    ensures Drawn(rounds, t)
  {
    var r, i: nat :| 0 <= r < |rounds[1..]| && rounds[1..][r].Serve? && t == rounds[1..][r].attempts(i);
    assert rounds[r + 1] == rounds[1..][r];
  }

  lemma DrawnAreFlawless(rounds: seq<Round>, ts: seq<Attempt>)
    requires FlawlessRounds(rounds) && forall i | 0 <= i < |ts| :: Drawn(rounds, ts[i])
    ensures AllFlawless(ts)
  {
    forall k | 0 <= k < |ts|
      ensures ts[k].Flawless()
    {
      assert Drawn(rounds, ts[k]);
      var r, i: nat :| 0 <= r < |rounds| && rounds[r].Serve? && ts[k] == rounds[r].attempts(i);
    }
  }

  lemma SliceOverlap(inbox: seq<GraphMessage>, k: nat, k': nat, end: nat)
    requires k <= k' <= end <= |inbox|
    ensures inbox[k..] == inbox[k..end] + inbox[end..]
    ensures inbox[k'..] == inbox[k..end][k' - k..] + inbox[end..]
  {
  }

  /** What a full page leaves to do: everything behind it, and a piece of its own end once more. */
  lemma NextWindowOverlaps(inbox: seq<GraphMessage>, since: int) returns (cut: nat, tail: seq<GraphMessage>)
    requires Orderly(inbox) && |Page(inbox, Sec(since))| == PAGE_SIZE
    ensures var page := Page(inbox, Sec(since));
            && cut < |page|
            && Eligible(inbox, Sec(since)) == page + tail
            && Eligible(inbox, Sec(Advance(since, page))) == page[cut..] + tail
  {
    var mark, mark' := Sec(since), Sec(Advance(since, Page(inbox, Sec(since))));
    FullPageProgress(inbox, since);
    var k, k' := Cut(inbox, mark), Cut(inbox, mark');
    SliceOverlap(inbox, k, k', k + PAGE_SIZE);
    cut, tail := k' - k, inbox[k + PAGE_SIZE..];
    assert Page(inbox, mark) == inbox[k..k + PAGE_SIZE] by { PageIsWindow(inbox, mark); }
    assert Eligible(inbox, mark) == inbox[k..] by { EligibleIsSuffix(inbox, mark); }
    assert Eligible(inbox, mark') == inbox[k'..] by { EligibleIsSuffix(inbox, mark'); }
  }

  lemma SplicedFrom(attempts: nat -> Attempt, again: seq<Attempt>, skip: nat)
    requires skip <= |again|
    ensures var ts := Upto(attempts, PAGE_SIZE) + again[skip..];
            forall i | 0 <= i < |ts| :: ts[i] in again || exists j: nat :: ts[i] == attempts(j)
  {
    var ts := Upto(attempts, PAGE_SIZE) + again[skip..];
    forall i | 0 <= i < |ts|
      ensures ts[i] in again || exists j: nat :: ts[i] == attempts(j)
    {
      if i < PAGE_SIZE {
        assert ts[i] == attempts(i);
      } else {
        assert ts[i] == again[i - PAGE_SIZE + skip];
      }
    }
  }

  lemma FullRoundRefines(rows: Rows, domains: seq<string>, since: int, inbox: seq<GraphMessage>, attempts: nat -> Attempt, again: seq<Attempt>)
    returns (ts: seq<Attempt>)
    requires Sound(rows) && Orderly(inbox) && Identified(Page(inbox, Sec(since)))
    requires |Page(inbox, Sec(since))| == PAGE_SIZE
    requires |again| == |Eligible(inbox, Sec(Advance(since, Page(inbox, Sec(since)))))|
    requires AllFlawless(Upto(attempts, PAGE_SIZE)) && AllFlawless(again)
    ensures |ts| == |Eligible(inbox, Sec(since))|
    ensures StoreAll(PollRows(rows, domains, since, inbox, attempts), domains,
                     Eligible(inbox, Sec(Advance(since, Page(inbox, Sec(since))))), again)
         == StoreAll(rows, domains, Eligible(inbox, Sec(since)), ts)
    ensures forall i | 0 <= i < |ts| :: ts[i] in again || exists j: nat :: ts[i] == attempts(j)
  {
    var page := Page(inbox, Sec(since));
    var cut, tail := NextWindowOverlaps(inbox, since);
    OverlapAbsorbed(rows, domains, page, Upto(attempts, PAGE_SIZE), cut, tail, again);
    ts := Upto(attempts, PAGE_SIZE) + again[PAGE_SIZE - cut..];
    SplicedFrom(attempts, again, PAGE_SIZE - cut);
  }

  lemma PageIdentified(inbox: seq<GraphMessage>, mark: int)
    requires Orderly(inbox) && Identified(inbox)
    ensures Identified(Page(inbox, mark))
  {
    PageIsWindow(inbox, mark);
  }

  lemma PartialPageAdvance(inbox: seq<GraphMessage>, since: int)
    requires Orderly(inbox) && |Page(inbox, Sec(since))| < PAGE_SIZE
    ensures Page(inbox, Sec(since)) == Eligible(inbox, Sec(since))
    ensures Sec(Advance(since, Page(inbox, Sec(since)))) ==
            if Eligible(inbox, Sec(since)) == [] then Sec(since) else Sec(inbox[|inbox| - 1].stamp) + 1
  {
    PageIsWindow(inbox, Sec(since));
    EligibleIsSuffix(inbox, Sec(since));
  }

  /** Whenever the drain of an unchanging inbox ends and no statement failed, the store is exactly what
      one pass over the eligible messages would have made it, each stored with clock readings of the
      run, and the mark stands one second behind the last message. */
  lemma {:induction false} DrainRefinesOnePass(rows: Rows, domains: seq<string>, since: int, inbox: seq<GraphMessage>, rounds: seq<Round>)
    returns (ts: seq<Attempt>)
    requires Sound(rows) && Orderly(inbox) && Identified(inbox) && Fixed(rounds, inbox)
    requires Run(rows, domains, since, rounds).verdict == Drained && FlawlessRounds(rounds)
    ensures |ts| == |Eligible(inbox, Sec(since))|
    ensures Run(rows, domains, since, rounds).rows == StoreAll(rows, domains, Eligible(inbox, Sec(since)), ts)
    ensures forall i | 0 <= i < |ts| :: Drawn(rounds, ts[i])
    ensures Sec(Run(rows, domains, since, rounds).since) ==
            if Eligible(inbox, Sec(since)) == [] then Sec(since) else Sec(inbox[|inbox| - 1].stamp) + 1
    decreases |rounds|
  {
    var attempts := rounds[0].attempts;
    var page := Page(inbox, Sec(since));
    PageIdentified(inbox, Sec(since));
    if |page| < PAGE_SIZE {
      PartialPageAdvance(inbox, since);
      ts := Upto(attempts, |page|);
      forall i | 0 <= i < |ts|
        ensures Drawn(rounds, ts[i])
      {
        assert ts[i] == rounds[0].attempts(i);
      }
    } else {
      var since' := Advance(since, page);
      var next := PollRows(rows, domains, since, inbox, attempts);
      StoreAllAbsorbs(rows, domains, page, Upto(attempts, |page|));
      var again := DrainRefinesOnePass(next, domains, since', inbox, rounds[1..]);
      DrawnAreFlawless(rounds[1..], again);
      ts := FullRoundRefines(rows, domains, since, inbox, attempts, again);
      var cut, tail := NextWindowOverlaps(inbox, since);
      forall i | 0 <= i < |ts|
        ensures Drawn(rounds, ts[i])
      {
        if ts[i] in again {
          DrawnLater(rounds, ts[i]);
        } else {
          var j: nat :| ts[i] == attempts(j);
          assert ts[i] == rounds[0].attempts(j);
        }
      }
    }
  }

  // ---- the crowded second ----

  /** A full page of absorbed messages that does not move the mark is read again for ever. */
  lemma {:induction false} IdleRounds(rows: Rows, domains: seq<string>, since: int, inbox: seq<GraphMessage>, rounds: seq<Round>)
    requires Fixed(rounds, inbox) && |Page(inbox, Sec(since))| == PAGE_SIZE && Advance(since, Page(inbox, Sec(since))) == since
    requires forall i | 0 <= i < PAGE_SIZE :: Absorbed(rows, domains, Page(inbox, Sec(since))[i])
    requires forall r, i: nat | 0 <= r < |rounds| && rounds[r].Serve? :: !rounds[r].attempts(i).faults.dedup
    ensures Run(rows, domains, since, rounds) == Drain(rows, since, StillDraining)
    decreases |rounds|
  {
    if rounds != [] {
      AbsorbedAreSkipped(rows, domains, Page(inbox, Sec(since)), Upto(rounds[0].attempts, PAGE_SIZE));
      IdleRounds(rows, domains, since, inbox, rounds[1..]);
    }
  }

  /** Once the mark sits on a crowded second, a round without failing statements reaches a state that
      no later round with a working GraphID check leaves. */
  lemma StuckIsFixedPoint(rows: Rows, domains: seq<string>, since: int, inbox: seq<GraphMessage>,
                          attempts: nat -> Attempt, rounds: seq<Round>)
    requires Sound(rows) && Orderly(inbox) && Identified(inbox) && Fixed(rounds, inbox)
    requires Crowded(inbox, Sec(since)) && AllFlawless(Upto(attempts, PAGE_SIZE))
    requires forall r, i: nat | 0 <= r < |rounds| && rounds[r].Serve? :: !rounds[r].attempts(i).faults.dedup
    ensures var rows', since' := PollRows(rows, domains, since, inbox, attempts), Advance(since, Page(inbox, Sec(since)));
            && Sec(since') == Sec(since)
            && Run(rows', domains, since', rounds) == Drain(rows', since', StillDraining)
  {
    var page := Page(inbox, Sec(since));
    CrowdedAhead(inbox, since, Sec(since));
    PageIsWindow(inbox, Sec(since));
    var rows', since' := PollRows(rows, domains, since, inbox, attempts), Advance(since, page);
    StoreAllAbsorbs(rows, domains, page, Upto(attempts, PAGE_SIZE));
    FlawlessNeverFail(rows, domains, page, Upto(attempts, PAGE_SIZE));
    IdleRounds(rows', domains, since', inbox, rounds);
  }

  lemma {:induction false} RunKeepsSound(rows: Rows, domains: seq<string>, since: int, inbox: seq<GraphMessage>, rounds: seq<Round>)
    requires Sound(rows) && Orderly(inbox) && Identified(inbox) && Fixed(rounds, inbox)
    ensures Sound(Run(rows, domains, since, rounds).rows)
    decreases |rounds|
  {
    if rounds != [] {
      var page := Page(inbox, Sec(since));
      PageIdentified(inbox, Sec(since));
      StoreAllAbsorbs(rows, domains, page, Upto(rounds[0].attempts, |page|));
      RunKeepsSound(PollRows(rows, domains, since, inbox, rounds[0].attempts), domains, Advance(since, page), inbox, rounds[1..]);
    }
  }

  /** How a drain over a crowded second goes on for ever: its mark reaches the first crowded second and
      stops there, and after one more round without failing statements nothing changes any more. */
  lemma CrowdedDrainGoesIdle(rows: Rows, domains: seq<string>, since: int, inbox: seq<GraphMessage>, rounds: seq<Round>,
                             second: int, attempts: nat -> Attempt, more: seq<Round>)
    requires Sound(rows) && Orderly(inbox) && Identified(inbox) && FirstCrowded(inbox, Sec(since), second)
    requires Fixed(rounds, inbox) && |rounds| > |Eligible(inbox, Sec(since))|
    requires Fixed(more, inbox) && AllFlawless(Upto(attempts, PAGE_SIZE))
    requires forall r, i: nat | 0 <= r < |more| && more[r].Serve? :: !more[r].attempts(i).faults.dedup
    ensures var d := Run(rows, domains, since, rounds);
            var rows', since' := PollRows(d.rows, domains, d.since, inbox, attempts), Advance(d.since, Page(inbox, Sec(d.since)));
            && Sec(d.since) == Sec(since') == second
            && Run(rows', domains, since', more) == Drain(rows', since', StillDraining)
  {
    EligibleIsSuffix(inbox, Sec(since));
    MarkReachesCrowded(rows, domains, since, inbox, rounds, second);
    RunKeepsSound(rows, domains, since, inbox, rounds);
    var d := Run(rows, domains, since, rounds);
    StuckIsFixedPoint(d.rows, domains, d.since, inbox, attempts, more);
  }
}
