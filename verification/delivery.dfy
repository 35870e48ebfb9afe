/**
 Direct delivery in sender/sender.go: recipients grouped by domain, each group handed
 to the domain's mail hosts in order of preference until one takes it.
 */
module Delivery {
  import opened Wrappers
  import opened GoStrings

  // ---- mail hosts ----

  datatype Mx = Mx(host: string, pref: nat)

  ghost predicate SortedByPref(mxs: seq<Mx>) {
    forall i, j | 0 <= i < j < |mxs| :: mxs[i].pref <= mxs[j].pref
  }

  function InsertAt(mxs: seq<Mx>, k: nat, mx: Mx): seq<Mx>
    requires k <= |mxs|
  {
    mxs[..k] + [mx] + mxs[k..]
  }

  lemma InsertKeepsSorted(mxs: seq<Mx>, k: nat, mx: Mx)
    requires k <= |mxs| && SortedByPref(mxs)
    requires k > 0 ==> mxs[k - 1].pref <= mx.pref
    requires k < |mxs| ==> mx.pref <= mxs[k].pref
    ensures SortedByPref(InsertAt(mxs, k, mx))
  {
    var out := InsertAt(mxs, k, mx);
    assert forall i | 0 <= i < |out| :: out[i] == if i < k then mxs[i] else if i == k then mx else mxs[i - 1];
  }

  lemma InsertAddsOne(mxs: seq<Mx>, k: nat, mx: Mx)
    requires k <= |mxs|
    ensures multiset(InsertAt(mxs, k, mx)) == multiset(mxs) + multiset{mx}
  {
    assert mxs == mxs[..k] + mxs[k..];
  }

  method Insert(mxs: seq<Mx>, mx: Mx) returns (out: seq<Mx>)
    requires SortedByPref(mxs)
    ensures SortedByPref(out) && multiset(out) == multiset(mxs) + multiset{mx}
  {
    var k := 0;
    while k < |mxs| && mxs[k].pref <= mx.pref
      invariant k <= |mxs|
      invariant k > 0 ==> mxs[k - 1].pref <= mx.pref
    {
      k := k + 1;
    }
    InsertKeepsSorted(mxs, k, mx);
    InsertAddsOne(mxs, k, mx);
    out := InsertAt(mxs, k, mx);
  }

  /** `sort.Slice` by preference; the order among equal preferences is left open. */
  method SortByPref(mxs: seq<Mx>) returns (sorted: seq<Mx>)
    ensures SortedByPref(sorted) && multiset(sorted) == multiset(mxs)
  {
    sorted := [];
    for i := 0 to |mxs|
      invariant SortedByPref(sorted) && multiset(sorted) == multiset(mxs[..i])
    {
      assert mxs[..i + 1] == mxs[..i] + [mxs[i]];
      sorted := Insert(sorted, mxs[i]);
    }
    assert mxs[..|mxs|] == mxs;
  }

  function WithoutDot(host: string): string {
    if HasSuffix(host, ".") then host[..|host| - 1] else host
  }

  function Hosts(mxs: seq<Mx>): seq<string> {
    if mxs == [] then []
    else Hosts(mxs[..|mxs| - 1]) +
         (if WithoutDot(mxs[|mxs| - 1].host) == "" then [] else [WithoutDot(mxs[|mxs| - 1].host)])
  }

  /** `hosts` are the usable names of `answer` in ascending preference, or the bare domain when there
      are none (section 5.1 of RFC 5321). */
  ghost predicate HostsFor(domain: string, answer: Option<seq<Mx>>, hosts: seq<string>) {
    if answer.None? then hosts == [domain]
    else exists sorted ::
      && SortedByPref(sorted) && multiset(sorted) == multiset(answer.value)
      && hosts == if Hosts(sorted) == [] then [domain] else Hosts(sorted)
  }

  /** `mxHosts`; `answer` is what the MX lookup returned, if it succeeded. */
  method MxHosts(domain: string, answer: Option<seq<Mx>>) returns (hosts: seq<string>)
    ensures HostsFor(domain, answer, hosts)
    ensures hosts != []
  {
    if answer.Some? {
      var mxs := SortByPref(answer.value);
      var out: seq<string> := [];
      for i := 0 to |mxs|
        invariant out == Hosts(mxs[..i])
      {
        assert mxs[..i + 1][..i] == mxs[..i];
        var h := WithoutDot(mxs[i].host);
        if h != "" {
          out := out + [h];
        }
      }
      assert mxs[..|mxs|] == mxs;
      if |out| > 0 {
        return out;
      }
    }
    return [domain];
  }

  lemma WithoutDotIs(name: string)
    ensures WithoutDot(name + ".") == name
    ensures name != "" && name[|name| - 1] != '.' ==> WithoutDot(name) == name
    ensures WithoutDot("") == ""
  {
    assert (name + ".")[|name|..] == ".";
    if name != "" && name[|name| - 1] != '.' {
      assert name[|name| - 1..] == [name[|name| - 1]];
    }
  }

  /** The records of an answer that name a host. */
  function Usable(mxs: seq<Mx>): seq<Mx> {
    if mxs == [] then []
    else Usable(mxs[..|mxs| - 1]) + (if WithoutDot(mxs[|mxs| - 1].host) == "" then [] else [mxs[|mxs| - 1]])
  }

  lemma OneMoreRecord(front: seq<Mx>, last: Mx)
    ensures var more, name := front + [last], WithoutDot(last.host);
            && Hosts(more) == Hosts(front) + (if name == "" then [] else [name])
            && Usable(more) == Usable(front) + (if name == "" then [] else [last])
  {
    assert (front + [last])[..|front|] == front;
  }

  /** Each host is the name of the usable record at its place. */
  lemma {:induction false} HostsOfUsable(mxs: seq<Mx>)
    ensures |Usable(mxs)| == |Hosts(mxs)|
    ensures forall i | 0 <= i < |Hosts(mxs)| :: Hosts(mxs)[i] == WithoutDot(Usable(mxs)[i].host)
  {
    if mxs != [] {
      var front, last := mxs[..|mxs| - 1], mxs[|mxs| - 1];
      assert mxs == front + [last];
      HostsOfUsable(front);
      OneMoreRecord(front, last);
    }
  }

  lemma {:induction false} UsableCount(mxs: seq<Mx>, mx: Mx)
    ensures multiset(Usable(mxs))[mx] == if WithoutDot(mx.host) == "" then 0 else multiset(mxs)[mx]
  {
    if mxs != [] {
      var front, last := mxs[..|mxs| - 1], mxs[|mxs| - 1];
      assert mxs == front + [last];
      UsableCount(front, mx);
      OneMoreRecord(front, last);
    }
  }

  lemma {:induction false} UsableSorted(mxs: seq<Mx>)
    requires forall i, j | 0 <= i < j < |mxs| :: mxs[i].pref <= mxs[j].pref
    ensures forall mx | mx in Usable(mxs) :: mx in mxs
    ensures forall i, j | 0 <= i < j < |Usable(mxs)| :: Usable(mxs)[i].pref <= Usable(mxs)[j].pref
  {
    if mxs != [] {
      var front, last := mxs[..|mxs| - 1], mxs[|mxs| - 1];
      assert mxs == front + [last];
      UsableSorted(front);
      OneMoreRecord(front, last);
      forall mx | mx in Usable(front)
        ensures mx in mxs && mx.pref <= last.pref
      {
        var i :| 0 <= i < |front| && front[i] == mx;
        assert mxs[i] == mx && mxs[|mxs| - 1] == last;
      }
    }
  }

  /** The hosts are the named records of the answer, each exactly as often as it was given and without its
      final dot, in ascending preference; or, if there is none, the domain itself. */
  lemma HostsByPreference(domain: string, answer: seq<Mx>, hosts: seq<string>) returns (used: seq<Mx>)
    requires HostsFor(domain, Some(answer), hosts)
    ensures forall mx :: multiset(used)[mx] == if WithoutDot(mx.host) == "" then 0 else multiset(answer)[mx]
    ensures forall i, j | 0 <= i < j < |used| :: used[i].pref <= used[j].pref
    ensures if used == [] then hosts == [domain]
            else |hosts| == |used| && forall i | 0 <= i < |hosts| :: hosts[i] == WithoutDot(used[i].host)
  {
    var sorted :| SortedByPref(sorted) && multiset(sorted) == multiset(answer)
                  && hosts == if Hosts(sorted) == [] then [domain] else Hosts(sorted);
    used := Usable(sorted);
    HostsOfUsable(sorted);
    UsableSorted(sorted);
    forall mx
      ensures multiset(used)[mx] == if WithoutDot(mx.host) == "" then 0 else multiset(answer)[mx]
    {
      UsableCount(sorted, mx);
    }
  }

  // ---- one domain ----

  /** What comes of the dot that ends a message: the host rejects it, or takes it and its confirmation
      gets lost, or takes it and confirms. */
  datatype FinalDot = Rejected | TakenUnconfirmed | Confirmed

  /** How one mail host behaves: whether it can be dialled and greets, what it answers to each command,
      whether the message goes through, what comes of it, and whether QUIT works. */
  datatype Server = Server(
    answers: bool,
    mail: bool,
    rcpt: string -> bool,
    data: bool,
    writes: bool,
    dot: FinalDot,
    quits: bool)
  {
    /** Every command but RCPT succeeds. */
    predicate Works() {
      answers && mail && data && writes && dot.Confirmed? && quits
    }
  }

  type Net = string -> Server

  /** Where the dialogue with a host ends. */
  datatype Dialogue =
    | Unreachable
    | MailRefused
    | RcptRefused(rcpt: string)
    | DataRefused
    | WriteBroken
    | Unconfirmed
    | QuitFailed
    | Completed

  function FirstRefused(rcpt: string -> bool, rcpts: seq<string>): Option<string> {
    if rcpts == [] then None
    else if !rcpt(rcpts[0]) then Some(rcpts[0])
    else FirstRefused(rcpt, rcpts[1..])
  }

  function Talk(s: Server, rcpts: seq<string>): Dialogue {
    if !s.answers then Unreachable
    else if !s.mail then MailRefused
    else
      match FirstRefused(s.rcpt, rcpts)
      case Some(r) => RcptRefused(r)
      case None =>
        if !s.data then DataRefused
        else if !s.writes then WriteBroken
        else if !s.dot.Confirmed? then Unconfirmed
        else if !s.quits then QuitFailed
        else Completed
  }

  /** `smtpClientSend` with a host that has answered. */
  method SmtpClientSend(s: Server, rcpts: seq<string>) returns (d: Dialogue)
    requires s.answers
    ensures d == Talk(s, rcpts)
  {
    if !s.mail {
      return MailRefused;
    }
    for i := 0 to |rcpts|
      invariant FirstRefused(s.rcpt, rcpts[i..]) == FirstRefused(s.rcpt, rcpts)
    {
      if !s.rcpt(rcpts[i]) {
        return RcptRefused(rcpts[i]);
      }
      assert rcpts[i..][1..] == rcpts[i + 1..];
    }
    if !s.data {
      return DataRefused;
    }
    if !s.writes {
      return WriteBroken;
    }
    if !s.dot.Confirmed? {
      return Unconfirmed;
    }
    return if s.quits then Completed else QuitFailed;
  }

  lemma {:induction false} FirstRefusedNone(rcpt: string -> bool, rcpts: seq<string>)
    ensures FirstRefused(rcpt, rcpts).None? <==> forall r | r in rcpts :: rcpt(r)
  {
    if rcpts != [] {
      FirstRefusedNone(rcpt, rcpts[1..]);
      assert rcpts == [rcpts[0]] + rcpts[1..];
    }
  }

  /** Where each dialogue ends: at the first command that fails, and at the first refused recipient. */
  lemma TalkEnds(s: Server, rcpts: seq<string>, k: nat)
    requires k <= |rcpts| && (forall i | 0 <= i < k :: s.rcpt(rcpts[i])) && (k < |rcpts| ==> !s.rcpt(rcpts[k]))
    ensures Talk(s, rcpts) ==
            if !s.answers then Unreachable
            else if !s.mail then MailRefused
            else if k < |rcpts| then RcptRefused(rcpts[k])
            else if !s.data then DataRefused
            else if !s.writes then WriteBroken
            else if s.dot != Confirmed then Unconfirmed
            else if !s.quits then QuitFailed
            else Completed
  {
    FirstRefusedAt(s.rcpt, rcpts, k);
  }

  lemma {:induction false} FirstRefusedAt(rcpt: string -> bool, rcpts: seq<string>, k: nat)
    requires k <= |rcpts| && (forall i | 0 <= i < k :: rcpt(rcpts[i])) && (k < |rcpts| ==> !rcpt(rcpts[k]))
    ensures FirstRefused(rcpt, rcpts) == if k < |rcpts| then Some(rcpts[k]) else None
  {
    if k > 0 {
      FirstRefusedAt(rcpt, rcpts[1..], k - 1);
    }
  }

  /** A host serves a group all or nothing: one refused recipient and nobody of the group gets the mail. */
  lemma CompletesIff(s: Server, rcpts: seq<string>)
    ensures Talk(s, rcpts).Completed? <==>
            s.Works() && forall r | r in rcpts :: s.rcpt(r)
  {
    FirstRefusedNone(s.rcpt, rcpts);
  }

  predicate Serves(net: Net, host: string, rcpts: seq<string>) {
    Talk(net(host), rcpts).Completed?
  }

  datatype Failure = NoHosts | LastHostFailed(host: string, why: Dialogue)

  /** The attempts made: everything up to and including the first host that serves the group. */
  function Attempts(net: Net, hosts: seq<string>, rcpts: seq<string>): seq<string> {
    if hosts == [] then []
    else if Serves(net, hosts[0], rcpts) then [hosts[0]]
    else [hosts[0]] + Attempts(net, hosts[1..], rcpts)
  }

  predicate Reachable(net: Net, hosts: seq<string>, rcpts: seq<string>) {
    exists h | h in hosts :: Serves(net, h, rcpts)
  }

  lemma {:induction false} AttemptsSkip(net: Net, hosts: seq<string>, rcpts: seq<string>, k: nat)
    requires k <= |hosts| && forall i | 0 <= i < k :: !Serves(net, hosts[i], rcpts)
    ensures Attempts(net, hosts, rcpts) == hosts[..k] + Attempts(net, hosts[k..], rcpts)
  {
    if k > 0 {
      AttemptsSkip(net, hosts[1..], rcpts, k - 1);
      assert hosts[..k] == [hosts[0]] + hosts[1..][..k - 1];
      assert hosts[1..][k - 1..] == hosts[k..];
    } else {
      assert hosts[0..] == hosts;
    }
  }

  /** The error reported is the last host's. */
  predicate FailedAtLast(net: Net, hosts: seq<string>, rcpts: seq<string>, failure: Failure) {
    hosts != [] && failure == LastHostFailed(hosts[|hosts| - 1], Talk(net(hosts[|hosts| - 1]), rcpts))
  }

  /** The loop of `deliverToDomain` over its hosts. */
  method TryHosts(net: Net, hosts: seq<string>, rcpts: seq<string>) returns (failure: Option<Failure>, tried: seq<string>)
    ensures tried == Attempts(net, hosts, rcpts)
    ensures failure.None? <==> Reachable(net, hosts, rcpts)
    ensures failure.Some? ==> tried == hosts
    ensures failure.Some? ==> if hosts == [] then failure.value == NoHosts else FailedAtLast(net, hosts, rcpts, failure.value)
  {
    tried := [];
    failure := None;
    for i := 0 to |hosts|
      invariant tried == hosts[..i]
      invariant forall j | 0 <= j < i :: !Serves(net, hosts[j], rcpts)
      invariant i == 0 ==> failure.None?
      invariant i > 0 ==> failure.Some? && FailedAtLast(net, hosts[..i], rcpts, failure.value)
    {
      tried := tried + [hosts[i]];
      assert hosts[..i + 1] == hosts[..i] + [hosts[i]];
      var d := Unreachable;
      if net(hosts[i]).answers {
        d := SmtpClientSend(net(hosts[i]), rcpts);
      }
      if d.Completed? {
        AttemptsSkip(net, hosts, rcpts, i);
        return None, tried;
      }
      failure := Some(LastHostFailed(hosts[i], d));
    }
    assert hosts[..|hosts|] == hosts;
    AttemptsSkip(net, hosts, rcpts, |hosts|);
    if failure.None? {
      failure := Some(NoHosts);
    }
  }

  /** `deliverToDomain`; the error for a domain without hosts is never reached. */
  method DeliverToDomain(net: Net, domain: string, answer: Option<seq<Mx>>, rcpts: seq<string>)
    returns (failure: Option<Failure>, hosts: seq<string>, tried: seq<string>)
    ensures HostsFor(domain, answer, hosts)
    ensures tried == Attempts(net, hosts, rcpts)
    ensures failure.None? <==> Reachable(net, hosts, rcpts)
    ensures failure.Some? ==> tried == hosts && FailedAtLast(net, hosts, rcpts, failure.value)
  {
    hosts := MxHosts(domain, answer);
    failure, tried := TryHosts(net, hosts, rcpts);
  }

  // ---- all recipients ----

  predicate Deliverable(addr: string) {
    0 <= LastIndex(addr, '@') < |addr| - 1
  }

  function DomainOf(addr: string): string
    requires Deliverable(addr)
  {
    ToLower(addr[LastIndex(addr, '@') + 1..])
  }

  /** The trimmed recipients of one domain, in order. */
  function GroupOf(to: seq<string>, domain: string): seq<string> {
    if to == [] then []
    else
      var addr := TrimSpace(to[|to| - 1]);
      GroupOf(to[..|to| - 1], domain) + (if Deliverable(addr) && DomainOf(addr) == domain then [addr] else [])
  }

  function At(groups: map<string, seq<string>>, domain: string): seq<string> {
    if domain in groups then groups[domain] else []
  }

  ghost predicate Grouped(to: seq<string>, groups: map<string, seq<string>>) {
    && (forall d | d in groups :: groups[d] != [])
    && forall d :: At(groups, d) == GroupOf(to, d)
  }

  lemma OneMoreGrouped(to: seq<string>, i: nat, groups: map<string, seq<string>>)
    requires i < |to| && Grouped(to[..i], groups) && Deliverable(TrimSpace(to[i]))
    ensures var addr := TrimSpace(to[i]);
            var d := DomainOf(addr);
            Grouped(to[..i + 1], groups[d := At(groups, d) + [addr]])
  {
    var addr := TrimSpace(to[i]);
    var dom := DomainOf(addr);
    var groups' := groups[dom := At(groups, dom) + [addr]];
    var longer := to[..i + 1];
    assert longer[..|longer| - 1] == to[..i] && longer[|longer| - 1] == to[i];
    forall d
      ensures At(groups', d) == GroupOf(longer, d)
    {
      assert At(groups, d) == GroupOf(to[..i], d);
    }
  }

  predicate AllDeliverable(to: seq<string>) {
    forall i | 0 <= i < |to| :: Deliverable(TrimSpace(to[i]))
  }

  /** The groups after the whole list, or nothing at the first invalid recipient. */
  function Grouping(to: seq<string>): Option<map<string, seq<string>>> {
    if to == [] then Some(map[])
    else
      var before, addr := Grouping(to[..|to| - 1]), TrimSpace(to[|to| - 1]);
      if before.None? || !Deliverable(addr) then None
      else Some(before.value[DomainOf(addr) := At(before.value, DomainOf(addr)) + [addr]])
  }

  lemma LastDeliverable(to: seq<string>)
    requires to != []
    ensures AllDeliverable(to) <==> AllDeliverable(to[..|to| - 1]) && Deliverable(TrimSpace(to[|to| - 1]))
  {
  }

  lemma {:induction false} GroupingMeans(to: seq<string>)
    ensures Grouping(to).Some? <==> AllDeliverable(to)
    ensures Grouping(to).Some? ==> Grouped(to, Grouping(to).value)
  {
    if to != [] {
      var n := |to| - 1;
      var before := Grouping(to[..n]);
      GroupingMeans(to[..n]);
      LastDeliverable(to);
      if before.Some? && Deliverable(TrimSpace(to[n])) {
        assert to[..n + 1] == to;
        OneMoreGrouped(to, n, before.value);
      }
    }
  }

  lemma GroupingNext(to: seq<string>, i: nat)
    requires i < |to|
    ensures var before, addr := Grouping(to[..i]), TrimSpace(to[i]);
            Grouping(to[..i + 1]) ==
            if before.None? || !Deliverable(addr) then None
            else Some(before.value[DomainOf(addr) := At(before.value, DomainOf(addr)) + [addr]])
  {
    assert to[..i + 1][..i] == to[..i];
  }

  lemma {:induction false} GroupingStops(to: seq<string>, i: nat)
    requires i <= |to| && Grouping(to[..i]).None?
    ensures Grouping(to).None?
  {
    if i == |to| {
      assert to[..i] == to;
    } else {
      assert to[..|to| - 1][..i] == to[..i];
      GroupingStops(to[..|to| - 1], i);
    }
  }

  /** The grouping loop of `Send`. */
  method GroupByDomain(to: seq<string>) returns (groups: Option<map<string, seq<string>>>)
    ensures groups == Grouping(to)
  {
    var byDomain: map<string, seq<string>> := map[];
    for i := 0 to |to|
      invariant Grouping(to[..i]) == Some(byDomain)
    {
      GroupingNext(to, i);
      var addr := TrimSpace(to[i]);
      var at := LastIndex(addr, '@');
      if at < 0 || at + 1 >= |addr| {
        GroupingStops(to, i + 1);
        return None;
      }
      var dom := ToLower(addr[at + 1..]);
      byDomain := byDomain[dom := At(byDomain, dom) + [addr]];
    }
    assert to[..|to|] == to;
    return Some(byDomain);
  }

  /** One delivered or failed group: the hosts it had and those it tried. */
  datatype Report = Report(failure: Option<Failure>, hosts: seq<string>, tried: seq<string>)

  datatype Sent = InvalidRecipient | Tried(reports: map<string, Report>, errors: nat)

  ghost predicate Truthful(net: Net, dns: string -> Option<seq<Mx>>, domain: string, rcpts: seq<string>, r: Report) {
    && HostsFor(domain, dns(domain), r.hosts)
    && r.tried == Attempts(net, r.hosts, rcpts)
    && (r.failure.None? <==> Reachable(net, r.hosts, rcpts))
    && (r.failure.Some? ==> FailedAtLast(net, r.hosts, rcpts, r.failure.value))
  }

  /** One truthful report per group. */
  ghost predicate Reported(net: Net, dns: string -> Option<seq<Mx>>, groups: map<string, seq<string>>, reports: map<string, Report>) {
    forall d | d in reports :: d in groups && Truthful(net, dns, d, groups[d], reports[d])
  }

  function Failed(reports: map<string, Report>): set<string> {
    set d | d in reports && reports[d].failure.Some?
  }

  lemma OneMoreReport(net: Net, dns: string -> Option<seq<Mx>>, groups: map<string, seq<string>>,
                      reports: map<string, Report>, d: string, r: Report)
    requires Reported(net, dns, groups, reports)
    requires d in groups && Truthful(net, dns, d, groups[d], r)
    ensures Reported(net, dns, groups, reports[d := r])
  {
  }

  lemma OneMoreFailed(reports: map<string, Report>, d: string, r: Report)
    requires d !in reports
    ensures |Failed(reports[d := r])| == |Failed(reports)| + if r.failure.Some? then 1 else 0
  {
    var more := reports[d := r];
    assert forall x :: x in Failed(more) <==> x in Failed(reports) || (x == d && r.failure.Some?);
    if r.failure.Some? {
      assert Failed(more) == Failed(reports) + {d};
    } else {
      assert Failed(more) == Failed(reports);
    }
  }

  /** The body of the delivery loop of `Send`. */
  method DeliverNext(net: Net, dns: string -> Option<seq<Mx>>, groups: map<string, seq<string>>,
                     reports: map<string, Report>, d: string)
    returns (more: map<string, Report>, failed: bool)
    requires Reported(net, dns, groups, reports) && d in groups && d !in reports
    ensures Reported(net, dns, groups, more) && more.Keys == reports.Keys + {d}
    ensures |Failed(more)| == |Failed(reports)| + if failed then 1 else 0
  {
    var failure, hosts, tried := DeliverToDomain(net, d, dns(d), groups[d]);
    OneMoreReport(net, dns, groups, reports, d, Report(failure, hosts, tried));
    OneMoreFailed(reports, d, Report(failure, hosts, tried));
    more := reports[d := Report(failure, hosts, tried)];
    failed := failure.Some?;
  }

  /** The delivery loop of `Send`, over the groups in whatever order the map yields them. */
  method DeliverGroups(net: Net, dns: string -> Option<seq<Mx>>, groups: map<string, seq<string>>)
    returns (reports: map<string, Report>, errors: nat)
    ensures reports.Keys == groups.Keys && Reported(net, dns, groups, reports)
    ensures errors == |Failed(reports)|
  {
    reports, errors := map[], 0;
    var left := groups.Keys;
    while left != {}
      invariant left <= groups.Keys && reports.Keys == groups.Keys - left
      invariant Reported(net, dns, groups, reports)
      invariant errors == |Failed(reports)|
      decreases left
    {
      var d :| d in left;
      left := left - {d};
      var failed;
      reports, failed := DeliverNext(net, dns, groups, reports, d);
      if failed {
        errors := errors + 1;
      }
    }
  }

  /** `directSender.Send`: nothing is attempted if any recipient is invalid; otherwise every group is
      tried and one error is collected for each group that no host of its domain served. */
  method Send(net: Net, dns: string -> Option<seq<Mx>>, to: seq<string>) returns (sent: Sent)
    ensures sent.InvalidRecipient? <==> !AllDeliverable(to)
    ensures sent.Tried? ==>
      && (forall d :: d in sent.reports <==> GroupOf(to, d) != [])
      && (forall d | d in sent.reports :: Truthful(net, dns, d, GroupOf(to, d), sent.reports[d]))
      && sent.errors == |Failed(sent.reports)|
  {
    var grouped := GroupByDomain(to);
    GroupingMeans(to);
    if grouped.None? {
      return InvalidRecipient;
    }
    var reports, errors := DeliverGroups(net, dns, grouped.value);
    assert forall d | d in grouped.value :: grouped.value[d] == At(grouped.value, d) == GroupOf(to, d);
    sent := Tried(reports, errors);
  }

  // ---- what the outcome depends on ----

  lemma SameNames(mxs: seq<Mx>, other: seq<Mx>, h: string)
    requires multiset(mxs) == multiset(other) && h in Hosts(mxs)
    ensures h in Hosts(other)
  {
    HostsOfUsable(mxs);
    HostsOfUsable(other);
    var i :| 0 <= i < |Hosts(mxs)| && Hosts(mxs)[i] == h;
    var mx := Usable(mxs)[i];
    UsableCount(mxs, mx);
    UsableCount(other, mx);
    assert mx in multiset(Usable(mxs));
    assert mx in multiset(Usable(other));
    var k :| 0 <= k < |Usable(other)| && Usable(other)[k] == mx;
    assert Hosts(other)[k] == h;
  }

  /** However the sort leaves equal preferences, the same hosts are candidates, and a group succeeds
      under one order exactly if it does under another. */
  lemma TiesDoNotMatter(net: Net, domain: string, answer: Option<seq<Mx>>, rcpts: seq<string>, hosts: seq<string>, other: seq<string>)
    requires HostsFor(domain, answer, hosts) && HostsFor(domain, answer, other)
    ensures forall h :: h in hosts <==> h in other
    ensures Reachable(net, hosts, rcpts) <==> Reachable(net, other, rcpts)
  {
    if answer.Some? {
      var a :| SortedByPref(a) && multiset(a) == multiset(answer.value) && hosts == if Hosts(a) == [] then [domain] else Hosts(a);
      var b :| SortedByPref(b) && multiset(b) == multiset(answer.value) && other == if Hosts(b) == [] then [domain] else Hosts(b);
      forall h
        ensures h in Hosts(a) <==> h in Hosts(b)
      {
        if h in Hosts(a) {
          SameNames(a, b, h);
        }
        if h in Hosts(b) {
          SameNames(b, a, h);
        }
      }
      assert Hosts(a) == [] <==> Hosts(b) == [] by {
        if Hosts(a) != [] {
          assert Hosts(a)[0] in Hosts(b);
        }
        if Hosts(b) != [] {
          assert Hosts(b)[0] in Hosts(a);
        }
      }
    }
  }

  // ---- what the grouping means ----

  /** The domain is what stands behind the last `@`, lowered. */
  lemma DomainIs(local: string, domain: string)
    requires domain != "" && '@' !in domain
    ensures Deliverable(local + "@" + domain) && DomainOf(local + "@" + domain) == ToLower(domain)
  {
    var addr := local + "@" + domain;
    assert addr[|local|] == '@' && addr[|local| + 1..] == domain;
    assert forall i | |local| < i < |addr| :: addr[i] in domain;
  }

  /** A recipient is valid exactly if something stands behind its last `@`. */
  lemma DeliverableIff(addr: string)
    ensures Deliverable(addr) <==> exists local, domain :: addr == local + "@" + domain && domain != "" && '@' !in domain
  {
    if Deliverable(addr) {
      var i := LastIndex(addr, '@');
      assert addr == addr[..i] + "@" + addr[i + 1..];
    }
    if local, domain :| addr == local + "@" + domain && domain != "" && '@' !in domain {
      DomainIs(local, domain);
    }
  }

  /** One recipient more goes to the end of the group of its domain, trimmed, and to no other. */
  lemma GroupGrows(to: seq<string>, raw: string, local: string, domain: string, group: string)
    requires TrimSpace(raw) == local + "@" + domain && domain != "" && '@' !in domain
    ensures GroupOf(to + [raw], group) ==
            GroupOf(to, group) + if ToLower(domain) == group then [local + "@" + domain] else []
    ensures GroupOf([], group) == []
  {
    DomainIs(local, domain);
    assert (to + [raw])[..|to|] == to;
  }

  /** Every recipient is in exactly the group of its domain, as often as it was given. */
  lemma {:induction false} GroupsPartition(to: seq<string>, addr: string, domain: string)
    requires AllDeliverable(to)
    ensures multiset(GroupOf(to, domain))[addr] ==
            if Deliverable(addr) && DomainOf(addr) == domain then multiset(TrimmedAll(to))[addr] else 0
  {
    if to != [] {
      var front := to[..|to| - 1];
      assert TrimmedAll(to) == TrimmedAll(front) + [TrimSpace(to[|to| - 1])];
      GroupsPartition(front, addr, domain);
    }
  }

  function TrimmedAll(to: seq<string>): seq<string> {
    seq(|to|, i requires 0 <= i < |to| => TrimSpace(to[i]))
  }

  /** The hosts tried are the first ones of the list, and none is tried after one that served the group. */
  lemma {:induction false} StopsAtFirstSuccess(net: Net, hosts: seq<string>, rcpts: seq<string>)
    ensures Attempts(net, hosts, rcpts) <= hosts
    ensures var tried := Attempts(net, hosts, rcpts);
            && (forall i | 0 <= i < |tried| - 1 :: !Serves(net, tried[i], rcpts))
            && (tried != [] ==> (Serves(net, tried[|tried| - 1], rcpts) <==> Reachable(net, hosts, rcpts)))
            && (|tried| < |hosts| ==> Reachable(net, hosts, rcpts))
            && (hosts != [] ==> tried != [])
  {
    if hosts != [] {
      assert hosts == [hosts[0]] + hosts[1..];
      if !Serves(net, hosts[0], rcpts) {
        StopsAtFirstSuccess(net, hosts[1..], rcpts);
      }
    }
  }

  /** A group fails exactly if every one of its hosts fails in some command or refuses some recipient:
      one refused recipient sends the whole group to the next host. */
  lemma GroupFailsIff(net: Net, hosts: seq<string>, rcpts: seq<string>)
    ensures !Reachable(net, hosts, rcpts) <==>
            forall h | h in hosts :: !net(h).Works() || exists r :: r in rcpts && !net(h).rcpt(r)
  {
    forall h | h in hosts
      ensures Serves(net, h, rcpts) <==> net(h).Works() && forall r | r in rcpts :: net(h).rcpt(r)
    {
      CompletesIff(net(h), rcpts);
    }
  }

  // ---- how many copies go out ----

  /** The host has the message and is now responsible for it, whatever the client gets to know. */
  predicate Took(net: Net, host: string, rcpts: seq<string>) {
    var d := Talk(net(host), rcpts);
    d.Completed? || d.QuitFailed? || (d.Unconfirmed? && net(host).dot.TakenUnconfirmed?)
  }

  function Copies(net: Net, tried: seq<string>, rcpts: seq<string>): nat {
    if tried == [] then 0
    else (if Took(net, tried[0], rcpts) then 1 else 0) + Copies(net, tried[1..], rcpts)
  }

  /** The group gets one copy if it is reported as delivered and none if not, exactly if no host tried
      took the message without completing the dialogue: such a host counts as failed and the next is
      tried. */
  lemma {:induction false} OneCopyIff(net: Net, hosts: seq<string>, rcpts: seq<string>)
    ensures var tried, due := Attempts(net, hosts, rcpts), if Reachable(net, hosts, rcpts) then 1 else 0;
            && Copies(net, tried, rcpts) >= due
            && (Copies(net, tried, rcpts) == due <==> forall h | h in tried :: Took(net, h, rcpts) ==> Serves(net, h, rcpts))
  {
    if hosts != [] {
      assert hosts == [hosts[0]] + hosts[1..];
      var tried := Attempts(net, hosts, rcpts);
      if Serves(net, hosts[0], rcpts) {
        assert tried == [hosts[0]] && tried[1..] == [];
      } else {
        OneCopyIff(net, hosts[1..], rcpts);
        assert tried[1..] == Attempts(net, hosts[1..], rcpts);
        assert tried == [hosts[0]] + tried[1..];
      }
    }
  }
}
