/**
 The IMAP session ledger of imap/poller.go: who opens a connection, and that every
 opened one is logged out exactly once on every path through `connect`, `Run` and
 `FetchOnce`.
 */
module ImapSession {
  import opened Wrappers

  /** `ledger[s]` counts the LOGOUTs sent on the s-th session ever opened. */
  type Ledger = seq<nat>

  /** How `connect` ends. All but the first two have opened a session by then. */
  datatype Connecting = NoHost | DialFails | StartTlsFails | TokenFails | LoginFails | Connects

  datatype FetchEnding = FetchError | Fetched(n: nat)

  datatype IdleEnding = Woken | IdleError | IdleStopped

  /** What the network and the stop channel do during one turn of the loop of `Run`. */
  datatype Turn = Turn(
    stopped: bool,
    connecting: Connecting,
    selects: bool,
    fetch: FetchEnding,
    canIdle: bool,
    idle: IdleEnding,
    stoppedAsleep: bool)

  function Opens(how: Connecting): nat {
    if how.NoHost? || how.DialFails? then 0 else 1
  }

  /** Whether the loop of `Run` goes on after a turn, and with a session or without. */
  datatype Phase = Ended | WithoutSession | WithSession

  function Next(t: Turn, live: bool): Phase {
    var pause := if t.stoppedAsleep then Ended else WithoutSession;
    if !live && !(t.connecting.Connects? && t.selects) then pause
    else if t.fetch.FetchError? then pause
    else if t.fetch.n > 0 then WithSession
    else if t.canIdle then
      match t.idle
      case IdleStopped => Ended
      case IdleError => pause
      case Woken => WithSession
    else if t.stoppedAsleep then Ended
    else WithSession
  }

  /** A turn ends `Run` exactly if it stops while waiting to reconnect or to poll again, or while idle; and
      it goes on with a session exactly if fetch and idle went well. */
  lemma TurnEndsIff(t: Turn, live: bool)
    ensures var connected := live || (t.connecting == Connects && t.selects);
            var fetched := connected && t.fetch != FetchError;
            var waits := fetched && t.fetch.n == 0;
            && (Next(t, live) == Ended <==>
                  (t.stoppedAsleep && (!fetched || (waits && !t.canIdle) || (waits && t.canIdle && t.idle == IdleError)))
                  || (waits && t.canIdle && t.idle == IdleStopped))
            && (Next(t, live) == WithSession <==>
                  fetched && (t.fetch.n > 0 || (if t.canIdle then t.idle == Woken else !t.stoppedAsleep)))
  {
  }

  /** The sessions `Run` opens in its loop, given whether it enters it with one. */
  function OpenedIn(turns: seq<Turn>, live: bool): nat {
    if turns == [] || turns[0].stopped then 0
    else
      (if live then 0 else Opens(turns[0].connecting)) +
      match Next(turns[0], live)
      case Ended => 0
      case WithoutSession => OpenedIn(turns[1..], false)
      case WithSession => OpenedIn(turns[1..], true)
  }

  /** Every session but `c` has been logged out exactly once, and `c` not at all. */
  ghost predicate Balanced(ledger: Ledger, c: Option<nat>) {
    && (c.Some? ==> c.value < |ledger|)
    && forall s | 0 <= s < |ledger| :: ledger[s] == if c == Some(s) then 0 else 1
  }

  method Logout(ledger: Ledger, s: nat) returns (l: Ledger)
    requires s < |ledger|
    ensures l == ledger[s := ledger[s] + 1]
  {
    l := ledger[s := ledger[s] + 1];
  }

  /** `connect`: the session it returns, if any, is the one it opened; otherwise none is left open. */
  method Connect(ledger: Ledger, how: Connecting) returns (c: Option<nat>, l: Ledger)
    ensures c == if how.Connects? then Some(|ledger|) else None
    ensures l == match how
                 case NoHost => ledger
                 case DialFails => ledger
                 case Connects => ledger + [0]
                 case _ => ledger + [1]
  {
    l := ledger;
    if how.NoHost? || how.DialFails? {
      return None, l;
    }
    var s := |l|;
    l := l + [0];
    if how.StartTlsFails? {
      l := Logout(l, s);
      return None, l;
    }
    if how.TokenFails? || how.LoginFails? {
      l := Logout(l, s);
      return None, l;
    }
    return Some(s), l;
  }

  /** The `reconnect` closure of `Run`. */
  method Reconnect(ledger: Ledger, old_: Option<nat>, how: Connecting, selects: bool) returns (c: Option<nat>, l: Ledger)
    requires Balanced(ledger, old_)
    ensures Balanced(l, c)
    ensures c.Some? <==> how.Connects? && selects
    ensures |l| == |ledger| + Opens(how)
  {
    l := ledger;
    if old_.Some? {
      l := Logout(l, old_.value);
    }
    c, l := Connect(l, how);
    if c.Some? && !selects {
      l := Logout(l, c.value);
      c := None;
    }
  }

  /** One turn of the loop of `Run`, from the top to the next `continue` or `return`. */
  method TakeTurn(before: Ledger, session: Option<nat>, t: Turn) returns (going: bool, c: Option<nat>, ledger: Ledger)
    requires Balanced(before, session)
    ensures Balanced(ledger, c)
    ensures |ledger| == |before| + if session.Some? then 0 else Opens(t.connecting)
    ensures going <==> Next(t, session.Some?) != Ended
    ensures going ==> (c.Some? <==> Next(t, session.Some?) == WithSession)
  {
    c, ledger := session, before;
    if c.None? {
      c, ledger := Reconnect(ledger, c, t.connecting, t.selects);
      if c.None? {
        return !t.stoppedAsleep, c, ledger;
      }
    }
    if t.fetch.FetchError? {
      ledger := Logout(ledger, c.value);
      return !t.stoppedAsleep, None, ledger;
    }
    if t.fetch.n > 0 {
      return true, c, ledger;
    }
    if t.canIdle {
      if t.idle.IdleStopped? {
        return false, c, ledger;
      }
      if t.idle.IdleError? {
        ledger := Logout(ledger, c.value);
        return !t.stoppedAsleep, None, ledger;
      }
      return true, c, ledger;
    }
    return !t.stoppedAsleep, c, ledger;
  }

  /** `Run`; the stop channel counts as closed when the turns are used up. At every loop head exactly
      the current session is open; however it returns, every session has been logged out exactly once. */
  method Run(first: Connecting, firstSelects: bool, turns: seq<Turn>) returns (ledger: Ledger)
    ensures forall s | 0 <= s < |ledger| :: ledger[s] == 1
    ensures |ledger| == Opens(first) + OpenedIn(turns, first.Connects? && firstSelects)
  {
    var c: Option<nat>;
    c, ledger := Reconnect([], None, first, firstSelects);
    var i := 0;
    var going := true;
    while going && i < |turns| && !turns[i].stopped
      invariant i <= |turns|
      invariant Balanced(ledger, c)
      invariant Opens(first) + OpenedIn(turns, first.Connects? && firstSelects)
             == |ledger| + if going then OpenedIn(turns[i..], c.Some?) else 0
      decreases |turns| - i
    {
      assert turns[i..][1..] == turns[i + 1..];
      going, c, ledger := TakeTurn(ledger, c, turns[i]);
      i := i + 1;
    }
    // the deferred logout
    if c.Some? {
      ledger := Logout(ledger, c.value);
    }
  }

  /** The session handling of the on-demand `FetchOnce`; `conn` is the field `p.conn`, empty again on
      return, so that a serialized next call has no leftover session to drop. */
  method FetchOnce(ledger: Ledger, conn: Option<nat>, how: Connecting) returns (conn': Option<nat>, l: Ledger)
    requires Balanced(ledger, conn)
    ensures conn' == None && Balanced(l, None)
    ensures |l| == |ledger| + Opens(how)
  {
    l := ledger;
    if conn.Some? {
      l := Logout(l, conn.value);
    }
    var c;
    c, l := Connect(l, how);
    if c.None? {
      return None, l;
    }
    // the drain loop runs here; its deferred function follows on success, error and panic alike
    l := Logout(l, c.value);
    return None, l;
  }
}
