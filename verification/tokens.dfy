/**
 The refresh-token chain: `fetchAccessToken`, the same in graph/poller.go and
 imap/poller.go, against a server that accepts only the last refresh token it
 issued, with the token kept across restarts in the `.env` file.
 */
module Tokens {
  import opened Wrappers
  import opened GoStrings
  import opened EnvFile

  /** Times are in nanoseconds. */
  const SECOND := 1_000_000_000
  const HOUR := 3600 * SECOND
  const MARGIN := 60 * SECOND

  /** A 200 answer of the token endpoint. An empty `refresh` means no new refresh token. */
  datatype Grant = Grant(access: string, refresh: string, expiresIn: int)

  /** What the client gets to see of an exchange. */
  datatype Reply = Unreached | Refused(status: int) | Garbled | Granted(grant: Grant)

  datatype TokenError = Transport | Status(code: int) | BadJson | NoAccessToken

  datatype Client = Client(refresh: string, access: string, expiry: int)

  function Lifetime(expiresIn: int): int {
    if expiresIn <= 0 then HOUR else expiresIn * SECOND
  }

  predicate Cached(c: Client, now: int) {
    c.access != "" && now < c.expiry
  }

  /** The client's side of an exchange: its new state and the token to persist, if any. */
  function Accept(c: Client, grant: Grant, recorded: int): (Client, Option<string>) {
    var rotated := grant.refresh != "" && grant.refresh != c.refresh;
    (Client(if rotated then grant.refresh else c.refresh, grant.access, recorded + Lifetime(grant.expiresIn) - MARGIN),
     if rotated then Some(grant.refresh) else None)
  }

  datatype Fetched = Fetched(client: Client, persist: Option<string>, result: Result<string, TokenError>)

  /** `fetchAccessToken`: `now` is read first, `recorded` when the expiry is computed. */
  function Fetch(c: Client, now: int, reply: Reply, recorded: int): Fetched {
    if Cached(c, now) then Fetched(c, None, Ok(c.access))
    else match reply
      case Unreached => Fetched(c, None, Err(Transport))
      case Refused(code) => Fetched(c, None, Err(Status(code)))
      case Garbled => Fetched(c, None, Err(BadJson))
      case Granted(grant) =>
        if grant.access == "" then Fetched(c, None, Err(NoAccessToken))
        else
          var (c', persist) := Accept(c, grant, recorded);
          Fetched(c', persist, Ok(grant.access))
  }

  /** The poller's token fields, and the file its `OnRotated` callback rewrites. */
  class TokenSource {
    const key: string
    var refreshToken: string
    var accessToken: string
    var tokenExpiry: int
    var file: string

    ghost function Fields(): Client
      reads this
    {
      Client(refreshToken, accessToken, tokenExpiry)
    }

    /** A start of the program: the refresh token comes from the file, the cache is empty. */
    constructor (key: string, file: string)
      ensures this.key == key && this.file == file
      ensures Fields() == Client(ReadFile(file, key), "", 0)
    {
      this.key, this.file := key, file;
      refreshToken, accessToken, tokenExpiry := ReadFile(file, key), "", 0;
    }

    method FetchAccessToken(now: int, reply: Reply, recorded: int, writable: bool) returns (r: Result<string, TokenError>)
      modifies this
      ensures var f := Fetch(old(Fields()), now, reply, recorded);
              && Fields() == f.client && r == f.result
              && file == if f.persist.Some? && writable then Persisted(old(file), key, f.persist.value) else old(file)
    {
      if accessToken != "" && now < tokenExpiry {
        return Ok(accessToken);
      }
      match reply
      case Unreached => return Err(Transport);
      case Refused(code) => return Err(Status(code));
      case Garbled => return Err(BadJson);
      case Granted(tok) =>
        if tok.access == "" {
          return Err(NoAccessToken);
        }
        if tok.refresh != "" && tok.refresh != refreshToken {
          refreshToken := tok.refresh;
          if writable {
            file := PersistRefreshToken(file, key, tok.refresh);
          }
        }
        accessToken := tok.access;
        var exp := tok.expiresIn * SECOND;
        if exp <= 0 {
          exp := HOUR;
        }
        tokenExpiry := recorded + exp - MARGIN;
        return Ok(tok.access);
    }
  }

  // ---- client, file and server together ----

  /** `valid` is the one refresh token the server accepts; `accessUntil` is when the server really stops
      accepting the cached access token; `refusals` counts exchanges the server turned down. */
  datatype World = World(client: Client, file: string, valid: string, accessUntil: int, refusals: nat)

  /** One call: the grant the server would make, until when it accepts the access token in it, whether
      its answer arrives, when the client then computes the expiry, and whether the file can be written. */
  datatype Step =
    | Call(now: int, grant: Grant, until: int, recorded: int, delivered: bool, writable: bool)
    | Restart

  function ServerValid(valid: string, grant: Grant): string {
    if grant.refresh == "" then valid else grant.refresh
  }

  function ReplyTo(w: World, s: Step): Reply
    requires s.Call?
  {
    if w.client.refresh != w.valid then Refused(400)
    else if s.delivered then Granted(s.grant) else Unreached
  }

  function Apply(w: World, key: string, s: Step): World {
    match s
    case Restart => w.(client := Client(ReadFile(w.file, key), "", 0))
    case Call(now, grant, until, recorded, delivered, writable) =>
      if Cached(w.client, now) then w
      else
        var reply := ReplyTo(w, s);
        var f := Fetch(w.client, now, reply, recorded);
        World(f.client,
              if f.persist.Some? && writable then Persisted(w.file, key, f.persist.value) else w.file,
              if reply.Refused? then w.valid else ServerValid(w.valid, grant),
              if f.result.Ok? then until else w.accessUntil,
              w.refusals + if reply.Refused? then 1 else 0)
  }

  function Exec(w: World, key: string, run: seq<Step>): World
    decreases |run|
  {
    if run == [] then w else Exec(Apply(w, key, run[0]), key, run[1..])
  }

  predicate LiteralGrants(run: seq<Step>) {
    forall i | 0 <= i < |run| && run[i].Call? :: Literal(run[i].grant.refresh) && Unquoted(run[i].grant.refresh)
  }

  /** The answer arrives complete and a new token can be written down. */
  predicate Smooth(s: Step) {
    s.Call? ==> s.delivered && s.grant.access != "" && s.writable
  }

  // ---- agreement ----

  ghost predicate Agree(w: World, key: string) {
    && w.client.refresh == w.valid
    && ReadFile(w.file, key) == w.valid
    && Clear(Split(w.file, '\n'), key)
  }

  predicate Rotates(w: World, s: Step) {
    s.Call? && !Cached(w.client, s.now) && s.grant.refresh != "" && s.grant.refresh != w.client.refresh
  }

  /** The new token reads back from the file as it was written. */
  ghost predicate Kept(w: World, key: string, token: string) {
    WrittenValue(Split(w.file, '\n'), key, token) == token
  }

  /** When memory, file and server agree, a step keeps them in agreement exactly if it rotates no token,
      or everything about the rotation goes right and the new token reads back as it was written. */
  lemma StaysInAgreementIff(w: World, key: string, s: Step)
    requires VariableName(key) && Agree(w, key)
    requires s.Call? ==> Unquoted(s.grant.refresh)
    ensures Agree(Apply(w, key, s), key) <==> (Rotates(w, s) ==> Smooth(s) && Kept(w, key, s.grant.refresh))
    ensures Apply(w, key, s).refusals == w.refusals
  {
    if s.Call? && Rotates(w, s) {
      WriteThenRead(w.file, key, s.grant.refresh);
    }
  }

  /** Over any run of smooth calls and restarts with literal tokens every exchange is accepted, and after
      each step memory, file and server hold the same token. */
  lemma {:induction false} ChainHolds(w: World, key: string, run: seq<Step>)
    requires VariableName(key) && Agree(w, key) && LiteralGrants(run)
    requires forall i | 0 <= i < |run| :: Smooth(run[i])
    ensures Agree(Exec(w, key, run), key)
    ensures Exec(w, key, run).refusals == w.refusals
    decreases |run|
  {
    if run != [] {
      StaysInAgreementIff(w, key, run[0]);
      if run[0].Call? {
        var front := Split(w.file, '\n')[..FirstLine(Split(w.file, '\n'), key)];
        LiteralKept(run[0].grant.refresh, name => ReadKey(front, name));
      }
      ChainHolds(Apply(w, key, run[0]), key, run[1..]);
    }
  }

  ghost predicate Broken(w: World, key: string) {
    w.client.refresh != w.valid && ReadFile(w.file, key) != w.valid
  }

  lemma BrokenStep(w: World, key: string, s: Step)
    requires Broken(w, key)
    ensures var w' := Apply(w, key, s); Broken(w', key) && w'.valid == w.valid && w'.file == w.file
  {
  }

  /** Once neither memory nor file holds the valid token, no run ever gets back: nothing but refused
      exchanges, cached answers and restarts. */
  lemma {:induction false} BrokenChainStaysBroken(w: World, key: string, run: seq<Step>)
    requires Broken(w, key)
    ensures var w' := Exec(w, key, run); Broken(w', key) && w'.valid == w.valid && w'.file == w.file
    decreases |run|
  {
    if run != [] {
      BrokenStep(w, key, run[0]);
      BrokenChainStaysBroken(Apply(w, key, run[0]), key, run[1..]);
    }
  }

  lemma RotateAndRestart(w: World, key: string, s: Step)
    requires w.client.refresh == w.valid && Smooth(s) && Rotates(w, s)
    ensures var w' := Exec(w, key, [s, Restart]);
            && w'.valid == s.grant.refresh && w'.file == Persisted(w.file, key, s.grant.refresh)
            && w'.client.refresh == ReadFile(w'.file, key)
  {
    var once := Apply(w, key, s);
    assert [s, Restart][1..] == [Restart];
    assert [Restart][1..] == [];
    assert Exec(w, key, [s, Restart]) == Exec(once, key, [Restart]) == Apply(once, key, Restart);
  }

  /** A line of the key behind the one that gets rewritten breaks the chain with nothing going wrong:
      after one rotation and a restart the client is back at the old token. */
  lemma SecondLineBreaksChain(w: World, key: string, s: Step)
    requires VariableName(key) && w.client.refresh == w.valid == ReadFile(w.file, key)
    requires !Clear(Split(w.file, '\n'), key) && Literal(LastText(Split(w.file, '\n'), key))
    requires Smooth(s) && Rotates(w, s) && Unquoted(s.grant.refresh)
    ensures var w' := Exec(w, key, [s, Restart]);
            w'.client.refresh == w.valid != w'.valid && ReadFile(w'.file, key) != w'.valid
  {
    RotateAndRestart(w, key, s);
    WriteThenRead(w.file, key, s.grant.refresh);
  }

  /** So does, where no earlier line sets a variable, exactly a token that is not literal: it comes back
      from the restart changed. */
  lemma ReferenceBreaksChainIff(w: World, key: string, s: Step)
    requires VariableName(key) && w.client.refresh == w.valid
    requires Clear(Split(w.file, '\n'), key) && NothingInFront(Split(w.file, '\n'), key)
    requires Smooth(s) && Rotates(w, s) && Unquoted(s.grant.refresh)
    ensures var w' := Exec(w, key, [s, Restart]); w'.client.refresh == w'.valid <==> Literal(s.grant.refresh)
  {
    RotateAndRestart(w, key, s);
    LiteralTokenIsKept(w.file, key, s.grant.refresh);
  }

  // ---- the access-token cache ----

  /** What an access token is good for by its grant, in nanoseconds from its issue: `expiresIn` seconds,
      an hour if the server does not say. */
  predicate Promised(s: Step, issued: int) {
    s.Call? ==>
      s.until >= issued + (if s.grant.expiresIn > 0 then s.grant.expiresIn * 1_000_000_000 else 3_600_000_000_000)
  }

  /** The server keeps its promise, and the expiry is computed within a minute of the issue. */
  ghost predicate Prompt(s: Step) {
    s.Call? ==> exists issued :: Promised(s, issued) && s.recorded <= issued + 60_000_000_000
  }

  predicate CacheHonest(w: World) {
    w.client.access != "" ==> w.client.expiry <= w.accessUntil
  }

  lemma PromptKeepsHonest(w: World, key: string, s: Step)
    requires CacheHonest(w) && Prompt(s)
    ensures CacheHonest(Apply(w, key, s))
  {
    if s.Call? {
      var issued :| Promised(s, issued) && s.recorded <= issued + 60_000_000_000;
    }
  }

  /** Over any run a cached access token is handed out only while the server accepts it. */
  lemma {:induction false} CachedTokenUnexpired(w: World, key: string, run: seq<Step>, now: int)
    requires CacheHonest(w)
    requires forall i | 0 <= i < |run| :: Prompt(run[i])
    ensures CacheHonest(Exec(w, key, run))
    ensures Cached(Exec(w, key, run).client, now) ==> now < Exec(w, key, run).accessUntil
    decreases |run|
  {
    if run != [] {
      PromptKeepsHonest(w, key, run[0]);
      CachedTokenUnexpired(Apply(w, key, run[0]), key, run[1..], now);
    }
  }

  /** A token granted for `expiresIn` seconds is served again without asking, whatever the server would
      say by then, exactly up to one minute before so many seconds, or an hour if none are given, have
      passed since it was recorded. */
  lemma ServedFromCacheIff(c: Client, now: int, grant: Grant, recorded: int, later: int, recordedLater: int)
    requires !Cached(c, now) && grant.access != ""
    ensures var c' := Fetch(c, now, Granted(grant), recorded).client;
            var again := Fetch(c', later, Unreached, recordedLater);
            var seconds := if grant.expiresIn > 0 then grant.expiresIn else 3600;
            again.result == Ok(grant.access) <==> later < recorded + seconds * 1_000_000_000 - 60_000_000_000
  {
  }

  /** How a call without a cached token ends, and what the client keeps: every failure leaves it as it
      was; a grant brings its access token, and its refresh token if there is a new one, which is also
      the one to be written down. */
  lemma FetchEnds(c: Client, now: int, reply: Reply, recorded: int)
    requires c.access == "" || now >= c.expiry
    ensures var f := Fetch(c, now, reply, recorded);
            match reply
            case Unreached => f == Fetched(c, None, Err(Transport))
            case Refused(code) => f == Fetched(c, None, Err(Status(code)))
            case Garbled => f == Fetched(c, None, Err(BadJson))
            case Granted(grant) =>
              if grant.access == "" then f == Fetched(c, None, Err(NoAccessToken))
              else
                && f.result == Ok(grant.access) && f.client.access == grant.access
                && f.client.refresh == (if grant.refresh != "" then grant.refresh else c.refresh)
                && (f.persist.Some? <==> f.client.refresh != c.refresh)
                && (f.persist.Some? ==> f.persist.value == grant.refresh)
  {
  }
}
