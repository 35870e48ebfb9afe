/**
 The addresses `CreateMailbox` of handlers/email.go hands out, and why mail sent to
 them comes back to the same mailbox.
 */
module Addresses {
  import opened Wrappers
  import opened GoStrings
  import opened Routing
  import opened Headers

  // ---- sanitizers ----

  predicate LowerAlnum(c: char) {
    'a' <= c <= 'z' || '0' <= c <= '9'
  }

  predicate LocalChar(c: char) {
    LowerAlnum(c) || c == '.' || c == '_' || c == '-'
  }

  predicate LabelChar(c: char) {
    LowerAlnum(c) || c == '-'
  }

  /** The alphabets written out. */
  lemma SafeCharsAre(c: char)
    ensures LocalChar(c) <==> c in "abcdefghijklmnopqrstuvwxyz0123456789._-"
    ensures LabelChar(c) <==> c in "abcdefghijklmnopqrstuvwxyz0123456789-"
  {
  }

  predicate IsDot(c: char) { c == '.' }

  predicate IsHyphen(c: char) { c == '-' }

  /** The safe characters of `s`, capitals lowered, everything else dropped. */
  function Kept(s: string, safe: char -> bool): string {
    if s == "" then "" else KeptChar(s[0], safe) + Kept(s[1..], safe)
  }

  function KeptChar(c: char, safe: char -> bool): string {
    if safe(c) then [c] else if 'A' <= c <= 'Z' then [LowerChar(c)] else ""
  }

  function SanitizedLocal(s: string): string {
    Trim(Kept(s, LocalChar), IsDot)
  }

  function SanitizedLabel(s: string): string {
    Shortened(Trim(Kept(s, LabelChar), IsHyphen))
  }

  function Shortened(t: string): string {
    if |t| > 63 then t[..63] else t
  }

  lemma {:induction false} KeptAppend(s: string, c: char, safe: char -> bool)
    ensures Kept(s + [c], safe) == Kept(s, safe) + KeptChar(c, safe)
  {
    if s == "" {
      assert s + [c] == [c];
    } else {
      assert (s + [c])[1..] == s[1..] + [c];
      KeptAppend(s[1..], c, safe);
    }
  }

  /** The builder loop shared by both sanitizers. */
  method Filter(s: string, safe: char -> bool) returns (b: string)
    ensures b == Kept(s, safe)
  {
    b := "";
    for i := 0 to |s|
      invariant b == Kept(s[..i], safe)
    {
      KeptAppend(s[..i], s[i], safe);
      assert s[..i + 1] == s[..i] + [s[i]];
      var r := s[i];
      if safe(r) {
        b := b + [r];
      } else if 'A' <= r <= 'Z' {
        b := b + [(r as int + 32) as char];
      }
    }
    assert s[..|s|] == s;
  }

  /** `sanitizeLocalPart`. */
  method SanitizeLocalPart(s: string) returns (r: string)
    ensures r == SanitizedLocal(s)
  {
    var b := Filter(s, LocalChar);
    r := Trim(b, IsDot);
  }

  /** `sanitizeSubdomain`. */
  method SanitizeSubdomain(s: string) returns (r: string)
    ensures r == SanitizedLabel(s)
  {
    var b := Filter(s, LabelChar);
    r := Trim(b, IsHyphen);
    if |r| > 63 {
      r := r[..63];
    }
  }

  predicate AllSafe(s: string, safe: char -> bool) {
    forall i | 0 <= i < |s| :: safe(s[i])
  }

  predicate TakesLetters(safe: char -> bool) {
    forall c | LowerAlnum(c) :: safe(c)
  }

  lemma {:induction false} KeptIsSafe(s: string, safe: char -> bool)
    requires TakesLetters(safe)
    ensures AllSafe(Kept(s, safe), safe)
  {
    if s != "" {
      KeptIsSafe(s[1..], safe);
    }
  }

  lemma {:induction false} KeptOfSafe(s: string, safe: char -> bool)
    requires AllSafe(s, safe)
    ensures Kept(s, safe) == s
  {
    if s != "" {
      KeptOfSafe(s[1..], safe);
    }
  }

  lemma TrimStaysSafe(s: string, safe: char -> bool, cut: char -> bool)
    requires AllSafe(s, safe)
    ensures AllSafe(Trim(s, cut), safe)
  {
    TrimIsTrimmed(s, cut);
    forall i | 0 <= i < |Trim(s, cut)|
      ensures safe(Trim(s, cut)[i])
    {
      assert Trim(s, cut)[i] in s;
    }
  }

  /** Sanitized local parts are safe, have no dot at either edge, and are left alone by a second pass. */
  lemma LocalPartClean(s: string)
    ensures AllSafe(SanitizedLocal(s), LocalChar)
    ensures Trimmed(SanitizedLocal(s), IsDot)
    ensures SanitizedLocal(SanitizedLocal(s)) == SanitizedLocal(s)
  {
    KeptIsSafe(s, LocalChar);
    TrimStaysSafe(Kept(s, LocalChar), LocalChar, IsDot);
    TrimIsTrimmed(Kept(s, LocalChar), IsDot);
    KeptOfSafe(SanitizedLocal(s), LocalChar);
    TrimOfTrimmed(SanitizedLocal(s), IsDot);
  }

  lemma {:induction false} TrimRightUnchanged(s: string, cut: char -> bool)
    ensures TrimRight(s, cut) == s <==> s == "" || !cut(s[|s| - 1])
  {
    if s != "" && cut(s[|s| - 1]) {
      TrimRightIsPrefix(s[..|s| - 1], cut);
    }
  }

  lemma ShortenedLabel(t: string)
    requires AllSafe(t, LabelChar) && Trimmed(t, IsHyphen)
    ensures var r := Shortened(t);
            && AllSafe(r, LabelChar) && |r| <= 63
            && (r != "" ==> r[0] != '-')
            && (r != "" && r[|r| - 1] == '-' <==> |t| > 63 && t[62] == '-')
  {
  }

  /** A label is a DNS label of at most 63 characters that never starts with a hyphen; a hyphen at
      its end survives only through the cut at 63. */
  lemma LabelClean(s: string)
    ensures AllSafe(SanitizedLabel(s), LabelChar) && |SanitizedLabel(s)| <= 63
    ensures SanitizedLabel(s) != "" ==> SanitizedLabel(s)[0] != '-'
    ensures SanitizedLabel(s) != "" && SanitizedLabel(s)[|SanitizedLabel(s)| - 1] == '-' <==>
            var t := Trim(Kept(s, LabelChar), IsHyphen); |t| > 63 && t[62] == '-'
  {
    var t := Trim(Kept(s, LabelChar), IsHyphen);
    KeptIsSafe(s, LabelChar);
    TrimStaysSafe(Kept(s, LabelChar), LabelChar, IsHyphen);
    TrimIsTrimmed(Kept(s, LabelChar), IsHyphen);
    ShortenedLabel(t);
  }

  /** Sanitizing a label again changes nothing exactly if the cut left no hyphen at its end. */
  lemma LabelIdempotentIff(s: string)
    ensures SanitizedLabel(SanitizedLabel(s)) == SanitizedLabel(s) <==>
            var t := Trim(Kept(s, LabelChar), IsHyphen); !(|t| > 63 && t[62] == '-')
  {
    LabelClean(s);
    SecondPass(SanitizedLabel(s));
  }

  lemma SecondPass(r: string)
    requires AllSafe(r, LabelChar) && |r| <= 63 && (r != "" ==> r[0] != '-')
    ensures SanitizedLabel(r) == r <==> r == "" || r[|r| - 1] != '-'
  {
    KeptOfSafe(r, LabelChar);
    TrimRightUnchanged(r, IsHyphen);
    TrimRightIsPrefix(r, IsHyphen);
  }

  // ---- building an address ----

  datatype Config = Config(primary: string, domains: seq<string>, allowSubdomains: bool)

  datatype Request = Request(name: string, domain: string, subdomain: string)

  datatype Refusal = InvalidDomain | InvalidName | SubdomainsDisabled | InvalidSubdomain

  function WithoutHyphens(s: string): string {
    if s == "" then ""
    else (if s[0] == '-' then "" else [s[0]]) + WithoutHyphens(s[1..])
  }

  predicate IsHex(c: char) {
    '0' <= c <= '9' || 'a' <= c <= 'f'
  }

  /** The textual form `uuid.NewString` returns: 8-4-4-4-12 lower-case hex digits. */
  predicate IsUuid(u: string) {
    && |u| == 36
    && forall i | 0 <= i < 36 :: if i in {8, 13, 18, 23} then u[i] == '-' else IsHex(u[i])
  }

  function ChosenDomain(cfg: Config, req: Request): Result<string, Refusal> {
    if req.domain == "" then Ok(cfg.primary)
    else if Normal(req.domain) in cfg.domains then Ok(Normal(req.domain))
    else Err(InvalidDomain)
  }

  /** A random name takes the first ten characters of a uuid. */
  function ChosenName(req: Request, uuid: string): Result<string, Refusal>
    requires IsUuid(uuid)
  {
    if Normal(req.name) == "" then Ok(WithoutHyphens(uuid[..10]))
    else if SanitizedLocal(Normal(req.name)) == "" then Err(InvalidName)
    else Ok(SanitizedLocal(Normal(req.name)))
  }

  /** The subdomain label, empty for none. */
  function ChosenLabel(cfg: Config, req: Request, uuid: string): Result<string, Refusal>
    requires IsUuid(uuid)
  {
    if req.subdomain == "" then Ok("")
    else if !cfg.allowSubdomains then Err(SubdomainsDisabled)
    else if Normal(req.subdomain) == "random" then Ok(WithoutHyphens(uuid[..8]))
    else if SanitizedLabel(Normal(req.subdomain)) == "" then Err(InvalidSubdomain)
    else Ok(SanitizedLabel(Normal(req.subdomain)))
  }

  function Host(sub: string, domain: string): string {
    if sub == "" then domain else sub + "." + domain
  }

  /** `CreateMailbox` up to the address; the two uuids are the random values it may draw. */
  function NewAddress(cfg: Config, req: Request, nameUuid: string, subUuid: string): Result<string, Refusal>
    requires IsUuid(nameUuid) && IsUuid(subUuid)
  {
    match (ChosenDomain(cfg, req), ChosenName(req, nameUuid), ChosenLabel(cfg, req, subUuid))
    case (Err(e), _, _) => Err(e)
    case (Ok(_), Err(e), _) => Err(e)
    case (Ok(_), Ok(_), Err(e)) => Err(e)
    case (Ok(domain), Ok(name), Ok(sub)) => Ok(name + "@" + Host(sub, domain))
  }

  method CreateAddress(cfg: Config, req: Request, nameUuid: string, subUuid: string) returns (r: Result<string, Refusal>)
    requires IsUuid(nameUuid) && IsUuid(subUuid)
    ensures r == NewAddress(cfg, req, nameUuid, subUuid)
  {
    var domain := cfg.primary;
    if req.domain != "" {
      var reqDomain := ToLower(TrimSpace(req.domain));
      var found := false;
      for i := 0 to |cfg.domains|
        invariant !found && reqDomain !in cfg.domains[..i]
      {
        if cfg.domains[i] == reqDomain {
          found := true;
          break;
        }
      }
      if !found {
        return Err(InvalidDomain);
      }
      domain := reqDomain;
    }
    var name := ToLower(TrimSpace(req.name));
    if name == "" {
      name := WithoutHyphens(nameUuid[..10]);
    } else {
      name := SanitizeLocalPart(name);
      if name == "" {
        return Err(InvalidName);
      }
    }
    HexWithoutHyphens(subUuid[..8]);
    var fullDomain := domain;
    if req.subdomain != "" {
      if !cfg.allowSubdomains {
        return Err(SubdomainsDisabled);
      }
      var sub := ToLower(TrimSpace(req.subdomain));
      if sub == "random" {
        sub := WithoutHyphens(subUuid[..8]);
      } else {
        sub := SanitizeSubdomain(sub);
        if sub == "" {
          return Err(InvalidSubdomain);
        }
      }
      fullDomain := sub + "." + domain;
    }
    return Ok(name + "@" + fullDomain);
  }

  /** What the sanitizers keep of a character: a safe one as it is, a capital as its small letter. */
  lemma KeptCharIs(c: char, safe: char -> bool)
    ensures safe(c) ==> KeptChar(c, safe) == [c]
    ensures !safe(c) && 'A' <= c <= 'Z' ==> KeptChar(c, safe) == ["abcdefghijklmnopqrstuvwxyz"[c as int - 'A' as int]]
    ensures !safe(c) && !('A' <= c <= 'Z') ==> KeptChar(c, safe) == ""
  {
    LowerCharIs(c);
  }

  /** The request is for this clean name and for this domain, or for none and this is the primary one. */
  predicate AsksFor(cfg: Config, req: Request, name: string, domain: string) {
    && name != "" && Normal(req.name) == name && AllSafe(name, LocalChar) && Trimmed(name, IsDot)
    && if req.domain == "" then domain == cfg.primary else domain == Normal(req.domain) && domain in cfg.domains
  }

  lemma AskedPartsChosen(cfg: Config, req: Request, uuid: string, name: string, domain: string)
    requires IsUuid(uuid) && AsksFor(cfg, req, name, domain)
    ensures ChosenDomain(cfg, req) == Ok(domain) && ChosenName(req, uuid) == Ok(name)
  {
    KeptOfSafe(name, LocalChar);
    TrimOfTrimmed(name, IsDot);
  }

  lemma AskedLabelChosen(cfg: Config, req: Request, uuid: string, sub: string)
    requires IsUuid(uuid) && cfg.allowSubdomains && req.subdomain != "" && Normal(req.subdomain) == sub
    requires sub != "" && sub != "random" && |sub| <= 63 && AllSafe(sub, LabelChar) && Trimmed(sub, IsHyphen)
    ensures ChosenLabel(cfg, req, uuid) == Ok(sub)
  {
    KeptOfSafe(sub, LabelChar);
    TrimOfTrimmed(sub, IsHyphen);
  }

  /** A request for a clean name gets exactly the address it asks for. */
  lemma RequestedAddress(cfg: Config, req: Request, nameUuid: string, subUuid: string, name: string, domain: string)
    requires IsUuid(nameUuid) && IsUuid(subUuid) && AsksFor(cfg, req, name, domain) && req.subdomain == ""
    ensures NewAddress(cfg, req, nameUuid, subUuid) == Ok(name + "@" + domain)
  {
    AskedPartsChosen(cfg, req, nameUuid, name, domain);
    assert Host("", domain) == domain;
  }

  /** With labels switched on, one for a clean label too gets the address below the domain; one for a
      random label gets eight hex digits of a uuid. */
  lemma RequestedLabel(cfg: Config, req: Request, nameUuid: string, subUuid: string, name: string, domain: string, sub: string)
    requires IsUuid(nameUuid) && IsUuid(subUuid) && AsksFor(cfg, req, name, domain)
    requires cfg.allowSubdomains && req.subdomain != "" && Normal(req.subdomain) == sub
    requires sub != "" && |sub| <= 63 && AllSafe(sub, LabelChar) && Trimmed(sub, IsHyphen)
    ensures NewAddress(cfg, req, nameUuid, subUuid) ==
            Ok(name + "@" + ((if sub == "random" then subUuid[..8] else sub) + "." + domain))
  {
    AskedPartsChosen(cfg, req, nameUuid, name, domain);
    if sub == "random" {
      NoHyphens(subUuid[..8]);
    } else {
      AskedLabelChosen(cfg, req, subUuid, sub);
    }
  }

  /** A request without a name gets nine hex digits of a uuid. */
  lemma RandomName(cfg: Config, req: Request, nameUuid: string, subUuid: string)
    requires IsUuid(nameUuid) && IsUuid(subUuid)
    requires Normal(req.name) == "" && req.domain == "" && req.subdomain == ""
    ensures NewAddress(cfg, req, nameUuid, subUuid) == Ok(nameUuid[..8] + nameUuid[9..10] + "@" + cfg.primary)
  {
    var u := nameUuid;
    assert u[..10] == u[..8] + "-" + u[9..10];
    HyphenDropped(u[..8], u[9..10]);
    assert Host("", cfg.primary) == cfg.primary;
  }

  lemma {:induction false} HyphenDropped(front: string, back: string)
    requires '-' !in front && '-' !in back
    ensures WithoutHyphens(front + "-" + back) == front + back
  {
    if front == "" {
      assert front + "-" + back == "-" + back && ("-" + back)[1..] == back;
      NoHyphens(back);
      assert front + back == back;
    } else {
      assert (front + "-" + back)[1..] == front[1..] + "-" + back;
      HyphenDropped(front[1..], back);
      assert front + back == [front[0]] + (front[1..] + back);
    }
  }

  lemma {:induction false} NoHyphens(s: string)
    requires '-' !in s
    ensures WithoutHyphens(s) == s
  {
    if s != "" {
      NoHyphens(s[1..]);
      assert s == [s[0]] + s[1..];
    }
  }

  predicate NoneOf(s: string, good: char -> bool) {
    forall c | c in s :: !good(c)
  }

  lemma NormalIsLower(s: string)
    ensures forall c | c in Normal(s) :: !('A' <= c <= 'Z')
  {
    var t := TrimSpace(s);
    forall i | 0 <= i < |t|
      ensures !('A' <= ToLower(t)[i] <= 'Z')
    {
    }
  }

  lemma NoNameLeftIff(raw: string)
    ensures SanitizedLocal(Normal(raw)) == "" <==> NoneOf(Normal(raw), c => LocalChar(c) && c != '.')
  {
    NormalIsLower(raw);
    NothingLeftIff(Normal(raw), LocalChar, IsDot);
  }

  lemma NoLabelLeftIff(raw: string)
    ensures SanitizedLabel(Normal(raw)) == "" <==> NoneOf(Normal(raw), LowerAlnum)
  {
    NormalIsLower(raw);
    NothingLeftIff(Normal(raw), LabelChar, IsHyphen);
  }

  /** The refusals, in the order they are made: a domain that is not configured; a name of which nothing
      but dots is left; a label while labels are switched off; one of which nothing but hyphens is left. */
  lemma RefusedAddress(cfg: Config, req: Request, nameUuid: string, subUuid: string)
    requires IsUuid(nameUuid) && IsUuid(subUuid)
    ensures var r := NewAddress(cfg, req, nameUuid, subUuid);
            var badDomain := req.domain != "" && Normal(req.domain) !in cfg.domains;
            var badName := Normal(req.name) != "" && NoneOf(Normal(req.name), c => LocalChar(c) && c != '.');
            var badLabel := req.subdomain != "" && Normal(req.subdomain) != "random" && NoneOf(Normal(req.subdomain), LowerAlnum);
            && (r == Err(InvalidDomain) <==> badDomain)
            && (r == Err(InvalidName) <==> !badDomain && badName)
            && (r == Err(SubdomainsDisabled) <==> !badDomain && !badName && req.subdomain != "" && !cfg.allowSubdomains)
            && (r == Err(InvalidSubdomain) <==> !badDomain && !badName && cfg.allowSubdomains && badLabel)
  {
    NoNameLeftIff(req.name);
    NoLabelLeftIff(req.subdomain);
  }

  /** Nothing is left of a lowered text exactly if it has only unsafe and trimmed characters. */
  lemma NothingLeftIff(s: string, safe: char -> bool, cut: char -> bool)
    requires forall c | c in s :: !('A' <= c <= 'Z')
    ensures Trim(Kept(s, safe), cut) == "" <==> forall c | c in s :: !safe(c) || cut(c)
  {
    KeptChars(s, safe);
    TrimmedAwayIff(Kept(s, safe), cut);
  }

  lemma {:induction false} KeptChars(s: string, safe: char -> bool)
    requires forall c | c in s :: !('A' <= c <= 'Z')
    ensures forall c :: c in Kept(s, safe) <==> c in s && safe(c)
  {
    if s != "" {
      assert s == [s[0]] + s[1..] && s[0] in s;
      assert forall c | c in s[1..] :: c in s;
      KeptChars(s[1..], safe);
    }
  }

  lemma {:induction false} TrimmedAwayIff(s: string, cut: char -> bool)
    ensures Trim(s, cut) == "" <==> forall c | c in s :: cut(c)
  {
    if s != "" {
      assert s == [s[0]] + s[1..];
      if cut(s[0]) {
        TrimmedAwayIff(s[1..], cut);
      } else {
        TrimRightKeepsHead(s, cut);
      }
    }
  }

  lemma {:induction false} TrimRightKeepsHead(s: string, cut: char -> bool)
    requires s != "" && !cut(s[0])
    ensures TrimRight(s, cut) != ""
  {
    if cut(s[|s| - 1]) {
      TrimRightKeepsHead(s[..|s| - 1], cut);
    }
  }

  // ---- receiving on it ----

  /** A configured domain as it can stand in an address header. */
  predicate PlainDomain(d: string) {
    WellFormedDomain(d) && ',' !in d && '<' !in d && '>' !in d
  }

  predicate Plain(cfg: Config) {
    && cfg.primary in cfg.domains
    && forall d | d in cfg.domains :: PlainDomain(d)
  }

  lemma {:induction false} HexWithoutHyphens(s: string)
    requires forall i | 0 <= i < |s| :: IsHex(s[i]) || s[i] == '-'
    ensures AllSafe(WithoutHyphens(s), LowerAlnum)
    ensures s != "" && IsHex(s[0]) ==> WithoutHyphens(s) != ""
  {
    if s != "" {
      HexWithoutHyphens(s[1..]);
    }
  }

  /** The pieces of a handed-out address: a safe local part, an optional safe label, a configured domain. */
  ghost predicate Assembled(cfg: Config, a: string, name: string, sub: string, domain: string) {
    && name != "" && AllSafe(name, LocalChar)
    && AllSafe(sub, LabelChar)
    && (sub != "" ==> cfg.allowSubdomains)
    && domain in cfg.domains
    && a == name + "@" + Host(sub, domain)
  }

  lemma ChosenNameSafe(req: Request, uuid: string)
    requires IsUuid(uuid) && ChosenName(req, uuid).Ok?
    ensures var name := ChosenName(req, uuid).value; name != "" && AllSafe(name, LocalChar)
  {
    HexWithoutHyphens(uuid[..10]);
    LocalPartClean(Normal(req.name));
  }

  lemma ChosenLabelSafe(cfg: Config, req: Request, uuid: string)
    requires IsUuid(uuid) && ChosenLabel(cfg, req, uuid).Ok?
    ensures var sub := ChosenLabel(cfg, req, uuid).value; AllSafe(sub, LabelChar) && (sub != "" ==> cfg.allowSubdomains)
  {
    HexWithoutHyphens(uuid[..8]);
    LabelClean(Normal(req.subdomain));
  }

  lemma NewAddressAssembled(cfg: Config, req: Request, nameUuid: string, subUuid: string)
    returns (name: string, sub: string, domain: string)
    requires Plain(cfg) && IsUuid(nameUuid) && IsUuid(subUuid)
    requires NewAddress(cfg, req, nameUuid, subUuid).Ok?
    ensures Assembled(cfg, NewAddress(cfg, req, nameUuid, subUuid).value, name, sub, domain)
  {
    domain := ChosenDomain(cfg, req).value;
    name := ChosenName(req, nameUuid).value;
    sub := ChosenLabel(cfg, req, subUuid).value;
    ChosenNameSafe(req, nameUuid);
    ChosenLabelSafe(cfg, req, subUuid);
  }

  /** Lower-case characters that mean nothing in an address header. */
  predicate HeaderChar(c: char) {
    LowerChar(c) == c && c != ',' && c != '<' && c != '>'
  }

  lemma HostText(sub: string, domain: string)
    requires AllSafe(sub, LabelChar) && PlainDomain(domain)
    ensures AllSafe(Host(sub, domain), HeaderChar) && '@' !in Host(sub, domain)
    ensures var h := Host(sub, domain); h != "" && !IsSpace(h[|h| - 1])
  {
    PlainDomainText(domain);
    assert AllSafe(domain, HeaderChar) by {
      forall i | 0 <= i < |domain|
        ensures HeaderChar(domain[i])
      {
        assert domain[i] in domain;
      }
    }
  }

  lemma AtSplits(name: string, host: string)
    requires '@' !in host
    ensures LastIndex(name + "@" + host, '@') == |name| && (name + "@" + host)[|name| + 1..] == host
  {
    var a := name + "@" + host;
    assert a[|name|] == '@' && a[|name| + 1..] == host;
    assert forall i | |name| < i < |a| :: a[i] in host;
  }

  lemma AssembledText(cfg: Config, a: string, name: string, sub: string, domain: string)
    requires Plain(cfg) && Assembled(cfg, a, name, sub, domain)
    ensures AllSafe(a, HeaderChar) && a != "" && Trimmed(a, IsSpace)
    ensures LastIndex(a, '@') == |name| && a[|name| + 1..] == Host(sub, domain)
  {
    var host := Host(sub, domain);
    HostText(sub, domain);
    AtSplits(name, host);
    HeaderCharsAround(name, host);
  }

  lemma HeaderCharsAround(name: string, host: string)
    requires name != "" && AllSafe(name, LocalChar)
    requires AllSafe(host, HeaderChar) && host != "" && !IsSpace(host[|host| - 1])
    ensures AllSafe(name + "@" + host, HeaderChar) && Trimmed(name + "@" + host, IsSpace)
  {
    var a := name + "@" + host;
    assert a[0] == name[0] && a[|a| - 1] == host[|host| - 1];
    forall i | 0 <= i < |a|
      ensures HeaderChar(a[i])
    {
      if i > |name| {
        assert a[i] == host[i - |name| - 1];
      }
    }
  }

  lemma HeaderCharsAreNormal(a: string)
    requires AllSafe(a, HeaderChar) && Trimmed(a, IsSpace)
    ensures Normal(a) == a && ',' !in a && '<' !in a && '>' !in a
  {
    TrimOfTrimmed(a, IsSpace);
    assert ToLower(a) == a;
  }

  lemma AssembledIsAccepted(cfg: Config, a: string, name: string, sub: string, domain: string)
    requires Plain(cfg) && Assembled(cfg, a, name, sub, domain)
    ensures Accepts(a, cfg.domains, cfg.allowSubdomains)
  {
    if sub == "" {
      assert a[|a| - |domain| - 1..] == "@" + domain;
      assert HasSuffix(a, "@" + domain);
    } else {
      assert a == name + "@" + sub + ("." + domain);
      assert a[|a| - |domain| - 1..] == "." + domain;
      assert HasSuffix(a, "." + domain);
    }
  }

  lemma PlainDomainText(d: string)
    requires PlainDomain(d)
    ensures Trimmed(d, IsSpace)
    ensures forall i | 0 <= i < |d| :: LowerChar(d[i]) == d[i]
  {
    TrimIsTrimmed(d, IsSpace);
    assert |TrimSpace(d)| == |ToLower(TrimSpace(d))| == |d|;
    TrimSameLength(d, IsSpace);
    assert ToLower(d) == d;
    assert forall i | 0 <= i < |d| :: ToLower(d)[i] == LowerChar(d[i]);
  }

  lemma HeaderLeadsBack(a: string, item: Item, rest: seq<string>, domains: seq<string>)
    requires a != "" && AllSafe(a, HeaderChar) && Trimmed(a, IsSpace) && Accepts(a, domains, true)
    requires item.addr == a
    requires item.Named? ==> ',' !in item.name && '<' !in item.name && '>' !in item.name
    ensures Recipient([item.Text()] + rest, domains) == a
  {
    HeaderCharsAreNormal(a);
    RoundTrip([item]);
    assert Texts([item]) == [item.Text()] && Headers.Addresses([item]) == [a];
    assert FirstOurs([a], domains) == a;
  }

  /** Every address handed out is accepted by the SMTP server and by `ListMessages` under the same
      setting, and a routing header holding it, bare or behind a display name, leads back to it. */
  lemma HandedOutIsReceivable(cfg: Config, req: Request, nameUuid: string, subUuid: string, item: Item, rest: seq<string>)
    requires Plain(cfg) && IsUuid(nameUuid) && IsUuid(subUuid)
    requires NewAddress(cfg, req, nameUuid, subUuid) == Ok(item.addr)
    requires item.Named? ==> ',' !in item.name && '<' !in item.name && '>' !in item.name
    ensures Accepts(Normal(item.addr), cfg.domains, cfg.allowSubdomains)
    ensures Configured(item.addr, cfg.domains, cfg.allowSubdomains)
    ensures Recipient([item.Text()] + rest, cfg.domains) == item.addr
  {
    var a := item.addr;
    var name, sub, domain := NewAddressAssembled(cfg, req, nameUuid, subUuid);
    AssembledText(cfg, a, name, sub, domain);
    AssembledIsAccepted(cfg, a, name, sub, domain);
    HeaderCharsAreNormal(a);
    ConfiguredIsRcpt(a, cfg.domains, cfg.allowSubdomains);
    HeaderLeadsBack(a, item, rest, cfg.domains);
  }

  lemma LoweredPlain(domains: seq<string>)
    requires forall d | d in domains :: PlainDomain(d)
    ensures Lowered(domains) == domains
  {
    forall i | 0 <= i < |domains|
      ensures ToLower(domains[i]) == domains[i]
    {
      PlainDomainText(domains[i]);
      assert ToLower(domains[i]) == domains[i];
    }
  }

  lemma ExactlyMeansHost(a: string, host: string, domains: seq<string>)
    requires LastIndex(a, '@') >= 0 && a[LastIndex(a, '@') + 1..] == host
    requires forall d | d in domains :: '@' !in d
    ensures Exactly(a, domains) <==> host in domains
  {
    forall d | d in domains
      ensures HasSuffix(a, "@" + d) <==> d == host
    {
      ExactMeansDomainPart(a, d);
    }
  }

  lemma GraphRecipientOfOne(a: string, domains: seq<string>)
    requires Normal(a) == a && Lowered(domains) == domains
    ensures GraphRecipient([a], [], domains) == if Exactly(a, domains) then a else ""
  {
    var one: seq<string> := [a];
    assert one + [] == one && one[1..] == [];
    assert FirstExact(one[1..], domains) == "";
    assert FirstExact(one, domains) == if Exactly(Normal(one[0]), domains) then Normal(one[0]) else "";
  }

  /** Behind Graph ingestion a handed-out address is reachable exactly when its whole host is itself
      a configured domain; a label in front of one is not enough. */
  lemma GraphReachesOnlyConfiguredHosts(cfg: Config, a: string, name: string, sub: string, domain: string)
    requires Plain(cfg) && Assembled(cfg, a, name, sub, domain)
    ensures GraphRecipient([a], [], cfg.domains) == (if Host(sub, domain) in cfg.domains then a else "")
  {
    assert Normal(a) == a && LastIndex(a, '@') >= 0 && a[LastIndex(a, '@') + 1..] == Host(sub, domain) by {
      AssembledText(cfg, a, name, sub, domain);
      HeaderCharsAreNormal(a);
    }
    LoweredPlain(cfg.domains);
    ExactlyMeansHost(a, Host(sub, domain), cfg.domains);
    GraphRecipientOfOne(a, cfg.domains);
  }
}
