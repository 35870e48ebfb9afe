/**
 Who a message is for: the five independently written domain tests (smtp/server.go,
 handlers/message.go, handlers/store.go, handlers/graph_store.go, handlers/send.go)
 and the address extraction they rest on.
 */
module Routing {
  import opened GoStrings

  // ---- the tests ----

  predicate Exactly(addr: string, domains: seq<string>) {
    exists d | d in domains :: HasSuffix(addr, "@" + d)
  }

  predicate Below(addr: string, domains: seq<string>) {
    exists d | d in domains :: HasSuffix(addr, "." + d)
  }

  function Normal(addr: string): string {
    ToLower(TrimSpace(addr))
  }

  predicate Accepts(addr: string, domains: seq<string>, allowSubdomains: bool) {
    Exactly(addr, domains) || (allowSubdomains && Below(addr, domains))
  }

  /** `session.Rcpt`: true for acceptance, false for the 550 answer. */
  method Rcpt(to: string, domains: seq<string>, allowSubdomains: bool) returns (accepted: bool)
    ensures accepted <==> Accepts(Normal(to), domains, allowSubdomains)
  {
    var addr := ToLower(TrimSpace(to));
    for i := 0 to |domains|
      invariant !Exactly(addr, domains[..i])
      invariant allowSubdomains ==> !Below(addr, domains[..i])
    {
      var d := domains[i];
      if HasSuffix(addr, "@" + d) {
        return true;
      }
      if allowSubdomains && HasSuffix(addr, "." + d) {
        return true;
      }
      assert domains[..i + 1] == domains[..i] + [d];
    }
    assert domains[..|domains|] == domains;
    return false;
  }

  predicate Serves(configured: string, domain: string, allowSubdomains: bool) {
    domain == Normal(configured) || (allowSubdomains && HasSuffix(domain, "." + Normal(configured)))
  }

  predicate Configured(address: string, domains: seq<string>, allowSubdomains: bool) {
    var at := LastIndex(address, '@');
    && 0 < at < |address| - 1
    && exists d | d in domains :: Serves(d, address[at + 1..], allowSubdomains)
  }

  /** `isConfiguredAddress`. */
  method IsConfiguredAddress(address: string, domains: seq<string>, allowSubdomains: bool) returns (yes: bool)
    ensures yes <==> Configured(address, domains, allowSubdomains)
  {
    var at := LastIndex(address, '@');
    if at <= 0 || at == |address| - 1 {
      return false;
    }
    var domain := address[at + 1..];
    for i := 0 to |domains|
      invariant forall k | 0 <= k < i :: !Serves(domains[k], domain, allowSubdomains)
    {
      var configured := ToLower(TrimSpace(domains[i]));
      assert domains[i] in domains;
      assert Serves(domains[i], domain, allowSubdomains) <==>
             domain == configured || (allowSubdomains && HasSuffix(domain, "." + configured));
      if domain == configured {
        return true;
      }
      if allowSubdomains && HasSuffix(domain, "." + configured) {
        return true;
      }
    }
    return false;
  }

  /** `"Name" <a@b.com>` becomes `a@b.com`; anything else is left alone. */
  function WithoutName(addr: string): string {
    var i := LastIndex(addr, '<');
    if i < 0 then addr
    else
      var j := Index(addr[i..], '>');
      if j > 0 then addr[i + 1..i + j] else addr
  }

  predicate Allowed(addr: string, domains: seq<string>) {
    var bare := WithoutName(Normal(addr));
    var at := LastIndex(bare, '@');
    0 <= at < |bare| - 1 && bare[at + 1..] in domains
  }

  /** `domainAllowed`. */
  method DomainAllowed(addr: string, domains: seq<string>) returns (yes: bool)
    ensures yes <==> Allowed(addr, domains)
  {
    var bare := WithoutName(ToLower(TrimSpace(addr)));
    var at := LastIndex(bare, '@');
    if at < 0 || at + 1 >= |bare| {
      return false;
    }
    var dom := bare[at + 1..];
    for i := 0 to |domains|
      invariant dom !in domains[..i]
    {
      if dom == domains[i] {
        return true;
      }
    }
    return false;
  }

  // ---- header values ----

  /** One comma-separated part of an address header. */
  function ExtractOne(part: string): seq<string> {
    var p := TrimSpace(part);
    if p == "" then []
    else
      var i := Index(p, '<');
      var j := Index(p, '>');
      if 0 <= i < j then [p[i + 1..j]] else [p]
  }

  function ExtractParts(parts: seq<string>): seq<string> {
    if parts == [] then [] else ExtractOne(parts[0]) + ExtractParts(parts[1..])
  }

  lemma {:induction false} ExtractPartsAppend(parts: seq<string>, part: string)
    ensures ExtractParts(parts + [part]) == ExtractParts(parts) + ExtractOne(part)
  {
    if parts != [] {
      assert (parts + [part])[1..] == parts[1..] + [part];
      ExtractPartsAppend(parts[1..], part);
    }
  }

  lemma ExtractNext(parts: seq<string>, k: nat)
    requires k < |parts|
    ensures ExtractParts(parts[..k + 1]) == ExtractParts(parts[..k]) + ExtractOne(parts[k])
  {
    ExtractPartsAppend(parts[..k], parts[k]);
    assert parts[..k + 1] == parts[..k] + [parts[k]];
  }

  function Extract(header: string): seq<string> {
    if TrimSpace(header) == "" then [] else ExtractParts(Split(header, ','))
  }

  /** The loop body of `extractAddresses`. */
  method AppendPart(out: seq<string>, raw: string) returns (more: seq<string>)
    ensures more == out + ExtractOne(raw)
  {
    var part := TrimSpace(raw);
    if part == "" {
      return out;
    }
    var i := Index(part, '<');
    if i >= 0 {
      var j := Index(part, '>');
      if j > i {
        return out + [part[i + 1..j]];
      }
    }
    return out + [part];
  }

  /** `extractAddresses`. */
  method ExtractAddresses(header: string) returns (out: seq<string>)
    ensures out == Extract(header)
  {
    if TrimSpace(header) == "" {
      return [];
    }
    out := [];
    var parts := Split(header, ',');
    for k := 0 to |parts|
      invariant out == ExtractParts(parts[..k])
    {
      ExtractNext(parts, k);
      out := AppendPart(out, parts[k]);
    }
    assert parts[..|parts|] == parts;
  }

  // ---- picking the recipient ----

  /** The first address, normalised, that lies on or below a configured domain. */
  function FirstOurs(addrs: seq<string>, domains: seq<string>): string {
    if addrs == [] then ""
    else
      var a := Normal(addrs[0]);
      if Accepts(a, domains, true) then a else FirstOurs(addrs[1..], domains)
  }

  function Recipient(headers: seq<string>, domains: seq<string>): string {
    if headers == [] then ""
    else
      var found := FirstOurs(Extract(headers[0]), domains);
      if found != "" then found else Recipient(headers[1..], domains)
  }

  /** One of the inner suffix loops: `suffixes` are the domains behind `mark`. */
  method HasAnySuffix(addr: string, suffixes: seq<string>, ghost mark: string, ghost domains: seq<string>) returns (yes: bool)
    requires suffixes == Prefixed(mark, domains)
    ensures yes <==> exists d | d in domains :: HasSuffix(addr, mark + d)
  {
    for i := 0 to |suffixes|
      invariant forall j | 0 <= j < i :: !HasSuffix(addr, mark + domains[j])
    {
      if HasSuffix(addr, suffixes[i]) {
        assert domains[i] in domains;
        return true;
      }
    }
    return false;
  }

  /** The scan of one header in `findRecipient`: all exact suffixes, then all subdomain suffixes. */
  method ScanHeader(header: string, suffixes: seq<string>, subSuffixes: seq<string>, ghost domains: seq<string>)
    returns (found: string)
    requires suffixes == Prefixed("@", domains) && subSuffixes == Prefixed(".", domains)
    ensures found == FirstOurs(Extract(header), domains)
  {
    var addrs := ExtractAddresses(header);
    assert addrs[0..] == addrs;
    for k := 0 to |addrs|
      invariant FirstOurs(addrs, domains) == FirstOurs(addrs[k..], domains)
    {
      var addr := ToLower(TrimSpace(addrs[k]));
      var exactly := HasAnySuffix(addr, suffixes, "@", domains);
      if exactly {
        return addr;
      }
      var below := HasAnySuffix(addr, subSuffixes, ".", domains);
      if below {
        return addr;
      }
      assert addrs[k..][1..] == addrs[k + 1..];
    }
    return "";
  }

  function Prefixed(mark: string, domains: seq<string>): seq<string> {
    seq(|domains|, i requires 0 <= i < |domains| => mark + domains[i])
  }

  /** `findRecipient` on the four header values, in the source's order. */
  method FindRecipient(to: string, deliveredTo: string, forwardedTo: string, originalTo: string, domains: seq<string>)
    returns (found: string)
    ensures found == Recipient([to, deliveredTo, forwardedTo, originalTo], domains)
  {
    var candidates := [to, deliveredTo, forwardedTo, originalTo];
    var suffixes := Prefixed("@", domains);
    var subSuffixes := Prefixed(".", domains);
    for k := 0 to |candidates|
      invariant Recipient(candidates, domains) == Recipient(candidates[k..], domains)
    {
      found := ScanHeader(candidates[k], suffixes, subSuffixes, domains);
      if found != "" {
        return;
      }
      assert candidates[k..][1..] == candidates[k + 1..];
    }
    return "";
  }

  function FirstExact(addrs: seq<string>, domains: seq<string>): string {
    if addrs == [] then ""
    else
      var a := Normal(addrs[0]);
      if Exactly(a, domains) then a else FirstExact(addrs[1..], domains)
  }

  function Lowered(domains: seq<string>): seq<string> {
    seq(|domains|, i requires 0 <= i < |domains| => ToLower(domains[i]))
  }

  /** What `findGraphRecipient` picks: To recipients first, then Cc, exact domains only. */
  function GraphRecipient(to: seq<string>, cc: seq<string>, domains: seq<string>): string {
    FirstExact(to + cc, Lowered(domains))
  }

  method FindGraphRecipient(to: seq<string>, cc: seq<string>, domains: seq<string>) returns (found: string)
    ensures found == GraphRecipient(to, cc, domains)
  {
    var suffixes := Prefixed("@", Lowered(domains));
    var all := to + cc;
    assert all[0..] == all;
    for k := 0 to |all|
      invariant FirstExact(all, Lowered(domains)) == FirstExact(all[k..], Lowered(domains))
    {
      var addr := ToLower(TrimSpace(all[k]));
      var ours := HasAnySuffix(addr, suffixes, "@", Lowered(domains));
      if ours {
        return addr;
      }
      assert all[k..][1..] == all[k + 1..];
    }
    return "";
  }

  // ---- the tests agree ----

  /** What `config.Load` makes of MAIL_DOMAIN, as far as these tests care. */
  predicate WellFormedDomain(d: string) {
    d != "" && '@' !in d && Normal(d) == d
  }

  predicate WellFormedDomains(domains: seq<string>) {
    forall d | d in domains :: WellFormedDomain(d)
  }

  lemma ExactMeansDomainPart(addr: string, d: string)
    requires '@' !in d
    ensures HasSuffix(addr, "@" + d) <==> LastIndex(addr, '@') >= 0 && addr[LastIndex(addr, '@') + 1..] == d
  {
    var at := LastIndex(addr, '@');
    if HasSuffix(addr, "@" + d) {
      var i := |addr| - |d| - 1;
      assert addr[i..] == "@" + d;
      assert addr[i] == '@';
      assert addr[i + 1..] == addr[i..][1..] == d;
      assert forall k | i < k < |addr| :: addr[k] == d[k - i - 1];
    }
    if at >= 0 && addr[at + 1..] == d {
      assert addr[at..] == [addr[at]] + addr[at + 1..];
    }
  }

  lemma BelowMeansDomainPart(addr: string, d: string)
    requires '@' !in d && LastIndex(addr, '@') >= 0
    ensures HasSuffix(addr, "." + d) <==> HasSuffix(addr[LastIndex(addr, '@') + 1..], "." + d)
  {
    var at := LastIndex(addr, '@');
    if HasSuffix(addr, "." + d) {
      SuffixAfterLast(addr, "." + d, '@');
    }
    if |d| + 1 <= |addr| - at - 1 {
      SuffixOfTail(addr, "." + d, at + 1);
    }
  }

  /** `isConfiguredAddress` is `Rcpt` on addresses with something before the last `@`. */
  lemma ConfiguredIsRcpt(addr: string, domains: seq<string>, allowSubdomains: bool)
    requires WellFormedDomains(domains)
    ensures Configured(addr, domains, allowSubdomains) <==>
            LastIndex(addr, '@') > 0 && Accepts(addr, domains, allowSubdomains)
  {
    var at := LastIndex(addr, '@');
    if at > 0 {
      forall d | d in domains
        ensures HasSuffix(addr, "@" + d) <==> addr[at + 1..] == d
        ensures HasSuffix(addr, "." + d) <==> HasSuffix(addr[at + 1..], "." + d)
      {
        ExactMeansDomainPart(addr, d);
        BelowMeansDomainPart(addr, d);
      }
    }
  }

  /** `domainAllowed` is `Rcpt` without subdomains. */
  lemma AllowedIsRcpt(addr: string, domains: seq<string>)
    requires WellFormedDomains(domains) && '<' !in addr
    ensures Allowed(addr, domains) <==> Accepts(Normal(addr), domains, false)
  {
    var bare := Normal(addr);
    NormalKeepsOut(addr, '<');
    forall d | d in domains
      ensures HasSuffix(bare, "@" + d) <==> LastIndex(bare, '@') >= 0 && bare[LastIndex(bare, '@') + 1..] == d
    {
      ExactMeansDomainPart(bare, d);
    }
    assert WithoutName(bare) == bare;
    assert Allowed(addr, domains) <==>
           LastIndex(bare, '@') >= 0 && bare[LastIndex(bare, '@') + 1..] in domains;
  }

  lemma LastIndexIs(s: string, c: char, i: nat)
    requires i < |s| && s[i] == c && c !in s[i + 1..]
    ensures LastIndex(s, c) == i
  {
    var k := LastIndex(s, c);
    assert forall j | i < j < |s| :: s[j] == s[i + 1..][j - i - 1];
    assert k >= 0 && forall j | k < j < |s| :: s[j] == s[k + 1..][j - k - 1];
  }

  lemma IndexIs(s: string, c: char, i: nat)
    requires i < |s| && s[i] == c && c !in s[..i]
    ensures Index(s, c) == i
  {
    var k := Index(s, c);
    assert forall j | 0 <= j < i :: s[j] == s[..i][j];
    assert k >= 0 && forall j | 0 <= j < k :: s[j] == s[..k][j];
  }

  /** `domainAllowed` on an address with `<`: what counts is the part from the last `<` to the next `>`. */
  lemma NameIsStripped(addr: string, i: nat, j: nat)
    requires i < j < |addr| && addr[i] == '<' && '<' !in addr[i + 1..]
    requires addr[j] == '>' && '>' !in addr[i..j]
    ensures WithoutName(addr) == addr[i + 1..j]
  {
    LastIndexIs(addr, '<', i);
    assert addr[i..][..j - i] == addr[i..j];
    IndexIs(addr[i..], '>', j - i);
  }

  /** If no `>` follows the last `<`, or there is no `<`, it is the whole. */
  lemma NameIsKept(addr: string, i: nat)
    ensures i < |addr| && addr[i] == '<' && '<' !in addr[i + 1..] && '>' !in addr[i..] ==> WithoutName(addr) == addr
    ensures '<' !in addr ==> WithoutName(addr) == addr
  {
    if i < |addr| && addr[i] == '<' && '<' !in addr[i + 1..] {
      LastIndexIs(addr, '<', i);
    }
  }

  lemma NormalKeepsOut(addr: string, c: char)
    requires c !in addr && !('a' <= c <= 'z')
    ensures c !in Normal(addr)
  {
    TrimIsTrimmed(addr, IsSpace);
    var t := TrimSpace(addr);
    forall k | 0 <= k < |t|
      ensures ToLower(t)[k] != c
    {
      assert t[k] in t;
    }
  }

  /** All addresses of the headers, in the order they are looked at. */
  function AllAddresses(headers: seq<string>): seq<string> {
    if headers == [] then [] else Extract(headers[0]) + AllAddresses(headers[1..])
  }

  lemma {:induction false} FirstOursAppend(addrs: seq<string>, more: seq<string>, domains: seq<string>)
    ensures FirstOurs(addrs + more, domains) ==
            if FirstOurs(addrs, domains) != "" then FirstOurs(addrs, domains) else FirstOurs(more, domains)
  {
    if addrs == [] {
      assert addrs + more == more;
    } else {
      assert (addrs + more)[1..] == addrs[1..] + more;
      FirstOursAppend(addrs[1..], more, domains);
    }
  }

  lemma {:induction false} RecipientOfAll(headers: seq<string>, domains: seq<string>)
    ensures Recipient(headers, domains) == FirstOurs(AllAddresses(headers), domains)
  {
    if headers != [] {
      RecipientOfAll(headers[1..], domains);
      FirstOursAppend(Extract(headers[0]), AllAddresses(headers[1..]), domains);
    }
  }

  lemma {:induction false} FirstOursIs(addrs: seq<string>, domains: seq<string>, k: nat)
    requires k < |addrs| && Accepts(Normal(addrs[k]), domains, true)
    requires forall j | 0 <= j < k :: !Accepts(Normal(addrs[j]), domains, true)
    ensures FirstOurs(addrs, domains) == Normal(addrs[k])
  {
    assert !Accepts(Normal(addrs[0]), domains, true) || k == 0;
    if k > 0 {
      FirstOursIs(addrs[1..], domains, k - 1);
    }
  }

  /** `findRecipient` judges each address as `Rcpt` does with subdomains on, whatever the server's
      setting: over all headers in order it picks the first one accepted. */
  lemma RecipientIsFirstAccepted(headers: seq<string>, domains: seq<string>, k: nat)
    requires k < |AllAddresses(headers)| && Accepts(Normal(AllAddresses(headers)[k]), domains, true)
    requires forall j | 0 <= j < k :: !Accepts(Normal(AllAddresses(headers)[j]), domains, true)
    ensures Recipient(headers, domains) == Normal(AllAddresses(headers)[k])
  {
    RecipientOfAll(headers, domains);
    FirstOursIs(AllAddresses(headers), domains, k);
  }

  /** A mail is dropped as "not for our domain" exactly when `Rcpt` with subdomains on would refuse
      every address of every routing header. */
  lemma {:induction false} DroppedIffNoneAccepted(headers: seq<string>, domains: seq<string>)
    ensures Recipient(headers, domains) == "" <==>
            forall h, a | h in headers && a in Extract(h) :: !Accepts(Normal(a), domains, true)
  {
    if headers != [] {
      var rest := headers[1..];
      FirstOursNone(Extract(headers[0]), domains);
      DroppedIffNoneAccepted(rest, domains);
      forall h
        ensures h in headers <==> h == headers[0] || h in rest
      {
      }
      assert Recipient(headers, domains) == "" <==> FirstOurs(Extract(headers[0]), domains) == "" && Recipient(rest, domains) == "";
    }
  }

  lemma {:induction false} FirstOursNone(addrs: seq<string>, domains: seq<string>)
    ensures FirstOurs(addrs, domains) == "" <==> forall a | a in addrs :: !Accepts(Normal(a), domains, true)
  {
    if addrs != [] {
      FirstOursNone(addrs[1..], domains);
      assert addrs == [addrs[0]] + addrs[1..];
    }
  }

  lemma {:induction false} FirstExactIs(addrs: seq<string>, domains: seq<string>, k: nat)
    requires k < |addrs| && Accepts(Normal(addrs[k]), domains, false)
    requires forall j | 0 <= j < k :: !Accepts(Normal(addrs[j]), domains, false)
    ensures FirstExact(addrs, domains) == Normal(addrs[k])
  {
    assert !Accepts(Normal(addrs[0]), domains, false) || k == 0;
    if k > 0 {
      FirstExactIs(addrs[1..], domains, k - 1);
    }
  }

  /** The domains are compared in lower case. */
  lemma LoweredAccepts(a: string, domains: seq<string>)
    ensures Accepts(a, Lowered(domains), false) <==> exists d :: d in domains && HasSuffix(a, "@" + ToLower(d))
  {
    if d :| d in domains && HasSuffix(a, "@" + ToLower(d)) {
      var i :| 0 <= i < |domains| && domains[i] == d;
      assert Lowered(domains)[i] in Lowered(domains);
    }
    if e :| e in Lowered(domains) && HasSuffix(a, "@" + e) {
      var i :| 0 <= i < |domains| && Lowered(domains)[i] == e;
      assert domains[i] in domains;
    }
  }

  /** `findGraphRecipient` picks the first acceptable To recipient, and looks at Cc only if there is none. */
  lemma GraphPicksToFirst(to: seq<string>, cc: seq<string>, domains: seq<string>, k: nat)
    ensures k < |to| && Accepts(Normal(to[k]), Lowered(domains), false)
            && (forall j | 0 <= j < k :: !Accepts(Normal(to[j]), Lowered(domains), false))
            ==> GraphRecipient(to, cc, domains) == Normal(to[k])
    ensures (forall a | a in to :: !Accepts(Normal(a), Lowered(domains), false))
            && k < |cc| && Accepts(Normal(cc[k]), Lowered(domains), false)
            && (forall j | 0 <= j < k :: !Accepts(Normal(cc[j]), Lowered(domains), false))
            ==> GraphRecipient(to, cc, domains) == Normal(cc[k])
  {
    var all := to + cc;
    if k < |to| && Accepts(Normal(to[k]), Lowered(domains), false)
       && (forall j | 0 <= j < k :: !Accepts(Normal(to[j]), Lowered(domains), false)) {
      FirstExactIs(all, Lowered(domains), k);
    }
    if (forall a | a in to :: !Accepts(Normal(a), Lowered(domains), false))
       && k < |cc| && Accepts(Normal(cc[k]), Lowered(domains), false)
       && (forall j | 0 <= j < k :: !Accepts(Normal(cc[j]), Lowered(domains), false)) {
      forall j | 0 <= j < |to| + k
        ensures !Accepts(Normal(all[j]), Lowered(domains), false)
      {
        assert j < |to| ==> all[j] in to;
      }
      FirstExactIs(all, Lowered(domains), |to| + k);
    }
  }

  lemma {:induction false} FirstExactNone(addrs: seq<string>, domains: seq<string>)
    ensures FirstExact(addrs, domains) == "" <==> forall a | a in addrs :: !Accepts(Normal(a), domains, false)
  {
    if addrs != [] {
      FirstExactNone(addrs[1..], domains);
      assert addrs == [addrs[0]] + addrs[1..];
    }
  }

  /** Graph ingestion drops a mail exactly when `Rcpt`, which sees the domains lowered as well, would
      refuse all its To and Cc recipients with subdomains off: mail for `user@sub.domain` never arrives
      this way. */
  lemma GraphDropsSubdomains(to: seq<string>, cc: seq<string>, domains: seq<string>)
    ensures GraphRecipient(to, cc, domains) == "" <==>
            forall a | a in to || a in cc :: !Accepts(Normal(a), Lowered(domains), false)
  {
    FirstExactNone(to + cc, Lowered(domains));
    assert forall a :: a in to + cc <==> a in to || a in cc;
  }
}
