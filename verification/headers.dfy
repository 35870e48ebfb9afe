/**
 Printing and parsing address lists: the `To` header of sender/message.go read back
 by `extractAddresses` of handlers/store.go.
 */
module Headers {
  import opened Wrappers
  import opened GoStrings
  import opened Routing

  /** An address as people write it in a header. */
  datatype Item = Bare(addr: string) | Named(name: string, addr: string) {
    function Text(): string {
      match this
      case Bare(a) => a
      case Named(n, a) => n + " <" + a + ">"
    }
  }

  predicate Printable(item: Item) {
    match item
    case Bare(a) => a != "" && Trimmed(a, IsSpace) && ',' !in a && '<' !in a
    case Named(n, a) => ',' !in n + a && '<' !in n + a && '>' !in n + a
  }

  function Texts(items: seq<Item>): seq<string> {
    seq(|items|, i requires 0 <= i < |items| => items[i].Text())
  }

  function Addresses(items: seq<Item>): seq<string> {
    seq(|items|, i requires 0 <= i < |items| => items[i].addr)
  }

  // ---- one item ----

  lemma {:induction false} TrimLeftStops(u: string, v: string)
    requires v != "" && !IsSpace(v[0])
    ensures exists k | 0 <= k <= |u| :: TrimLeft(u + v, IsSpace) == u[k..] + v
  {
    if u != "" && IsSpace(u[0]) {
      assert (u + v)[1..] == u[1..] + v;
      TrimLeftStops(u[1..], v);
      var k :| 0 <= k <= |u| - 1 && TrimLeft(u[1..] + v, IsSpace) == u[1..][k..] + v;
      assert u[1..][k..] == u[k + 1..];
    } else {
      assert u[0..] + v == u + v;
    }
  }

  lemma AnglePositions(t: string, a: string)
    requires '<' !in t + a && '>' !in t + a
    ensures var p := t + "<" + a + ">";
            Index(p, '<') == |t| && Index(p, '>') == |t| + 1 + |a| && p[|t| + 1..|t| + 1 + |a|] == a
  {
    var p := t + "<" + a + ">";
    IndexPast(t, '<', a + ">");
    assert p == t + ['<'] + (a + ">");
    var u := t + "<" + a;
    assert '>' !in u;
    IndexPast(u, '>', "");
    assert p == u + ['>'] + "";
  }

  lemma TrimBeforeAngle(u: string, a: string) returns (t: string)
    ensures TrimSpace(u + "<" + a + ">") == t + "<" + a + ">"
    ensures forall c | c in t :: c in u
  {
    var v := "<" + a + ">";
    TrimLeftStops(u, v);
    var k :| 0 <= k <= |u| && TrimLeft(u + v, IsSpace) == u[k..] + v;
    t := u[k..];
    assert TrimRight(t + v, IsSpace) == t + v by { assert (t + v)[|t + v| - 1] == '>'; }
    assert u + "<" + a + ">" == u + v && t + "<" + a + ">" == t + v;
  }

  lemma ExtractAngle(u: string, a: string)
    requires '<' !in u + a && '>' !in u + a
    ensures ExtractOne(u + "<" + a + ">") == [a]
  {
    var t := TrimBeforeAngle(u, a);
    AnglePositions(t, a);
  }

  /** An address the parser takes for something in angle brackets. */
  predicate Angled(addr: string) {
    0 <= Index(addr, '<') < Index(addr, '>')
  }

  /** What the parser makes of an address without commas. */
  function Shown(addr: string): string {
    if Angled(addr) then addr[Index(addr, '<') + 1..Index(addr, '>')] else addr
  }

  lemma ExtractShown(addr: string, blank: string)
    requires addr != "" && Trimmed(addr, IsSpace) && (blank == "" || blank == " ")
    ensures ExtractOne(blank + addr) == [Shown(addr)]
  {
    assert TrimSpace(blank + addr) == addr by {
      if blank == "" {
        assert blank + addr == addr;
        TrimOfTrimmed(addr, IsSpace);
      } else {
        TrimAfterSpace(addr);
      }
    }
  }

  lemma ExtractNamed(n: string, a: string, blank: string)
    requires Printable(Named(n, a)) && (blank == "" || blank == " ")
    ensures ExtractOne(blank + Named(n, a).Text()) == [a]
  {
    assert blank + Named(n, a).Text() == (blank + n + " ") + "<" + a + ">";
    ExtractAngle(blank + n + " ", a);
  }

  /** A printed item, alone or behind the blank that follows a comma, parses to its address. */
  lemma ExtractPrinted(item: Item, blank: string)
    requires Printable(item) && (blank == "" || blank == " ")
    ensures ExtractOne(blank + item.Text()) == [item.addr]
  {
    match item
    case Bare(a) => ExtractShown(a, blank);
    case Named(n, a) => ExtractNamed(n, a, blank);
  }

  // ---- the list ----

  function Shifted(texts: seq<string>): seq<string> {
    seq(|texts|, i requires 0 <= i < |texts| => " " + texts[i])
  }

  lemma JoinBlankHead(head: string, rest: seq<string>)
    ensures Join([" " + head] + rest, ",") == " " + Join([head] + rest, ",")
  {
    assert ([" " + head] + rest)[1..] == rest == ([head] + rest)[1..];
    if rest != [] {
      assert " " + (head + "," + Join(rest, ",")) == " " + head + "," + Join(rest, ",");
    }
  }

  lemma {:induction false} CommaBlankIsComma(texts: seq<string>)
    requires texts != []
    ensures Join(texts, ", ") == Join([texts[0]] + Shifted(texts[1..]), ",")
  {
    if |texts| > 1 {
      var rest := texts[1..];
      CommaBlankIsComma(rest);
      JoinBlankHead(rest[0], Shifted(rest[1..]));
      assert Shifted(rest) == [" " + rest[0]] + Shifted(rest[1..]);
      assert ([texts[0]] + Shifted(rest))[1..] == Shifted(rest);
      assert texts[0] + ", " + Join(rest, ", ") == texts[0] + "," + (" " + Join(rest, ", "));
    }
  }

  lemma ShiftedHasNoComma(texts: seq<string>)
    requires texts != [] && forall k | 0 <= k < |texts| :: ',' !in texts[k]
    ensures var parts := [texts[0]] + Shifted(texts[1..]); forall k | 0 <= k < |parts| :: ',' !in parts[k]
  {
    var parts := [texts[0]] + Shifted(texts[1..]);
    forall k | 0 <= k < |parts|
      ensures ',' !in parts[k]
    {
      if k > 0 {
        assert parts[k] == " " + texts[k];
      }
    }
  }

  lemma SplitCommaBlank(texts: seq<string>)
    requires texts != [] && forall k | 0 <= k < |texts| :: ',' !in texts[k]
    ensures Split(Join(texts, ", "), ',') == [texts[0]] + Shifted(texts[1..])
  {
    CommaBlankIsComma(texts);
    ShiftedHasNoComma(texts);
    SplitOfJoin([texts[0]] + Shifted(texts[1..]), ',');
  }

  lemma {:induction false} ExtractEach(parts: seq<string>, addrs: seq<string>)
    requires |parts| == |addrs|
    requires forall k | 0 <= k < |parts| :: ExtractOne(parts[k]) == [addrs[k]]
    ensures ExtractParts(parts) == addrs
  {
    if parts != [] {
      ExtractEach(parts[1..], addrs[1..]);
      assert addrs == [addrs[0]] + addrs[1..];
    }
  }

  lemma PrintedHasNoComma(items: seq<Item>)
    requires forall k | 0 <= k < |items| :: Printable(items[k])
    ensures forall k | 0 <= k < |items| :: ',' !in Texts(items)[k]
  {
    forall k | 0 <= k < |items|
      ensures ',' !in Texts(items)[k]
    {
      assert Printable(items[k]);
    }
  }

  lemma {:induction false} VisibleSurvivesTrim(s: string, i: nat)
    requires i < |s| && !IsSpace(s[i])
    ensures TrimSpace(s) != ""
  {
    var u, v := s[..i], s[i..];
    assert s == u + v;
    TrimLeftStops(u, v);
    var k :| 0 <= k <= |u| && TrimLeft(s, IsSpace) == u[k..] + v;
    VisibleSurvivesTrimRight(u[k..] + v, |u| - k);
  }

  lemma {:induction false} VisibleSurvivesTrimRight(s: string, i: nat)
    requires i < |s| && !IsSpace(s[i])
    ensures TrimRight(s, IsSpace) != ""
  {
    if IsSpace(s[|s| - 1]) {
      VisibleSurvivesTrimRight(s[..|s| - 1], i);
    }
  }

  lemma HeaderNotBlank(items: seq<Item>)
    requires items != [] && Printable(items[0])
    ensures TrimSpace(Join(Texts(items), ", ")) != ""
  {
    var text := items[0].Text();
    assert text <= Join(Texts(items), ", ");
    match items[0]
    case Bare(_) => VisibleSurvivesTrim(Join(Texts(items), ", "), 0);
    case Named(n, _) => VisibleSurvivesTrim(Join(Texts(items), ", "), |n| + 1);
  }

  /** A list is read back if its first text is, and each of the others behind a blank. */
  lemma PartsReadBack(texts: seq<string>, addrs: seq<string>)
    requires texts != [] && |texts| == |addrs|
    requires ExtractOne(texts[0]) == [addrs[0]]
    requires forall k | 0 < k < |texts| :: ExtractOne(" " + texts[k]) == [addrs[k]]
    ensures ExtractParts([texts[0]] + Shifted(texts[1..])) == addrs
  {
    var rest := Shifted(texts[1..]);
    forall k | 0 <= k < |rest|
      ensures ExtractOne(rest[k]) == [addrs[1..][k]]
    {
      assert rest[k] == " " + texts[k + 1];
    }
    ExtractEach(rest, addrs[1..]);
    assert ([texts[0]] + rest)[1..] == rest;
    assert addrs == [addrs[0]] + addrs[1..];
  }

  /** Every list of printable items survives the trip through the header, in order. */
  lemma RoundTrip(items: seq<Item>)
    requires forall k | 0 <= k < |items| :: Printable(items[k])
    ensures Extract(Join(Texts(items), ", ")) == Addresses(items)
  {
    if items != [] {
      PrintedHasNoComma(items);
      HeaderNotBlank(items);
      SplitCommaBlank(Texts(items));
      ExtractPrinted(items[0], "");
      assert "" + Texts(items)[0] == Texts(items)[0];
      forall k | 0 < k < |items|
        ensures ExtractOne(" " + Texts(items)[k]) == [Addresses(items)[k]]
      {
        ExtractPrinted(items[k], " ");
      }
      PartsReadBack(Texts(items), Addresses(items));
    }
  }

  // ---- the outbound path ----

  /** The recipient loop of `Send` in handlers/send.go: trim, lower, drop the empty ones. */
  function Recipients(to: seq<string>): seq<string> {
    if to == [] then []
    else (if Normal(to[0]) == "" then [] else [Normal(to[0])]) + Recipients(to[1..])
  }

  lemma {:induction false} RecipientsAppend(to: seq<string>, addr: string)
    ensures Recipients(to + [addr]) == Recipients(to) + (if Normal(addr) == "" then [] else [Normal(addr)])
  {
    if to != [] {
      assert (to + [addr])[1..] == to[1..] + [addr];
      RecipientsAppend(to[1..], addr);
    }
  }

  method NormalizeRecipients(to: seq<string>) returns (out: seq<string>)
    ensures out == Recipients(to)
  {
    out := [];
    for i := 0 to |to|
      invariant out == Recipients(to[..i])
    {
      RecipientsAppend(to[..i], to[i]);
      assert to[..i + 1] == to[..i] + [to[i]];
      var addr := ToLower(TrimSpace(to[i]));
      if addr != "" {
        out := out + [addr];
      }
    }
    assert to[..|to|] == to;
  }

  /** The `To` value `BuildMessage` prints, or its error. */
  function ToHeader(to: seq<string>, text: string, html: string): Result<string, string> {
    if to == [] then Err("to is required")
    else if TrimSpace(text) == "" && TrimSpace(html) == "" then Err("text or html body is required")
    else Ok(Join(to, ", "))
  }

  lemma LoweredStaysTrimmed(s: string)
    requires Trimmed(s, IsSpace)
    ensures Trimmed(ToLower(s), IsSpace)
  {
  }

  function ShownAll(addrs: seq<string>): seq<string> {
    seq(|addrs|, i requires 0 <= i < |addrs| => Shown(addrs[i]))
  }

  /** As `Send` leaves recipients: not empty and without blanks at the edges. */
  predicate Clipped(addrs: seq<string>) {
    forall i | 0 <= i < |addrs| :: addrs[i] != "" && Trimmed(addrs[i], IsSpace)
  }

  predicate NoComma(addrs: seq<string>) {
    forall i | 0 <= i < |addrs| :: ',' !in addrs[i]
  }

  lemma {:induction false} RecipientsAreClipped(to: seq<string>)
    ensures Clipped(Recipients(to))
  {
    if to != [] {
      RecipientsAreClipped(to[1..]);
      TrimIsTrimmed(to[0], IsSpace);
      LoweredStaysTrimmed(TrimSpace(to[0]));
    }
  }

  lemma ClippedHeaderNotBlank(addrs: seq<string>)
    requires addrs != [] && Clipped(addrs)
    ensures TrimSpace(Join(addrs, ", ")) != ""
  {
    assert addrs[0] <= Join(addrs, ", ");
    assert Join(addrs, ", ")[0] == addrs[0][0];
    VisibleSurvivesTrim(Join(addrs, ", "), 0);
  }

  /** A header printed for recipients without commas is read back recipient by recipient. */
  lemma HeaderShows(addrs: seq<string>)
    requires Clipped(addrs) && NoComma(addrs)
    ensures Extract(Join(addrs, ", ")) == ShownAll(addrs)
  {
    if addrs != [] {
      ClippedHeaderNotBlank(addrs);
      SplitCommaBlank(addrs);
      ExtractShown(addrs[0], "");
      assert "" + addrs[0] == addrs[0];
      forall k | 0 < k < |addrs|
        ensures ExtractOne(" " + addrs[k]) == [ShownAll(addrs)[k]]
      {
        ExtractShown(addrs[k], " ");
      }
      PartsReadBack(addrs, ShownAll(addrs));
    }
  }

  lemma ExtractOneHasNoComma(part: string)
    requires ',' !in part
    ensures NoComma(ExtractOne(part))
  {
    TrimIsTrimmed(part, IsSpace);
  }

  lemma {:induction false} ExtractPartsHaveNoComma(parts: seq<string>)
    requires NoComma(parts)
    ensures NoComma(ExtractParts(parts))
  {
    if parts != [] {
      ExtractOneHasNoComma(parts[0]);
      ExtractPartsHaveNoComma(parts[1..]);
    }
  }

  lemma ExtractedHasNoComma(header: string)
    ensures NoComma(Extract(header))
  {
    SplitPiecesFree(header, ',');
    ExtractPartsHaveNoComma(Split(header, ','));
  }

  predicate NoneAngled(addrs: seq<string>) {
    forall i | 0 <= i < |addrs| :: !Angled(addrs[i])
  }

  lemma ShownAllIff(addrs: seq<string>)
    ensures ShownAll(addrs) == addrs <==> NoneAngled(addrs)
  {
    if i :| 0 <= i < |addrs| && Angled(addrs[i]) {
      assert |ShownAll(addrs)[i]| < |addrs[i]|;
    } else {
      assert forall i | 0 <= i < |addrs| :: ShownAll(addrs)[i] == addrs[i];
    }
  }

  lemma ReadBackIff(addrs: seq<string>)
    requires Clipped(addrs)
    ensures Extract(Join(addrs, ", ")) == addrs <==> NoComma(addrs) && NoneAngled(addrs)
  {
    if NoComma(addrs) {
      HeaderShows(addrs);
      ShownAllIff(addrs);
    } else {
      ExtractedHasNoComma(Join(addrs, ", "));
    }
  }

  /** The header `Send` prints reads back as exactly its recipients, in order, if and only if none of
      them has a comma, or a `<` before its first `>`. */
  lemma SentHeaderNamesRecipientsIff(to: seq<string>, text: string, html: string)
    ensures match ToHeader(Recipients(to), text, html)
            case Ok(header) => Extract(header) == Recipients(to) <==> NoComma(Recipients(to)) && NoneAngled(Recipients(to))
            case Err(_) => Recipients(to) == [] || (TrimSpace(text) == "" && TrimSpace(html) == "")
  {
    RecipientsAreClipped(to);
    ReadBackIff(Recipients(to));
  }
}
