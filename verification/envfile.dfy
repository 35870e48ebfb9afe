/**
 `PersistRefreshToken` of config/config.go: rewriting one `KEY=value` line of the
 `.env` file, and what the next start reads back.
 */
module EnvFile {
  import opened Wrappers
  import opened GoStrings

  function Prefix(key: string): string {
    key + "="
  }

  predicate IsLineOf(line: string, key: string) {
    Prefix(key) <= TrimSpace(line)
  }

  /** The lines after the rewrite: the first line of the key replaced, or a new line at the end. */
  function Rewritten(lines: seq<string>, key: string, token: string): seq<string> {
    if lines == [] then [Prefix(key) + token]
    else if IsLineOf(lines[0], key) then [Prefix(key) + token] + lines[1..]
    else [lines[0]] + Rewritten(lines[1..], key, token)
  }

  function Persisted(data: string, key: string, token: string): string {
    Join(Rewritten(Split(data, '\n'), key, token), "\n")
  }

  /** Index of the first line of the key, the number of lines if there is none. */
  function FirstLine(lines: seq<string>, key: string): (k: nat)
    ensures k <= |lines|
    ensures forall i | 0 <= i < k :: !IsLineOf(lines[i], key)
    ensures k < |lines| ==> IsLineOf(lines[k], key)
  {
    if lines == [] || IsLineOf(lines[0], key) then 0 else 1 + FirstLine(lines[1..], key)
  }

  lemma {:induction false} RewrittenAt(lines: seq<string>, key: string, token: string)
    ensures var k := FirstLine(lines, key);
            Rewritten(lines, key, token) ==
            if k < |lines| then lines[k := Prefix(key) + token] else lines + [Prefix(key) + token]
  {
    if lines != [] && !IsLineOf(lines[0], key) {
      RewrittenAt(lines[1..], key, token);
      var k := FirstLine(lines[1..], key);
      assert lines == [lines[0]] + lines[1..];
      if k < |lines[1..]| {
        assert [lines[0]] + lines[1..][k := Prefix(key) + token] == lines[k + 1 := Prefix(key) + token];
      }
    } else if lines != [] {
      assert [Prefix(key) + token] + lines[1..] == lines[0 := Prefix(key) + token];
    }
  }

  /** `PersistRefreshToken` between reading and writing the file. */
  method PersistRefreshToken(data: string, key: string, token: string) returns (out: string)
    ensures out == Persisted(data, key, token)
  {
    var prefix := key + "=";
    var lines := Split(data, '\n');
    ghost var before := lines;
    RewrittenAt(before, key, token);
    var replaced := false;
    for i := 0 to |lines|
      invariant lines == before && !replaced
      invariant forall j | 0 <= j < i :: !IsLineOf(lines[j], key)
    {
      if prefix <= TrimSpace(lines[i]) {
        assert FirstLine(before, key) == i;
        lines := lines[i := prefix + token];
        replaced := true;
        break;
      }
    }
    if !replaced {
      assert FirstLine(before, key) == |before|;
      lines := lines + [prefix + token];
    }
    out := Join(lines, "\n");
  }

  predicate PlainKey(key: string) {
    key != "" && !IsSpace(key[0]) && '=' !in key && '\n' !in key
  }

  lemma {:induction false} TrimRightStops(u: string, v: string)
    requires u != "" && !IsSpace(u[|u| - 1])
    ensures u <= TrimRight(u + v, IsSpace)
    ensures TrimRight(u + v, IsSpace)[|u|..] == TrimRight(v, IsSpace)
  {
    if v != "" && IsSpace(v[|v| - 1]) {
      assert (u + v)[..|u + v| - 1] == u + v[..|v| - 1];
      TrimRightStops(u, v[..|v| - 1]);
    } else if v == "" {
      assert u + v == u;
    }
  }

  lemma WrittenLine(key: string, token: string)
    requires PlainKey(key)
    ensures IsLineOf(Prefix(key) + token, key)
    ensures TrimSpace(Prefix(key) + token)[|Prefix(key)|..] == TrimRight(token, IsSpace)
  {
    var line := Prefix(key) + token;
    assert line[0] == key[0];
    TrimRightStops(Prefix(key), token);
  }

  lemma LineOfOneKey(line: string, key: string, other: string)
    requires PlainKey(key) && PlainKey(other) && IsLineOf(line, key) && IsLineOf(line, other)
    ensures key == other
  {
    var t := TrimSpace(line);
    assert t[|key|] == '=' && t[|other|] == '=';
    assert forall i | 0 <= i < |key| :: t[i] == key[i] && key[i] in key;
    assert forall i | 0 <= i < |other| :: t[i] == other[i] && other[i] in other;
    assert t[..|key|] == key && t[..|other|] == other;
  }

  /** The rewritten file splits into exactly the rewritten lines. */
  lemma PersistedLines(data: string, key: string, token: string)
    requires PlainKey(key) && '\n' !in token
    ensures Split(Persisted(data, key, token), '\n') == Rewritten(Split(data, '\n'), key, token)
  {
    var lines := Split(data, '\n');
    SplitPiecesFree(data, '\n');
    RewrittenAt(lines, key, token);
    SplitOfJoin(Rewritten(lines, key, token), '\n');
  }

  lemma FirstLineIs(lines: seq<string>, key: string, k: nat)
    requires k <= |lines| && (k < |lines| ==> IsLineOf(lines[k], key))
    requires forall i | 0 <= i < k :: !IsLineOf(lines[i], key)
    ensures FirstLine(lines, key) == k
  {
  }

  /** What the rewrite does, line by line. */
  lemma RewriteEffect(lines: seq<string>, key: string, token: string)
    requires PlainKey(key)
    ensures var after := Rewritten(lines, key, token);
            var k := FirstLine(lines, key);
            && FirstLine(after, key) == k < |after|
            && |after| == (if k < |lines| then |lines| else |lines| + 1)
            && after[k] == Prefix(key) + token && after[..k] == lines[..k]
            && forall i | 0 <= i < |lines| && i != k :: after[i] == lines[i]
  {
    var after := Rewritten(lines, key, token);
    var k := FirstLine(lines, key);
    RewrittenAt(lines, key, token);
    WrittenLine(key, token);
    assert after[k] == Prefix(key) + token;
    assert forall i | 0 <= i < k :: after[i] == lines[i];
    FirstLineIs(after, key, k);
  }

  /** The first line that starts with `KEY=` behind blanks carries the new token, at its old place, or a
      new line at the end does if there is none; every other line is where it was. */
  lemma FirstLineCarriesToken(data: string, key: string, token: string, k: nat)
    requires PlainKey(key) && '\n' !in token
    requires k <= |Split(data, '\n')| && forall i | 0 <= i < k :: !(key + "=" <= TrimSpace(Split(data, '\n')[i]))
    requires k < |Split(data, '\n')| ==> key + "=" <= TrimSpace(Split(data, '\n')[k])
    ensures var before, after := Split(data, '\n'), Split(Persisted(data, key, token), '\n');
            && |after| == (if k < |before| then |before| else |before| + 1)
            && after[k] == key + "=" + token
            && forall i | 0 <= i < |before| && i != k :: after[i] == before[i]
  {
    PersistedLines(data, key, token);
    FirstLineIs(Split(data, '\n'), key, k);
    RewriteEffect(Split(data, '\n'), key, token);
  }

  /** Byte for byte: the file is cut around that line, or goes on with a new line at its end. */
  lemma FileIsCut(data: string, key: string, token: string) returns (front: string, line: string, back: string)
    requires PlainKey(key)
    ensures data == front + line + back && '\n' !in line
    ensures front == "" || front[|front| - 1] == '\n'
    ensures back == "" || back[0] == '\n'
    ensures if key + "=" <= TrimSpace(line) then Persisted(data, key, token) == front + (key + "=" + token) + back
            else Persisted(data, key, token) == data + "\n" + (key + "=" + token)
  {
    var lines := Split(data, '\n');
    JoinOfSplit(data, '\n');
    SplitPiecesFree(data, '\n');
    RewrittenAt(lines, key, token);
    var k := FirstLine(lines, key);
    if k < |lines| {
      front, back := JoinAround(lines, k, Prefix(key) + token);
      line := lines[k];
    } else {
      front, back := JoinAround(lines, 0, lines[0]);
      line := lines[0];
      JoinOneMore(lines, Prefix(key) + token);
    }
  }

  /** Replacing one line leaves the text around it as it is. */
  lemma {:induction false} JoinAround(lines: seq<string>, k: nat, line: string) returns (front: string, back: string)
    requires k < |lines|
    ensures Join(lines, "\n") == front + lines[k] + back && Join(lines[k := line], "\n") == front + line + back
    ensures front == "" || front[|front| - 1] == '\n'
    ensures back == "" || back[0] == '\n'
  {
    var head, rest := lines[0], lines[1..];
    assert lines == [head] + rest;
    if k == 0 {
      front, back := "", if rest == [] then "" else "\n" + Join(rest, "\n");
      assert lines[0 := line] == [line] + rest;
      if rest != [] {
        JoinCons(head, rest, "\n");
        JoinCons(line, rest, "\n");
        assert head + "\n" + Join(rest, "\n") == front + head + back;
        assert line + "\n" + Join(rest, "\n") == front + line + back;
      } else {
        assert head == front + head + back && line == front + line + back;
      }
    } else {
      var f, b := JoinAround(rest, k - 1, line);
      front, back := head + "\n" + f, b;
      assert lines[k := line] == [head] + rest[k - 1 := line];
      JoinCons(head, rest, "\n");
      JoinCons(head, rest[k - 1 := line], "\n");
      assert head + "\n" + (f + rest[k - 1] + b) == front + lines[k] + back;
      assert head + "\n" + (f + line + b) == front + line + back;
    }
  }

  lemma {:induction false} JoinOneMore(lines: seq<string>, line: string)
    requires lines != []
    ensures Join(lines + [line], "\n") == Join(lines, "\n") + "\n" + line
  {
    assert (lines + [line])[1..] == lines[1..] + [line];
    if |lines| > 1 {
      JoinOneMore(lines[1..], line);
    }
  }

  lemma RewriteTwice(lines: seq<string>, key: string, token: string, newer: string)
    requires PlainKey(key)
    ensures Rewritten(Rewritten(lines, key, token), key, newer) == Rewritten(lines, key, newer)
  {
    RewriteEffect(lines, key, token);
    RewrittenAt(lines, key, token);
    RewrittenAt(lines, key, newer);
    RewrittenAt(Rewritten(lines, key, token), key, newer);
  }

  /** A second write replaces the first one completely. */
  lemma LastWriteWins(data: string, key: string, token: string, newer: string)
    requires PlainKey(key) && '\n' !in token
    ensures Persisted(Persisted(data, key, token), key, newer) == Persisted(data, key, newer)
  {
    PersistedLines(data, key, token);
    RewriteTwice(Split(data, '\n'), key, token, newer);
  }

  // ---- two keys ----

  lemma NoSharedLine(lines: seq<string>, key: string, other: string)
    requires PlainKey(key) && PlainKey(other) && key != other
    ensures forall i | 0 <= i < |lines| :: !(IsLineOf(lines[i], key) && IsLineOf(lines[i], other))
  {
    forall i | 0 <= i < |lines| && IsLineOf(lines[i], key)
      ensures !IsLineOf(lines[i], other)
    {
      if IsLineOf(lines[i], other) {
        LineOfOneKey(lines[i], key, other);
      }
    }
  }

  /** Writing one key leaves the line of another where it is. */
  lemma OtherKeyUnmoved(lines: seq<string>, key: string, token: string, other: string)
    requires PlainKey(key) && PlainKey(other) && key != other
    ensures var after := Rewritten(lines, key, token);
            FirstLine(after, other) == if FirstLine(lines, other) < |lines| then FirstLine(lines, other) else |after|
  {
    var after := Rewritten(lines, key, token);
    var k, j := FirstLine(lines, key), FirstLine(lines, other);
    RewrittenAt(lines, key, token);
    WrittenLine(key, token);
    NoSharedLine(lines, key, other);
    NoSharedLine(after, key, other);
    assert after[k] == Prefix(key) + token;
    assert forall i | 0 <= i < |lines| && i != k :: after[i] == lines[i];
    FirstLineIs(after, other, if j < |lines| then j else |after|);
  }

  function Put(lines: seq<string>, at: nat, line: string): seq<string> {
    if at < |lines| then lines[at := line] else lines + [line]
  }

  /** The second write goes where it would have gone without the first. */
  lemma WriteBoth(lines: seq<string>, key: string, token: string, other: string, otherToken: string)
    requires PlainKey(key) && PlainKey(other) && key != other
    ensures var once := Put(lines, FirstLine(lines, key), Prefix(key) + token);
            Rewritten(Rewritten(lines, key, token), other, otherToken) ==
            Put(once, if FirstLine(lines, other) < |lines| then FirstLine(lines, other) else |once|, Prefix(other) + otherToken)
  {
    RewrittenAt(lines, key, token);
    OtherKeyUnmoved(lines, key, token, other);
    RewrittenAt(Rewritten(lines, key, token), other, otherToken);
  }

  lemma PresentKeysCommute(lines: seq<string>, key: string, token: string, other: string, otherToken: string)
    requires PlainKey(key) && PlainKey(other) && key != other
    requires FirstLine(lines, key) < |lines|
    ensures Rewritten(Rewritten(lines, key, token), other, otherToken) == Rewritten(Rewritten(lines, other, otherToken), key, token)
  {
    WriteBoth(lines, key, token, other, otherToken);
    WriteBoth(lines, other, otherToken, key, token);
    NoSharedLine(lines, key, other);
  }

  /** Writes for two keys commute exactly when at least one of them has a line already. */
  lemma WritesCommuteIff(lines: seq<string>, key: string, token: string, other: string, otherToken: string)
    requires PlainKey(key) && PlainKey(other) && key != other
    ensures Rewritten(Rewritten(lines, key, token), other, otherToken) == Rewritten(Rewritten(lines, other, otherToken), key, token)
            <==> FirstLine(lines, key) < |lines| || FirstLine(lines, other) < |lines|
  {
    if FirstLine(lines, key) < |lines| {
      PresentKeysCommute(lines, key, token, other, otherToken);
    } else if FirstLine(lines, other) < |lines| {
      PresentKeysCommute(lines, other, otherToken, key, token);
    } else {
      WriteBoth(lines, key, token, other, otherToken);
      WriteBoth(lines, other, otherToken, key, token);
      WrittenLine(key, token);
      WrittenLine(other, otherToken);
      NoSharedLine([Prefix(key) + token], key, other);
      var ab := lines + [Prefix(key) + token] + [Prefix(other) + otherToken];
      var ba := lines + [Prefix(other) + otherToken] + [Prefix(key) + token];
      assert ab[|lines|] == Prefix(key) + token && ba[|lines|] == Prefix(other) + otherToken;
      assert [Prefix(key) + token][0] == Prefix(key) + token;
    }
  }

  /** The same for whole files. */
  lemma FilesCommuteIff(data: string, key: string, token: string, other: string, otherToken: string)
    requires PlainKey(key) && PlainKey(other) && key != other && '\n' !in token && '\n' !in otherToken
    ensures Persisted(Persisted(data, key, token), other, otherToken) == Persisted(Persisted(data, other, otherToken), key, token)
            <==> var lines := Split(data, '\n'); FirstLine(lines, key) < |lines| || FirstLine(lines, other) < |lines|
  {
    PersistedLines(data, key, token);
    PersistedLines(data, other, otherToken);
    PersistedLines(Persisted(data, key, token), other, otherToken);
    PersistedLines(Persisted(data, other, otherToken), key, token);
    WritesCommuteIff(Split(data, '\n'), key, token, other, otherToken);
  }

  // ---- values as the parser reads them ----

  predicate NameChar(c: char) {
    'a' <= c <= 'z' || 'A' <= c <= 'Z' || '0' <= c <= '9' || c == '_' || c == '.'
  }

  predicate VariableName(key: string) {
    key != "" && forall c | c in key :: NameChar(c)
  }

  predicate ReferenceChar(c: char) {
    'A' <= c <= 'Z' || '0' <= c <= '9' || c == '_'
  }

  function LeadingName(s: string): (name: string)
    ensures |name| <= |s|
  {
    if s != "" && ReferenceChar(s[0]) then [s[0]] + LeadingName(s[1..]) else ""
  }

  /** Where the name in a reference such as `$A`, `${A}` or `$(A` starts. */
  function NameStart(v: string): (i: nat)
    requires v != ""
    ensures 1 <= i <= |v|
  {
    var i := if |v| > 1 && v[1] == '(' then 2 else 1;
    if |v| > i && v[i] == '{' then i + 1 else i
  }

  /** The name behind a `$` at the front, empty if there is none. */
  function NameIn(v: string): string
    requires v != ""
  {
    LeadingName(v[NameStart(v)..])
  }

  function ReferenceLength(v: string): (n: nat)
    requires v != ""
    ensures 1 <= n <= |v|
  {
    var n := NameStart(v) + |NameIn(v)|;
    if |v| > n && v[n] == '}' then n + 1 else n
  }

  /** Variables replaced by their values; a backslash in front of a reference is dropped and keeps it. */
  function Expand(v: string, vars: string -> string): string
    decreases |v|
  {
    if v == "" then ""
    else if v[0] == '\\' && |v| > 1 && v[1] == '$' then
      var n := ReferenceLength(v[1..]);
      v[1..1 + n] + Expand(v[1 + n..], vars)
    else if v[0] == '$' && NameIn(v) != "" then vars(NameIn(v)) + Expand(v[ReferenceLength(v)..], vars)
    else [v[0]] + Expand(v[1..], vars)
  }

  /** A comment starts at a `#` behind a blank. */
  function WithoutComment(v: string): string {
    if |v| < 2 then v
    else if IsSpace(v[0]) && v[1] == '#' then v[..1]
    else [v[0]] + WithoutComment(v[1..])
  }

  /** What an unquoted value reads as. */
  function Value(text: string, vars: string -> string): string {
    Expand(TrimSpace(WithoutComment(TrimSpace(text))), vars)
  }

  predicate NoReference(v: string) {
    forall i | 0 <= i < |v| && v[i] == '$' :: (i > 0 ==> v[i - 1] != '\\') && NameIn(v[i..]) == ""
  }

  predicate NoComment(v: string) {
    forall i | 0 < i < |v| && v[i] == '#' :: !IsSpace(v[i - 1])
  }

  /** A text the parser takes as it stands: no blanks at its edges, no comment and no reference. */
  predicate Literal(text: string) {
    Trimmed(text, IsSpace) && NoComment(text) && NoReference(text)
  }

  lemma NoReferenceTail(v: string)
    requires v != "" && NoReference(v)
    ensures NoReference(v[1..])
  {
    forall i | 0 <= i < |v| - 1 && v[1..][i] == '$'
      ensures (i > 0 ==> v[1..][i - 1] != '\\') && NameIn(v[1..][i..]) == ""
    {
      assert v[1..][i..] == v[i + 1..] && v[i + 1] == '$';
    }
  }

  lemma {:induction false} ExpandKeeps(v: string, vars: string -> string)
    requires NoReference(v)
    ensures Expand(v, vars) == v
  {
    if v != "" {
      NoReferenceTail(v);
      ExpandKeeps(v[1..], vars);
      assert v[0..] == v;
      assert |v| > 1 && v[1] == '$' ==> v[0] != '\\';
      assert v == [v[0]] + v[1..];
    }
  }

  lemma {:induction false} ExpandShrinks(v: string, vars: string -> string)
    requires forall name :: vars(name) == ""
    ensures |Expand(v, vars)| <= |v|
    ensures !NoReference(v) ==> |Expand(v, vars)| < |v|
    decreases |v|
  {
    if v != "" {
      if v[0] == '\\' && |v| > 1 && v[1] == '$' {
        ExpandShrinks(v[1 + ReferenceLength(v[1..])..], vars);
      } else if v[0] == '$' && NameIn(v) != "" {
        ExpandShrinks(v[ReferenceLength(v)..], vars);
      } else {
        ExpandShrinks(v[1..], vars);
        if NoReference(v[1..]) {
          ReferenceInFront(v);
        }
      }
    }
  }

  lemma ReferenceInFront(v: string)
    requires v != "" && NoReference(v[1..])
    requires !(v[0] == '\\' && |v| > 1 && v[1] == '$') && !(v[0] == '$' && NameIn(v) != "")
    ensures NoReference(v)
  {
    forall i | 0 <= i < |v| && v[i] == '$'
      ensures (i > 0 ==> v[i - 1] != '\\') && NameIn(v[i..]) == ""
    {
      if i == 0 {
        assert v[0..] == v;
      } else {
        assert v[1..][i - 1] == '$' && v[1..][i - 1..] == v[i..];
        assert i > 1 ==> v[1..][i - 2] == v[i - 1];
      }
    }
  }

  lemma NoCommentTail(v: string)
    requires |v| >= 2 && !(IsSpace(v[0]) && v[1] == '#')
    ensures NoComment(v) <==> NoComment(v[1..])
  {
    var tail := v[1..];
    assert forall i | 0 <= i < |tail| :: tail[i] == v[i + 1];
    if NoComment(tail) {
      forall i | 0 < i < |v| && v[i] == '#'
        ensures !IsSpace(v[i - 1])
      {
        assert i > 1 ==> tail[i - 1] == '#' && tail[i - 2] == v[i - 1];
      }
    }
  }

  lemma {:induction false} CommentCut(v: string)
    ensures |WithoutComment(v)| <= |v|
    ensures NoComment(v) ==> WithoutComment(v) == v
    ensures !NoComment(v) ==> |WithoutComment(v)| < |v|
  {
    if |v| >= 2 && !(IsSpace(v[0]) && v[1] == '#') {
      NoCommentTail(v);
      CommentCut(v[1..]);
      assert v == [v[0]] + v[1..];
    }
  }

  lemma LiteralKept(text: string, vars: string -> string)
    requires Literal(text)
    ensures Value(text, vars) == text
  {
    TrimOfTrimmed(text, IsSpace);
    CommentCut(text);
    ExpandKeeps(text, vars);
  }

  lemma OnlyLiteralKept(text: string, vars: string -> string)
    requires (forall name :: vars(name) == "") && Value(text, vars) == text
    ensures Literal(text)
  {
    var inner := TrimSpace(text);
    var cut := WithoutComment(inner);
    TrimIsTrimmed(text, IsSpace);
    CommentCut(inner);
    TrimIsTrimmed(cut, IsSpace);
    ExpandShrinks(TrimSpace(cut), vars);
    assert |text| <= |TrimSpace(cut)| <= |cut| <= |inner| <= |text|;
    TrimSameLength(text, IsSpace);
    TrimSameLength(cut, IsSpace);
  }

  // ---- reading the file back ----

  /** Other values start with a quote or a `#` and are not part of this model. */
  predicate Unquoted(token: string) {
    '\n' !in token && var t := TrimSpace(token); t != "" ==> t[0] !in {'#', '"', '\''}
  }

  function WithoutExport(t: string): string {
    if "export" <= t && |t| > 6 && IsSpace(t[6]) then TrimLeft(t[6..], IsSpace) else t
  }

  /** The first `=` or `:`, negative if there is neither. */
  function NameEnd(t: string): (i: int)
    ensures i < |t|
  {
    var eq, colon := Index(t, '='), Index(t, ':');
    if eq < 0 then colon else if 0 <= colon < eq then colon else eq
  }

  /** The name a line assigns and the text of its value, if any. The parser reads `K=v`, `K = v`, `K: v`
      and each of them behind `export`; the rewriter knows the first form only. */
  function Assignment(line: string): Option<(string, string)> {
    var t := WithoutExport(TrimLeft(line, IsSpace));
    if t == "" || t[0] == '#' || NameEnd(t) < 0 then None
    else Some((TrimRight(t[..NameEnd(t)], IsSpace), TrimSpace(t[NameEnd(t) + 1..])))
  }

  predicate Assigns(line: string, key: string) {
    var a := Assignment(line);
    a.Some? && a.value.0 == key
  }

  /** The value the next start sees: a later line overrides an earlier one, and may refer to earlier ones. */
  function ReadKey(lines: seq<string>, key: string): string
    decreases |lines|
  {
    if lines == [] then ""
    else
      var init, last := lines[..|lines| - 1], lines[|lines| - 1];
      if Assigns(last, key) then Value(Assignment(last).value.1, name => ReadKey(init, name))
      else ReadKey(init, key)
  }

  function ReadFile(data: string, key: string): string {
    ReadKey(Split(data, '\n'), key)
  }

  /** Behind the line that gets rewritten no other line assigns the key, in whatever form. */
  predicate Clear(lines: seq<string>, key: string) {
    forall i | FirstLine(lines, key) < i < |lines| :: !Assigns(lines[i], key)
  }

  lemma NameIsPlain(key: string)
    requires VariableName(key)
    ensures PlainKey(key) && ':' !in key && key[0] != '#'
  {
    assert key[0] in key;
  }

  lemma NoExportInFront(key: string, rest: string)
    requires VariableName(key) && rest != ""
    requires rest[0] == '=' || (rest[0] == ' ' && key != "export")
    ensures WithoutExport(key + rest) == key + rest
  {
    var line := key + rest;
    assert line[|key|] == rest[0] && line[..|key|] == key;
    if |key| < 6 {
      assert "export"[|key|] != rest[0];
    } else if |key| > 6 {
      assert line[6] == key[6] && key[6] in key;
    }
  }

  /** Taking apart a line at its first `=`. */
  lemma NameEndsAt(name: string, rest: string)
    requires '=' !in name && ':' !in name
    ensures var t := name + "=" + rest;
            NameEnd(t) == |name| && t[..|name|] == name && t[|name| + 1..] == rest
  {
    var t := name + "=" + rest;
    IndexPast(name, '=', rest);
    assert t == name + ['='] + rest;
    assert forall k | 0 <= k < |name| :: t[k] == name[k] && name[k] in name;
  }

  lemma AssignmentOf(line: string, name: string, rest: string)
    requires line == name + "=" + rest && '=' !in name && ':' !in name
    requires name != "" && !IsSpace(line[0]) && line[0] != '#' && WithoutExport(line) == line
    ensures Assignment(line) == Some((TrimRight(name, IsSpace), TrimSpace(rest)))
  {
    assert TrimLeft(line, IsSpace) == line;
    NameEndsAt(name, rest);
  }

  lemma NameTrims(key: string)
    requires VariableName(key)
    ensures TrimRight(key, IsSpace) == key && TrimRight(key + " ", IsSpace) == key
  {
    assert key[|key| - 1] in key;
    assert (key + " ")[..|key|] == key;
  }

  lemma WrittenLineAssigns(key: string, token: string)
    requires VariableName(key)
    ensures Assignment(Prefix(key) + token) == Some((key, TrimSpace(token)))
  {
    var line := Prefix(key) + token;
    assert line == key + ("=" + token) && line[0] == key[0];
    NoExportInFront(key, "=" + token);
    NameIsPlain(key);
    AssignmentOf(line, key, token);
    NameTrims(key);
  }

  lemma SpacedLineAssigns(key: string, token: string)
    requires VariableName(key) && key != "export" && Trimmed(token, IsSpace)
    ensures Assignment(key + " = " + token) == Some((key, token))
  {
    var line := key + " = " + token;
    assert line == key + (" = " + token) == key + " " + "=" + (" " + token);
    assert line[0] == key[0];
    NoExportInFront(key, " = " + token);
    NameIsPlain(key);
    AssignmentOf(line, key + " ", " " + token);
    NameTrims(key);
    TrimAfterSpace(token);
  }

  /** What is assigned last, and where. */
  lemma {:induction false} ReadKeyAt(lines: seq<string>, key: string, k: nat)
    requires k < |lines| && Assigns(lines[k], key)
    requires forall i | k < i < |lines| :: !Assigns(lines[i], key)
    ensures ReadKey(lines, key) == Value(Assignment(lines[k]).value.1, name => ReadKey(lines[..k], name))
  {
    if k < |lines| - 1 {
      ReadKeyAt(lines[..|lines| - 1], key, k);
      assert lines[..|lines| - 1][..k] == lines[..k];
    }
  }

  lemma {:induction false} LastAssignment(lines: seq<string>, key: string, start: nat) returns (last: nat)
    requires start < |lines| && Assigns(lines[start], key)
    ensures start <= last < |lines| && Assigns(lines[last], key)
    ensures forall i | last < i < |lines| :: !Assigns(lines[i], key)
    decreases |lines| - start
  {
    if i :| start < i < |lines| && Assigns(lines[i], key) {
      last := LastAssignment(lines, key, i);
    } else {
      last := start;
    }
  }

  /** The text of the last value assigned to the key. */
  function LastText(lines: seq<string>, key: string): string {
    if lines == [] then ""
    else if Assigns(lines[|lines| - 1], key) then Assignment(lines[|lines| - 1]).value.1
    else LastText(lines[..|lines| - 1], key)
  }

  lemma {:induction false} LastTextAt(lines: seq<string>, key: string, k: nat)
    requires k < |lines| && Assigns(lines[k], key)
    requires forall i | k < i < |lines| :: !Assigns(lines[i], key)
    ensures LastText(lines, key) == Assignment(lines[k]).value.1
  {
    if k < |lines| - 1 {
      LastTextAt(lines[..|lines| - 1], key, k);
    }
  }

  /** Changing a line does not change which text the reader takes if a later line assigns the key. */
  lemma HiddenLine(before: seq<string>, after: seq<string>, key: string, k: nat)
    requires k < |before| == |after| && forall i | k < i < |before| :: after[i] == before[i]
    requires exists i :: k < i < |before| && Assigns(before[i], key)
    ensures LastText(after, key) == LastText(before, key)
    ensures Literal(LastText(before, key)) ==> ReadKey(after, key) == ReadKey(before, key) == LastText(before, key)
  {
    var i :| k < i < |before| && Assigns(before[i], key);
    var last := LastAssignment(before, key, i);
    LastTextAt(before, key, last);
    LastTextAt(after, key, last);
    ReadKeyAt(before, key, last);
    ReadKeyAt(after, key, last);
    if Literal(LastText(before, key)) {
      LiteralKept(LastText(before, key), name => ReadKey(before[..last], name));
      LiteralKept(LastText(before, key), name => ReadKey(after[..last], name));
    }
  }

  /** What a token written now reads as at the next start, given the lines in front of it. */
  function WrittenValue(lines: seq<string>, key: string, token: string): string {
    var front := lines[..FirstLine(lines, key)];
    Value(token, name => ReadKey(front, name))
  }

  lemma ValueOfTrimmed(text: string, vars: string -> string)
    ensures Value(TrimSpace(text), vars) == Value(text, vars)
  {
    TrimIsTrimmed(text, IsSpace);
    TrimOfTrimmed(TrimSpace(text), IsSpace);
  }

  /** What is read from the lines after a rewrite. */
  lemma RewriteThenRead(lines: seq<string>, key: string, token: string)
    requires VariableName(key)
    ensures var after := Rewritten(lines, key, token);
            && (Clear(after, key) <==> Clear(lines, key))
            && (if Clear(lines, key)
                then ReadKey(after, key) == WrittenValue(lines, key, token)
                else LastText(after, key) == LastText(lines, key)
                     && (Literal(LastText(lines, key)) ==> ReadKey(after, key) == ReadKey(lines, key) == LastText(lines, key)))
  {
    var after := Rewritten(lines, key, token);
    var k := FirstLine(lines, key);
    NameIsPlain(key);
    RewriteEffect(lines, key, token);
    if Clear(lines, key) {
      WrittenLineAssigns(key, token);
      ReadKeyAt(after, key, k);
      ValueOfTrimmed(token, name => ReadKey(lines[..k], name));
    } else {
      HiddenLine(lines, after, key, k);
    }
  }

  /** What the next start reads after a write: the value of the new token, if no line behind the
      rewritten one assigns the key in any form; otherwise the text it reads is the same as without the
      write. */
  lemma WriteThenRead(data: string, key: string, token: string)
    requires VariableName(key) && Unquoted(token)
    ensures var before, after := Split(data, '\n'), Split(Persisted(data, key, token), '\n');
            && (Clear(after, key) <==> Clear(before, key))
            && (if Clear(before, key)
                then ReadKey(after, key) == WrittenValue(before, key, token)
                else LastText(after, key) == LastText(before, key)
                     && (Literal(LastText(before, key)) ==> ReadKey(after, key) == ReadKey(before, key) == LastText(before, key)))
  {
    NameIsPlain(key);
    PersistedLines(data, key, token);
    RewriteThenRead(Split(data, '\n'), key, token);
  }

  /** No line in front of the one that gets rewritten assigns anything. */
  predicate NothingInFront(lines: seq<string>, key: string) {
    forall i | 0 <= i < FirstLine(lines, key) :: Assignment(lines[i]).None?
  }

  lemma {:induction false} NothingAssigned(lines: seq<string>, name: string)
    requires forall i | 0 <= i < |lines| :: Assignment(lines[i]).None?
    ensures ReadKey(lines, name) == ""
  {
    if lines != [] {
      NothingAssigned(lines[..|lines| - 1], name);
    }
  }

  lemma WrittenLiteralKept(lines: seq<string>, key: string, token: string)
    ensures Literal(token) ==> WrittenValue(lines, key, token) == token
    ensures NothingInFront(lines, key) ==> (WrittenValue(lines, key, token) == token <==> Literal(token))
  {
    var front := lines[..FirstLine(lines, key)];
    if Literal(token) {
      LiteralKept(token, name => ReadKey(front, name));
    } else if NothingInFront(lines, key) && WrittenValue(lines, key, token) == token {
      forall name
        ensures ReadKey(front, name) == ""
      {
        NothingAssigned(front, name);
      }
      OnlyLiteralKept(token, name => ReadKey(front, name));
    }
  }

  /** A literal token is read back as it was written, and where no earlier line sets a variable only a
      literal one is. */
  lemma LiteralTokenIsKept(data: string, key: string, token: string)
    requires VariableName(key) && Unquoted(token) && Clear(Split(data, '\n'), key)
    ensures Literal(token) ==> ReadFile(Persisted(data, key, token), key) == token
    ensures NothingInFront(Split(data, '\n'), key) ==> (ReadFile(Persisted(data, key, token), key) == token <==> Literal(token))
  {
    WriteThenRead(data, key, token);
    WrittenLiteralKept(Split(data, '\n'), key, token);
  }

  lemma LastLineReads(lines: seq<string>, key: string, value: string)
    requires lines != [] && Assignment(lines[|lines| - 1]) == Some((key, value)) && Literal(value)
    ensures ReadKey(lines, key) == value
  {
    var init := lines[..|lines| - 1];
    LiteralKept(value, name => ReadKey(init, name));
  }

  /** A last line that assigns a literal value to the key, behind the line that gets rewritten, hides
      every token. */
  lemma LastLineHidesToken(lines: seq<string>, key: string, other: string, token: string)
    requires VariableName(key) && Literal(other)
    requires FirstLine(lines, key) < |lines| - 1 && Assignment(lines[|lines| - 1]) == Some((key, other))
    ensures ReadKey(Rewritten(lines, key, token), key) == other
  {
    var after := Rewritten(lines, key, token);
    assert |after| == |lines| && after[|lines| - 1] == lines[|lines| - 1] by {
      NameIsPlain(key);
      RewriteEffect(lines, key, token);
    }
    LastLineReads(after, key, other);
  }

  lemma TwoLines(first: string, second: string)
    requires '\n' !in first && '\n' !in second
    ensures Split(first + "\n" + second, '\n') == [first, second]
  {
    SplitPast(first, '\n', second);
    assert first + "\n" + second == first + ['\n'] + second;
  }

  lemma SecondLineWins(first: string, second: string, key: string, other: string, token: string)
    requires VariableName(key) && Literal(other) && Unquoted(token)
    requires '\n' !in first && '\n' !in second && IsLineOf(first, key) && Assignment(second) == Some((key, other))
    ensures ReadFile(Persisted(first + "\n" + second, key, token), key) == other
  {
    NameIsPlain(key);
    TwoLines(first, second);
    PersistedLines(first + "\n" + second, key, token);
    LastLineHidesToken([first, second], key, other, token);
  }

  /** One line in another form is enough: the write goes to `K=`, the next start reads `K = `. */
  lemma SpacedLineHidesToken(key: string, old_: string, other: string, token: string)
    requires VariableName(key) && key != "export" && Unquoted(token)
    requires '\n' !in old_ && '\n' !in other && Literal(other)
    ensures ReadFile(Persisted((Prefix(key) + old_) + "\n" + (key + " = " + other), key, token), key) == other
  {
    NameIsPlain(key);
    WrittenLine(key, old_);
    SpacedLineAssigns(key, other);
    SecondLineWins(Prefix(key) + old_, key + " = " + other, key, other, token);
  }
}
