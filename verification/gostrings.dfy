/** The parts of Go's `strings` package the program uses, on ASCII text. */
module GoStrings {

  predicate IsSpace(c: char) {
    c == ' ' || '\t' <= c <= '\r'
  }

  lemma SpaceIs(c: char)
    ensures IsSpace(c) <==> c as int in [9, 10, 11, 12, 13, 32]
  {
  }

  function LowerChar(c: char): char {
    if 'A' <= c <= 'Z' then (c as int + 32) as char else c
  }

  lemma LowerCharIs(c: char)
    ensures 'A' <= c <= 'Z' ==> LowerChar(c) == "abcdefghijklmnopqrstuvwxyz"[c as int - 'A' as int]
    ensures !('A' <= c <= 'Z') ==> LowerChar(c) == c
  {
    if 'A' <= c <= 'Z' {
      AlphabetIs(c as int - 'A' as int);
    }
  }

  lemma AlphabetIs(i: nat)
    requires i < 26
    ensures "abcdefghijklmnopqrstuvwxyz"[i] as int == 'a' as int + i
  {
  }

  function ToLower(s: string): string {
    seq(|s|, i requires 0 <= i < |s| => LowerChar(s[i]))
  }

  function TrimLeft(s: string, cut: char -> bool): string {
    if s != "" && cut(s[0]) then TrimLeft(s[1..], cut) else s
  }

  function TrimRight(s: string, cut: char -> bool): string {
    if s != "" && cut(s[|s| - 1]) then TrimRight(s[..|s| - 1], cut) else s
  }

  function Trim(s: string, cut: char -> bool): string {
    TrimRight(TrimLeft(s, cut), cut)
  }

  function TrimSpace(s: string): string {
    Trim(s, IsSpace)
  }

  predicate HasSuffix(s: string, suffix: string) {
    |suffix| <= |s| && s[|s| - |suffix|..] == suffix
  }

  /** `strings.Index(s, string(c))`. */
  function Index(s: string, c: char): (i: int)
    ensures -1 <= i < |s|
    ensures i >= 0 ==> s[i] == c && c !in s[..i]
    ensures i < 0 <==> c !in s
  {
    if s == "" then -1
    else if s[0] == c then 0
    else
      var i := Index(s[1..], c);
      if i < 0 then -1 else assert s[..i + 1] == [s[0]] + s[1..][..i]; i + 1
  }

  /** `strings.LastIndex(s, string(c))`. */
  function LastIndex(s: string, c: char): (i: int)
    ensures -1 <= i < |s|
    ensures i >= 0 ==> s[i] == c && c !in s[i + 1..]
    ensures i < 0 <==> c !in s
  {
    if s == "" then -1
    else if s[|s| - 1] == c then |s| - 1
    else
      var i := LastIndex(s[..|s| - 1], c);
      assert s == s[..|s| - 1] + [s[|s| - 1]];
      if i < 0 then -1 else assert s[i + 1..] == s[..|s| - 1][i + 1..] + [s[|s| - 1]]; i
  }

  /** `strings.Split(s, string(sep))`. */
  function Split(s: string, sep: char): (parts: seq<string>)
    ensures parts != []
  {
    var i := Index(s, sep);
    if i < 0 then [s] else [s[..i]] + Split(s[i + 1..], sep)
  }

  function Join(parts: seq<string>, sep: string): string {
    if parts == [] then "" else if |parts| == 1 then parts[0] else parts[0] + sep + Join(parts[1..], sep)
  }

  // ---- splitting and joining ----

  lemma IndexPast(s: string, c: char, t: string)
    requires c !in s
    ensures Index(s + [c] + t, c) == |s|
  {
    var w := s + [c] + t;
    assert w[|s|] == c;
    assert forall k | 0 <= k < |s| :: w[k] == s[k] && s[k] in s;
    assert forall k | 0 <= k < Index(w, c) :: w[k] in w[..Index(w, c)];
  }

  lemma SplitPast(s: string, c: char, t: string)
    requires c !in s
    ensures Split(s + [c] + t, c) == [s] + Split(t, c)
  {
    IndexPast(s, c, t);
    assert (s + [c] + t)[..|s|] == s && (s + [c] + t)[|s| + 1..] == t;
  }

  lemma JoinCons(head: string, rest: seq<string>, sep: string)
    requires rest != []
    ensures Join([head] + rest, sep) == head + sep + Join(rest, sep)
  {
    assert ([head] + rest)[1..] == rest;
  }

  lemma {:induction false} JoinOfSplit(s: string, sep: char)
    ensures Join(Split(s, sep), [sep]) == s
  {
    var i := Index(s, sep);
    if i >= 0 {
      JoinOfSplit(s[i + 1..], sep);
      JoinCons(s[..i], Split(s[i + 1..], sep), [sep]);
      assert s == s[..i] + [sep] + s[i + 1..];
    }
  }

  lemma {:induction false} SplitOfJoin(parts: seq<string>, sep: char)
    requires parts != []
    requires forall k | 0 <= k < |parts| :: sep !in parts[k]
    ensures Split(Join(parts, [sep]), sep) == parts
  {
    if |parts| > 1 {
      var rest := parts[1..];
      SplitOfJoin(rest, sep);
      SplitPast(parts[0], sep, Join(rest, [sep]));
      assert parts == [parts[0]] + rest;
    }
  }

  lemma {:induction false} SplitPiecesFree(s: string, sep: char)
    ensures forall k | 0 <= k < |Split(s, sep)| :: sep !in Split(s, sep)[k]
  {
    var i := Index(s, sep);
    if i >= 0 {
      SplitPiecesFree(s[i + 1..], sep);
    }
  }

  // ---- trimming ----

  predicate Trimmed(s: string, cut: char -> bool) {
    s != "" ==> !cut(s[0]) && !cut(s[|s| - 1])
  }

  lemma {:induction false} TrimLeftIsSuffix(s: string, cut: char -> bool)
    ensures exists k | 0 <= k <= |s| :: TrimLeft(s, cut) == s[k..]
    ensures TrimLeft(s, cut) != "" ==> !cut(TrimLeft(s, cut)[0])
  {
    if s != "" && cut(s[0]) {
      TrimLeftIsSuffix(s[1..], cut);
      var k :| 0 <= k <= |s| - 1 && TrimLeft(s[1..], cut) == s[1..][k..];
      assert s[1..][k..] == s[k + 1..];
    } else {
      assert s[0..] == s;
    }
  }

  lemma {:induction false} TrimRightIsPrefix(s: string, cut: char -> bool)
    ensures TrimRight(s, cut) <= s
    ensures TrimRight(s, cut) != "" ==> !cut(TrimRight(s, cut)[|TrimRight(s, cut)| - 1])
  {
    if s != "" && cut(s[|s| - 1]) {
      TrimRightIsPrefix(s[..|s| - 1], cut);
    }
  }

  /** A trimmed text has clean edges and only characters of the original. */
  lemma TrimIsTrimmed(s: string, cut: char -> bool)
    ensures Trimmed(Trim(s, cut), cut)
    ensures forall c | c in Trim(s, cut) :: c in s
    ensures |Trim(s, cut)| <= |s|
  {
    TrimLeftIsSuffix(s, cut);
    TrimRightIsPrefix(TrimLeft(s, cut), cut);
  }

  lemma TrimOfTrimmed(s: string, cut: char -> bool)
    requires Trimmed(s, cut)
    ensures Trim(s, cut) == s
  {
  }

  lemma TrimSameLength(s: string, cut: char -> bool)
    requires |Trim(s, cut)| == |s|
    ensures Trim(s, cut) == s
  {
    TrimLeftIsSuffix(s, cut);
    TrimRightIsPrefix(TrimLeft(s, cut), cut);
  }

  lemma TrimAfterSpace(s: string)
    requires Trimmed(s, IsSpace)
    ensures TrimSpace(" " + s) == s
  {
    assert (" " + s)[1..] == s;
    assert TrimLeft(" " + s, IsSpace) == TrimLeft(s, IsSpace);
  }

  // ---- suffixes ----

  /** A suffix without `c` cannot reach back past the last `c`. */
  lemma SuffixAfterLast(s: string, suffix: string, c: char)
    requires HasSuffix(s, suffix) && c !in suffix
    ensures |suffix| <= |s| - 1 - LastIndex(s, c)
  {
    assert forall k | |s| - |suffix| <= k < |s| :: s[k] == suffix[k - (|s| - |suffix|)];
  }

  lemma SuffixOfTail(s: string, suffix: string, from_: nat)
    requires from_ <= |s| && |suffix| <= |s| - from_
    ensures HasSuffix(s, suffix) <==> HasSuffix(s[from_..], suffix)
  {
    assert s[from_..][|s| - from_ - |suffix|..] == s[|s| - |suffix|..];
  }
}
