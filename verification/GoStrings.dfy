// The few operations of Go's strings package that the modelled code uses.
// A Go string is modelled as a sequence of characters; every marker the code
// looks for is ASCII, so bytes and characters can be identified.
module GoStrings {

  lemma Assoc(a: string, b: string, c: string)
    ensures a + (b + c) == a + b + c
  {
  }

  // Cutting a concatenation inside its first part.
  lemma CutConcat(a: string, b: string, k: nat)
    requires k <= |a|
    ensures (a + b)[..k] == a[..k] && (a + b)[k..] == a[k..] + b
  {
  }

  // p occurs in s at position i.
  ghost predicate OccursAt(s: string, p: string, i: int)
    ensures OccursAt(s, p, i) ==> 0 <= i <= |s|
  {
    0 <= i <= |s| && p <= s[i..]
  }

  lemma OccursInTail(s: string, p: string)
    requires s != ""
    ensures forall i | 0 < i <= |s| :: OccursAt(s, p, i) <==> OccursAt(s[1..], p, i - 1)
    ensures OccursAt(s, p, 0) <==> p <= s
  {
    assert s[0..] == s;
    forall i | 0 < i <= |s| ensures OccursAt(s, p, i) <==> OccursAt(s[1..], p, i - 1) {
      assert s[i..] == s[1..][i - 1..];
    }
  }

  // strings.Index: the first position where p occurs, or -1.
  function Index(s: string, p: string): (r: int)
    ensures -1 <= r <= |s|
    ensures r >= 0 ==> OccursAt(s, p, r)
    ensures forall i | 0 <= i <= |s| && (r < 0 || i < r) :: !OccursAt(s, p, i)
  {
    if p <= s then 0
    else if s == "" then -1
    else
      var r := Index(s[1..], p);
      OccursInTail(s, p);
      if r < 0 then -1 else r + 1
  }

  // strings.IndexByte: the first position of c, or -1.
  function IndexByte(s: string, c: char): (r: int)
    ensures -1 <= r < |s|
    ensures r >= 0 ==> s[r] == c && c !in s[..r]
    ensures r < 0 ==> c !in s
  {
    if s == "" then -1
    else if s[0] == c then 0
    else
      var r := IndexByte(s[1..], c);
      if r < 0 then -1 else
        assert s[..r + 1] == [s[0]] + s[1..][..r];
        r + 1
  }

  lemma LastIndexStep(s: string, p: string, r: int)
    requires s != "" && -1 <= r < |s|
    requires r >= 0 ==> OccursAt(s[1..], p, r)
    requires forall i | r < i < |s| :: !OccursAt(s[1..], p, i)
    ensures r >= 0 ==> OccursAt(s, p, r + 1)
    ensures forall i | r + 1 < i <= |s| :: !OccursAt(s, p, i)
    ensures r < 0 ==> (p <= s <==> OccursAt(s, p, 0))
  {
    assert s[0..] == s;
    if r >= 0 {
      assert s[r + 1..] == s[1..][r..];
    }
    forall i | r + 1 < i <= |s| ensures !OccursAt(s, p, i) {
      assert s[i..] == s[1..][i - 1..];
      assert !OccursAt(s[1..], p, i - 1);
    }
  }

  // strings.LastIndex: the last position where p occurs, or -1.
  function LastIndex(s: string, p: string): (r: int)
    ensures -1 <= r <= |s|
    ensures r >= 0 ==> OccursAt(s, p, r)
    ensures forall i | r < i <= |s| :: !OccursAt(s, p, i)
  {
    if s == "" then (if p == "" then 0 else -1)
    else
      var r := LastIndex(s[1..], p);
      LastIndexStep(s, p, r);
      if r >= 0 then r + 1
      else if p <= s then 0 else -1
  }

  lemma LastIndexIs(s: string, p: string, k: nat)
    requires OccursAt(s, p, k)
    requires forall i | k < i <= |s| :: !OccursAt(s, p, i)
    ensures LastIndex(s, p) == k
  {
    hide LastIndex, OccursAt;
    var r := LastIndex(s, p);
    assert r < k ==> !OccursAt(s, p, k);
  }

  // strings.Join.
  function Join(parts: seq<string>, sep: string): string {
    if |parts| == 0 then ""
    else if |parts| == 1 then parts[0]
    else parts[0] + sep + Join(parts[1..], sep)
  }

  // strings.Split with a one-character separator.
  function Split(s: string, sep: char): (parts: seq<string>)
    ensures |parts| >= 1
    ensures forall i | 0 <= i < |parts| :: sep !in parts[i]
  {
    if s == "" then [""]
    else
      var rest := Split(s[1..], sep);
      if s[0] == sep then [""] + rest
      else [[s[0]] + rest[0]] + rest[1..]
  }

  // Splitting a text that starts with a separator-free piece.
  lemma {:induction false} SplitPrefix(a: string, s: string, sep: char)
    requires sep !in a
    ensures Split(a + s, sep) == [a + Split(s, sep)[0]] + Split(s, sep)[1..]
  {
    if a == "" {
      assert a + s == s;
      assert a + Split(s, sep)[0] == Split(s, sep)[0];
    } else {
      var rest := Split(a[1..] + s, sep);
      assert (a + s)[1..] == a[1..] + s;
      assert a[0] in a;
      assert Split(a + s, sep) == [[a[0]] + rest[0]] + rest[1..];
      SplitPrefix(a[1..], s, sep);
      assert [a[0]] + (a[1..] + Split(s, sep)[0]) == a + Split(s, sep)[0];
    }
  }

  // Split undoes Join on non-empty lists of separator-free texts.
  lemma {:induction false} SplitJoin(parts: seq<string>, sep: char)
    requires |parts| >= 1
    requires forall i | 0 <= i < |parts| :: sep !in parts[i]
    ensures Split(Join(parts, [sep]), sep) == parts
  {
    if |parts| == 1 {
      SplitPrefix(parts[0], "", sep);
      assert parts[0] + "" == parts[0];
    } else {
      var rest := Join(parts[1..], [sep]);
      assert Join(parts, [sep]) == parts[0] + ([sep] + rest);
      assert ([sep] + rest)[1..] == rest;
      SplitPrefix(parts[0], [sep] + rest, sep);
      SplitJoin(parts[1..], sep);
      assert parts[0] + "" == parts[0];
    }
  }

  // Join with a separator that occurs in no part determines the list.
  lemma JoinInjective(a: seq<string>, b: seq<string>, sep: char)
    requires |a| >= 1 && |b| >= 1
    requires forall i | 0 <= i < |a| :: sep !in a[i]
    requires forall i | 0 <= i < |b| :: sep !in b[i]
    requires Join(a, [sep]) == Join(b, [sep])
    ensures a == b
  {
    SplitJoin(a, sep);
    SplitJoin(b, sep);
  }

  // Splitting a joined text splits at every separator of either half.
  lemma {:induction false} SplitConcat(a: string, b: string, sep: char)
    ensures Split(a + [sep] + b, sep) == Split(a, sep) + Split(b, sep)
  {
    hide *;
    if a == "" {
      assert a + [sep] + b == [sep] + b;
      SplitStep(sep, b, sep);
      SplitEmpty(sep);
    } else {
      var tail := a[1..] + [sep] + b;
      assert a + [sep] + b == [a[0]] + tail && a == [a[0]] + a[1..];
      SplitConcat(a[1..], b, sep);
      SplitHeads(a[0], a[1..], tail, Split(b, sep), sep);
    }
  }

  lemma SplitHeads(c: char, s: string, t: string, more: seq<string>, sep: char)
    requires Split(t, sep) == Split(s, sep) + more
    ensures Split([c] + t, sep) == Split([c] + s, sep) + more
  {
    hide *;
    SplitStep(c, s, sep);
    SplitStep(c, t, sep);
    RegroupParts("", Split(s, sep), more);
    RegroupParts([c] + Split(s, sep)[0], Split(s, sep), more);
  }

  lemma RegroupParts(x: string, parts: seq<string>, more: seq<string>)
    requires |parts| >= 1
    ensures [x] + (parts + more) == [x] + parts + more
    ensures (parts + more)[0] == parts[0] && [x] + (parts + more)[1..] == [x] + parts[1..] + more
  {
  }

  lemma SplitEmpty(sep: char)
    ensures Split("", sep) == [""]
  {
  }

  lemma SplitStep(c: char, s: string, sep: char)
    ensures Split([c] + s, sep) ==
      if c == sep then [""] + Split(s, sep) else [[c] + Split(s, sep)[0]] + Split(s, sep)[1..]
  {
    assert ([c] + s)[1..] == s;
  }

  predicate IsSpace(c: char) {
    c == ' ' || c == '\t' || c == '\n' || c == '\r' || c == 11 as char || c == 12 as char
  }

  function TrimLeft(s: string): string {
    if s != "" && IsSpace(s[0]) then TrimLeft(s[1..]) else s
  }

  function TrimRight(s: string): string {
    if s != "" && IsSpace(s[|s| - 1]) then TrimRight(s[..|s| - 1]) else s
  }

  // strings.TrimSpace.
  function TrimSpace(s: string): string {
    TrimRight(TrimLeft(s))
  }

  // What is left begins and ends with no space, and only spaces are gone.
  lemma TrimSpaceIs(s: string) returns (pre: string, post: string)
    ensures s == pre + TrimSpace(s) + post
    ensures (forall i :: 0 <= i < |pre| ==> IsSpace(pre[i])) && (forall i :: 0 <= i < |post| ==> IsSpace(post[i]))
    ensures var r := TrimSpace(s); r != "" ==> !IsSpace(r[0]) && !IsSpace(r[|r| - 1])
  {
    pre := TrimLeftIs(s);
    post := TrimRightIs(TrimLeft(s));
    hide IsSpace;
    assert pre + (TrimSpace(s) + post) == pre + TrimSpace(s) + post;
  }

  lemma {:induction false} TrimLeftIs(s: string) returns (pre: string)
    ensures s == pre + TrimLeft(s) && forall i :: 0 <= i < |pre| ==> IsSpace(pre[i])
    ensures TrimLeft(s) != "" ==> !IsSpace(TrimLeft(s)[0])
  {
    hide IsSpace;
    pre := "";
    if s != "" && IsSpace(s[0]) {
      var rest := TrimLeftIs(s[1..]);
      pre := [s[0]] + rest;
    }
  }

  lemma {:induction false} TrimRightIs(s: string) returns (post: string)
    ensures s == TrimRight(s) + post && forall i :: 0 <= i < |post| ==> IsSpace(post[i])
    ensures TrimRight(s) != "" ==> !IsSpace(TrimRight(s)[|TrimRight(s)| - 1])
    ensures TrimRight(s) != "" && s != "" ==> TrimRight(s)[0] == s[0]
  {
    hide IsSpace;
    post := "";
    if s != "" && IsSpace(s[|s| - 1]) {
      var rest := TrimRightIs(s[..|s| - 1]);
      post := rest + [s[|s| - 1]];
      assert s == s[..|s| - 1] + [s[|s| - 1]];
    }
  }

  // strings.ToLower on ASCII.
  function LowerChar(c: char): char {
    if 'A' <= c <= 'Z' then c + 32 as char else c
  }

  function UpperChar(c: char): char {
    if 'a' <= c <= 'z' then c - 32 as char else c
  }

  function ToLower(s: string): (r: string)
    ensures |r| == |s|
    ensures forall i | 0 <= i < |s| :: r[i] == LowerChar(s[i])
  {
    seq(|s|, i requires 0 <= i < |s| => LowerChar(s[i]))
  }

  // strings.EqualFold on ASCII.
  predicate EqualFold(a: string, b: string) {
    ToLower(a) == ToLower(b)
  }
}
