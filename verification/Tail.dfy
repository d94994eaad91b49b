// daemon/daemon_unix.go: the search tailFile makes, backwards and chunk by chunk,
// for the place to start printing the last lines of a log.
module Tail {
  import opened GoStrings

  function Count(s: string): nat {
    if s == "" then 0 else (if s[0] == '\n' then 1 else 0) + Count(s[1..])
  }

  // Just after the n-th newline from the end, or the beginning if there are fewer.
  predicate IsStart(content: string, n: int, pos: nat) {
    if n < 1 || Count(content) < n then pos == 0
    else 0 < pos <= |content| && content[pos - 1] == '\n' && Count(content[pos - 1..]) == n
  }

  lemma {:induction false} CountSuffix(content: string, p: nat)
    requires p <= |content|
    ensures Count(content) == Count(content[..p]) + Count(content[p..])
  {
    if p > 0 {
      CountSuffix(content[1..], p - 1);
      assert content[..p][1..] == content[1..][..p - 1];
      assert content[1..][p - 1..] == content[p..];
    } else {
      assert content[p..] == content;
    }
  }

  lemma CountStep(content: string, p: nat)
    requires p < |content|
    ensures Count(content[p..]) == Count(content[p + 1..]) + (if content[p] == '\n' then 1 else 0)
  {
    assert content[p..][1..] == content[p + 1..];
  }

  // What is known when everything from `from` on was scanned, or the n-th newline
  // was found and the rest of its chunk skipped.
  predicate Scanned(content: string, n: int, from: nat, linesFound: nat, startPos: nat)
    requires from <= |content|
  {
    && (n < 1 ==> startPos == 0)
    && (n >= 1 && linesFound < n ==> startPos == 0 && linesFound == Count(content[from..]))
    && (n >= 1 && linesFound >= n ==> IsStart(content, n, startPos))
  }

  // chunk is the size of the blocks the file is read in.
  method StartPosition(content: string, n: int, chunk: nat) returns (startPos: nat)
    requires chunk >= 1
    ensures IsStart(content, n, startPos)
  {
    var bufSize, linesFound, offset := chunk, 0, |content|;
    startPos := 0;
    assert Scanned(content, n, offset, linesFound, startPos);
    hide Scanned, Count, IsStart;
    while offset > 0 && linesFound <= n
      invariant 0 <= offset <= |content| && (offset > 0 ==> bufSize >= 1)
      invariant Scanned(content, n, offset, linesFound, startPos)
    {
      if offset < bufSize {
        bufSize := offset;
      }
      offset := offset - bufSize;
      var buf := content[offset..offset + bufSize];
      var i := |buf| - 1;
      while i >= 0
        invariant -1 <= i < |buf|
        invariant Scanned(content, n, offset + i + 1, linesFound, startPos)
      {
        ScanStep(content, n, offset + i, linesFound, startPos);
        if buf[i] == '\n' {
          linesFound := linesFound + 1;
          if linesFound == n {
            startPos := offset + i + 1;
            FoundEarly(content, n, offset + i, offset, linesFound, startPos);
            break;
          }
        }
        i := i - 1;
      }
    }
    ScanDone(content, n, offset, linesFound, startPos);
  }

  lemma ScanStep(content: string, n: int, p: nat, linesFound: nat, startPos: nat)
    requires p < |content| && Scanned(content, n, p + 1, linesFound, startPos)
    ensures content[p] != '\n' ==> Scanned(content, n, p, linesFound, startPos)
    ensures content[p] == '\n' && linesFound + 1 != n ==> Scanned(content, n, p, linesFound + 1, startPos)
    ensures content[p] == '\n' && linesFound + 1 == n ==> Scanned(content, n, p, n, p + 1)
  {
    CountStep(content, p);
    CountSuffix(content, p);
  }

  lemma FoundEarly(content: string, n: int, p: nat, offset: nat, linesFound: nat, startPos: nat)
    requires offset <= p < |content| && linesFound == n && Scanned(content, n, p, linesFound, startPos)
    ensures Scanned(content, n, offset, linesFound, startPos)
  {
  }

  lemma ScanDone(content: string, n: int, offset: nat, linesFound: nat, startPos: nat)
    requires offset <= |content| && Scanned(content, n, offset, linesFound, startPos)
    requires offset == 0 || linesFound > n
    ensures IsStart(content, n, startPos)
  {
    assert content[0..] == content;
  }

  // The start is determined by the content and n; the chunk size plays no part.
  lemma StartIsUnique(content: string, n: int, p: nat, q: nat)
    requires IsStart(content, n, p) && IsStart(content, n, q)
    ensures p == q
  {
    if p < q {
      CountBetween(content, p, q);
    } else if q < p {
      CountBetween(content, q, p);
    }
  }

  lemma CountBetween(content: string, p: nat, q: nat)
    requires 0 < p < q <= |content| && content[p - 1] == '\n'
    ensures Count(content[p - 1..]) > Count(content[q - 1..])
  {
    CountStep(content, p - 1);
    CountSuffix(content[p..], q - 1 - p);
    assert content[p..][q - 1 - p..] == content[q - 1..];
  }

  // The lines of a text: an unfinished last line counts, the nothing after a final
  // newline does not.
  function Lines(s: string): seq<string>
    decreases |s|
  {
    if s == "" then []
    else
      var end := IndexByte(s, '\n');
      if end < 0 then [s] else [s[..end]] + Lines(s[end + 1..])
  }

  // The first line of a text, and what follows it.
  function HeadOf(s: string): string {
    var end := IndexByte(s, '\n');
    if end < 0 then s else s[..end]
  }

  function RestOf(s: string): (r: string)
    ensures s != "" ==> |r| < |s|
  {
    var end := IndexByte(s, '\n');
    if end < 0 then "" else s[end + 1..]
  }

  lemma LinesCut(s: string)
    requires s != ""
    ensures Lines(s) == [HeadOf(s)] + Lines(RestOf(s))
  {
  }

  predicate Finished(s: string) {
    s == "" || s[|s| - 1] == '\n'
  }

  lemma {:induction false} NoNewline(s: string)
    requires IndexByte(s, '\n') < 0
    ensures Count(s) == 0
  {
    if s != "" {
      assert IndexByte(s[1..], '\n') < 0;
      NoNewline(s[1..]);
    }
  }

  lemma FirstLine(s: string, end: nat)
    requires IndexByte(s, '\n') == end
    ensures end < |s| && Count(s) == 1 + Count(s[end + 1..])
  {
    CountSuffix(s, end);
    CountStep(s, end);
    assert IndexByte(s[..end], '\n') < 0;
    NoNewline(s[..end]);
  }

  lemma {:induction false} LinesCounted(s: string)
    ensures |Lines(s)| == Count(s) + (if Finished(s) then 0 else 1)
    decreases |s|
  {
    hide *;
    EmptyCounts();
    if s != "" {
      LinesCut(s);
      CountCut(s);
      LinesCounted(RestOf(s));
    }
  }

  lemma CountCut(s: string)
    requires s != ""
    ensures Count(s) + (if Finished(s) then 0 else 1) == Count(RestOf(s)) + (if Finished(RestOf(s)) then 0 else 1) + 1
  {
    var end := IndexByte(s, '\n');
    EmptyCounts();
    if end < 0 {
      NoNewline(s);
    } else {
      FirstLine(s, end);
      RestFinished(s);
    }
    hide Count;
  }

  lemma RestFinished(s: string)
    requires IndexByte(s, '\n') >= 0
    ensures Finished(RestOf(s)) <==> Finished(s)
  {
    var end := IndexByte(s, '\n');
    hide IndexByte;
    assert end == |s| - 1 ==> s[|s| - 1] == '\n';
    assert end < |s| - 1 ==> s[end + 1..][|s| - end - 2] == s[|s| - 1];
  }

  lemma EmptyCounts()
    ensures Count("") == 0 && Lines("") == [] && Finished("")
  {
  }

  // Cutting a text after a newline cuts its list of lines.
  lemma {:induction false} LinesSplit(a: string, b: string)
    requires Finished(a)
    ensures Lines(a + b) == Lines(a) + Lines(b)
    decreases |a|
  {
    hide *;
    if a == "" {
      EmptyCounts();
      assert a + b == b;
      assert Lines(a) + Lines(b) == Lines(b);
    } else {
      CutInFront(a, b);
      LinesCut(a);
      LinesCut(a + b);
      LinesSplit(RestOf(a), b);
      assert [HeadOf(a)] + (Lines(RestOf(a)) + Lines(b)) == ([HeadOf(a)] + Lines(RestOf(a))) + Lines(b);
    }
  }

  lemma CutInFront(a: string, b: string)
    requires Finished(a) && a != ""
    ensures HeadOf(a + b) == HeadOf(a) && RestOf(a + b) == RestOf(a) + b && Finished(RestOf(a))
  {
    assert a[|a| - 1] in a;
    RestFinished(a);
    IndexInFront(a, b);
    var end := IndexByte(a, '\n');
    CutConcat(a, b, end);
    CutConcat(a, b, end + 1);
    hide IndexByte, Finished;
  }

  lemma IndexInFront(a: string, b: string)
    requires IndexByte(a, '\n') >= 0
    ensures IndexByte(a + b, '\n') == IndexByte(a, '\n')
  {
    var i := IndexByte(a, '\n');
    assert (a + b)[i] == '\n' && forall j | 0 <= j < i :: (a + b)[j] == a[j];
  }

  // bufio.MaxScanTokenSize: the scanner gives up, for good, at the first line of
  // this length or more.
  const MAX_TOKEN: nat := 65536

  function WithoutCR(l: string): string {
    if l != "" && l[|l| - 1] == '\r' then l[..|l| - 1] else l
  }

  // What the loop over bufio.Scanner prints.
  function Printed(s: string): seq<string>
    decreases |s|
  {
    if s == "" then []
    else
      var end := IndexByte(s, '\n');
      if (if end < 0 then |s| else end) >= MAX_TOKEN then []
      else if end < 0 then [WithoutCR(s)]
      else [WithoutCR(s[..end])] + Printed(s[end + 1..])
  }

  function Texts(ls: seq<string>): (ts: seq<string>)
    ensures |ts| == |ls| && forall i :: 0 <= i < |ls| ==> ts[i] == WithoutCR(ls[i])
  {
    seq(|ls|, i requires 0 <= i < |ls| => WithoutCR(ls[i]))
  }

  predicate AllFit(ls: seq<string>) {
    forall i :: 0 <= i < |ls| ==> |ls[i]| < MAX_TOKEN
  }

  // All lines are printed if and only if none is too long; otherwise fewer are.
  lemma {:induction false} PrintedIff(s: string)
    ensures AllFit(Lines(s)) ==> Printed(s) == Texts(Lines(s))
    ensures !AllFit(Lines(s)) ==> |Printed(s)| < |Lines(s)|
    decreases |s|
  {
    hide *;
    if s == "" {
      NothingPrinted();
    } else {
      var head, rest := HeadOf(s), RestOf(s);
      LinesCut(s);
      PrintedCut(s);
      PrintedIff(rest);
      FitSplit([head], Lines(rest));
      FitOne(head);
      TextsSplit(head, Lines(rest));
    }
  }

  lemma PrintedCut(s: string)
    requires s != ""
    ensures Printed(s) == if |HeadOf(s)| >= MAX_TOKEN then [] else [WithoutCR(HeadOf(s))] + Printed(RestOf(s))
  {
  }

  lemma NothingPrinted()
    ensures Lines("") == [] && Printed("") == [] && AllFit([]) && Texts([]) == []
  {
  }

  lemma FitOne(l: string)
    ensures AllFit([l]) <==> |l| < MAX_TOKEN
  {
    assert [l][0] == l;
  }

  lemma TextsSplit(head: string, tail: seq<string>)
    ensures Texts([head] + tail) == [WithoutCR(head)] + Texts(tail)
  {
  }

  lemma FitSplit(a: seq<string>, b: seq<string>)
    ensures AllFit(a + b) <==> AllFit(a) && AllFit(b)
  {
    var all := a + b;
    assert forall i :: 0 <= i < |a| ==> all[i] == a[i];
    assert forall i :: 0 <= i < |b| ==> all[|a| + i] == b[i];
  }

  function Min(a: int, b: int): int {
    if a <= b then a else b
  }

  // From the start position on there are as many lines as the file has, but no more
  // than n, or n - 1 when it ends with a newline; and they are its last ones.
  lemma LinesFromStart(content: string, n: int, pos: nat)
    requires n >= 1 && IsStart(content, n, pos)
    ensures pos <= |content|
    ensures Lines(content) == Lines(content[..pos]) + Lines(content[pos..])
    ensures |Lines(content[pos..])| == Min(|Lines(content)|, if Finished(content) then n - 1 else n)
  {
    LinesCounted(content);
    if Count(content) < n {
      assert content[pos..] == content && content[..pos] == "";
    } else {
      LinesCounted(content[pos..]);
      CutAfterNewline(content, pos);
    }
  }

  lemma CutAfterNewline(content: string, pos: nat)
    requires 0 < pos <= |content| && content[pos - 1] == '\n'
    ensures Lines(content) == Lines(content[..pos]) + Lines(content[pos..])
    ensures Finished(content[pos..]) <==> Finished(content)
    ensures Count(content[pos - 1..]) == Count(content[pos..]) + 1
  {
    hide Lines;
    CountStep(content, pos - 1);
    var front, tail := content[..pos], content[pos..];
    assert content == front + tail && front[pos - 1] == '\n';
    LinesSplit(front, tail);
    assert tail != "" ==> tail[|tail| - 1] == content[|content| - 1];
  }

  // The last n lines of a text, or all of them.
  function LastLines(s: string, n: nat): seq<string> {
    var ls := Lines(s);
    if n <= |ls| then ls[|ls| - n..] else ls
  }

  // The last n lines are printed if and only if none of those that the scanner is
  // given reaches the limit, and either the file does not end with a newline or it
  // has fewer than n lines anyway.
  lemma PrintedLinesIff(content: string, n: nat, pos: nat)
    requires n >= 1 && IsStart(content, n, pos)
    ensures pos <= |content|
    ensures Printed(content[pos..]) == Texts(LastLines(content, n)) <==>
      (&& (Finished(content) ==> |Lines(content)| < n)
       && AllFit(LastLines(content, n)))
  {
    LinesFromStart(content, n, pos);
    PrintedIff(content[pos..]);
    hide Printed, Lines, AllFit, IsStart, Texts;
    var front, back := Lines(content[..pos]), Lines(content[pos..]);
    if Finished(content) && |Lines(content)| >= n {
      assert |Printed(content[pos..])| <= n - 1;
    } else {
      assert LastLines(content, n) == back;
    }
  }

  // A file that ends with a newline: asked for one line, none is printed.
  lemma FinishedPrintsFewer(l: string, pos: nat)
    requires '\n' !in l && IsStart(l + "\n", 1, pos)
    ensures pos == |l| + 1 && Printed((l + "\n")[pos..]) == []
  {
    var content := l + "\n";
    CountSuffix(content, |l|);
    CountStep(content, |l|);
    assert content[|l| + 1..] == "" && content[|l|] == '\n';
    assert IsStart(content, 1, |l| + 1);
    StartIsUnique(content, 1, pos, |l| + 1);
  }

  // A file that is one line of the limit's length or more, without a newline: nothing
  // is printed, however many lines are asked for.
  lemma OverlongPrintsNothing(content: string, n: int, pos: nat)
    requires n >= 1 && '\n' !in content && |content| >= MAX_TOKEN && IsStart(content, n, pos)
    ensures pos == 0 && Printed(content[pos..]) == [] && Lines(content) == [content]
  {
    NoNewline(content);
    assert content[0..] == content;
  }
}
