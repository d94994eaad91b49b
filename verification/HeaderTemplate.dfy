// headers.go: the small language of add-header values. A raw value is compiled to
// segments once, at load time, and evaluated for every request.
//
//   ${name}   a variable        \${   the two characters ${
//
// An unknown variable and a ${ without } stand for themselves.
module HeaderTemplate {
  import opened GoStrings
  import opened HttpHeader
  import opened TrustedXff

  datatype Segment =
    | Literal(text: string)
    | Host
    | RemoteAddr
    | RemotePort
    | Scheme
    | RequestURI
    | TrustedXFF
    | HeaderName(name: string)

  datatype ParsedHeaderValue = ParsedHeaderValue(segments: seq<Segment>, isConst: bool)

  // resolveVarName
  function ResolveVarName(name: string): (seg: Segment)
    ensures seg.Literal? ==> seg.text != ""
  {
    if name == "host" then Host
    else if name == "remote_addr" then RemoteAddr
    else if name == "remote_port" then RemotePort
    else if name == "scheme" then Scheme
    else if name == "request_uri" then RequestURI
    else if name == "trusted_xff" then TrustedXFF
    else if "header." <= name then HeaderName(name[7..])
    else Literal("${" + name + "}")
  }

  // Reading a raw value from left to right

  predicate AtOpen(s: string) {
    |s| >= 2 && s[0] == '$' && s[1] == '{'
  }

  predicate AtEscape(s: string) {
    |s| >= 3 && s[0] == '\\' && AtOpen(s[1..])
  }

  // The meaning of the shortest construct at the front of s, and what follows it.
  function Token(s: string): (t: (Segment, string))
    requires s != ""
    ensures |t.1| < |s|
  {
    if AtEscape(s) then (Literal("${"), s[3..])
    else if AtOpen(s) then
      var rest := s[2..];
      var close := IndexByte(rest, '}');
      if close < 0 then (Literal("${"), rest)
      else (ResolveVarName(rest[..close]), rest[close + 1..])
    else (Literal([s[0]]), s[1..])
  }

  // Everything a value can refer to at request time.
  datatype Context = Context(
    host: string, clientIP: string, clientPort: string, scheme: string, requestURI: string,
    xff: seq<string>, trust: Trust, original: Header)

  function SegmentValue(seg: Segment, ctx: Context): string {
    match seg
    case Literal(text) => text
    case Host => ctx.host
    case RemoteAddr => ctx.clientIP
    case RemotePort => ctx.clientPort
    case Scheme => ctx.scheme
    case RequestURI => ctx.requestURI
    case TrustedXFF => TrustedXff.Resolve(ctx.xff, ctx.trust, ctx.clientIP)
    case HeaderName(name) => Get(ctx.original, name)
  }

  // The direct reading of a raw value: no segments, no merging, no shortcut.
  function Interpret(raw: string, ctx: Context): string
    decreases |raw|
  {
    if raw == "" then ""
    else
      var (seg, rest) := Token(raw);
      SegmentValue(seg, ctx) + Interpret(rest, ctx)
  }

  // Some ${...} in the raw value is a variable the compiler knows.
  predicate HasVariable(raw: string)
    decreases |raw|
  {
    raw != "" && (!Token(raw).0.Literal? || HasVariable(Token(raw).1))
  }

  // Segments

  predicate EndsInLiteral(segs: seq<Segment>) {
    |segs| > 0 && segs[|segs| - 1].Literal?
  }

  function AppendLit(segs: seq<Segment>, lit: string): seq<Segment> {
    if lit == "" then segs
    else if EndsInLiteral(segs) then
      segs[..|segs| - 1] + [Literal(segs[|segs| - 1].text + lit)]
    else segs + [Literal(lit)]
  }

  function AppendSeg(segs: seq<Segment>, seg: Segment): seq<Segment> {
    if seg.Literal? then AppendLit(segs, seg.text) else segs + [seg]
  }

  function Scan(acc: seq<Segment>, s: string): seq<Segment>
    decreases |s|
  {
    if s == "" then acc
    else
      var (seg, rest) := Token(s);
      Scan(AppendSeg(acc, seg), rest)
  }

  function Finish(segs: seq<Segment>): ParsedHeaderValue {
    var segs := if |segs| == 0 then [Literal("")] else segs;
    ParsedHeaderValue(segs, |segs| == 1 && segs[0].Literal?)
  }

  function Compiled(raw: string): ParsedHeaderValue {
    Finish(Scan([], raw))
  }

  lemma AppendLitTwice(segs: seq<Segment>, a: string, b: string)
    ensures AppendLit(AppendLit(segs, a), b) == AppendLit(segs, a + b)
  {
    if a == "" {
      assert a + b == b;
    } else if b == "" {
      assert a + b == a;
    } else if EndsInLiteral(segs) {
      var last := segs[|segs| - 1].text;
      assert last + a + b == last + (a + b);
    }
  }

  lemma ScanStep(acc: seq<Segment>, s: string, seg: Segment, rest: string)
    requires s != "" && Token(s) == (seg, rest)
    ensures Scan(acc, s) == Scan(AppendSeg(acc, seg), rest)
  {
    hide Token, AppendSeg;
  }

  lemma AppendSegVariable(acc: seq<Segment>, seg: Segment)
    requires !seg.Literal?
    ensures AppendSeg(acc, seg) == acc + [seg]
  {
  }

  lemma AppendSegLiteral(acc: seq<Segment>, text: string)
    ensures AppendSeg(acc, Literal(text)) == AppendLit(acc, text)
  {
  }

  lemma AppendNothing(acc: seq<Segment>)
    ensures AppendLit(acc, "") == acc
  {
  }

  lemma TokenOfChar(c: char, tail: string)
    requires !AtOpen([c] + tail)
    requires c == '\\' ==> !AtOpen(tail)
    ensures Token([c] + tail) == (Literal([c]), tail)
  {
    hide ResolveVarName;
    assert ([c] + tail)[1..] == tail;
  }

  // A stretch of text in which no ${ starts is one literal.
  lemma {:induction false} ScanPlain(acc: seq<Segment>, s: string, k: nat)
    requires k <= |s|
    requires forall i | 0 <= i < k :: !AtOpen(s[i..]) && !AtEscape(s[i..])
    ensures Scan(acc, s) == Scan(AppendLit(acc, s[..k]), s[k..])
    decreases k
  {
    hide Token, AppendSeg, AppendLit, Scan;
    assert s[0..] == s;
    if k == 0 {
      AppendNothing(acc);
      assert s[..0] == "";
    } else {
      TokenOfChar(s[0], s[1..]);
      assert [s[0]] + s[1..] == s;
      ScanStep(acc, s, Literal([s[0]]), s[1..]);
      AppendSegLiteral(acc, [s[0]]);
      forall i | 0 <= i < k - 1 ensures !AtOpen(s[1..][i..]) && !AtEscape(s[1..][i..]) {
        assert s[1..][i..] == s[i + 1..];
      }
      ScanPlain(AppendLit(acc, [s[0]]), s[1..], k - 1);
      AppendLitTwice(acc, [s[0]], s[1..][..k - 1]);
      assert [s[0]] + s[1..][..k - 1] == s[..k];
      assert s[1..][k - 1..] == s[k..];
    }
  }

  lemma OpenIsIndexed(s: string, i: nat)
    requires i <= |s|
    ensures AtOpen(s[i..]) <==> OccursAt(s, "${", i)
  {
    if AtOpen(s[i..]) {
      assert s[i..][..2] == "${";
    }
  }

  // What strings.Index tells about the constructs in s.
  lemma IndexFindsOpen(s: string)
    ensures var idx := Index(s, "${");
            && (idx >= 0 ==> AtOpen(s[idx..]))
            && (forall i | 0 <= i <= |s| && (idx < 0 || i < idx) :: !AtOpen(s[i..]))
            && (forall i | 0 <= i <= |s| && (idx < 0 || i + 1 < idx) :: !AtEscape(s[i..]))
            && (idx > 0 ==> (AtEscape(s[idx - 1..]) <==> s[idx - 1] == '\\'))
  {
    var idx := Index(s, "${");
    if idx >= 0 {
      OpenIsIndexed(s, idx);
    }
    forall i | 0 <= i <= |s| && (idx < 0 || i < idx) ensures !AtOpen(s[i..]) {
      OpenIsIndexed(s, i);
    }
    forall i | 0 <= i <= |s| && (idx < 0 || i + 1 < idx) ensures !AtEscape(s[i..]) {
      if i < |s| {
        assert s[i..][1..] == s[i + 1..];
      }
    }
    if idx > 0 {
      assert s[idx - 1..][1..] == s[idx..];
    }
  }

  // The three constructs the loop of the compiler finds at position idx.

  lemma ScanToEscape(segs: seq<Segment>, s: string, idx: nat)
    requires 0 < idx && AtOpen'(s, idx) && s[idx - 1] == '\\'
    requires forall i | 0 <= i < idx - 1 :: !AtOpen(s[i..]) && !AtEscape(s[i..])
    ensures Scan(segs, s) == Scan(AppendLit(segs, s[..idx - 1] + "${"), s[idx + 2..])
  {
    hide *;
    EscapeStands(s, idx);
    ScanPlain(segs, s, idx - 1);
    var t := s[idx - 1..];
    var acc := AppendLit(segs, s[..idx - 1]);
    TokenAtEscape(t);
    ScanStep(acc, t, Literal("${"), t[3..]);
    AppendSegLiteral(acc, "${");
    AppendLitTwice(segs, s[..idx - 1], "${");
  }

  lemma EscapeStands(s: string, idx: nat)
    requires 0 < idx && AtOpen'(s, idx) && s[idx - 1] == '\\'
    ensures idx + 2 <= |s| && AtEscape(s[idx - 1..]) && s[idx - 1..][3..] == s[idx + 2..]
  {
    assert s[idx - 1..][1..] == s[idx..];
  }

  lemma TokenAtEscape(t: string)
    requires AtEscape(t)
    ensures t != "" && |t| >= 3 && Token(t) == (Literal("${"), t[3..])
  {
    hide ResolveVarName;
  }

  lemma ScanToOpen(segs: seq<Segment>, s: string, idx: nat)
    requires AtOpen'(s, idx)
    requires forall i | 0 <= i < idx :: !AtOpen(s[i..]) && !AtEscape(s[i..])
    ensures var acc, rest := AppendLit(segs, s[..idx]), s[idx + 2..];
            var close := IndexByte(rest, '}');
            Scan(segs, s) ==
            if close < 0 then Scan(AppendLit(acc, "${"), rest)
            else Scan(AppendSeg(acc, ResolveVarName(rest[..close])), rest[close + 1..])
  {
    hide ResolveVarName, AppendLit;
    ScanPlain(segs, s, idx);
    var t := s[idx..];
    assert t[2..] == s[idx + 2..];
    assert !AtEscape(t);
  }

  predicate AtOpen'(s: string, idx: nat) {
    idx + 2 <= |s| && AtOpen(s[idx..])
  }

  // One iteration of the loop, by what strings.Index finds.

  lemma NoneFound(segs: seq<Segment>, s: string)
    requires Index(s, "${") < 0
    ensures Scan(segs, s) == Scan(AppendLit(segs, s), "")
  {
    hide Scan, AppendLit, Token, AtOpen, AtEscape;
    IndexFindsOpen(s);
    ScanPlain(segs, s, |s|);
    assert s[..|s|] == s && s[|s|..] == "";
  }

  lemma EscapeFound(segs: seq<Segment>, s: string, idx: nat)
    requires idx == Index(s, "${") && 0 < idx && s[idx - 1] == '\\'
    ensures idx + 2 <= |s| && Scan(segs, s) == Scan(AppendLit(segs, s[..idx - 1] + "${"), s[idx + 2..])
  {
    hide Scan, AppendLit, Token, AtEscape;
    IndexFindsOpen(s);
    ScanToEscape(segs, s, idx);
  }

  lemma OpenFound(segs: seq<Segment>, s: string, idx: nat)
    requires idx == Index(s, "${") && (idx > 0 ==> s[idx - 1] != '\\')
    ensures idx + 2 <= |s|
    ensures var acc, rest := AppendLit(segs, s[..idx]), s[idx + 2..];
            var close := IndexByte(rest, '}');
            Scan(segs, s) ==
            if close < 0 then Scan(AppendLit(acc, "${"), rest)
            else Scan(AppendSeg(acc, ResolveVarName(rest[..close])), rest[close + 1..])
  {
    hide Scan, AppendLit, AppendSeg, Token, AtEscape, ResolveVarName;
    IndexFindsOpen(s);
    ScanToOpen(segs, s, idx);
  }

  lemma AppendSegIs(segs: seq<Segment>, seg: Segment)
    requires seg.Literal? ==> seg.text != ""
    ensures AppendSeg(segs, seg) ==
      if |segs| > 0 && seg.Literal? && segs[|segs| - 1].Literal?
      then segs[..|segs| - 1] + [Literal(segs[|segs| - 1].text + seg.text)]
      else segs + [seg]
  {
  }

  lemma FinishIs(segs: seq<Segment>, raw: string)
    requires Scan(segs, "") == Scan([], raw)
    ensures Compiled(raw) == Finish(segs)
  {
  }

  // compileHeaderValue
  method CompileHeaderValue(raw: string) returns (ph: ParsedHeaderValue)
    ensures ph == Compiled(raw)
  {
    hide Token, ResolveVarName, Scan, AppendSeg, AppendLit, Index, IndexByte, OccursAt, Compiled;
    var segs: seq<Segment> := [];
    var s := raw;
    while |s| > 0
      invariant Scan(segs, s) == Scan([], raw)
      decreases |s|
    {
      var idx := Index(s, "${");
      if idx < 0 {
        NoneFound(segs, s);
        segs := AppendLit(segs, s);
        s := "";
        break;
      }
      if idx > 0 && s[idx - 1] == '\\' {
        EscapeFound(segs, s, idx);
        segs := AppendLit(segs, s[..idx - 1] + "${");
        s := s[idx + 2..];
        continue;
      }
      OpenFound(segs, s, idx);
      segs := AppendLit(segs, s[..idx]);
      s := s[idx + 2..];
      var close := IndexByte(s, '}');
      if close < 0 {
        segs := AppendLit(segs, "${");
        continue;
      }
      var varName := s[..close];
      s := s[close + 1..];
      var seg := ResolveVarName(varName);
      AppendSegIs(segs, seg);
      if |segs| > 0 && seg.Literal? && segs[|segs| - 1].Literal? {
        segs := segs[..|segs| - 1] + [Literal(segs[|segs| - 1].text + seg.text)];
      } else {
        segs := segs + [seg];
      }
    }
    FinishIs(segs, raw);
    if |segs| == 0 {
      segs := [Literal("")];
    }
    ph := ParsedHeaderValue(segs, |segs| == 1 && segs[0].Literal?);
  }

  // Evaluation

  // The concatenation of all segment values.
  function Render(segs: seq<Segment>, ctx: Context): string {
    if segs == [] then ""
    else Render(segs[..|segs| - 1], ctx) + SegmentValue(segs[|segs| - 1], ctx)
  }

  // eval, with its shortcut for constants.
  method Eval(ph: ParsedHeaderValue, ctx: Context) returns (r: string)
    requires ph.isConst ==> |ph.segments| > 0 && ph.segments[0].Literal?
    ensures ph.isConst ==> r == ph.segments[0].text
    ensures !ph.isConst ==> r == Render(ph.segments, ctx)
  {
    if ph.isConst {
      return ph.segments[0].text;
    }
    r := "";
    for i := 0 to |ph.segments|
      invariant r == Render(ph.segments[..i], ctx)
    {
      var seg := ph.segments[i];
      match seg {
        case Literal(text) => r := r + text;
        case Host => r := r + ctx.host;
        case RemoteAddr => r := r + ctx.clientIP;
        case RemotePort => r := r + ctx.clientPort;
        case Scheme => r := r + ctx.scheme;
        case RequestURI => r := r + ctx.requestURI;
        case TrustedXFF =>
          var v := EvalTrustedXff(ctx.xff, ctx.trust, ctx.clientIP);
          r := r + v;
        case HeaderName(name) => r := r + Get(ctx.original, name);
      }
      assert ph.segments[..i + 1][..i] == ph.segments[..i];
    }
    assert ph.segments[..|ph.segments|] == ph.segments;
  }

  // The value eval returns for a compiled header.
  function Value(ph: ParsedHeaderValue, ctx: Context): string
    requires ph.isConst ==> |ph.segments| > 0 && ph.segments[0].Literal?
  {
    if ph.isConst then ph.segments[0].text else Render(ph.segments, ctx)
  }

  lemma RenderAppend(segs: seq<Segment>, seg: Segment, ctx: Context)
    ensures Render(AppendSeg(segs, seg), ctx) == Render(segs, ctx) + SegmentValue(seg, ctx)
  {
    var out := AppendSeg(segs, seg);
    if seg == Literal("") {
      assert Render(segs, ctx) + "" == Render(segs, ctx);
    } else {
      var init := out[..|out| - 1];
      assert Render(out, ctx) == Render(init, ctx) + SegmentValue(out[|out| - 1], ctx);
      if seg.Literal? && EndsInLiteral(segs) {
        assert init == segs[..|segs| - 1];
        assert Render(init, ctx) + (segs[|segs| - 1].text + seg.text)
            == Render(init, ctx) + segs[|segs| - 1].text + seg.text;
      } else {
        assert init == segs;
      }
    }
  }

  lemma {:induction false} RenderScan(acc: seq<Segment>, s: string, ctx: Context)
    ensures Render(Scan(acc, s), ctx) == Render(acc, ctx) + Interpret(s, ctx)
    decreases |s|
  {
    hide Token, AppendSeg, Render, SegmentValue;
    if s == "" {
      assert Render(acc, ctx) + "" == Render(acc, ctx);
    } else {
      var (seg, rest) := Token(s);
      RenderAppend(acc, seg, ctx);
      RenderScan(AppendSeg(acc, seg), rest, ctx);
      assert Render(acc, ctx) + SegmentValue(seg, ctx) + Interpret(rest, ctx)
          == Render(acc, ctx) + (SegmentValue(seg, ctx) + Interpret(rest, ctx));
    }
  }

  // Compilation preserves meaning, and the constant shortcut is sound.
  lemma CompilePreservesMeaning(raw: string, ctx: Context)
    ensures Value(Compiled(raw), ctx) == Interpret(raw, ctx)
  {
    RenderScan([], raw, ctx);
    var segs := Compiled(raw).segments;
    assert Render([], ctx) + Interpret(raw, ctx) == Interpret(raw, ctx);
    if |segs| == 1 {
      assert segs[..0] == [];
      assert "" + SegmentValue(segs[0], ctx) == SegmentValue(segs[0], ctx);
      assert Render(segs, ctx) == SegmentValue(segs[0], ctx);
    }
  }

  // The form of compiled values

  // No adjacent and no empty literals, no header name with a brace, and no
  // backslash in front of a variable: the segment lists that can be written down.
  ghost predicate Canonical'(segs: seq<Segment>) {
    forall i | 0 <= i < |segs| :: CanonicalAt(segs, i)
  }

  predicate CanonicalAt(segs: seq<Segment>, i: nat)
    requires i < |segs|
  {
    && (segs[i].Literal? ==> segs[i].text != "")
    && (segs[i].HeaderName? ==> '}' !in segs[i].name)
    && (segs[i].Literal? && i + 1 < |segs| ==>
          !segs[i + 1].Literal? && segs[i].text[|segs[i].text| - 1] != '\\')
  }

  ghost predicate Printable(segs: seq<Segment>) {
    segs == [Literal("")] || (|segs| > 0 && Canonical'(segs))
  }

  predicate EndsInBackslash(segs: seq<Segment>) {
    EndsInLiteral(segs) && var t := segs[|segs| - 1].text; t != "" && t[|t| - 1] == '\\'
  }

  // What a single construct contributes.
  lemma TokenShape(s: string)
    requires s != ""
    ensures var (seg, rest) := Token(s);
            && (!seg.Literal? ==> AtOpen(s))
            && (seg.HeaderName? ==> '}' !in seg.name)
            && (seg.Literal? ==> seg.text != "")
            && (EndsInBackslash([seg]) ==> !AtOpen(rest))
  {
  }

  lemma AppendSegCanonical(acc: seq<Segment>, seg: Segment)
    requires Canonical'(acc)
    requires EndsInBackslash(acc) ==> seg.Literal?
    requires Canonical'([seg])
    ensures Canonical'(AppendSeg(acc, seg))
    ensures |AppendSeg(acc, seg)| >= 1
    ensures EndsInBackslash(AppendSeg(acc, seg)) ==> EndsInBackslash([seg])
    ensures HasVar(AppendSeg(acc, seg)) <==> HasVar(acc) || !seg.Literal?
  {
    assert CanonicalAt([seg], 0);
    AppendSegForm(acc, seg);
    AppendSegHasVar(acc, seg);
    hide HasVar, AppendSeg;
  }

  lemma AppendSegForm(acc: seq<Segment>, seg: Segment)
    requires Canonical'(acc)
    requires EndsInBackslash(acc) ==> seg.Literal?
    requires Canonical'([seg])
    ensures Canonical'(AppendSeg(acc, seg)) && |AppendSeg(acc, seg)| >= 1
    ensures EndsInBackslash(AppendSeg(acc, seg)) ==> EndsInBackslash([seg])
  {
    hide HasVar;
    assert CanonicalAt([seg], 0);
    var out := AppendSeg(acc, seg);
    forall i | 0 <= i < |out| ensures CanonicalAt(out, i) {
      assert i < |acc| ==> CanonicalAt(acc, i);
    }
  }

  lemma AppendSegHasVar(acc: seq<Segment>, seg: Segment)
    requires seg.Literal? ==> seg.text != ""
    ensures HasVar(AppendSeg(acc, seg)) <==> HasVar(acc) || !seg.Literal?
  {
    var out := AppendSeg(acc, seg);
    if !seg.Literal? {
      assert out[|acc|] == seg;
    } else {
      assert |out| <= |acc| + 1 && (|out| == |acc| + 1 ==> out[|acc|] == seg);
    }
    forall i | 0 <= i < |acc| ensures acc[i].Literal? <==> out[i].Literal? {}
  }

  ghost predicate HasVar(segs: seq<Segment>) {
    exists i :: 0 <= i < |segs| && !segs[i].Literal?
  }

  lemma {:induction false} ScanCanonical(acc: seq<Segment>, s: string)
    requires Canonical'(acc)
    requires EndsInBackslash(acc) ==> !AtOpen(s)
    ensures Canonical'(Scan(acc, s))
    ensures s != "" || acc != [] ==> |Scan(acc, s)| >= 1
    ensures HasVar(Scan(acc, s)) <==> HasVar(acc) || HasVariable(s)
    decreases |s|
  {
    hide Token, AppendSeg, AtOpen, HasVar, EndsInBackslash;
    if s != "" {
      var (seg, rest) := Token(s);
      TokenShape(s);
      AppendSegCanonical(acc, seg);
      ScanCanonical(AppendSeg(acc, seg), rest);
    }
  }

  // Every compiled value is canonical.
  lemma CompiledIsPrintable(raw: string)
    ensures Printable(Compiled(raw).segments)
  {
    ScanCanonical([], raw);
  }

  // isConst holds exactly when no variable occurs in the raw value.
  lemma ConstIffNoVariable(raw: string)
    ensures Compiled(raw).isConst <==> !HasVariable(raw)
  {
    ScanCanonical([], raw);
    var segs := Scan([], raw);
    if |segs| >= 2 {
      assert CanonicalAt(segs, 0);
      assert !segs[0].Literal? || !segs[1].Literal?;
    }
  }

  // Printing compiled values

  // Writes text so that the compiler reads it literally.
  function Escape(text: string): string {
    if text == "" then ""
    else if AtOpen(text) then "\\${" + Escape(text[2..])
    else [text[0]] + Escape(text[1..])
  }

  function VarName(seg: Segment): string
    requires !seg.Literal?
  {
    match seg
    case Host => "host"
    case RemoteAddr => "remote_addr"
    case RemotePort => "remote_port"
    case Scheme => "scheme"
    case RequestURI => "request_uri"
    case TrustedXFF => "trusted_xff"
    case HeaderName(name) => "header." + name
  }

  function PrintSegment(seg: Segment): string {
    if seg.Literal? then Escape(seg.text) else "${" + VarName(seg) + "}"
  }

  function Print(segs: seq<Segment>): string {
    if segs == [] then "" else PrintSegment(segs[0]) + Print(segs[1..])
  }

  lemma EscapeEmpty()
    ensures Escape("") == "" && !AtOpen("")
  {
  }

  // Escaped text followed by the end or by a variable never opens a variable.
  lemma EscapeNeverOpens(text: string, rest: string)
    requires rest == "" || AtOpen(rest)
    requires text != ""
    ensures !AtOpen(Escape(text) + rest)
  {
    if !AtOpen(text) {
      var tail := text[1..];
      if tail == "" {
        assert Escape(text) == [text[0]];
      } else {
        assert Escape(tail)[0] == '\\' || Escape(tail)[0] == tail[0];
        assert (Escape(text) + rest)[1] == Escape(tail)[0];
      }
    }
  }

  lemma EscapeUnfold(text: string, rest: string)
    requires text != ""
    ensures Escape(text) + rest
         == if AtOpen(text) then "\\${" + (Escape(text[2..]) + rest)
            else [text[0]] + (Escape(text[1..]) + rest)
  {
  }

  lemma TokenOfEscape(rest: string)
    ensures "\\${" + rest != ""
    ensures Token("\\${" + rest) == (Literal("${"), rest)
  {
    hide ResolveVarName;
    var s := "\\${" + rest;
    assert s[3..] == rest;
    assert s[1] == '$' && s[2] == '{';
  }

  // One construct of an escaped literal is read back as its text.
  lemma TokenOfEscapedOpen(text: string, rest: string)
    requires AtOpen(text)
    ensures Escape(text) + rest != ""
    ensures Token(Escape(text) + rest) == (Literal("${"), Escape(text[2..]) + rest)
  {
    hide Token, Escape;
    EscapeUnfold(text, rest);
    TokenOfEscape(Escape(text[2..]) + rest);
  }

  lemma TokenOfEscapedChar(text: string, rest: string)
    requires text != "" && !AtOpen(text)
    requires rest == "" || AtOpen(rest)
    requires rest != "" ==> text[|text| - 1] != '\\'
    ensures Escape(text) + rest != ""
    ensures Token(Escape(text) + rest) == (Literal([text[0]]), Escape(text[1..]) + rest)
  {
    hide Token, Escape;
    var tail := Escape(text[1..]) + rest;
    EscapeUnfold(text, rest);
    EscapeNeverOpens(text, rest);
    TailNeverOpens(text, rest);
    hide AtOpen;
    TokenOfChar(text[0], tail);
  }

  lemma TailNeverOpens(text: string, rest: string)
    requires text != ""
    requires rest == "" || AtOpen(rest)
    requires rest != "" ==> text[|text| - 1] != '\\'
    ensures text[0] == '\\' ==> !AtOpen(Escape(text[1..]) + rest)
  {
    hide Escape;
    if |text| > 1 {
      EscapeNeverOpens(text[1..], rest);
    } else {
      EscapeEmpty();
      assert text[1..] == "";
      assert Escape(text[1..]) + rest == rest;
    }
  }

  lemma ScanEscapedStep(acc: seq<Segment>, text: string, rest: string, k: nat)
    requires text != ""
    requires rest == "" || AtOpen(rest)
    requires rest != "" ==> text[|text| - 1] != '\\'
    requires k == if AtOpen(text) then 2 else 1
    ensures Scan(acc, Escape(text) + rest) == Scan(AppendLit(acc, text[..k]), Escape(text[k..]) + rest)
  {
    hide Token, AppendSeg, AppendLit, Scan, Escape;
    var next := Escape(text[k..]) + rest;
    if k == 2 {
      TokenOfEscapedOpen(text, rest);
      assert text[0] == '$' && text[1] == '{';
      assert text[..2] == "${";
    } else {
      TokenOfEscapedChar(text, rest);
      assert text[..1] == [text[0]];
    }
    ScanStep(acc, Escape(text) + rest, Literal(text[..k]), next);
    AppendSegLiteral(acc, text[..k]);
  }

  lemma {:induction false} ScanEscaped(acc: seq<Segment>, text: string, rest: string)
    requires rest == "" || AtOpen(rest)
    requires text != "" && rest != "" ==> text[|text| - 1] != '\\'
    ensures Scan(acc, Escape(text) + rest) == Scan(AppendLit(acc, text), rest)
    decreases |text|
  {
    hide Scan, AppendLit, Escape;
    if text == "" {
      EscapeEmpty();
      AppendNothing(acc);
      assert Escape(text) + rest == rest;
    } else {
      var k := if AtOpen(text) then 2 else 1;
      ScanEscapedStep(acc, text, rest, k);
      ScanEscaped(AppendLit(acc, text[..k]), text[k..], rest);
      AppendLitTwice(acc, text[..k], text[k..]);
      assert text[..k] + text[k..] == text;
    }
  }

  lemma TokenOfVariable(seg: Segment, rest: string)
    requires !seg.Literal?
    requires seg.HeaderName? ==> '}' !in seg.name
    ensures PrintSegment(seg) + rest != ""
    ensures Token(PrintSegment(seg) + rest) == (seg, rest)
  {
    assert PrintSegment(seg) == "${" + VarName(seg) + "}";
    hide *;
    ResolveVarNameOfVariable(seg);
    TokenOfReference(VarName(seg), rest);
  }

  lemma TokenOfReference(name: string, rest: string)
    requires '}' !in name
    ensures "${" + name + "}" + rest != ""
    ensures Token("${" + name + "}" + rest) == (ResolveVarName(name), rest)
  {
    hide ResolveVarName;
    var s := "${" + name + "}" + rest;
    var after := name + "}" + rest;
    assert s[2..] == after && s[0] == '$' && s[1] == '{';
    assert after[|name|] == '}' && after[..|name|] == name && after[|name| + 1..] == rest;
    assert IndexByte(after, '}') == |name|;
    hide IndexByte;
  }

  lemma ResolveVarNameOfVariable(seg: Segment)
    requires !seg.Literal?
    requires seg.HeaderName? ==> '}' !in seg.name
    ensures ResolveVarName(VarName(seg)) == seg
    ensures '}' !in VarName(seg)
  {
    if seg.HeaderName? {
      HeaderNameResolves(seg.name);
    }
  }

  lemma HeaderNameResolves(name: string)
    ensures ResolveVarName("header." + name) == HeaderName(name)
  {
    var full := "header." + name;
    assert full[0] == 'h' && full[1] == 'e' && full[2] == 'a';
    assert full[7..] == name;
  }

  lemma {:induction false} ScanPrinted(acc: seq<Segment>, segs: seq<Segment>)
    requires Canonical'(segs)
    requires |segs| > 0 && segs[0].Literal? ==> !EndsInLiteral(acc)
    ensures Scan(acc, Print(segs)) == acc + segs
    decreases |segs|
  {
    hide *;
    if segs == [] {
      NothingPrinted(acc);
      assert acc + segs == acc;
    } else {
      CanonicalTail(acc, segs);
      ScanPrintedHead(acc, segs);
      ScanPrinted(acc + [segs[0]], segs[1..]);
      assert acc + [segs[0]] + segs[1..] == acc + segs;
    }
  }

  lemma NothingPrinted(acc: seq<Segment>)
    ensures Scan(acc, Print([])) == acc
  {
  }

  lemma CanonicalTail(acc: seq<Segment>, segs: seq<Segment>)
    requires Canonical'(segs) && segs != []
    ensures Canonical'(segs[1..])
    ensures |segs| > 1 && segs[1].Literal? ==> !EndsInLiteral(acc + [segs[0]])
  {
    assert CanonicalAt(segs, 0);
    forall i | 0 <= i < |segs[1..]| ensures CanonicalAt(segs[1..], i) {
      assert CanonicalAt(segs, i + 1);
    }
  }

  lemma PrintOpens(segs: seq<Segment>)
    requires segs != [] && !segs[0].Literal?
    ensures AtOpen(Print(segs))
  {
    hide VarName, Escape;
    var head := PrintSegment(segs[0]);
    assert head[0] == '$' && head[1] == '{';
    assert Print(segs) == head + Print(segs[1..]);
  }

  lemma ScanPrintedHead(acc: seq<Segment>, segs: seq<Segment>)
    requires Canonical'(segs) && |segs| > 0
    requires segs[0].Literal? ==> !EndsInLiteral(acc)
    ensures Scan(acc, Print(segs)) == Scan(acc + [segs[0]], Print(segs[1..]))
  {
    assert CanonicalAt(segs, 0) && Print(segs) == PrintSegment(segs[0]) + Print(segs[1..]);
    if segs[0].Literal? {
      AppendFreshLit(acc, segs[0].text);
      PrintedAfterLiteral(segs);
      assert PrintSegment(segs[0]) == Escape(segs[0].text);
      hide *;
      ScanEscaped(acc, segs[0].text, Print(segs[1..]));
    } else {
      hide *;
      TokenOfVariable(segs[0], Print(segs[1..]));
      ScanStep(acc, Print(segs), segs[0], Print(segs[1..]));
      AppendSegVariable(acc, segs[0]);
    }
  }

  lemma AppendFreshLit(acc: seq<Segment>, text: string)
    requires text != "" && !EndsInLiteral(acc)
    ensures AppendLit(acc, text) == acc + [Literal(text)]
  {
  }

  // What follows a literal is nothing or a variable, and then no backslash stands
  // before it.
  lemma PrintedAfterLiteral(segs: seq<Segment>)
    requires Canonical'(segs) && |segs| > 0 && segs[0].Literal?
    ensures var rest := Print(segs[1..]);
      && (rest == "" || AtOpen(rest))
      && (segs[0].text != "" && rest != "" ==> segs[0].text[|segs[0].text| - 1] != '\\')
  {
    hide PrintSegment, AtOpen;
    assert CanonicalAt(segs, 0);
    if |segs| > 1 {
      PrintOpens(segs[1..]);
    }
  }

  // The printable segment lists are exactly those the compiler produces.
  lemma {:induction false} PrintableIffCompiled(segs: seq<Segment>)
    ensures Printable(segs) <==> Compiled(Print(segs)).segments == segs
  {
    if Printable(segs) {
      if segs == [Literal("")] {
        assert Print(segs[1..]) == "";
        assert Print(segs) == "";
      } else {
        ScanPrinted([], segs);
      }
    } else if Compiled(Print(segs)).segments == segs {
      CompiledIsPrintable(Print(segs));
    }
  }

  // Compiling, printing and compiling again changes nothing.
  lemma PrintRoundTrip(raw: string)
    ensures Compiled(Print(Compiled(raw).segments)) == Compiled(raw)
  {
    CompiledIsPrintable(raw);
    PrintableIffCompiled(Compiled(raw).segments);
  }

  // Escaped text compiles to that text, as one constant.
  lemma EscapedIsConstant(text: string)
    ensures Compiled(Escape(text)) == ParsedHeaderValue([Literal(text)], true)
  {
    ScanEscaped([], text, "");
    assert Escape(text) + "" == Escape(text);
  }

  // What the variables stand for

  // Escaped text in front of the end or of a variable reads as itself.
  lemma InterpretEscaped(text: string, rest: string, ctx: Context)
    requires rest == "" || AtOpen(rest)
    requires text != "" && rest != "" ==> text[|text| - 1] != '\\'
    ensures Interpret(Escape(text) + rest, ctx) == text + Interpret(rest, ctx)
  {
    hide *;
    ScanEscaped([], text, rest);
    RenderScan([], Escape(text) + rest, ctx);
    RenderScan(AppendLit([], text), rest, ctx);
    RenderLit(text, ctx);
    RenderNothing(ctx);
    NothingInFront(Interpret(Escape(text) + rest, ctx));
  }

  lemma NothingInFront(s: string)
    ensures "" + s == s
  {
  }

  lemma RenderLit(text: string, ctx: Context)
    ensures Render(AppendLit([], text), ctx) == text
  {
    if text != "" {
      assert AppendLit([], text) == [Literal(text)] && [Literal(text)][..0] == [];
      assert "" + text == text;
    }
  }

  lemma RenderNothing(ctx: Context)
    ensures Render([], ctx) == "" && Interpret("", ctx) == ""
  {
  }

  // A raw value with one reference between two texts.
  function Around(pre: string, name: string, post: string): string {
    Escape(pre) + ("${" + name + "}" + Escape(post))
  }

  lemma ReferenceValue(pre: string, name: string, post: string, ctx: Context)
    requires '}' !in name && (pre != "" ==> pre[|pre| - 1] != '\\')
    ensures Value(Compiled(Around(pre, name, post)), ctx) == pre + SegmentValue(ResolveVarName(name), ctx) + post
  {
    var reference := "${" + name + "}" + Escape(post);
    assert AtOpen(reference);
    CompilePreservesMeaning(Around(pre, name, post), ctx);
    InterpretEscaped(pre, reference, ctx);
    TokenOfReference(name, Escape(post));
    InterpretStep(reference, ctx);
    InterpretEscaped(post, "", ctx);
    RenderNothing(ctx);
    hide ResolveVarName, SegmentValue, Value, Compiled, Interpret, Escape, Token;
    assert Escape(post) + "" == Escape(post) && post + "" == post;
    Assoc(pre, SegmentValue(ResolveVarName(name), ctx), post);
  }

  lemma InterpretStep(raw: string, ctx: Context)
    requires raw != ""
    ensures Interpret(raw, ctx) == SegmentValue(Token(raw).0, ctx) + Interpret(Token(raw).1, ctx)
  {
    hide SegmentValue, Token;
  }

  // Each variable, between any two texts, yields the part of the request that the
  // documentation names.
  lemma VariablesMean(pre: string, post: string, ctx: Context)
    requires pre != "" ==> pre[|pre| - 1] != '\\'
    ensures Value(Compiled(Around(pre, "host", post)), ctx) == pre + ctx.host + post
    ensures Value(Compiled(Around(pre, "remote_addr", post)), ctx) == pre + ctx.clientIP + post
    ensures Value(Compiled(Around(pre, "remote_port", post)), ctx) == pre + ctx.clientPort + post
    ensures Value(Compiled(Around(pre, "scheme", post)), ctx) == pre + ctx.scheme + post
    ensures Value(Compiled(Around(pre, "request_uri", post)), ctx) == pre + ctx.requestURI + post
    ensures Value(Compiled(Around(pre, "trusted_xff", post)), ctx)
         == pre + TrustedXff.Resolve(ctx.xff, ctx.trust, ctx.clientIP) + post
  {
    hide *;
    NamesResolve(ctx);
    NamesClose();
    ReferenceValue(pre, "host", post, ctx);
    ReferenceValue(pre, "remote_addr", post, ctx);
    ReferenceValue(pre, "remote_port", post, ctx);
    ReferenceValue(pre, "scheme", post, ctx);
    ReferenceValue(pre, "request_uri", post, ctx);
    ReferenceValue(pre, "trusted_xff", post, ctx);
  }

  lemma NamesResolve(ctx: Context)
    ensures SegmentValue(ResolveVarName("host"), ctx) == ctx.host
    ensures SegmentValue(ResolveVarName("remote_addr"), ctx) == ctx.clientIP
    ensures SegmentValue(ResolveVarName("remote_port"), ctx) == ctx.clientPort
    ensures SegmentValue(ResolveVarName("scheme"), ctx) == ctx.scheme
    ensures SegmentValue(ResolveVarName("request_uri"), ctx) == ctx.requestURI
    ensures SegmentValue(ResolveVarName("trusted_xff"), ctx) == TrustedXff.Resolve(ctx.xff, ctx.trust, ctx.clientIP)
  {
    hide TrustedXff.Resolve;
  }

  lemma NamesClose()
    ensures '}' !in "host" && '}' !in "remote_addr" && '}' !in "remote_port"
    ensures '}' !in "scheme" && '}' !in "request_uri" && '}' !in "trusted_xff"
  {
  }

  // ${header.Name} yields the header of that name, first value, in any case.
  lemma HeaderVariableMeans(pre: string, name: string, post: string, ctx: Context)
    requires '}' !in name && (pre != "" ==> pre[|pre| - 1] != '\\')
    ensures Value(Compiled(Around(pre, "header." + name, post)), ctx) == pre + Get(ctx.original, name) + post
  {
    ReferenceValue(pre, "header." + name, post, ctx);
    HeaderNameResolves(name);
    hide ResolveVarName, Value, Compiled, Around, Get;
  }

  // Any other name stays as it was written.
  lemma UnknownVariableStays(pre: string, name: string, post: string, ctx: Context)
    requires '}' !in name && (pre != "" ==> pre[|pre| - 1] != '\\')
    requires name !in ["host", "remote_addr", "remote_port", "scheme", "request_uri", "trusted_xff"]
    requires !("header." <= name)
    ensures Value(Compiled(Around(pre, name, post)), ctx) == pre + ("${" + name + "}") + post
  {
    ReferenceValue(pre, name, post, ctx);
    hide Value, Compiled, Around;
  }

  // A reference that is never closed stays as it was written, too.
  lemma UnclosedVariableStays(pre: string, tail: string, ctx: Context)
    requires '}' !in tail && '$' !in tail && (pre != "" ==> pre[|pre| - 1] != '\\')
    ensures Value(Compiled(Escape(pre) + ("${" + tail)), ctx) == pre + ("${" + tail)
  {
    var open := "${" + tail;
    CompilePreservesMeaning(Escape(pre) + open, ctx);
    assert open[2..] == tail && AtOpen(open) && IndexByte(tail, '}') < 0;
    InterpretEscaped(pre, open, ctx);
    assert Token(open) == (Literal("${"), tail);
    InterpretStep(open, ctx);
    NothingToEscape(tail);
    InterpretEscaped(tail, "", ctx);
    RenderNothing(ctx);
    assert SegmentValue(Literal("${"), ctx) == "${";
    hide Value, Compiled, Interpret, Escape, Token, SegmentValue;
    assert tail + "" == tail;
  }

  lemma {:induction false} NothingToEscape(s: string)
    requires '$' !in s
    ensures Escape(s) == s
  {
    if s != "" {
      assert s[0] in s && s == [s[0]] + s[1..];
      NothingToEscape(s[1..]);
    }
  }
}
