// headers.go, config.go, server.go: the header rules of a route. They are
// compiled at load time, together with flags that let the server skip work at
// request time, and applied to requests and responses.
module HeaderRules {
  import opened GoStrings
  import opened HttpHeader
  import opened HeaderTemplate

  type AddHeaders = map<string, ParsedHeaderValue>

  datatype Route = Route(
    addHeaders: AddHeaders, deleteHeaders: seq<string>, deleteHasWildcard: bool,
    addHasVars: bool, needsOriginal: bool, needsTrustedXFF: bool,
    clientAddHeaders: AddHeaders, clientDelHeaders: seq<string>, clientDelHasWildcard: bool,
    clientAddHasVars: bool, clientNeedsRespHeaders: bool, clientNeedsTrustedXFF: bool)

  // Load time: compiled headers and flags

  ghost predicate Compiles(raw: map<string, string>, headers: AddHeaders) {
    headers.Keys == raw.Keys && forall name :: name in raw ==> headers[name] == Compiled(raw[name])
  }

  // compiledHeaders
  method CompiledHeaders(raw: map<string, string>) returns (headers: AddHeaders)
    ensures Compiles(raw, headers)
  {
    headers := map[];
    var todo := raw.Keys;
    while todo != {}
      invariant todo <= raw.Keys && headers.Keys == raw.Keys - todo
      invariant forall name :: name in headers ==> headers[name] == Compiled(raw[name])
      decreases todo
    {
      var name :| name in todo;
      var ph := CompileHeaderValue(raw[name]);
      headers := headers[name := ph];
      todo := todo - {name};
    }
  }

  predicate AnyNonConst(headers: AddHeaders) {
    exists name :: name in headers && !headers[name].isConst
  }

  predicate AnySegment(headers: AddHeaders, kind: Segment -> bool) {
    exists name :: name in headers && exists seg :: seg in headers[name].segments && kind(seg)
  }

  // hasNonConstHeader
  method HasNonConstHeader(headers: AddHeaders) returns (r: bool)
    ensures r <==> AnyNonConst(headers)
  {
    var todo := headers.Keys;
    while todo != {}
      invariant todo <= headers.Keys
      invariant forall name :: name in headers && name !in todo ==> headers[name].isConst
      decreases todo
    {
      var name :| name in todo;
      if !headers[name].isConst {
        return true;
      }
      todo := todo - {name};
    }
    return false;
  }

  // hasHeaderNameVar and hasTrustedXFFVar, which differ in the kind they look for.
  method HasSegment(headers: AddHeaders, kind: Segment -> bool) returns (r: bool)
    ensures r <==> AnySegment(headers, kind)
  {
    var todo := headers.Keys;
    while todo != {}
      invariant todo <= headers.Keys
      invariant forall name :: name in headers && name !in todo ==>
        forall seg :: seg in headers[name].segments ==> !kind(seg)
      decreases todo
    {
      var name :| name in todo;
      var segs := headers[name].segments;
      for i := 0 to |segs|
        invariant forall j | 0 <= j < i :: !kind(segs[j])
      {
        if kind(segs[i]) {
          assert segs[i] in segs;
          return true;
        }
      }
      todo := todo - {name};
    }
    return false;
  }

  // The flags say what the compiled values use.
  ghost predicate FlagsMatch(rc: Route) {
    && rc.addHasVars == AnyNonConst(rc.addHeaders)
    && rc.needsOriginal == AnySegment(rc.addHeaders, (s: Segment) => s.HeaderName?)
    && rc.needsTrustedXFF ==
       (AnySegment(rc.addHeaders, (s: Segment) => s.TrustedXFF?) || rc.clientNeedsTrustedXFF)
    && rc.clientAddHasVars == AnyNonConst(rc.clientAddHeaders)
    && rc.clientNeedsRespHeaders == AnySegment(rc.clientAddHeaders, (s: Segment) => s.HeaderName?)
    && rc.clientNeedsTrustedXFF == AnySegment(rc.clientAddHeaders, (s: Segment) => s.TrustedXFF?)
  }

  // AddHasVars holds exactly when some raw value refers to a variable.
  lemma AnyNonConstIff(raw: map<string, string>, headers: AddHeaders)
    requires Compiles(raw, headers)
    ensures AnyNonConst(headers) <==> exists name :: name in raw && HasVariable(raw[name])
  {
    forall name | name in raw ensures headers[name].isConst <==> !HasVariable(raw[name]) {
      ConstIffNoVariable(raw[name]);
    }
  }

  predicate HasWildcard(names: seq<string>) {
    exists name :: name in names && '*' in name
  }

  // The header part of parseFileVHost.
  method ParseRoute(add: map<string, string>, del: seq<string>,
                    clientAdd: map<string, string>, clientDel: seq<string>) returns (rc: Route)
    ensures FlagsMatch(rc)
    ensures Compiles(add, rc.addHeaders) && Compiles(clientAdd, rc.clientAddHeaders)
    ensures rc.deleteHeaders == del && rc.deleteHasWildcard == HasWildcard(del)
    ensures rc.clientDelHeaders == clientDel && rc.clientDelHasWildcard == HasWildcard(clientDel)
  {
    var addHeaders := CompiledHeaders(add);
    var addHasVars := HasNonConstHeader(addHeaders);
    var needsOriginal := HasSegment(addHeaders, (s: Segment) => s.HeaderName?);
    var clientAddHeaders := CompiledHeaders(clientAdd);
    var clientAddHasVars := HasNonConstHeader(clientAddHeaders);
    var clientNeedsRespHeaders := HasSegment(clientAddHeaders, (s: Segment) => s.HeaderName?);
    var clientNeedsTrustedXFF := HasSegment(clientAddHeaders, (s: Segment) => s.TrustedXFF?);
    var usesTrustedXFF := HasSegment(addHeaders, (s: Segment) => s.TrustedXFF?);
    var needsTrustedXFF := usesTrustedXFF || clientNeedsTrustedXFF;
    rc := Route(addHeaders, del, HasWildcard(del), addHasVars, needsOriginal, needsTrustedXFF,
                clientAddHeaders, clientDel, HasWildcard(clientDel),
                clientAddHasVars, clientNeedsRespHeaders, clientNeedsTrustedXFF);
  }

  // Values of all add rules in one context.
  ghost predicate Usable(headers: AddHeaders) {
    forall name :: name in headers ==>
      (headers[name].isConst ==> |headers[name].segments| > 0 && headers[name].segments[0].Literal?)
  }

  lemma CompiledUsable(raw: map<string, string>, headers: AddHeaders)
    requires Compiles(raw, headers)
    ensures Usable(headers)
  {
  }

  ghost function Values(headers: AddHeaders, ctx: Context): (vs: map<string, string>)
    requires Usable(headers)
    ensures vs.Keys == headers.Keys
  {
    map name | name in headers :: Value(headers[name], ctx)
  }

  // Two contexts are interchangeable for segments that read none of the parts in
  // which they differ.
  ghost predicate SameFor(segs: seq<Segment>, a: Context, b: Context) {
    && a.host == b.host && a.clientIP == b.clientIP && a.clientPort == b.clientPort
    && a.trust == b.trust && a.scheme == b.scheme && a.requestURI == b.requestURI
    && ((exists seg :: seg in segs && seg.TrustedXFF?) ==> a.xff == b.xff)
    && ((exists seg :: seg in segs && seg.HeaderName?) ==> a.original == b.original)
  }

  lemma {:induction false} RenderSame(segs: seq<Segment>, a: Context, b: Context)
    requires SameFor(segs, a, b)
    ensures Render(segs, a) == Render(segs, b)
  {
    if segs != [] {
      assert segs[|segs| - 1] in segs;
      RenderSame(segs[..|segs| - 1], a, b);
    }
  }

  // The context the server builds when it obeys the flags: what no value uses is
  // left empty.
  function Gated(full: Context, vars: bool, xff: bool, original: bool): Context {
    full.(scheme := if vars then full.scheme else "",
          requestURI := if vars then full.requestURI else "",
          xff := if xff then full.xff else [],
          original := if original then full.original else map[])
  }

  // As Gated, for responses, where the client address is computed on demand too.
  function GatedClient(full: Context, vars: bool, xff: bool, original: bool): Context {
    Gated(full, vars, xff, original).(
      clientIP := if vars then full.clientIP else "",
      clientPort := if vars then full.clientPort else "")
  }

  // The flags are sound: skipping what they say is not needed changes no value.
  lemma GatesSound(headers: AddHeaders, full: Context, vars: bool, xff: bool, original: bool)
    requires Usable(headers)
    requires vars == AnyNonConst(headers)
    requires AnySegment(headers, (s: Segment) => s.TrustedXFF?) ==> xff
    requires AnySegment(headers, (s: Segment) => s.HeaderName?) ==> original
    ensures Values(headers, Gated(full, vars, xff, original)) == Values(headers, full)
    ensures Values(headers, GatedClient(full, vars, xff, original)) == Values(headers, full)
  {
    forall name | name in headers
      ensures Value(headers[name], Gated(full, vars, xff, original)) == Value(headers[name], full)
      ensures Value(headers[name], GatedClient(full, vars, xff, original)) == Value(headers[name], full)
    {
      if !headers[name].isConst {
        RenderSame(headers[name].segments, Gated(full, vars, xff, original), full);
        RenderSame(headers[name].segments, GatedClient(full, vars, xff, original), full);
      }
    }
  }

  // Deleting headers

  // matchesDelete: `glob` stands for path.Match on lower-cased texts.
  predicate MatchesDelete(pattern: string, key: string, glob: (string, string) -> bool) {
    if '*' !in pattern then EqualFold(pattern, key) else glob(ToLower(pattern), ToLower(key))
  }

  predicate MatchesAny(patterns: seq<string>, key: string, glob: (string, string) -> bool) {
    exists p :: p in patterns && MatchesDelete(p, key, glob)
  }

  function Remaining(h: Header, names: seq<string>): Header {
    h - (set name | name in names :: Canonical(name))
  }

  function Unmatched(h: Header, patterns: seq<string>, glob: (string, string) -> bool): Header {
    map key | key in h && !MatchesAny(patterns, key, glob) :: h[key]
  }

  function Deleted(h: Header, rules: seq<string>, hasWild: bool, glob: (string, string) -> bool): Header {
    if hasWild then Unmatched(h, rules, glob) else Remaining(h, rules)
  }

  // applyDeleteHeaders
  method ApplyDeleteHeaders(h: Header, rules: seq<string>, hasWild: bool, glob: (string, string) -> bool)
    returns (out: Header)
    ensures out == Deleted(h, rules, hasWild, glob)
  {
    out := h;
    if !hasWild {
      for i := 0 to |rules|
        invariant out == Remaining(h, rules[..i])
      {
        out := Del(out, rules[i]);
        assert rules[..i + 1] == rules[..i] + [rules[i]];
      }
      assert rules[..|rules|] == rules;
      return;
    }
    var toDelete: set<string> := {};
    var todo := h.Keys;
    while todo != {}
      invariant todo <= h.Keys
      invariant forall key :: key in toDelete <==> key in h && key !in todo && MatchesAny(rules, key, glob)
      decreases todo
    {
      var key :| key in todo;
      var hit := MatchesSome(rules, key, glob);
      if hit {
        toDelete := toDelete + {key};
      }
      todo := todo - {key};
    }
    out := h - toDelete;
  }

  method MatchesSome(patterns: seq<string>, key: string, glob: (string, string) -> bool) returns (hit: bool)
    ensures hit <==> MatchesAny(patterns, key, glob)
  {
    for i := 0 to |patterns|
      invariant forall j | 0 <= j < i :: !MatchesDelete(patterns[j], key, glob)
    {
      if MatchesDelete(patterns[i], key, glob) {
        assert patterns[i] in patterns;
        return true;
      }
    }
    return false;
  }

  // The fast path of deletion is a refinement of the slow one: on the keys a
  // server hands out (valid and canonical) both remove the same headers.
  lemma FastDeleteIsSlowDelete(h: Header, rules: seq<string>, glob: (string, string) -> bool)
    requires !HasWildcard(rules)
    requires forall key :: key in h ==> ValidName(key) && Canonical(key) == key
    ensures Remaining(h, rules) == Unmatched(h, rules, glob)
  {
    forall key | key in h
      ensures key in Remaining(h, rules) <==> key in Unmatched(h, rules, glob)
    {
      var gone := set name | name in rules :: Canonical(name);
      if key in gone {
        var name :| name in rules && Canonical(name) == key;
        CanonicalKeepsFold(name);
        assert MatchesDelete(name, key, glob);
      }
      if MatchesAny(rules, key, glob) {
        var p :| p in rules && MatchesDelete(p, key, glob);
        FoldKeepsValid(key, p);
        FoldSharesKey(p, key);
      }
    }
  }

  // Adding headers

  // Header map and host of a message under construction. In requests the host
  // lives outside the header map, and rules for it change the field.
  datatype Out = Out(header: Header, host: string, isRequest: bool)

  datatype Place = HostField | Key(name: string)

  function PlaceOf(name: string, isRequest: bool): Place {
    if isRequest && EqualFold(name, "host") then HostField else Key(Canonical(name))
  }

  function SetOne(out: Out, name: string, value: string): Out {
    if out.isRequest && EqualFold(name, "host") then out.(host := value)
    else out.(header := Set(out.header, name, value))
  }

  ghost predicate Enumerates(order: seq<string>, names: set<string>) {
    && (forall i :: 0 <= i < |order| ==> order[i] in names)
    && (forall name :: name in names ==> name in order)
    && (forall i, j :: 0 <= i < j < |order| ==> order[i] != order[j])
  }

  // The add rules, applied in the order in which the map happens to be read.
  ghost function SetAll(out: Out, order: seq<string>, values: map<string, string>): (r: Out)
    requires forall i :: 0 <= i < |order| ==> order[i] in values
    ensures r.isRequest == out.isRequest
  {
    if order == [] then out
    else
      var last := order[|order| - 1];
      SetOne(SetAll(out, order[..|order| - 1], values), last, values[last])
  }

  // What a request holds at one place.
  function At(out: Out, place: Place): (bool, seq<string>) {
    match place
    case HostField => (true, [out.host])
    case Key(k) => if k in out.header then (true, out.header[k]) else (false, [])
  }

  lemma SameEverywhere(a: Out, b: Out)
    requires a.isRequest == b.isRequest
    requires forall place :: At(a, place) == At(b, place)
    ensures a == b
  {
    assert At(a, HostField) == At(b, HostField);
    forall k ensures k in a.header <==> k in b.header
      ensures k in a.header && k in b.header ==> a.header[k] == b.header[k]
    {
      assert At(a, Key(k)) == At(b, Key(k));
    }
  }

  lemma SetOneAt(out: Out, name: string, value: string, place: Place)
    ensures At(SetOne(out, name, value), place)
         == if place == PlaceOf(name, out.isRequest) then (true, [value]) else At(out, place)
  {
  }

  // Each place holds the value of the rule applied last to it, or is untouched.
  lemma {:induction false} LastRuleWins(out: Out, order: seq<string>, values: map<string, string>, place: Place)
    requires forall i :: 0 <= i < |order| ==> order[i] in values
    ensures (exists i :: 0 <= i < |order| && PlaceOf(order[i], out.isRequest) == place) ==>
      exists i :: 0 <= i < |order| && PlaceOf(order[i], out.isRequest) == place
        && At(SetAll(out, order, values), place) == (true, [values[order[i]]])
    ensures (forall i :: 0 <= i < |order| ==> PlaceOf(order[i], out.isRequest) != place) ==>
      At(SetAll(out, order, values), place) == At(out, place)
  {
    hide SetOne, At, PlaceOf;
    if order != [] {
      var n := |order| - 1;
      SetOneAt(SetAll(out, order[..n], values), order[n], values[order[n]], place);
      LastRuleWins(out, order[..n], values, place);
      if
        && PlaceOf(order[n], out.isRequest) != place
        && exists i :: 0 <= i < |order| && PlaceOf(order[i], out.isRequest) == place
      {
        var i :| 0 <= i < |order| && PlaceOf(order[i], out.isRequest) == place;
        assert order[..n][i] == order[i];
      }
    }
  }

  // Rules for the same place agree on the value.
  ghost predicate Consistent(values: map<string, string>, isRequest: bool) {
    forall a, b :: a in values && b in values && PlaceOf(a, isRequest) == PlaceOf(b, isRequest) ==>
      values[a] == values[b]
  }

  lemma {:induction false} OrderIrrelevant(out: Out, o1: seq<string>, o2: seq<string>, values: map<string, string>)
    requires Enumerates(o1, values.Keys) && Enumerates(o2, values.Keys)
    requires Consistent(values, out.isRequest)
    ensures SetAll(out, o1, values) == SetAll(out, o2, values)
  {
    forall place ensures At(SetAll(out, o1, values), place) == At(SetAll(out, o2, values), place) {
      LastRuleWins(out, o1, values, place);
      LastRuleWins(out, o2, values, place);
      if i :| 0 <= i < |o1| && PlaceOf(o1[i], out.isRequest) == place {
        assert o1[i] in o2;
      }
      if i :| 0 <= i < |o2| && PlaceOf(o2[i], out.isRequest) == place {
        assert o2[i] in o1;
      }
    }
    SameEverywhere(SetAll(out, o1, values), SetAll(out, o2, values));
  }

  lemma {:induction false} EnumerationEndingIn(names: set<string>, last: string) returns (order: seq<string>)
    requires last in names
    ensures Enumerates(order, names) && |order| > 0 && order[|order| - 1] == last
    decreases |names|
  {
    if names == {last} {
      order := [last];
    } else {
      var other :| other in names && other != last;
      assert |names - {other}| < |names|;
      var rest := EnumerationEndingIn(names - {other}, last);
      order := [other] + rest;
    }
  }

  // Two rules for one header with different values: whichever comes last wins.
  lemma {:induction false} OrderMatters(out: Out, values: map<string, string>, a: string, b: string)
    returns (o1: seq<string>, o2: seq<string>)
    requires a in values && b in values && values[a] != values[b]
    requires PlaceOf(a, out.isRequest) == PlaceOf(b, out.isRequest)
    ensures Enumerates(o1, values.Keys) && Enumerates(o2, values.Keys)
    ensures SetAll(out, o1, values) != SetAll(out, o2, values)
  {
    hide At, SetOne, PlaceOf;
    var place := PlaceOf(a, out.isRequest);
    o1 := EnumerationEndingIn(values.Keys, a);
    o2 := EnumerationEndingIn(values.Keys, b);
    SetOneAt(SetAll(out, o1[..|o1| - 1], values), a, values[a], place);
    SetOneAt(SetAll(out, o2[..|o2| - 1], values), b, values[b], place);
    assert [values[a]][0] != [values[b]][0];
  }

  // The result does not depend on the order of the add rules if and only if rules
  // that set the same header carry the same value.
  lemma {:induction false} OrderIrrelevantIff(out: Out, values: map<string, string>)
    ensures Consistent(values, out.isRequest) <==>
      forall o1, o2 :: Enumerates(o1, values.Keys) && Enumerates(o2, values.Keys) ==>
        SetAll(out, o1, values) == SetAll(out, o2, values)
  {
    hide PlaceOf, SetAll;
    if Consistent(values, out.isRequest) {
      forall o1, o2 | Enumerates(o1, values.Keys) && Enumerates(o2, values.Keys)
        ensures SetAll(out, o1, values) == SetAll(out, o2, values)
      {
        OrderIrrelevant(out, o1, o2, values);
      }
    } else {
      var a, b :| a in values && b in values && values[a] != values[b]
        && PlaceOf(a, out.isRequest) == PlaceOf(b, out.isRequest);
      var o1, o2 := OrderMatters(out, values, a, b);
    }
  }

  // Names that differ in more than case are always consistent.
  lemma {:induction false} DistinctNamesConsistent(values: map<string, string>, isRequest: bool)
    requires forall a, b :: a in values && b in values && a != b ==> !EqualFold(a, b)
    ensures Consistent(values, isRequest)
  {
    forall a, b | a in values && b in values && PlaceOf(a, isRequest) == PlaceOf(b, isRequest)
      ensures values[a] == values[b]
    {
      CanonicalKeepsFold(a);
      CanonicalKeepsFold(b);
      assert EqualFold(a, b);
    }
  }

  // What the rules do, header by header

  // Deletion by a parsed rule list: a name matches in any case, a pattern with a star as
  // path.Match says, pattern first, both in lower case. What stays keeps its values.
  lemma DeletedIff(h: Header, rules: seq<string>, glob: (string, string) -> bool, key: string)
    requires forall k :: k in h ==> ValidName(k) && Canonical(k) == k
    ensures var out := Deleted(h, rules, HasWildcard(rules), glob);
      && (key in out ==> key in h && out[key] == h[key])
      && (key in h ==> (key !in out <==>
            exists p :: p in rules && if '*' in p then glob(ToLower(p), ToLower(key)) else EqualFold(p, key)))
  {
    if !HasWildcard(rules) {
      FastDeleteIsSlowDelete(h, rules, glob);
    }
    hide Canonical, ValidName, EqualFold, ToLower;
  }

  // For instance a prefix followed by a star deletes exactly the headers that begin with
  // it in any case, if path.Match treats a star at the end as it documents.
  lemma PrefixPatternDeletes(h: Header, prefix: string, glob: (string, string) -> bool, key: string)
    requires forall k :: k in h ==> ValidName(k) && Canonical(k) == k
    requires forall p: string, name: string :: '*' !in p ==> (glob(p + "*", name) <==> p <= name)
    requires '*' !in ToLower(prefix) && key in h
    ensures key in Deleted(h, [prefix + "*"], true, glob) <==> !(ToLower(prefix) <= ToLower(key))
  {
    var pattern := prefix + "*";
    assert pattern[|prefix|] == '*';
    assert ToLower(pattern) == ToLower(prefix) + "*";
    assert HasWildcard([pattern]) by { assert pattern in [pattern] && '*' in pattern; }
    DeletedIff(h, [pattern], glob, key);
    assert forall p :: p in [pattern] <==> p == pattern;
    hide Deleted, ToLower, Canonical, ValidName;
  }

  // In a request a rule for Host, in any case, sets the host and leaves the header map
  // alone; in a response it is a header like any other.
  lemma HostRule(out: Out, name: string, value: string)
    requires EqualFold(name, "host")
    ensures out.isRequest ==> SetOne(out, name, value) == Out(out.header, value, true)
    ensures !out.isRequest ==>
      SetOne(out, name, value) == Out(out.header[Canonical(name) := [value]], out.host, false)
  {
  }

  // Every other rule replaces all values of its header by one.
  lemma HeaderRule(out: Out, name: string, value: string)
    requires !EqualFold(name, "host")
    ensures SetOne(out, name, value) == Out(out.header[Canonical(name) := [value]], out.host, out.isRequest)
  {
  }

  // After all add rules a header holds the value of one of the rules that name it; one
  // that no rule names is as before.
  lemma RulesForHeader(out: Out, order: seq<string>, values: map<string, string>, key: string)
    requires Enumerates(order, values.Keys)
    requires forall i :: 0 <= i < |order| ==> order[i] in values
    ensures var h := SetAll(out, order, values).header;
      && ((forall name :: name in values ==> (out.isRequest && EqualFold(name, "host")) || Canonical(name) != key) ==>
            (key in h <==> key in out.header) && (key in h ==> h[key] == out.header[key]))
      && ((exists name :: name in values && !(out.isRequest && EqualFold(name, "host")) && Canonical(name) == key) ==>
            exists name :: name in values && !(out.isRequest && EqualFold(name, "host")) && Canonical(name) == key
              && key in h && h[key] == [values[name]])
  {
    LastRuleWins(out, order, values, Key(key));
    PlacesOfKey(order, values.Keys, key, out.isRequest);
    hide EqualFold, Canonical, SetAll, Enumerates;
  }

  // Which of the rules in an order concern a header.
  lemma PlacesOfKey(order: seq<string>, names: set<string>, key: string, isRequest: bool)
    requires Enumerates(order, names)
    ensures (exists i :: 0 <= i < |order| && PlaceOf(order[i], isRequest) == Key(key)) <==>
      exists name :: name in names && !(isRequest && EqualFold(name, "host")) && Canonical(name) == key
  {
    hide EqualFold, Canonical;
    if name :| name in names && !(isRequest && EqualFold(name, "host")) && Canonical(name) == key {
      assert name in order;
      var i :| 0 <= i < |order| && order[i] == name;
      assert PlaceOf(order[i], isRequest) == Key(key);
    }
  }
}
