// server.go: compilation of the vhost list and dispatch of requests to vhosts.
module VHosts {
  import opened GoStrings
  import opened Options

  // A vhost of the configuration: its domains and, standing for its routes, the
  // multiplexer they compile to.
  datatype VHost = VHost(domains: seq<string>, mux: nat)

  // A compiled vhost; domains are in lower case.
  datatype Entry = Entry(domains: seq<string>, mux: nat)

  // isCatchAll
  predicate IsCatchAll(domains: seq<string>) {
    "*" in domains || "" in domains
  }

  // matchHost
  predicate MatchHost(e: Entry, host: string) {
    "*" in e.domains || host in e.domains
  }

  // The order of the sort: specific vhosts before catch-alls.
  predicate Less(a: Entry, b: Entry) {
    !IsCatchAll(a.domains) && IsCatchAll(b.domains)
  }

  function Lowered(v: VHost): Entry {
    Entry(seq(|v.domains|, i requires 0 <= i < |v.domains| => ToLower(v.domains[i])), v.mux)
  }

  function AllLowered(vs: seq<VHost>): seq<Entry> {
    seq(|vs|, i requires 0 <= i < |vs| => Lowered(vs[i]))
  }

  function Filter(es: seq<Entry>, keep: Entry -> bool): seq<Entry> {
    if es == [] then []
    else
      var init, last := Filter(es[..|es| - 1], keep), es[|es| - 1];
      if keep(last) then init + [last] else init
  }

  lemma {:induction false} FilterConcat(a: seq<Entry>, b: seq<Entry>, keep: Entry -> bool)
    ensures Filter(a + b, keep) == Filter(a, keep) + Filter(b, keep)
  {
    if b == [] {
      assert a + b == a;
    } else {
      var n := |b| - 1;
      assert (a + b)[..|a + b| - 1] == a + b[..n];
      FilterConcat(a, b[..n], keep);
    }
  }

  lemma {:induction false} FilterAgree(es: seq<Entry>, p: Entry -> bool, q: Entry -> bool)
    requires forall e :: e in es ==> p(e) == q(e)
    ensures Filter(es, p) == Filter(es, q)
  {
    if es != [] {
      FilterAgree(es[..|es| - 1], p, q);
    }
  }

  lemma {:induction false} FilterKeepsAll(es: seq<Entry>, keep: Entry -> bool)
    requires forall i :: 0 <= i < |es| ==> keep(es[i])
    ensures Filter(es, keep) == es
  {
    if es != [] {
      FilterKeepsAll(es[..|es| - 1], keep);
      assert es == es[..|es| - 1] + [es[|es| - 1]];
    }
  }

  lemma {:induction false} FilterKeepsNone(es: seq<Entry>, keep: Entry -> bool)
    requires forall i :: 0 <= i < |es| ==> !keep(es[i])
    ensures Filter(es, keep) == []
  {
    if es != [] {
      FilterKeepsNone(es[..|es| - 1], keep);
    }
  }

  // Stable sorting, as sort.SliceStable promises it: nothing out of order, and
  // the elements that compare equal to any given one are unchanged, in number and
  // in order.
  predicate Equal(a: Entry, b: Entry) {
    !Less(a, b) && !Less(b, a)
  }

  function Like(x: Entry): Entry -> bool {
    (e: Entry) => Equal(e, x)
  }

  ghost predicate SameClass(input: seq<Entry>, output: seq<Entry>, x: Entry) {
    Filter(output, Like(x)) == Filter(input, Like(x))
  }

  ghost predicate IsSorted(es: seq<Entry>) {
    forall i, j :: 0 <= i < j < |es| ==> !Less(es[j], es[i])
  }

  ghost predicate StableSortOf(input: seq<Entry>, output: seq<Entry>) {
    IsSorted(output) && forall x :: SameClass(input, output, x)
  }

  // A stable sort of vhosts by insertion.
  method SliceStable(input: seq<Entry>) returns (output: seq<Entry>)
    ensures StableSortOf(input, output)
  {
    output := [];
    assert StableSortOf(input[..0], output);
    hide IsCatchAll, StableSortOf;
    for n := 0 to |input|
      invariant StableSortOf(input[..n], output)
    {
      var x := input[n];
      var j := |output|;
      while j > 0 && Less(x, output[j - 1])
        invariant 0 <= j <= |output|
        invariant forall k :: j <= k < |output| ==> Less(x, output[k])
      {
        j := j - 1;
      }
      InsertKeepsSorted(input[..n], output, x, j);
      InsertKeepsClasses(input[..n], output, x, j);
      assert input[..n + 1] == input[..n] + [x];
      output := output[..j] + [x] + output[j..];
      SortedAndSame(input[..n + 1], output);
    }
    assert input[..|input|] == input;
  }

  lemma SortedAndSame(input: seq<Entry>, output: seq<Entry>)
    requires IsSorted(output) && forall x :: SameClass(input, output, x)
    ensures StableSortOf(input, output)
  {
  }

  lemma InsertKeepsSorted(input: seq<Entry>, output: seq<Entry>, x: Entry, j: nat)
    requires j <= |output| && StableSortOf(input, output)
    requires forall k :: j <= k < |output| ==> Less(x, output[k])
    requires j > 0 ==> !Less(x, output[j - 1])
    ensures IsSorted(output[..j] + [x] + output[j..])
  {
    hide IsCatchAll, SameClass;
    var out := output[..j] + [x] + output[j..];
    forall a, b | 0 <= a < b < |out| ensures !Less(out[b], out[a]) {
      if b == j {
        assert a == j - 1 || !Less(output[j - 1], output[a]);
      }
    }
  }

  lemma InsertKeepsClasses(input: seq<Entry>, output: seq<Entry>, x: Entry, j: nat)
    requires j <= |output| && StableSortOf(input, output)
    requires forall k :: j <= k < |output| ==> Less(x, output[k])
    ensures forall y :: SameClass(input + [x], output[..j] + [x] + output[j..], y)
  {
    hide IsCatchAll, Filter, SameClass;
    forall y ensures SameClass(input + [x], output[..j] + [x] + output[j..], y) {
      assert output == output[..j] + output[j..];
      InsertKeepsClass(input, output[..j], output[j..], x, y);
    }
  }

  lemma InsertKeepsClass(input: seq<Entry>, a: seq<Entry>, b: seq<Entry>, x: Entry, y: Entry)
    requires SameClass(input, a + b, y)
    requires forall k :: 0 <= k < |b| ==> Less(x, b[k])
    ensures SameClass(input + [x], a + [x] + b, y)
  {
    var keep := Like(y);
    if keep(x) {
      LaterThanLike(b, x, y);
      FilterKeepsNone(b, keep);
    } else {
      FilterKeepsNone([x], keep);
    }
    hide IsCatchAll, Filter, Less, Equal;
    FilterConcat(a + [x], b, keep);
    FilterConcat(a, [x], keep);
    FilterConcat(a, b, keep);
    FilterConcat(input, [x], keep);
  }

  lemma LaterThanLike(b: seq<Entry>, x: Entry, y: Entry)
    requires Equal(x, y) && forall k :: 0 <= k < |b| ==> Less(x, b[k])
    ensures forall k :: 0 <= k < |b| ==> !Equal(b[k], y)
  {
    hide IsCatchAll;
  }

  predicate Specific(e: Entry) {
    !IsCatchAll(e.domains)
  }

  predicate CatchAll(e: Entry) {
    IsCatchAll(e.domains)
  }

  // Every stable sort leaves the specific vhosts in configuration order, followed
  // by the catch-alls in configuration order.
  lemma SortedIsPartition(input: seq<Entry>, output: seq<Entry>)
    requires StableSortOf(input, output)
    ensures output == Filter(input, Specific) + Filter(input, CatchAll)
  {
    assert SameClass(input, output, Entry([], 0)) && SameClass(input, output, Entry(["*"], 0));
    ClassKept(input, output, Entry([], 0), Specific);
    ClassKept(input, output, Entry(["*"], 0), CatchAll);
    hide IsCatchAll, Filter, SameClass;
    PrefixAndSuffix(output);
  }

  lemma PrefixAndSuffix(output: seq<Entry>)
    requires IsSorted(output)
    ensures output == Filter(output, Specific) + Filter(output, CatchAll)
  {
    hide *;
    var m := SplitPoint(output);
    var a, b := output[..m], output[m..];
    assert output == a + b;
    OnlySpecific(a);
    OnlyCatchAlls(b);
    FilterConcat(a, b, Specific);
    FilterConcat(a, b, CatchAll);
    assert Filter(output, Specific) == a + [];
    assert Filter(output, CatchAll) == [] + b;
  }

  lemma OnlySpecific(a: seq<Entry>)
    requires forall i :: 0 <= i < |a| ==> Specific(a[i])
    ensures Filter(a, Specific) == a && Filter(a, CatchAll) == []
  {
    hide IsCatchAll, Filter;
    FilterKeepsAll(a, Specific);
    FilterKeepsNone(a, CatchAll);
  }

  lemma OnlyCatchAlls(b: seq<Entry>)
    requires forall i :: 0 <= i < |b| ==> CatchAll(b[i])
    ensures Filter(b, Specific) == [] && Filter(b, CatchAll) == b
  {
    hide IsCatchAll, Filter;
    FilterKeepsNone(b, Specific);
    FilterKeepsAll(b, CatchAll);
  }

  lemma ClassKept(input: seq<Entry>, output: seq<Entry>, x: Entry, keep: Entry -> bool)
    requires SameClass(input, output, x)
    requires forall e :: Equal(e, x) <==> keep(e)
    ensures Filter(output, keep) == Filter(input, keep)
  {
    hide IsCatchAll, Less, Filter, Equal;
    FilterAgree(output, Like(x), keep);
    FilterAgree(input, Like(x), keep);
  }

  // In a sorted list the specific vhosts form a prefix.
  lemma SplitPoint(output: seq<Entry>) returns (m: nat)
    requires IsSorted(output)
    ensures m <= |output|
    ensures forall i :: 0 <= i < m ==> Specific(output[i])
    ensures forall i :: m <= i < |output| ==> CatchAll(output[i])
  {
    hide IsCatchAll;
    m := 0;
    while m < |output| && Specific(output[m])
      invariant 0 <= m <= |output|
      invariant forall i :: 0 <= i < m ==> Specific(output[i])
    {
      m := m + 1;
    }
  }

  // Compilation

  datatype Compiled = Failed | Compiled(vhosts: seq<Entry>, singleMux: bool)

  function Sorted(vs: seq<VHost>): seq<Entry> {
    Filter(AllLowered(vs), Specific) + Filter(AllLowered(vs), CatchAll)
  }

  predicate IsSingle(es: seq<Entry>) {
    |es| == 1 && IsCatchAll(es[0].domains)
  }

  // compileVHosts; building the multiplexer of a vhost may fail.
  method CompileVHosts(vs: seq<VHost>, muxOk: seq<bool>) returns (r: Compiled)
    requires |muxOk| == |vs|
    ensures r == if false in muxOk then Failed else Compiled(Sorted(vs), IsSingle(Sorted(vs)))
  {
    var vhosts: seq<Entry> := [];
    for i := 0 to |vs|
      invariant vhosts == AllLowered(vs)[..i] && false !in muxOk[..i]
    {
      if !muxOk[i] {
        return Failed;
      }
      assert muxOk[..i + 1] == muxOk[..i] + [muxOk[i]];
      vhosts := vhosts + [Lowered(vs[i])];
    }
    assert vhosts == AllLowered(vs) && muxOk[..|vs|] == muxOk;
    vhosts := SliceStable(vhosts);
    SortedIsPartition(AllLowered(vs), vhosts);
    r := Compiled(vhosts, IsSingle(vhosts));
  }

  // Dispatch

  function FirstWhere(es: seq<Entry>, p: Entry -> bool): Option<Entry> {
    if es == [] then None
    else if p(es[0]) then Some(es[0])
    else FirstWhere(es[1..], p)
  }

  // The dispatch of handler, for the host name in lower case and without port:
  // None means the connection is closed.
  method Dispatch(vhosts: seq<Entry>, singleMux: bool, host: string) returns (r: Option<Entry>)
    requires singleMux ==> |vhosts| > 0
    ensures singleMux ==> r == Some(vhosts[0])
    ensures !singleMux ==> r == FirstWhere(vhosts, Matching(host))
  {
    if singleMux {
      return Some(vhosts[0]);
    }
    assert vhosts[0..] == vhosts;
    for i := 0 to |vhosts|
      invariant FirstWhere(vhosts[i..], Matching(host)) == FirstWhere(vhosts, Matching(host))
    {
      if MatchHost(vhosts[i], host) {
        return Some(vhosts[i]);
      }
      assert vhosts[i..][1..] == vhosts[i + 1..];
    }
    return None;
  }

  function Matching(host: string): Entry -> bool {
    (e: Entry) => MatchHost(e, host)
  }

  // Not a catch-all, and listing the host.
  function Named(host: string): Entry -> bool {
    (e: Entry) => Specific(e) && host in e.domains
  }

  // A catch-all that also matches the host.
  function Reached(host: string): Entry -> bool {
    (e: Entry) => CatchAll(e) && MatchHost(e, host)
  }

  function OrElse(a: Option<Entry>, b: Option<Entry>): Option<Entry> {
    if a.Some? then a else b
  }

  // What the configuration documents, in terms of its own order: the first specific
  // vhost that lists the host, else the first catch-all, else nothing.
  function Promised(vs: seq<VHost>, host: string): Option<Entry> {
    OrElse(FirstWhere(AllLowered(vs), Named(host)), FirstWhere(AllLowered(vs), CatchAll))
  }

  // What dispatch does with the compiled list.
  function Dispatched(vs: seq<VHost>, host: string): Option<Entry> {
    if IsSingle(Sorted(vs)) then Some(Sorted(vs)[0])
    else FirstWhere(Sorted(vs), Matching(host))
  }

  lemma {:induction false} FirstWhereConcat(a: seq<Entry>, b: seq<Entry>, p: Entry -> bool)
    ensures FirstWhere(a + b, p) == OrElse(FirstWhere(a, p), FirstWhere(b, p))
  {
    if a == [] {
      assert a + b == b;
    } else {
      assert (a + b)[1..] == a[1..] + b;
      FirstWhereConcat(a[1..], b, p);
    }
  }

  // Searching what a filter kept is searching for both conditions.
  lemma {:induction false} FirstWhereFilter(es: seq<Entry>, keep: Entry -> bool, p: Entry -> bool,
                                            both: Entry -> bool)
    requires forall e :: both(e) <==> keep(e) && p(e)
    ensures FirstWhere(Filter(es, keep), p) == FirstWhere(es, both)
  {
    if es != [] {
      var init, last := es[..|es| - 1], es[|es| - 1];
      FirstWhereFilter(init, keep, p, both);
      assert es == init + [last];
      FirstWhereConcat(init, [last], both);
      FirstWhereConcat(Filter(init, keep), [last], p);
    }
  }

  // In terms of the configuration order dispatch picks the first specific vhost
  // listing the host, else the first catch-all that matches the host.
  lemma DispatchInConfigOrder(vs: seq<VHost>, host: string)
    ensures FirstWhere(Sorted(vs), Matching(host))
         == OrElse(FirstWhere(AllLowered(vs), Named(host)), FirstWhere(AllLowered(vs), Reached(host)))
  {
    var es := AllLowered(vs);
    assert forall e :: Named(host)(e) <==> Specific(e) && Matching(host)(e);
    hide IsCatchAll, MatchHost, AllLowered, Filter, FirstWhere;
    FirstWhereConcat(Filter(es, Specific), Filter(es, CatchAll), Matching(host));
    FirstWhereFilter(es, Specific, Matching(host), Named(host));
    FirstWhereFilter(es, CatchAll, Matching(host), Reached(host));
  }

  lemma {:induction false} FirstWhereIs(es: seq<Entry>, p: Entry -> bool)
    ensures FirstWhere(es, p).Some? ==> p(FirstWhere(es, p).value) && FirstWhere(es, p).value in es
  {
    if es != [] {
      FirstWhereIs(es[1..], p);
    }
  }

  // The first element with a stronger property is the first with the weaker one
  // exactly when that one has the stronger property.
  lemma {:induction false} FirstOfStronger(es: seq<Entry>, p: Entry -> bool, q: Entry -> bool)
    requires forall e :: q(e) ==> p(e)
    ensures FirstWhere(es, q) == FirstWhere(es, p)
      <==> (FirstWhere(es, p).None? || q(FirstWhere(es, p).value))
  {
    FirstWhereIs(es, q);
    if es != [] {
      FirstOfStronger(es[1..], p, q);
    }
  }

  // Dispatch keeps the promise if and only if a specific vhost lists the host,
  // there is no catch-all, the first catch-all matches the host itself, or it is
  // the only vhost.
  lemma DispatchKeepsPromiseIff(vs: seq<VHost>, host: string)
    ensures Dispatched(vs, host) == Promised(vs, host) <==>
      (|| IsSingle(Sorted(vs))
       || FirstWhere(AllLowered(vs), Named(host)).Some?
       || FirstWhere(AllLowered(vs), CatchAll).None?
       || MatchHost(FirstWhere(AllLowered(vs), CatchAll).value, host))
  {
    if IsSingle(Sorted(vs)) {
      SingleKeepsPromise(vs, host);
    } else {
      DispatchInConfigOrder(vs, host);
      FirstWhereIs(AllLowered(vs), CatchAll);
      hide IsCatchAll, MatchHost, AllLowered, FirstWhere, Sorted;
      FirstOfStronger(AllLowered(vs), CatchAll, Reached(host));
    }
  }

  lemma SingleKeepsPromise(vs: seq<VHost>, host: string)
    requires IsSingle(Sorted(vs))
    ensures Dispatched(vs, host) == Promised(vs, host)
  {
    SingleIsCatchAll(vs);
    OnlyCatchAll(AllLowered(vs), host);
  }

  lemma OnlyCatchAll(es: seq<Entry>, host: string)
    requires |es| == 1 && CatchAll(es[0])
    ensures FirstWhere(es, Named(host)).None? && FirstWhere(es, CatchAll) == Some(es[0])
  {
    hide IsCatchAll;
  }

  lemma {:induction false} FilterLengths(es: seq<Entry>)
    ensures |Filter(es, Specific)| + |Filter(es, CatchAll)| == |es|
  {
    if es != [] {
      FilterLengths(es[..|es| - 1]);
    }
  }

  lemma SingleIsCatchAll(vs: seq<VHost>)
    requires IsSingle(Sorted(vs))
    ensures |vs| == 1 && Sorted(vs) == AllLowered(vs) && CatchAll(AllLowered(vs)[0])
  {
    var es := AllLowered(vs);
    FilterLengths(es);
    assert |es| == 1;
    hide IsCatchAll, Less;
    PrefixAndSuffix(es);
  }

  // With no empty domain in the configuration the promise is kept for every host,
  // and the shortcut for a single catch-all changes nothing.
  lemma DispatchKeepsPromise(vs: seq<VHost>, host: string)
    requires forall i :: 0 <= i < |vs| ==> "" !in vs[i].domains
    ensures Dispatched(vs, host) == Promised(vs, host)
    ensures IsSingle(Sorted(vs)) ==> Some(Sorted(vs)[0]) == FirstWhere(Sorted(vs), Matching(host))
  {
    var es := AllLowered(vs);
    forall e | e in es && CatchAll(e) ensures MatchHost(e, host) {
      var i :| 0 <= i < |es| && es[i] == e;
      NoEmptyDomain(vs[i]);
    }
    DispatchKeepsPromiseIff(vs, host);
    FirstWhereIs(es, CatchAll);
    if IsSingle(Sorted(vs)) {
      SingleIsCatchAll(vs);
      assert es[0] in es;
    }
  }

  lemma NoEmptyDomain(v: VHost)
    requires "" !in v.domains
    ensures "" !in Lowered(v).domains
  {
    var low := Lowered(v).domains;
    forall k | 0 <= k < |low| ensures low[k] != "" {
      assert low[k] == ToLower(v.domains[k]) && v.domains[k] in v.domains;
    }
  }

  // An empty domain makes a vhost a catch-all for the sort and for the shortcut,
  // but not for matching: as soon as another vhost stands beside it, the hosts of
  // neither are turned away instead of reaching it.
  lemma EmptyDomainIsNoCatchAll(domain: string, host: string)
    requires domain != "*" && domain != "" && host != "" && host != ToLower(domain)
    ensures var vs := [VHost([""], 0), VHost([domain], 1)];
      Promised(vs, host) == Some(Entry([""], 0)) && Dispatched(vs, host).None?
  {
    var vs := [VHost([""], 0), VHost([domain], 1)];
    var es := AllLowered(vs);
    var d := ToLower(domain);
    assert domain[0] != '*' ==> d[0] != '*';
    assert es[0].domains == [""] && es[1].domains == [d];
    assert es == [Entry([""], 0), Entry([d], 1)];
    DispatchInConfigOrder(vs, host);
    FilterLengths(es);
    hide AllLowered, ToLower;
    SearchTwo(es, Named(host));
    SearchTwo(es, CatchAll);
    SearchTwo(es, Reached(host));
  }

  lemma SearchTwo(es: seq<Entry>, p: Entry -> bool)
    requires |es| == 2
    ensures FirstWhere(es, p) == if p(es[0]) then Some(es[0]) else if p(es[1]) then Some(es[1]) else None
  {
    assert es == [es[0]] + [es[1]];
    FirstWhereConcat([es[0]], [es[1]], p);
  }

  // Dispatch told by the configuration text alone

  predicate Lists(v: VHost, host: string) {
    exists d :: d in v.domains && ToLower(d) == host
  }

  predicate Open(v: VHost) {
    "*" in v.domains || "" in v.domains
  }

  lemma OnlyItself(d: string)
    ensures ToLower(d) == "*" <==> d == "*"
    ensures ToLower(d) == "" <==> d == ""
  {
    if |d| == 1 {
      assert ToLower(d)[0] == LowerChar(d[0]);
      assert d == [d[0]];
    }
  }

  lemma LoweredHas(v: VHost, host: string)
    ensures host in Lowered(v).domains <==> Lists(v, host)
  {
    var low := Lowered(v).domains;
    assert forall k :: 0 <= k < |low| ==> low[k] == ToLower(v.domains[k]);
    hide ToLower;
    if d :| d in v.domains && ToLower(d) == host {
      var k :| 0 <= k < |v.domains| && v.domains[k] == d;
      assert low[k] == host;
    }
  }

  lemma LoweredIs(v: VHost, host: string)
    ensures Named(host)(Lowered(v)) <==> !Open(v) && Lists(v, host)
    ensures CatchAll(Lowered(v)) <==> Open(v)
    ensures MatchHost(Lowered(v), host) <==> "*" in v.domains || Lists(v, host)
    ensures Lowered(v).mux == v.mux
  {
    LoweredHas(v, host);
    LoweredHas(v, "*");
    LoweredHas(v, "");
    forall d ensures ToLower(d) == "*" <==> d == "*" {
      OnlyItself(d);
    }
    forall d ensures ToLower(d) == "" <==> d == "" {
      OnlyItself(d);
    }
    hide ToLower;
  }

  lemma {:induction false} FirstWhereAt(es: seq<Entry>, p: Entry -> bool, k: nat)
    requires k < |es| ==> p(es[k])
    requires forall i :: 0 <= i < |es| && i < k ==> !p(es[i])
    ensures FirstWhere(es, p) == if k < |es| then Some(es[k]) else None
  {
    if es != [] && k > 0 {
      FirstWhereAt(es[1..], p, k - 1);
    }
  }

  // A host that some vhost without "*" or an empty domain lists, in any case, goes to
  // the first such vhost, wherever the catch-alls stand.
  lemma ListedHostIsServed(vs: seq<VHost>, host: string, i: nat)
    requires i < |vs| && !Open(vs[i]) && Lists(vs[i], host)
    requires forall j :: 0 <= j < i ==> Open(vs[j]) || !Lists(vs[j], host)
    ensures Dispatched(vs, host).Some? && Dispatched(vs, host).value.mux == vs[i].mux
  {
    AllLoweredIs(vs, host);
    DispatchKeepsPromiseIff(vs, host);
    hide Named, Lists, Open, Lowered, AllLowered, Dispatched, CatchAll, MatchHost;
    FirstWhereAt(AllLowered(vs), Named(host), i);
  }

  lemma AllLoweredIs(vs: seq<VHost>, host: string)
    ensures |AllLowered(vs)| == |vs|
    ensures forall i :: 0 <= i < |vs| ==>
      var e, v := AllLowered(vs)[i], vs[i];
      && e.mux == v.mux
      && (Named(host)(e) <==> !Open(v) && Lists(v, host)) && (CatchAll(e) <==> Open(v))
      && (MatchHost(e, host) <==> "*" in v.domains || Lists(v, host))
  {
    forall i | 0 <= i < |vs|
      ensures var e, v := AllLowered(vs)[i], vs[i];
        && e.mux == v.mux
        && (Named(host)(e) <==> !Open(v) && Lists(v, host)) && (CatchAll(e) <==> Open(v))
        && (MatchHost(e, host) <==> "*" in v.domains || Lists(v, host))
    {
      LoweredIs(vs[i], host);
    }
  }

  // Any other host goes to the first vhost with "*", if no empty domain stands in
  // between, and nowhere if there is none.
  lemma OtherHostIsServed(vs: seq<VHost>, host: string, i: nat)
    requires forall j :: 0 <= j < |vs| ==> Open(vs[j]) || !Lists(vs[j], host)
    requires i < |vs| ==> "*" in vs[i].domains
    requires forall j :: 0 <= j < |vs| && j < i ==> !Open(vs[j])
    ensures i < |vs| ==> Dispatched(vs, host).Some? && Dispatched(vs, host).value.mux == vs[i].mux
    ensures i >= |vs| ==> Dispatched(vs, host).None?
  {
    var es := AllLowered(vs);
    AllLoweredIs(vs, host);
    DispatchKeepsPromiseIff(vs, host);
    assert i < |vs| ==> Open(vs[i]);
    hide Named, Lists, Open, Lowered, AllLowered, Dispatched, CatchAll, MatchHost;
    FirstWhereAt(es, Named(host), |es|);
    FirstWhereAt(es, CatchAll, i);
  }
}
