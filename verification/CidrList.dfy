// ipfilter.go: the refreshable list of networks behind the IP filter and the
// trusted proxies. Membership of an address in a network is a parameter.
module CidrList {
  import opened Options

  // A source is a network written in the configuration, or a file or URL that is
  // loaded and refreshed.
  datatype Source<Net> = Inline(cidr: Net) | Dynamic

  // What reading a file or URL gives: its networks, or a failure.
  datatype Reading<Net> = Ok(nets: seq<Net>) | Failed

  // The sources and, for each dynamic one that was loaded, the stored list.
  datatype Lists<Net> = Lists(sources: seq<Source<Net>>, dynamic: map<nat, seq<Net>>) {
    predicate IsDynamic(i: nat) {
      i < |sources| && sources[i].Dynamic?
    }
  }

  ghost predicate InlineNet<Net(!new)>(sources: seq<Source<Net>>, n: Net) {
    exists i :: 0 <= i < |sources| && sources[i] == Inline(n)
  }

  ghost predicate StoredNet<Net(!new)>(dynamic: map<nat, seq<Net>>, n: Net) {
    exists i :: i in dynamic && n in dynamic[i]
  }

  // The networks that count: the inline ones and the ones last stored.
  ghost predicate Listed<Net(!new)>(s: Lists<Net>, n: Net) {
    InlineNet(s.sources, n) || StoredNet(s.dynamic, n)
  }

  class CIDRList<Net(==, !new)> {
    var nets: seq<Net>
    var sources: seq<Source<Net>>
    var dynamic: map<nat, seq<Net>>

    ghost function State(): Lists<Net>
      reads this
    {
      Lists(sources, dynamic)
    }

    ghost predicate Valid()
      reads this
    {
      && (forall i :: i in dynamic ==> State().IsDynamic(i))
      && (forall n :: n in nets <==> Listed(State(), n))
    }

    constructor ()
      ensures Valid() && State() == Lists([], map[])
    {
      nets, sources, dynamic := [], [], map[];
    }

    // addToCIDRList
    method Add(src: Source<Net>)
      requires Valid()
      modifies this
      ensures Valid() && State() == Apply(old(State()), Added(src))
    {
      sources := sources + [src];
      ListedAfterAdd(old(State()), src);
      if src.Inline? {
        nets := nets + [src.cidr];
      }
    }

    // rebuild
    method Rebuild()
      requires forall i :: i in dynamic ==> State().IsDynamic(i)
      modifies this`nets
      ensures Valid()
    {
      hide InlineNet, StoredNet;
      var inline := InlineNets(sources);
      nets := WithStored(inline, dynamic);
    }

    static method InlineNets(sources: seq<Source<Net>>) returns (nets: seq<Net>)
      ensures forall n :: n in nets <==> InlineNet(sources, n)
    {
      nets := [];
      for i := 0 to |sources|
        invariant forall n :: n in nets <==> InlineNet(sources[..i], n)
      {
        InlineGrows(sources, i);
        if sources[i].Inline? {
          nets := nets + [sources[i].cidr];
        }
      }
      assert sources[..|sources|] == sources;
    }

    // The dynamic lists, in any order.
    static method WithStored(inline: seq<Net>, dynamic: map<nat, seq<Net>>) returns (nets: seq<Net>)
      ensures forall n :: n in nets <==> n in inline || StoredNet(dynamic, n)
    {
      nets := inline;
      var todo := dynamic.Keys;
      assert dynamic - todo == map[];
      while todo != {}
        invariant todo <= dynamic.Keys
        invariant forall n :: n in nets <==> n in inline || StoredNet(dynamic - todo, n)
        decreases |todo|
      {
        var i :| i in todo;
        StoredStep(dynamic, todo, i);
        nets, todo := nets + dynamic[i], todo - {i};
      }
      assert dynamic - todo == dynamic;
    }

    // setDynamic
    method SetDynamic(i: nat, cidrs: seq<Net>)
      requires Valid() && State().IsDynamic(i)
      modifies this
      ensures Valid() && sources == old(sources) && dynamic == old(dynamic)[i := cidrs]
    {
      dynamic := dynamic[i := cidrs];
      Rebuild();
    }

    // The body of Load for one source: a failure stores the empty list.
    method LoadOne(i: nat, reading: Reading<Net>)
      requires Valid() && State().IsDynamic(i)
      modifies this
      ensures Valid() && State() == Apply(old(State()), Loaded(i, reading))
    {
      SetDynamic(i, if reading.Ok? then reading.nets else []);
    }

    // Load, given what each source reads as.
    method Load(readings: seq<Reading<Net>>)
      requires Valid() && |readings| == |sources|
      modifies this
      ensures Valid() && State() == Run(old(State()), LoadEvents(old(sources), readings))
    {
      ghost var start := State();
      for i := 0 to |sources|
        invariant Valid() && sources == start.sources
        invariant State() == Run(start, LoadEvents(sources[..i], readings[..i]))
      {
        assert sources[..i + 1][..i] == sources[..i] && readings[..i + 1][..i] == readings[..i];
        if sources[i].Dynamic? {
          LoadOne(i, readings[i]);
        }
      }
      assert sources[..|sources|] == sources && readings[..|readings|] == readings;
      Rebuild();
    }

    // One background refresh: a failure keeps the stored list.
    method Refresh(i: nat, reading: Reading<Net>)
      requires Valid() && State().IsDynamic(i)
      modifies this
      ensures Valid() && State() == Apply(old(State()), Refreshed(i, reading))
    {
      if reading.Failed? {
        return;
      }
      SetDynamic(i, reading.nets);
    }

    method Contains<Ip>(covers: (Net, Ip) -> bool, ip: Ip) returns (found: bool)
      requires Valid()
      ensures found <==> Within(State(), covers, ip)
    {
      for k := 0 to |nets|
        invariant forall j :: 0 <= j < k ==> !covers(nets[j], ip)
      {
        if covers(nets[k], ip) {
          assert nets[k] in nets;
          return true;
        }
      }
      return false;
    }

    method Len() returns (n: nat)
      requires Valid()
      ensures n > 0 <==> NonEmpty(State())
    {
      n := |nets|;
      if n > 0 {
        assert nets[0] in nets;
      }
    }
  }

  ghost predicate Within<Net(!new), Ip>(s: Lists<Net>, covers: (Net, Ip) -> bool, ip: Ip) {
    exists n :: Listed(s, n) && covers(n, ip)
  }

  ghost predicate NonEmpty<Net(!new)>(s: Lists<Net>) {
    exists n :: Listed(s, n)
  }

  // The policy: in the allowed networks if there are any, and not in the blocked ones.
  ghost predicate Admits<Net(!new), Ip>(allowed: Lists<Net>, blocked: Lists<Net>, covers: (Net, Ip) -> bool,
                                        addr: Option<Ip>)
  {
    && addr.Some?
    && (NonEmpty(allowed) ==> Within(allowed, covers, addr.value))
    && !Within(blocked, covers, addr.value)
  }

  lemma InlineGrows<Net(!new)>(sources: seq<Source<Net>>, k: nat)
    requires k < |sources|
    ensures forall n :: InlineNet(sources[..k + 1], n) <==> InlineNet(sources[..k], n) || sources[k] == Inline(n)
  {
    forall n
      ensures InlineNet(sources[..k + 1], n) <==> InlineNet(sources[..k], n) || sources[k] == Inline(n)
    {
      if InlineNet(sources[..k], n) {
        var i :| 0 <= i < k && sources[..k][i] == Inline(n);
        assert sources[..k + 1][i] == Inline(n);
      }
      if InlineNet(sources[..k + 1], n) && sources[k] != Inline(n) {
        var i :| 0 <= i < k + 1 && sources[..k + 1][i] == Inline(n);
        assert sources[..k][i] == Inline(n);
      }
      if sources[k] == Inline(n) {
        assert sources[..k + 1][k] == Inline(n);
      }
    }
  }

  lemma StoredGrows<Net(!new)>(done: map<nat, seq<Net>>, i: nat, cidrs: seq<Net>)
    requires i !in done
    ensures forall n :: StoredNet(done[i := cidrs], n) <==> StoredNet(done, n) || n in cidrs
  {
    var more := done[i := cidrs];
    forall n ensures StoredNet(more, n) <==> StoredNet(done, n) || n in cidrs {
      if StoredNet(done, n) {
        var j :| j in done && n in done[j];
        assert j in more && n in more[j];
      }
      if n in cidrs {
        assert i in more && n in more[i];
      }
    }
  }

  lemma StoredStep<Net(!new)>(dynamic: map<nat, seq<Net>>, todo: set<nat>, i: nat)
    requires i in todo && i in dynamic
    ensures forall n :: StoredNet(dynamic - (todo - {i}), n) <==> StoredNet(dynamic - todo, n) || n in dynamic[i]
  {
    assert dynamic - (todo - {i}) == (dynamic - todo)[i := dynamic[i]];
    StoredGrows(dynamic - todo, i, dynamic[i]);
  }

  lemma ListedAfterAdd<Net(!new)>(s: Lists<Net>, src: Source<Net>)
    ensures forall n :: Listed(Apply(s, Added(src)), n) <==> Listed(s, n) || src == Inline(n)
  {
    var more := s.sources + [src];
    InlineGrows(more, |s.sources|);
    assert more[..|s.sources|] == s.sources && more[..|more|] == more;
  }

  // Runs

  datatype Event<Net> =
    | Added(src: Source<Net>)
    | Loaded(idx: nat, reading: Reading<Net>)
    | Refreshed(idx: nat, reading: Reading<Net>)

  predicate Enabled<Net>(s: Lists<Net>, e: Event<Net>) {
    e.Added? || s.IsDynamic(e.idx)
  }

  function Apply<Net>(s: Lists<Net>, e: Event<Net>): Lists<Net> {
    match e
    case Added(src) => s.(sources := s.sources + [src])
    case Loaded(i, reading) => s.(dynamic := s.dynamic[i := if reading.Ok? then reading.nets else []])
    case Refreshed(i, reading) => if reading.Ok? then s.(dynamic := s.dynamic[i := reading.nets]) else s
  }

  function Run<Net>(s: Lists<Net>, events: seq<Event<Net>>): Lists<Net> {
    if events == [] then s
    else Apply(Run(s, events[..|events| - 1]), events[|events| - 1])
  }

  // Loading all sources, one after the other; inline ones are skipped.
  function LoadEvents<Net>(sources: seq<Source<Net>>, readings: seq<Reading<Net>>): seq<Event<Net>>
    requires |sources| == |readings|
  {
    if sources == [] then []
    else
      var n := |sources| - 1;
      var init := LoadEvents(sources[..n], readings[..n]);
      if sources[n].Dynamic? then init + [Loaded(n, readings[n])] else init
  }

  // The list of source i by history: what the last load stored, or a later refresh
  // that succeeded.
  function LastStored<Net>(events: seq<Event<Net>>, i: nat): Option<seq<Net>> {
    if events == [] then None
    else
      var e := events[|events| - 1];
      if e.Loaded? && e.idx == i then Some(if e.reading.Ok? then e.reading.nets else [])
      else if e.Refreshed? && e.idx == i && e.reading.Ok? then Some(e.reading.nets)
      else LastStored(events[..|events| - 1], i)
  }

  // The networks a history makes count.
  ghost predicate ListedByHistory<Net(!new)>(events: seq<Event<Net>>, n: Net) {
    || Added(Inline(n)) in events
    || exists i: nat :: LastStored(events, i).Some? && n in LastStored(events, i).value
  }

  lemma {:induction false} DynamicIsLastStored<Net>(events: seq<Event<Net>>, i: nat)
    ensures var dynamic := Run(Lists([], map[]), events).dynamic;
      LastStored(events, i) == if i in dynamic then Some(dynamic[i]) else None
  {
    if events != [] {
      DynamicIsLastStored(events[..|events| - 1], i);
    }
  }

  lemma {:induction false} SourcesAreAdded<Net(!new)>(events: seq<Event<Net>>, n: Net)
    ensures InlineNet(Run(Lists([], map[]), events).sources, n) <==> Added(Inline(n)) in events
  {
    if events != [] {
      var init, e := events[..|events| - 1], events[|events| - 1];
      SourcesAreAdded(init, n);
      assert events == init + [e];
      if e.Added? {
        var sources := Run(Lists([], map[]), events).sources;
        InlineGrows(sources, |sources| - 1);
        assert sources[..|sources| - 1] == Run(Lists([], map[]), init).sources;
        assert sources[..|sources| - 1 + 1] == sources;
      }
    }
  }

  // After every run of additions, loads and refreshes, failed ones included, an
  // address is in the list exactly when an inline source or the list last stored
  // for a dynamic source covers it.
  lemma ContainsByHistory<Net(!new), Ip>(events: seq<Event<Net>>, covers: (Net, Ip) -> bool, ip: Ip)
    ensures Within(Run(Lists([], map[]), events), covers, ip)
       <==> exists n :: ListedByHistory(events, n) && covers(n, ip)
  {
    forall n ensures Listed(Run(Lists([], map[]), events), n) <==> ListedByHistory(events, n) {
      ListedIsByHistory(events, n);
    }
  }

  lemma ListedIsByHistory<Net(!new)>(events: seq<Event<Net>>, n: Net)
    ensures Listed(Run(Lists([], map[]), events), n) <==> ListedByHistory(events, n)
  {
    SourcesAreAdded(events, n);
    var dynamic := Run(Lists([], map[]), events).dynamic;
    if StoredNet(dynamic, n) {
      var i :| i in dynamic && n in dynamic[i];
      DynamicIsLastStored(events, i);
    }
    if i: nat :| LastStored(events, i).Some? && n in LastStored(events, i).value {
      DynamicIsLastStored(events, i);
    }
  }

  // Some network of a list covers the address, by the list's history.
  ghost predicate CoveredByHistory<Net(!new), Ip>(events: seq<Event<Net>>, covers: (Net, Ip) -> bool, ip: Ip) {
    exists n :: ListedByHistory(events, n) && covers(n, ip)
  }

  // The policy, after any two runs of events: an address that does not parse never
  // passes, a blocked one never does, one of the allow list that is not blocked always
  // does, and any other one does if and only if the allow list has no network.
  lemma AdmitsByHistory<Net(!new), Ip>(allow: seq<Event<Net>>, block: seq<Event<Net>>,
                                       covers: (Net, Ip) -> bool, ip: Ip)
    ensures var allowed, blocked := Run(Lists([], map[]), allow), Run(Lists([], map[]), block);
      && !Admits(allowed, blocked, covers, None)
      && (CoveredByHistory(block, covers, ip) ==> !Admits(allowed, blocked, covers, Some(ip)))
      && (!CoveredByHistory(block, covers, ip) && CoveredByHistory(allow, covers, ip) ==>
            Admits(allowed, blocked, covers, Some(ip)))
      && (!CoveredByHistory(block, covers, ip) && !CoveredByHistory(allow, covers, ip) ==>
            (Admits(allowed, blocked, covers, Some(ip)) <==> forall n :: !ListedByHistory(allow, n)))
  {
    ContainsByHistory(allow, covers, ip);
    ContainsByHistory(block, covers, ip);
    forall n ensures Listed(Run(Lists([], map[]), allow), n) <==> ListedByHistory(allow, n) {
      ListedIsByHistory(allow, n);
    }
    var allowed, blocked := Run(Lists([], map[]), allow), Run(Lists([], map[]), block);
    assert Within(allowed, covers, ip) <==> CoveredByHistory(allow, covers, ip);
    assert Within(blocked, covers, ip) <==> CoveredByHistory(block, covers, ip);
    assert NonEmpty(allowed) <==> exists n :: ListedByHistory(allow, n);
    hide Run, Listed, ListedByHistory, Within, CoveredByHistory, NonEmpty;
    if Within(allowed, covers, ip) {
      WithinNonEmpty(allowed, covers, ip);
    }
  }

  lemma WithinNonEmpty<Net(!new), Ip>(s: Lists<Net>, covers: (Net, Ip) -> bool, ip: Ip)
    requires Within(s, covers, ip)
    ensures NonEmpty(s)
  {
    hide Listed;
  }

  // What Load makes of a list whose sources read in a given way.
  ghost function AfterLoad<Net>(sources: seq<Source<Net>>, readings: seq<Reading<Net>>): Lists<Net>
    requires |sources| == |readings|
  {
    Run(Lists(sources, map[]), LoadEvents(sources, readings))
  }

  lemma {:induction false} LoadStores<Net>(start: Lists<Net>, sources: seq<Source<Net>>, readings: seq<Reading<Net>>)
    requires |sources| == |readings| && start.dynamic == map[]
    ensures var r := Run(start, LoadEvents(sources, readings));
      && r.sources == start.sources
      && (forall i: nat :: i in r.dynamic <==> i < |sources| && sources[i].Dynamic?)
      && forall i :: i in r.dynamic ==> r.dynamic[i] == if readings[i].Ok? then readings[i].nets else []
  {
    if sources != [] {
      var n := |sources| - 1;
      LoadStores(start, sources[..n], readings[..n]);
      var init := LoadEvents(sources[..n], readings[..n]);
      if sources[n].Dynamic? {
        assert (init + [Loaded(n, readings[n])])[..|init|] == init;
      }
    }
  }

  // A source that contributes no network: a file or URL that cannot be read, or
  // that is empty.
  predicate ReadsAsNothing<Net(==)>(source: Source<Net>, reading: Reading<Net>) {
    source.Dynamic? && (reading.Failed? || reading.nets == [])
  }

  lemma EmptyAfterLoadIff<Net(!new)>(sources: seq<Source<Net>>, readings: seq<Reading<Net>>)
    requires |sources| == |readings|
    ensures !NonEmpty(AfterLoad(sources, readings)) <==>
      forall i :: 0 <= i < |sources| ==> ReadsAsNothing(sources[i], readings[i])
  {
    LoadStores(Lists(sources, map[]), sources, readings);
    var r := AfterLoad(sources, readings);
    if i :| 0 <= i < |sources| && !ReadsAsNothing(sources[i], readings[i]) {
      var n := if sources[i].Inline? then sources[i].cidr else readings[i].nets[0];
      assert sources[i].Inline? ==> InlineNet(r.sources, n);
      assert sources[i].Dynamic? ==> i in r.dynamic && n in r.dynamic[i];
      assert Listed(r, n);
    }
  }

  // The filter opens: after any run of additions, loads and refreshes of the allow
  // list an address that neither list covers is let in if and only if no inline source
  // and no list last stored has a network. A list without networks is treated as none.
  lemma FilterOpensIff<Net(!new), Ip>(events: seq<Event<Net>>, blocked: Lists<Net>,
                                      covers: (Net, Ip) -> bool, ip: Ip)
    requires !Within(Run(Lists([], map[]), events), covers, ip) && !Within(blocked, covers, ip)
    ensures Admits(Run(Lists([], map[]), events), blocked, covers, Some(ip)) <==>
      forall n :: !ListedByHistory(events, n)
  {
    AdmitsUncovered(Run(Lists([], map[]), events), blocked, covers, ip);
    forall n ensures Listed(Run(Lists([], map[]), events), n) <==> ListedByHistory(events, n) {
      ListedIsByHistory(events, n);
    }
    hide Run, Listed, ListedByHistory, Admits, Within;
  }

  // Right after a load that is if and only if every source of the allow list is a file
  // or URL and none of them gave a network, because it could not be read or was empty.
  lemma FilterOpensAfterLoadIff<Net(!new), Ip>(sources: seq<Source<Net>>, readings: seq<Reading<Net>>,
                                               blocked: Lists<Net>, covers: (Net, Ip) -> bool, ip: Ip)
    requires |sources| == |readings|
    requires !Within(AfterLoad(sources, readings), covers, ip) && !Within(blocked, covers, ip)
    ensures Admits(AfterLoad(sources, readings), blocked, covers, Some(ip)) <==>
      forall i :: 0 <= i < |sources| ==> ReadsAsNothing(sources[i], readings[i])
  {
    hide *;
    EmptyAfterLoadIff(sources, readings);
    AdmitsUncovered(AfterLoad(sources, readings), blocked, covers, ip);
  }

  // A refresh that reads an emptied file opens the filter just as well.
  lemma EmptyRefreshAdmitsAll<Net(!new), Ip>(nets: seq<Net>, blocked: Lists<Net>, covers: (Net, Ip) -> bool, ip: Ip)
    ensures var events := [Added(Dynamic), Loaded(0, Ok(nets)), Refreshed(0, Ok([]))];
      Admits(Run(Lists([], map[]), events), blocked, covers, Some(ip)) <==> !Within(blocked, covers, ip)
  {
    hide *;
    EmptiedList(nets);
    NoNetworks<Net>();
    AdmitsWithout(Lists([Dynamic], map[0 := []]), blocked, covers, ip);
  }

  lemma EmptiedList<Net>(nets: seq<Net>)
    ensures Run(Lists([], map[]), [Added(Dynamic), Loaded(0, Ok(nets)), Refreshed(0, Ok([]))])
         == Lists([Dynamic], map[0 := []])
  {
    var a, b, c: Event<Net> := Added(Dynamic), Loaded(0, Ok(nets)), Refreshed(0, Ok([]));
    var s0: Lists<Net>, s1, s2 := Lists([], map[]), Lists([Dynamic], map[]), Lists([Dynamic], map[0 := nets]);
    assert Apply(s0, a) == s1 && Apply(s1, b) == s2 && Apply(s2, c) == Lists([Dynamic], map[0 := []]);
    assert Run(s0, []) == s0;
    hide *;
    RunAppend(s0, [], a);
    RunAppend(s0, [a], b);
    RunAppend(s0, [a, b], c);
    assert [] + [a] == [a] && [a] + [b] == [a, b] && [a, b] + [c] == [a, b, c];
  }

  lemma NoNetworks<Net(!new)>()
    ensures !NonEmpty<Net>(Lists([Dynamic], map[0 := []]))
  {
  }

  lemma AdmitsWithout<Net(!new), Ip>(allowed: Lists<Net>, blocked: Lists<Net>, covers: (Net, Ip) -> bool, ip: Ip)
    requires !NonEmpty(allowed)
    ensures Admits(allowed, blocked, covers, Some(ip)) <==> !Within(blocked, covers, ip)
  {
    hide NonEmpty, Within;
  }

  lemma RunAppend<Net>(s: Lists<Net>, events: seq<Event<Net>>, e: Event<Net>)
    ensures Run(s, events + [e]) == Apply(Run(s, events), e)
  {
    assert (events + [e])[..|events|] == events;
  }

  lemma AdmitsUncovered<Net(!new), Ip>(allowed: Lists<Net>, blocked: Lists<Net>, covers: (Net, Ip) -> bool, ip: Ip)
    requires !Within(allowed, covers, ip) && !Within(blocked, covers, ip)
    ensures Admits(allowed, blocked, covers, Some(ip)) <==> !NonEmpty(allowed)
  {
  }

  // The failing input: one source that cannot be read lets every address in that is
  // not blocked.
  lemma UnreadableListAdmitsAll<Net(!new), Ip>(blocked: Lists<Net>, covers: (Net, Ip) -> bool, ip: Ip)
    ensures Admits(AfterLoad([Dynamic], [Failed]), blocked, covers, Some(ip)) <==> !Within(blocked, covers, ip)
  {
    EmptyAfterLoadIff<Net>([Dynamic], [Failed]);
    assert !NonEmpty<Net>(AfterLoad([Dynamic], [Failed]));
  }

  // The filter

  class IPFilter<Net(==, !new)> {
    var allowed: CIDRList?<Net>
    var blocked: CIDRList?<Net>

    constructor (allowed: CIDRList?<Net>, blocked: CIDRList?<Net>)
      ensures this.allowed == allowed && this.blocked == blocked
    {
      this.allowed, this.blocked := allowed, blocked;
    }

    ghost predicate Valid()
      reads this, allowed, blocked
    {
      (allowed != null ==> allowed.Valid()) && (blocked != null ==> blocked.Valid())
    }

    ghost function Allowed(): Lists<Net>
      reads this, allowed
    {
      if allowed == null then Lists([], map[]) else allowed.State()
    }

    ghost function Blocked(): Lists<Net>
      reads this, blocked
    {
      if blocked == null then Lists([], map[]) else blocked.State()
    }

    // Allow; addr is None when the remote address does not parse.
    method Allow<Ip>(covers: (Net, Ip) -> bool, addr: Option<Ip>) returns (ok: bool)
      requires Valid()
      ensures ok <==> Admits(Allowed(), Blocked(), covers, addr)
    {
      if addr.None? {
        return false;
      }
      var ip := addr.value;
      var hasAllowed, hasBlocked := false, false;
      if allowed != null {
        var n := allowed.Len();
        hasAllowed := n > 0;
      }
      if blocked != null {
        var n := blocked.Len();
        hasBlocked := n > 0;
      }
      if hasAllowed && hasBlocked {
        ok := allowed.Contains(covers, ip);
        if ok {
          var inBlocked := blocked.Contains(covers, ip);
          ok := !inBlocked;
        }
      } else if hasAllowed {
        ok := allowed.Contains(covers, ip);
      } else if hasBlocked {
        var inBlocked := blocked.Contains(covers, ip);
        ok := !inBlocked;
      } else {
        ok := true;
      }
    }
  }
}
