// server.go and acme_bridge.go: the hot reload, which must leave the settings fixed
// that the listener and the certificate manager were built from at start.
module Reload {
  import opened GoStrings
  import opened Options
  import VHosts

  datatype Tls = Tls(cert: string, key: string, acmeSource: string, renewBefore: string)

  const NO_TLS := Tls("", "", "", "")

  datatype Acme = Acme(email: string, cacheDir: string, challengeMode: string, servePort80: bool,
                       directoryUrl: string, caRootFile: string, insecure: bool)

  // routes stands for the routes and the multiplexer they compile to.
  datatype VHost = VHost(domains: seq<string>, routes: nat, tls: Option<Tls>)

  datatype Config = Config(listen: string, port: int, globalTlsCert: string, globalTlsKey: string,
                           acme: Option<Acme>, vhosts: seq<VHost>, configPath: string)

  function Key(v: VHost): string {
    Join(v.domains, "|")
  }

  // A vhost without a tls block counts as one with an empty block.
  function Snapshot(t: Option<Tls>): Tls {
    if t.Some? then t.value else NO_TLS
  }

  // The tls block of each key; the last vhost of a key wins.
  function LastTls(vs: seq<VHost>): map<string, Option<Tls>> {
    if vs == [] then map[]
    else LastTls(vs[..|vs| - 1])[Key(vs[|vs| - 1]) := vs[|vs| - 1].tls]
  }

  // The same with absent and empty blocks identified.
  function TlsOf(vs: seq<VHost>): map<string, Tls> {
    map k | k in LastTls(vs) :: Snapshot(LastTls(vs)[k])
  }

  // vhostTLSMap
  method VHostTlsMap(vhosts: seq<VHost>) returns (m: map<string, Tls>)
    ensures m == TlsOf(vhosts)
  {
    m := map[];
    for i := 0 to |vhosts|
      invariant m == TlsOf(vhosts[..i])
    {
      TlsStep(vhosts, i);
      if vhosts[i].tls.Some? {
        m := m[Key(vhosts[i]) := vhosts[i].tls.value];
      } else {
        m := m[Key(vhosts[i]) := NO_TLS];
      }
    }
    assert vhosts[..|vhosts|] == vhosts;
  }

  lemma TlsStep(vhosts: seq<VHost>, i: nat)
    requires i < |vhosts|
    ensures LastTls(vhosts[..i + 1]) == LastTls(vhosts[..i])[Key(vhosts[i]) := vhosts[i].tls]
    ensures TlsOf(vhosts[..i + 1]) == TlsOf(vhosts[..i])[Key(vhosts[i]) := Snapshot(vhosts[i].tls)]
  {
    assert vhosts[..i + 1][..i] == vhosts[..i];
  }

  // sameVHostTLSSet: equal sizes and every old entry found again make equal maps,
  // in whatever order the old map is walked.
  method SameVHostTlsSet(oldV: seq<VHost>, newV: seq<VHost>) returns (same: bool)
    ensures same <==> TlsOf(oldV) == TlsOf(newV)
  {
    var oldMap := VHostTlsMap(oldV);
    var newMap := VHostTlsMap(newV);
    if |oldMap| != |newMap| {
      return false;
    }
    var todo := oldMap.Keys;
    while todo != {}
      invariant todo <= oldMap.Keys
      invariant forall k :: k in oldMap && k !in todo ==> k in newMap && newMap[k] == oldMap[k]
      decreases |todo|
    {
      var k :| k in todo;
      if k !in newMap || oldMap[k] != newMap[k] {
        return false;
      }
      todo := todo - {k};
    }
    SubmapOfSameSize(oldMap, newMap);
    return true;
  }

  lemma SubmapOfSameSize(a: map<string, Tls>, b: map<string, Tls>)
    requires |a| == |b|
    requires forall k :: k in a ==> k in b && b[k] == a[k]
    ensures a == b
  {
    assert |a.Keys| == |a| && |b.Keys| == |b|;
    if a.Keys != b.Keys {
      var k :| k in b && k !in a;
      SubsetSmaller(a.Keys + {k}, b.Keys);
    }
  }

  lemma {:induction false} SubsetSmaller(a: set<string>, b: set<string>)
    requires a <= b
    ensures |a| <= |b|
  {
    if x :| x in a {
      SubsetSmaller(a - {x}, b - {x});
    }
  }

  // acmeConfigChanged
  predicate AcmeChanged(a: Config, b: Config) {
    a.acme != b.acme || TlsOf(a.vhosts) != TlsOf(b.vhosts)
  }

  method AcmeConfigChanged(a: Config, b: Config) returns (changed: bool)
    ensures changed <==> AcmeChanged(a, b)
  {
    if a.acme != b.acme {
      return true;
    }
    var same := SameVHostTlsSet(a.vhosts, b.vhosts);
    return !same;
  }

  function RevertedOne(before: map<string, Option<Tls>>, v: VHost): VHost {
    if Key(v) in before then v.(tls := before[Key(v)]) else v
  }

  function Reverted(oldV: seq<VHost>, newV: seq<VHost>): seq<VHost> {
    seq(|newV|, i requires 0 <= i < |newV| => RevertedOne(LastTls(oldV), newV[i]))
  }

  // revertVHostTLS changes the new vhosts in place.
  method RevertVHostTls(oldV: seq<VHost>, newV: array<VHost>)
    modifies newV
    ensures newV[..] == Reverted(oldV, old(newV[..]))
  {
    var oldMap: map<string, Option<Tls>> := map[];
    for i := 0 to |oldV|
      invariant oldMap == LastTls(oldV[..i])
      invariant newV[..] == old(newV[..])
    {
      TlsStep(oldV, i);
      oldMap := oldMap[Key(oldV[i]) := oldV[i].tls];
    }
    assert oldV[..|oldV|] == oldV;
    hide LastTls, Key;
    for i := 0 to newV.Length
      invariant forall j :: 0 <= j < i ==> newV[j] == RevertedOne(oldMap, old(newV[j]))
      invariant forall j :: i <= j < newV.Length ==> newV[j] == old(newV[j])
    {
      var key := Key(newV[i]);
      if key in oldMap {
        newV[i] := newV[i].(tls := oldMap[key]);
      }
    }
  }

  // The configuration a reload adopts when it succeeds.
  function Adopted(live: Config, parsed: Config): Config {
    var fixed := parsed.(port := live.port, listen := live.listen,
                         globalTlsCert := live.globalTlsCert, globalTlsKey := live.globalTlsKey);
    if AcmeChanged(live, fixed)
    then fixed.(acme := live.acme, vhosts := Reverted(live.vhosts, fixed.vhosts))
    else fixed
  }

  // The second step of Reload.
  method RevertFixed(live: Config, parsed: Config) returns (newCfg: Config)
    ensures newCfg == Adopted(live, parsed)
  {
    newCfg := parsed;
    if newCfg.port != live.port || newCfg.listen != live.listen {
      newCfg := newCfg.(port := live.port, listen := live.listen);
    }
    if newCfg.globalTlsCert != live.globalTlsCert || newCfg.globalTlsKey != live.globalTlsKey {
      newCfg := newCfg.(globalTlsCert := live.globalTlsCert, globalTlsKey := live.globalTlsKey);
    }
    hide TlsOf, Reverted;
    var changed := AcmeConfigChanged(live, newCfg);
    if changed {
      newCfg := newCfg.(acme := live.acme);
      var vhosts := newCfg.vhosts;
      var newVHosts := new VHost[|vhosts|](i requires 0 <= i < |vhosts| => vhosts[i]);
      assert newVHosts[..] == vhosts;
      RevertVHostTls(live.vhosts, newVHosts);
      newCfg := newCfg.(vhosts := newVHosts[..]);
    }
  }

  // What the outside contributes to one reload: the parsed and validated
  // configuration, if any, the routes that do not compile, and whether the address
  // lists load.
  datatype Attempt = Attempt(parsed: Option<Config>, broken: set<nat>, filterOk: bool, proxiesOk: bool)

  predicate Compiles(vs: seq<VHost>, broken: set<nat>) {
    forall i :: 0 <= i < |vs| ==> vs[i].routes !in broken
  }

  predicate Succeeds(live: Config, a: Attempt) {
    && live.configPath != "" && a.parsed.Some?
    && Compiles(a.parsed.value.vhosts, a.broken) && a.filterOk && a.proxiesOk
  }

  function After(live: Config, a: Attempt): Config {
    if Succeeds(live, a) then Adopted(live, a.parsed.value) else live
  }

  function Routed(vs: seq<VHost>): seq<VHosts.VHost> {
    seq(|vs|, i requires 0 <= i < |vs| => VHosts.VHost(vs[i].domains, vs[i].routes))
  }

  method Compile(cfg: Config, broken: set<nat>) returns (r: VHosts.Compiled)
    ensures var sorted := VHosts.Sorted(Routed(cfg.vhosts));
      r == if Compiles(cfg.vhosts, broken) then VHosts.Compiled(sorted, VHosts.IsSingle(sorted)) else VHosts.Failed
  {
    var vs := cfg.vhosts;
    var muxOk := seq(|vs|, i requires 0 <= i < |vs| => vs[i].routes !in broken);
    assert Compiles(vs, broken) <==> false !in muxOk by {
      if !Compiles(vs, broken) {
        var i :| 0 <= i < |vs| && vs[i].routes in broken;
        assert muxOk[i] == false;
      }
    }
    r := VHosts.CompileVHosts(Routed(vs), muxOk);
  }

  // A reload drops, adds and reroutes vhosts as the file says: all but the tls
  // blocks comes from the parsed configuration.
  lemma AdoptedRoutes(live: Config, parsed: Config)
    ensures Routed(Adopted(live, parsed).vhosts) == Routed(parsed.vhosts)
    ensures forall broken :: Compiles(Adopted(live, parsed).vhosts, broken) == Compiles(parsed.vhosts, broken)
  {
    hide LastTls, Key, TlsOf;
    var before := LastTls(live.vhosts);
    assert forall v :: RevertedOne(before, v).routes == v.routes && RevertedOne(before, v).domains == v.domains;
    hide RevertedOne;
    forall broken ensures Compiles(Adopted(live, parsed).vhosts, broken) == Compiles(parsed.vhosts, broken) {
      var vs := Adopted(live, parsed).vhosts;
      assert forall i :: 0 <= i < |vs| ==> vs[i].routes == parsed.vhosts[i].routes;
    }
  }

  lemma CompilesIs(vs: seq<VHost>, broken: set<nat>)
    ensures Compiles(vs, broken) <==> forall i :: 0 <= i < |vs| ==> vs[i].routes !in broken
  {
  }

  class Server {
    var cfg: Config
    var vhosts: seq<VHosts.Entry>
    var singleMux: bool

    // The served table is the compilation of the live configuration.
    ghost predicate Valid()
      reads this
    {
      && vhosts == VHosts.Sorted(Routed(cfg.vhosts))
      && singleMux == VHosts.IsSingle(vhosts)
    }

    // newServer, once the listen address is resolved and the vhosts compile.
    constructor (cfg: Config, compiled: VHosts.Compiled)
      requires compiled == VHosts.Compiled(VHosts.Sorted(Routed(cfg.vhosts)),
                                           VHosts.IsSingle(VHosts.Sorted(Routed(cfg.vhosts))))
      ensures Valid() && this.cfg == cfg
    {
      this.cfg, vhosts, singleMux := cfg, compiled.vhosts, compiled.singleMux;
    }

    method Reload(a: Attempt) returns (done: bool)
      requires Valid()
      modifies this
      ensures Valid()
      ensures done == Succeeds(old(cfg), a) && cfg == After(old(cfg), a)
      ensures done <==>
        && old(cfg).configPath != "" && a.parsed.Some? && a.filterOk && a.proxiesOk
        && forall i :: 0 <= i < |a.parsed.value.vhosts| ==> a.parsed.value.vhosts[i].routes !in a.broken
      ensures !done ==> vhosts == old(vhosts) && singleMux == old(singleMux)
    {
      hide Adopted, Compiles, Routed, VHosts.Sorted, VHosts.IsSingle;
      if cfg.configPath == "" || a.parsed.None? {
        return false;
      }
      CompilesIs(a.parsed.value.vhosts, a.broken);
      var newCfg := RevertFixed(cfg, a.parsed.value);
      AdoptedRoutes(cfg, a.parsed.value);
      var compiled := Compile(newCfg, a.broken);
      if compiled.Failed? || !a.filterOk || !a.proxiesOk {
        return false;
      }
      cfg, vhosts, singleMux := newCfg, compiled.vhosts, compiled.singleMux;
      return true;
    }
  }

  // A reload is all or nothing: without a file, a configuration that parses, routes that
  // compile and address lists that load, the live configuration stays.
  lemma ReloadsOnlyIf(live: Config, a: Attempt)
    ensures (live.configPath == "" || a.parsed.None? || !a.filterOk || !a.proxiesOk) ==> After(live, a) == live
    ensures (a.parsed.Some? && exists v :: v in a.parsed.value.vhosts && v.routes in a.broken) ==>
      After(live, a) == live
  {
    hide Adopted;
  }

  // A vhost with an empty tls block counts as one without: exchanging them is no change.
  lemma AbsentIsEmpty(live: Config, parsed: Config, i: nat)
    requires i < |live.vhosts| && live.vhosts[i].tls == None && live.acme == parsed.acme
    requires parsed.vhosts == live.vhosts[i := live.vhosts[i].(tls := Some(Tls("", "", "", "")))]
    ensures !AcmeChanged(live, parsed) && !AcmeChanged(parsed, live)
  {
    SameSnapshots(live.vhosts, parsed.vhosts);
  }

  lemma {:induction false} SameSnapshots(a: seq<VHost>, b: seq<VHost>)
    requires |a| == |b|
    requires forall k :: 0 <= k < |a| ==> a[k].domains == b[k].domains && Snapshot(a[k].tls) == Snapshot(b[k].tls)
    ensures TlsOf(a) == TlsOf(b)
  {
    if a != [] {
      var n := |a| - 1;
      SameSnapshots(a[..n], b[..n]);
      TlsStep(a, n);
      TlsStep(b, n);
      assert a[..n + 1] == a && b[..n + 1] == b && Key(a[n]) == Key(b[n]);
    }
  }

  // The live configuration after a run of reload attempts.
  function Run(start: Config, attempts: seq<Attempt>): Config {
    if attempts == [] then start
    else After(Run(start, attempts[..|attempts| - 1]), attempts[|attempts| - 1])
  }

  // Whatever is parsed and whatever fails, the settings fixed at start stay.
  lemma {:induction false} FixedSettingsStay(start: Config, attempts: seq<Attempt>)
    ensures var live := Run(start, attempts);
      && live.port == start.port && live.listen == start.listen
      && live.globalTlsCert == start.globalTlsCert && live.globalTlsKey == start.globalTlsKey
      && live.acme == start.acme
  {
    hide TlsOf, Reverted;
    if attempts != [] {
      FixedSettingsStay(start, attempts[..|attempts| - 1]);
    }
  }

  lemma {:induction false} LastTlsDomain(vs: seq<VHost>, k: string)
    ensures k in LastTls(vs) ==> exists i :: 0 <= i < |vs| && Key(vs[i]) == k && vs[i].tls == LastTls(vs)[k]
    ensures (exists i :: 0 <= i < |vs| && Key(vs[i]) == k) ==> k in LastTls(vs)
  {
    hide Key;
    if vs != [] {
      var n := |vs| - 1;
      LastTlsDomain(vs[..n], k);
      if i :| 0 <= i < |vs| && Key(vs[i]) == k {
        if i < n {
          assert vs[..n][i] == vs[i];
        }
      }
      if Key(vs[n]) != k && k in LastTls(vs) {
        var i :| 0 <= i < n && Key(vs[..n][i]) == k && vs[..n][i].tls == LastTls(vs[..n])[k];
        assert vs[i] == vs[..n][i];
      }
    }
  }

  // Reverting changes no key; a key of the old list gets the block it had there,
  // any other keeps its own.
  lemma {:induction false} RevertedTls(oldV: seq<VHost>, newV: seq<VHost>)
    ensures LastTls(Reverted(oldV, newV)).Keys == LastTls(newV).Keys
    ensures forall k :: k in LastTls(newV) ==>
      LastTls(Reverted(oldV, newV))[k] == if k in LastTls(oldV) then LastTls(oldV)[k] else LastTls(newV)[k]
  {
    if newV != [] {
      var n := |newV| - 1;
      RevertedTls(oldV, newV[..n]);
      RevertedInit(oldV, newV);
    }
  }

  lemma RevertedInit(oldV: seq<VHost>, newV: seq<VHost>)
    requires newV != []
    ensures var n := |newV| - 1;
      && Reverted(oldV, newV)[..n] == Reverted(oldV, newV[..n])
      && Reverted(oldV, newV)[n] == RevertedOne(LastTls(oldV), newV[n])
      && Key(Reverted(oldV, newV)[n]) == Key(newV[n])
  {
  }

  // What one reload does to the tls blocks, key by key.
  lemma AdoptedTls(live: Config, parsed: Config)
    ensures var adopted := TlsOf(Adopted(live, parsed).vhosts);
      && adopted.Keys == TlsOf(parsed.vhosts).Keys
      && forall k :: k in adopted ==>
        adopted[k] == if k in TlsOf(live.vhosts) then TlsOf(live.vhosts)[k] else TlsOf(parsed.vhosts)[k]
  {
    RevertedTls(live.vhosts, parsed.vhosts);
    hide LastTls, Reverted;
  }

  // After reverting, the check for changed certificate settings still fires exactly
  // when vhosts were added or removed.
  lemma RevertedUnlessVHostsDiffer(live: Config, parsed: Config)
    ensures AcmeChanged(live, Adopted(live, parsed))
       <==> TlsOf(live.vhosts).Keys != TlsOf(parsed.vhosts).Keys
  {
    AdoptedTls(live, parsed);
    assert Adopted(live, parsed).acme == live.acme;
    hide TlsOf, Adopted;
  }

  predicate Has(cfg: Config, k: string) {
    k in TlsOf(cfg.vhosts)
  }

  // The number of attempts after which key k last came into the live configuration.
  function Introduced(start: Config, attempts: seq<Attempt>, k: string): (n: nat)
    requires Has(Run(start, attempts), k)
    ensures n <= |attempts|
  {
    if attempts == [] then 0
    else if Has(Run(start, attempts[..|attempts| - 1]), k) then Introduced(start, attempts[..|attempts| - 1], k)
    else |attempts|
  }

  // The attempt's file has the key, with this block.
  predicate Brings(a: Attempt, k: string, tls: Tls) {
    a.parsed.Some? && Has(a.parsed.value, k) && TlsOf(a.parsed.value.vhosts)[k] == tls
  }

  // The live tls block of a key is the one it had at start or, when it was away in
  // between, the one it was last brought back with.
  lemma {:induction false} TlsSinceIntroduction(start: Config, attempts: seq<Attempt>, k: string)
    requires Has(Run(start, attempts), k)
    ensures var n, tls := Introduced(start, attempts, k), TlsOf(Run(start, attempts).vhosts)[k];
      && (n == 0 ==> Has(start, k) && tls == TlsOf(start.vhosts)[k])
      && (n > 0 ==> Brings(attempts[n - 1], k, tls))
  {
    hide TlsOf, Adopted;
    if attempts != [] {
      var init := attempts[..|attempts| - 1];
      var a := attempts[|attempts| - 1];
      if Succeeds(Run(start, init), a) {
        AdoptedTls(Run(start, init), a.parsed.value);
      }
      if Has(Run(start, init), k) {
        TlsSinceIntroduction(start, init, k);
        assert forall i :: 0 <= i < |init| ==> init[i] == attempts[i];
      }
    }
  }

  // So the block is the one the certificate manager was built from at start if and
  // only if the key never left, or came back with that same block.
  lemma TlsFixedIff(start: Config, attempts: seq<Attempt>, k: string)
    requires Has(start, k) && Has(Run(start, attempts), k)
    ensures (TlsOf(Run(start, attempts).vhosts)[k] == TlsOf(start.vhosts)[k])
       <==> (var n := Introduced(start, attempts, k);
             n == 0 || Brings(attempts[n - 1], k, TlsOf(start.vhosts)[k]))
  {
    hide TlsOf, Run;
    TlsSinceIntroduction(start, attempts, k);
  }

  lemma RunTwo(start: Config, a: Attempt, b: Attempt)
    ensures Run(start, [a, b]) == After(After(start, a), b)
  {
    hide After;
    assert [a, b][..1] == [a] && [a][..0] == [];
    assert Run(start, [a]) == After(Run(start, []), a);
  }

  lemma LastTlsAppend(vs: seq<VHost>, v: VHost)
    ensures LastTls(vs + [v]) == LastTls(vs)[Key(v) := v.tls]
  {
    assert (vs + [v])[..|vs|] == vs;
  }

  lemma OneVHost(v: VHost)
    ensures TlsOf([v]) == map[Key(v) := Snapshot(v.tls)]
  {
    LastTlsAppend([], v);
    assert [v] == [] + [v];
  }

  // Two reloads, one that drops a vhost and one that brings it back, change its
  // certificate settings, which a single reload never does.
  lemma TlsChangesAfterRemoval(start: Config, v: VHost, other: VHost, changed: Option<Tls>)
    requires start.configPath != "" && start.vhosts == [v] && Key(v) != Key(other)
    ensures var away := Attempt(Some(start.(vhosts := [other])), {}, true, true);
      var back := Attempt(Some(start.(vhosts := [v.(tls := changed)])), {}, true, true);
      TlsOf(Run(start, [away, back]).vhosts) == map[Key(v) := Snapshot(changed)]
  {
    var w := v.(tls := changed);
    var first, second := start.(vhosts := [other]), start.(vhosts := [w]);
    var away, back := Attempt(Some(first), {}, true, true), Attempt(Some(second), {}, true, true);
    RunTwo(start, away, back);
    var live := Adopted(start, first);
    ReloadSucceeds(start, first);
    ReloadSucceeds(live, second);
    KeyOf(v, w);
    hide *;
    AdoptedTls(start, first);
    AdoptedTls(live, second);
    OneVHost(v);
    OneVHost(other);
    OneVHost(w);
    assert TlsOf(live.vhosts).Keys == {Key(other)};
  }

  lemma ReloadSucceeds(live: Config, parsed: Config)
    requires live.configPath != ""
    ensures After(live, Attempt(Some(parsed), {}, true, true)) == Adopted(live, parsed)
    ensures Adopted(live, parsed).configPath == parsed.configPath
  {
    hide TlsOf, Reverted;
  }

  lemma KeyOf(v: VHost, w: VHost)
    ensures v.domains == w.domains ==> Key(v) == Key(w)
  {
  }

  // Domain lists as they should be: not empty, without the separator, no list twice.
  predicate WellFormed(vs: seq<VHost>) {
    && (forall i :: 0 <= i < |vs| ==> |vs[i].domains| >= 1 && NoBar(vs[i].domains))
    && (forall i, j :: 0 <= i < j < |vs| ==> vs[i].domains != vs[j].domains)
  }

  predicate NoBar(domains: seq<string>) {
    forall i | 0 <= i < |domains| :: '|' !in domains[i]
  }

  lemma SameKeySameDomains(a: VHost, b: VHost)
    requires |a.domains| >= 1 && NoBar(a.domains) && |b.domains| >= 1 && NoBar(b.domains)
    ensures Key(a) == Key(b) <==> a.domains == b.domains
  {
    if Key(a) == Key(b) {
      JoinInjective(a.domains, b.domains, '|');
    }
  }

  lemma OwnTls(vs: seq<VHost>, i: nat)
    requires WellFormed(vs) && i < |vs|
    ensures Key(vs[i]) in LastTls(vs) && LastTls(vs)[Key(vs[i])] == vs[i].tls
  {
    hide NoBar, Key, LastTls;
    LastTlsDomain(vs, Key(vs[i]));
    var j :| 0 <= j < |vs| && Key(vs[j]) == Key(vs[i]) && vs[j].tls == LastTls(vs)[Key(vs[i])];
    SameKeySameDomains(vs[i], vs[j]);
  }

  // A vhost that is in both the running and the new configuration keeps its tls
  // block, with no block and an empty one identified.
  lemma VHostKeepsTls(live: Config, parsed: Config, i: nat, j: nat)
    requires WellFormed(live.vhosts) && WellFormed(parsed.vhosts)
    requires i < |live.vhosts| && j < |parsed.vhosts| && live.vhosts[i].domains == parsed.vhosts[j].domains
    ensures var adopted := Adopted(live, parsed).vhosts;
      && |adopted| == |parsed.vhosts| && adopted[j].domains == parsed.vhosts[j].domains
      && Snapshot(adopted[j].tls) == Snapshot(live.vhosts[i].tls)
  {
    OwnTls(live.vhosts, i);
    OwnTls(parsed.vhosts, j);
    var k := Key(parsed.vhosts[j]);
    assert k == Key(live.vhosts[i]);
    hide LastTls, Key, WellFormed;
    assert TlsOf(live.vhosts)[k] == Snapshot(live.vhosts[i].tls);
    assert TlsOf(parsed.vhosts)[k] == Snapshot(parsed.vhosts[j].tls);
  }

  // The last vhost of its key in the list.
  ghost predicate LastOfKey(vs: seq<VHost>, l: nat, key: string) {
    l < |vs| && Key(vs[l]) == key && forall m :: l < m < |vs| ==> Key(vs[m]) != key
  }

  lemma {:induction false} LastOfKeyCounts(vs: seq<VHost>, l: nat, key: string)
    requires LastOfKey(vs, l, key)
    ensures key in LastTls(vs) && LastTls(vs)[key] == vs[l].tls
  {
    hide Key;
    if l < |vs| - 1 {
      assert Key(vs[|vs| - 1]) != key;
      LastOfKeyCounts(vs[..|vs| - 1], l, key);
    }
  }

  // For all lists, repeated or sharing keys: a vhost of the new configuration that
  // has the domains of a running one keeps its block if and only if, when the reload
  // reverts, the last running vhost of that key has this block too and, when it does
  // not, the file gives this block.
  lemma VHostKeepsTlsIff(live: Config, parsed: Config, i: nat, j: nat, l: nat)
    requires i < |live.vhosts| && j < |parsed.vhosts| && live.vhosts[i].domains == parsed.vhosts[j].domains
    requires LastOfKey(live.vhosts, l, Key(live.vhosts[i]))
    ensures |Adopted(live, parsed).vhosts| == |parsed.vhosts|
    ensures (Snapshot(Adopted(live, parsed).vhosts[j].tls) == Snapshot(live.vhosts[i].tls)) <==>
      if AcmeChanged(live, parsed) then Snapshot(live.vhosts[l].tls) == Snapshot(live.vhosts[i].tls)
      else Snapshot(parsed.vhosts[j].tls) == Snapshot(live.vhosts[i].tls)
  {
    LastOfKeyCounts(live.vhosts, l, Key(live.vhosts[i]));
    hide LastTls, TlsOf, LastOfKey;
    assert Key(parsed.vhosts[j]) == Key(live.vhosts[i]);
    hide Key;
    assert AcmeChanged(live, parsed) ==>
      Adopted(live, parsed).vhosts[j] == RevertedOne(LastTls(live.vhosts), parsed.vhosts[j]);
  }

  // Which lists share a key: equal ones, and ones that differ by a separator inside
  // a domain. Nothing in the configuration excludes either.
  lemma KeysCollide(a: VHost, b: VHost)
    ensures a.domains == b.domains ==> Key(a) == Key(b)
    ensures a.domains == ["a|b"] && b.domains == ["a", "b"] ==> Key(a) == Key(b)
  {
    assert ["a", "b"][1..] == ["b"];
  }

  lemma TwoVHosts(a: VHost, b: VHost)
    requires Key(a) == Key(b)
    ensures LastTls([a, b]) == map[Key(a) := b.tls] && TlsOf([a, b]) == map[Key(a) := Snapshot(b.tls)]
  {
    hide Key;
    LastTlsAppend([], a);
    LastTlsAppend([a], b);
    assert [] + [a] == [a] && [a] + [b] == [a, b];
  }

  // Of two vhosts with one key the first can change its block by a single reload: the
  // change check looks at the second only.
  lemma SharedKeyChangesTls(live: Config, parsed: Config, a: VHost, b: VHost, changed: Option<Tls>)
    requires Key(a) == Key(b) && live.acme == parsed.acme
    requires live.vhosts == [a, b] && parsed.vhosts == [a.(tls := changed), b]
    ensures !AcmeChanged(live, parsed) && Adopted(live, parsed).vhosts == [a.(tls := changed), b]
  {
    TwoVHosts(a, b);
    assert Key(a.(tls := changed)) == Key(a);
    TwoVHosts(a.(tls := changed), b);
  }

  // And a reload that reverts hands the block of the second to both.
  lemma SharedKeyMixesTls(live: Config, parsed: Config, a: VHost, b: VHost)
    requires Key(a) == Key(b) && live.acme != parsed.acme
    requires live.vhosts == [a, b] && parsed.vhosts == [a, b]
    ensures Adopted(live, parsed).vhosts == [a.(tls := b.tls), b]
  {
    TwoVHosts(a, b);
    hide Key, LastTls, TlsOf;
    assert Reverted([a, b], [a, b]) == [a.(tls := b.tls), b];
  }

  lemma BarMixesTls(live: Config, parsed: Config, a: VHost, b: VHost)
    requires a.domains == ["a|b"] && b.domains == ["a", "b"]
    requires live.vhosts == [a, b] && parsed.vhosts == [a, b] && live.acme != parsed.acme
    ensures Adopted(live, parsed).vhosts == [a.(tls := b.tls), b]
  {
    KeysCollide(a, b);
    hide *;
    SharedKeyMixesTls(live, parsed, a, b);
  }
}
