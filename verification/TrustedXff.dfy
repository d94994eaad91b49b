// headers.go: the ${trusted_xff} variable, the address of the nearest peer that
// is not a trusted proxy, read from the X-Forwarded-For chain.
module TrustedXff {
  import opened GoStrings

  // What the code reads from the configuration. `valid` stands for "net.ParseIP
  // succeeds" and `trusted` for "the trusted-proxies list contains the address".
  datatype Trust =
    | NoConfig
    | Trust(trustClientHeaders: bool, hasProxies: bool, valid: string -> bool, trusted: string -> bool)
  {
    // An entry that the right-to-left walk steps over.
    predicate Skips(ip: string)
      requires Trust?
    {
      valid(ip) && trusted(ip)
    }
  }

  // The entries of one comma-separated header value.
  function ValueEntries(value: string): (es: seq<string>)
    ensures |es| >= 1
  {
    var parts := Split(value, ',');
    seq(|parts|, i requires 0 <= i < |parts| => TrimSpace(parts[i]))
  }

  // The entries of all header values, in order.
  function Entries(xff: seq<string>): (es: seq<string>)
    ensures xff != [] ==> |es| >= 1
  {
    if xff == [] then [] else ValueEntries(xff[0]) + Entries(xff[1..])
  }

  // Position of the rightmost entry the walk does not step over, or -1.
  function LastStop(es: seq<string>, cfg: Trust): (r: int)
    requires cfg.Trust?
    ensures -1 <= r < |es|
    ensures r >= 0 ==> !cfg.Skips(es[r])
    ensures forall i | r < i < |es| :: cfg.Skips(es[i])
  {
    if es == [] then -1
    else if !cfg.Skips(es[|es| - 1]) then |es| - 1
    else LastStop(es[..|es| - 1], cfg)
  }

  // The first entry that parses as an address, or the client address.
  function FirstValid(es: seq<string>, cfg: Trust, clientIP: string): string
    requires cfg.Trust?
  {
    if es == [] then clientIP
    else if cfg.valid(es[0]) then es[0]
    else FirstValid(es[1..], cfg, clientIP)
  }

  // The answer of the walk: fixed by the rightmost entry it cannot step over. An
  // untrusted address is the answer itself; behind a malformed entry the answer is
  // the entry to its right; a chain of trusted proxies answers with its left end.
  function Nearest(es: seq<string>, cfg: Trust, clientIP: string): string
    requires cfg.Trust? && |es| >= 1
  {
    var i := LastStop(es, cfg);
    if i < 0 then es[0]
    else if cfg.valid(es[i]) then es[i]
    else if i == |es| - 1 then clientIP
    else es[i + 1]
  }

  // What ${trusted_xff} means.
  function Resolve(xff: seq<string>, cfg: Trust, clientIP: string): string {
    match cfg
    case NoConfig => "${trusted_xff}"
    case Trust(all, hasProxies, _, _) =>
      if (!all && !hasProxies) || xff == [] then clientIP
      else if all then FirstValid(Entries(xff), cfg, clientIP)
      else Nearest(Entries(xff), cfg, clientIP)
  }

  function TrimAll(parts: seq<string>): (es: seq<string>)
    ensures |es| == |parts|
  {
    seq(|parts|, i requires 0 <= i < |parts| => TrimSpace(parts[i]))
  }

  // Joining the values with ", " and splitting at "," loses and adds nothing:
  // trimming gives the entries of the separate values.
  lemma {:induction false} FlattenIsPerValue(xff: seq<string>)
    requires xff != []
    ensures TrimAll(Split(Join(xff, ", "), ',')) == Entries(xff)
  {
    hide *;
    if |xff| == 1 {
      OneValue(xff);
    } else {
      var rest := Join(xff[1..], ", ");
      JoinStep(xff);
      SplitConcat(xff[0], " " + rest, ',');
      TrimAllConcat(Split(xff[0], ','), Split(" " + rest, ','));
      SpaceIsTrimmed(rest);
      FlattenIsPerValue(xff[1..]);
      EntriesStep(xff);
    }
  }

  lemma OneValue(xff: seq<string>)
    requires |xff| == 1
    ensures TrimAll(Split(Join(xff, ", "), ',')) == Entries(xff)
  {
    hide Split, TrimSpace;
    assert Entries(xff[1..]) == [];
    assert Entries(xff) == ValueEntries(xff[0]) + [];
  }

  lemma JoinStep(xff: seq<string>)
    requires |xff| > 1
    ensures Join(xff, ", ") == xff[0] + [','] + (" " + Join(xff[1..], ", "))
  {
  }

  lemma TrimAllConcat(a: seq<string>, b: seq<string>)
    ensures TrimAll(a + b) == TrimAll(a) + TrimAll(b)
  {
    hide TrimSpace;
  }

  // The space that joining puts in front of a value is trimmed away again.
  lemma SpaceIsTrimmed(rest: string)
    ensures TrimAll(Split(" " + rest, ',')) == TrimAll(Split(rest, ','))
  {
    var tail := Split(rest, ',');
    SplitPrefix(" ", rest, ',');
    hide Split;
    assert (" " + tail[0])[1..] == tail[0];
    assert TrimLeft(" " + tail[0]) == TrimLeft(tail[0]);
    hide TrimLeft, TrimRight;
  }

  lemma EntriesStep(xff: seq<string>)
    requires xff != []
    ensures Entries(xff) == TrimAll(Split(xff[0], ',')) + Entries(xff[1..])
  {
    hide Split, TrimSpace;
  }

  // evalTrustedXFF: flatten by join and split, then walk.
  method EvalTrustedXff(xff: seq<string>, cfg: Trust, clientIP: string) returns (r: string)
    ensures r == Resolve(xff, cfg, clientIP)
  {
    if cfg.NoConfig? {
      return "${trusted_xff}";
    }
    if !cfg.trustClientHeaders && !cfg.hasProxies {
      return clientIP;
    }
    if |xff| == 0 {
      return clientIP;
    }
    var ips := Split(Join(xff, ", "), ',');
    FlattenIsPerValue(xff);
    if cfg.trustClientHeaders {
      r := LeftmostValid(ips, cfg, clientIP);
    } else {
      r := WalkBack(ips, cfg, clientIP);
    }
  }

  method LeftmostValid(ips: seq<string>, cfg: Trust, clientIP: string) returns (r: string)
    requires cfg.Trust?
    ensures r == FirstValid(TrimAll(ips), cfg, clientIP)
  {
    hide TrimSpace;
    ghost var es := TrimAll(ips);
    assert es[0..] == es;
    for i := 0 to |ips|
      invariant FirstValid(es[i..], cfg, clientIP) == FirstValid(es, cfg, clientIP)
    {
      var ip := TrimSpace(ips[i]);
      assert es[i] == ip && es[i..][1..] == es[i + 1..];
      if cfg.valid(ip) {
        return ip;
      }
    }
    return clientIP;
  }

  method WalkBack(ips: seq<string>, cfg: Trust, clientIP: string) returns (r: string)
    requires cfg.Trust? && |ips| >= 1
    ensures r == Nearest(TrimAll(ips), cfg, clientIP)
  {
    hide TrimSpace;
    ghost var es := TrimAll(ips);
    var i := |ips| - 1;
    while i >= 0
      invariant -1 <= i < |ips|
      invariant forall j | i < j < |es| :: cfg.Skips(es[j])
    {
      var ip := TrimSpace(ips[i]);
      assert es[i] == ip;
      if !cfg.valid(ip) {
        assert LastStop(es, cfg) == i;
        if i == |ips| - 1 {
          return clientIP;
        }
        return TrimSpace(ips[i + 1]);
      }
      if !cfg.trusted(ip) {
        assert LastStop(es, cfg) == i;
        return ip;
      }
      i := i - 1;
    }
    return TrimSpace(ips[0]);
  }

  lemma {:induction false} EntriesConcat(a: seq<string>, b: seq<string>)
    ensures Entries(a + b) == Entries(a) + Entries(b)
  {
    if a == [] {
      assert a + b == b;
    } else {
      assert (a + b)[1..] == a[1..] + b;
      EntriesConcat(a[1..], b);
    }
  }

  // The walk stops at the same entry, whatever stands to the left of it.
  lemma StopDecides(pre: seq<string>, es: seq<string>, cfg: Trust, clientIP: string)
    requires cfg.Trust? && |es| >= 1
    requires exists i :: 0 <= i < |es| && !cfg.Skips(es[i])
    ensures Nearest(pre + es, cfg, clientIP) == Nearest(es, cfg, clientIP)
  {
    var all := pre + es;
    var i, k := LastStop(es, cfg), LastStop(all, cfg);
    assert i >= 0;
    assert all[|pre| + i] == es[i];
    assert forall j | |pre| + i < j < |all| :: all[j] == es[j - |pre|];
    assert k == |pre| + i;
  }

  // In trusted-proxies mode header values a client puts in front of the chain
  // change nothing once the chain holds an entry that is malformed or untrusted.
  lemma {:induction false} PrependedValuesIgnored(forged: seq<string>, xff: seq<string>, cfg: Trust, clientIP: string)
    requires cfg.Trust? && !cfg.trustClientHeaders && cfg.hasProxies
    requires exists i :: 0 <= i < |Entries(xff)| && !cfg.Skips(Entries(xff)[i])
    ensures Resolve(forged + xff, cfg, clientIP) == Resolve(xff, cfg, clientIP)
  {
    EntriesConcat(forged, xff);
    StopDecides(Entries(forged), Entries(xff), cfg, clientIP);
  }

  // Without such an entry the left end decides, so prepending one value that is
  // untrusted does change the answer.
  lemma AllTrustedLeftEnd(x: string, xff: seq<string>, cfg: Trust, clientIP: string)
    requires cfg.Trust? && !cfg.trustClientHeaders && cfg.hasProxies && xff != []
    requires forall i | 0 <= i < |Entries(xff)| :: cfg.Skips(Entries(xff)[i])
    requires ',' !in x && TrimSpace(x) == x && cfg.valid(x) && !cfg.trusted(x)
    ensures Resolve(xff, cfg, clientIP) == Entries(xff)[0]
    ensures Resolve([x] + xff, cfg, clientIP) == x
    ensures x != Entries(xff)[0]
  {
    var before, es := Entries(xff), Entries([x] + xff);
    PlainEntry(x, xff);
    NoStop(before, cfg);
    hide Entries, ValueEntries, LastStop, TrimSpace;
    assert forall j | 0 < j < |es| :: es[j] == before[j - 1];
    OnlyFirstStops(es, cfg);
  }

  lemma PlainEntry(x: string, xff: seq<string>)
    requires ',' !in x && TrimSpace(x) == x
    ensures Entries([x] + xff) == [x] + Entries(xff)
  {
    SplitPrefix(x, "", ',');
    assert x + "" == x;
    hide TrimSpace;
    assert ([x] + xff)[1..] == xff;
    assert ValueEntries(x) == [x];
  }

  lemma NoStop(es: seq<string>, cfg: Trust)
    requires cfg.Trust? && forall i | 0 <= i < |es| :: cfg.Skips(es[i])
    ensures LastStop(es, cfg) == -1
  {
    var r := LastStop(es, cfg);
  }

  lemma OnlyFirstStops(es: seq<string>, cfg: Trust)
    requires cfg.Trust? && |es| >= 1 && !cfg.Skips(es[0])
    requires forall i | 0 < i < |es| :: cfg.Skips(es[i])
    ensures LastStop(es, cfg) == 0
  {
    var r := LastStop(es, cfg);
  }

  // The answer told entry by entry

  // The entries of a header value are the texts between its commas, without the spaces
  // around them.
  lemma EntriesAre(parts: seq<string>, k: nat)
    requires k < |parts| && forall i | 0 <= i < |parts| :: ',' !in parts[i]
    ensures var es := Entries([Join(parts, ",")]);
      |es| == |parts| && es[k] == TrimSpace(parts[k])
  {
    SplitJoin(parts, ',');
    EntriesStep([Join(parts, ",")]);
    hide Split, Join, TrimSpace;
    assert Entries([Join(parts, ",")][1..]) == [];
  }

  // Neither setting trusts anybody: the client address. The same without a chain.
  lemma NobodyTrusted(xff: seq<string>, cfg: Trust, clientIP: string)
    requires cfg.Trust? && ((!cfg.trustClientHeaders && !cfg.hasProxies) || xff == [])
    ensures Resolve(xff, cfg, clientIP) == clientIP
  {
  }

  // Everybody is trusted: the first entry that is an address, else the client address.
  lemma {:induction false} FirstValidIs(es: seq<string>, cfg: Trust, clientIP: string, k: nat)
    requires cfg.Trust? && k <= |es|
    requires forall i | 0 <= i < k :: !cfg.valid(es[i])
    requires k < |es| ==> cfg.valid(es[k])
    ensures FirstValid(es, cfg, clientIP) == if k < |es| then es[k] else clientIP
  {
    if k > 0 {
      assert forall i | 0 <= i < |es[1..]| :: es[1..][i] == es[i + 1];
      FirstValidIs(es[1..], cfg, clientIP, k - 1);
    }
  }

  lemma EverybodyTrusted(xff: seq<string>, cfg: Trust, clientIP: string, k: nat)
    requires cfg.Trust? && cfg.trustClientHeaders && xff != [] && k <= |Entries(xff)|
    requires forall i | 0 <= i < k :: !cfg.valid(Entries(xff)[i])
    requires k < |Entries(xff)| ==> cfg.valid(Entries(xff)[k])
    ensures Resolve(xff, cfg, clientIP) == if k < |Entries(xff)| then Entries(xff)[k] else clientIP
  {
    hide Entries;
    FirstValidIs(Entries(xff), cfg, clientIP, k);
  }

  // The entries right of k are addresses of trusted proxies.
  predicate ProxiesBehind(es: seq<string>, cfg: Trust, k: int)
    requires cfg.Trust?
  {
    forall i | 0 <= i < |es| && k < i :: cfg.valid(es[i]) && cfg.trusted(es[i])
  }

  lemma LastStopIs(es: seq<string>, cfg: Trust, k: nat)
    requires cfg.Trust? && k < |es| && ProxiesBehind(es, cfg, k)
    requires !(cfg.valid(es[k]) && cfg.trusted(es[k]))
    ensures LastStop(es, cfg) == k
  {
    var r := LastStop(es, cfg);
  }

  // Trusted proxies: with nothing but their addresses behind it, an address that is
  // not trusted is the answer.
  lemma UntrustedAnswers(xff: seq<string>, cfg: Trust, clientIP: string, k: nat)
    requires cfg.Trust? && !cfg.trustClientHeaders && cfg.hasProxies && xff != []
    requires k < |Entries(xff)| && ProxiesBehind(Entries(xff), cfg, k)
    requires cfg.valid(Entries(xff)[k]) && !cfg.trusted(Entries(xff)[k])
    ensures Resolve(xff, cfg, clientIP) == Entries(xff)[k]
  {
    hide Entries, LastStop;
    LastStopIs(Entries(xff), cfg, k);
  }

  // A malformed entry is never the answer: it is the entry behind it, or the client
  // address if there is none.
  lemma MalformedStops(xff: seq<string>, cfg: Trust, clientIP: string, k: nat)
    requires cfg.Trust? && !cfg.trustClientHeaders && cfg.hasProxies && xff != []
    requires k < |Entries(xff)| && ProxiesBehind(Entries(xff), cfg, k)
    requires !cfg.valid(Entries(xff)[k])
    ensures Resolve(xff, cfg, clientIP) == if k == |Entries(xff)| - 1 then clientIP else Entries(xff)[k + 1]
  {
    hide Entries, LastStop;
    LastStopIs(Entries(xff), cfg, k);
  }

  // Trusted proxies throughout: the left end.
  lemma ProxiesThroughout(xff: seq<string>, cfg: Trust, clientIP: string)
    requires cfg.Trust? && !cfg.trustClientHeaders && cfg.hasProxies && xff != []
    requires ProxiesBehind(Entries(xff), cfg, -1)
    ensures Resolve(xff, cfg, clientIP) == Entries(xff)[0]
  {
    hide Entries, LastStop;
    NoStop(Entries(xff), cfg);
  }

  // So no text that a client makes up becomes the answer: it is the client address or
  // an entry that is an address.
  lemma AnswerIsAddress(xff: seq<string>, cfg: Trust, clientIP: string)
    requires cfg.Trust?
    ensures var r := Resolve(xff, cfg, clientIP);
      r == clientIP || (cfg.valid(r) && r in Entries(xff))
  {
    hide Entries, LastStop, FirstValid;
    if xff != [] {
      var es := Entries(xff);
      FirstValidMember(es, cfg, clientIP);
      var k := LastStop(es, cfg);
      assert k + 1 < |es| ==> cfg.Skips(es[k + 1]) && es[k + 1] in es;
      assert k >= 0 ==> es[k] in es;
    }
  }

  lemma {:induction false} FirstValidMember(es: seq<string>, cfg: Trust, clientIP: string)
    requires cfg.Trust?
    ensures var r := FirstValid(es, cfg, clientIP);
      r == clientIP || (cfg.valid(r) && r in es)
  {
    if es != [] {
      FirstValidMember(es[1..], cfg, clientIP);
    }
  }
}
