// acme/renew.go, acme/config.go: when a certificate is due for renewal and how
// often the renewal loop visits a vhost.
module Renewal {
  import opened IssueState
  import opened BackoffRuns
  import Domains

  const RENEW_CHECK_INTERVAL: nat := 12 * HOUR

  // Go's integer division truncates toward zero.
  function Third(x: int): int {
    if x >= 0 then x / 3 else -((-x) / 3)
  }

  // defaultRenewBefore
  function DefaultRenewBefore(notBefore: int, notAfter: int): int {
    Third(notAfter - notBefore)
  }

  // renewalDue, once the certificate has been read.
  predicate RenewalDue(notBefore: int, notAfter: int, renewBefore: int, now: int) {
    var lead := if renewBefore <= 0 then DefaultRenewBefore(notBefore, notAfter) else renewBefore;
    now > notAfter - lead
  }

  function CeilDiv(x: int, d: nat): int
    requires d > 0
  {
    (x + d - 1) / d
  }

  // By default renewal begins when two thirds of the lifetime, rounded up, have
  // passed since notBefore.
  lemma DefaultRenewalInstant(notBefore: int, notAfter: int, now: int)
    requires notBefore <= notAfter
    ensures RenewalDue(notBefore, notAfter, 0, now) <==> now > notBefore + CeilDiv(2 * (notAfter - notBefore), 3)
  {
  }

  // A configured lead replaces the default: renewal is due within that time of the end.
  lemma ConfiguredRenewalInstant(notBefore: int, notAfter: int, renewBefore: int, now: int)
    requires renewBefore > 0
    ensures RenewalDue(notBefore, notAfter, renewBefore, now) <==> now + renewBefore > notAfter
  {
  }

  // One pass of checkRenewals: when it starts and how long it stays with each
  // vhost (zero when nothing is due).
  datatype Pass = Pass(start: nat, stays: seq<nat>)

  function Sum(xs: seq<nat>): nat {
    if xs == [] then 0 else Sum(xs[..|xs| - 1]) + xs[|xs| - 1]
  }

  // When a pass reaches vhost j.
  function VisitTime(p: Pass, j: nat): nat
    requires j <= |p.stays|
  {
    p.start + Sum(p.stays[..j])
  }

  // renewLoop: the timer is set again when a pass has ended.
  ghost predicate LoopRun(passes: seq<Pass>, begin: nat, vhosts: nat) {
    && (passes != [] ==> passes[0].start == begin + MINUTE)
    && (forall i :: 0 <= i < |passes| ==> |passes[i].stays| == vhosts)
    && (forall i :: 0 <= i < |passes| - 1 ==>
          passes[i + 1].start == VisitTime(passes[i], vhosts) + RENEW_CHECK_INTERVAL)
  }

  // The loop as code: every pass walks the vhosts in order, then the timer runs.
  method RenewLoop(stays: seq<seq<nat>>, begin: nat, vhosts: nat) returns (passes: seq<Pass>)
    requires forall i :: 0 <= i < |stays| ==> |stays[i]| == vhosts
    ensures LoopRun(passes, begin, vhosts) && (passes != [] ==> passes[0].start == begin + MINUTE)
    ensures |passes| == |stays| && forall i :: 0 <= i < |stays| ==> passes[i].stays == stays[i]
  {
    passes := [];
    var now := begin + MINUTE;
    for i := 0 to |stays|
      invariant |passes| == i && forall k :: 0 <= k < i ==> passes[k].stays == stays[k]
      invariant LoopRun(passes, begin, vhosts)
      invariant now == if i == 0 then begin + MINUTE else VisitTime(passes[i - 1], vhosts) + RENEW_CHECK_INTERVAL
    {
      var p := Pass(now, stays[i]);
      for j := 0 to vhosts
        invariant now == VisitTime(p, j)
      {
        assert p.stays[..j + 1][..j] == p.stays[..j];
        now := now + stays[i][j];
      }
      passes := passes + [p];
      now := now + RENEW_CHECK_INTERVAL;
    }
  }

  lemma {:induction false} SumSplit(xs: seq<nat>, j: nat)
    requires j <= |xs|
    ensures Sum(xs) == Sum(xs[..j]) + Sum(xs[j..])
  {
    if j == |xs| {
      assert xs[..j] == xs;
    } else {
      var n := |xs| - 1;
      SumSplit(xs[..n], j);
      assert xs[..n][..j] == xs[..j] && xs[..n][j..] == xs[j..][..n - j];
    }
  }

  lemma {:induction false} SumAtMost(xs: seq<nat>, bound: nat)
    requires forall i :: 0 <= i < |xs| ==> xs[i] <= bound
    ensures Sum(xs) <= |xs| * bound
  {
    if xs != [] {
      SumAtMost(xs[..|xs| - 1], bound);
      assert |xs| * bound == (|xs| - 1) * bound + bound;
    }
  }

  ghost predicate StaysWithin(passes: seq<Pass>, stay: nat) {
    forall i, k :: 0 <= i < |passes| && 0 <= k < |passes[i].stays| ==> passes[i].stays[k] <= stay
  }

  lemma PartSums(xs: seq<nat>, j: nat, bound: nat)
    requires j <= |xs|
    requires forall k :: 0 <= k < |xs| ==> xs[k] <= bound
    ensures Sum(xs[..j]) <= j * bound
    ensures Sum(xs[..j]) <= Sum(xs[..|xs|]) <= Sum(xs[..j]) + (|xs| - j) * bound
  {
    assert xs[..|xs|] == xs;
    SumSplit(xs, j);
    SumAtMost(xs[..j], bound);
    SumAtMost(xs[j..], bound);
  }

  // Two visits of one vhost are between 12 hours and 12 hours plus one stay per
  // vhost apart.
  lemma VisitGap(passes: seq<Pass>, begin: nat, vhosts: nat, i: nat, j: nat, stay: nat)
    requires LoopRun(passes, begin, vhosts) && i + 1 < |passes| && j < vhosts
    requires StaysWithin(passes, stay)
    ensures VisitTime(passes[i], j) + RENEW_CHECK_INTERVAL <= VisitTime(passes[i + 1], j)
    ensures VisitTime(passes[i + 1], j) <= VisitTime(passes[i], j) + RENEW_CHECK_INTERVAL + vhosts * stay
  {
    hide Sum;
    PartSums(passes[i].stays, j, stay);
    PartSums(passes[i + 1].stays, j, stay);
    assert (vhosts - j) * stay + j * stay == vhosts * stay;
  }

  // A failing round at the visit of vhost j in a pass.
  ghost predicate RoundAt(round: Round, pass: Pass, j: nat) {
    && j < |pass.stays|
    && PlainFailure(round)
    && round.start == VisitTime(pass, j)
    && round.end <= round.start + pass.stays[j]
  }

  // A run of such rounds in consecutive passes.
  ghost predicate RoundsOfVhost(rounds: seq<Round>, passes: seq<Pass>, first: nat, j: nat) {
    && first + |rounds| <= |passes|
    && forall i :: 0 <= i < |rounds| ==> RoundAt(rounds[i], passes[first + i], j)
  }

  // The first visit of vhost j at or after an instant.
  ghost predicate FirstVisit(passes: seq<Pass>, f: nat, j: nat, since: nat) {
    && f < |passes| && j < |passes[f].stays| && since <= VisitTime(passes[f], j)
    && (f > 0 ==> j < |passes[f - 1].stays| && VisitTime(passes[f - 1], j) < since)
  }

  lemma FirstVisitSoon(passes: seq<Pass>, begin: nat, vhosts: nat, f: nat, j: nat, stay: nat, since: nat)
    requires LoopRun(passes, begin, vhosts) && j < vhosts && StaysWithin(passes, stay)
    requires FirstVisit(passes, f, j, since) && begin <= since
    ensures VisitTime(passes[f], j) <= since + RENEW_CHECK_INTERVAL + vhosts * stay
  {
    if f > 0 {
      VisitGap(passes, begin, vhosts, f - 1, j, stay);
    } else {
      PartSums(passes[0].stays, j, stay);
      assert vhosts * stay == j * stay + (vhosts - j) * stay;
    }
  }

  // A day of back-off, a gap between visits, and the stay itself.
  function Period(vhosts: nat, stay: nat): (period: nat)
    ensures period > 0
  {
    MAX_ISSUE_BACKOFF + (RENEW_CHECK_INTERVAL + vhosts * stay) + stay
  }

  // The visits of the loop are due visits with a gap of 12 hours and one stay per
  // vhost, so the loop gives its vhosts the rounds promised by OftenEnough.
  lemma LoopVisitsOftenEnough(es: Entries, key: string, rounds: seq<Round>, passes: seq<Pass>,
                              begin: nat, vhosts: nat, first: nat, j: nat, stay: nat, since: nat, L: nat)
    requires LoopRun(passes, begin, vhosts) && j < vhosts
    requires StaysWithin(passes, stay)
    requires begin <= since && FirstVisit(passes, first, j, since)
    requires RoundsOfVhost(rounds, passes, first, j) && rounds != []
    requires NextEligible(es, key) <= since + stay + MAX_ISSUE_BACKOFF
    requires rounds[|rounds| - 1].start > since + L
    ensures StartedBy(es, key, rounds, since + L)
         >= L / Period(vhosts, stay)
  {
    hide PlainFailure, VisitTime, LoopRun;
    assert forall i :: 0 <= i < |passes| ==> |passes[i].stays| == vhosts by { LoopWidth(passes, begin, vhosts); }
    var gap := RENEW_CHECK_INTERVAL + vhosts * stay;
    FirstVisitSoon(passes, begin, vhosts, first, j, stay, since);
    assert RoundAt(rounds[0], passes[first + 0], j);
    hide StaysWithin, RoundAt;
    forall i | 0 <= i < |rounds|
      ensures PlainFailure(rounds[i]) && rounds[i].end <= rounds[i].start + stay
    {
      ShortRound(rounds, passes, first, j, stay, i);
    }
    forall i | 0 <= i < |rounds| - 1
      ensures rounds[i + 1].start <= rounds[i].start + gap && rounds[i].end <= rounds[i + 1].start
    {
      NextRound(rounds, passes, begin, vhosts, first, j, stay, i);
    }
    OftenEnough(es, key, rounds, since, gap, stay, L);
  }

  lemma ShortRound(rounds: seq<Round>, passes: seq<Pass>, first: nat, j: nat, stay: nat, i: nat)
    requires RoundsOfVhost(rounds, passes, first, j) && StaysWithin(passes, stay) && i < |rounds|
    ensures PlainFailure(rounds[i]) && rounds[i].end <= rounds[i].start + stay
  {
    hide PlainFailure, VisitTime;
    assert RoundAt(rounds[i], passes[first + i], j);
    assert passes[first + i].stays[j] <= stay;
  }

  lemma NextRound(rounds: seq<Round>, passes: seq<Pass>, begin: nat, vhosts: nat, first: nat, j: nat, stay: nat, i: nat)
    requires LoopRun(passes, begin, vhosts) && j < vhosts && StaysWithin(passes, stay)
    requires RoundsOfVhost(rounds, passes, first, j) && i + 1 < |rounds|
    ensures rounds[i + 1].start <= rounds[i].start + RENEW_CHECK_INTERVAL + vhosts * stay
    ensures rounds[i].end <= rounds[i + 1].start
  {
    hide PlainFailure, VisitTime, LoopRun, StaysWithin;
    assert RoundAt(rounds[i], passes[first + i], j) && RoundAt(rounds[i + 1], passes[first + (i + 1)], j);
    VisitGap(passes, begin, vhosts, first + i, j, stay);
    StayEnds(passes, begin, vhosts, first + i, j);
  }

  lemma LoopWidth(passes: seq<Pass>, begin: nat, vhosts: nat)
    requires LoopRun(passes, begin, vhosts)
    ensures forall i :: 0 <= i < |passes| ==> |passes[i].stays| == vhosts
  {
  }

  lemma StayEnds(passes: seq<Pass>, begin: nat, vhosts: nat, i: nat, j: nat)
    requires LoopRun(passes, begin, vhosts) && i + 1 < |passes| && j < vhosts
    ensures VisitTime(passes[i], j) + passes[i].stays[j] <= VisitTime(passes[i + 1], j)
  {
    var p := passes[i];
    assert p.stays[..vhosts] == p.stays;
    SumSplit(p.stays, j + 1);
    assert p.stays[..j + 1][..j] == p.stays[..j];
  }

  // checkRenewals

  datatype Cert = Unreadable | Cert(notBefore: int, notAfter: int)

  datatype VHost = VHost(domains: seq<string>, usesACME: bool, renewBefore: int, cert: Cert)

  // A vhost is handed to issueAndStore when its certificate is unusable or due.
  predicate Wanted(v: VHost, now: int) {
    v.usesACME && (v.cert.Unreadable? || RenewalDue(v.cert.notBefore, v.cert.notAfter, v.renewBefore, now))
  }

  // Which vhosts a pass hands over: those with automatic issuance whose certificate
  // cannot be read, or that is within the configured lead of its end or, without one,
  // past two thirds of its lifetime.
  lemma WantedIff(v: VHost, now: int)
    requires v.cert.Cert? ==> v.cert.notBefore <= v.cert.notAfter
    ensures Wanted(v, now) <==>
      && v.usesACME
      && (v.cert.Cert? ==>
            if v.renewBefore > 0 then now + v.renewBefore > v.cert.notAfter
            else now > v.cert.notBefore + CeilDiv(2 * (v.cert.notAfter - v.cert.notBefore), 3))
  {
    if v.cert.Cert? && v.renewBefore <= 0 {
      DefaultRenewalInstant(v.cert.notBefore, v.cert.notAfter, now);
    }
  }

  // The table after a pass over the vhosts; rounds[i] answers for vhost i.
  function PassEntries(es: Entries, vhosts: seq<VHost>, rounds: seq<Round>): Entries
    requires |rounds| == |vhosts|
  {
    if vhosts == [] then es
    else
      var k := |vhosts| - 1;
      var before := PassEntries(es, vhosts[..k], rounds[..k]);
      if Wanted(vhosts[k], rounds[k].start)
      then Visit(before, Domains.IssueKey(vhosts[k].domains), rounds[k]).0
      else before
  }

  // What a pass leaves in the state file; saves[i] says whether a write succeeds.
  function PassFile(es: Entries, file: File, vhosts: seq<VHost>, rounds: seq<Round>, saves: seq<bool>): File
    requires |rounds| == |vhosts| == |saves|
  {
    if vhosts == [] then file
    else
      var k := |vhosts| - 1;
      var before := PassEntries(es, vhosts[..k], rounds[..k]);
      var fileBefore := PassFile(es, file, vhosts[..k], rounds[..k], saves[..k]);
      if Wanted(vhosts[k], rounds[k].start) then
        var (after, r) := Visit(before, Domains.IssueKey(vhosts[k].domains), rounds[k]);
        FileAfter(fileBefore, after, r, saves[k])
      else fileBefore
  }

  lemma PassStep(es: Entries, file: File, vhosts: seq<VHost>, rounds: seq<Round>, saves: seq<bool>, i: nat)
    requires |rounds| == |vhosts| == |saves| && i < |vhosts|
    ensures var before := PassEntries(es, vhosts[..i], rounds[..i]);
      var fileBefore := PassFile(es, file, vhosts[..i], rounds[..i], saves[..i]);
      var (after, r) := Visit(before, Domains.IssueKey(vhosts[i].domains), rounds[i]);
      var wanted := Wanted(vhosts[i], rounds[i].start);
      && PassEntries(es, vhosts[..i + 1], rounds[..i + 1]) == (if wanted then after else before)
      && PassFile(es, file, vhosts[..i + 1], rounds[..i + 1], saves[..i + 1])
         == if wanted then FileAfter(fileBefore, after, r, saves[i]) else fileBefore
  {
    hide Visit, FileAfter, Wanted;
    assert vhosts[..i + 1][..i] == vhosts[..i] && rounds[..i + 1][..i] == rounds[..i];
    assert saves[..i + 1][..i] == saves[..i];
  }

  // The manager may be stopped before vhost `stop`.
  method CheckRenewals(table: IssueTable, vhosts: seq<VHost>, rounds: seq<Round>, stop: nat, writeOk: seq<bool>)
    requires |rounds| == |vhosts| == |writeOk| && stop <= |vhosts|
    modifies table`entries, table`file
    ensures table.entries == PassEntries(old(table.entries), vhosts[..stop], rounds[..stop])
    ensures table.file == PassFile(old(table.entries), old(table.file), vhosts[..stop], rounds[..stop],
                                   seq(stop, i requires 0 <= i < stop => table.persistent && writeOk[i]))
  {
    ghost var saves := seq(|vhosts|, i requires 0 <= i < |vhosts| => table.persistent && writeOk[i]);
    assert PassFile(table.entries, table.file, vhosts[..0], rounds[..0], saves[..0]) == table.file;
    hide Visit, FileAfter, RenewalDue;
    for i := 0 to stop
      invariant table.entries == PassEntries(old(table.entries), vhosts[..i], rounds[..i])
      invariant table.file == PassFile(old(table.entries), old(table.file), vhosts[..i], rounds[..i], saves[..i])
    {
      var v := vhosts[i];
      PassStep(old(table.entries), old(table.file), vhosts, rounds, saves, i);
      hide PassEntries, PassFile;
      if !v.usesACME {
        continue;
      }
      if v.cert.Unreadable? {
        var r, _ := table.IssueAndStore(v.domains, rounds[i], writeOk[i]);
        continue;
      }
      var due := RenewalDue(v.cert.notBefore, v.cert.notAfter, v.renewBefore, rounds[i].start);
      if !due {
        continue;
      }
      var r, _ := table.IssueAndStore(v.domains, rounds[i], writeOk[i]);
    }
    assert saves[..stop] == seq(stop, i requires 0 <= i < stop => table.persistent && writeOk[i]);
  }

  // What the gate knows about a key.
  ghost predicate SameHistory(a: Entries, b: Entries, key: string) {
    Failures(a, key) == Failures(b, key) && NextEligible(a, key) == NextEligible(b, key)
  }

  lemma VisitOfOther(es: Entries, key: string, other: string, round: Round)
    requires key != other
    ensures SameHistory(Visit(es, other, round).0, es, key)
  {
    hide Wait;
  }

  lemma VisitReadsHistory(a: Entries, b: Entries, key: string, round: Round)
    requires SameHistory(a, b, key)
    ensures SameHistory(Visit(a, key, round).0, Visit(b, key, round).0, key)
  {
    hide Wait;
  }

  // In a pass the history of a vhost depends on its own round only: vhosts with
  // different keys do not disturb each other.
  lemma {:induction false} PassIsOwnVisit(es: Entries, vhosts: seq<VHost>, rounds: seq<Round>, j: nat)
    requires |rounds| == |vhosts| && j < |vhosts|
    requires forall i :: 0 <= i < |vhosts| && i != j ==>
      Domains.IssueKey(vhosts[i].domains) != Domains.IssueKey(vhosts[j].domains)
    ensures var key := Domains.IssueKey(vhosts[j].domains);
      SameHistory(PassEntries(es, vhosts, rounds),
                  if Wanted(vhosts[j], rounds[j].start) then Visit(es, key, rounds[j]).0 else es, key)
  {
    hide Visit, RenewalDue;
    var k := |vhosts| - 1;
    var key := Domains.IssueKey(vhosts[j].domains);
    var before := PassEntries(es, vhosts[..k], rounds[..k]);
    if j < k {
      PassIsOwnVisit(es, vhosts[..k], rounds[..k], j);
      VisitOfOther(before, key, Domains.IssueKey(vhosts[k].domains), rounds[k]);
    } else {
      PassOfOthers(es, vhosts[..k], rounds[..k], key);
      VisitReadsHistory(before, es, key, rounds[k]);
    }
  }

  lemma {:induction false} PassOfOthers(es: Entries, vhosts: seq<VHost>, rounds: seq<Round>, key: string)
    requires |rounds| == |vhosts|
    requires forall i :: 0 <= i < |vhosts| ==> Domains.IssueKey(vhosts[i].domains) != key
    ensures SameHistory(PassEntries(es, vhosts, rounds), es, key)
  {
    hide Visit, RenewalDue;
    if vhosts != [] {
      var k := |vhosts| - 1;
      PassOfOthers(es, vhosts[..k], rounds[..k], key);
      VisitOfOther(PassEntries(es, vhosts[..k], rounds[..k]), key, Domains.IssueKey(vhosts[k].domains), rounds[k]);
    }
  }

  // The file tells the same history as the table, of every key.
  ghost predicate FileInStep(es: Entries, file: File) {
    forall key :: SameHistory(Stored(file), es, key)
  }

  lemma VisitKeepsFile(es: Entries, file: File, key: string, round: Round)
    requires FileInStep(es, file)
    ensures var (after, r) := Visit(es, key, round);
      FileInStep(after, FileAfter(file, after, r, true))
  {
    hide Wait;
    var (after, r) := Visit(es, key, round);
    forall k ensures SameHistory(Stored(FileAfter(file, after, r, true)), after, k) {
      assert SameHistory(Stored(file), es, k);
    }
  }

  // As long as no write fails, every pass leaves in the file the history that the table
  // tells, whatever its rounds come to.
  lemma {:induction false} PassKeepsFile(es: Entries, file: File, vhosts: seq<VHost>, rounds: seq<Round>,
                                         saves: seq<bool>)
    requires |rounds| == |vhosts| == |saves| && FileInStep(es, file)
    requires forall i :: 0 <= i < |saves| ==> saves[i]
    ensures FileInStep(PassEntries(es, vhosts, rounds), PassFile(es, file, vhosts, rounds, saves))
  {
    hide Visit, FileAfter, Wanted, FileInStep;
    if vhosts != [] {
      var k := |vhosts| - 1;
      PassKeepsFile(es, file, vhosts[..k], rounds[..k], saves[..k]);
      VisitKeepsFile(PassEntries(es, vhosts[..k], rounds[..k]),
                     PassFile(es, file, vhosts[..k], rounds[..k], saves[..k]),
                     Domains.IssueKey(vhosts[k].domains), rounds[k]);
      assert saves[k];
    }
  }

  // Successive passes

  // One pass as checkRenewals sees it: the vhosts with their certificates at that
  // time, and the round each would have.
  datatype PassLog = PassLog(vhosts: seq<VHost>, rounds: seq<Round>)

  type PassRun = p: PassLog | |p.vhosts| == |p.rounds| witness PassLog([], [])

  // The pass concerns all vhosts, and no other one shares the key of vhost j.
  ghost predicate Serves(p: PassRun, vhosts: nat, j: nat, key: string) {
    && |p.vhosts| == vhosts && j < vhosts
    && Domains.IssueKey(p.vhosts[j].domains) == key
    && forall i :: 0 <= i < vhosts && i != j ==> Domains.IssueKey(p.vhosts[i].domains) != key
  }

  ghost predicate AllServe(ps: seq<PassRun>, vhosts: nat, j: nat, key: string) {
    forall i :: 0 <= i < |ps| ==> Serves(ps[i], vhosts, j, key)
  }

  // The table after a sequence of passes.
  ghost function PassesEntries(es: Entries, ps: seq<PassRun>): Entries
  {
    if ps == [] then es
    else
      var last := ps[|ps| - 1];
      PassEntries(PassesEntries(es, ps[..|ps| - 1]), last.vhosts, last.rounds)
  }

  lemma {:induction false} PassesConcat(es: Entries, ps: seq<PassRun>, f: nat)
    requires f <= |ps|
    ensures PassesEntries(es, ps) == PassesEntries(PassesEntries(es, ps[..f]), ps[f..])
  {
    hide PassEntries;
    if f == |ps| {
      assert ps[..f] == ps;
    } else {
      var k := |ps| - 1;
      PassesConcat(es, ps[..k], f);
      assert ps[..k][..f] == ps[..f] && ps[..k][f..] == ps[f..][..k - f];
    }
  }

  function RoundsOf(ps: seq<PassRun>, j: nat): (rounds: seq<Round>)
    requires forall i :: 0 <= i < |ps| ==> j < |ps[i].rounds|
    ensures |rounds| == |ps| && forall i :: 0 <= i < |ps| ==> rounds[i] == ps[i].rounds[j]
  {
    seq(|ps|, i requires 0 <= i < |ps| => ps[i].rounds[j])
  }

  // While a vhost is due, its history in the table of all vhosts is that of its own
  // visits.
  lemma {:induction false} PassesAreVisits(es: Entries, ps: seq<PassRun>, vhosts: nat, j: nat, key: string)
    requires AllServe(ps, vhosts, j, key)
    requires forall i :: 0 <= i < |ps| ==> Wanted(ps[i].vhosts[j], ps[i].rounds[j].start)
    ensures SameHistory(PassesEntries(es, ps), After(es, key, RoundsOf(ps, j)), key)
  {
    hide PassEntries, Visit, Wanted, Domains.IssueKey;
    if ps != [] {
      var k := |ps| - 1;
      var before := ps[..k];
      assert forall i :: 0 <= i < k ==> before[i] == ps[i];
      assert Serves(ps[k], vhosts, j, key);
      PassesAreVisits(es, before, vhosts, j, key);
      assert RoundsOf(ps, j)[..k] == RoundsOf(before, j);
      OnePassIsVisit(PassesEntries(es, before), After(es, key, RoundsOf(before, j)), ps[k], vhosts, j, key);
    }
  }

  lemma OnePassIsVisit(table: Entries, own: Entries, p: PassRun, vhosts: nat, j: nat, key: string)
    requires Serves(p, vhosts, j, key) && Wanted(p.vhosts[j], p.rounds[j].start)
    requires SameHistory(table, own, key)
    ensures SameHistory(PassEntries(table, p.vhosts, p.rounds), Visit(own, key, p.rounds[j]).0, key)
  {
    hide PassEntries, Visit, Wanted, Domains.IssueKey;
    PassIsOwnVisit(table, p.vhosts, p.rounds, j);
    VisitReadsHistory(table, own, key, p.rounds[j]);
  }

  lemma {:induction false} FailuresCounted(es: Entries, key: string, rounds: seq<Round>)
    requires forall i :: 0 <= i < |rounds| ==> PlainFailure(rounds[i])
    ensures Failures(After(es, key, rounds), key) == Failures(es, key) + Started(es, key, rounds)
  {
    hide Visit, Backoff, PlainFailure;
    if rounds != [] {
      var k := |rounds| - 1;
      assert forall i :: 0 <= i < k ==> rounds[..k][i] == rounds[i];
      FailuresCounted(es, key, rounds[..k]);
      PlainVisit(After(es, key, rounds[..k]), key, rounds[k]);
    }
  }

  // A certificate that is due stays due.
  lemma WantedLater(v: VHost, t: int, u: int)
    requires t <= u && Wanted(v, t)
    ensures Wanted(v, u)
  {
  }

  // The rounds of vhost j happen at the loop's visits, and from `since` on the vhost
  // is due and nothing is issued for it.
  ghost predicate FailsSince(p: PassRun, pass: Pass, j: nat, since: nat) {
    && j < |p.vhosts| && j < |p.rounds| && j < |pass.stays|
    && p.rounds[j].start == VisitTime(pass, j)
    && p.rounds[j].end <= p.rounds[j].start + pass.stays[j]
    && (since <= VisitTime(pass, j) ==> PlainFailure(p.rounds[j]) && Wanted(p.vhosts[j], since))
  }

  lemma VisitsInOrder(passes: seq<Pass>, begin: nat, vhosts: nat, j: nat, a: nat, b: nat)
    requires LoopRun(passes, begin, vhosts) && j < vhosts && a <= b < |passes|
    ensures VisitTime(passes[a], j) <= VisitTime(passes[b], j)
    decreases b - a
  {
    if a < b {
      StayEnds(passes, begin, vhosts, a, j);
      VisitsInOrder(passes, begin, vhosts, j, a + 1, b);
    }
  }

  // The visits from pass f on are due visits of a failing vhost.
  ghost predicate DueFrom(own: seq<PassRun>, passes: seq<Pass>, f: nat, j: nat, since: nat) {
    && f + |own| <= |passes|
    && forall i :: 0 <= i < |own| ==> FailsSince(own[i], passes[f + i], j, since)
  }

  // One of these visits is a failing round of a vhost that is due.
  ghost predicate OwnRound(p: PassRun, pass: Pass, j: nat) {
    && j < |p.vhosts| && j < |p.rounds| && RoundAt(p.rounds[j], pass, j)
    && Wanted(p.vhosts[j], p.rounds[j].start)
  }

  lemma OwnRoundAt(own: seq<PassRun>, passes: seq<Pass>, begin: nat, vhosts: nat, f: nat, j: nat, since: nat, i: nat)
    requires LoopRun(passes, begin, vhosts) && j < vhosts && FirstVisit(passes, f, j, since)
    requires DueFrom(own, passes, f, j, since) && i < |own|
    ensures OwnRound(own[i], passes[f + i], j)
  {
    hide PlainFailure, VisitTime, LoopRun, Wanted;
    assert FailsSince(own[i], passes[f + i], j, since);
    VisitsInOrder(passes, begin, vhosts, j, f, f + i);
    WantedLater(own[i].vhosts[j], since, own[i].rounds[j].start);
  }

  lemma OwnRounds(own: seq<PassRun>, passes: seq<Pass>, begin: nat, vhosts: nat, f: nat, j: nat, since: nat)
    requires LoopRun(passes, begin, vhosts) && j < vhosts && FirstVisit(passes, f, j, since)
    requires DueFrom(own, passes, f, j, since)
    ensures forall i :: 0 <= i < |own| ==> j < |own[i].rounds| && j < |own[i].vhosts|
    ensures RoundsOfVhost(RoundsOf(own, j), passes, f, j)
    ensures forall i :: 0 <= i < |own| ==> Wanted(own[i].vhosts[j], own[i].rounds[j].start)
  {
    assert f + |own| <= |passes|;
    hide PlainFailure, VisitTime, LoopRun, Wanted, FailsSince, FirstVisit, DueFrom;
    forall i | 0 <= i < |own| ensures OwnRound(own[i], passes[f + i], j) {
      OwnRoundAt(own, passes, begin, vhosts, f, j, since, i);
    }
    RoundsAreOwn(own, passes, f, j);
  }

  lemma RoundsAreOwn(own: seq<PassRun>, passes: seq<Pass>, f: nat, j: nat)
    requires f + |own| <= |passes|
    requires forall i :: 0 <= i < |own| ==> OwnRound(own[i], passes[f + i], j)
    ensures forall i :: 0 <= i < |own| ==> j < |own[i].rounds| && j < |own[i].vhosts|
    ensures RoundsOfVhost(RoundsOf(own, j), passes, f, j)
  {
    hide PlainFailure, VisitTime, Wanted;
    assert forall i :: 0 <= i < |own| ==> OwnRound(own[i], passes[f + i], j);
    var rounds := RoundsOf(own, j);
    forall i | 0 <= i < |rounds| ensures RoundAt(rounds[i], passes[f + i], j) {
      assert OwnRound(own[i], passes[f + i], j);
    }
  }

  // In the table of all vhosts the failures of one vhost add up to its rounds.
  lemma TableCounts(table: Entries, own: seq<PassRun>, vhosts: nat, j: nat, key: string)
    requires AllServe(own, vhosts, j, key) && j < vhosts
    requires forall i :: 0 <= i < |own| ==> Wanted(own[i].vhosts[j], own[i].rounds[j].start)
    requires forall i :: 0 <= i < |own| ==> PlainFailure(own[i].rounds[j])
    ensures Failures(PassesEntries(table, own), key) == Failures(table, key) + Started(table, key, RoundsOf(own, j))
  {
    hide PlainFailure, Wanted, Domains.IssueKey, PassesEntries, After, Started;
    PassesAreVisits(table, own, vhosts, j, key);
    FailuresCounted(table, key, RoundsOf(own, j));
  }

  lemma StartedBeforeLast(es: Entries, key: string, rounds: seq<Round>, until: nat)
    requires rounds != [] && rounds[|rounds| - 1].start > until
    requires forall i :: 0 <= i < |rounds| - 1 ==> rounds[i].start <= until
    ensures StartedBy(es, key, rounds, until) == Started(es, key, rounds[..|rounds| - 1])
  {
    hide After, Started;
    var before := rounds[..|rounds| - 1];
    assert forall i :: 0 <= i < |before| ==> before[i] == rounds[i];
    StartedByAll(es, key, before, until);
  }

  // Before the vhost is due: its rounds, if it has any, happen at the loop's visits and
  // end without a reported Retry-After.
  ghost predicate Calm(p: PassRun, pass: Pass, j: nat) {
    && j < |p.rounds| && j < |pass.stays|
    && p.rounds[j].start == VisitTime(pass, j)
    && p.rounds[j].end <= p.rounds[j].start + pass.stays[j]
    && (LastTry(p.rounds[j]).Refused? ==> LastTry(p.rounds[j]).reported == 0)
  }

  ghost predicate AllCalm(ps: seq<PassRun>, passes: seq<Pass>, j: nat) {
    |ps| <= |passes| && forall i :: 0 <= i < |ps| ==> Calm(ps[i], passes[i], j)
  }

  // Rounds that end before `until` close the gate for a day after it at most.
  lemma VisitWithin(es: Entries, key: string, round: Round, until: nat)
    requires NextEligible(es, key) <= until + MAX_ISSUE_BACKOFF && round.end <= until
    requires LastTry(round).Refused? ==> LastTry(round).reported == 0
    ensures NextEligible(Visit(es, key, round).0, key) <= until + MAX_ISSUE_BACKOFF
  {
    hide Pow2;
  }

  lemma {:induction false} CalmPasses(es: Entries, ps: seq<PassRun>, vhosts: nat, j: nat, key: string, until: nat)
    requires AllServe(ps, vhosts, j, key) && NextEligible(es, key) <= until + MAX_ISSUE_BACKOFF
    requires forall i :: 0 <= i < |ps| ==> EndsBy(ps[i], j, until)
    ensures NextEligible(PassesEntries(es, ps), key) <= until + MAX_ISSUE_BACKOFF
  {
    hide PassEntries, Visit, Wanted, Domains.IssueKey;
    if ps != [] {
      var k := |ps| - 1;
      var before, last := ps[..k], ps[k];
      assert forall i :: 0 <= i < k ==> before[i] == ps[i];
      assert Serves(last, vhosts, j, key) && EndsBy(last, j, until);
      CalmPasses(es, before, vhosts, j, key, until);
      PassIsOwnVisit(PassesEntries(es, before), last.vhosts, last.rounds, j);
      VisitWithin(PassesEntries(es, before), key, last.rounds[j], until);
    }
  }

  ghost predicate EndsBy(p: PassRun, j: nat, until: nat) {
    && j < |p.rounds| && p.rounds[j].end <= until
    && (LastTry(p.rounds[j]).Refused? ==> LastTry(p.rounds[j]).reported == 0)
  }

  // What happened before the vhost was due closes its gate for a stay and a day after
  // that instant at most.
  lemma EarlierWithin(es: Entries, earlier: seq<PassRun>, passes: seq<Pass>,
                      begin: nat, vhosts: nat, j: nat, key: string, stay: nat, since: nat)
    requires LoopRun(passes, begin, vhosts) && StaysWithin(passes, stay) && j < vhosts
    requires AllServe(earlier, vhosts, j, key) && AllCalm(earlier, passes, j)
    requires begin <= since && FirstVisit(passes, |earlier|, j, since)
    requires NextEligible(es, key) <= begin + MAX_ISSUE_BACKOFF
    ensures NextEligible(PassesEntries(es, earlier), key) <= since + stay + MAX_ISSUE_BACKOFF
  {
    hide VisitTime, LoopRun, Domains.IssueKey, AllServe, PassesEntries;
    var f := |earlier|;
    forall i | 0 <= i < f ensures EndsBy(earlier[i], j, since + stay) {
      assert Calm(earlier[i], passes[i], j);
      VisitsInOrder(passes, begin, vhosts, j, i, f - 1);
      assert passes[i].stays[j] <= stay;
    }
    hide Calm, AllCalm, FirstVisit, StaysWithin, EndsBy;
    CalmPasses(es, earlier, vhosts, j, key, since + stay);
  }

  // Renewal keeps trying, told of the table that the loop leaves: from the instant on
  // at which a vhost is due, while nothing is issued for it and no Retry-After is
  // reported, its failure count grows within any time L by at least
  // floor(L / (24h + gap + stay)), whatever happens to the other vhosts. The passes
  // `earlier` come before that instant, own[..|own| - 1] within L after it.
  lemma RenewalKeepsTrying(es: Entries, earlier: seq<PassRun>, own: seq<PassRun>, passes: seq<Pass>,
                           begin: nat, vhosts: nat, j: nat, key: string, stay: nat, since: nat, L: nat)
    requires LoopRun(passes, begin, vhosts) && StaysWithin(passes, stay) && j < vhosts
    requires AllServe(earlier, vhosts, j, key) && AllServe(own, vhosts, j, key) && own != []
    requires begin <= since && FirstVisit(passes, |earlier|, j, since)
    requires AllCalm(earlier, passes, j) && DueFrom(own, passes, |earlier|, j, since)
    requires NextEligible(es, key) <= begin + MAX_ISSUE_BACKOFF
    requires EndsAfter(own, j, since + L)
    ensures Failures(PassesEntries(es, earlier + own[..|own| - 1]), key)
         >= Failures(PassesEntries(es, earlier), key) + L / Period(vhosts, stay)
  {
    hide *;
    var n, table := |own| - 1, PassesEntries(es, earlier);
    var before := own[..n];
    EarlierWithin(es, earlier, passes, begin, vhosts, j, key, stay, since);
    OwnRounds(own, passes, begin, vhosts, |earlier|, j, since);
    var rounds := RoundsOf(own, j);
    LastRound(own, j, since + L);
    LoopVisitsOftenEnough(table, key, rounds, passes, begin, vhosts, |earlier|, j, stay, since, L);
    StartedBeforeLast(table, key, rounds, since + L);
    PlainRounds(rounds, passes, |earlier|, j);
    assert rounds[..n] == RoundsOf(before, j);
    ServePrefix(own, vhosts, j, key, n);
    assert forall i :: 0 <= i < n ==> before[i] == own[i];
    TableCounts(table, before, vhosts, j, key);
    PassesConcat(es, earlier + before, |earlier|);
    assert (earlier + before)[..|earlier|] == earlier && (earlier + before)[|earlier|..] == before;
  }

  // Only the last of the visits to vhost j comes after `until`.
  ghost predicate EndsAfter(own: seq<PassRun>, j: nat, until: nat) {
    && own != [] && (forall i :: 0 <= i < |own| ==> j < |own[i].rounds|)
    && own[|own| - 1].rounds[j].start > until
    && forall i :: 0 <= i < |own| - 1 ==> own[i].rounds[j].start <= until
  }

  lemma LastRound(own: seq<PassRun>, j: nat, until: nat)
    requires EndsAfter(own, j, until)
    ensures forall i :: 0 <= i < |own| ==> j < |own[i].rounds|
    ensures var rounds := RoundsOf(own, j);
      && rounds != [] && rounds[|rounds| - 1].start > until
      && forall i :: 0 <= i < |rounds| - 1 ==> rounds[i].start <= until
  {
  }

  lemma PlainRounds(rounds: seq<Round>, passes: seq<Pass>, f: nat, j: nat)
    requires RoundsOfVhost(rounds, passes, f, j)
    ensures forall i :: 0 <= i < |rounds| ==> PlainFailure(rounds[i])
  {
    hide PlainFailure, VisitTime;
  }

  lemma ServePrefix(ps: seq<PassRun>, vhosts: nat, j: nat, key: string, n: nat)
    requires AllServe(ps, vhosts, j, key) && n <= |ps|
    ensures AllServe(ps[..n], vhosts, j, key)
    ensures forall i :: 0 <= i < |ps| ==> j < |ps[i].rounds| && j < |ps[i].vhosts|
  {
    hide Domains.IssueKey;
  }
}
