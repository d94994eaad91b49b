// acme/retry.go, acme/manager.go: the back-off that keeps failed certificate
// requests from hammering the CA, and its persistence across restarts.
module IssueState {
  import Domains

  // Durations and instants are in nanoseconds, as in Go's time package. Instant 0
  // stands for the zero time.Time, which is before every real instant.
  const MINUTE: nat := 60_000_000_000
  const HOUR: nat := 60 * MINUTE
  const MIN_ISSUE_BACKOFF: nat := 5 * MINUTE
  const MAX_ISSUE_BACKOFF: nat := 24 * HOUR
  const RETRY_PAUSE: nat := 2_000_000_000

  // lastAttempt is kept in memory only.
  datatype Entry = Entry(failures: nat, nextEligible: nat, lastAttempt: nat)

  type Entries = map<string, Entry>

  function Failures(es: Entries, key: string): nat {
    if key in es then es[key].failures else 0
  }

  function NextEligible(es: Entries, key: string): nat {
    if key in es then es[key].nextEligible else 0
  }

  // shouldAttempt
  predicate Eligible(es: Entries, key: string, now: nat) {
    NextEligible(es, key) <= now
  }

  function Pow2(n: nat): nat {
    if n == 0 then 1 else 2 * Pow2(n - 1)
  }

  function Min(a: nat, b: nat): nat {
    if a <= b then a else b
  }

  // The wait after n consecutive failures, n >= 1.
  function Backoff(n: nat): nat
    requires n >= 1
  {
    Min(MAX_ISSUE_BACKOFF, MIN_ISSUE_BACKOFF * Pow2(n - 1))
  }

  lemma {:induction false} Pow2Grows(m: nat, n: nat)
    requires m <= n
    ensures Pow2(m) <= Pow2(n)
  {
    if m < n {
      Pow2Grows(m, n - 1);
    }
  }

  // The doubling loop of recordFailure, which stops as soon as the cap is reached.
  method ComputeBackoff(failures: nat) returns (backoff: nat)
    requires failures >= 1
    ensures backoff == Backoff(failures)
  {
    backoff := MIN_ISSUE_BACKOFF;
    var i := 1;
    while i < failures && backoff < MAX_ISSUE_BACKOFF
      invariant 1 <= i <= failures
      invariant backoff == MIN_ISSUE_BACKOFF * Pow2(i - 1)
    {
      backoff := backoff * 2;
      i := i + 1;
    }
    Pow2Grows(i - 1, failures - 1);
    assert MIN_ISSUE_BACKOFF * Pow2(i - 1) <= MIN_ISSUE_BACKOFF * Pow2(failures - 1);
    if backoff > MAX_ISSUE_BACKOFF {
      backoff := MAX_ISSUE_BACKOFF;
    }
  }

  // What the operations do to the table.

  function Attempted(es: Entries, key: string, now: nat): Entries {
    es[key := Entry(Failures(es, key), NextEligible(es, key), now)]
  }

  // retryAfter is the positive duration that xacme.RateLimit reports, or 0.
  function Wait(failures: nat, retryAfter: nat): nat
    requires failures >= 1
  {
    if retryAfter > 0 then retryAfter else Backoff(failures)
  }

  function Failed(es: Entries, key: string, now: nat, retryAfter: nat): Entries {
    var n := Failures(es, key) + 1;
    es[key := Entry(n, now + Wait(n, retryAfter), if key in es then es[key].lastAttempt else 0)]
  }

  function Succeeded(es: Entries, key: string): Entries {
    es - {key}
  }

  // What is written to disk and read back: lastAttempt is lost.
  function Persisted(es: Entries): Entries {
    map key | key in es :: es[key].(lastAttempt := 0)
  }

  // load: entries whose window has passed are dropped.
  function Loaded(stored: Entries, now: nat): Entries {
    map key | key in stored && now < stored[key].nextEligible :: stored[key]
  }

  // The state file: absent or unreadable, or holding a table.
  datatype File = NoFile | Table(stored: Entries)

  function Stored(f: File): Entries {
    if f.Table? then f.stored else map[]
  }

  class IssueTable {
    var entries: Entries
    var file: File
    const persistent: bool

    // newIssueState followed by withPersistence: a process starts and loads.
    constructor (persistent: bool, file: File, now: nat)
      ensures this.file == file && this.persistent == persistent
      ensures entries == if persistent then Loaded(Stored(file), now) else map[]
    {
      this.persistent := persistent;
      this.file := file;
      this.entries := map[];
      new;
      if persistent && file.Table? {
        Load(now);
      }
    }

    method Load(now: nat)
      requires file.Table? && entries == map[]
      modifies this`entries
      ensures entries == Loaded(file.stored, now)
    {
      var stored := file.stored;
      var todo := stored.Keys;
      while todo != {}
        invariant todo <= stored.Keys
        invariant forall k :: k in entries <==> k in stored && k !in todo && now < stored[k].nextEligible
        invariant forall k :: k in entries ==> entries[k] == stored[k]
        decreases todo
      {
        var k :| k in todo;
        if now < stored[k].nextEligible {
          entries := entries[k := stored[k]];
        }
        todo := todo - {k};
      }
    }

    // saveLocked: best effort, the write may fail.
    method SaveLocked(writeOk: bool)
      modifies this`file
      ensures file == if persistent && writeOk then Table(Persisted(entries)) else old(file)
    {
      if persistent && writeOk {
        file := Table(Persisted(entries));
      }
    }

    method ShouldAttempt(domains: seq<string>, now: nat) returns (ok: bool, wait: nat)
      ensures ok <==> Eligible(entries, Domains.IssueKey(domains), now)
      ensures now + wait == if ok then now else NextEligible(entries, Domains.IssueKey(domains))
    {
      var key := Domains.IssueKey(domains);
      if key !in entries {
        return true, 0;
      }
      var e := entries[key];
      if now < e.nextEligible {
        return false, e.nextEligible - now;
      }
      return true, 0;
    }

    method RecordAttempt(domains: seq<string>, now: nat)
      modifies this`entries
      ensures entries == Attempted(old(entries), Domains.IssueKey(domains), now)
      ensures var key := Domains.IssueKey(domains);
        && key in entries && entries[key].lastAttempt == now
        && Failures(entries, key) == Failures(old(entries), key)
        && NextEligible(entries, key) == NextEligible(old(entries), key)
    {
      var k := Domains.IssueKey(domains);
      var e := if k in entries then entries[k] else Entry(0, 0, 0);
      entries := entries[k := e.(lastAttempt := now)];
    }

    method RecordSuccess(domains: seq<string>, writeOk: bool)
      modifies this`entries, this`file
      ensures entries == Succeeded(old(entries), Domains.IssueKey(domains))
      ensures Domains.IssueKey(domains) !in entries
      ensures forall k :: k != Domains.IssueKey(domains) ==>
        (k in entries <==> k in old(entries)) && (k in entries ==> entries[k] == old(entries)[k])
      ensures file == if persistent && writeOk then Table(Persisted(entries)) else old(file)
    {
      entries := entries - {Domains.IssueKey(domains)};
      SaveLocked(writeOk);
    }

    method RecordFailure(domains: seq<string>, now: nat, retryAfter: nat, writeOk: bool) returns (wait: nat)
      modifies this`entries, this`file
      ensures entries == Failed(old(entries), Domains.IssueKey(domains), now, retryAfter)
      ensures NextEligible(entries, Domains.IssueKey(domains)) == now + wait
      ensures retryAfter > 0 ==> wait == retryAfter
      ensures Failures(entries, Domains.IssueKey(domains)) == Failures(old(entries), Domains.IssueKey(domains)) + 1
      ensures forall k :: k != Domains.IssueKey(domains) ==>
        (k in entries <==> k in old(entries)) && (k in entries ==> entries[k] == old(entries)[k])
      ensures file == if persistent && writeOk then Table(Persisted(entries)) else old(file)
    {
      var k := Domains.IssueKey(domains);
      var e := if k in entries then entries[k] else Entry(0, 0, 0);
      e := e.(failures := e.failures + 1);
      if retryAfter > 0 {
        entries := entries[k := e.(nextEligible := now + retryAfter)];
        SaveLocked(writeOk);
        return retryAfter;
      }
      var backoff := ComputeBackoff(e.failures);
      entries := entries[k := e.(nextEligible := now + backoff)];
      SaveLocked(writeOk);
      return backoff;
    }

    // issueAndStore. doIssue is answered by the caller: its outcomes, the instants
    // at which it is called and answers, and whether the manager is stopped during
    // the pause. `tries` are the calls of doIssue that were made.
    method IssueAndStore(domains: seq<string>, round: Round, writeOk: bool) returns (r: RoundResult, tries: seq<TryAt>)
      modifies this`entries, this`file
      ensures (entries, r) == Visit(old(entries), Domains.IssueKey(domains), round)
      ensures file == FileAfter(old(file), entries, r, persistent && writeOk)
      ensures tries == Tries(old(entries), Domains.IssueKey(domains), round)
    {
      tries := [];
      var ok, wait := ShouldAttempt(domains, round.start);
      if !ok {
        return Skipped(wait), tries;
      }
      RecordAttempt(domains, round.start);
      tries := tries + [TryAt(round.start, round.firstEnd, round.first)];
      if round.first.Issued? {
        RecordSuccess(domains, writeOk);
        return Done, tries;
      }
      var err := round.first;
      if !err.permanent {
        if round.stopped {
          return Stopped, tries;
        }
        tries := tries + [TryAt(round.firstEnd + RETRY_PAUSE, round.end, round.second)];
        if round.second.Issued? {
          RecordSuccess(domains, writeOk);
          return Done, tries;
        }
        err := round.second;
      }
      var backoff := RecordFailure(domains, round.end, err.reported, writeOk);
      return Failure(backoff), tries;
    }
  }

  // What a round leaves in the state file.
  function FileAfter(file: File, es: Entries, r: RoundResult, saves: bool): File {
    if r.Skipped? || r.Stopped? || !saves then file else Table(Persisted(es))
  }

  // The outcome of one call of doIssue. `asked` is how long a CA answer behind the
  // error asks to wait, 0 if there is none; `reported` is what xacme.RateLimit makes
  // of the error that doIssue returns, 0 if it is no rate-limit error to it. The two
  // differ when RateLimit does not look into a wrapped error.
  datatype Try = Issued | Refused(permanent: bool, asked: nat, reported: nat)

  // The first try runs from start to firstEnd; a second one, if there is any, from
  // RETRY_PAUSE after firstEnd to end. The outcome is recorded at end, at once after
  // the last try.
  datatype Round = Round(start: nat, first: Try, firstEnd: nat, stopped: bool, second: Try, end: nat)

  predicate HasSecond(round: Round) {
    round.first.Refused? && !round.first.permanent && !round.stopped
  }

  predicate WellTimed(round: Round) {
    && round.start <= round.firstEnd
    && if HasSecond(round) then round.firstEnd + RETRY_PAUSE <= round.end else round.firstEnd == round.end
  }

  // One call of doIssue.
  datatype TryAt = TryAt(start: nat, end: nat, outcome: Try)

  // The calls a visit makes, none if the gate is closed.
  function Tries(es: Entries, key: string, round: Round): seq<TryAt> {
    if !Eligible(es, key, round.start) then []
    else
      [TryAt(round.start, round.firstEnd, round.first)]
      + if HasSecond(round) then [TryAt(round.firstEnd + RETRY_PAUSE, round.end, round.second)] else []
  }

  datatype RoundResult = Skipped(wait: nat) | Done | Stopped | Failure(wait: nat)

  // The last error of a round in which nothing was issued.
  function LastTry(round: Round): Try {
    if round.first.Issued? || round.first.permanent then round.first else round.second
  }

  function Visit(es: Entries, key: string, round: Round): (Entries, RoundResult) {
    if !Eligible(es, key, round.start) then (es, Skipped(NextEligible(es, key) - round.start))
    else
      var es1 := Attempted(es, key, round.start);
      if round.first.Refused? && !round.first.permanent && round.stopped then (es1, Stopped)
      else if LastTry(round).Issued? then (Succeeded(es1, key), Done)
      else
        var n := Failures(es, key) + 1;
        (Failed(es1, key, round.end, LastTry(round).reported), Failure(Wait(n, LastTry(round).reported)))
  }
}
