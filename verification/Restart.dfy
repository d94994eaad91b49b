// What a restart of the process changes in the issuance history. Writing the state
// file is best effort: every write may fail.
module Restart {
  import opened IssueState
  import BackoffRuns

  // The running table and the file.
  datatype Node = Node(mem: Entries, disk: Entries)

  datatype Op =
    | Attempt(key: string)
    | Success(key: string, writeOk: bool)
    | Fail(key: string, retryAfter: nat, writeOk: bool)
    | Restart

  // An operation at instant `now`. Attempts are not saved; a restart keeps only
  // what the file holds and has not expired.
  function Apply(n: Node, op: Op, now: nat): Node {
    match op
    case Attempt(key) => n.(mem := Attempted(n.mem, key, now))
    case Success(key, writeOk) => Saved(n, Succeeded(n.mem, key), writeOk)
    case Fail(key, retryAfter, writeOk) => Saved(n, Failed(n.mem, key, now, retryAfter), writeOk)
    case Restart => n.(mem := Loaded(n.disk, now))
  }

  function Saved(n: Node, mem: Entries, writeOk: bool): Node {
    Node(mem, if writeOk then Persisted(mem) else n.disk)
  }

  // The table after a run of operations at non-decreasing instants.
  function Run(ops: seq<(Op, nat)>): Node {
    if ops == [] then Node(map[], map[])
    else Apply(Run(ops[..|ops| - 1]), ops[|ops| - 1].0, ops[|ops| - 1].1)
  }

  ghost predicate Timed(ops: seq<(Op, nat)>, now: nat) {
    && (forall i :: 0 <= i < |ops| - 1 ==> ops[i].1 <= ops[i + 1].1)
    && (ops != [] ==> ops[|ops| - 1].1 <= now)
  }

  lemma TimedInit(ops: seq<(Op, nat)>, now: nat)
    requires Timed(ops, now) && ops != []
    ensures var k := |ops| - 1; Timed(ops[..k], ops[k].1) && ops[k].1 <= now
  {
    var k := |ops| - 1;
    assert forall i :: 0 <= i < k ==> ops[..k][i] == ops[i];
  }

  // Success and Fail are the operations that are to be saved.
  predicate Records(op: Op, key: string) {
    (op.Success? || op.Fail?) && op.key == key
  }

  predicate Writes(op: Op) {
    (op.Success? || op.Fail?) && op.writeOk
  }

  // The file lacks an outcome of the key: no write has succeeded since.
  predicate Unsaved(ops: seq<(Op, nat)>, key: string) {
    ops != [] &&
    var op := ops[|ops| - 1].0;
    !op.Restart? && !Writes(op) && (Records(op, key) || Unsaved(ops[..|ops| - 1], key))
  }

  // File and table tell the same about a key, or the table knows nothing of
  // weight and the file holds an expired entry.
  predicate InStep(n: Node, key: string, now: nat) {
    || (Failures(n.mem, key) == Failures(n.disk, key) && NextEligible(n.mem, key) == NextEligible(n.disk, key))
    || (Failures(n.mem, key) == 0 && NextEligible(n.mem, key) == 0 && NextEligible(n.disk, key) <= now)
  }

  lemma InStepApply(n: Node, op: Op, key: string, now: nat)
    requires op.Restart? || Writes(op) || (InStep(n, key, now) && !Records(op, key))
    ensures InStep(Apply(n, op, now), key, now)
  {
    hide Wait;
  }

  lemma InStepLater(n: Node, key: string, t: nat, now: nat)
    requires InStep(n, key, t) && t <= now
    ensures InStep(n, key, now)
  {
  }

  // An entry without failures never closes the gate.
  predicate FailuresExplain(es: Entries, key: string) {
    Failures(es, key) == 0 ==> NextEligible(es, key) == 0
  }

  lemma FailuresExplainApply(n: Node, op: Op, key: string, now: nat)
    requires FailuresExplain(n.mem, key) && FailuresExplain(n.disk, key)
    ensures FailuresExplain(Apply(n, op, now).mem, key) && FailuresExplain(Apply(n, op, now).disk, key)
  {
    hide Wait;
  }

  lemma {:induction false} RunExplained(ops: seq<(Op, nat)>, key: string)
    ensures FailuresExplain(Run(ops).mem, key) && FailuresExplain(Run(ops).disk, key)
  {
    hide Apply;
    if ops != [] {
      RunExplained(ops[..|ops| - 1], key);
      FailuresExplainApply(Run(ops[..|ops| - 1]), ops[|ops| - 1].0, key, ops[|ops| - 1].1);
    }
  }

  lemma {:induction false} RunInStep(ops: seq<(Op, nat)>, key: string, now: nat)
    requires Timed(ops, now) && !Unsaved(ops, key)
    ensures InStep(Run(ops), key, now)
  {
    hide Apply, InStep, Timed;
    if ops == [] {
      NothingKnown(key, now);
    } else {
      var k := |ops| - 1;
      var op := ops[k].0;
      TimedInit(ops, now);
      if !op.Restart? && !Writes(op) {
        RunInStep(ops[..k], key, ops[k].1);
      }
      InStepApply(Run(ops[..k]), op, key, ops[k].1);
      InStepLater(Run(ops), key, ops[k].1, now);
    }
  }

  lemma NothingKnown(key: string, now: nat)
    ensures InStep(Node(map[], map[]), key, now)
  {
  }

  // The gate of a key answers alike at every later instant.
  ghost predicate SameGate(a: Entries, b: Entries, key: string, now: nat) {
    forall t: nat :: now <= t ==> (Eligible(a, key, t) <==> Eligible(b, key, t))
  }

  lemma SameGateIff(a: Entries, b: Entries, key: string, now: nat)
    ensures SameGate(a, b, key, now) <==>
      NextEligible(a, key) == NextEligible(b, key) || (NextEligible(a, key) <= now && NextEligible(b, key) <= now)
  {
    if SameGate(a, b, key, now) {
      var t := BackoffRuns.Later(now, NextEligible(a, key));
      var u := BackoffRuns.Later(now, NextEligible(b, key));
      assert Eligible(a, key, t) <==> Eligible(b, key, t);
      assert Eligible(a, key, u) <==> Eligible(b, key, u);
    }
  }

  // A restart at any point of any run is invisible to the gate if and only if the
  // last outcome of the key is in the file, or both the wait that was lost and the
  // one in its place are over, or they end together.
  lemma {:induction false} RestartInvisibleIff(ops: seq<(Op, nat)>, now: nat, key: string)
    requires Timed(ops, now)
    ensures SameGate(Apply(Run(ops), Op.Restart, now).mem, Run(ops).mem, key, now) <==>
      (|| !Unsaved(ops, key)
       || (NextEligible(Run(ops).mem, key) <= now && NextEligible(Run(ops).disk, key) <= now)
       || NextEligible(Run(ops).mem, key) == NextEligible(Run(ops).disk, key))
  {
    var n := Run(ops);
    SameGateIff(Apply(n, Op.Restart, now).mem, n.mem, key, now);
    if !Unsaved(ops, key) {
      RunInStep(ops, key, now);
    }
    hide Run, Unsaved, SameGate;
  }

  // When no write failed the restart is invisible.
  lemma {:induction false} RestartInvisible(ops: seq<(Op, nat)>, now: nat, key: string)
    requires Timed(ops, now)
    requires forall i :: 0 <= i < |ops| && Records(ops[i].0, key) ==> Writes(ops[i].0)
    ensures SameGate(Apply(Run(ops), Op.Restart, now).mem, Run(ops).mem, key, now)
  {
    AllSaved(ops, key);
    RestartInvisibleIff(ops, now, key);
  }

  lemma {:induction false} AllSaved(ops: seq<(Op, nat)>, key: string)
    requires forall i :: 0 <= i < |ops| && Records(ops[i].0, key) ==> Writes(ops[i].0)
    ensures !Unsaved(ops, key)
  {
    if ops != [] {
      assert Records(ops[|ops| - 1].0, key) ==> Writes(ops[|ops| - 1].0);
      AllSaved(ops[..|ops| - 1], key);
    }
  }

  // A failure that could not be saved: after a restart the next attempt may follow
  // at once.
  lemma UnsavedFailureForgotten(key: string, now: nat, retryAfter: nat)
    ensures var n := Run([(Attempt(key), now), (Fail(key, retryAfter, false), now)]);
      && !Eligible(n.mem, key, now)
      && Eligible(Apply(n, Op.Restart, now).mem, key, now)
  {
    var a, b := (Attempt(key), now), (Fail(key, retryAfter, false), now);
    RunStep([a, b], 0);
    RunStep([a, b], 1);
    assert [a, b][..0 + 1] == [a] && [a, b][..1 + 1] == [a, b];
    assert Backoff(1) == MIN_ISSUE_BACKOFF;
  }

  // A restart is not invisible to the failure count. Once the key's outcome is saved
  // the count survives if and only if there is none or the wait is still running;
  // otherwise if and only if the file holds the same count with a running wait, or
  // the file's wait is over and there was no count.
  lemma {:induction false} RestartKeepsCountIff(ops: seq<(Op, nat)>, now: nat, key: string)
    requires Timed(ops, now)
    ensures var n := Run(ops);
      Failures(Apply(n, Op.Restart, now).mem, key) == Failures(n.mem, key) <==>
        if !Unsaved(ops, key) then Failures(n.mem, key) == 0 || now < NextEligible(n.mem, key)
        else if now < NextEligible(n.disk, key) then Failures(n.disk, key) == Failures(n.mem, key)
        else Failures(n.mem, key) == 0
  {
    if !Unsaved(ops, key) {
      RunInStep(ops, key, now);
    }
    RunExplained(ops, key);
    hide Run, Unsaved;
  }

  // So a restart after the wait has passed resets the back-off: the next failure
  // waits five minutes again, however many there were before.
  lemma {:induction false} RestartResetsBackoff(ops: seq<(Op, nat)>, now: nat, key: string, end: nat)
    requires Timed(ops, now) && !Unsaved(ops, key) && NextEligible(Run(ops).mem, key) <= now
    ensures NextEligible(Failed(Apply(Run(ops), Op.Restart, now).mem, key, end, 0), key) == end + MIN_ISSUE_BACKOFF
    ensures Failures(Run(ops).mem, key) >= 9 ==>
      NextEligible(Failed(Run(ops).mem, key, end, 0), key) == end + MAX_ISSUE_BACKOFF
  {
    RunInStep(ops, key, now);
    RunExplained(ops, key);
    hide Run, Unsaved;
    assert Backoff(1) == MIN_ISSUE_BACKOFF;
    BackoffRuns.BackoffValue(Failures(Run(ops).mem, key) + 1);
  }

  // Without a reported Retry-After no wait reaches further than a day ahead, restarts
  // and failed writes included: a process starts with a table from which Renewal
  // keeps trying.
  lemma {:induction false} WaitsWithinADay(ops: seq<(Op, nat)>, key: string, now: nat)
    requires Timed(ops, now)
    requires forall i :: 0 <= i < |ops| && ops[i].0.Fail? ==> ops[i].0.retryAfter == 0
    ensures NextEligible(Run(ops).mem, key) <= now + MAX_ISSUE_BACKOFF
    ensures NextEligible(Run(ops).disk, key) <= now + MAX_ISSUE_BACKOFF
  {
    hide Apply, Timed;
    if ops != [] {
      var k := |ops| - 1;
      TimedInit(ops, now);
      assert forall i :: 0 <= i < k ==> ops[..k][i] == ops[i];
      WaitsWithinADay(ops[..k], key, ops[k].1);
      DayAheadApply(Run(ops[..k]), ops[k].0, key, ops[k].1);
    }
  }

  lemma DayAheadApply(n: Node, op: Op, key: string, now: nat)
    requires NextEligible(n.mem, key) <= now + MAX_ISSUE_BACKOFF
    requires NextEligible(n.disk, key) <= now + MAX_ISSUE_BACKOFF
    requires op.Fail? ==> op.retryAfter == 0
    ensures NextEligible(Apply(n, op, now).mem, key) <= now + MAX_ISSUE_BACKOFF
    ensures NextEligible(Apply(n, op, now).disk, key) <= now + MAX_ISSUE_BACKOFF
  {
    hide Pow2;
  }

  // A round of issueAndStore as operations of a run.
  function RoundOps(n: Node, key: string, round: Round, writeOk: bool): seq<(Op, nat)> {
    if !Eligible(n.mem, key, round.start) then []
    else if BackoffRuns.CutShort(round) then [(Attempt(key), round.start)]
    else if BackoffRuns.Obtains(round) then [(Attempt(key), round.start), (Success(key, writeOk), round.end)]
    else [(Attempt(key), round.start), (Fail(key, LastTry(round).reported, writeOk), round.end)]
  }

  function ApplyAll(n: Node, ops: seq<(Op, nat)>): Node {
    if ops == [] then n else Apply(ApplyAll(n, ops[..|ops| - 1]), ops[|ops| - 1].0, ops[|ops| - 1].1)
  }

  // Table and file after a round are those after its operations.
  lemma RoundIsOps(n: Node, file: File, key: string, round: Round, writeOk: bool)
    requires n.disk == Stored(file)
    ensures var (table, r) := Visit(n.mem, key, round);
      ApplyAll(n, RoundOps(n, key, round, writeOk)) == Node(table, Stored(FileAfter(file, table, r, writeOk)))
  {
    hide Wait;
    var ops := RoundOps(n, key, round, writeOk);
    if |ops| == 2 {
      assert ops[..1] == [ops[0]] && ops[..1][..0] == ops[..0];
      assert ApplyAll(n, [ops[0]]) == Apply(n, Attempt(key), round.start);
    } else if |ops| == 1 {
      assert ops[..0] == [];
    }
  }

  // Spacing across restarts

  // A round of the key is under way.
  predicate Underway(ops: seq<(Op, nat)>, key: string) {
    ops != [] &&
    var op := ops[|ops| - 1].0;
    !op.Restart? && !Records(op, key) && (op == Attempt(key) || Underway(ops[..|ops| - 1], key))
  }

  // What issueAndStore does for one key: attempts pass the gate, and outcomes are
  // recorded for attempts only.
  ghost predicate Gated(ops: seq<(Op, nat)>, key: string) {
    forall j :: 0 <= j < |ops| ==>
      && (ops[j].0 == Attempt(key) ==> Eligible(Run(ops[..j]).mem, key, ops[j].1))
      && (Records(ops[j].0, key) ==> Underway(ops[..j], key))
  }

  // At no restart is an outcome of the key missing in the file.
  ghost predicate SavedAtRestarts(ops: seq<(Op, nat)>, key: string) {
    forall j :: 0 <= j < |ops| && ops[j].0.Restart? ==> !Unsaved(ops[..j], key)
  }

  lemma TimedPrefix(ops: seq<(Op, nat)>, now: nat, i: nat, j: nat)
    requires Timed(ops, now) && i <= j < |ops|
    ensures ops[i].1 <= ops[j].1 && Timed(ops[..j], ops[j].1)
    decreases j - i
  {
    assert forall k :: 0 <= k < j ==> ops[..j][k] == ops[k];
    if i < j {
      TimedPrefix(ops, now, i + 1, j);
    }
  }

  // Until the key is attempted again, nothing opens its gate before `bound`.
  lemma {:induction false} GateStays(ops: seq<(Op, nat)>, now: nat, key: string, i: nat, j: nat, bound: nat)
    requires Timed(ops, now) && Gated(ops, key) && SavedAtRestarts(ops, key)
    requires i < j < |ops| && Records(ops[i].0, key)
    requires forall k :: i < k < j ==> ops[k].0 != Attempt(key)
    requires NextEligible(Run(ops[..i + 1]).mem, key) >= bound
    ensures !Underway(ops[..j], key)
    ensures NextEligible(Run(ops[..j]).mem, key) >= bound || bound <= ops[j].1
    decreases j
  {
    hide *;
    UnderwayStep(ops, key, j - 1);
    if i + 1 < j {
      GateStays(ops, now, key, i, j - 1, bound);
      OutcomeNeedsRound(ops, key, j - 1);
      BoundStep(ops, now, key, j - 1, bound);
    }
  }

  lemma BoundStep(ops: seq<(Op, nat)>, now: nat, key: string, j: nat, bound: nat)
    requires Timed(ops, now) && SavedAtRestarts(ops, key) && j + 1 < |ops| && !Records(ops[j].0, key)
    requires NextEligible(Run(ops[..j]).mem, key) >= bound || bound <= ops[j].1
    ensures NextEligible(Run(ops[..j + 1]).mem, key) >= bound || bound <= ops[j + 1].1
  {
    hide *;
    RunStep(ops, j);
    TimedPrefix(ops, now, j, j);
    TimedPrefix(ops, now, j, j + 1);
    if ops[j].0.Restart? {
      NotUnsaved(ops, key, j);
      RestartInvisibleIff(ops[..j], ops[j].1, key);
      SameGateIff(Apply(Run(ops[..j]), Op.Restart, ops[j].1).mem, Run(ops[..j]).mem, key, ops[j].1);
    } else {
      OtherKeys(Run(ops[..j]), ops[j].0, key, ops[j].1);
    }
  }

  lemma NotUnsaved(ops: seq<(Op, nat)>, key: string, j: nat)
    requires SavedAtRestarts(ops, key) && j < |ops| && ops[j].0.Restart?
    ensures !Unsaved(ops[..j], key)
  {
  }

  lemma RunStep(ops: seq<(Op, nat)>, j: nat)
    requires j < |ops|
    ensures Run(ops[..j + 1]) == Apply(Run(ops[..j]), ops[j].0, ops[j].1)
  {
    assert ops[..j + 1][..j] == ops[..j];
  }

  lemma UnderwayStep(ops: seq<(Op, nat)>, key: string, j: nat)
    requires j < |ops|
    ensures var op := ops[j].0;
      Underway(ops[..j + 1], key) <==>
        !op.Restart? && !Records(op, key) && (op == Attempt(key) || Underway(ops[..j], key))
  {
    assert ops[..j + 1][..j] == ops[..j];
  }

  lemma OutcomeNeedsRound(ops: seq<(Op, nat)>, key: string, j: nat)
    requires Gated(ops, key) && j < |ops|
    ensures Records(ops[j].0, key) ==> Underway(ops[..j], key)
    ensures ops[j].0 == Attempt(key) ==> Eligible(Run(ops[..j]).mem, key, ops[j].1)
  {
    hide Run, Underway;
  }

  lemma OtherKeys(n: Node, op: Op, key: string, now: nat)
    requires !op.Restart? && !Records(op, key)
    ensures NextEligible(Apply(n, op, now).mem, key) == NextEligible(n.mem, key)
  {
    hide Wait;
  }

  // After a failure the next attempt of the key waits as long as was computed then,
  // be it a reported Retry-After or the back-off, through any restarts at which the
  // file held the key's outcome.
  lemma {:induction false} WaitsSurviveRestarts(ops: seq<(Op, nat)>, now: nat, key: string, i: nat, j: nat)
    requires Timed(ops, now) && Gated(ops, key) && SavedAtRestarts(ops, key)
    requires i < j < |ops| && ops[i].0.Fail? && ops[i].0.key == key && ops[j].0 == Attempt(key)
    ensures ops[i].1 + Wait(Failures(Run(ops[..i]).mem, key) + 1, ops[i].0.retryAfter) <= ops[j].1
    decreases j
  {
    if m :| i < m < j && ops[m].0 == Attempt(key) {
      WaitsSurviveRestarts(ops, now, key, i, m);
      TimedPrefix(ops, now, m, j);
    } else {
      var bound := ops[i].1 + Wait(Failures(Run(ops[..i]).mem, key) + 1, ops[i].0.retryAfter);
      RunStep(ops, i);
      assert NextEligible(Run(ops[..i + 1]).mem, key) == bound;
      hide Run, Wait, Timed, SavedAtRestarts;
      GateStays(ops, now, key, i, j, bound);
      OutcomeNeedsRound(ops, key, j);
    }
  }

  // The failed rounds of a key between two operations.
  function FailsBetween(ops: seq<(Op, nat)>, key: string, i: nat, j: nat): nat
    requires i <= j <= |ops|
    decreases j
  {
    if i == j then 0
    else FailsBetween(ops, key, i, j - 1) + if ops[j - 1].0.Fail? && ops[j - 1].0.key == key then 1 else 0
  }

  // The attempt that a round under way began with, and no failure since.
  lemma {:induction false} BeganWith(ops: seq<(Op, nat)>, key: string, i: nat, j: nat) returns (a: nat)
    requires i < j <= |ops| && Underway(ops[..j], key) && !Underway(ops[..i + 1], key)
    ensures i < a < j && ops[a].0 == Attempt(key)
    ensures FailsBetween(ops, key, i, a) == FailsBetween(ops, key, i, j)
    decreases j
  {
    UnderwayStep(ops, key, j - 1);
    hide Underway;
    if ops[j - 1].0 == Attempt(key) {
      a := j - 1;
    } else {
      a := BeganWith(ops, key, i, j - 1);
    }
  }

  // However often the process restarts, n failed rounds of a key without a reported
  // Retry-After take at least n times five minutes until the next attempt.
  lemma {:induction false} CrashLoopBound(ops: seq<(Op, nat)>, now: nat, key: string, i: nat, j: nat)
    requires Timed(ops, now) && Gated(ops, key) && SavedAtRestarts(ops, key)
    requires forall k :: 0 <= k < |ops| && ops[k].0.Fail? ==> ops[k].0.retryAfter == 0
    requires i < j < |ops| && ops[i].0.Fail? && ops[i].0.key == key && ops[j].0 == Attempt(key)
    ensures ops[i].1 + FailsBetween(ops, key, i, j) * MIN_ISSUE_BACKOFF <= ops[j].1
    decreases j
  {
    hide *;
    var m := LastFail(ops, key, i, j);
    FiveMinutesAtLeast(ops, now, key, m, j);
    var before := FailsBetween(ops, key, i, m);
    assert (before + 1) * MIN_ISSUE_BACKOFF == before * MIN_ISSUE_BACKOFF + MIN_ISSUE_BACKOFF;
    if i < m {
      OutcomeNeedsRound(ops, key, m);
      RecordsFail(ops[i].0, key);
      RecordsFail(ops[m].0, key);
      UnderwayStep(ops, key, i);
      var a := BeganWith(ops, key, i, m);
      CrashLoopBound(ops, now, key, i, a);
      TimedPrefix(ops, now, a, m);
    } else {
      NoFails(ops, key, i);
    }
  }

  lemma FiveMinutesAtLeast(ops: seq<(Op, nat)>, now: nat, key: string, m: nat, j: nat)
    requires Timed(ops, now) && Gated(ops, key) && SavedAtRestarts(ops, key)
    requires m < j < |ops| && ops[m].0.Fail? && ops[m].0.key == key && ops[j].0 == Attempt(key)
    requires ops[m].0.retryAfter == 0
    ensures ops[m].1 + MIN_ISSUE_BACKOFF <= ops[j].1
  {
    hide *;
    WaitsSurviveRestarts(ops, now, key, m, j);
    AtLeastMin(Failures(Run(ops[..m]).mem, key) + 1);
  }

  lemma RecordsFail(op: Op, key: string)
    requires op.Fail? && op.key == key
    ensures Records(op, key)
  {
  }

  lemma NoFails(ops: seq<(Op, nat)>, key: string, i: nat)
    requires i <= |ops|
    ensures FailsBetween(ops, key, i, i) == 0
  {
  }

  lemma AtLeastMin(n: nat)
    requires n >= 1
    ensures Wait(n, 0) >= MIN_ISSUE_BACKOFF
  {
    Pow2Grows(0, n - 1);
  }

  lemma {:induction false} LastFail(ops: seq<(Op, nat)>, key: string, i: nat, j: nat) returns (m: nat)
    requires i < j <= |ops| && ops[i].0.Fail? && ops[i].0.key == key
    ensures i <= m < j && ops[m].0.Fail? && ops[m].0.key == key
    ensures FailsBetween(ops, key, i, j) == FailsBetween(ops, key, i, m) + 1
    decreases j
  {
    if ops[j - 1].0.Fail? && ops[j - 1].0.key == key {
      m := j - 1;
    } else {
      m := LastFail(ops, key, i, j - 1);
    }
  }
}
