// Whole runs of the issuance scheduler: how rarely and how often the CA is asked,
// and what a restart of the process changes.
module BackoffRuns {
  import opened IssueState

  // Not too often

  // The table after the visits of one key, in order.
  function After(es: Entries, key: string, rounds: seq<Round>): Entries {
    if rounds == [] then es
    else Visit(After(es, key, rounds[..|rounds| - 1]), key, rounds[|rounds| - 1]).0
  }

  // How many of the visits got past the gate.
  function Started(es: Entries, key: string, rounds: seq<Round>): nat {
    if rounds == [] then 0
    else
      var before := rounds[..|rounds| - 1];
      Started(es, key, before) + if Eligible(After(es, key, before), key, rounds[|rounds| - 1].start) then 1 else 0
  }

  // A round in which nothing is issued and no Retry-After is reported.
  predicate PlainFailure(round: Round) {
    && round.start <= round.end
    && !(round.first.Refused? && !round.first.permanent && round.stopped)
    && LastTry(round).Refused? && LastTry(round).reported == 0
  }

  ghost predicate InOrder(rounds: seq<Round>) {
    forall i :: 0 <= i < |rounds| - 1 ==> rounds[i].end <= rounds[i + 1].start
  }

  // The sum of the first n waits.
  function Total(n: nat): nat {
    if n == 0 then 0 else Total(n - 1) + Backoff(n)
  }

  lemma Powers()
    ensures Pow2(8) == 256 && Pow2(9) == 512
  {
    assert Pow2(3) == 8;
    assert Pow2(6) == 64;
  }

  lemma DoublePow2(n: nat)
    requires n >= 1
    ensures Pow2(n) == 2 * Pow2(n - 1) && Pow2(0) == 1
  {
  }

  lemma BackoffValue(n: nat)
    requires n >= 1
    ensures n <= 9 ==> Backoff(n) == MIN_ISSUE_BACKOFF * Pow2(n - 1)
    ensures n >= 10 ==> Backoff(n) == MAX_ISSUE_BACKOFF
    ensures Backoff(n) <= MAX_ISSUE_BACKOFF
  {
    Powers();
    hide Pow2;
    if n <= 9 {
      Pow2Grows(n - 1, 8);
    } else {
      Pow2Grows(9, n - 1);
    }
  }

  lemma {:induction false} TotalUpTo9(n: nat)
    requires n <= 9
    ensures Total(n) == MIN_ISSUE_BACKOFF * (Pow2(n) - 1)
  {
    hide Backoff, Pow2;
    if n > 0 {
      TotalUpTo9(n - 1);
      BackoffValue(n);
      DoublePow2(n);
    } else {
      DoublePow2(1);
    }
  }

  lemma {:induction false} TotalBeyond9(n: nat)
    requires n >= 9
    ensures Total(n) == MIN_ISSUE_BACKOFF * (Pow2(9) - 1) + (n - 9) * MAX_ISSUE_BACKOFF
  {
    hide Backoff, Pow2;
    if n == 9 {
      TotalUpTo9(9);
    } else {
      TotalBeyond9(n - 1);
      BackoffValue(n);
    }
  }

  // What one visit does when nothing is issued.
  lemma PlainVisit(es: Entries, key: string, round: Round)
    requires PlainFailure(round)
    ensures var r := Visit(es, key, round).0;
      if Eligible(es, key, round.start) then
        && Failures(r, key) == Failures(es, key) + 1
        && NextEligible(r, key) == round.end + Backoff(Failures(es, key) + 1)
      else r == es
  {
  }

  // Visits of a key without history: each failure is counted, and the next
  // instant is at least the sum of all waits after the first failure.
  lemma {:induction false} WaitsAddUp(es: Entries, key: string, rounds: seq<Round>)
    requires Failures(es, key) == 0 && NextEligible(es, key) == 0
    requires InOrder(rounds)
    requires forall i :: 0 <= i < |rounds| ==> PlainFailure(rounds[i])
    ensures var r, n := After(es, key, rounds), Started(es, key, rounds);
      && Failures(r, key) == n
      && (rounds != [] ==> n >= 1 && NextEligible(r, key) >= rounds[0].end + Total(n))
      && (rounds == [] ==> NextEligible(r, key) == 0)
  {
    hide Visit, Backoff, PlainFailure;
    if rounds != [] {
      var k := |rounds| - 1;
      assert forall i :: 0 <= i < k ==> rounds[..k][i] == rounds[i];
      WaitsAddUp(es, key, rounds[..k]);
      PlainVisit(After(es, key, rounds[..k]), key, rounds[k]);
      FailureTakesTime(rounds[k]);
    }
  }

  lemma FailureTakesTime(round: Round)
    requires PlainFailure(round)
    ensures round.start <= round.end
  {
  }

  // The back-off never hammers the CA: after n consecutive failures the next round
  // starts at least 5m * (2^n - 1) after the first of them for n <= 9, and another
  // 24h later for each further failure.
  lemma {:induction false} NeverHammers(es: Entries, key: string, rounds: seq<Round>, next: nat)
    requires Failures(es, key) == 0 && NextEligible(es, key) == 0
    requires rounds != [] && InOrder(rounds)
    requires forall i :: 0 <= i < |rounds| ==> PlainFailure(rounds[i])
    requires Eligible(After(es, key, rounds), key, next)
    ensures var n := Started(es, key, rounds);
      next >= rounds[0].end +
        if n <= 9 then MIN_ISSUE_BACKOFF * (Pow2(n) - 1)
        else MIN_ISSUE_BACKOFF * (Pow2(9) - 1) + (n - 9) * MAX_ISSUE_BACKOFF
  {
    hide After, Started, Pow2, Total, PlainFailure;
    WaitsAddUp(es, key, rounds);
    var n := Started(es, key, rounds);
    if n <= 9 {
      TotalUpTo9(n);
    } else {
      TotalBeyond9(n);
    }
  }

  // Success

  // Whether a round that got past the gate obtained the certificate, by its two tries.
  predicate Obtains(round: Round) {
    round.first.Issued? || (!round.first.permanent && !round.stopped && round.second.Issued?)
  }

  // A round ends in success exactly when one of its tries does, and then nothing is
  // left of the key's history, in the table and, once saved, in the file. Other keys
  // are untouched.
  lemma SuccessClears(es: Entries, key: string, round: Round, file: File)
    requires Eligible(es, key, round.start)
    ensures Visit(es, key, round).1 == Done <==> Obtains(round)
    ensures Obtains(round) ==>
      var (table, r) := Visit(es, key, round);
      && key !in table && Failures(table, key) == 0 && NextEligible(table, key) == 0
      && (forall k :: k != key ==> (k in table <==> k in es) && (k in es ==> table[k] == es[k]))
      && FileAfter(file, table, r, true).Table? && key !in FileAfter(file, table, r, true).stored
  {
  }

  // The failed rounds of the key since its last success, from a count at the outset.
  function SinceSuccess(es: Entries, key: string, rounds: seq<Round>): nat {
    if rounds == [] then Failures(es, key)
    else
      var before, last := rounds[..|rounds| - 1], rounds[|rounds| - 1];
      if !Eligible(After(es, key, before), key, last.start) || CutShort(last) then SinceSuccess(es, key, before)
      else if Obtains(last) then 0
      else SinceSuccess(es, key, before) + 1
  }

  // Over every run of visits, whatever succeeds, fails, is skipped or is stopped, the
  // count in the table is that of the failed rounds since the last success.
  lemma {:induction false} CountIsSinceSuccess(es: Entries, key: string, rounds: seq<Round>)
    ensures Failures(After(es, key, rounds), key) == SinceSuccess(es, key, rounds)
  {
    hide Visit;
    if rounds != [] {
      var k := |rounds| - 1;
      CountIsSinceSuccess(es, key, rounds[..k]);
      CountStep(After(es, key, rounds[..k]), key, rounds[k]);
    }
  }

  lemma CountStep(es: Entries, key: string, round: Round)
    ensures Failures(Visit(es, key, round).0, key) ==
      if !Eligible(es, key, round.start) || CutShort(round) then Failures(es, key)
      else if Obtains(round) then 0
      else Failures(es, key) + 1
  {
    hide Wait;
  }

  // So the first failure after a success waits five minutes, however many came before.
  lemma FreshAfterSuccess(es: Entries, key: string, won: Round, lost: Round)
    requires Eligible(es, key, won.start) && Obtains(won)
    requires PlainFailure(lost)
    ensures NextEligible(Visit(Visit(es, key, won).0, key, lost).0, key) == lost.end + MIN_ISSUE_BACKOFF
  {
    SuccessClears(es, key, won, NoFile);
    PlainVisit(Visit(es, key, won).0, key, lost);
    assert Backoff(1) == MIN_ISSUE_BACKOFF;
    hide Visit;
  }

  // Retry-After

  // No try starts before an earlier answer's Retry-After has passed, as section 6.6
  // of RFC 8555 asks.
  ghost predicate Honoured(tries: seq<TryAt>) {
    forall i, j :: 0 <= i < j < |tries| ==> Waits(tries[i], tries[j])
  }

  predicate Waits(x: TryAt, y: TryAt) {
    x.outcome.Refused? ==> x.end + x.outcome.asked <= y.start
  }

  // The tries of all visits of one key, in order.
  function TriesOf(es: Entries, key: string, rounds: seq<Round>): seq<TryAt> {
    if rounds == [] then []
    else
      var before := rounds[..|rounds| - 1];
      TriesOf(es, key, before) + Tries(After(es, key, before), key, rounds[|rounds| - 1])
  }

  // The first answer names no longer wait than the pause before the second try, or
  // there is no second try.
  predicate Patient(round: Round) {
    || round.first.Issued? || round.first.permanent || round.stopped
    || round.first.asked <= RETRY_PAUSE
  }

  // Within a round that got past the gate Retry-After is honoured if and only if
  // the round is patient: the second try looks at the pause alone.
  lemma RoundHonoursIff(es: Entries, key: string, round: Round)
    requires WellTimed(round) && Eligible(es, key, round.start)
    ensures Honoured(Tries(es, key, round)) <==> Patient(round)
  {
    var tries := Tries(es, key, round);
    if HasSecond(round) {
      assert Waits(tries[0], tries[1]) <==> Patient(round);
    }
  }

  // A refusal that asks for an hour is followed by a second try two seconds later.
  lemma RetryAfterBroken(es: Entries, key: string, start: nat, reported: nat, second: Try)
    requires Eligible(es, key, start)
    ensures var round := Round(start, Refused(false, HOUR, reported), start, false, second, start + RETRY_PAUSE);
      WellTimed(round) && !Honoured(Tries(es, key, round))
  {
    var round := Round(start, Refused(false, HOUR, reported), start, false, second, start + RETRY_PAUSE);
    RoundHonoursIff(es, key, round);
  }

  // Rounds of one process: none overlap, and none follows one that was stopped.
  ghost predicate OneProcess(rounds: seq<Round>) {
    && InOrder(rounds)
    && (forall i :: 0 <= i < |rounds| ==> WellTimed(rounds[i]))
    && (forall i :: 0 <= i < |rounds| - 1 ==> !CutShort(rounds[i]))
  }

  predicate CutShort(round: Round) {
    round.first.Refused? && !round.first.permanent && round.stopped
  }

  lemma OneProcessInit(rounds: seq<Round>)
    requires OneProcess(rounds) && rounds != []
    ensures var k := |rounds| - 1;
      && OneProcess(rounds[..k]) && WellTimed(rounds[k])
      && (k > 0 ==>
            && rounds[..k][k - 1] == rounds[k - 1]
            && !CutShort(rounds[k - 1]) && rounds[k - 1].end <= rounds[k].start)
  {
    hide WellTimed, CutShort;
  }

  // The wait set at the end of a failed round is no shorter than the last answer asks.
  predicate Attentive(es: Entries, key: string, round: Round) {
    Visit(es, key, round).1.Failure? ==> LastTry(round).asked <= Wait(Failures(es, key) + 1, LastTry(round).reported)
  }

  // A round that, if it gets past the gate, is patient and attentive.
  predicate Sound(es: Entries, key: string, round: Round) {
    Eligible(es, key, round.start) ==> Patient(round) && Attentive(es, key, round)
  }

  ghost predicate AllSound(es: Entries, key: string, rounds: seq<Round>) {
    forall i :: 0 <= i < |rounds| ==> Sound(After(es, key, rounds[..i]), key, rounds[i])
  }

  lemma AllSoundSteps(es: Entries, key: string, rounds: seq<Round>)
    requires rounds != []
    ensures var k := |rounds| - 1;
      AllSound(es, key, rounds) <==>
        AllSound(es, key, rounds[..k]) && Sound(After(es, key, rounds[..k]), key, rounds[k])
  {
    hide After, Sound;
    var k := |rounds| - 1;
    assert forall i :: 0 <= i < k ==> rounds[..k][i] == rounds[i] && rounds[..k][..i] == rounds[..i];
  }

  // Every wait asked for so far ends no later than the gate opens or the last
  // round ended.
  ghost predicate WaitsKnown(tries: seq<TryAt>, es: Entries, key: string, end: nat) {
    forall i :: 0 <= i < |tries| && tries[i].outcome.Refused? ==>
      tries[i].end + tries[i].outcome.asked <= Later(NextEligible(es, key), end)
  }

  function Later(a: nat, b: nat): nat {
    if a <= b then b else a
  }

  lemma WaitsKnownVisit(es: Entries, key: string, tries: seq<TryAt>, end: nat, round: Round)
    requires WaitsKnown(tries, es, key, end) && end <= round.start
    requires WellTimed(round) && !CutShort(round)
    requires Sound(es, key, round)
    ensures WaitsKnown(tries + Tries(es, key, round), Visit(es, key, round).0, key, round.end)
  {
    hide Pow2;
  }

  lemma WaitsKnownNext(es: Entries, key: string, tries: seq<TryAt>, end: nat, round: Round)
    requires WaitsKnown(tries, es, key, end) && end <= round.start && WellTimed(round)
    requires Honoured(tries) && (Eligible(es, key, round.start) ==> Honoured(Tries(es, key, round)))
    ensures Honoured(tries + Tries(es, key, round))
  {
    var more := Tries(es, key, round);
    var all := tries + more;
    forall i, j | 0 <= i < j < |all| ensures Waits(all[i], all[j]) {
      if i < |tries| <= j {
        assert all[i] == tries[i] && all[j] == more[j - |tries|];
      } else if |tries| <= i {
        assert Waits(more[i - |tries|], more[j - |tries|]);
      }
    }
  }

  lemma {:induction false} SoundRunHonours(es: Entries, key: string, rounds: seq<Round>)
    requires OneProcess(rounds) && AllSound(es, key, rounds)
    ensures Honoured(TriesOf(es, key, rounds))
    ensures rounds != [] && !CutShort(rounds[|rounds| - 1]) ==>
      WaitsKnown(TriesOf(es, key, rounds), After(es, key, rounds), key, rounds[|rounds| - 1].end)
  {
    hide *;
    if rounds == [] {
      NoTries(es, key);
    } else {
      var k := |rounds| - 1;
      var before, last := rounds[..k], rounds[k];
      OneProcessInit(rounds);
      AllSoundSteps(es, key, rounds);
      SoundRunHonours(es, key, before);
      SoundStep(es, key, before, last, if k > 0 then rounds[k - 1].end else 0);
      assert before + [last] == rounds;
    }
  }

  lemma SoundStep(es: Entries, key: string, before: seq<Round>, last: Round, end: nat)
    requires WellTimed(last) && end <= last.start && Honoured(TriesOf(es, key, before))
    requires before == [] || WaitsKnown(TriesOf(es, key, before), After(es, key, before), key, end)
    requires Sound(After(es, key, before), key, last)
    ensures Honoured(TriesOf(es, key, before + [last]))
    ensures !CutShort(last) ==>
      WaitsKnown(TriesOf(es, key, before + [last]), After(es, key, before + [last]), key, last.end)
  {
    var table, tries := After(es, key, before), TriesOf(es, key, before);
    assert (before + [last])[..|before|] == before;
    assert before == [] ==> WaitsKnown(tries, table, key, end);
    hide Visit, Tries, Eligible, Patient, Attentive, Honoured, WaitsKnown;
    if Eligible(table, key, last.start) {
      RoundHonoursIff(table, key, last);
    }
    WaitsKnownNext(table, key, tries, end, last);
    if !CutShort(last) {
      WaitsKnownVisit(table, key, tries, end, last);
    }
  }

  lemma NoTries(es: Entries, key: string)
    ensures TriesOf(es, key, []) == [] && Honoured([])
  {
  }

  lemma HonouredParts(a: seq<TryAt>, b: seq<TryAt>)
    requires Honoured(a + b)
    ensures Honoured(a) && Honoured(b)
  {
    forall i, j | 0 <= i < j < |a| ensures Waits(a[i], a[j]) {
      assert Waits((a + b)[i], (a + b)[j]);
    }
    forall i, j | 0 <= i < j < |b| ensures Waits(b[i], b[j]) {
      assert Waits((a + b)[|a| + i], (a + b)[|a| + j]);
    }
  }

  lemma TriesOfSteps(es: Entries, key: string, rounds: seq<Round>)
    requires rounds != []
    ensures var k := |rounds| - 1;
      TriesOf(es, key, rounds) == TriesOf(es, key, rounds[..k]) + Tries(After(es, key, rounds[..k]), key, rounds[k])
  {
  }

  // A visit that settles the matter at once.
  function Arrival(start: nat): Round {
    Round(start, Issued, start, false, Issued, start)
  }

  // Wherever the run is cut and whenever the next visit comes then, it is in order.
  ghost predicate HonouredAnytime(es: Entries, key: string, rounds: seq<Round>) {
    forall m: nat, t: nat :: m <= |rounds| && OneProcess(rounds[..m] + [Arrival(t)]) ==>
      Honoured(TriesOf(es, key, rounds[..m] + [Arrival(t)]))
  }

  lemma OneProcessMore(rounds: seq<Round>, m: nat, t: nat)
    requires OneProcess(rounds) && 0 < m <= |rounds| && rounds[m - 1].end <= t && !CutShort(rounds[m - 1])
    ensures OneProcess(rounds[..m] + [Arrival(t)])
  {
    hide CutShort;
    var more := rounds[..m] + [Arrival(t)];
    assert forall i :: 0 <= i < m ==> more[i] == rounds[i];
    assert WellTimed(Arrival(t));
    hide WellTimed;
  }

  lemma ArrivalIsSound(es: Entries, key: string, t: nat)
    ensures Sound(es, key, Arrival(t)) && !CutShort(Arrival(t))
  {
  }

  lemma AllSoundPrefix(es: Entries, key: string, rounds: seq<Round>, m: nat, t: nat)
    requires AllSound(es, key, rounds) && m <= |rounds|
    ensures AllSound(es, key, rounds[..m] + [Arrival(t)])
  {
    hide After, Sound;
    var more := rounds[..m] + [Arrival(t)];
    forall i | 0 <= i < |more| ensures Sound(After(es, key, more[..i]), key, more[i]) {
      assert more[..i] == rounds[..i];
      if i == m {
        ArrivalIsSound(After(es, key, more[..i]), key, t);
      }
    }
  }

  // A round that is not sound breaks the promise, at the latest with a visit at the
  // instant at which the gate opens.
  lemma UnsoundBreaks(es: Entries, key: string, rounds: seq<Round>, i: nat)
    requires OneProcess(rounds) && i < |rounds|
    requires !Sound(After(es, key, rounds[..i]), key, rounds[i])
    ensures var t := Later(rounds[i].end, NextEligible(After(es, key, rounds[..i + 1]), key));
      && OneProcess(rounds[..i + 1] + [Arrival(t)])
      && !Honoured(TriesOf(es, key, rounds[..i + 1] + [Arrival(t)]))
  {
    hide *;
    var table, round := After(es, key, rounds[..i]), rounds[i];
    RunSteps(es, key, rounds, i);
    var after := After(es, key, rounds[..i + 1]);
    var t := Later(round.end, NextEligible(after, key));
    UnsoundIsWhole(table, key, round);
    TimedAt(rounds, i);
    LaterIs(round.end, NextEligible(after, key));
    assert rounds[i + 1 - 1] == round;
    OneProcessMore(rounds, i + 1, t);
    var more := rounds[..i + 1] + [Arrival(t)];
    assert more[..i + 1] == rounds[..i + 1] && more[i + 1] == Arrival(t);
    RunSteps(es, key, more, i + 1);
    assert more[..i + 2] == more;
    TwoRoundsBreak(table, key, round, t);
    var tries, last, next := TriesOf(es, key, rounds[..i]), Tries(table, key, round), Tries(after, key, Arrival(t));
    assert tries + last + next == tries + (last + next);
    if Honoured(tries + last + next) {
      HonouredParts(tries, last + next);
    }
  }

  lemma RunSteps(es: Entries, key: string, rounds: seq<Round>, i: nat)
    requires i < |rounds|
    ensures After(es, key, rounds[..i + 1]) == Visit(After(es, key, rounds[..i]), key, rounds[i]).0
    ensures TriesOf(es, key, rounds[..i + 1])
         == TriesOf(es, key, rounds[..i]) + Tries(After(es, key, rounds[..i]), key, rounds[i])
  {
    hide Visit, Tries;
    assert rounds[..i + 1][..i] == rounds[..i];
  }

  lemma UnsoundIsWhole(es: Entries, key: string, round: Round)
    requires !Sound(es, key, round)
    ensures !CutShort(round)
  {
  }

  lemma TimedAt(rounds: seq<Round>, i: nat)
    requires OneProcess(rounds) && i < |rounds|
    ensures WellTimed(rounds[i])
  {
    hide WellTimed;
  }

  lemma LaterIs(a: nat, b: nat)
    ensures a <= Later(a, b) && b <= Later(a, b)
  {
  }

  lemma TwoRoundsBreak(table: Entries, key: string, round: Round, t: nat)
    requires WellTimed(round) && !Sound(table, key, round)
    requires t == Later(round.end, NextEligible(Visit(table, key, round).0, key))
    ensures !Honoured(Tries(table, key, round) + Tries(Visit(table, key, round).0, key, Arrival(t)))
  {
    var last, next := Tries(table, key, round), Tries(Visit(table, key, round).0, key, Arrival(t));
    RoundHonoursIff(table, key, round);
    if Honoured(last + next) {
      HonouredParts(last, next);
    }
    assert Honoured(last + next) ==> Waits((last + next)[|last| - 1], (last + next)[|last|]);
  }

  // Over every run of one process, from any table: Retry-After is honoured between
  // all tries, wherever the run is cut and whenever the next visit comes, if and only
  // if every round that gets past the gate is patient and attentive.
  lemma RetryAfterHonouredIff(es: Entries, key: string, rounds: seq<Round>)
    requires OneProcess(rounds)
    ensures HonouredAnytime(es, key, rounds) <==> AllSound(es, key, rounds)
  {
    hide *;
    if AllSound(es, key, rounds) {
      AllSoundAnytime(es, key, rounds);
    } else {
      var i := SomeUnsound(es, key, rounds);
      UnsoundBreaks(es, key, rounds, i);
      NotAnytime(es, key, rounds, i + 1, Later(rounds[i].end, NextEligible(After(es, key, rounds[..i + 1]), key)));
    }
  }

  lemma AllSoundAnytime(es: Entries, key: string, rounds: seq<Round>)
    requires AllSound(es, key, rounds)
    ensures HonouredAnytime(es, key, rounds)
  {
    hide AllSound, OneProcess, Honoured, TriesOf;
    forall m: nat, t: nat | m <= |rounds| && OneProcess(rounds[..m] + [Arrival(t)])
      ensures Honoured(TriesOf(es, key, rounds[..m] + [Arrival(t)]))
    {
      AllSoundPrefix(es, key, rounds, m, t);
      SoundRunHonours(es, key, rounds[..m] + [Arrival(t)]);
    }
  }

  lemma SomeUnsound(es: Entries, key: string, rounds: seq<Round>) returns (i: nat)
    requires !AllSound(es, key, rounds)
    ensures i < |rounds| && !Sound(After(es, key, rounds[..i]), key, rounds[i])
  {
    hide Sound, After;
    i :| 0 <= i < |rounds| && !Sound(After(es, key, rounds[..i]), key, rounds[i]);
  }

  lemma NotAnytime(es: Entries, key: string, rounds: seq<Round>, m: nat, t: nat)
    requires m <= |rounds| && OneProcess(rounds[..m] + [Arrival(t)])
    requires !Honoured(TriesOf(es, key, rounds[..m] + [Arrival(t)]))
    ensures !HonouredAnytime(es, key, rounds)
  {
    hide OneProcess, Honoured, TriesOf;
  }

  // Any single run of sound rounds honours every Retry-After.
  lemma AllSoundHonours(es: Entries, key: string, rounds: seq<Round>)
    requires OneProcess(rounds) && AllSound(es, key, rounds)
    ensures Honoured(TriesOf(es, key, rounds))
  {
    hide *;
    SoundRunHonours(es, key, rounds);
  }

  // An answer that RateLimit does not report, as one in a wrapped error: asked to wait
  // ten days after a permanent refusal, the gate opens after five minutes.
  lemma UnreportedAnswerBroken(es: Entries, key: string, start: nat)
    requires Eligible(es, key, start) && Failures(es, key) == 0
    ensures var round := Round(start, Refused(true, 240 * HOUR, 0), start, false, Issued, start);
      && Patient(round) && !Sound(es, key, round)
      && Eligible(Visit(es, key, round).0, key, start + MIN_ISSUE_BACKOFF)
  {
    assert Backoff(1) == MIN_ISSUE_BACKOFF;
  }

  // Without a report no answer that asks for more than a day is ever waited out.
  lemma UnreportedDayBroken(es: Entries, key: string, round: Round)
    requires Visit(es, key, round).1.Failure?
    requires LastTry(round).reported == 0 && LastTry(round).asked > MAX_ISSUE_BACKOFF
    ensures !Sound(es, key, round)
  {
    hide Pow2;
  }

  // While the gate is closed visits change nothing, so none of them gets past it
  // before it opens.
  lemma {:induction false} GateHolds(es: Entries, key: string, rounds: seq<Round>, k: nat)
    requires k < |rounds| && forall i :: 0 <= i < k ==> rounds[i].start <= rounds[i + 1].start
    requires Eligible(After(es, key, rounds[..k]), key, rounds[k].start)
    ensures NextEligible(es, key) <= rounds[k].start
    decreases k
  {
    hide Visit;
    if k > 0 {
      var before := rounds[..k - 1];
      assert rounds[..k][..k - 1] == before;
      if Eligible(After(es, key, before), key, rounds[k - 1].start) {
        GateHolds(es, key, rounds, k - 1);
      } else {
        ClosedVisit(After(es, key, before), key, rounds[k - 1]);
        assert After(es, key, rounds[..k]) == After(es, key, before);
        var shorter := before + [rounds[k]];
        assert shorter[..k - 1] == before;
        forall i | 0 <= i < k - 1 ensures shorter[i].start <= shorter[i + 1].start {
          assert rounds[i].start <= rounds[i + 1].start;
          if i == k - 2 {
            assert rounds[k - 1].start <= rounds[k - 1 + 1].start;
          }
        }
        GateHolds(es, key, shorter, k - 1);
      }
    }
  }

  lemma ClosedVisit(es: Entries, key: string, round: Round)
    requires !Eligible(es, key, round.start)
    ensures Visit(es, key, round).0 == es
  {
  }

  // No later visit gets past the gate before `until`.
  ghost predicate HeldBack(es: Entries, key: string, until: nat) {
    forall rounds: seq<Round>, k: nat ::
      k < |rounds| && Ordered(rounds) && Eligible(After(es, key, rounds[..k]), key, rounds[k].start) ==>
        until <= rounds[k].start
  }

  ghost predicate Ordered(rounds: seq<Round>) {
    forall i :: 0 <= i < |rounds| - 1 ==> rounds[i].start <= rounds[i + 1].start
  }

  // The last answer of a failed round is honoured by every later sequence of visits
  // if and only if the wait set for it is as long as it asks.
  lemma LastAnswerHonouredIff(es: Entries, key: string, round: Round)
    requires Visit(es, key, round).1.Failure?
    ensures HeldBack(Visit(es, key, round).0, key, round.end + LastTry(round).asked)
       <==> LastTry(round).asked <= Wait(Failures(es, key) + 1, LastTry(round).reported)
  {
    var table := Visit(es, key, round).0;
    var opens := round.end + Wait(Failures(es, key) + 1, LastTry(round).reported);
    assert NextEligible(table, key) == opens;
    hide Visit, Wait;
    HeldBackIff(table, key, round.end + LastTry(round).asked);
  }

  lemma HeldBackIff(es: Entries, key: string, until: nat)
    ensures HeldBack(es, key, until) <==> until <= NextEligible(es, key)
  {
    if until <= NextEligible(es, key) {
      forall rounds: seq<Round>, k: nat | k < |rounds| && Ordered(rounds)
        && Eligible(After(es, key, rounds[..k]), key, rounds[k].start) ensures until <= rounds[k].start
      {
        GateHolds(es, key, rounds, k);
      }
    } else {
      var rounds := [Arrival(NextEligible(es, key))];
      assert rounds[..0] == [] && Ordered(rounds);
      assert Eligible(After(es, key, rounds[..0]), key, rounds[0].start);
    }
  }

  // Of the visits after a failed round the first one at or after the end of its wait
  // gets past the gate.
  lemma FirstVisitAfterWait(es: Entries, key: string, round: Round, rounds: seq<Round>, k: nat)
    requires Visit(es, key, round).1.Failure? && k < |rounds|
    requires var wait := Wait(Failures(es, key) + 1, LastTry(round).reported);
      forall i :: 0 <= i < k ==> rounds[i].start < round.end + wait
    ensures Eligible(After(Visit(es, key, round).0, key, rounds[..k]), key, rounds[k].start)
       <==> round.end + Wait(Failures(es, key) + 1, LastTry(round).reported) <= rounds[k].start
  {
    var opens := round.end + Wait(Failures(es, key) + 1, LastTry(round).reported);
    assert NextEligible(Visit(es, key, round).0, key) == opens;
    ClosedVisits(Visit(es, key, round).0, key, rounds[..k], opens);
  }

  lemma {:induction false} ClosedVisits(es: Entries, key: string, rounds: seq<Round>, opens: nat)
    requires NextEligible(es, key) == opens && forall i :: 0 <= i < |rounds| ==> rounds[i].start < opens
    ensures After(es, key, rounds) == es
  {
    if rounds != [] {
      var k := |rounds| - 1;
      assert forall i :: 0 <= i < k ==> rounds[..k][i] == rounds[i];
      ClosedVisits(es, key, rounds[..k], opens);
      ClosedVisit(es, key, rounds[k]);
    }
  }

  // Often enough

  // Visits of a vhost whose certificate is due since instant `since`: at most `gap`
  // apart, rounds no longer than `length`, no success and no Retry-After reported.
  ghost predicate DueVisits(rounds: seq<Round>, since: nat, gap: nat, length: nat) {
    && InOrder(rounds)
    && (forall i :: 0 <= i < |rounds| ==> PlainFailure(rounds[i]) && rounds[i].end <= rounds[i].start + length)
    && (forall i :: 0 <= i < |rounds| - 1 ==> rounds[i + 1].start <= rounds[i].start + gap)
    && (rounds != [] ==> since <= rounds[0].start <= since + gap)
  }

  // The instant by which the gate is open after n rounds: n periods, a round and a
  // day.
  function Open(since: nat, period: nat, length: nat, n: nat): nat {
    since + n * period + length + MAX_ISSUE_BACKOFF
  }

  lemma OpenNext(since: nat, period: nat, length: nat, n: nat)
    ensures Open(since, period, length, n + 1) == Open(since, period, length, n) + period
  {
    assert (n + 1) * period == n * period + period;
  }

  // The visit after a prefix of due visits comes no later than a gap after the
  // instant by which the gate was open.
  lemma NextVisitSoon(rounds: seq<Round>, since: nat, gap: nat, length: nat, k: nat, bound: nat)
    requires DueVisits(rounds, since, gap, length) && k < |rounds|
    requires since <= bound && (k > 0 ==> rounds[k - 1].start <= bound)
    ensures rounds[k].start <= bound + gap
    ensures PlainFailure(rounds[k]) && rounds[k].end <= rounds[k].start + length
  {
    hide PlainFailure;
  }

  lemma {:induction false} GateOpens(es: Entries, key: string, rounds: seq<Round>, since: nat, gap: nat, length: nat)
    requires DueVisits(rounds, since, gap, length)
    requires NextEligible(es, key) <= since + length + MAX_ISSUE_BACKOFF
    ensures var open := Open(since, MAX_ISSUE_BACKOFF + gap + length, length, Started(es, key, rounds));
      && NextEligible(After(es, key, rounds), key) <= open
      && (rounds != [] ==> rounds[|rounds| - 1].start <= open)
  {
    hide Visit, Backoff, PlainFailure, Open, DueVisits;
    var period := MAX_ISSUE_BACKOFF + gap + length;
    OpenNext(since, period, length, 0);
    if rounds == [] {
      OpenZero(since, period, length);
    } else {
      var k := |rounds| - 1;
      var before, m := After(es, key, rounds[..k]), Started(es, key, rounds[..k]);
      assert k > 0 ==> rounds[..k][k - 1] == rounds[k - 1];
      DuePrefix(rounds, since, gap, length, k);
      GateOpens(es, key, rounds[..k], since, gap, length);
      OpenZero(since, period, length);
      OpenNext(since, period, length, m);
      NextVisitSoon(rounds, since, gap, length, k, Open(since, period, length, m));
      PlainVisit(before, key, rounds[k]);
      BackoffValue(Failures(before, key) + 1);
    }
  }

  lemma OpenZero(since: nat, period: nat, length: nat)
    ensures Open(since, period, length, 0) == since + length + MAX_ISSUE_BACKOFF
    ensures forall n: nat :: since <= Open(since, period, length, n)
  {
  }

  lemma DuePrefix(rounds: seq<Round>, since: nat, gap: nat, length: nat, k: nat)
    requires DueVisits(rounds, since, gap, length) && k <= |rounds|
    ensures DueVisits(rounds[..k], since, gap, length)
  {
    hide PlainFailure;
    assert forall i :: 0 <= i < k ==> rounds[..k][i] == rounds[i];
  }

  // How many of the visits up to an instant got past the gate.
  function StartedBy(es: Entries, key: string, rounds: seq<Round>, until: nat): nat {
    if rounds == [] then 0
    else
      var before := rounds[..|rounds| - 1];
      var last := rounds[|rounds| - 1];
      StartedBy(es, key, before, until)
        + if last.start <= until && Eligible(After(es, key, before), key, last.start) then 1 else 0
  }

  lemma {:induction false} StartedByAll(es: Entries, key: string, rounds: seq<Round>, until: nat)
    requires forall i :: 0 <= i < |rounds| ==> rounds[i].start <= until
    ensures StartedBy(es, key, rounds, until) == Started(es, key, rounds)
  {
    hide Visit;
    if rounds != [] {
      var k := |rounds| - 1;
      assert forall i :: 0 <= i < k ==> rounds[..k][i] == rounds[i];
      StartedByAll(es, key, rounds[..k], until);
    }
  }

  // Visits up to an instant form a prefix.
  lemma {:induction false} StartsInOrder(rounds: seq<Round>, since: nat, gap: nat, length: nat, i: nat, j: nat)
    requires DueVisits(rounds, since, gap, length) && i <= j < |rounds|
    ensures rounds[i].start <= rounds[j].start
  {
    if i < j {
      StartsInOrder(rounds, since, gap, length, i, j - 1);
      FailureTakesTime(rounds[j - 1]);
    }
  }

  // Renewal keeps trying: as long as visits go on and nothing succeeds, at least
  // floor(L / (24h + gap + length)) rounds start within L after the instant from
  // which renewal is due.
  lemma {:induction false} OftenEnough(es: Entries, key: string, rounds: seq<Round>,
                                       since: nat, gap: nat, length: nat, L: nat)
    requires DueVisits(rounds, since, gap, length)
    requires NextEligible(es, key) <= since + length + MAX_ISSUE_BACKOFF
    requires rounds != [] && rounds[|rounds| - 1].start > since + L
    ensures StartedBy(es, key, rounds, since + L) >= L / (MAX_ISSUE_BACKOFF + gap + length)
  {
    hide Visit, PlainFailure, Open, DueVisits, After, Started;
    var period := MAX_ISSUE_BACKOFF + gap + length;
    var k := |rounds| - 1;
    var before := rounds[..k];
    assert StartedBy(es, key, rounds, since + L) == StartedBy(es, key, before, since + L);
    DuePrefix(rounds, since, gap, length, k);
    assert k > 0 ==> before[k - 1] == rounds[k - 1];
    if k > 0 && rounds[k - 1].start > since + L {
      OftenEnough(es, key, before, since, gap, length, L);
    } else {
      forall i | 0 <= i < k ensures before[i].start <= since + L {
        StartsInOrder(rounds, since, gap, length, i, k - 1);
      }
      StartedByAll(es, key, before, since + L);
      GateOpens(es, key, before, since, gap, length);
      var n := Started(es, key, before);
      OpenZero(since, period, length);
      NextVisitSoon(rounds, since, gap, length, k, Open(since, period, length, n));
      assert since + L < Open(since, period, length, n) + gap;
      PeriodsCovered(since, L, period, n, gap, length);
    }
  }

  lemma PeriodsCovered(since: nat, L: nat, period: nat, n: nat, gap: nat, length: nat)
    requires period == MAX_ISSUE_BACKOFF + gap + length
    requires since + L < Open(since, period, length, n) + gap
    ensures L / period <= n
  {
    var q := L / period;
    assert L >= q * period;
    assert (n + 1) * period == n * period + period;
    assert L < (n + 1) * period;
    if q >= n + 1 {
      MulMonotone(n + 1, q, period);
    }
  }

  lemma MulMonotone(a: nat, b: nat, c: nat)
    requires a <= b
    ensures a * c <= b * c
  {
  }
}
