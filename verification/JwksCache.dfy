// jwtverify/jwkscache.go: getKey, a double-checked lookup around a network fetch.
// Any number of calls run concurrently; every lock operation, every read of the
// shared map and every look at the clock is a step of its own.
module JwksCache {
  import opened Options

  type Key = nat

  datatype Entry = Entry(keys: map<string, Key>, fetchedAt: nat, ttl: nat) {
    predicate Fresh(now: int) {
      now - fetchedAt < ttl
    }
  }

  datatype Answer = Found(key: Key) | FreshMiss | FetchedMiss | FetchError

  // Where a call stands. The index readAt names the state of the run in
  // which the call looked at the map.
  datatype Pc =
    | WantRead
    | Reading
    | HasRead(seen: Option<Entry>, readAt: nat)
    | Checking(seen: Option<Entry>, readAt: nat)
    | WantWrite
    | Rereading
    | Rechecking(seen: Option<Entry>, readAt: nat)
    | Fetching(startedAt: nat)
    | Leaving(answer: Answer)
    | Done(answer: Answer)
  {
    predicate HoldsRead() { Reading? || HasRead? }

    predicate HoldsWrite() { Rereading? || Rechecking? || Fetching? || Leaving? }
  }

  datatype Call = Call(url: string, kid: string, calledAt: nat, pc: Pc)

  // A completed fetch: when it began and what it stored.
  datatype Store = Store(startedAt: nat, entry: Entry)

  datatype State = State(
    now: nat, step: nat, entries: map<string, Entry>,
    readers: set<nat>, writer: Option<nat>, calls: map<nat, Call>,
    stores: map<string, seq<Store>>)
  {
    function Lookup(url: string): Option<Entry> {
      if url in entries then Some(entries[url]) else None
    }

    function Stores(url: string): seq<Store> {
      if url in stores then stores[url] else []
    }

    function Move(t: nat, pc: Pc): State
      requires t in calls
    {
      this.(calls := calls[t := calls[t].(pc := pc)], step := step + 1)
    }
  }

  function Init(): State {
    State(0, 0, map[], {}, None, map[], map[])
  }

  datatype Step =
    | Begin(t: nat, url: string, kid: string)
    | AcquireRead(t: nat)
    | Read(t: nat)
    | ReleaseRead(t: nat)
    | Check(t: nat)
    | AcquireWrite(t: nat)
    | Reread(t: nat)
    | Recheck(t: nat)
    | Fetched(t: nat, keys: map<string, Key>, ttl: nat)
    | FetchFailed(t: nat)
    | Unlock(t: nat)
    | Tick(d: nat)

  predicate Enabled(s: State, step: Step) {
    match step
    case Begin(t, _, _) => t !in s.calls
    case AcquireRead(t) => t in s.calls && s.calls[t].pc.WantRead? && s.writer.None?
    case Read(t) => t in s.calls && s.calls[t].pc.Reading?
    case ReleaseRead(t) => t in s.calls && s.calls[t].pc.HasRead?
    case Check(t) => t in s.calls && s.calls[t].pc.Checking?
    case AcquireWrite(t) => t in s.calls && s.calls[t].pc.WantWrite? && s.writer.None? && s.readers == {}
    case Reread(t) => t in s.calls && s.calls[t].pc.Rereading?
    case Recheck(t) => t in s.calls && s.calls[t].pc.Rechecking?
    case Fetched(t, _, _) => t in s.calls && s.calls[t].pc.Fetching?
    case FetchFailed(t) => t in s.calls && s.calls[t].pc.Fetching?
    case Unlock(t) => t in s.calls && s.calls[t].pc.Leaving?
    case Tick(_) => true
  }

  // What getKey answers without fetching, if it does, from the entry it has seen.
  function Verdict(seen: Option<Entry>, kid: string, now: nat): Option<Answer> {
    match seen
    case None => None
    case Some(e) =>
      if kid in e.keys then Some(Found(e.keys[kid]))
      else if e.Fresh(now) then Some(FreshMiss)
      else None
  }

  function Apply(s: State, step: Step): State
    requires Enabled(s, step)
  {
    match step
    case Begin(t, url, kid) => s.(calls := s.calls[t := Call(url, kid, s.step + 1, WantRead)], step := s.step + 1)
    case AcquireRead(t) => s.Move(t, Reading).(readers := s.readers + {t})
    case Read(t) => s.Move(t, HasRead(s.Lookup(s.calls[t].url), s.step))
    case ReleaseRead(t) => s.Move(t, Checking(s.calls[t].pc.seen, s.calls[t].pc.readAt)).(readers := s.readers - {t})
    case Check(t) =>
      var verdict := Verdict(s.calls[t].pc.seen, s.calls[t].kid, s.now);
      s.Move(t, if verdict.Some? then Done(verdict.value) else WantWrite)
    case AcquireWrite(t) => s.Move(t, Rereading).(writer := Some(t))
    case Reread(t) => s.Move(t, Rechecking(s.Lookup(s.calls[t].url), s.step))
    case Recheck(t) =>
      var verdict := Verdict(s.calls[t].pc.seen, s.calls[t].kid, s.now);
      s.Move(t, if verdict.Some? then Leaving(verdict.value) else Fetching(s.now))
    case Fetched(t, keys, ttl) =>
      var call, e := s.calls[t], Entry(keys, s.now, ttl);
      s.Move(t, Leaving(if call.kid in keys then Found(keys[call.kid]) else FetchedMiss))
       .(entries := s.entries[call.url := e],
         stores := s.stores[call.url := s.Stores(call.url) + [Store(call.pc.startedAt, e)]])
    case FetchFailed(t) => s.Move(t, Leaving(FetchError))
    case Unlock(t) => s.Move(t, Done(s.calls[t].pc.answer)).(writer := None)
    case Tick(d) => s.(now := s.now + d, step := s.step + 1)
  }

  // A run: the states it passes through and the steps between them.
  ghost predicate IsRun(states: seq<State>, steps: seq<Step>) {
    && |states| == |steps| + 1
    && states[0] == Init()
    && forall i :: 0 <= i < |steps| ==> Enabled(states[i], steps[i]) && states[i + 1] == Apply(states[i], steps[i])
  }

  // Locks

  ghost predicate LockOf(s: State, t: nat) {
    && (t in s.readers <==> t in s.calls && s.calls[t].pc.HoldsRead())
    && (s.writer == Some(t) <==> t in s.calls && s.calls[t].pc.HoldsWrite())
  }

  ghost predicate LocksMatch(s: State) {
    && (forall t :: LockOf(s, t))
    && (s.writer.Some? ==> s.readers == {})
  }

  // What is known about the entry of a call's URL while it holds the write lock.
  ghost predicate Guarded(s: State, call: Call) {
    && (call.pc.Rechecking? ==> call.pc.seen == s.Lookup(call.url))
    && (call.pc.Fetching? ==>
          call.pc.startedAt <= s.now && Verdict(s.Lookup(call.url), call.kid, call.pc.startedAt).None?)
  }

  // The history of stores of a URL and the map agree.
  ghost predicate HistoryOf(s: State, url: string) {
    var h := s.Stores(url);
    if h == [] then url !in s.entries
    else url in s.entries && s.entries[url] == h[|h| - 1].entry && s.entries[url].fetchedAt <= s.now
  }

  // Each fetch of a URL began after the previous entry had reached its ttl.
  ghost predicate Spaced(h: seq<Store>) {
    && (forall i :: 0 <= i < |h| ==> h[i].startedAt <= h[i].entry.fetchedAt)
    && (forall i :: 0 <= i < |h| - 1 ==> h[i].entry.fetchedAt + h[i].entry.ttl <= h[i + 1].startedAt)
  }

  ghost predicate Inv(s: State) {
    && LocksMatch(s)
    && (forall url :: HistoryOf(s, url) && Spaced(s.Stores(url)))
    && (forall t :: t in s.calls ==> Guarded(s, s.calls[t]))
  }

  lemma LockStep(s: State, step: Step, t: nat)
    requires LocksMatch(s) && Enabled(s, step)
    ensures LockOf(Apply(s, step), t)
  {
    hide Verdict, LocksMatch;
    assert LockOf(s, t) && (s.writer.Some? ==> s.readers == {}) by { LocksGive(s, t); }
    if step.Unlock? {
      LocksGive(s, step.t);
    }
  }

  lemma LocksGive(s: State, t: nat)
    requires LocksMatch(s)
    ensures LockOf(s, t) && (s.writer.Some? ==> s.readers == {})
  {
  }

  lemma LocksStep(s: State, step: Step)
    requires LocksMatch(s) && Enabled(s, step)
    ensures LocksMatch(Apply(s, step))
  {
    forall t ensures LockOf(Apply(s, step), t) {
      LockStep(s, step, t);
    }
    if !step.Tick? {
      LocksGive(s, step.t);
    }
  }

  // Steps other than the end of a successful fetch leave the map alone.
  lemma QuietStep(s: State, step: Step)
    requires Enabled(s, step) && !step.Fetched?
    requires forall t :: t in s.calls ==> Guarded(s, s.calls[t])
    ensures var r := Apply(s, step);
      && r.entries == s.entries && r.stores == s.stores && r.now >= s.now
      && forall t :: t in r.calls ==> Guarded(r, r.calls[t])
  {
    hide Verdict;
    var r := Apply(s, step);
    forall t | t in r.calls ensures Guarded(r, r.calls[t]) {
      if t in s.calls {
        assert Guarded(s, s.calls[t]);
      }
    }
  }

  // The end of a fetch changes one URL, and only its own call can be guarded then.
  lemma FetchedGuards(s: State, step: Step, t: nat)
    requires LocksMatch(s) && Enabled(s, step) && step.Fetched?
    requires t in Apply(s, step).calls
    ensures Guarded(Apply(s, step), Apply(s, step).calls[t])
  {
    LocksGive(s, t);
    LocksGive(s, step.t);
    hide LocksMatch, Verdict;
  }

  lemma FetchedHistory(s: State, step: Step, url: string)
    requires Enabled(s, step) && step.Fetched?
    requires HistoryOf(s, url) && Spaced(s.Stores(url))
    requires Guarded(s, s.calls[step.t])
    ensures HistoryOf(Apply(s, step), url) && Spaced(Apply(s, step).Stores(url))
  {
    var call, r := s.calls[step.t], Apply(s, step);
    if url == call.url {
      var h := s.Stores(url);
      var e := Entry(step.keys, s.now, step.ttl);
      assert r.Stores(url) == h + [Store(call.pc.startedAt, e)];
      if h != [] {
        assert s.Lookup(url) == Some(h[|h| - 1].entry);
        assert !h[|h| - 1].entry.Fresh(call.pc.startedAt);
      }
    }
  }

  lemma InvStep(s: State, step: Step)
    requires Inv(s) && Enabled(s, step)
    ensures Inv(Apply(s, step))
  {
    hide LocksMatch, Guarded, Spaced, Enabled, Verdict;
    var r := Apply(s, step);
    LocksStep(s, step);
    if step.Fetched? {
      forall t | t in r.calls ensures Guarded(r, r.calls[t]) {
        FetchedGuards(s, step, t);
      }
      assert step.t in s.calls by { EnabledCalls(s, step); }
      forall url ensures HistoryOf(r, url) && Spaced(r.Stores(url)) {
        assert HistoryOf(s, url);
        FetchedHistory(s, step, url);
      }
    } else {
      QuietStep(s, step);
      hide Apply;
      forall url ensures HistoryOf(r, url) && Spaced(r.Stores(url)) {
        assert HistoryOf(s, url) && r.Stores(url) == s.Stores(url);
      }
    }
  }

  lemma EnabledCalls(s: State, step: Step)
    requires Enabled(s, step) && step.Fetched?
    ensures step.t in s.calls
  {
  }

  // Facts about whole runs

  lemma InitInv()
    ensures Inv(Init())
  {
  }

  lemma StepCounts(s: State, step: Step)
    requires Enabled(s, step)
    ensures Apply(s, step).step == s.step + 1
  {
  }

  lemma {:induction false} RunInv(states: seq<State>, steps: seq<Step>, i: nat)
    requires IsRun(states, steps) && i < |states|
    ensures Inv(states[i]) && states[i].step == i
  {
    hide LockOf, Spaced, HistoryOf, Guarded, Enabled;
    if i == 0 {
      InitInv();
    } else {
      RunInv(states, steps, i - 1);
      hide Apply;
      InvStep(states[i - 1], steps[i - 1]);
      StepCounts(states[i - 1], steps[i - 1]);
      hide Inv;
    }
  }

  lemma {:induction false} ClockMonotone(states: seq<State>, steps: seq<Step>, i: nat, j: nat)
    requires IsRun(states, steps) && i <= j < |states|
    ensures states[i].now <= states[j].now
  {
    if i < j {
      ClockMonotone(states, steps, i, j - 1);
      assert Enabled(states[j - 1], steps[j - 1]);
    }
  }

  // A fetch begins, and stays on the wire, only while the map has no entry for its
  // URL or one that lacks the kid and had reached its ttl; and no two fetches of
  // the cache overlap.
  lemma FetchOnlyWhenNeeded(states: seq<State>, steps: seq<Step>, i: nat, t: nat, u: nat)
    requires IsRun(states, steps) && i < |states|
    requires t in states[i].calls && states[i].calls[t].pc.Fetching?
    ensures var s, call := states[i], states[i].calls[t];
      && (call.url in s.entries ==>
            var e := s.entries[call.url];
            call.kid !in e.keys && e.fetchedAt + e.ttl <= call.pc.startedAt <= s.now)
      && (u in s.calls && s.calls[u].pc.Fetching? ==> u == t)
  {
    RunInv(states, steps, i);
    var s := states[i];
    assert Guarded(s, s.calls[t]);
    OnlyWriter(s, t, u);
  }

  lemma OnlyWriter(s: State, w: nat, t: nat)
    requires LocksMatch(s) && w in s.calls && s.calls[w].pc.HoldsWrite()
    ensures t in s.calls && s.calls[t].pc.HoldsWrite() ==> t == w
  {
    LocksGive(s, w);
    LocksGive(s, t);
  }

  // Successive successful fetches of one URL are at least the ttl of the earlier
  // one apart, from its end to the beginning of the next.
  lemma FetchesSpaced(states: seq<State>, steps: seq<Step>, i: nat, url: string, k: nat)
    requires IsRun(states, steps) && i < |states|
    requires k + 1 < |states[i].Stores(url)|
    ensures var h := states[i].Stores(url);
      && h[k].entry.fetchedAt + h[k].entry.ttl <= h[k + 1].startedAt <= h[k + 1].entry.fetchedAt
  {
    RunInv(states, steps, i);
    assert Spaced(states[i].Stores(url));
  }

  lemma {:induction false} SpacedSpan(h: seq<Store>, ttl: nat, k: nat)
    requires Spaced(h) && k < |h|
    requires forall i :: 0 <= i < |h| ==> h[i].entry.ttl >= ttl
    ensures h[0].entry.fetchedAt + k * ttl <= h[k].entry.fetchedAt
  {
    if k > 0 {
      SpacedSpan(h, ttl, k - 1);
      assert k * ttl == (k - 1) * ttl + ttl;
    }
  }

  // However many calls run, n successful fetches of one URL whose responses allow
  // caching for ttl or longer take at least (n - 1) times ttl.
  lemma FetchBudget(states: seq<State>, steps: seq<Step>, i: nat, url: string, ttl: nat)
    requires IsRun(states, steps) && i < |states|
    requires forall k :: 0 <= k < |states[i].Stores(url)| ==> states[i].Stores(url)[k].entry.ttl >= ttl
    ensures (|states[i].Stores(url)| - 1) * ttl <= states[i].now
  {
    RunInv(states, steps, i);
    var h := states[i].Stores(url);
    assert HistoryOf(states[i], url) && Spaced(h);
    if h != [] {
      SpacedSpan(h, ttl, |h| - 1);
    }
  }

  // What it means that the map justifies an answer.
  ghost predicate Justifies(s: State, url: string, kid: string, answer: Answer) {
    match answer
    case Found(key) => url in s.entries && kid in s.entries[url].keys && s.entries[url].keys[kid] == key
    case FreshMiss =>
      && url in s.entries && kid !in s.entries[url].keys
      && s.now < s.entries[url].fetchedAt + s.entries[url].ttl
    case FetchedMiss => url in s.entries && kid !in s.entries[url].keys
    case FetchError => true
  }

  // Some state between the call and index i justifies the answer.
  ghost predicate JustifiedWithin(states: seq<State>, from: nat, i: nat, call: Call, answer: Answer) {
    exists k :: from <= k <= i && k < |states| && Justifies(states[k], call.url, call.kid, answer)
  }

  ghost predicate SeenAt(states: seq<State>, i: nat, call: Call, seen: Option<Entry>, readAt: nat) {
    call.calledAt <= readAt <= i && readAt < |states| && states[readAt].Lookup(call.url) == seen
  }

  ghost predicate CallOk(states: seq<State>, i: nat, call: Call) {
    && call.calledAt <= i
    && match call.pc
       case HasRead(seen, readAt) => SeenAt(states, i, call, seen, readAt)
       case Checking(seen, readAt) => SeenAt(states, i, call, seen, readAt)
       case Rechecking(seen, readAt) => SeenAt(states, i, call, seen, readAt)
       case Leaving(answer) => JustifiedWithin(states, call.calledAt, i, call, answer)
       case Done(answer) => JustifiedWithin(states, call.calledAt, i, call, answer)
       case _ => true
  }

  lemma CallOkLater(states: seq<State>, i: nat, call: Call)
    requires CallOk(states, i, call)
    ensures CallOk(states, i + 1, call)
  {
  }

  // An answer drawn from an entry seen earlier was right when the entry was seen:
  // entries never change, and a fresh entry was fresh before.
  lemma VerdictJustified(states: seq<State>, steps: seq<Step>, i: nat, call: Call, seen: Option<Entry>, readAt: nat)
    requires IsRun(states, steps) && i < |states|
    requires SeenAt(states, i, call, seen, readAt)
    ensures var v := Verdict(seen, call.kid, states[i].now);
      v.Some? ==> JustifiedWithin(states, call.calledAt, i, call, v.value)
  {
    ClockMonotone(states, steps, readAt, i);
    var v := Verdict(seen, call.kid, states[i].now);
    if v.Some? {
      assert Justifies(states[readAt], call.url, call.kid, v.value);
    }
  }

  // The step of a call itself.
  lemma CallOkStep(states: seq<State>, steps: seq<Step>, i: nat, t: nat)
    requires IsRun(states, steps) && i < |steps|
    requires !steps[i].Tick? && steps[i].t == t
    requires states[i].step == i
    requires t in states[i].calls ==> CallOk(states, i, states[i].calls[t])
    ensures t in states[i + 1].calls && CallOk(states, i + 1, states[i + 1].calls[t])
  {
    var s, step := states[i], steps[i];
    assert Enabled(s, step) && states[i + 1] == Apply(s, step);
    if step.Check? || step.Recheck? {
      VerdictJustified(states, steps, i, s.calls[t], s.calls[t].pc.seen, s.calls[t].pc.readAt);
    } else if step.Fetched? || step.FetchFailed? {
      var call := states[i + 1].calls[t];
      assert Justifies(states[i + 1], call.url, call.kid, call.pc.answer);
    }
  }

  lemma OthersUnmoved(s: State, step: Step, t: nat)
    requires Enabled(s, step) && (step.Tick? || step.t != t)
    ensures var r := Apply(s, step); t in r.calls <==> t in s.calls
    ensures var r := Apply(s, step); t in s.calls ==> r.calls[t] == s.calls[t]
  {
  }

  lemma {:induction false} CallsOk(states: seq<State>, steps: seq<Step>, i: nat, t: nat)
    requires IsRun(states, steps) && i < |states|
    requires t in states[i].calls
    ensures CallOk(states, i, states[i].calls[t])
  {
    if i > 0 {
      RunInv(states, steps, i - 1);
      hide Inv, CallOk, Apply;
      var s, step := states[i - 1], steps[i - 1];
      if t in s.calls {
        CallsOk(states, steps, i - 1, t);
      }
      if step.Tick? || step.t != t {
        OthersUnmoved(s, step, t);
        CallOkLater(states, i - 1, s.calls[t]);
      } else {
        CallOkStep(states, steps, i - 1, t);
      }
    }
  }

  // Every answer, except that of a failed fetch, is justified by the contents of
  // the cache at some instant between the beginning and the end of the call.
  lemma AnswersAreLinearizable(states: seq<State>, steps: seq<Step>, i: nat, t: nat)
    requires IsRun(states, steps) && i < |states|
    requires t in states[i].calls && states[i].calls[t].pc.Done?
    ensures var call := states[i].calls[t];
      JustifiedWithin(states, call.calledAt, i, call, call.pc.answer)
  {
    CallsOk(states, steps, i, t);
  }

  // The answer of the call is that its fetch failed.
  predicate AnswersError(s: State, t: nat) {
    t in s.calls && s.calls[t].pc in {Leaving(FetchError), Pc.Done(FetchError)}
  }

  lemma ErrorStep(s: State, step: Step, t: nat)
    requires Enabled(s, step)
    ensures AnswersError(Apply(s, step), t) <==> step == FetchFailed(t) || AnswersError(s, t)
  {
  }

  // In every run a call answers that its fetch failed if and only if it did fail: an
  // error is never reported for a fetch that succeeded, nor taken from another call.
  lemma {:induction false} ErrorIffFetchFailed(states: seq<State>, steps: seq<Step>, i: nat, t: nat)
    requires IsRun(states, steps) && i < |states|
    ensures AnswersError(states[i], t) <==> exists k :: 0 <= k < i && steps[k] == FetchFailed(t)
  {
    if i > 0 {
      ErrorIffFetchFailed(states, steps, i - 1, t);
      assert Enabled(states[i - 1], steps[i - 1]) && states[i] == Apply(states[i - 1], steps[i - 1]);
      hide Apply, Enabled, AnswersError;
      ErrorStep(states[i - 1], steps[i - 1], t);
    }
  }

  // No run gets stuck: while a call is under way some call can take a step, even
  // if waiting writers keep new readers out.
  lemma NeverStuck(states: seq<State>, steps: seq<Step>, i: nat, t: nat) returns (step: Step)
    requires IsRun(states, steps) && i < |states|
    requires t in states[i].calls && !states[i].calls[t].pc.Done?
    ensures Enabled(states[i], step) && !step.Tick? && !step.Begin?
    ensures (exists u :: u in states[i].calls && states[i].calls[u].pc.WantWrite?) ==> !step.AcquireRead?
  {
    RunInv(states, steps, i);
    var s := states[i];
    if s.writer.Some? {
      var w := s.writer.value;
      LocksGive(s, w);
      step := match s.calls[w].pc
        case Rereading => Reread(w)
        case Rechecking(_, _) => Recheck(w)
        case Fetching(_) => FetchFailed(w)
        case _ => Unlock(w);
    } else if s.readers != {} {
      var r :| r in s.readers;
      LocksGive(s, r);
      step := if s.calls[r].pc.Reading? then Read(r) else ReleaseRead(r);
    } else if u :| u in s.calls && s.calls[u].pc.WantWrite? {
      step := AcquireWrite(u);
    } else {
      LocksGive(s, t);
      step := if s.calls[t].pc.Checking? then Check(t) else AcquireRead(t);
    }
  }

  // When a fetch begins, in plain arithmetic: there is no entry, or one that lacks the
  // kid and has reached its ttl.
  predicate NeedsFetch(entries: map<string, Entry>, url: string, kid: string, now: nat) {
    url !in entries || (kid !in entries[url].keys && entries[url].fetchedAt + entries[url].ttl <= now)
  }

  // In every run the check under the write lock leads to a fetch if and only if the
  // map calls for one at that instant.
  lemma RecheckFetchesIff(states: seq<State>, steps: seq<Step>, i: nat, t: nat)
    requires IsRun(states, steps) && i < |steps| && steps[i] == Recheck(t)
    ensures t in states[i].calls && t in states[i + 1].calls
    ensures var s, call := states[i], states[i].calls[t];
      states[i + 1].calls[t].pc.Fetching? <==>
        (|| call.url !in s.entries
         || (&& call.kid !in s.entries[call.url].keys
             && s.entries[call.url].fetchedAt + s.entries[call.url].ttl <= s.now))
  {
    RunInv(states, steps, i);
    var s := states[i];
    assert Enabled(s, steps[i]) && states[i + 1] == Apply(s, steps[i]);
    assert Guarded(s, s.calls[t]);
  }

  // And the check after the read lock leads there if and only if the map called for it
  // when it was read, told by the clock at the time of the check.
  lemma CheckWantsWriteIff(states: seq<State>, steps: seq<Step>, i: nat, t: nat)
    requires IsRun(states, steps) && i < |steps| && steps[i] == Check(t)
    ensures t in states[i].calls && states[i].calls[t].pc.Checking? && t in states[i + 1].calls
    ensures var call := states[i].calls[t];
      && call.pc.readAt < |states|
      && (states[i + 1].calls[t].pc.WantWrite? <==>
            NeedsFetch(states[call.pc.readAt].entries, call.url, call.kid, states[i].now))
  {
    assert Enabled(states[i], steps[i]) && states[i + 1] == Apply(states[i], steps[i]);
    CallsOk(states, steps, i, t);
    var call := states[i].calls[t];
    assert SeenAt(states, i, call, call.pc.seen, call.pc.readAt);
  }

  // Step i is a successful fetch of the URL.
  ghost predicate FetchOf(states: seq<State>, steps: seq<Step>, url: string, i: nat)
    requires |states| == |steps| + 1 && i < |steps|
  {
    steps[i].Fetched? && steps[i].t in states[i].calls && states[i].calls[steps[i].t].url == url
  }

  ghost predicate LastFetch(states: seq<State>, steps: seq<Step>, url: string, i: nat, j: nat)
    requires |states| == |steps| + 1
  {
    && i < j <= |steps| && FetchOf(states, steps, url, i)
    && forall k :: i < k < j ==> !FetchOf(states, steps, url, k)
  }

  lemma EntryStep(s: State, step: Step, url: string)
    requires Enabled(s, step)
    ensures var r := Apply(s, step);
      if step.Fetched? && s.calls[step.t].url == url
      then url in r.entries && r.entries[url] == Entry(step.keys, s.now, step.ttl)
      else r.Lookup(url) == s.Lookup(url)
  {
  }

  // The entry of a URL is what its last successful fetch brought, stamped with the
  // instant at which that fetch ended.
  lemma {:induction false} EntryOfLastFetch(states: seq<State>, steps: seq<Step>, url: string, i: nat, j: nat)
    requires IsRun(states, steps) && LastFetch(states, steps, url, i, j)
    ensures url in states[j].entries && states[j].entries[url] == Entry(steps[i].keys, states[i].now, steps[i].ttl)
    decreases j
  {
    assert Enabled(states[j - 1], steps[j - 1]) && states[j] == Apply(states[j - 1], steps[j - 1]);
    EntryStep(states[j - 1], steps[j - 1], url);
    if i + 1 < j {
      if steps[j - 1].Fetched? {
        EnabledCalls(states[j - 1], steps[j - 1]);
      }
      assert !FetchOf(states, steps, url, j - 1);
      EntryOfLastFetch(states, steps, url, i, j - 1);
    }
    hide Apply, Enabled;
  }

  // So over every run a call whose turn comes with the write lock fetches again if and
  // only if the last successful fetch of its URL did not bring the kid and its ttl has
  // passed since that fetch ended.
  lemma RefetchIff(states: seq<State>, steps: seq<Step>, i: nat, j: nat, t: nat)
    requires IsRun(states, steps) && j < |steps| && steps[j] == Recheck(t)
    requires t in states[j].calls && LastFetch(states, steps, states[j].calls[t].url, i, j)
    ensures t in states[j + 1].calls
    ensures states[j + 1].calls[t].pc.Fetching? <==>
      states[j].calls[t].kid !in steps[i].keys && states[i].now + steps[i].ttl <= states[j].now
  {
    var url := states[j].calls[t].url;
    hide *;
    RecheckFetchesIff(states, steps, j, t);
    EntryOfLastFetch(states, steps, url, i, j);
  }

  // One call on its own

  // What fetchAndParseJWKS returns.
  datatype Response = Response(keys: map<string, Key>, ttl: nat) | NoResponse

  // The code of getKey when no other call interferes; the clock is looked at for
  // the first check, for the second one, and when the response is stored.
  class Cache {
    var entries: map<string, Entry>

    constructor ()
      ensures entries == map[]
    {
      entries := map[];
    }

    // The lookup that getKey makes under the read lock and again under the write lock.
    method Look(url: string, kid: string, now: nat) returns (verdict: Option<Answer>)
      ensures verdict == Verdict(if url in entries then Some(entries[url]) else None, kid, now)
      ensures verdict.None? <==> NeedsFetch(entries, url, kid, now)
      ensures verdict == Some(FreshMiss) <==>
        url in entries && kid !in entries[url].keys && now < entries[url].fetchedAt + entries[url].ttl
    {
      if url in entries {
        var entry := entries[url];
        if kid in entry.keys {
          return Some(Found(entry.keys[kid]));
        }
        if now - entry.fetchedAt < entry.ttl {
          return Some(FreshMiss);
        }
      }
      return None;
    }

    method GetKey(url: string, kid: string, first: nat, second: nat, stored: nat, response: Response)
      returns (answer: Answer)
      requires first <= second <= stored
      modifies this`entries
      ensures (entries, answer) == Alone(old(entries), url, kid, first, second, stored, response)
      ensures answer == FreshMiss <==>
        && url in old(entries) && kid !in old(entries)[url].keys
        && first < old(entries)[url].fetchedAt + old(entries)[url].ttl
      ensures answer == FetchError <==> NeedsFetch(old(entries), url, kid, first) && response.NoResponse?
      ensures entries != old(entries) ==> NeedsFetch(old(entries), url, kid, second) && response.Response?
      ensures NeedsFetch(old(entries), url, kid, first) && response.Response? ==>
        url in entries && entries[url] == Entry(response.keys, stored, response.ttl)
    {
      var verdict := Look(url, kid, first);
      if verdict.Some? {
        return verdict.value;
      }
      verdict := Look(url, kid, second);
      if verdict.Some? {
        return verdict.Or(FetchError);
      }
      if response.NoResponse? {
        return FetchError;
      }
      entries := entries[url := Entry(response.keys, stored, response.ttl)];
      if kid !in response.keys {
        return FetchedMiss;
      }
      return Found(response.keys[kid]);
    }
  }

  function Alone(entries: map<string, Entry>, url: string, kid: string, first: nat, second: nat, stored: nat,
                 response: Response): (map<string, Entry>, Answer)
  {
    var seen := if url in entries then Some(entries[url]) else None;
    if Verdict(seen, kid, first).Some? then (entries, Verdict(seen, kid, first).value)
    else if Verdict(seen, kid, second).Some? then (entries, Verdict(seen, kid, second).value)
    else if response.NoResponse? then (entries, FetchError)
    else (entries[url := Entry(response.keys, stored, response.ttl)],
          if kid in response.keys then Found(response.keys[kid]) else FetchedMiss)
  }

  ghost predicate Reaches(a: State, steps: seq<Step>, b: State)
    decreases |steps|
  {
    if steps == [] then a == b
    else Enabled(a, steps[0]) && Reaches(Apply(a, steps[0]), steps[1..], b)
  }

  lemma {:induction false} ReachesMore(a: State, steps: seq<Step>, b: State, more: seq<Step>, c: State)
    requires Reaches(a, steps, b) && Reaches(b, more, c)
    ensures Reaches(a, steps + more, c)
    decreases |steps|
  {
    hide Apply, Enabled;
    if steps == [] {
      assert steps + more == more;
    } else {
      assert (steps + more)[1..] == steps[1..] + more;
      ReachesMore(Apply(a, steps[0]), steps[1..], b, more, c);
    }
  }

  lemma ReachesStep(a: State, steps: seq<Step>, b: State, step: Step)
    requires Reaches(a, steps, b) && Enabled(b, step)
    ensures Reaches(a, steps + [step], Apply(b, step))
  {
    hide Apply, Enabled;
    assert [step][1..] == [];
    ReachesMore(a, steps, b, [step], Apply(b, step));
  }

  // No lock is held and call t has not begun.
  predicate Quiet(s: State, t: nat) {
    t !in s.calls && s.readers == {} && s.writer.None?
  }

  // Up to the first check.
  lemma AloneReads(s: State, t: nat, url: string, kid: string) returns (steps: seq<Step>, r: State)
    requires Quiet(s, t)
    ensures Reaches(s, steps, r) && r.now == s.now && r.entries == s.entries && r.readers == {} && r.writer.None?
    ensures t in r.calls && r.calls[t].url == url && r.calls[t].kid == kid
    ensures var v := Verdict(s.Lookup(url), kid, s.now);
      r.calls[t].pc == if v.Some? then Done(v.value) else WantWrite
  {
    var s1 := Apply(s, Begin(t, url, kid));
    var s2 := Apply(s1, AcquireRead(t));
    var s3 := Apply(s2, Read(t));
    var s4 := Apply(s3, ReleaseRead(t));
    r := Apply(s4, Check(t));
    steps := [] + [Begin(t, url, kid)] + [AcquireRead(t)] + [Read(t)] + [ReleaseRead(t)] + [Check(t)];
    hide Apply, Enabled;
    ReachesStep(s, [], s, Begin(t, url, kid));
    ReachesStep(s, [] + [Begin(t, url, kid)], s1, AcquireRead(t));
    ReachesStep(s, [] + [Begin(t, url, kid)] + [AcquireRead(t)], s2, Read(t));
    ReachesStep(s, [] + [Begin(t, url, kid)] + [AcquireRead(t)] + [Read(t)], s3, ReleaseRead(t));
    ReachesStep(s, [] + [Begin(t, url, kid)] + [AcquireRead(t)] + [Read(t)] + [ReleaseRead(t)], s4, Check(t));
  }

  // From the write lock to the second check.
  lemma AloneRechecks(s: State, t: nat, second: nat) returns (steps: seq<Step>, r: State)
    requires t in s.calls && s.calls[t].pc.WantWrite? && s.readers == {} && s.writer.None? && s.now <= second
    ensures Reaches(s, steps, r) && r.now == second && r.entries == s.entries
    ensures t in r.calls && r.calls[t].url == s.calls[t].url && r.calls[t].kid == s.calls[t].kid
    ensures var v := Verdict(s.Lookup(s.calls[t].url), s.calls[t].kid, second);
      if v.Some? then r.calls[t].pc == Leaving(v.value) else r.calls[t].pc.Fetching?
  {
    var d := second - s.now;
    var s1 := Apply(s, AcquireWrite(t));
    var s2 := Apply(s1, Reread(t));
    var s3 := Apply(s2, Tick(d));
    r := Apply(s3, Recheck(t));
    steps := [] + [AcquireWrite(t)] + [Reread(t)] + [Tick(d)] + [Recheck(t)];
    hide Apply, Enabled;
    ReachesStep(s, [], s, AcquireWrite(t));
    ReachesStep(s, [] + [AcquireWrite(t)], s1, Reread(t));
    ReachesStep(s, [] + [AcquireWrite(t)] + [Reread(t)], s2, Tick(d));
    ReachesStep(s, [] + [AcquireWrite(t)] + [Reread(t)] + [Tick(d)], s3, Recheck(t));
  }

  lemma AloneFetches(s: State, t: nat, stored: nat, response: Response) returns (steps: seq<Step>, r: State)
    requires t in s.calls && s.calls[t].pc.Fetching? && s.now <= stored
    ensures Reaches(s, steps, r) && t in r.calls
    ensures r.entries == if response.NoResponse? then s.entries
                         else s.entries[s.calls[t].url := Entry(response.keys, stored, response.ttl)]
    ensures r.calls[t].pc == Leaving(
      if response.NoResponse? then FetchError
      else if s.calls[t].kid in response.keys then Found(response.keys[s.calls[t].kid]) else FetchedMiss)
  {
    var d := stored - s.now;
    var s1 := Apply(s, Tick(d));
    var last := if response.NoResponse? then FetchFailed(t) else Fetched(t, response.keys, response.ttl);
    r := Apply(s1, last);
    steps := [] + [Tick(d)] + [last];
    hide Apply, Enabled;
    ReachesStep(s, [], s, Tick(d));
    ReachesStep(s, [] + [Tick(d)], s1, last);
  }

  lemma AloneUnlocks(s: State, t: nat) returns (steps: seq<Step>, r: State)
    requires t in s.calls && s.calls[t].pc.Leaving?
    ensures Reaches(s, steps, r) && r.entries == s.entries
    ensures t in r.calls && r.calls[t].pc == Done(s.calls[t].pc.answer)
  {
    r := Apply(s, Unlock(t));
    steps := [] + [Unlock(t)];
    ReachesStep(s, [], s, Unlock(t));
  }

  // The code run on its own is one of the interleavings: from every state in which
  // no lock is held the protocol can take the same call to the same answer and the
  // same map.
  lemma AloneIsARun(s: State, t: nat, url: string, kid: string, second: nat, stored: nat, response: Response)
    returns (steps: seq<Step>, r: State)
    requires Quiet(s, t) && s.now <= second <= stored
    ensures Reaches(s, steps, r) && t in r.calls && r.calls[t].pc.Done?
    ensures (r.entries, r.calls[t].pc.answer) == Alone(s.entries, url, kid, s.now, second, stored, response)
  {
    hide Apply, Enabled, Reaches;
    steps, r := AloneReads(s, t, url, kid);
    if r.calls[t].pc.WantWrite? {
      var more, next := AloneRechecks(r, t, second);
      ReachesMore(s, steps, r, more, next);
      steps, r := steps + more, next;
      if r.calls[t].pc.Fetching? {
        more, next := AloneFetches(r, t, stored, response);
        ReachesMore(s, steps, r, more, next);
        steps, r := steps + more, next;
      }
      more, next := AloneUnlocks(r, t);
      ReachesMore(s, steps, r, more, next);
      steps, r := steps + more, next;
    }
  }
}
