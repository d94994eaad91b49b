// acme/httpchallenge.go: the answers to HTTP-01 challenges and the temporary,
// reference-counted listener on port 80. Every critical section is a step of its
// own, so the steps of concurrent challenge windows interleave at will.
module ChallengeServer {
  datatype Server = Server(tokens: map<string, string>, refs: nat, up: bool)

  const IDLE := Server(map[], 0, false)

  function Opened(s: Server, listenOk: bool): Server {
    if s.up then s.(refs := s.refs + 1)
    else if listenOk then s.(refs := s.refs + 1, up := true)
    else s
  }

  function Closed(s: Server): Server {
    var refs := if s.refs > 0 then s.refs - 1 else 0;
    s.(refs := refs, up := s.up && refs != 0)
  }

  class HttpChallengeServer {
    const servePort80: bool
    var tokens: map<string, string>
    var port80ln: bool
    var port80srv: bool
    var port80refs: int

    ghost predicate Valid()
      reads this
    {
      port80refs >= 0 && port80ln == port80srv
    }

    ghost function State(): Server
      reads this
      requires Valid()
    {
      Server(tokens, port80refs, port80ln)
    }

    constructor (servePort80: bool)
      ensures Valid() && State() == IDLE && this.servePort80 == servePort80
    {
      this.servePort80 := servePort80;
      tokens, port80ln, port80srv, port80refs := map[], false, false, 0;
    }

    // The first critical section of add.
    method StoreToken(path: string, keyAuth: string)
      requires Valid()
      modifies this`tokens
      ensures Valid() && State() == old(State()).(tokens := old(tokens)[path := keyAuth])
    {
      tokens := tokens[path := keyAuth];
    }

    // The first critical section of remove.
    method DeleteToken(path: string)
      requires Valid()
      modifies this`tokens
      ensures Valid() && State() == old(State()).(tokens := old(tokens) - {path})
    {
      tokens := tokens - {path};
    }

    // response
    method Response(path: string) returns (keyAuth: string)
      requires Valid()
      ensures keyAuth == Answer(State(), path)
    {
      keyAuth := if path in tokens then tokens[path] else "";
    }

    // listenOk says whether net.Listen would succeed.
    method OpenPort80(listenOk: bool)
      requires Valid()
      modifies this`port80refs, this`port80ln, this`port80srv
      ensures Valid() && State() == if servePort80 then Opened(old(State()), listenOk) else old(State())
    {
      if !servePort80 {
        return;
      }
      port80refs := port80refs + 1;
      if port80ln {
        return;
      }
      if !listenOk {
        port80refs := port80refs - 1;
        return;
      }
      port80ln := true;
      port80srv := true;
    }

    method ClosePort80()
      requires Valid()
      modifies this`port80refs, this`port80ln, this`port80srv
      ensures Valid() && State() == if servePort80 then Closed(old(State())) else old(State())
    {
      if !servePort80 {
        return;
      }
      if port80refs > 0 {
        port80refs := port80refs - 1;
      }
      if port80refs == 0 && port80srv {
        port80srv := false;
        port80ln := false;
      }
    }
  }

  function Answer(s: Server, path: string): string {
    if path in s.tokens then s.tokens[path] else ""
  }

  // Runs of challenge windows, with port-80 serving on

  // A window is one add and the matching remove: its token is stored, the port
  // opened, the token deleted, the port closed.
  datatype Phase = Stored | Open | Deleted

  datatype Event =
    | Store(w: nat)
    | OpenPort(w: nat, listenOk: bool)
    | Delete(w: nat)
    | ClosePort(w: nat)

  datatype World = World(server: Server, phase: map<nat, Phase>)

  const START := World(IDLE, map[])

  // The challenge of a window: where it is answered, and with what.
  datatype Challenge = Challenge(path: string, keyAuth: string)

  predicate Enabled(x: World, e: Event) {
    match e
    case Store(w) => w !in x.phase
    case OpenPort(w, _) => w in x.phase && x.phase[w] == Stored
    case Delete(w) => w in x.phase && x.phase[w] == Open
    case ClosePort(w) => w in x.phase && x.phase[w] == Deleted
  }

  function Apply(x: World, e: Event, of: nat -> Challenge): World {
    match e
    case Store(w) =>
      World(x.server.(tokens := x.server.tokens[of(w).path := of(w).keyAuth]), x.phase[w := Stored])
    case OpenPort(w, listenOk) =>
      World(Opened(x.server, listenOk), x.phase[w := Open])
    case Delete(w) =>
      World(x.server.(tokens := x.server.tokens - {of(w).path}), x.phase[w := Deleted])
    case ClosePort(w) =>
      World(Closed(x.server), x.phase - {w})
  }

  function Run(events: seq<Event>, of: nat -> Challenge): World {
    if events == [] then START
    else Apply(Run(events[..|events| - 1], of), events[|events| - 1], of)
  }

  predicate IsRun(events: seq<Event>, of: nat -> Challenge) {
    events == [] ||
    (var init := events[..|events| - 1];
     IsRun(init, of) && Enabled(Run(init, of), events[|events| - 1]))
  }

  // The windows between opening and closing the port.
  function Holding(x: World): set<nat> {
    set w | w in x.phase && x.phase[w] != Stored
  }

  lemma HoldingPut(x: World, y: World, w: nat, p: Phase)
    requires y.phase == x.phase[w := p]
    ensures Holding(y) == if p == Stored then Holding(x) - {w} else Holding(x) + {w}
  {
  }

  lemma HoldingDrop(x: World, y: World, w: nat)
    requires y.phase == x.phase - {w}
    ensures Holding(y) == Holding(x) - {w}
  {
  }

  // The windows whose token is to be answered.
  predicate Live(x: World, w: nat) {
    w in x.phase && x.phase[w] != Deleted
  }

  ghost predicate Inv(x: World) {
    && (x.server.up <==> x.server.refs > 0)
    && x.server.refs <= |Holding(x)|
  }

  lemma InvStep(x: World, e: Event, of: nat -> Challenge)
    requires Inv(x) && Enabled(x, e)
    ensures Inv(Apply(x, e, of))
  {
    HoldingStep(x, e, of);
  }

  lemma HoldingStep(x: World, e: Event, of: nat -> Challenge)
    requires Enabled(x, e)
    ensures |Holding(Apply(x, e, of))| == |Holding(x)|
      + (if e.OpenPort? then 1 else 0) - (if e.ClosePort? then 1 else 0)
  {
    var y := Apply(x, e, of);
    assert e.w in Holding(x) <==> e.Delete? || e.ClosePort?;
    hide Holding, Opened, Closed;
    match e
    case Store(w) => HoldingPut(x, y, w, Stored);
    case OpenPort(w, _) => HoldingPut(x, y, w, Open);
    case Delete(w) =>
      HoldingPut(x, y, w, Deleted);
      assert Holding(x) + {w} == Holding(x);
    case ClosePort(w) => HoldingDrop(x, y, w);
  }

  // In every reachable state the listener is up exactly while references are held,
  // and never more are held than windows are open: nothing leaks after the last one
  // closes, whatever Listen does.
  lemma {:induction false} RunInv(events: seq<Event>, of: nat -> Challenge)
    requires IsRun(events, of)
    ensures Inv(Run(events, of))
    ensures Holding(Run(events, of)) == {} ==> !Run(events, of).server.up && Run(events, of).server.refs == 0
  {
    if events == [] {
      assert Holding(START) == {};
    } else {
      RunInv(events[..|events| - 1], of);
      InvStep(Run(events[..|events| - 1], of), events[|events| - 1], of);
    }
  }

  // Since no window last held the port, some window found it taken.
  predicate MissedSinceIdle(events: seq<Event>, of: nat -> Challenge) {
    if events == [] || Holding(Run(events, of)) == {} then false
    else
      var init, e := events[..|events| - 1], events[|events| - 1];
      MissedSinceIdle(init, of) || (e.OpenPort? && !e.listenOk && !Run(init, of).server.up)
  }

  // The count of references is the number of open windows if and only if no Listen
  // failed since the port was last idle.
  lemma {:induction false} RefsExactIff(events: seq<Event>, of: nat -> Challenge)
    requires IsRun(events, of)
    ensures Run(events, of).server.refs == |Holding(Run(events, of))| <==> !MissedSinceIdle(events, of)
  {
    RunInv(events, of);
    if events != [] {
      var init, e := events[..|events| - 1], events[|events| - 1];
      RefsExactIff(init, of);
      RunInv(init, of);
      HoldingStep(Run(init, of), e, of);
      hide Holding;
      assert Run(events, of) == Apply(Run(init, of), e, of);
      hide Run, IsRun;
    }
  }

  // How many windows count without holding a reference: each refused one adds to
  // them, and a window that closes when no reference is left takes one away.
  function Deficit(events: seq<Event>, of: nat -> Challenge): int {
    if events == [] then 0
    else
      var init, e := events[..|events| - 1], events[|events| - 1];
      var s := Run(init, of).server;
      Deficit(init, of)
      + (if e.OpenPort? && !e.listenOk && !s.up then 1 else 0)
      - (if e.ClosePort? && s.refs == 0 then 1 else 0)
  }

  // In every run the listener is up if and only if more windows are open than the
  // deficit; a window is left without it exactly when the deficit has reached the
  // number of open windows.
  lemma {:induction false} UpIff(events: seq<Event>, of: nat -> Challenge)
    requires IsRun(events, of)
    ensures var x := Run(events, of);
      && 0 <= Deficit(events, of) <= |Holding(x)|
      && x.server.refs == |Holding(x)| - Deficit(events, of)
      && (x.server.up <==> |Holding(x)| > Deficit(events, of))
  {
    RunInv(events, of);
    if events == [] {
      assert Holding(START) == {};
    } else {
      var init, e := events[..|events| - 1], events[|events| - 1];
      UpIff(init, of);
      HoldingStep(Run(init, of), e, of);
      hide Holding;
      assert Run(events, of) == Apply(Run(init, of), e, of);
      hide Run, IsRun;
    }
  }

  // So with a port that is never refused the listener is up exactly while a window
  // holds it.
  lemma UpWhileOpen(events: seq<Event>, of: nat -> Challenge)
    requires IsRun(events, of) && !MissedSinceIdle(events, of)
    ensures Run(events, of).server.up <==> Holding(Run(events, of)) != {}
  {
    RefsExactIff(events, of);
    RunInv(events, of);
  }

  lemma {:induction false} NeverRefused(events: seq<Event>, of: nat -> Challenge)
    requires forall i :: 0 <= i < |events| && events[i].OpenPort? ==> events[i].listenOk
    ensures !MissedSinceIdle(events, of)
  {
    hide Run, Holding;
    if events != [] {
      NeverRefused(events[..|events| - 1], of);
    }
  }

  // A window that was refused the port takes away the reference of one that got it.
  lemma RefusedWindowStopsListener(of: nat -> Challenge)
    ensures var events := [Store(0), OpenPort(0, false), Store(1), OpenPort(1, true), Delete(0), ClosePort(0)];
      && IsRun(events, of)
      && Run(events, of).phase == map[1 := Open]
      && !Run(events, of).server.up
  {
    var x3 := RefusedThenOpened(of);
    var x6 := RefusedCloses(x3, of);
    hide *;
    var e0, e1, e2, e3, e4, e5 :=
      Store(0), OpenPort(0, false), Store(1), OpenPort(1, true), Delete(0), ClosePort(0);
    RunThree([], e0, e1, e2, of);
    assert [] + [e0, e1, e2] == [e0, e1, e2];
    RunThree([e0, e1, e2], e3, e4, e5, of);
    assert [e0, e1, e2] + [e3, e4, e5] == [e0, e1, e2, e3, e4, e5];
    NothingRun(of);
  }

  lemma RefusedThenOpened(of: nat -> Challenge) returns (x3: World)
    ensures var x1 := Apply(START, Store(0), of);
      var x2 := Apply(x1, OpenPort(0, false), of);
      && x3 == Apply(x2, Store(1), of)
      && Enabled(START, Store(0)) && Enabled(x1, OpenPort(0, false)) && Enabled(x2, Store(1))
    ensures x3.phase == map[0 := Open, 1 := Stored] && x3.server.refs == 0 && !x3.server.up
  {
    var x1 := Apply(START, Store(0), of);
    var x2 := Apply(x1, OpenPort(0, false), of);
    x3 := Apply(x2, Store(1), of);
  }

  lemma RefusedCloses(x3: World, of: nat -> Challenge) returns (x6: World)
    requires x3.phase == map[0 := Open, 1 := Stored] && x3.server.refs == 0 && !x3.server.up
    ensures var x4 := Apply(x3, OpenPort(1, true), of);
      var x5 := Apply(x4, Delete(0), of);
      && x6 == Apply(x5, ClosePort(0), of)
      && Enabled(x3, OpenPort(1, true)) && Enabled(x4, Delete(0)) && Enabled(x5, ClosePort(0))
    ensures x6.phase == map[1 := Open] && !x6.server.up
  {
    var x4 := Apply(x3, OpenPort(1, true), of);
    var x5 := Apply(x4, Delete(0), of);
    x6 := Apply(x5, ClosePort(0), of);
    assert x6.phase == map[1 := Open];
  }

  lemma NothingRun(of: nat -> Challenge)
    ensures Run([], of) == START && IsRun([], of)
  {
  }

  lemma RunThree(events: seq<Event>, a: Event, b: Event, c: Event, of: nat -> Challenge)
    ensures var x := Run(events, of);
      var y := Apply(x, a, of);
      var z := Apply(y, b, of);
      && Run(events + [a, b, c], of) == Apply(z, c, of)
      && (IsRun(events, of) && Enabled(x, a) && Enabled(y, b) && Enabled(z, c) ==> IsRun(events + [a, b, c], of))
  {
    hide Run, IsRun, Apply, Enabled;
    Extend(events, a, of);
    Extend(events + [a], b, of);
    Extend(events + [a] + [b], c, of);
    assert events + [a] + [b] + [c] == events + [a, b, c];
  }

  lemma Extend(events: seq<Event>, e: Event, of: nat -> Challenge)
    ensures Run(events + [e], of) == Apply(Run(events, of), e, of)
    ensures IsRun(events + [e], of) <==> IsRun(events, of) && Enabled(Run(events, of), e)
  {
    assert (events + [e])[..|events|] == events;
  }

  // No window starts while another one for the same path is live.
  predicate PathsApart(events: seq<Event>, of: nat -> Challenge) {
    events == [] ||
    (var init, e := events[..|events| - 1], events[|events| - 1];
     && PathsApart(init, of)
     && (e.Store? ==> forall v | v in Run(init, of).phase :: Live(Run(init, of), v) ==> of(v).path != of(e.w).path))
  }

  // The stored answers are exactly those of the live windows.
  ghost predicate TokensOk(x: World, of: nat -> Challenge) {
    && (forall w :: Live(x, w) ==> of(w).path in x.server.tokens && x.server.tokens[of(w).path] == of(w).keyAuth)
    && (forall p :: p in x.server.tokens ==> exists w :: Live(x, w) && of(w).path == p)
    && (forall v, w :: Live(x, v) && Live(x, w) && v != w ==> of(v).path != of(w).path)
  }

  lemma TokensStep(x: World, e: Event, of: nat -> Challenge)
    requires TokensOk(x, of) && Enabled(x, e)
    requires e.Store? ==> forall v | v in x.phase :: Live(x, v) ==> of(v).path != of(e.w).path
    ensures TokensOk(Apply(x, e, of), of)
  {
    var y := Apply(x, e, of);
    OthersLive(x, e, of);
    match e
    case Store(w) => StoreStep(x, w, of);
    case OpenPort(w, _) => SameTokens(x, y, of);
    case Delete(w) => DeleteStep(x, w, of);
    case ClosePort(w) => SameTokens(x, y, of);
  }

  lemma OthersLive(x: World, e: Event, of: nat -> Challenge)
    requires Enabled(x, e)
    ensures var y := Apply(x, e, of);
      && (forall v :: v != e.w ==> (Live(y, v) <==> Live(x, v)))
      && (e.OpenPort? || e.ClosePort? ==> (Live(y, e.w) <==> Live(x, e.w)) && y.server.tokens == x.server.tokens)
  {
  }

  lemma SameTokens(x: World, y: World, of: nat -> Challenge)
    requires TokensOk(x, of) && y.server.tokens == x.server.tokens
    requires forall w :: Live(y, w) <==> Live(x, w)
    ensures TokensOk(y, of)
  {
    hide Live;
    forall p | p in y.server.tokens ensures exists w :: Live(y, w) && of(w).path == p {
      var w :| Live(x, w) && of(w).path == p;
      assert Live(y, w);
    }
  }

  lemma StoreStep(x: World, w: nat, of: nat -> Challenge)
    requires TokensOk(x, of) && w !in x.phase
    requires forall v | v in x.phase :: Live(x, v) ==> of(v).path != of(w).path
    ensures TokensOk(Apply(x, Store(w), of), of)
  {
    var y := Apply(x, Store(w), of);
    assert y.server.tokens == x.server.tokens[of(w).path := of(w).keyAuth];
    assert forall v :: Live(y, v) <==> v == w || Live(x, v);
    assert forall v :: Live(x, v) ==> of(v).path != of(w).path && v != w;
    hide Live, Apply;
    forall p | p in y.server.tokens ensures exists v :: Live(y, v) && of(v).path == p {
      if p == of(w).path {
        assert Live(y, w);
      } else {
        var v :| Live(x, v) && of(v).path == p;
        assert Live(y, v);
      }
    }
  }

  lemma DeleteStep(x: World, w: nat, of: nat -> Challenge)
    requires TokensOk(x, of) && w in x.phase && x.phase[w] == Open
    ensures TokensOk(Apply(x, Delete(w), of), of)
  {
    var y := Apply(x, Delete(w), of);
    assert Live(x, w) && forall v :: Live(y, v) <==> v != w && Live(x, v);
    hide Live;
    forall p | p in y.server.tokens ensures exists v :: Live(y, v) && of(v).path == p {
      var v :| Live(x, v) && of(v).path == p;
      assert Live(y, v);
    }
  }

  // response answers exactly for the live windows, each with its own key
  // authorization.
  lemma {:induction false} AnswersOpenWindows(events: seq<Event>, of: nat -> Challenge)
    requires IsRun(events, of) && PathsApart(events, of)
    ensures TokensOk(Run(events, of), of)
  {
    if events != [] {
      var init, e := events[..|events| - 1], events[|events| - 1];
      AnswersOpenWindows(init, of);
      hide TokensOk, Apply;
      TokensStep(Run(init, of), e, of);
    }
  }

  lemma AnswerIff(events: seq<Event>, of: nat -> Challenge, path: string)
    requires IsRun(events, of) && PathsApart(events, of)
    requires forall w :: of(w).keyAuth != ""
    ensures Answer(Run(events, of).server, path) != ""
       <==> exists w :: Live(Run(events, of), w) && of(w).path == path
    ensures forall w :: Live(Run(events, of), w) ==> Answer(Run(events, of).server, of(w).path) == of(w).keyAuth
  {
    AnswersOpenWindows(events, of);
    hide Run, IsRun, PathsApart;
    var x := Run(events, of);
    if path in x.server.tokens {
      var w :| Live(x, w) && of(w).path == path;
      assert x.server.tokens[path] == of(w).keyAuth;
    }
  }

  // Between opening and removal a challenge can be fetched from port 80: the
  // listener is up and gives the right answer.
  lemma OpenWindowIsServed(events: seq<Event>, of: nat -> Challenge, w: nat)
    requires IsRun(events, of) && PathsApart(events, of) && !MissedSinceIdle(events, of)
    requires w in Run(events, of).phase && Run(events, of).phase[w] == Open
    ensures Run(events, of).server.up
    ensures Answer(Run(events, of).server, of(w).path) == of(w).keyAuth
  {
    UpWhileOpen(events, of);
    AnswersOpenWindows(events, of);
    hide Run, IsRun, PathsApart, MissedSinceIdle;
    var x := Run(events, of);
    assert w in Holding(x) && Live(x, w);
  }
}
