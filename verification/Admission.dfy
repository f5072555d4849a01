/**
  Any number of callers inside one handoff coordinator, interleaved between slot admission, scrubbing,
  provider call and exit.
  */
module Admission {
  import opened ByteStrings
  import opened Outcomes
  import opened Merkle
  import opened SnapshotHash
  import opened Gateway
  import opened Handoff

  datatype Phase =
    | Outside
    | Admitted
    | Scrubbed(views: seq<View>)
    | Called(views: seq<View>, response: Option<ProviderResponse>)
    | Exited(outcome: Outcome)

  datatype Call = Call(caller: nat, window: seq<LLMMessage>)

  /** Fixed during a run: the coordinator, its cap, and what each caller asks for. */
  datatype Setup = Setup(k: Crypto, c: Coordinator, cap: nat, requests: seq<Request>)

  datatype State = State(callers: seq<Phase>, slots: nat, calls: seq<Call>)

  datatype Action =
    | Refuse(i: nat, error: HandoffError)
    | Admit(i: nat)
    | GiveUp(i: nat, error: HandoffError)
    | Scrub(i: nat, views: seq<View>)
    | Invoke(i: nat, response: Option<ProviderResponse>)
    | Finish(i: nat, sealed: Option<RuntimeSnapshot>, now: int, unix: I64)

  function WindowOf(u: Setup, i: nat, views: seq<View>): seq<LLMMessage>
    requires i < |u.requests| && |views| == |u.requests[i].bindings|
  {
    Window(ScrubOf(u.c, u.requests[i]), u.requests[i].messages, u.requests[i].bindings, views)
  }

  function LeavesOf(u: Setup, i: nat, views: seq<View>): seq<LeafRecord>
    requires i < |u.requests| && |views| == |u.requests[i].bindings|
  {
    Leaves(u.k.h, ScrubOf(u.c, u.requests[i]), |u.requests[i].messages|, u.requests[i].bindings, views)
  }

  predicate Fits(u: Setup, i: nat, p: Phase) {
    i < |u.requests| && (p.Scrubbed? || p.Called? ==> |p.views| == |u.requests[i].bindings|)
  }

  predicate Usable(u: Setup) {
    u.c.wired && |u.c.signingKey| == 64
  }

  predicate Refusal(u: Setup, e: HandoffError) {
    || e == EarlyDone || (e == NotWired && !u.c.wired)
    || (e == BadKey && u.c.wired && |u.c.signingKey| != 64) || (e == Backpressure && Usable(u))
  }

  predicate Enabled(u: Setup, s: State, a: Action) {
    && a.i < |s.callers| && Fits(u, a.i, s.callers[a.i])
    && var p := s.callers[a.i];
       match a
       case Refuse(_, e) => p.Outside? && Refusal(u, e) && (e == Backpressure ==> s.slots == u.cap)
       case Admit(_) => p.Outside? && Usable(u) && s.slots < u.cap
       case GiveUp(_, e) => p.Admitted? && (e == LateDone || e == ScrubbingFault)
       case Scrub(_, views) => p.Admitted? && |views| == |u.requests[a.i].bindings|
       case Invoke(_, _) => p.Scrubbed?
       case Finish(_, _, _, _) => p.Called?
  }

  /** What a caller that came back from the provider returns. */
  function Returned(u: Setup, i: nat, p: Phase, sealed: Option<RuntimeSnapshot>, now: int, unix: I64): Outcome
    requires p.Called? && Fits(u, i, p)
  {
    var window := WindowOf(u, i, p.views);
    match p.response
    case None => Outcome(Err(InvocationFailure), Some(window))
    case Some(response) =>
      Outcome(Seal(u.k, u.c, u.requests[i], window, LeavesOf(u, i, p.views), response, sealed, now, unix), Some(window))
  }

  function Step(u: Setup, s: State, a: Action): State
    requires Enabled(u, s, a)
  {
    var p := s.callers[a.i];
    match a
    case Refuse(i, e) => s.(callers := s.callers[i := Exited(Outcome(Err(e), None))])
    case Admit(i) => s.(callers := s.callers[i := Admitted], slots := s.slots + 1)
    case GiveUp(i, e) => Leave(s, i, Outcome(Err(e), None))
    case Scrub(i, views) => s.(callers := s.callers[i := Scrubbed(views)])
    case Invoke(i, response) =>
      s.(callers := s.callers[i := Called(p.views, response)], calls := s.calls + [Call(i, WindowOf(u, i, p.views))])
    case Finish(i, sealed, now, unix) => Leave(s, i, Returned(u, i, p, sealed, now, unix))
  }

  /** The deferred receive on the slots channel. */
  function Leave(s: State, i: nat, o: Outcome): State
    requires i < |s.callers|
  {
    s.(callers := s.callers[i := Exited(o)], slots := if s.slots > 0 then s.slots - 1 else 0)
  }

  ghost predicate Possible(u: Setup, s: State, run: seq<Action>)
    decreases |run|
  {
    run == [] || (Enabled(u, s, run[0]) && Possible(u, Step(u, s, run[0]), run[1..]))
  }

  ghost function After(u: Setup, s: State, run: seq<Action>): State
    requires Possible(u, s, run)
    decreases |run|
  {
    if run == [] then s else After(u, Step(u, s, run[0]), run[1..])
  }

  predicate Initial(u: Setup, s: State) {
    && u.cap > 0 && |s.callers| == |u.requests| && s.slots == 0 && s.calls == []
    && forall i :: 0 <= i < |s.callers| ==> s.callers[i].Outside?
  }

  // ------------------------------------------------------------ the invariant

  predicate Holds(p: Phase) {
    p.Admitted? || p.Scrubbed? || p.Called?
  }

  function Inside(ps: seq<Phase>): nat {
    if ps == [] then 0 else Inside(ps[..|ps| - 1]) + if Holds(ps[|ps| - 1]) then 1 else 0
  }

  lemma {:induction false} InsideUpdate(ps: seq<Phase>, i: nat, p: Phase)
    requires i < |ps|
    ensures Inside(ps[i := p]) + (if Holds(ps[i]) then 1 else 0) == Inside(ps) + if Holds(p) then 1 else 0
  {
    var n := |ps| - 1;
    if i == n {
      assert ps[i := p][..n] == ps[..n];
    } else {
      assert ps[i := p][..n] == ps[..n][i := p] && ps[i := p][n] == ps[n];
      InsideUpdate(ps[..n], i, p);
    }
  }

  lemma {:induction false} NobodyInside(ps: seq<Phase>)
    requires forall i :: 0 <= i < |ps| ==> !Holds(ps[i])
    ensures Inside(ps) == 0
  {
    if ps != [] {
      NobodyInside(ps[..|ps| - 1]);
    }
  }

  /** The windows one caller has sent, in order. */
  function SentBy(calls: seq<Call>, i: nat): seq<seq<LLMMessage>> {
    if calls == [] then []
    else
      var last := calls[|calls| - 1];
      SentBy(calls[..|calls| - 1], i) + if last.caller == i then [last.window] else []
  }

  lemma SentByStep(calls: seq<Call>, c: Call, i: nat)
    ensures SentBy(calls + [c], i) == SentBy(calls, i) + if c.caller == i then [c.window] else []
  {
    assert (calls + [c])[..|calls|] == calls;
  }

  /** What the phase of a caller says it has sent. */
  function Sent(u: Setup, i: nat, p: Phase): seq<seq<LLMMessage>>
    requires Fits(u, i, p)
  {
    match p
    case Called(views, _) => [WindowOf(u, i, views)]
    case Exited(o) => if o.call.Some? then [o.call.value] else []
    case _ => []
  }

  /** The outcome is one the sequential handoff has in some world. */
  ghost predicate Sequential(u: Setup, i: nat, o: Outcome)
    requires i < |u.requests|
  {
    exists w: World, free: bool ::
      |w.views| == |u.requests[i].bindings| && Execute(u.k, u.c, u.requests[i], w, free) == o
  }

  ghost predicate CallerInv(u: Setup, s: State, i: nat)
    requires i < |s.callers|
  {
    && Fits(u, i, s.callers[i])
    && (Holds(s.callers[i]) ==> Usable(u))
    && SentBy(s.calls, i) == Sent(u, i, s.callers[i])
    && (s.callers[i].Exited? ==> Sequential(u, i, s.callers[i].outcome))
  }

  ghost predicate Inv(u: Setup, s: State) {
    && s.slots == Inside(s.callers) <= u.cap
    && forall i :: 0 <= i < |s.callers| ==> CallerInv(u, s, i)
  }

  lemma InitialInv(u: Setup, s: State)
    requires Initial(u, s)
    ensures Inv(u, s)
  {
    NobodyInside(s.callers);
    forall i | 0 <= i < |s.callers|
      ensures CallerInv(u, s, i)
    {
      assert s.callers[i].Outside?;
    }
  }

  lemma SlotsKept(u: Setup, s: State, a: Action)
    requires Inv(u, s) && Enabled(u, s, a)
    ensures Step(u, s, a).slots == Inside(Step(u, s, a).callers) <= u.cap
  {
    InsideUpdate(s.callers, a.i, Step(u, s, a).callers[a.i]);
  }

  /** A world in which the sequential handoff does what a caller did. */
  function WorldOf(
    early: bool, late: bool, views: seq<View>, response: Option<ProviderResponse>, sealed: Option<RuntimeSnapshot>,
    now: int, unix: I64
  ): World
  {
    World(early, late, false, true, views, _ => response, sealed, now, unix)
  }

  lemma ExitIsSequential(u: Setup, s: State, a: Action)
    requires Inv(u, s) && Enabled(u, s, a)
    requires Step(u, s, a).callers[a.i].Exited?
    ensures Sequential(u, a.i, Step(u, s, a).callers[a.i].outcome)
  {
    var i, q := a.i, u.requests[a.i];
    var o := Step(u, s, a).callers[i].outcome;
    assert CallerInv(u, s, i);
    var unseen := seq(|q.bindings|, _ => View(None, None));
    match a
    case Refuse(_, e) =>
      var w := WorldOf(e == EarlyDone, false, unseen, None, None, 0, 0);
      assert Execute(u.k, u.c, q, w, false) == o;
    case GiveUp(_, e) =>
      var w := WorldOf(false, e == LateDone, unseen, None, None, 0, 0).(cached := false);
      assert Execute(u.k, u.c, q, w, true) == o;
    case Finish(_, sealed, now, unix) =>
      var p := s.callers[i];
      var w := WorldOf(false, false, p.views, p.response, sealed, now, unix);
      assert Execute(u.k, u.c, q, w, true) == o;
  }

  lemma OtherKept(u: Setup, s: State, a: Action, i: nat)
    requires Inv(u, s) && Enabled(u, s, a)
    requires i < |s.callers| && i != a.i
    ensures CallerInv(u, Step(u, s, a), i)
  {
    assert CallerInv(u, s, i);
    if a.Invoke? {
      SentByStep(s.calls, Call(a.i, WindowOf(u, a.i, s.callers[a.i].views)), i);
    }
  }

  /** Only an invocation adds to what the phase of a caller says it has sent. */
  lemma PhaseSends(u: Setup, s: State, a: Action)
    requires Enabled(u, s, a)
    ensures var p := Step(u, s, a).callers[a.i];
            && Fits(u, a.i, p)
            && (!a.Invoke? ==> Sent(u, a.i, p) == Sent(u, a.i, s.callers[a.i]))
            && (a.Invoke? ==> && Sent(u, a.i, s.callers[a.i]) == []
                              && Sent(u, a.i, p) == [WindowOf(u, a.i, s.callers[a.i].views)])
  {
    match a
    case Finish(i, sealed, now, unix) =>
      assert Returned(u, i, s.callers[i], sealed, now, unix).call == Some(WindowOf(u, i, s.callers[i].views));
    case _ =>
  }

  lemma SentKept(u: Setup, s: State, a: Action)
    requires Enabled(u, s, a) && SentBy(s.calls, a.i) == Sent(u, a.i, s.callers[a.i])
    ensures Fits(u, a.i, Step(u, s, a).callers[a.i])
    ensures SentBy(Step(u, s, a).calls, a.i) == Sent(u, a.i, Step(u, s, a).callers[a.i])
  {
    PhaseSends(u, s, a);
    if a.Invoke? {
      SentByStep(s.calls, Call(a.i, WindowOf(u, a.i, s.callers[a.i].views)), a.i);
    }
  }

  lemma CallersKept(u: Setup, s: State, a: Action, i: nat)
    requires Inv(u, s) && Enabled(u, s, a)
    requires i < |s.callers|
    ensures CallerInv(u, Step(u, s, a), i)
  {
    if i != a.i {
      OtherKept(u, s, a, i);
    } else {
      assert CallerInv(u, s, i);
      SentKept(u, s, a);
      if Step(u, s, a).callers[i].Exited? {
        ExitIsSequential(u, s, a);
      }
    }
  }

  lemma {:induction false} RunKeepsInv(u: Setup, s: State, run: seq<Action>)
    requires Inv(u, s) && Possible(u, s, run)
    ensures Inv(u, After(u, s, run))
    decreases |run|
  {
    if run != [] {
      SlotsKept(u, s, run[0]);
      forall i | 0 <= i < |s.callers|
        ensures CallerInv(u, Step(u, s, run[0]), i)
      {
        CallersKept(u, s, run[0], i);
      }
      RunKeepsInv(u, Step(u, s, run[0]), run[1..]);
    }
  }

  // ------------------------------------------------------------ what every run guarantees

  /** Occupied slots are the callers between admission and exit, and never exceed the cap. */
  lemma SlotsAreCallersInside(u: Setup, s: State, run: seq<Action>)
    requires Initial(u, s) && Possible(u, s, run)
    ensures var t := After(u, s, run);
            && t.slots == Inside(t.callers) <= u.cap
            && ((forall i :: 0 <= i < |t.callers| ==> !Holds(t.callers[i])) ==> t.slots == 0)
  {
    InitialInv(u, s);
    RunKeepsInv(u, s, run);
    var t := After(u, s, run);
    if forall i :: 0 <= i < |t.callers| ==> !Holds(t.callers[i]) {
      NobodyInside(t.callers);
    }
  }

  // ------------------------------------------------------------ a caller's own steps

  /** The steps of one caller, in order. */
  function Own(run: seq<Action>, i: nat): seq<Action> {
    if run == [] then [] else (if run[0].i == i then [run[0]] else []) + Own(run[1..], i)
  }

  /** `own` takes a caller from phase `p` out with outcome `o`. */
  predicate Path(u: Setup, i: nat, p: Phase, own: seq<Action>, o: Outcome)
    decreases |own|
  {
    if p.Exited? then own == [] && p.outcome == o
    else
      && own != [] && own[0].i == i && Fits(u, i, p)
      && match own[0]
         case Refuse(_, e) => p.Outside? && Refusal(u, e) && Path(u, i, Exited(Outcome(Err(e), None)), own[1..], o)
         case Admit(_) => p.Outside? && Usable(u) && Path(u, i, Admitted, own[1..], o)
         case GiveUp(_, e) =>
           && p.Admitted? && (e == LateDone || e == ScrubbingFault)
           && Path(u, i, Exited(Outcome(Err(e), None)), own[1..], o)
         case Scrub(_, views) =>
           && p.Admitted? && |views| == |u.requests[i].bindings| && Path(u, i, Scrubbed(views), own[1..], o)
         case Invoke(_, response) => p.Scrubbed? && Path(u, i, Called(p.views, response), own[1..], o)
         case Finish(_, sealed, now, unix) =>
           p.Called? && Path(u, i, Exited(Returned(u, i, p, sealed, now, unix)), own[1..], o)
  }

  /** Whatever the others do in between, a caller that is out took such a path. */
  lemma {:induction false} OwnPath(u: Setup, s: State, run: seq<Action>, i: nat)
    requires Possible(u, s, run) && i < |s.callers|
    requires |After(u, s, run).callers| == |s.callers| && After(u, s, run).callers[i].Exited?
    ensures Path(u, i, s.callers[i], Own(run, i), After(u, s, run).callers[i].outcome)
    decreases |run|
  {
    if run != [] {
      var next := Step(u, s, run[0]);
      OwnPath(u, next, run[1..], i);
      if run[0].i == i {
        assert Own(run, i) == [run[0]] + Own(run[1..], i);
        assert Own(run, i)[1..] == Own(run[1..], i);
      } else {
        assert Own(run, i) == Own(run[1..], i);
      }
    }
  }

  lemma {:induction false} CallersStay(u: Setup, s: State, run: seq<Action>)
    requires Possible(u, s, run)
    ensures |After(u, s, run).callers| == |s.callers|
    decreases |run|
  {
    if run != [] {
      CallersStay(u, Step(u, s, run[0]), run[1..]);
    }
  }

  /** The world, and the free slot, a caller met: what its own steps say, and nothing else. */
  ghost predicate Met(own: seq<Action>, window: seq<LLMMessage>, w: World, free: bool) {
    || (&& |own| == 1 && own[0].Refuse?
        && w.doneEarly == (own[0].error == EarlyDone) && free == (own[0].error != Backpressure))
    || (&& |own| == 2 && own[0].Admit? && own[1].GiveUp? && !w.doneEarly && free
        && w.doneLate == (own[1].error == LateDone)
        && (own[1].error == ScrubbingFault ==> w.doneScrubbing || !w.cached))
    || (&& |own| == 4 && own[0].Admit? && own[1].Scrub? && own[2].Invoke? && own[3].Finish?
        && !w.doneEarly && free && !w.doneLate && !w.doneScrubbing && w.cached
        && w.views == own[1].views && w.provider(window) == own[2].response
        && w.sealed == own[3].sealed && w.now == own[3].now && w.unix == own[3].unix)
  }

  lemma RefusedPath(u: Setup, i: nat, own: seq<Action>, o: Outcome) returns (w: World, free: bool)
    requires Path(u, i, Outside, own, o) && own[0].Refuse?
    ensures |w.views| == |u.requests[i].bindings| && Execute(u.k, u.c, u.requests[i], w, free) == o
    ensures |own| == 1 && w.doneEarly == (own[0].error == EarlyDone) && free == (own[0].error != Backpressure)
  {
    var unseen := seq(|u.requests[i].bindings|, _ => View(None, None));
    w, free := WorldOf(own[0].error == EarlyDone, false, unseen, None, None, 0, 0), own[0].error != Backpressure;
  }

  lemma GivenUpPath(u: Setup, i: nat, own: seq<Action>, o: Outcome) returns (w: World)
    requires Path(u, i, Admitted, own, o) && Usable(u) && own[0].GiveUp?
    ensures |w.views| == |u.requests[i].bindings| && Execute(u.k, u.c, u.requests[i], w, true) == o
    ensures |own| == 1 && !w.doneEarly && w.doneLate == (own[0].error == LateDone) && !w.cached
  {
    var unseen := seq(|u.requests[i].bindings|, _ => View(None, None));
    w := WorldOf(false, own[0].error == LateDone, unseen, None, None, 0, 0).(cached := false);
  }

  lemma ScrubbedPath(u: Setup, i: nat, own: seq<Action>, o: Outcome) returns (w: World)
    requires Path(u, i, Admitted, own, o) && Usable(u) && own[0].Scrub?
    ensures |w.views| == |u.requests[i].bindings| && Execute(u.k, u.c, u.requests[i], w, true) == o
    ensures |own| == 3 && own[1].Invoke? && own[2].Finish?
    ensures w == WorldOf(false, false, own[0].views, own[1].response, own[2].sealed, own[2].now, own[2].unix)
  {
    var views, p1, p2 := own[0].views, own[1..], own[1..][1..];
    assert Path(u, i, Scrubbed(views), p1, o);
    var called := Called(views, p1[0].response);
    assert Path(u, i, called, p2, o);
    var done := Exited(Returned(u, i, called, p2[0].sealed, p2[0].now, p2[0].unix));
    assert Path(u, i, done, p2[1..], o);
    assert p1[0] == own[1] && p2[0] == own[2] && |p2| == |own| - 2;
    w := WorldOf(false, false, views, own[1].response, own[2].sealed, own[2].now, own[2].unix);
  }

  lemma PathMeets(u: Setup, i: nat, own: seq<Action>, o: Outcome) returns (w: World, free: bool)
    requires Path(u, i, Outside, own, o)
    ensures |w.views| == |u.requests[i].bindings| && Execute(u.k, u.c, u.requests[i], w, free) == o
    ensures Met(own, WindowOf(u, i, w.views), w, free)
  {
    if own[0].Refuse? {
      w, free := RefusedPath(u, i, own, o);
    } else {
      free := true;
      var rest := own[1..];
      assert own == [own[0]] + rest;
      if rest[0].GiveUp? {
        w := GivenUpPath(u, i, rest, o);
      } else {
        w := ScrubbedPath(u, i, rest, o);
      }
    }
  }

  /**
    Under every interleaving a caller that is done returned what a handoff running alone returns in the
    world it met itself: with the views of its own scrubbing, the answer to its own call, and the
    snapshot of its own sealing. It sent the provider exactly what that handoff sends: the scrubbed
    window, once, or nothing when it was refused or not scrubbed.
    */
  lemma InterleavingIsSequential(u: Setup, s: State, run: seq<Action>, i: nat) returns (w: World, free: bool)
    requires Initial(u, s) && Possible(u, s, run)
    requires i < |After(u, s, run).callers| && After(u, s, run).callers[i].Exited?
    ensures i < |u.requests| && |w.views| == |u.requests[i].bindings|
    ensures Met(Own(run, i), WindowOf(u, i, w.views), w, free)
    ensures var o, sent := After(u, s, run).callers[i].outcome, SentBy(After(u, s, run).calls, i);
            && Execute(u.k, u.c, u.requests[i], w, free) == o
            && sent == (if o.call.Some? then [o.call.value] else [])
            && (o.result.Err? && o.result.error in {EarlyDone, NotWired, BadKey, Backpressure, LateDone, ScrubbingFault}
                ==> sent == [])
            && (o.result.Ok? ==> sent == [o.result.value.sanitizedPayload])
  {
    InitialInv(u, s);
    RunKeepsInv(u, s, run);
    CallersStay(u, s, run);
    assert CallerInv(u, After(u, s, run), i);
    OwnPath(u, s, run, i);
    w, free := PathMeets(u, i, Own(run, i), After(u, s, run).callers[i].outcome);
    SealErrors(u, i, w, free);
  }

  lemma SealErrors(u: Setup, i: nat, w: World, free: bool)
    requires i < |u.requests| && |w.views| == |u.requests[i].bindings|
    ensures var o := Execute(u.k, u.c, u.requests[i], w, free);
            && (o.result.Ok? ==> o.call == Some(o.result.value.sanitizedPayload))
            && (o.call.Some? && o.result.Err? ==> o.result.error in {InvocationFailure, EvidenceError, LineageFault})
  {
  }

  /** While a caller is still inside it has sent its scrubbed window at most once. */
  lemma OneScrubbedCallInside(u: Setup, s: State, run: seq<Action>, i: nat)
    requires Initial(u, s) && Possible(u, s, run)
    requires i < |After(u, s, run).callers| && !After(u, s, run).callers[i].Exited?
    ensures Fits(u, i, After(u, s, run).callers[i])
    ensures var p := After(u, s, run).callers[i];
            SentBy(After(u, s, run).calls, i) == if p.Called? then [WindowOf(u, i, p.views)] else []
  {
    InitialInv(u, s);
    RunKeepsInv(u, s, run);
    assert CallerInv(u, After(u, s, run), i);
  }
}
