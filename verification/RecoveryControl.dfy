/**
  * Who may start a recovery: the flags around StartRecovery, StopRecovery, the end of RunRecovery, and
  * RtcEngine::Connect, over every run. StartRecovery is three steps: its test of the flags, its claim of
  * recovery_in_progress_ with the announcement, and the new thread. The join before the new thread and
  * the one in StopRecovery only delay; nothing here relies on them.
  */
module RecoveryControl {
  import opened Machines

  datatype Engine = Engine(
    allowed: bool, stop: bool, inProgress: bool, force: bool,
    passed: nat,       // StartRecovery calls that have passed their test
    claimed: nat,      // ... that have claimed the flag and not yet made their thread
    running: nat,      // recovery threads that have not ended
    connecting: bool)  // Connect has stopped what was there and waits for the join response
  {
    /** Recoveries that are being started or run. */
    function UnderWay(): nat { claimed + running }
  }

  const Off := Engine(false, false, false, false, 0, 0, 0, false)

  datatype Ending = Recovered | Exhausted | Stopped

  datatype Input =
    | StopRaised                // Disconnect, also at the start of Connect
    | StopEnds                  // the end of StopRecovery, which clears the flags
    | ConnectResets | ConnectSucceeds | ConnectFails
    | StartPasses | StartClaims(force: bool) | StartSpawns
    | ThreadEnds(ending: Ending)
    | ServerLeaves              // OnLeave that asks to disconnect

  /** What matters to the room: announcements, threads, and whether recovery is allowed again. */
  datatype Event = Announced(full: bool) | Began | Ended | GaveUp | Allowed

  type Reaction = Outcome<Engine, Event>

  function Step(e: Engine, i: Input): Reaction {
    match i
    case StopRaised => Outcome(e.(allowed := false, stop := true), [])
    case StopEnds => if !e.stop then Outcome(e, []) else Outcome(e.(inProgress := false, force := false), [])
    case ConnectResets => if !e.stop then Outcome(e, []) else Outcome(e.(stop := false, force := false, connecting := true), [])
    case ConnectSucceeds =>
      if !e.connecting then Outcome(e, []) else Outcome(e.(allowed := true, connecting := false), [Allowed])
    case ConnectFails => Outcome(e.(connecting := false), [])
    case StartPasses => if !e.allowed || e.stop then Outcome(e, []) else Outcome(e.(passed := e.passed + 1), [])
    case StartClaims(force) =>
      if e.passed == 0 then Outcome(e, [])
      else
        var forced := e.(passed := e.passed - 1, force := e.force || force);
        if e.inProgress then Outcome(forced, if force then [Announced(true)] else [])
        else Outcome(forced.(inProgress := true, claimed := e.claimed + 1), [Announced(force)])
    case StartSpawns =>
      if e.claimed == 0 then Outcome(e, []) else Outcome(e.(claimed := e.claimed - 1, running := e.running + 1), [Began])
    case ThreadEnds(ending) =>
      if !Ends(e, ending) then Outcome(e, [])
      else
        var over := e.(running := e.running - 1, inProgress := false);
        if ending == Recovered then Outcome(over, [Ended])
        else if ending == Exhausted then Outcome(over.(allowed := false, force := false), [GaveUp, Ended])
        else Outcome(over.(force := false), [Ended])
    case ServerLeaves => Outcome(e.(allowed := false), [])
  }

  predicate Ends(e: Engine, ending: Ending) { e.running > 0 && !(ending == Exhausted && e.stop) }

  function After(inputs: seq<Input>): Reaction { Run(Step, Off, inputs) }

  lemma Snoc(inputs: seq<Input>, i: Input)
    ensures After(inputs + [i]).state == Step(After(inputs).state, i).state
    ensures After(inputs + [i]).events == After(inputs).events + Step(After(inputs).state, i).events
    ensures (inputs + [i])[..|inputs|] == inputs
  {
  }

  // ----- One at a time -----

  /** StopRecovery clears the flag while a recovery is being started or runs. */
  predicate EarlyStop(before: seq<Input>, i: Input) {
    i == StopEnds && After(before).state.stop && After(before).state.UnderWay() > 0
  }

  /** If that never happens, at most one recovery is under way, and one that is holds the flag. */
  lemma {:induction false} OneRecoveryAtATime(inputs: seq<Input>)
    requires forall n :: 0 <= n < |inputs| ==> !EarlyStop(inputs[..n], inputs[n])
    ensures After(inputs).state.UnderWay() <= 1
    ensures After(inputs).state.UnderWay() == 1 ==> After(inputs).state.inProgress
  {
    if inputs != [] {
      var before, last := inputs[..|inputs| - 1], inputs[|inputs| - 1];
      assert forall n :: 0 <= n < |before| ==> before[..n] == inputs[..n] && before[n] == inputs[n];
      OneRecoveryAtATime(before);
      assert !EarlyStop(inputs[..|before|], inputs[|before|]);
      StepKeepsOne(After(before).state, last);
    }
  }

  lemma StepKeepsOne(e: Engine, i: Input)
    requires e.UnderWay() <= 1 && (e.UnderWay() == 1 ==> e.inProgress)
    requires i == StopEnds && e.stop ==> e.UnderWay() == 0
    ensures var f := Step(e, i).state; f.UnderWay() <= 1 && (f.UnderWay() == 1 ==> f.inProgress)
  {
  }

  /** If it happens, whatever came before, the next Connect and loss of connection put a second one under way. */
  lemma EarlyStopDoubles(inputs: seq<Input>, force: bool)
    requires EarlyStop(inputs, StopEnds)
    ensures After(inputs + [StopEnds] + [ConnectResets] + [ConnectSucceeds] + [StartPasses] + [StartClaims(force)]).state.UnderWay()
            > After(inputs).state.UnderWay() > 0
  {
    Snoc(inputs, StopEnds);
    var a := inputs + [StopEnds];
    Snoc(a, ConnectResets);
    var b := a + [ConnectResets];
    Snoc(b, ConnectSucceeds);
    var c := b + [ConnectSucceeds];
    assert After(c).state.allowed && !After(c).state.stop && !After(c).state.inProgress;
    Snoc(c, StartPasses);
    var d := c + [StartPasses];
    assert After(d).state.passed > 0 && !After(d).state.inProgress;
    Snoc(d, StartClaims(force));
  }

  /** A run to that point: a start has claimed the flag and not yet made its thread when StopRecovery clears it. */
  const Starting: seq<Input> :=
    [StopRaised] + [ConnectResets] + [ConnectSucceeds] + [StartPasses] + [StartClaims(false)]

  lemma StartingReaches()
    ensures After(Starting).state == Off.(allowed := true, inProgress := true, claimed := 1)
  {
    var a := [StopRaised];
    assert [] + a == a && After([]).state == Off;
    Snoc([], StopRaised);
    assert After(a).state == Off.(stop := true);
    Snoc(a, ConnectResets);
    var b := a + [ConnectResets];
    assert After(b).state == Off.(connecting := true);
    Snoc(b, ConnectSucceeds);
    var c := b + [ConnectSucceeds];
    assert After(c).state == Off.(allowed := true);
    Snoc(c, StartPasses);
    var d := c + [StartPasses];
    assert After(d).state == Off.(allowed := true, passed := 1);
    Snoc(d, StartClaims(false));
  }

  lemma StopWhileStarting()
    ensures EarlyStop(Starting + [StopRaised], StopEnds)
  {
    StartingReaches();
    Snoc(Starting, StopRaised);
  }

  // ----- None after one gave up -----

  /** A recovery gave up and no Connect has succeeded since. */
  predicate Barred(trace: seq<Event>) {
    trace != [] &&
    var last := trace[|trace| - 1];
    last == GaveUp || (last != Allowed && Barred(trace[..|trace| - 1]))
  }

  /** Nothing is announced or begun while barred. */
  predicate Obeyed(trace: seq<Event>) {
    trace == [] ||
    var before, last := trace[..|trace| - 1], trace[|trace| - 1];
    Obeyed(before) && (Barred(before) ==> !last.Announced? && last != Began)
  }

  lemma More(trace: seq<Event>, x: Event)
    ensures Barred(trace + [x]) <==> x == GaveUp || (x != Allowed && Barred(trace))
    ensures Obeyed(trace + [x]) <==> Obeyed(trace) && (Barred(trace) ==> !x.Announced? && x != Began)
  {
    assert (trace + [x])[..|trace|] == trace;
  }

  /** The events of a step are none, one, or the two of a recovery that gives up. */
  lemma MoreOfStep(e: Engine, trace: seq<Event>, i: Input)
    ensures var events := Step(e, i).events;
            && (events == [] ==> trace + events == trace)
            && (|events| == 1 ==> trace + events == trace + [events[0]])
            && (|events| > 1 ==> events == [GaveUp, Ended] && trace + events == trace + [GaveUp] + [Ended])
  {
  }

  /** What a step does to the trace. */
  lemma TraceOfStep(e: Engine, trace: seq<Event>, i: Input)
    ensures var events := Step(e, i).events; var after := trace + events;
            && (events == [] ==> Barred(after) == Barred(trace) && Obeyed(after) == Obeyed(trace))
            && (|events| == 1 ==>
                  && (Barred(after) <==> events[0] == GaveUp || (events[0] != Allowed && Barred(trace)))
                  && (Obeyed(after) <==> Obeyed(trace) && (Barred(trace) ==> !events[0].Announced? && events[0] != Began)))
            && (|events| > 1 ==> Barred(after) && Obeyed(after) == Obeyed(trace))
  {
    var events := Step(e, i).events;
    MoreOfStep(e, trace, i);
    if |events| == 1 {
      More(trace, events[0]);
    } else if |events| > 1 {
      More(trace, GaveUp);
      More(trace + [GaveUp], Ended);
    }
  }

  /** While barred, no start passes its test. */
  lemma {:induction false} BarredIsNotAllowed(inputs: seq<Input>)
    ensures Barred(After(inputs).events) ==> !After(inputs).state.allowed
  {
    if inputs != [] {
      var before, last := inputs[..|inputs| - 1], inputs[|inputs| - 1];
      BarredIsNotAllowed(before);
      StepBars(After(before).state, After(before).events, last);
    }
  }

  lemma StepBars(e: Engine, trace: seq<Event>, i: Input)
    requires Barred(trace) ==> !e.allowed
    ensures Barred(trace + Step(e, i).events) ==> !Step(e, i).state.allowed
  {
    TraceOfStep(e, trace, i);
  }

  /** A recovery gives up while a start has passed its test or claimed the flag. */
  predicate LateGiveUp(before: seq<Input>, i: Input) {
    var e := After(before).state;
    i == ThreadEnds(Exhausted) && Ends(e, Exhausted) && e.passed + e.claimed > 0
  }

  /** If that never happens, nothing is announced or begun after one gave up until a Connect has succeeded. */
  lemma {:induction false} NoneAfterGivingUp(inputs: seq<Input>)
    requires forall n :: 0 <= n < |inputs| ==> !LateGiveUp(inputs[..n], inputs[n])
    ensures Obeyed(After(inputs).events)
    ensures Barred(After(inputs).events) ==> After(inputs).state.passed + After(inputs).state.claimed == 0
  {
    if inputs != [] {
      var before, last := inputs[..|inputs| - 1], inputs[|inputs| - 1];
      assert forall n :: 0 <= n < |before| ==> before[..n] == inputs[..n] && before[n] == inputs[n];
      NoneAfterGivingUp(before);
      BarredIsNotAllowed(before);
      assert !LateGiveUp(inputs[..|before|], inputs[|before|]);
      StepObeys(After(before).state, After(before).events, last);
    }
  }

  lemma StepObeys(e: Engine, trace: seq<Event>, i: Input)
    requires Obeyed(trace) && (Barred(trace) ==> !e.allowed && e.passed + e.claimed == 0)
    requires i == ThreadEnds(Exhausted) && Ends(e, Exhausted) ==> e.passed + e.claimed == 0
    ensures Obeyed(trace + Step(e, i).events)
    ensures Barred(trace + Step(e, i).events) ==> Step(e, i).state.passed + Step(e, i).state.claimed == 0
  {
    TraceOfStep(e, trace, i);
    if Barred(trace) {
      StepWithoutStart(e, i);
    } else {
      StepThatBars(e, i);
    }
  }

  /** Where no start may pass and none is on its way, a step announces and begins nothing. */
  lemma StepWithoutStart(e: Engine, i: Input)
    requires !e.allowed && e.passed + e.claimed == 0
    ensures var r := Step(e, i);
            && r.state.passed + r.state.claimed == 0
            && (|r.events| == 1 ==> !r.events[0].Announced? && r.events[0] != Began)
  {
  }

  /** Only a recovery that gives up bars. */
  lemma StepThatBars(e: Engine, i: Input)
    ensures var r := Step(e, i);
            && (|r.events| == 1 ==> r.events[0] != GaveUp)
            && (|r.events| > 1 ==> i == ThreadEnds(Exhausted) && Ends(e, Exhausted)
                                   && r.state.passed + r.state.claimed == e.passed + e.claimed)
  {
  }

  /** If it happens, whatever came before, that start announces or begins a recovery after one gave up. */
  lemma LateGiveUpDisobeys(inputs: seq<Input>, force: bool)
    requires LateGiveUp(inputs, ThreadEnds(Exhausted))
    ensures var next := if After(inputs).state.claimed > 0 then StartSpawns else StartClaims(force);
            !Obeyed(After(inputs + [ThreadEnds(Exhausted)] + [next]).events)
  {
    var e, trace := After(inputs).state, After(inputs).events;
    var next := if e.claimed > 0 then StartSpawns else StartClaims(force);
    var given := inputs + [ThreadEnds(Exhausted)];
    Snoc(inputs, ThreadEnds(Exhausted));
    MoreOfStep(e, trace, ThreadEnds(Exhausted));
    More(trace, GaveUp);
    More(trace + [GaveUp], Ended);
    Snoc(given, next);
    var x := if e.claimed > 0 then Began else Announced(force);
    assert Step(After(given).state, next).events == [x];
    More(After(given).events, x);
  }

  /** A run to that point: a second start has passed its test when the first recovery gives up. */
  lemma LateStart()
    ensures LateGiveUp(Starting + [StartSpawns] + [StartPasses], ThreadEnds(Exhausted))
  {
    StartingReaches();
    Snoc(Starting, StartSpawns);
    assert After(Starting + [StartSpawns]).state == Off.(allowed := true, inProgress := true, running := 1);
    Snoc(Starting + [StartSpawns], StartPasses);
  }

  // ----- What must happen -----

  /** A loss of the connection while recovery is allowed and none is in progress is announced and begins one. */
  lemma LossStartsRecovery(inputs: seq<Input>, force: bool)
    requires var e := After(inputs).state; e.allowed && !e.stop && !e.inProgress
    ensures var r := After(inputs + [StartPasses] + [StartClaims(force)] + [StartSpawns]);
            && r.events == After(inputs).events + [Announced(force)] + [Began]
            && r.state.inProgress && r.state.running == After(inputs).state.running + 1 && (force ==> r.state.force)
  {
    Snoc(inputs, StartPasses);
    var a := inputs + [StartPasses];
    assert After(a).events == After(inputs).events;
    Snoc(a, StartClaims(force));
    var b := a + [StartClaims(force)];
    Snoc(b, StartSpawns);
  }

  /** While one is in progress, only a forced request has an effect: it is announced and kept for the recovery to see. */
  lemma RequestDuringRecovery(inputs: seq<Input>, force: bool)
    requires var e := After(inputs).state; e.allowed && !e.stop && e.inProgress
    ensures var r := After(inputs + [StartPasses] + [StartClaims(force)]);
            && r.events == After(inputs).events + (if force then [Announced(true)] else [])
            && r.state.UnderWay() == After(inputs).state.UnderWay() && r.state.force == (After(inputs).state.force || force)
  {
    Snoc(inputs, StartPasses);
    var a := inputs + [StartPasses];
    assert After(a).events == After(inputs).events;
    Snoc(a, StartClaims(force));
  }

  /** A Connect that succeeds allows recovery again, whatever was before; a stop and a server that asks to leave end it. */
  lemma ConnectAllowsRecovery(inputs: seq<Input>)
    ensures var e := After(inputs + [StopRaised] + [StopEnds] + [ConnectResets] + [ConnectSucceeds]).state;
            e.allowed && !e.stop && !e.inProgress && !e.force
    ensures Step(After(inputs + [StopRaised]).state, StartPasses) == Outcome(After(inputs + [StopRaised]).state, [])
    ensures Step(After(inputs + [ServerLeaves]).state, StartPasses) == Outcome(After(inputs + [ServerLeaves]).state, [])
  {
    Snoc(inputs, StopRaised);
    Snoc(inputs, ServerLeaves);
    var a := inputs + [StopRaised];
    Snoc(a, StopEnds);
    var b := a + [StopEnds];
    Snoc(b, ConnectResets);
    Snoc(b + [ConnectResets], ConnectSucceeds);
  }
}
