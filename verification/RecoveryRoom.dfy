/** What the calls of a recovery make of the room, while other threads take steps in between. */
module RecoveryRoom {
  import opened Machines
  import opened Lifecycle
  import opened Recovery

  /** The steps of the room behind a call of the recovery thread. */
  function StepsOf(c: Call): seq<Input> {
    match c
    case CallReconnecting => [EngineReconnecting(true)]
    case CallResumed => [EngineResumed]
    case CallReconnected => [ReconnectedBegins(true), ReconnectedEnds]
    case CallSignalDisconnected => [SignalDisconnected, Notify]
  }

  function StepsOfAll(calls: seq<Call>): seq<Input> {
    if calls == [] then [] else StepsOfAll(calls[..|calls| - 1]) + StepsOf(calls[|calls| - 1])
  }

  /** A step of the recovery, or of another thread. */
  datatype Move = Move(mine: bool, input: Input)

  function All(moves: seq<Move>): seq<Input> {
    if moves == [] then [] else All(moves[..|moves| - 1]) + [moves[|moves| - 1].input]
  }

  function Mine(moves: seq<Move>): seq<Input> {
    if moves == [] then [] else
    Mine(moves[..|moves| - 1]) + if moves[|moves| - 1].mine then [moves[|moves| - 1].input] else []
  }

  /** A step that leaves the connection state alone and does not touch a ReconnectedEvent. */
  predicate LeavesAlone(r: Room, i: Input) {
    Step(r, i).state.state == r.state && Step(r, i).state.rejoining == r.rejoining
  }

  /** The steps of others leave the room alone when they are taken. */
  predicate Undisturbed(r: Room, moves: seq<Move>) {
    moves == [] ||
    var before, last := moves[..|moves| - 1], moves[|moves| - 1];
    Undisturbed(r, before) && (!last.mine ==> LeavesAlone(Run(Step, r, All(before)).state, last.input))
  }

  /** Changes of state and the reports of reconnection. */
  predicate IsChange(x: Report) { x.StateChanged? || x == OnReconnecting || x == OnReconnected }

  function Changes(trace: seq<Report>): seq<Report> {
    if trace == [] then [] else
    Changes(trace[..|trace| - 1]) + if IsChange(trace[|trace| - 1]) then [trace[|trace| - 1]] else []
  }

  lemma {:induction false} ChangesConcat(a: seq<Report>, b: seq<Report>)
    ensures Changes(a + b) == Changes(a) + Changes(b)
    decreases |b|
  {
    if b == [] {
      assert a + b == a;
    } else {
      ChangesConcat(a, b[..|b| - 1]);
      assert (a + b)[..|a + b| - 1] == a + b[..|b| - 1];
    }
  }

  lemma ChangesOfFew(trace: seq<Report>)
    requires |trace| <= 2
    ensures trace == [] ==> Changes(trace) == []
    ensures |trace| == 1 ==> Changes(trace) == if IsChange(trace[0]) then trace else []
    ensures |trace| == 2 && IsChange(trace[0]) && IsChange(trace[1]) ==> Changes(trace) == trace
  {
    if |trace| == 1 {
      ChangesOfOne(trace[0]);
      assert trace == [trace[0]];
    } else if |trace| == 2 {
      ChangesOfOne(trace[0]);
      ChangesOfOne(trace[1]);
      ChangesConcat([trace[0]], [trace[1]]);
      assert trace == [trace[0]] + [trace[1]];
    }
  }

  lemma ChangesOfOne(x: Report)
    ensures Changes([x]) == if IsChange(x) then [x] else []
  {
    assert [x][..0] == [];
  }

  predicate FromRecovery(i: Input) {
    i.EngineReconnecting? || i.ReconnectedBegins? || i in {EngineResumed, ReconnectedEnds, SignalDisconnected, Notify}
  }

  predicate Alike(a: Room, b: Room) { a.state == b.state && a.rejoining == b.rejoining }

  /** A step of the recovery depends on the state and on whether it rejoins, and on nothing else. */
  lemma SameStep(a: Room, b: Room, i: Input)
    requires Alike(a, b) && FromRecovery(i)
    ensures Alike(Step(a, i).state, Step(b, i).state)
    ensures Changes(Step(a, i).events) == Changes(Step(b, i).events)
  {
    SameReports(a, b, i);
    if i == Notify {
      ChangesOfFew(Step(a, i).events);
      ChangesOfFew(Step(b, i).events);
    }
  }

  lemma SameReports(a: Room, b: Room, i: Input)
    requires Alike(a, b) && FromRecovery(i)
    ensures Alike(Step(a, i).state, Step(b, i).state)
    ensures i != Notify ==> Step(a, i).events == Step(b, i).events
    ensures i == Notify ==> Step(a, i).events in {[], [OnDisconnected]} && Step(b, i).events in {[], [OnDisconnected]}
  {
  }

  lemma AloneIsSilent(r: Room, i: Input)
    requires LeavesAlone(r, i)
    ensures Changes(Step(r, i).events) == []
  {
    assert |Step(r, i).events| <= 1 && forall x :: x in Step(r, i).events ==> !IsChange(x);
    ChangesOfFew(Step(r, i).events);
  }

  /** Steps of others that leave the room alone change nothing in what the recovery does to it. */
  lemma {:induction false} OthersDoNotMatter(r: Room, moves: seq<Move>)
    requires Undisturbed(r, moves) && forall i :: i in Mine(moves) ==> FromRecovery(i)
    ensures Alike(Run(Step, r, All(moves)).state, Run(Step, r, Mine(moves)).state)
    ensures Changes(Run(Step, r, All(moves)).events) == Changes(Run(Step, r, Mine(moves)).events)
  {
    if moves != [] {
      var before, last := moves[..|moves| - 1], moves[|moves| - 1];
      OthersDoNotMatter(r, before);
      var all, mine := Run(Step, r, All(before)), Run(Step, r, Mine(before));
      RunSnoc(r, All(before), last.input);
      ChangesConcat(all.events, Step(all.state, last.input).events);
      if last.mine {
        assert last.input in Mine(moves);
        RunSnoc(r, Mine(before), last.input);
        ChangesConcat(mine.events, Step(mine.state, last.input).events);
        SameStep(all.state, mine.state, last.input);
      } else {
        AloneIsSilent(all.state, last.input);
        assert Mine(moves) == Mine(before);
      }
    }
  }

  lemma RunSnoc(r: Room, inputs: seq<Input>, i: Input)
    ensures Run(Step, r, inputs + [i]) ==
            Outcome(Step(Run(Step, r, inputs).state, i).state, Run(Step, r, inputs).events + Step(Run(Step, r, inputs).state, i).events)
  {
    assert (inputs + [i])[..|inputs|] == inputs;
  }

  // ----- The recovery alone -----

  const Begun: seq<Report> := [StateChanged(Reconnecting), OnReconnecting]
  const Back: seq<Report> := [StateChanged(Connected), OnReconnected]

  /** What is left of the room's state and of the reports after each list of calls. */
  ghost predicate Drives(calls: seq<Call>, state: RoomState, rejoining: bool, changes: seq<Report>) {
    && !rejoining
    && (EndsIn(calls, CallResumed) || EndsIn(calls, CallReconnected) ==>
          state == Connected && changes == Begun + Back)
    && (EndsIn(calls, CallSignalDisconnected) ==> state == Failed && changes == Begun + [StateChanged(Failed)])
    && (calls == [] || !IsFinal(calls[|calls| - 1]) ==> state == Reconnecting && changes == Begun)
  }

  /** One more step of the recovery and what it adds to the changes. */
  lemma Further(r: Room, inputs: seq<Input>, i: Input)
    ensures var was, now := Run(Step, r, inputs), Run(Step, r, inputs + [i]);
            now.state == Step(was.state, i).state && Changes(now.events) == Changes(was.events) + Changes(Step(was.state, i).events)
  {
    RunSnoc(r, inputs, i);
    ChangesConcat(Run(Step, r, inputs).events, Step(Run(Step, r, inputs).state, i).events);
  }

  /** The state, whether it rejoins, and the changes reported so far. */
  ghost predicate At(r: Room, inputs: seq<Input>, state: RoomState, rejoining: bool, changes: seq<Report>) {
    var now := Run(Step, r, inputs);
    now.state.state == state && now.state.rejoining == rejoining && Changes(now.events) == changes
  }

  /** What a step of the recovery makes of the room, in the states where it is taken. */
  function Moves(state: RoomState, rejoining: bool, i: Input): (RoomState, bool, seq<Report>) {
    if i.EngineReconnecting? && state == Connected then (Reconnecting, rejoining, Begun)
    else if i == EngineResumed && state == Reconnecting && !rejoining then (Connected, false, Back)
    else if i == ReconnectedBegins(true) && state == Reconnecting then (Reconnecting, true, [])
    else if i == ReconnectedEnds && state == Reconnecting && rejoining then (Connected, false, Back)
    else if i == SignalDisconnected && state == Reconnecting then (Failed, rejoining, [StateChanged(Failed)])
    else (state, rejoining, [])
  }

  predicate Taken(state: RoomState, rejoining: bool, i: Input) {
    || i.EngineReconnecting? || i == Notify
    || (i in {EngineResumed, ReconnectedBegins(true), SignalDisconnected} && state == Reconnecting && !rejoining)
    || (i == ReconnectedEnds && state == Reconnecting && rejoining)
  }

  lemma StepMoves(q: Room, i: Input)
    requires Taken(q.state, q.rejoining, i)
    ensures var m := Moves(q.state, q.rejoining, i);
            Step(q, i).state.state == m.0 && Step(q, i).state.rejoining == m.1 && Changes(Step(q, i).events) == m.2
  {
    StepReports(q, i);
    ChangesOfFew(Step(q, i).events);
  }

  lemma StepReports(q: Room, i: Input)
    requires Taken(q.state, q.rejoining, i)
    ensures var m := Moves(q.state, q.rejoining, i);
            && Step(q, i).state.state == m.0 && Step(q, i).state.rejoining == m.1
            && (if i == Notify then Step(q, i).events in {[], [OnDisconnected]} else Step(q, i).events == m.2)
            && |m.2| <= 2 && forall x :: x in m.2 ==> IsChange(x)
  {
  }

  lemma Onward(r: Room, inputs: seq<Input>, state: RoomState, rejoining: bool, changes: seq<Report>, i: Input)
    requires At(r, inputs, state, rejoining, changes) && Taken(state, rejoining, i)
    ensures var m := Moves(state, rejoining, i); At(r, inputs + [i], m.0, m.1, changes + m.2)
  {
    Further(r, inputs, i);
    StepMoves(Run(Step, r, inputs).state, i);
  }

  lemma Announces(r: Room, force: bool)
    requires r.state == Connected && !r.rejoining
    ensures At(r, [EngineReconnecting(force)], Reconnecting, false, Begun)
  {
    assert [] + [EngineReconnecting(force)] == [EngineReconnecting(force)] && [] + Begun == Begun;
    assert At(r, [], Connected, false, []);
    Onward(r, [], Connected, false, [], EngineReconnecting(force));
  }

  /** What a final call makes of a reconnecting room. */
  lemma FinalCall(r: Room, inputs: seq<Input>, changes: seq<Report>, final: Call)
    requires IsFinal(final) && At(r, inputs, Reconnecting, false, changes)
    ensures final == CallSignalDisconnected ==> At(r, inputs + StepsOf(final), Failed, false, changes + [StateChanged(Failed)])
    ensures final != CallSignalDisconnected ==> At(r, inputs + StepsOf(final), Connected, false, changes + Back)
  {
    if final == CallResumed {
      Onward(r, inputs, Reconnecting, false, changes, EngineResumed);
    } else if final == CallReconnected {
      Onward(r, inputs, Reconnecting, false, changes, ReconnectedBegins(true));
      assert changes + [] == changes;
      Onward(r, inputs + [ReconnectedBegins(true)], Reconnecting, true, changes, ReconnectedEnds);
      TwoMore(inputs, ReconnectedBegins(true), ReconnectedEnds);
    } else {
      var now := changes + [StateChanged(Failed)];
      Onward(r, inputs, Reconnecting, false, changes, SignalDisconnected);
      Onward(r, inputs + [SignalDisconnected], Failed, false, now, Notify);
      assert now + [] == now;
      TwoMore(inputs, SignalDisconnected, Notify);
    }
  }

  lemma TwoMore(inputs: seq<Input>, a: Input, b: Input)
    ensures inputs + [a, b] == inputs + [a] + [b]
  {
  }

  /** The announcement again, when the reconnection becomes a full one, changes nothing. */
  lemma AnnouncesAgain(r: Room, force: bool)
    requires r.state == Connected && !r.rejoining
    ensures At(r, [EngineReconnecting(force)] + [EngineReconnecting(true)], Reconnecting, false, Begun)
  {
    Announces(r, force);
    Onward(r, [EngineReconnecting(force)], Reconnecting, false, Begun, EngineReconnecting(true));
    assert Begun + [] == Begun;
  }

  lemma AloneDrives(r: Room, force: bool, calls: seq<Call>)
    requires r.state == Connected && !r.rejoining && WellShaped(calls)
    ensures var now := Run(Step, r, [EngineReconnecting(force)] + StepsOfAll(calls));
            Drives(calls, now.state.state, now.state.rejoining, Changes(now.events))
  {
    var first := [EngineReconnecting(force)];
    var own := first + StepsOfAll(calls);
    StepsOfShort(calls);
    if calls == [] {
      Announces(r, force);
      assert own == first && At(r, own, Reconnecting, false, Begun);
    } else if calls == [CallResumed] {
      Announces(r, force);
      FinalCall(r, first, Begun, CallResumed);
      assert At(r, own, Connected, false, Begun + Back);
    } else if |calls| == 1 {
      AnnouncesAgain(r, force);
      assert At(r, own, Reconnecting, false, Begun);
    } else {
      AnnouncesAgain(r, force);
      FinalCall(r, first + [EngineReconnecting(true)], Begun, calls[1]);
      assert own == first + [EngineReconnecting(true)] + StepsOf(calls[1]);
    }
  }

  lemma StepsOfShort(calls: seq<Call>)
    ensures |calls| == 1 ==> StepsOfAll(calls) == StepsOf(calls[0])
    ensures |calls| == 2 ==> StepsOfAll(calls) == StepsOf(calls[0]) + StepsOf(calls[1])
  {
    if |calls| == 1 {
      assert calls[..0] == [];
    } else if |calls| == 2 {
      assert calls[..1] == [calls[0]] && [calls[0]][..0] == [];
    }
  }

  // ----- The notification -----

  /** While only such steps are taken: no Connect begins, and a notification that fell due stays due or has run. */
  ghost predicate Awaited(r: Room, mine: seq<Input>) {
    && r.resetting == 0 && r.state in {Connected, Reconnecting, Failed}
    && (SignalDisconnected in mine ==> r.notifying > 0 || r.disconnectedEmitted)
    && (Notified(mine) ==> r.disconnectedEmitted)
  }

  /** Notify was called after SignalDisconnected. */
  predicate Notified(mine: seq<Input>) {
    mine != [] && (Notified(mine[..|mine| - 1]) || (mine[|mine| - 1] == Notify && SignalDisconnected in mine[..|mine| - 1]))
  }

  lemma OwnStepAwaited(q: Room, mine: seq<Input>, i: Input)
    requires Awaited(q, mine) && FromRecovery(i)
    ensures Awaited(Step(q, i).state, mine + [i])
  {
    assert (mine + [i])[..|mine|] == mine;
  }

  lemma OtherStepAwaited(q: Room, mine: seq<Input>, i: Input)
    requires Awaited(q, mine) && LeavesAlone(q, i)
    ensures Awaited(Step(q, i).state, mine)
  {
  }

  lemma {:induction false} NotificationAwaited(r: Room, moves: seq<Move>)
    requires r.resetting == 0 && r.state in {Connected, Reconnecting, Failed}
    requires Undisturbed(r, moves) && forall i :: i in Mine(moves) ==> FromRecovery(i)
    ensures Awaited(Run(Step, r, All(moves)).state, Mine(moves))
  {
    if moves != [] {
      var before, last := moves[..|moves| - 1], moves[|moves| - 1];
      assert last.mine ==> last.input in Mine(moves);
      NotificationAwaited(r, before);
      RunSnoc(r, All(before), last.input);
      if last.mine {
        OwnStepAwaited(Run(Step, r, All(before)).state, Mine(before), last.input);
      } else {
        OtherStepAwaited(Run(Step, r, All(before)).state, Mine(before), last.input);
        assert Mine(moves) == Mine(before);
      }
    }
  }

  /** A flag that was clear and is set was set by a report. */
  lemma {:induction false} FlagMeansReported(r: Room, inputs: seq<Input>)
    requires !r.disconnectedEmitted
    ensures Run(Step, r, inputs).state.disconnectedEmitted ==> OnDisconnected in Run(Step, r, inputs).events
  {
    if inputs != [] {
      FlagMeansReported(r, inputs[..|inputs| - 1]);
      StepFlag(Run(Step, r, inputs[..|inputs| - 1]).state, inputs[|inputs| - 1]);
    }
  }

  /**
    * A recovery that starts in a connected room and makes the calls that RunRecovery may make, with any
    * steps of other threads before, between and inside them that leave the state alone: the room is told
    * once that it reconnects, and then is connected and told once that it reconnected, or has failed, or is
    * reconnecting still when the recovery was stopped. A failed room has been told that it is disconnected.
    */
  lemma RecoveryDrivesRoom(r: Room, force: bool, calls: seq<Call>, moves: seq<Move>)
    requires r.state == Connected && !r.rejoining && WellShaped(calls) && Undisturbed(r, moves)
    requires Mine(moves) == [EngineReconnecting(force)] + StepsOfAll(calls)
    ensures var after := Run(Step, r, All(moves));
            && Drives(calls, after.state.state, after.state.rejoining, Changes(after.events))
            && (EndsIn(calls, CallSignalDisconnected) && r.resetting == 0 ==>
                  after.state.disconnectedEmitted && (!r.disconnectedEmitted ==> OnDisconnected in after.events))
  {
    AloneDrives(r, force, calls);
    MineFromRecovery(force, calls);
    OthersDoNotMatter(r, moves);
    if EndsIn(calls, CallSignalDisconnected) && r.resetting == 0 {
      NotificationAwaited(r, moves);
      if !r.disconnectedEmitted {
        FlagMeansReported(r, All(moves));
      }
    }
  }

  lemma MineFromRecovery(force: bool, calls: seq<Call>)
    requires WellShaped(calls)
    ensures var mine := [EngineReconnecting(force)] + StepsOfAll(calls);
            && (forall i :: i in mine ==> FromRecovery(i))
            && (EndsIn(calls, CallSignalDisconnected) ==> Notified(mine))
  {
    StepsOfShort(calls);
    if EndsIn(calls, CallSignalDisconnected) {
      var mine := [EngineReconnecting(force)] + StepsOfAll(calls);
      assert mine == [EngineReconnecting(force), EngineReconnecting(true), SignalDisconnected, Notify];
      assert mine[2] == SignalDisconnected && mine[..3][2] == SignalDisconnected;
    }
  }
}
