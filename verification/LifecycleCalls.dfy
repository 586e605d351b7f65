/** What each call and each engine event must lead to, undisturbed, and which changes of state can be reported. */
module LifecycleCalls {
  import opened Machines
  import opened Lifecycle

  // ----- Calls -----

  /** Steps one after the other with nothing in between. */
  function Undisturbed(r: Room, inputs: seq<Input>): Reaction { Run(Step, r, inputs) }

  lemma One(r: Room, a: Input)
    ensures Undisturbed(r, [a]) == Step(r, a)
  {
    RunOne(Step, r, a);
  }

  lemma Two(r: Room, a: Input, b: Input)
    ensures var x := Step(r, a);
            var y := Step(x.state, b);
            Undisturbed(r, [a, b]).state == y.state && Undisturbed(r, [a, b]).events == x.events + y.events
  {
    One(r, a);
    RunMore(Step, r, [a], b);
    assert [a] + [b] == [a, b];
  }

  lemma Three(r: Room, a: Input, b: Input, c: Input)
    ensures var x := Step(r, a);
            var y := Step(x.state, b);
            var z := Step(y.state, c);
            Undisturbed(r, [a, b, c]).state == z.state && Undisturbed(r, [a, b, c]).events == x.events + y.events + z.events
  {
    Two(r, a, b);
    RunMore(Step, r, [a, b], c);
    assert [a, b] + [c] == [a, b, c];
  }

  /** A Connect of a room that is neither connected nor about to be reports Connecting; when it fails, the room has failed. */
  lemma ConnectThatFails(r: Room)
    requires r.state == Disconnected || r.state == Failed
    ensures var after := Undisturbed(r, [ConnectClaims, ConnectResets, ConnectFails]);
            after.state.state == Failed && after.events == [StateChanged(Connecting), StateChanged(Failed)]
  {
    Three(r, ConnectClaims, ConnectResets, ConnectFails);
  }

  /** When it joins and the engine connects, the room is connected and says so, and will report a disconnection again. */
  lemma ConnectThatSucceeds(r: Room)
    requires r.state == Disconnected || r.state == Failed
    ensures var joined := Undisturbed(r, [ConnectClaims, ConnectResets, ConnectJoins]);
            var after := Step(joined.state, EngineConnected);
            && joined.events == [StateChanged(Connecting)]
            && after.state.state == Connected && !after.state.disconnectedEmitted
            && after.events == [StateChanged(Connected), OnConnected]
  {
    Three(r, ConnectClaims, ConnectResets, ConnectJoins);
  }

  /** A Connect in any other state changes and reports nothing. */
  lemma ConnectThatIsRefused(r: Room)
    requires r.state != Disconnected && r.state != Failed
    ensures Step(r, ConnectClaims) == Outcome(r, [])
  {
  }

  /** A Connect that fails leaves the room failed, whatever happened meanwhile. */
  lemma FailedConnectFails(r: Room)
    requires r.connecting > 0
    ensures Step(r, ConnectFails).state.state == Failed
    ensures Step(r, ConnectFails).events == if r.state == Failed then [] else [StateChanged(Failed)]
  {
  }

  /** A Disconnect ends in Disconnected and reports it, once, on the way through Disconnecting; otherwise it does nothing. */
  lemma DisconnectCall(r: Room)
    ensures r.state == Disconnecting || r.state == Disconnected ==> Step(r, DisconnectPasses) == Outcome(r, [])
    ensures r.state != Disconnecting && r.state != Disconnected ==>
              var ended := Undisturbed(r, [DisconnectPasses, DisconnectClaims, DisconnectEnds]);
              var told := Step(ended.state, Notify);
              && ended.events == [StateChanged(Disconnecting), StateChanged(Disconnected)]
              && told.state.state == Disconnected && told.state.disconnectedEmitted
              && told.events == if r.disconnectedEmitted then [] else [OnDisconnected]
  {
    Three(r, DisconnectPasses, DisconnectClaims, DisconnectEnds);
  }

  /** A lost connection fails the room and reports it, once; a room that is leaving or gone is left alone. */
  lemma LostConnection(r: Room)
    ensures r.state == Disconnecting || r.state == Disconnected ==> Step(r, SignalDisconnected) == Outcome(r, [])
    ensures r.state != Disconnecting && r.state != Disconnected ==>
              var failed := Step(r, SignalDisconnected);
              var told := Step(failed.state, Notify);
              && failed.events == (if r.state == Failed then [] else [StateChanged(Failed)])
              && told.state.state == Failed && told.state.disconnectedEmitted
              && told.events == if r.disconnectedEmitted then [] else [OnDisconnected]
  {
  }

  /** Only a connected room reconnects, and only a reconnecting one has reconnected. */
  lemma ReconnectionEvents(r: Room, full: bool, hasRoom: bool)
    ensures var begun := Step(r, EngineReconnecting(full));
            && (r.state == Connected ==> begun.state.state == Reconnecting && begun.events == [StateChanged(Reconnecting), OnReconnecting])
            && (r.state != Connected ==> begun.state.state == r.state && begun.events == [])
    ensures r.state == Reconnecting && !r.rejoining ==>
              && Step(r, EngineResumed).state.state == Connected && Step(r, EngineResumed).events == [StateChanged(Connected), OnReconnected]
              && var rejoined := Undisturbed(r, [ReconnectedBegins(true), ReconnectedEnds]);
                 rejoined.state.state == Connected && rejoined.events == [StateChanged(Connected), OnReconnected]
    ensures r.state != Reconnecting ==>
              Step(r, EngineResumed) == Outcome(r, []) && Step(r, ReconnectedBegins(hasRoom)) == Outcome(r, [])
    ensures Step(r, ReconnectedBegins(false)) == Outcome(r, [])
  {
    Two(r, ReconnectedBegins(true), ReconnectedEnds);
  }

  // ----- Over runs -----

  function Connections(inputs: seq<Input>): nat {
    if inputs == [] then 0 else Connections(inputs[..|inputs| - 1]) + if inputs[|inputs| - 1] == EngineConnected then 1 else 0
  }

  lemma {:induction false} CountConcat(a: seq<Report>, b: seq<Report>, x: Report)
    ensures Count(a + b, x) == Count(a, x) + Count(b, x)
    decreases |b|
  {
    if b == [] {
      assert a + b == a;
    } else {
      CountConcat(a, b[..|b| - 1], x);
      assert (a + b)[..|a + b| - 1] == a + b[..|b| - 1];
    }
  }

  lemma ConnectedOfStep(r: Room, i: Input)
    ensures Count(Step(r, i).events, OnConnected) == if i == EngineConnected then 1 else 0
  {
    StepEvents(r, i);
    CountOfFew(Step(r, i).events, OnConnected);
  }

  /** A step reports at most two things, a change of state first. */
  lemma StepEvents(r: Room, i: Input)
    ensures var events := Step(r, i).events;
            && |events| <= 2 && (|events| == 2 ==> events[0].StateChanged? && !events[1].StateChanged?)
            && (events != [] && events[0].StateChanged? ==> Allowed(r.state, events[0].state))
            && (OnConnected in events <==> i == EngineConnected)
  {
  }

  lemma CountOfFew(events: seq<Report>, x: Report)
    requires |events| <= 2 && !(|events| == 2 && events[0] == events[1])
    ensures Count(events, x) == if x in events then 1 else 0
  {
    if |events| == 1 {
      assert events[..0] == [];
    } else if |events| == 2 {
      assert events[..1] == [events[0]] && [events[0]][..0] == [];
    }
  }

  /** Every connection of the engine is reported by OnConnected, and nothing else is. */
  lemma {:induction false} EveryConnectionIsReported(inputs: seq<Input>)
    ensures Count(After(inputs).events, OnConnected) == Connections(inputs)
  {
    if inputs != [] {
      var before, last := inputs[..|inputs| - 1], inputs[|inputs| - 1];
      EveryConnectionIsReported(before);
      ConnectedOfStep(After(before).state, last);
      CountConcat(After(before).events, Step(After(before).state, last).events, OnConnected);
    }
  }

  /** Connecting is reported only after Disconnected or Failed, Reconnecting only after Connected. */
  predicate Allowed(from: RoomState, to: RoomState) {
    (to == Connecting ==> from == Disconnected || from == Failed) && (to == Reconnecting ==> from == Connected)
  }

  predicate Legal(trace: seq<Report>) {
    trace == [] ||
    var before, last := trace[..|trace| - 1], trace[|trace| - 1];
    Legal(before) && (last.StateChanged? ==> Allowed(LastState(before), last.state))
  }

  lemma LegalMore(trace: seq<Report>, x: Report)
    ensures Legal(trace + [x]) <==> Legal(trace) && (x.StateChanged? ==> Allowed(LastState(trace), x.state))
  {
    assert (trace + [x])[..|trace|] == trace;
  }

  lemma StepIsLegal(r: Room, trace: seq<Report>, i: Input)
    requires Legal(trace) && LastState(trace) == r.state
    ensures Legal(trace + Step(r, i).events)
  {
    var events := Step(r, i).events;
    StepEvents(r, i);
    FewAreLegal(trace, events, r.state);
  }

  lemma FewAreLegal(trace: seq<Report>, events: seq<Report>, state: RoomState)
    requires Legal(trace) && LastState(trace) == state && |events| <= 2 && (|events| == 2 ==> !events[1].StateChanged?)
    requires events != [] && events[0].StateChanged? ==> Allowed(state, events[0].state)
    ensures Legal(trace + events)
  {
    if events == [] {
      assert trace + events == trace;
    } else {
      LegalMore(trace, events[0]);
      if |events| == 1 {
        assert trace + events == trace + [events[0]];
      } else {
        LegalMore(trace + [events[0]], events[1]);
        assert trace + events == trace + [events[0]] + [events[1]];
      }
    }
  }

  lemma {:induction false} ReportedChangesAreLegal(inputs: seq<Input>)
    ensures Legal(After(inputs).events)
  {
    if inputs != [] {
      var before, last := inputs[..|inputs| - 1], inputs[|inputs| - 1];
      ReportedChangesAreLegal(before);
      LifecycleTrace(before);
      StepIsLegal(After(before).state, After(before).events, last);
    }
  }
}
