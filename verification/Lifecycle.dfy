/**
  * The connection state of the room and what its listener is told, as a machine over the engine's
  * callbacks and the user's Connect and Disconnect. Every access to `state_` and to
  * `disconnected_event_emitted_` is a step of its own, with any other step in between; a listener may
  * call back. The reports of a step follow it at once here; `Telling` lets them come later.
  */
module Lifecycle {
  import opened Machines

  datatype RoomState = Disconnected | Connecting | Connected | Reconnecting | Disconnecting | Failed

  datatype Report = StateChanged(state: RoomState) | OnConnected | OnReconnecting | OnReconnected | OnDisconnected

  datatype Input =
    | ConnectClaims | ConnectResets | ConnectFails | ConnectJoins
    | DisconnectPasses | DisconnectClaims | DisconnectEnds
    | EngineConnected | EngineReconnecting(full: bool) | EngineResumed
    | ReconnectedBegins(hasRoom: bool) | ReconnectedEnds
    | SignalDisconnected
    | Notify  // NotifyDisconnectedOnce, at the end of Disconnect and of SignalDisconnectedEvent

  /** The two atomics, and the calls that are in progress: how many have come how far. */
  datatype Room = Room(
    state: RoomState, disconnectedEmitted: bool, reconnectPrepared: bool,
    resetting: nat,      // Connect has claimed the state and not yet reset the flag
    connecting: nat,     // Connect has reset the flag and waits for the engine
    leaving: nat,        // Disconnect has passed its test
    disconnecting: nat,  // Disconnect has set Disconnecting
    notifying: nat,      // NotifyDisconnectedOnce is due
    rejoining: bool)     // ReconnectedEvent has passed its test and has not ended

  const Fresh := Room(Disconnected, false, false, 0, 0, 0, 0, 0, false)

  type Reaction = Outcome<Room, Report>

  /** Room::SetState reports a state only when it differs. */
  function SetState(r: Room, s: RoomState): Reaction {
    if r.state == s then Outcome(r, []) else Outcome(r.(state := s), [StateChanged(s)])
  }

  function Say(a: Reaction, x: Report): Reaction {
    Outcome(a.state, a.events + [x])
  }

  function Step(r: Room, i: Input): Reaction {
    match i
    case ConnectClaims =>
      if r.state != Disconnected && r.state != Failed then Outcome(r, [])
      else SetState(r.(resetting := r.resetting + 1), Connecting)
    case ConnectResets =>
      if r.resetting == 0 then Outcome(r, [])
      else Outcome(r.(resetting := r.resetting - 1, connecting := r.connecting + 1,
                      disconnectedEmitted := false, reconnectPrepared := false), [])
    case ConnectFails =>
      if r.connecting == 0 then Outcome(r, []) else SetState(r.(connecting := r.connecting - 1), Failed)
    case ConnectJoins =>
      if r.connecting == 0 then Outcome(r, []) else Outcome(r.(connecting := r.connecting - 1), [])
    case DisconnectPasses =>
      if r.state == Disconnecting || r.state == Disconnected then Outcome(r, [])
      else Outcome(r.(leaving := r.leaving + 1), [])
    case DisconnectClaims =>
      if r.leaving == 0 then Outcome(r, [])
      else SetState(r.(leaving := r.leaving - 1, disconnecting := r.disconnecting + 1), Disconnecting)
    case DisconnectEnds =>
      if r.disconnecting == 0 then Outcome(r, [])
      else SetState(r.(disconnecting := r.disconnecting - 1, notifying := r.notifying + 1), Disconnected)
    case EngineConnected => Say(SetState(r, Connected), OnConnected)
    case EngineReconnecting(full) =>
      var q := r.(reconnectPrepared := r.reconnectPrepared || full);
      if r.state != Connected then Outcome(q, []) else Say(SetState(q, Reconnecting), OnReconnecting)
    case EngineResumed =>  // from the recovery thread, so not while it is inside ReconnectedEvent
      if r.state != Reconnecting || r.rejoining then Outcome(r, []) else Say(SetState(r, Connected), OnReconnected)
    case ReconnectedBegins(hasRoom) =>
      if r.state != Reconnecting || !hasRoom || r.rejoining then Outcome(r, []) else Outcome(r.(rejoining := true), [])
    case ReconnectedEnds =>
      if !r.rejoining then Outcome(r, [])
      else Say(SetState(r.(rejoining := false, reconnectPrepared := false), Connected), OnReconnected)
    case SignalDisconnected =>
      if r.state == Disconnecting || r.state == Disconnected then Outcome(r, [])
      else SetState(r.(notifying := r.notifying + 1), Failed)
    case Notify =>
      if r.notifying == 0 then Outcome(r, [])
      else Outcome(r.(notifying := r.notifying - 1, disconnectedEmitted := true),
                   if r.disconnectedEmitted then [] else [OnDisconnected])
  }

  // ----- Reading a trace of reports -----

  /** The last state reported, Disconnected before any. */
  function LastState(trace: seq<Report>): RoomState {
    if trace == [] then Disconnected
    else if trace[|trace| - 1].StateChanged? then trace[|trace| - 1].state
    else LastState(trace[..|trace| - 1])
  }

  function Count(trace: seq<Report>, report: Report): nat {
    if trace == [] then 0 else Count(trace[..|trace| - 1], report) + if trace[|trace| - 1] == report then 1 else 0
  }

  /** The number of OnDisconnected since the last Connect was reported. */
  function DisconnectsSinceConnect(trace: seq<Report>): nat {
    if trace == [] then 0
    else
      var before, last := trace[..|trace| - 1], trace[|trace| - 1];
      if last == StateChanged(Connecting) then 0
      else DisconnectsSinceConnect(before) + if last == OnDisconnected then 1 else 0
  }

  /** No connection state is reported twice in a row. */
  ghost predicate Steady(trace: seq<Report>) {
    forall n :: 0 <= n < |trace| ==> SteadyAt(trace, n)
  }

  predicate SteadyAt(trace: seq<Report>, n: nat)
    requires n < |trace|
  {
    trace[n].StateChanged? ==> trace[n].state != LastState(trace[..n])
  }

  /** At every moment, OnReconnected was reported at most as often as OnReconnecting. */
  ghost predicate Paired(trace: seq<Report>) {
    forall n :: 0 <= n <= |trace| ==> PairedAt(trace, n)
  }

  predicate PairedAt(trace: seq<Report>, n: nat)
    requires n <= |trace|
  {
    Count(trace[..n], OnReconnected) <= Count(trace[..n], OnReconnecting)
  }

  /** At every moment, OnDisconnected was reported at most once since Connecting was. */
  ghost predicate Once(trace: seq<Report>) {
    forall n :: 0 <= n <= |trace| ==> OnceAt(trace, n)
  }

  predicate OnceAt(trace: seq<Report>, n: nat)
    requires n <= |trace|
  {
    DisconnectsSinceConnect(trace[..n]) <= 1
  }

  /** A trace as far as the promises depend on it; each flag is false once its promise was broken. */
  datatype Reading = Reading(
    last: RoomState, reconnecting: nat, reconnected: nat, disconnects: nat, steady: bool, paired: bool, once: bool)

  function Note(s: Reading, x: Report): Reading {
    match x
    case StateChanged(state) =>
      s.(last := state, disconnects := if state == Connecting then 0 else s.disconnects, steady := s.steady && state != s.last)
    case OnReconnecting => s.(reconnecting := s.reconnecting + 1)
    case OnReconnected => s.(reconnected := s.reconnected + 1, paired := s.paired && s.reconnected < s.reconnecting)
    case OnDisconnected => s.(disconnects := s.disconnects + 1, once := s.once && s.disconnects == 0)
    case OnConnected => s
  }

  function NoteAll(s: Reading, trace: seq<Report>): Reading {
    if trace == [] then s else Note(NoteAll(s, trace[..|trace| - 1]), trace[|trace| - 1])
  }

  const Unread := Reading(Disconnected, 0, 0, 0, true, true, true)

  lemma {:induction false} NoteConcat(s: Reading, a: seq<Report>, b: seq<Report>)
    ensures NoteAll(s, a + b) == NoteAll(NoteAll(s, a), b)
    decreases |b|
  {
    if b == [] {
      assert a + b == a;
    } else {
      NoteConcat(s, a, b[..|b| - 1]);
      assert (a + b)[..|a + b| - 1] == a + b[..|b| - 1];
    }
  }

  lemma {:induction false} ReadingCounts(trace: seq<Report>)
    ensures var s := NoteAll(Unread, trace);
            && s.last == LastState(trace)
            && s.reconnecting == Count(trace, OnReconnecting) && s.reconnected == Count(trace, OnReconnected)
            && s.disconnects == DisconnectsSinceConnect(trace)
            && (s.paired ==> s.reconnected <= s.reconnecting) && (s.once ==> s.disconnects <= 1)
  {
    if trace != [] {
      var before, last := trace[..|trace| - 1], trace[|trace| - 1];
      ReadingCounts(before);
      assert NoteAll(Unread, trace) == Note(NoteAll(Unread, before), last);
      match last
      case StateChanged(_) =>
      case OnConnected =>
      case OnReconnecting =>
      case OnReconnected =>
      case OnDisconnected =>
    }
  }

  /** What holds at a moment depends on the reports up to it. */
  lemma SameMoment(trace: seq<Report>, front: seq<Report>, n: nat)
    requires front <= trace && n <= |front|
    ensures PairedAt(trace, n) == PairedAt(front, n) && OnceAt(trace, n) == OnceAt(front, n)
    ensures n < |front| ==> SteadyAt(trace, n) == SteadyAt(front, n)
  {
    assert trace[..n] == front[..n];
  }

  /** A promise about all moments is one about the moments before the last report and one about the end. */
  lemma PromisesOfFront(trace: seq<Report>)
    requires trace != []
    ensures var before, last := trace[..|trace| - 1], trace[|trace| - 1];
            && (Steady(trace) <==> Steady(before) && (last.StateChanged? ==> last.state != LastState(before)))
            && (Paired(trace) <==> Paired(before) && Count(trace, OnReconnected) <= Count(trace, OnReconnecting))
            && (Once(trace) <==> Once(before) && DisconnectsSinceConnect(trace) <= 1)
  {
    var before := trace[..|trace| - 1];
    forall n | 0 <= n <= |before|
      ensures PairedAt(trace, n) == PairedAt(before, n) && OnceAt(trace, n) == OnceAt(before, n)
      ensures n < |before| ==> SteadyAt(trace, n) == SteadyAt(before, n)
    {
      SameMoment(trace, before, n);
    }
    assert trace[..|trace|] == trace;
    assert PairedAt(trace, |trace|) <==> Count(trace, OnReconnected) <= Count(trace, OnReconnecting);
    assert OnceAt(trace, |trace|) <==> DisconnectsSinceConnect(trace) <= 1;
    assert SteadyAt(trace, |before|) <==> (trace[|before|].StateChanged? ==> trace[|before|].state != LastState(before));
  }

  /** The promises hold of every beginning of a trace that keeps them. */
  lemma PromisesOfBeginning(trace: seq<Report>, front: seq<Report>)
    requires front <= trace
    ensures (Steady(trace) ==> Steady(front)) && (Paired(trace) ==> Paired(front)) && (Once(trace) ==> Once(front))
  {
    forall n | 0 <= n <= |front|
      ensures PairedAt(trace, n) == PairedAt(front, n) && OnceAt(trace, n) == OnceAt(front, n)
      ensures n < |front| ==> SteadyAt(trace, n) == SteadyAt(front, n)
    {
      SameMoment(trace, front, n);
    }
  }

  /** The summary is right: each flag says whether the trace keeps its promise throughout. */
  lemma {:induction false} ReadingIsRight(trace: seq<Report>)
    ensures var s := NoteAll(Unread, trace);
            (s.steady <==> Steady(trace)) && (s.paired <==> Paired(trace)) && (s.once <==> Once(trace))
  {
    if trace != [] {
      var before := trace[..|trace| - 1];
      ReadingIsRight(before);
      ReadingCounts(before);
      ReadingCounts(trace);
      PromisesOfFront(trace);
    }
  }

  // ----- What every run keeps -----

  ghost predicate Inv(r: Room, s: Reading) {
    && s.steady && s.paired && s.last == r.state
    && s.reconnected <= s.reconnecting
    && (r.state == Reconnecting || r.rejoining ==> s.reconnected < s.reconnecting)
  }

  /** The reading after the reports of one step, at most two. */
  function Brief(s: Reading, events: seq<Report>): Reading
    requires |events| <= 2
  {
    if events == [] then s else if |events| == 1 then Note(s, events[0]) else Note(Note(s, events[0]), events[1])
  }

  lemma BriefIsNoteAll(s: Reading, events: seq<Report>)
    requires |events| <= 2
    ensures NoteAll(s, events) == Brief(s, events)
  {
    if |events| == 1 {
      assert events[..0] == [];
    } else if |events| == 2 {
      assert events[..1] == [events[0]] && [events[0]][..0] == [];
    }
  }

  predicate FromEngine(i: Input) {
    i.EngineConnected? || i.EngineReconnecting? || i.EngineResumed? || i.ReconnectedBegins? || i.ReconnectedEnds?
  }

  lemma EngineStepKeepsInv(r: Room, s: Reading, i: Input)
    requires Inv(r, s) && FromEngine(i)
    ensures |Step(r, i).events| <= 2 && Inv(Step(r, i).state, Brief(s, Step(r, i).events))
  {
  }

  lemma OtherStepKeepsInv(r: Room, s: Reading, i: Input)
    requires Inv(r, s) && !FromEngine(i)
    ensures |Step(r, i).events| <= 2 && Inv(Step(r, i).state, Brief(s, Step(r, i).events))
  {
  }

  lemma StepKeepsInv(r: Room, s: Reading, i: Input)
    requires Inv(r, s)
    ensures Inv(Step(r, i).state, NoteAll(s, Step(r, i).events))
  {
    if FromEngine(i) {
      EngineStepKeepsInv(r, s, i);
    } else {
      OtherStepKeepsInv(r, s, i);
    }
    BriefIsNoteAll(s, Step(r, i).events);
  }

  function After(inputs: seq<Input>): Reaction { Run(Step, Fresh, inputs) }

  lemma {:induction false} RunKeepsInv(inputs: seq<Input>)
    ensures Inv(After(inputs).state, NoteAll(Unread, After(inputs).events))
  {
    if inputs != [] {
      var before, last := inputs[..|inputs| - 1], inputs[|inputs| - 1];
      var r := After(before);
      RunKeepsInv(before);
      StepKeepsInv(r.state, NoteAll(Unread, r.events), last);
      NoteConcat(Unread, r.events, Step(r.state, last).events);
    }
  }

  /**
    * The lifecycle trace: over every run, and at every moment of it, no connection state is reported twice
    * in a row, OnReconnected not more often than OnReconnecting, and the last state reported is the
    * current one.
    */
  lemma LifecycleTrace(inputs: seq<Input>)
    ensures Steady(After(inputs).events) && Paired(After(inputs).events)
    ensures LastState(After(inputs).events) == After(inputs).state.state
  {
    RunKeepsInv(inputs);
    ReadingIsRight(After(inputs).events);
    ReadingCounts(After(inputs).events);
  }

  // ----- OnDisconnected once per Connect -----

  /** The last step of a run is a Connect that claims the state. */
  predicate Claims(before: seq<Input>, i: Input) { i == ConnectClaims && After(before).state.state in {Disconnected, Failed} }

  predicate Resets(before: seq<Input>, i: Input) { i == ConnectResets && After(before).state.resetting > 0 }

  predicate Notifies(before: seq<Input>, i: Input) { i == Notify && After(before).state.notifying > 0 }

  /** Since the last Connect claimed the state, a notification ran while the flag was clear. */
  predicate Fired(inputs: seq<Input>) {
    inputs != [] &&
    var before, last := inputs[..|inputs| - 1], inputs[|inputs| - 1];
    && !Claims(before, last)
    && (Fired(before) || (Notifies(before, last) && !After(before).state.disconnectedEmitted))
  }

  /** ... and after that notification a Connect reset the flag. */
  predicate Reopened(inputs: seq<Input>) {
    inputs != [] &&
    var before, last := inputs[..|inputs| - 1], inputs[|inputs| - 1];
    && !Claims(before, last)
    && (Reopened(before) || (Fired(before) && Resets(before, last)))
  }

  /** ... and after that reset another notification ran, all without another Connect claiming the state. */
  predicate FiredAgain(inputs: seq<Input>) {
    inputs != [] &&
    var before, last := inputs[..|inputs| - 1], inputs[|inputs| - 1];
    FiredAgain(before) || (Reopened(before) && Notifies(before, last))
  }

  /** What the steps say about the flag and the number of OnDisconnected, until the promise is broken. */
  ghost predicate Watched(inputs: seq<Input>) {
    var r, s := After(inputs).state, NoteAll(Unread, After(inputs).events);
    && (Fired(inputs) <==> s.disconnects > 0)
    && (s.once <==> !FiredAgain(inputs))
    && (s.once ==> s.disconnects <= 1 && (Reopened(inputs) <==> s.disconnects > 0 && !r.disconnectedEmitted))
  }

  /** What one step adds to the reading, as far as Once depends on it. */
  lemma StepDisconnects(r: Room, s: Reading, i: Input)
    ensures |Step(r, i).events| <= 2
    ensures var t := Brief(s, Step(r, i).events);
            var claims := i == ConnectClaims && r.state in {Disconnected, Failed};
            var fires := i == Notify && r.notifying > 0 && !r.disconnectedEmitted;
            && t.disconnects == (if claims then 0 else if fires then s.disconnects + 1 else s.disconnects)
            && t.once == (s.once && (fires ==> s.disconnects == 0))
  {
  }

  /** Only a notification and a reset touch the flag. */
  lemma StepFlag(r: Room, i: Input)
    ensures Step(r, i).state.disconnectedEmitted ==
            if i == Notify && r.notifying > 0 then true
            else if i == ConnectResets && r.resetting > 0 then false
            else r.disconnectedEmitted
  {
  }

  lemma {:induction false} RunIsWatched(inputs: seq<Input>)
    ensures Watched(inputs)
  {
    if inputs != [] {
      var before, last := inputs[..|inputs| - 1], inputs[|inputs| - 1];
      var r := After(before);
      RunIsWatched(before);
      StepDisconnects(r.state, NoteAll(Unread, r.events), last);
      BriefIsNoteAll(NoteAll(Unread, r.events), Step(r.state, last).events);
      StepFlag(r.state, last);
      NoteConcat(Unread, r.events, Step(r.state, last).events);
    }
  }

  /**
    * OnDisconnected comes at most once per Connect if and only if the run has no notification that takes
    * effect, then a Connect's late reset of the flag, then another notification, without a Connect
    * claiming the state in between.
    */
  lemma DisconnectedOncePerConnect(inputs: seq<Input>)
    ensures Once(After(inputs).events) <==> !FiredAgain(inputs)
  {
    RunIsWatched(inputs);
    ReadingIsRight(After(inputs).events);
  }

  /** In terms of the trace: Once says that between two OnDisconnected lies a report of Connecting. */
  lemma OnceSeparates(trace: seq<Report>, i: nat, j: nat)
    requires Once(trace) && i < j < |trace| && trace[i] == OnDisconnected && trace[j] == OnDisconnected
    ensures exists k :: i < k < j && trace[k] == StateChanged(Connecting)
  {
    assert OnceAt(trace, j + 1) && trace[..j + 1][..j] == trace[..j];
    if forall k :: i < k < j ==> trace[k] != StateChanged(Connecting) {
      StillDisconnected(trace, i, j);
    }
  }

  lemma {:induction false} StillDisconnected(trace: seq<Report>, i: nat, j: nat)
    requires i < j <= |trace| && trace[i] == OnDisconnected
    requires forall k :: i < k < j ==> trace[k] != StateChanged(Connecting)
    ensures DisconnectsSinceConnect(trace[..j]) >= 1
    decreases j
  {
    assert trace[..j][..j - 1] == trace[..j - 1];
    if i < j - 1 {
      StillDisconnected(trace, i, j - 1);
    }
  }

  // ----- The window between a report of Connecting and its reset -----

  /** A notification that takes effect while some Connect has not yet reset the flag. */
  predicate InWindow(before: seq<Input>, i: Input) {
    Notifies(before, i) && !After(before).state.disconnectedEmitted && After(before).state.resetting > 0
  }

  /** Without such a notification the promise is kept. */
  lemma {:induction false} QuietWindowKeepsOnce(inputs: seq<Input>)
    requires forall n :: 0 <= n < |inputs| ==> !InWindow(inputs[..n], inputs[n])
    ensures Once(After(inputs).events) && !Reopened(inputs)
    ensures Fired(inputs) ==> After(inputs).state.resetting == 0
  {
    DisconnectedOncePerConnect(inputs);
    if inputs != [] {
      var before, last := inputs[..|inputs| - 1], inputs[|inputs| - 1];
      assert forall n :: 0 <= n < |before| ==> before[..n] == inputs[..n] && before[n] == inputs[n];
      QuietWindowKeepsOnce(before);
      DisconnectedOncePerConnect(before);
      assert !InWindow(inputs[..|before|], inputs[|before|]);
      StepResetting(After(before).state, last);
    }
  }

  lemma StepResetting(r: Room, i: Input)
    ensures Step(r, i).state.resetting > 0 ==> r.resetting > 0 || (i == ConnectClaims && r.state in {Disconnected, Failed})
  {
  }

  /** One step more. */
  lemma AfterSnoc(inputs: seq<Input>, i: Input)
    ensures After(inputs + [i]).state == Step(After(inputs).state, i).state
    ensures After(inputs + [i]).events == After(inputs).events + Step(After(inputs).state, i).events
    ensures (inputs + [i])[..|inputs|] == inputs
  {
  }

  lemma ReopenedStays(inputs: seq<Input>, i: Input)
    requires Reopened(inputs) && i != ConnectClaims
    ensures Reopened(inputs + [i])
  {
    assert (inputs + [i])[..|inputs|] == inputs;
  }

  lemma DisconnectNotifies(r: Room)
    requires r.state == Connected
    ensures var a := Step(r, DisconnectPasses).state;
            var b := Step(a, DisconnectClaims).state;
            Step(b, DisconnectEnds).state.notifying > 0
  {
  }

  /** A room that the engine connects can be disconnected and have its notification due. */
  lemma NotificationComes(inputs: seq<Input>)
    ensures Notifies(inputs + [EngineConnected] + [DisconnectPasses] + [DisconnectClaims] + [DisconnectEnds], Notify)
  {
    var a := inputs + [EngineConnected];
    AfterSnoc(inputs, EngineConnected);
    assert After(a).state.state == Connected;
    DisconnectNotifies(After(a).state);
    AfterSnoc(a, DisconnectPasses);
    AfterSnoc(a + [DisconnectPasses], DisconnectClaims);
    AfterSnoc(a + [DisconnectPasses] + [DisconnectClaims], DisconnectEnds);
  }

  /** Once the flag was reopened, the engine and one Disconnect break the promise without another Connect. */
  lemma ReopenedBreaksOnce(inputs: seq<Input>)
    requires Reopened(inputs)
    ensures !Once(After(inputs + [EngineConnected] + [DisconnectPasses] + [DisconnectClaims] + [DisconnectEnds] + [Notify]).events)
  {
    var a := inputs + [EngineConnected];
    ReopenedStays(inputs, EngineConnected);
    var b := a + [DisconnectPasses];
    ReopenedStays(a, DisconnectPasses);
    var c := b + [DisconnectClaims];
    ReopenedStays(b, DisconnectClaims);
    var d := c + [DisconnectEnds];
    ReopenedStays(c, DisconnectEnds);
    NotificationComes(inputs);
    assert (d + [Notify])[..|d|] == d;
    DisconnectedOncePerConnect(d + [Notify]);
  }

  /** With one, whatever came before, the late reset reopens the flag. */
  lemma NotificationInWindowReopens(inputs: seq<Input>)
    requires InWindow(inputs, Notify)
    ensures Reopened(inputs + [Notify] + [ConnectResets])
  {
    var a := inputs + [Notify];
    AfterSnoc(inputs, Notify);
    assert Fired(a) && Resets(a, ConnectResets);
    AfterSnoc(a, ConnectResets);
  }

  /** Disconnect overtakes a Connect that has not reset the flag. */
  const Overtaken: seq<Input> := [ConnectClaims] + [DisconnectPasses] + [DisconnectClaims] + [DisconnectEnds]

  lemma ConnectIsClaimed()
    ensures After([ConnectClaims]).state == Fresh.(state := Connecting, resetting := 1)
    ensures After([ConnectClaims]).events == [StateChanged(Connecting)]
  {
    assert [] + [ConnectClaims] == [ConnectClaims] && After([]) == Outcome(Fresh, []);
    AfterSnoc([], ConnectClaims);
  }

  /** A Disconnect of a connecting room, up to its notification. */
  lemma DisconnectSteps(r: Room)
    requires r == Fresh.(state := Connecting, resetting := 1)
    ensures var a := Step(r, DisconnectPasses);
            var b := Step(a.state, DisconnectClaims);
            var c := Step(b.state, DisconnectEnds);
            && a.events == [] && b.events == [StateChanged(Disconnecting)] && c.events == [StateChanged(Disconnected)]
            && c.state == Fresh.(resetting := 1, notifying := 1)
  {
  }

  lemma OvertakenReaches()
    ensures After(Overtaken).state == Fresh.(resetting := 1, notifying := 1)
    ensures After(Overtaken).events == [StateChanged(Connecting), StateChanged(Disconnecting), StateChanged(Disconnected)]
  {
    var a := [ConnectClaims];
    ConnectIsClaimed();
    DisconnectSteps(After(a).state);
    AfterSnoc(a, DisconnectPasses);
    AfterSnoc(a + [DisconnectPasses], DisconnectClaims);
    AfterSnoc(a + [DisconnectPasses] + [DisconnectClaims], DisconnectEnds);
  }

  /** From there OnDisconnected is reported twice after one Connecting. */
  lemma LateResetRepeatsDisconnected()
    ensures InWindow(Overtaken, Notify)
    ensures !Once(After(Overtaken + [Notify] + [ConnectResets] + [EngineConnected] + [DisconnectPasses] + [DisconnectClaims]
                        + [DisconnectEnds] + [Notify]).events)
  {
    OvertakenReaches();
    NotificationInWindowReopens(Overtaken);
    ReopenedBreaksOnce(Overtaken + [Notify] + [ConnectResets]);
  }
}
