/**
  * The listener is called after the state was changed and without a lock, so a report can be overtaken by
  * a later one of another thread. `Lifecycle` speaks of the reports in the order of the changes; this is
  * about the order in which the listener hears them.
  */
module Telling {
  import opened Machines
  import opened Lifecycle

  /** The room and the reports that are due, oldest change first. */
  datatype Hall = Hall(room: Room, untold: seq<Report>)

  datatype Move = Act(input: Input) | Tell(k: nat)

  function Proceed(h: Hall, m: Move): Outcome<Hall, Report> {
    match m
    case Act(i) =>
      var r := Step(h.room, i);
      Outcome(Hall(r.state, h.untold + r.events), [])
    case Tell(k) =>
      if k >= |h.untold| then Outcome(h, [])
      else Outcome(h.(untold := h.untold[..k] + h.untold[k + 1..]), [h.untold[k]])
  }

  function Heard(moves: seq<Move>): Outcome<Hall, Report> { Run(Proceed, Hall(Fresh, []), moves) }

  /** The changes of a run. */
  function Acts(moves: seq<Move>): seq<Input> {
    if moves == [] then [] else
    var last := moves[|moves| - 1];
    Acts(moves[..|moves| - 1]) + if last.Act? then [last.input] else []
  }

  /** A report overtakes an older one that differs from it. */
  predicate Overtakes(untold: seq<Report>, m: Move) {
    m.Tell? && m.k < |untold| && exists j :: 0 <= j < m.k && untold[j] != untold[m.k]
  }

  predicate Orderly(moves: seq<Move>) {
    moves == [] ||
    var before, last := moves[..|moves| - 1], moves[|moves| - 1];
    Orderly(before) && !Overtakes(Heard(before).state.untold, last)
  }

  /** What was heard and what is due are the reports in the order of the changes. */
  ghost predicate InOrderOfChanges(moves: seq<Move>) {
    Heard(moves).events + Heard(moves).state.untold == After(Acts(moves)).events
  }

  ghost predicate AlwaysInOrder(moves: seq<Move>) {
    moves == [] || (AlwaysInOrder(moves[..|moves| - 1]) && InOrderOfChanges(moves))
  }

  lemma ShiftIsConstant<T>(a: seq<T>, x: T)
    ensures [x] + a == a + [x] <==> forall j :: 0 <= j < |a| ==> a[j] == x
  {
    if [x] + a == a + [x] {
      forall j | 0 <= j < |a| ensures a[j] == x {
        Shifted(a, x, j);
      }
    }
  }

  lemma {:induction false} Shifted<T>(a: seq<T>, x: T, j: nat)
    requires [x] + a == a + [x] && j < |a|
    ensures a[j] == x
  {
    assert ([x] + a)[j] == (a + [x])[j];
    if j > 0 {
      Shifted(a, x, j - 1);
    }
  }

  /** Equal beginnings and endings cancel. */
  lemma Cancel<T>(front: seq<T>, a: seq<T>, b: seq<T>, rest: seq<T>)
    requires |a| == |b|
    ensures front + a + rest == front + b + rest <==> a == b
  {
    var left, right := front + a + rest, front + b + rest;
    assert left[|front|..|front| + |a|] == a && right[|front|..|front| + |b|] == b;
  }

  lemma TellKeepsOrder(told: seq<Report>, untold: seq<Report>, k: nat)
    requires k < |untold|
    ensures told + [untold[k]] + (untold[..k] + untold[k + 1..]) == told + untold <==> !Overtakes(untold, Tell(k))
  {
    var a, x, rest := untold[..k], untold[k], untold[k + 1..];
    ShiftIsConstant(a, x);
    Cancel(told, [x] + a, a + [x], rest);
    assert told + [x] + (a + rest) == told + ([x] + a) + rest;
    assert untold == a + [x] + rest && told + (a + [x] + rest) == told + (a + [x]) + rest;
  }

  lemma {:induction false} RoomOfRun(moves: seq<Move>)
    ensures Heard(moves).state.room == After(Acts(moves)).state
  {
    if moves != [] {
      var before, last := moves[..|moves| - 1], moves[|moves| - 1];
      RoomOfRun(before);
      if last.Act? {
        AfterSnoc(Acts(before), last.input);
      } else {
        assert Acts(moves) == Acts(before);
      }
    }
  }

  /** Exactly the runs in which no report overtakes a different one are heard in the order of the changes. */
  lemma {:induction false} HeardInOrder(moves: seq<Move>)
    ensures AlwaysInOrder(moves) <==> Orderly(moves)
    ensures Orderly(moves) ==> InOrderOfChanges(moves)
  {
    if moves != [] {
      var before, last := moves[..|moves| - 1], moves[|moves| - 1];
      HeardInOrder(before);
      RoomOfRun(before);
      var h := Heard(before);
      match last
      case Act(i) =>
        AfterSnoc(Acts(before), i);
        assert h.events + [] == h.events;
        assert h.events + (h.state.untold + Step(h.state.room, i).events)
            == h.events + h.state.untold + Step(h.state.room, i).events;
      case Tell(k) =>
        assert Acts(moves) == Acts(before);
        if k < |h.state.untold| {
          TellKeepsOrder(h.events, h.state.untold, k);
        } else {
          assert h.events + [] == h.events;
        }
    }
  }

  /**
    * What the listener hears in such a run: no connection state twice in a row, no OnReconnected without
    * its own OnReconnecting, and, when nothing is due, the current state last.
    */
  lemma ListenerHears(moves: seq<Move>)
    requires Orderly(moves)
    ensures Steady(Heard(moves).events) && Paired(Heard(moves).events)
    ensures Heard(moves).state.untold == [] ==> LastState(Heard(moves).events) == Heard(moves).state.room.state
    ensures !FiredAgain(Acts(moves)) ==> Once(Heard(moves).events)
  {
    HeardInOrder(moves);
    RoomOfRun(moves);
    LifecycleTrace(Acts(moves));
    DisconnectedOncePerConnect(Acts(moves));
    var told := Heard(moves).events;
    assert told <= After(Acts(moves)).events;
    PromisesOfBeginning(After(Acts(moves)).events, told);
    assert told + [] == told;
  }

  /** Two changes, by Connect and by Disconnect, whose reports are both due. */
  const BothDue: seq<Move> := [Act(ConnectClaims)] + [Act(DisconnectPasses)] + [Act(DisconnectClaims)]

  lemma BothAreDue()
    ensures Heard(BothDue).state.room.state == Disconnecting && Heard(BothDue).events == []
    ensures Heard(BothDue).state.untold == [StateChanged(Connecting), StateChanged(Disconnecting)]
  {
    var a := [Act(ConnectClaims)];
    assert [] + a == a && Heard([]) == Outcome(Hall(Fresh, []), []);
    HeardSnoc([], Act(ConnectClaims));
    assert Heard(a).state.room == Fresh.(state := Connecting, resetting := 1);
    assert Heard(a).state.untold == [StateChanged(Connecting)] && Heard(a).events == [];
    var b := a + [Act(DisconnectPasses)];
    HeardSnoc(a, Act(DisconnectPasses));
    assert Heard(b).state.room == Fresh.(state := Connecting, resetting := 1, leaving := 1);
    assert Heard(b).state.untold == [StateChanged(Connecting)] && Heard(b).events == [];
    HeardSnoc(b, Act(DisconnectClaims));
  }

  /** Otherwise the last state heard can be an old one: Disconnect's report overtakes that of Connect. */
  lemma OvertakenReport()
    ensures var moves := BothDue + [Tell(1)] + [Tell(0)];
            && Heard(moves).state.untold == []
            && Heard(moves).state.room.state == Disconnecting
            && LastState(Heard(moves).events) == Connecting
  {
    BothAreDue();
    var both := Heard(BothDue).state.untold;
    HeardSnoc(BothDue, Tell(1));
    assert both[..1] + both[2..] == [StateChanged(Connecting)];
    var told := Heard(BothDue + [Tell(1)]);
    assert told.state.untold == [StateChanged(Connecting)] && told.events == [StateChanged(Disconnecting)];
    HeardSnoc(BothDue + [Tell(1)], Tell(0));
  }

  lemma HeardSnoc(moves: seq<Move>, m: Move)
    ensures Heard(moves + [m]) ==
            Outcome(Proceed(Heard(moves).state, m).state, Heard(moves).events + Proceed(Heard(moves).state, m).events)
  {
    assert (moves + [m])[..|moves|] == moves;
  }
}
