/**
  * Remote procedure calls: PerformRpc, HandleRpcAck, HandleRpcResponse and CancelPendingRpc as a machine
  * whose steps are the critical sections of the source, in any interleaving. A handler that has looked a
  * call up but not yet locked it is a task in flight. Time-outs may fire at any moment.
  */
module Rpc {
  import opened Wire
  import opened Machines

  datatype Code =
    | SendFailed | ConnectionTimeout | ResponseTimeout | RecipientDisconnected
    | Remote(code: int, message: string, data: string)

  datatype Result = Success(payload: string) | Failure(code: Code)

  /** The codes of the library itself. */
  type OwnCode = c: Code | !c.Remote? witness SendFailed

  /** What a response carries. */
  datatype Reply = Payload(payload: string) | Error(code: int, message: string, data: string)

  function ResultOf(reply: Reply): Result {
    match reply
    case Payload(payload) => Success(payload)
    case Error(code, message, data) => Failure(Remote(code, message, data))
  }

  datatype Response = Response(requestId: string, sender: string, reply: Reply)

  /** Where the thread inside PerformRpc is. */
  datatype Phase = Registered | AwaitingAck | AwaitingResponse | Leaving(result: Result) | Returned(result: Result)

  /** PendingRpcCall, its caller's phase, and two history variables: was the request sent, how often was the result written. */
  datatype Call = Call(
    requestId: string, destination: string, acknowledged: bool, completed: bool, result: Option<Result>,
    phase: Phase, sent: bool, writes: nat)
  {
    /** `completed = true; result = r`, under the call's mutex; whether it may is tested where it is called. */
    function Complete(r: Result): Call {
      this.(completed := true, result := Some(r), writes := writes + 1)
    }
  }

  /** Work of another thread between looking a call up and locking it. */
  datatype Task =
    | AckTask(call: nat)
    | ResponseTask(call: nat, response: Response)
    | CancelTask(calls: set<nat>, code: OwnCode)

  datatype State = State(calls: seq<Call>, pending: map<string, nat>, tasks: seq<Task>, heard: set<Response>)

  const Start := State([], map[], [], {})

  datatype Step =
    | Register(requestId: string, destination: string)
    | SendFails(call: nat)
    | SendSucceeds(call: nat)
    | AckWake(call: nat, timedOut: bool)
    | ResponseWake(call: nat, timedOut: bool)
    | Erase(call: nat)
    | AckArrives(requestId: string, sender: string)
    | ResponseArrives(response: Response)
    | CancelCollects(identity: Option<string>, code: OwnCode)
    | TaskRuns(task: nat, call: nat)

  // ----- The caller -----

  function OnRegister(s: State, requestId: string, destination: string): State {
    var call := Call(requestId, destination, false, false, None, Registered, false, 0);
    s.(calls := s.calls + [call],
       pending := if requestId in s.pending then s.pending else s.pending[requestId := |s.calls|])
  }

  function OnSend(s: State, i: nat, ok: bool): State
    requires i < |s.calls|
  {
    var call := s.calls[i];
    if call.phase != Registered then s
    else if ok then s.(calls := s.calls[i := call.(phase := AwaitingAck, sent := true)])
    else s.(calls := s.calls[i := call.(phase := Returned(Failure(SendFailed)))], pending := s.pending - {call.requestId})
  }

  /** The first wait ends; with no acknowledgement and no result it ends in a time-out. */
  function OnAckWake(call: Call, timedOut: bool): Call {
    if call.phase != AwaitingAck || !(call.acknowledged || call.completed || timedOut) then call
    else
      var c := if call.acknowledged || call.completed then call else call.Complete(Failure(ConnectionTimeout));
      if c.completed && c.result.Some? then c.(phase := Leaving(c.result.value)) else c.(phase := AwaitingResponse)
  }

  function OnResponseWake(call: Call, timedOut: bool): Call {
    if call.phase != AwaitingResponse || !(call.completed || timedOut) then call
    else
      var c := if call.completed then call else call.Complete(Failure(ResponseTimeout));
      if c.result.Some? then c.(phase := Leaving(c.result.value)) else c
  }

  function OnErase(s: State, i: nat): State
    requires i < |s.calls|
  {
    var call := s.calls[i];
    if !call.phase.Leaving? then s else
    s.(calls := s.calls[i := call.(phase := Returned(call.phase.result))],
       pending := if call.requestId in s.pending && s.pending[call.requestId] == i then s.pending - {call.requestId} else s.pending)
  }

  // ----- The handlers -----

  /** Packets are taken from the destination, or from an unnamed sender. */
  predicate FromDestination(sender: string, call: Call) {
    sender == "" || sender == call.destination
  }

  function OnAckArrives(s: State, requestId: string, sender: string): State {
    if requestId in s.pending && s.pending[requestId] < |s.calls| && FromDestination(sender, s.calls[s.pending[requestId]])
    then s.(tasks := s.tasks + [AckTask(s.pending[requestId])])
    else s
  }

  function OnResponseArrives(s: State, r: Response): State {
    var s' := s.(heard := s.heard + {r});
    if r.requestId in s.pending && s.pending[r.requestId] < |s.calls| && FromDestination(r.sender, s.calls[s.pending[r.requestId]])
    then s'.(tasks := s.tasks + [ResponseTask(s.pending[r.requestId], r)])
    else s'
  }

  predicate Matches(s: State, id: string, identity: Option<string>) {
    id in s.pending && s.pending[id] < |s.calls|
    && (identity.None? || s.calls[s.pending[id]].destination == identity.value)
  }

  function OnCancelCollects(s: State, identity: Option<string>, code: OwnCode): State {
    var ids := set id | id in s.pending && Matches(s, id, identity);
    s.(pending := s.pending - ids, tasks := s.tasks + [CancelTask(set id | id in ids :: s.pending[id], code)])
  }

  function OnTask(s: State, k: nat, i: nat): State
    requires k < |s.tasks| && i < |s.calls|
  {
    var call, rest := s.calls[i], s.tasks[..k] + s.tasks[k + 1..];
    match s.tasks[k]
    case AckTask(j) =>
      if i != j then s else s.(calls := s.calls[i := call.(acknowledged := true)], tasks := rest)
    case ResponseTask(j, r) =>
      if i != j then s else
      s.(calls := s.calls[i := if call.completed then call else call.Complete(ResultOf(r.reply)).(acknowledged := true)], tasks := rest)
    case CancelTask(js, code) =>
      if i !in js then s else
      s.(calls := s.calls[i := if call.completed then call else call.Complete(Failure(code))], tasks := s.tasks[k := CancelTask(js - {i}, code)])
  }

  function Next(s: State, step: Step): State {
    match step
    case Register(id, destination) => OnRegister(s, id, destination)
    case SendFails(i) => if i < |s.calls| then OnSend(s, i, false) else s
    case SendSucceeds(i) => if i < |s.calls| then OnSend(s, i, true) else s
    case AckWake(i, t) => if i < |s.calls| then s.(calls := s.calls[i := OnAckWake(s.calls[i], t)]) else s
    case ResponseWake(i, t) => if i < |s.calls| then s.(calls := s.calls[i := OnResponseWake(s.calls[i], t)]) else s
    case Erase(i) => if i < |s.calls| then OnErase(s, i) else s
    case AckArrives(id, sender) => OnAckArrives(s, id, sender)
    case ResponseArrives(r) => OnResponseArrives(s, r)
    case CancelCollects(identity, code) => OnCancelCollects(s, identity, code)
    case TaskRuns(k, i) => if k < |s.tasks| && i < |s.calls| then OnTask(s, k, i) else s
  }

  function After(s: State, steps: seq<Step>): State {
    Reach(Next, s, steps)
  }

  // ----- What every run keeps -----

  /** A response that may complete a call: heard, for its id, from an admissible sender. */
  predicate Answers(heard: set<Response>, call: Call, r: Response) {
    r in heard && r.requestId == call.requestId && FromDestination(r.sender, call)
  }

  ghost predicate CallOk(heard: set<Response>, c: Call) {
    && c.writes == (if c.completed then 1 else 0)
    && (c.completed <==> c.result.Some?)
    && (c.phase == AwaitingResponse ==> c.acknowledged)
    && (c.phase == Registered ==> !c.sent)
    && (c.phase.AwaitingAck? || c.phase.AwaitingResponse? || c.phase.Leaving? ==> c.sent)
    && (c.phase.Leaving? ==> c.result == Some(c.phase.result))
    && (c.phase.Returned? && c.sent ==> c.result == Some(c.phase.result))
    && (c.phase.Returned? && !c.sent ==> c.phase.result == Failure(SendFailed))
    && (c.result.Some? && c.result.value.Success? ==> exists r :: Answers(heard, c, r) && ResultOf(r.reply) == c.result.value)
  }

  ghost predicate TaskOk(s: State, t: Task) {
    match t
    case AckTask(i) => i < |s.calls|
    case ResponseTask(i, r) => i < |s.calls| && Answers(s.heard, s.calls[i], r)
    case CancelTask(_, _) => true
  }

  ghost predicate PendingOk(s: State, id: string) {
    id in s.pending ==>
      && s.pending[id] < |s.calls| && s.calls[s.pending[id]].requestId == id
      && !s.calls[s.pending[id]].phase.Returned?
  }

  ghost predicate Inv(s: State) {
    && (forall i :: 0 <= i < |s.calls| ==> CallOk(s.heard, s.calls[i]))
    && (forall k :: 0 <= k < |s.tasks| ==> TaskOk(s, s.tasks[k]))
    && (forall id :: PendingOk(s, id))
  }

  /** A step on one call that leaves its identity alone. */
  predicate SameCall(a: Call, b: Call) {
    a.requestId == b.requestId && a.destination == b.destination
  }

  lemma CallStepKeepsInv(s: State, i: nat, c: Call)
    requires Inv(s) && i < |s.calls| && SameCall(s.calls[i], c) && CallOk(s.heard, c)
    requires c.phase.Returned? ==> s.calls[i].phase.Returned?
    ensures Inv(s.(calls := s.calls[i := c]))
  {
    var s' := s.(calls := s.calls[i := c]);
    forall id ensures PendingOk(s', id) {
      assert PendingOk(s, id);
    }
    forall k | 0 <= k < |s'.tasks| ensures TaskOk(s', s'.tasks[k]) {
      assert TaskOk(s, s.tasks[k]);
    }
  }

  lemma FewerTasksKeepInv(s: State, tasks: seq<Task>)
    requires Inv(s) && forall t :: t in tasks ==> TaskOk(s, t)
    ensures Inv(s.(tasks := tasks))
  {
    var s' := s.(tasks := tasks);
    forall id ensures PendingOk(s', id) {
      assert PendingOk(s, id);
    }
    forall k | 0 <= k < |tasks| ensures TaskOk(s', tasks[k]) {
      assert tasks[k] in tasks;
    }
  }

  lemma FewerPendingKeepInv(s: State, gone: set<string>)
    requires Inv(s)
    ensures Inv(s.(pending := s.pending - gone))
  {
    var s' := s.(pending := s.pending - gone);
    forall id ensures PendingOk(s', id) {
      assert PendingOk(s, id);
    }
    forall k | 0 <= k < |s'.tasks| ensures TaskOk(s', s'.tasks[k]) {
      assert TaskOk(s, s.tasks[k]);
    }
  }

  lemma RegisterKeepsInv(s: State, requestId: string, destination: string)
    requires Inv(s)
    ensures Inv(OnRegister(s, requestId, destination))
  {
    var s' := OnRegister(s, requestId, destination);
    forall id ensures PendingOk(s', id) {
      assert PendingOk(s, id);
    }
    forall k | 0 <= k < |s'.tasks| ensures TaskOk(s', s'.tasks[k]) {
      assert TaskOk(s, s.tasks[k]);
    }
  }

  lemma SendKeepsInv(s: State, i: nat, ok: bool)
    requires Inv(s) && i < |s.calls|
    ensures Inv(OnSend(s, i, ok))
  {
    var call := s.calls[i];
    assert CallOk(s.heard, call);
    if call.phase == Registered {
      if ok {
        CallStepKeepsInv(s, i, call.(phase := AwaitingAck, sent := true));
      } else {
        ReturnKeepsInv(s, i, Failure(SendFailed), {call.requestId});
      }
    }
  }

  /** A call returns, and no entry under its id leads to it any more. */
  lemma ReturnKeepsInv(s: State, i: nat, r: Result, gone: set<string>)
    requires Inv(s) && i < |s.calls|
    requires s.calls[i].requestId in s.pending && s.pending[s.calls[i].requestId] == i ==> s.calls[i].requestId in gone
    requires CallOk(s.heard, s.calls[i].(phase := Returned(r)))
    ensures Inv(s.(calls := s.calls[i := s.calls[i].(phase := Returned(r))], pending := s.pending - gone))
  {
    var s' := s.(calls := s.calls[i := s.calls[i].(phase := Returned(r))], pending := s.pending - gone);
    forall id ensures PendingOk(s', id) {
      assert PendingOk(s, id);
    }
    forall k | 0 <= k < |s'.tasks| ensures TaskOk(s', s'.tasks[k]) {
      assert TaskOk(s, s.tasks[k]);
    }
  }

  lemma EraseKeepsInv(s: State, i: nat)
    requires Inv(s) && i < |s.calls|
    ensures Inv(OnErase(s, i))
  {
    var call := s.calls[i];
    assert CallOk(s.heard, call);
    if call.phase.Leaving? {
      var mine := call.requestId in s.pending && s.pending[call.requestId] == i;
      ReturnKeepsInv(s, i, call.phase.result, if mine then {call.requestId} else {});
      assert s.pending - {} == s.pending;
    }
  }

  lemma ResponseArrivesKeepsInv(s: State, r: Response)
    requires Inv(s)
    ensures Inv(OnResponseArrives(s, r))
  {
    var s' := s.(heard := s.heard + {r});
    forall i | 0 <= i < |s.calls| ensures CallOk(s'.heard, s.calls[i]) {
      var c := s.calls[i];
      assert CallOk(s.heard, c);
      if c.result.Some? && c.result.value.Success? {
        var q :| Answers(s.heard, c, q) && ResultOf(q.reply) == c.result.value;
        assert Answers(s'.heard, c, q);
      }
    }
    forall id ensures PendingOk(s', id) {
      assert PendingOk(s, id);
    }
    forall k | 0 <= k < |s'.tasks| ensures TaskOk(s', s'.tasks[k]) {
      assert TaskOk(s, s.tasks[k]);
    }
    assert PendingOk(s, r.requestId);
    var next := OnResponseArrives(s, r);
    if next != s' {
      FewerTasksKeepInv(s', next.tasks);
    }
  }

  lemma TaskKeepsInv(s: State, k: nat, i: nat)
    requires Inv(s) && k < |s.tasks| && i < |s.calls|
    ensures Inv(OnTask(s, k, i))
  {
    var next, call := OnTask(s, k, i), s.calls[i];
    assert TaskOk(s, s.tasks[k]) && CallOk(s.heard, call);
    if next != s {
      assert forall t :: t in next.tasks ==> t in s.tasks || t.CancelTask?;
      FewerTasksKeepInv(s, next.tasks);
      CallStepKeepsInv(s.(tasks := next.tasks), i, next.calls[i]);
    }
  }

  lemma NextKeepsInv(s: State, step: Step)
    requires Inv(s)
    ensures Inv(Next(s, step))
  {
    match step
    case Register(id, destination) => RegisterKeepsInv(s, id, destination);
    case SendFails(i) => if i < |s.calls| { SendKeepsInv(s, i, false); }
    case SendSucceeds(i) => if i < |s.calls| { SendKeepsInv(s, i, true); }
    case AckWake(i, t) =>
      if i < |s.calls| {
        assert CallOk(s.heard, s.calls[i]);
        CallStepKeepsInv(s, i, OnAckWake(s.calls[i], t));
      }
    case ResponseWake(i, t) =>
      if i < |s.calls| {
        assert CallOk(s.heard, s.calls[i]);
        CallStepKeepsInv(s, i, OnResponseWake(s.calls[i], t));
      }
    case Erase(i) => if i < |s.calls| { EraseKeepsInv(s, i); }
    case AckArrives(id, sender) =>
      assert PendingOk(s, id);
      FewerTasksKeepInv(s, OnAckArrives(s, id, sender).tasks);
    case ResponseArrives(r) => ResponseArrivesKeepsInv(s, r);
    case CancelCollects(identity, code) =>
      var next := OnCancelCollects(s, identity, code);
      FewerTasksKeepInv(s, next.tasks);
      FewerPendingKeepInv(s.(tasks := next.tasks), set id | id in s.pending && Matches(s, id, identity));
    case TaskRuns(k, i) => if k < |s.tasks| && i < |s.calls| { TaskKeepsInv(s, k, i); }
  }

  lemma {:induction false} RunKeepsInv(steps: seq<Step>)
    ensures Inv(After(Start, steps))
  {
    if steps != [] {
      RunKeepsInv(steps[..|steps| - 1]);
      NextKeepsInv(After(Start, steps[..|steps| - 1]), steps[|steps| - 1]);
    }
  }

  /**
    * Single completion: in every interleaving a call's result is written at most once; what PerformRpc
    * returns after a successful send is that result; a successful one is the payload of a response with
    * the call's id whose sender is the destination or unnamed; and a call that has returned is not
    * pending.
    */
  lemma SingleCompletion(steps: seq<Step>, i: nat)
    requires i < |After(Start, steps).calls|
    ensures var s := After(Start, steps);
            var c := s.calls[i];
            && c.writes <= 1 && (c.writes == 1 <==> c.result.Some?)
            && (c.phase.Returned? && c.sent ==> c.result == Some(c.phase.result))
            && (c.phase.Returned? && !c.sent ==> c.phase.result == Failure(SendFailed))
            && (c.phase.Returned? && c.phase.result.Success? ==>
                  exists r :: Answers(s.heard, c, r) && ResultOf(r.reply) == c.phase.result)
            && (c.phase.Returned? ==> forall id :: id in s.pending ==> s.pending[id] != i)
  {
    RunKeepsInv(steps);
    var s := After(Start, steps);
    assert CallOk(s.heard, s.calls[i]);
    forall id | id in s.pending && s.calls[i].phase.Returned? ensures s.pending[id] != i {
      assert PendingOk(s, id);
    }
  }

  /** Nothing that happens later changes a result or takes a return back. */
  lemma NextIsStable(s: State, step: Step, i: nat)
    requires i < |s.calls|
    ensures var s' := Next(s, step);
            && i < |s'.calls| && SameCall(s.calls[i], s'.calls[i])
            && (s.calls[i].completed ==> s'.calls[i].completed && s'.calls[i].result == s.calls[i].result)
            && (s.calls[i].phase.Returned? ==> s'.calls[i].phase == s.calls[i].phase)
            && s.heard <= s'.heard
  {
  }

  lemma {:induction false} ResultIsFinal(steps: seq<Step>, more: seq<Step>, i: nat)
    requires i < |After(Start, steps).calls|
    ensures var s, s' := After(Start, steps), After(Start, steps + more);
            && i < |s'.calls|
            && (s.calls[i].completed ==> s'.calls[i].result == s.calls[i].result && s'.calls[i].completed)
            && (s.calls[i].phase.Returned? ==> s'.calls[i].phase == s.calls[i].phase)
    decreases |more|
  {
    if more == [] {
      assert steps + more == steps;
    } else {
      var front := more[..|more| - 1];
      ResultIsFinal(steps, front, i);
      assert (steps + more)[..|steps + more| - 1] == steps + front;
      NextIsStable(After(Start, steps + front), more[|more| - 1], i);
    }
  }

  /** No caller hangs: when its own deadlines pass, three steps of its own bring it back. */
  lemma CallerReturns(steps: seq<Step>, i: nat)
    requires i < |After(Start, steps).calls| && After(Start, steps).calls[i].sent
    ensures var s := After(Start, steps + [AckWake(i, true), ResponseWake(i, true), Erase(i)]);
            i < |s.calls| && s.calls[i].phase.Returned?
  {
    RunKeepsInv(steps);
    var s := After(Start, steps);
    var a, b, c := AckWake(i, true), ResponseWake(i, true), Erase(i);
    assert CallOk(s.heard, s.calls[i]);
    assert (steps + [a, b, c])[..|steps| + 2] == steps + [a, b] && (steps + [a, b])[..|steps| + 1] == steps + [a]
           && (steps + [a])[..|steps|] == steps;
    var s1 := Next(s, a);
    assert CallOk(s1.heard, s1.calls[i]) by {
      NextKeepsInv(s, a);
    }
    var s2 := Next(s1, b);
    assert After(Start, steps + [a]) == s1;
    assert After(Start, steps + [a, b]) == s2;
    assert s2.calls[i].phase.Leaving? || s2.calls[i].phase.Returned?;
  }
}
