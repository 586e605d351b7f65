/** Every result of a call has its cause among the steps of the run, and a response that is first is the result. */
module RpcCauses {
  import opened Wire
  import opened Rpc

  // ----- From a result to its cause -----

  /** A response with the call's id arrived, from its destination or unnamed, and this is what it carried. */
  ghost predicate ByResponse(steps: seq<Step>, c: Call, res: Result) {
    exists r :: ResponseArrives(r) in steps && Meant(r, c) && Carries(r.reply, res)
  }

  predicate Meant(r: Response, c: Call) { r.requestId == c.requestId && (r.sender == "" || r.sender == c.destination) }

  /** A payload is a success, an error is the remote failure with its code, message and data. */
  predicate Carries(reply: Reply, res: Result) {
    || (reply.Payload? && res == Success(reply.payload))
    || (reply.Error? && res == Failure(Remote(reply.code, reply.message, reply.data)))
  }

  /** All calls, or those to the call's destination, were cancelled with this code. */
  ghost predicate ByCancellation(steps: seq<Step>, c: Call, res: Result) {
    exists identity: Option<string>, code: OwnCode :: CancelCollects(identity, code) in steps && Covers(identity, c) && res == Failure(code)
  }

  predicate Covers(identity: Option<string>, c: Call) { identity.None? || identity.value == c.destination }

  /** One of the caller's own waits ran out. */
  predicate ByTimeOut(steps: seq<Step>, i: nat, res: Result) {
    || (res == Failure(ConnectionTimeout) && AckWake(i, true) in steps)
    || (res == Failure(ResponseTimeout) && ResponseWake(i, true) in steps)
  }

  ghost predicate Caused(steps: seq<Step>, i: nat, c: Call) {
    && Register(c.requestId, c.destination) in steps
    && (c.result.Some? ==>
          ByResponse(steps, c, c.result.value) || ByCancellation(steps, c, c.result.value) || ByTimeOut(steps, i, c.result.value))
  }

  ghost predicate TaskCaused(steps: seq<Step>, calls: seq<Call>, t: Task) {
    match t
    case AckTask(_) => true
    case ResponseTask(i, r) => i < |calls| && ResponseArrives(r) in steps && Meant(r, calls[i])
    case CancelTask(js, code) => forall j :: j in js ==> j < |calls| && ByCancellation(steps, calls[j], Failure(code))
  }

  ghost predicate AllCaused(steps: seq<Step>, s: State) {
    && (forall i :: 0 <= i < |s.calls| ==> Caused(steps, i, s.calls[i]))
    && (forall t :: t in s.tasks ==> TaskCaused(steps, s.calls, t))
  }

  lemma CausedMore(steps: seq<Step>, step: Step, i: nat, c: Call)
    requires Caused(steps, i, c)
    ensures Caused(steps + [step], i, c)
  {
    if c.result.Some? {
      if ByResponse(steps, c, c.result.value) {
        var r :| ResponseArrives(r) in steps && Meant(r, c) && Carries(r.reply, c.result.value);
        assert ResponseArrives(r) in steps + [step];
      } else if ByCancellation(steps, c, c.result.value) {
        CancelledMore(steps, step, c, c.result.value);
      }
    }
  }

  lemma CancelledMore(steps: seq<Step>, step: Step, c: Call, res: Result)
    requires ByCancellation(steps, c, res)
    ensures ByCancellation(steps + [step], c, res)
  {
    var identity: Option<string>, code: OwnCode :| CancelCollects(identity, code) in steps && Covers(identity, c) && res == Failure(code);
    assert CancelCollects(identity, code) in steps + [step];
  }

  /** Causes stay causes as the run goes on and calls keep their identity. */
  lemma SameCancelled(steps: seq<Step>, c: Call, c': Call, res: Result)
    requires ByCancellation(steps, c, res) && SameCall(c, c')
    ensures ByCancellation(steps, c', res)
  {
    var identity: Option<string>, code: OwnCode :| CancelCollects(identity, code) in steps && Covers(identity, c) && res == Failure(code);
    assert Covers(identity, c');
  }

  lemma CallStaysCaused(steps: seq<Step>, step: Step, i: nat, c: Call, c': Call)
    requires Caused(steps, i, c) && SameCall(c, c') && c'.result == c.result
    ensures Caused(steps + [step], i, c')
  {
    CausedMore(steps, step, i, c);
    var all := steps + [step];
    if c.result.Some? {
      if ByResponse(all, c, c.result.value) {
        var r :| ResponseArrives(r) in all && Meant(r, c) && Carries(r.reply, c.result.value);
        assert Meant(r, c');
      } else if ByCancellation(all, c, c.result.value) {
        SameCancelled(all, c, c', c.result.value);
      }
    }
  }

  lemma TaskStaysCaused(steps: seq<Step>, step: Step, calls: seq<Call>, more: seq<Call>, t: Task)
    requires TaskCaused(steps, calls, t) && |calls| <= |more|
    requires forall i :: 0 <= i < |calls| ==> SameCall(calls[i], more[i])
    ensures TaskCaused(steps + [step], more, t)
  {
    if t.CancelTask? {
      forall j | j in t.calls ensures j < |more| && ByCancellation(steps + [step], more[j], Failure(t.code)) {
        CancelledMore(steps, step, calls[j], Failure(t.code));
        SameCancelled(steps + [step], calls[j], more[j], Failure(t.code));
      }
    }
  }

  /** A call changed by a step was completed by its cause. */
  lemma CallStep(steps: seq<Step>, s: State, step: Step, i: nat)
    requires Inv(s) && AllCaused(steps, s) && i < |s.calls|
    ensures i < |Next(s, step).calls| && SameCall(s.calls[i], Next(s, step).calls[i])
    ensures Caused(steps + [step], i, Next(s, step).calls[i])
  {
    NextIsStable(s, step, i);
    var c, c', all := s.calls[i], Next(s, step).calls[i], steps + [step];
    assert CallOk(s.heard, c) && Caused(steps, i, c);
    assert step in all;
    if c'.result == c.result {
      CallStaysCaused(steps, step, i, c, c');
    } else {
      assert Register(c.requestId, c.destination) in all;
      Completed(steps, s, step, i);
    }
  }

  lemma Completed(steps: seq<Step>, s: State, step: Step, i: nat)
    requires Inv(s) && AllCaused(steps, s) && i < |s.calls| && i < |Next(s, step).calls|
    requires SameCall(s.calls[i], Next(s, step).calls[i]) && Next(s, step).calls[i].result != s.calls[i].result
    ensures var c, all := Next(s, step).calls[i], steps + [step];
            c.result.Some? && (ByResponse(all, c, c.result.value) || ByCancellation(all, c, c.result.value) || ByTimeOut(all, i, c.result.value))
  {
    var c, all := Next(s, step).calls[i], steps + [step];
    assert step in all && CallOk(s.heard, s.calls[i]);
    if step.TaskRuns? {
      var t := s.tasks[step.task];
      assert t in s.tasks && TaskCaused(steps, s.calls, t);
      if t.ResponseTask? {
        assert ResponseArrives(t.response) in all && Meant(t.response, c) && Carries(t.response.reply, c.result.value);
      } else {
        CancelledMore(steps, step, s.calls[i], Failure(t.code));
        SameCancelled(all, s.calls[i], c, Failure(t.code));
      }
    }
  }

  lemma NewTask(steps: seq<Step>, s: State, step: Step, t: Task)
    requires Inv(s) && AllCaused(steps, s) && t in Next(s, step).tasks
    ensures TaskCaused(steps + [step], s.calls, t) || (t in s.tasks)
  {
    var all := steps + [step];
    assert step in all;
    if t !in s.tasks {
      if step.ResponseArrives? {
        assert PendingOk(s, step.response.requestId);
      } else if step.CancelCollects? {
        forall j | t.CancelTask? && j in t.calls ensures j < |s.calls| && ByCancellation(all, s.calls[j], Failure(t.code)) {
          var id :| id in s.pending && Matches(s, id, step.identity) && s.pending[id] == j;
          assert CancelCollects(step.identity, step.code) in all && Covers(step.identity, s.calls[j]);
        }
      } else if step.TaskRuns? {
        var was := s.tasks[step.task];
        assert was in s.tasks && TaskCaused(steps, s.calls, was);
        TaskStaysCaused(steps, step, s.calls, s.calls, was);
      }
    }
  }

  lemma StepCauses(steps: seq<Step>, s: State, step: Step)
    requires Inv(s) && AllCaused(steps, s)
    ensures AllCaused(steps + [step], Next(s, step))
  {
    var next, all := Next(s, step), steps + [step];
    forall i | 0 <= i < |s.calls| ensures i < |next.calls| && SameCall(s.calls[i], next.calls[i]) && Caused(all, i, next.calls[i]) {
      CallStep(steps, s, step, i);
    }
    forall i | |s.calls| <= i < |next.calls| ensures Caused(all, i, next.calls[i]) {
      assert step in all;
    }
    forall t | t in next.tasks ensures TaskCaused(all, next.calls, t) {
      NewTask(steps, s, step, t);
      if t in s.tasks {
        TaskStaysCaused(steps, step, s.calls, next.calls, t);
      } else {
        SameTask(all, s.calls, next.calls, t);
      }
    }
  }

  lemma SameTask(steps: seq<Step>, calls: seq<Call>, more: seq<Call>, t: Task)
    requires TaskCaused(steps, calls, t) && |calls| <= |more|
    requires forall i :: 0 <= i < |calls| ==> SameCall(calls[i], more[i])
    ensures TaskCaused(steps, more, t)
  {
    if t.CancelTask? {
      forall j | j in t.calls ensures j < |more| && ByCancellation(steps, more[j], Failure(t.code)) {
        SameCancelled(steps, calls[j], more[j], Failure(t.code));
      }
    }
  }

  lemma {:induction false} RunIsCaused(steps: seq<Step>)
    ensures AllCaused(steps, After(Start, steps))
  {
    if steps != [] {
      var before := steps[..|steps| - 1];
      RunIsCaused(before);
      RunKeepsInv(before);
      StepCauses(before, After(Start, before), steps[|steps| - 1]);
      assert before + [steps[|steps| - 1]] == steps;
    }
  }

  /**
    * Every result has its cause: in every run a result that is written is what a response to this call
    * carried, or the code of a cancellation that covers its destination, or a time-out of its own wait.
    * So a success and a remote error come only from a response.
    */
  lemma ResultHasCause(steps: seq<Step>, i: nat)
    requires i < |After(Start, steps).calls|
    ensures var c := After(Start, steps).calls[i];
            && Register(c.requestId, c.destination) in steps
            && (c.result.Some? ==>
                  ByResponse(steps, c, c.result.value) || ByCancellation(steps, c, c.result.value) || ByTimeOut(steps, i, c.result.value))
            && (c.result.Some? && (c.result.value.Success? || c.result.value.code.Remote?) ==> ByResponse(steps, c, c.result.value))
  {
    RunIsCaused(steps);
  }

  // ----- From a cause to the result -----

  lemma Snoc(steps: seq<Step>, step: Step)
    ensures After(Start, steps + [step]) == Next(After(Start, steps), step)
  {
    assert (steps + [step])[..|steps|] == steps;
  }

  /** A call that waits for its caller's sake: sent, and without a result. */
  predicate Open(s: State, i: nat) {
    i < |s.calls| && s.calls[i].sent && !s.calls[i].completed && (s.calls[i].phase == AwaitingAck || s.calls[i].phase == AwaitingResponse)
  }

  predicate PendingAs(s: State, id: string, i: nat) { id in s.pending && s.pending[id] == i && i < |s.calls| }

  /** A call under a new id is pending from its registration on ... */
  lemma RegistersAsPending(steps: seq<Step>, id: string, destination: string)
    requires id !in After(Start, steps).pending
    ensures var i, s := |After(Start, steps).calls|, After(Start, steps + [Register(id, destination)] + [SendSucceeds(|After(Start, steps).calls|)]);
            PendingAs(s, id, i) && Open(s, i) && s.calls[i].requestId == id && s.calls[i].destination == destination
  {
    Snoc(steps, Register(id, destination));
    Snoc(steps + [Register(id, destination)], SendSucceeds(|After(Start, steps).calls|));
  }

  /** ... and stays so until a call of its id fails to be sent, it is cancelled, or it returns. */
  lemma StaysPending(steps: seq<Step>, step: Step, id: string, i: nat)
    requires PendingAs(After(Start, steps), id, i) && step != Erase(i)
    requires var calls := After(Start, steps).calls;
             && (step.SendFails? && step.call < |calls| ==> calls[step.call].requestId != id)
             && (step.CancelCollects? ==> !Covers(step.identity, calls[i]))
    ensures PendingAs(After(Start, steps + [step]), id, i)
  {
    Snoc(steps, step);
    NextIsStable(After(Start, steps), step, i);
  }

  /** The response to a pending call is handed to it, and is its result if it is the first to reach it. */
  lemma ResponseCompletes(steps: seq<Step>, r: Response, i: nat)
    requires PendingAs(After(Start, steps), r.requestId, i) && Open(After(Start, steps), i) && Meant(r, After(Start, steps).calls[i])
    ensures var s := After(Start, steps + [ResponseArrives(r)] + [TaskRuns(|After(Start, steps).tasks|, i)]);
            && i < |s.calls| && s.calls[i].completed && s.calls[i].result.Some? && Carries(r.reply, s.calls[i].result.value)
            && s.calls[i].sent && s.calls[i].acknowledged && s.calls[i].phase == After(Start, steps).calls[i].phase
  {
    var s := After(Start, steps);
    Snoc(steps, ResponseArrives(r));
    var t := After(Start, steps + [ResponseArrives(r)]);
    assert t.tasks == s.tasks + [ResponseTask(i, r)] && t.calls == s.calls;
    Snoc(steps + [ResponseArrives(r)], TaskRuns(|s.tasks|, i));
  }

  /** Whatever happens then, a caller that returns does so with that result. */
  lemma FirstResponseIsReturned(steps: seq<Step>, k: nat, i: nat, more: seq<Step>)
    requires var s := After(Start, steps); Open(s, i) && k < |s.tasks| && s.tasks[k].ResponseTask? && s.tasks[k].call == i
    ensures var s := After(Start, steps + [TaskRuns(k, i)] + more);
            i < |s.calls| && (s.calls[i].phase.Returned? ==> Carries(After(Start, steps).tasks[k].response.reply, s.calls[i].phase.result))
  {
    var done := steps + [TaskRuns(k, i)];
    Snoc(steps, TaskRuns(k, i));
    ResultIsFinal(done, more, i);
    SingleCompletion(done + more, i);
    SentStays(done, more, i);
  }

  lemma {:induction false} SentStays(steps: seq<Step>, more: seq<Step>, i: nat)
    requires i < |After(Start, steps).calls| && After(Start, steps).calls[i].sent
    ensures i < |After(Start, steps + more).calls| && After(Start, steps + more).calls[i].sent
    decreases |more|
  {
    if more == [] {
      assert steps + more == steps;
    } else {
      var front := more[..|more| - 1];
      SentStays(steps, front, i);
      Snoc(steps + front, more[|more| - 1]);
      assert steps + front + [more[|more| - 1]] == steps + more;
      StepSent(After(Start, steps + front), more[|more| - 1], i);
    }
  }

  lemma StepSent(s: State, step: Step, i: nat)
    requires i < |s.calls| && s.calls[i].sent
    ensures i < |Next(s, step).calls| && Next(s, step).calls[i].sent
  {
  }

  /** A whole call, from any state of a run: registered under a new id, sent, answered; it returns the answer. */
  lemma CallIsAnswered(steps: seq<Step>, id: string, destination: string, r: Response)
    requires id !in After(Start, steps).pending && r.requestId == id && (r.sender == "" || r.sender == destination)
    ensures var i, k := |After(Start, steps).calls|, |After(Start, steps).tasks|;
            var s := After(Start, steps + [Register(id, destination)] + [SendSucceeds(i)] + [ResponseArrives(r)] + [TaskRuns(k, i)]
                                  + [AckWake(i, false)] + [ResponseWake(i, false)] + [Erase(i)]);
            i < |s.calls| && s.calls[i].phase.Returned? && Carries(r.reply, s.calls[i].phase.result) && id !in s.pending
  {
    var i, k := |After(Start, steps).calls|, |After(Start, steps).tasks|;
    RegistersAsPending(steps, id, destination);
    var sent := steps + [Register(id, destination)] + [SendSucceeds(i)];
    TasksAlone(steps, id, destination, i);
    ResponseCompletes(sent, r, i);
    var done := sent + [ResponseArrives(r)] + [TaskRuns(k, i)];
    Snoc(sent, ResponseArrives(r));
    Snoc(sent + [ResponseArrives(r)], TaskRuns(k, i));
    assert PendingAs(After(Start, done), id, i);
    CompletedReturns(done, id, i);
  }

  /** A caller that waits for its acknowledgement and finds a result returns it. */
  lemma CompletedReturns(steps: seq<Step>, id: string, i: nat)
    requires var s := After(Start, steps);
             && PendingAs(s, id, i) && s.calls[i].requestId == id && s.calls[i].completed && s.calls[i].result.Some?
             && s.calls[i].phase == AwaitingAck
    ensures var s := After(Start, steps + [AckWake(i, false)] + [ResponseWake(i, false)] + [Erase(i)]);
            i < |s.calls| && s.calls[i].phase == Returned(After(Start, steps).calls[i].result.value) && id !in s.pending
  {
    Snoc(steps, AckWake(i, false));
    var woken := steps + [AckWake(i, false)];
    assert After(Start, woken).calls[i].phase == Leaving(After(Start, steps).calls[i].result.value);
    Snoc(woken, ResponseWake(i, false));
    Snoc(woken + [ResponseWake(i, false)], Erase(i));
  }

  lemma TasksAlone(steps: seq<Step>, id: string, destination: string, i: nat)
    requires i == |After(Start, steps).calls|
    ensures var s := After(Start, steps + [Register(id, destination)] + [SendSucceeds(i)]);
            s.tasks == After(Start, steps).tasks && i < |s.calls| && s.calls[i].phase == AwaitingAck
  {
    Snoc(steps, Register(id, destination));
    Snoc(steps + [Register(id, destination)], SendSucceeds(i));
  }

  /** An acknowledgement keeps the first wait from timing out. */
  lemma AcknowledgedWaitsOn(steps: seq<Step>, id: string, sender: string, i: nat, timedOut: bool)
    requires var s := After(Start, steps); PendingAs(s, id, i) && Open(s, i) && s.calls[i].phase == AwaitingAck
    requires sender == "" || sender == After(Start, steps).calls[i].destination
    ensures var s := After(Start, steps + [AckArrives(id, sender)] + [TaskRuns(|After(Start, steps).tasks|, i)] + [AckWake(i, timedOut)]);
            Open(s, i) && s.calls[i].phase == AwaitingResponse
  {
    var s := After(Start, steps);
    Snoc(steps, AckArrives(id, sender));
    var a := steps + [AckArrives(id, sender)];
    assert After(Start, a).tasks == s.tasks + [AckTask(i)] && After(Start, a).calls == s.calls;
    Snoc(a, TaskRuns(|s.tasks|, i));
    Snoc(a + [TaskRuns(|s.tasks|, i)], AckWake(i, timedOut));
  }

  /** A wait that runs out and a cancellation complete an open call with their code. */
  lemma OpenCallFails(steps: seq<Step>, i: nat)
    requires Open(After(Start, steps), i)
    ensures var c := After(Start, steps).calls[i];
            && (c.phase == AwaitingAck && !c.acknowledged ==>
                  After(Start, steps + [AckWake(i, true)]).calls[i].result == Some(Failure(ConnectionTimeout)))
            && (c.phase == AwaitingResponse ==>
                  After(Start, steps + [ResponseWake(i, true)]).calls[i].result == Some(Failure(ResponseTimeout)))
  {
    Snoc(steps, AckWake(i, true));
    Snoc(steps, ResponseWake(i, true));
  }

  lemma CancelledCallFails(steps: seq<Step>, id: string, i: nat, identity: Option<string>, code: OwnCode)
    requires var s := After(Start, steps); PendingAs(s, id, i) && Open(s, i) && Covers(identity, s.calls[i])
    ensures var s := After(Start, steps + [CancelCollects(identity, code)] + [TaskRuns(|After(Start, steps).tasks|, i)]);
            i < |s.calls| && s.calls[i].result == Some(Failure(code)) && id !in s.pending
  {
    var s := After(Start, steps);
    Snoc(steps, CancelCollects(identity, code));
    var a := steps + [CancelCollects(identity, code)];
    var t := After(Start, a);
    assert Matches(s, id, identity);
    assert t.calls == s.calls && |t.tasks| == |s.tasks| + 1 && t.tasks[|s.tasks|].CancelTask? && i in t.tasks[|s.tasks|].calls;
    Snoc(a, TaskRuns(|s.tasks|, i));
  }
}
