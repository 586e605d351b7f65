/**
  * Connection recovery: RunRecovery and the default reconnect policy. What other threads
  * and the network do is an environment of answers; in particular the stop and force flags may be raised
  * between any two reads, and stay raised.
  */
module Recovery {
  import opened Wire

  // ----- The default policy -----

  const BASE_DELAY := 300
  const MAXIMUM_DELAY := 7000

  /** DefaultReconnectPolicy::NextRetryDelay, in milliseconds. */
  function NextRetryDelay(retry: u32): nat {
    if retry >= 5 then MAXIMUM_DELAY else retry * retry * BASE_DELAY
  }

  function TotalDelay(attempts: nat): nat
    requires attempts < TWO_32
  {
    if attempts == 0 then 0 else TotalDelay(attempts - 1) + NextRetryDelay(attempts - 1)
  }

  /** The delays of n attempts: exactly 9000 + 7000 (n - 5) ms from the fifth on, and never more than that bound. */
  lemma {:induction false} DelaysAreBounded(n: nat)
    requires n < TWO_32
    ensures n >= 5 ==> TotalDelay(n) == 9000 + 7000 * (n - 5)
    ensures TotalDelay(n) <= 9000 + 7000 * Max(0, n - 5)
    ensures n < 5 ==> TotalDelay(n) * 6 == 300 * (n - 1) * n * (2 * n - 1)
  {
    if n > 0 {
      DelaysAreBounded(n - 1);
      if n == 5 {
        assert TotalDelay(4) * 6 == 300 * 3 * 4 * 7;
      }
    }
  }

  // ----- One recovery -----

  /** The policy's answer before an attempt: a delay, nothing (give up), or an exception. */
  datatype PolicyAnswer = Delay(ms: int) | GiveUp | Throws

  datatype Environment = Environment(
    joinRetries: u32,
    url: string,
    stopAt: nat -> bool,        // recovery_stop_ at its k-th read
    forceAt: nat -> bool,       // force_full_reconnect_ at its k-th read
    resumeToken: string,        // access_token_ before the resume
    tokenAt: nat -> string,     // access_token_ before attempt k
    resumes: bool,              // ResumeTransport
    policy: nat -> PolicyAnswer,
    hasRoom: nat -> bool,       // ConnectTransport in attempt k
    rtcConnects: nat -> bool)   // rtc_connected_ within the time-out of attempt k
  {
    /** No full reconnect was asked for, no stop, and the signal connection resumes. */
    predicate MayResume() { !forceAt(0) && !stopAt(0) && url != "" && resumeToken != "" && resumes }

    /** Attempt k joins and connects. */
    predicate Succeeds(k: nat) { hasRoom(k) && rtcConnects(k) }

    /** The policy or the missing address forbids attempt k. */
    predicate NoFurther(k: nat) { !policy(k).Delay? || url == "" || tokenAt(k) == "" }

    /** Flags that are raised stay raised while a recovery runs. */
    ghost predicate Monotone() {
      && (forall k, l :: 0 <= k <= l && stopAt(k) ==> stopAt(l))
      && (forall k, l :: 0 <= k <= l && forceAt(k) ==> forceAt(l))
    }
  }

  /** What RunRecovery calls on the room, in order. */
  datatype Call = CallReconnecting | CallResumed | CallReconnected | CallSignalDisconnected

  predicate IsFinal(c: Call) {
    c.CallResumed? || c.CallReconnected? || c.CallSignalDisconnected?
  }

  /** Calls end with at most one final report and contain no other. */
  predicate OneFinalAtEnd(calls: seq<Call>) {
    forall i :: 0 <= i < |calls| - 1 ==> !IsFinal(calls[i])
  }

  predicate EndsIn(calls: seq<Call>, c: Call) {
    calls != [] && calls[|calls| - 1] == c
  }

  /** A resume is reported alone; a full reconnection is announced first. */
  predicate WellShaped(calls: seq<Call>) {
    || calls == [] || calls == [CallResumed] || calls == [CallReconnecting]
    || calls == [CallReconnecting, CallReconnected] || calls == [CallReconnecting, CallSignalDisconnected]
  }

  function Limit(joinRetries: u32): u32 {
    if joinRetries >= 1 then joinRetries else 1
  }

  /**
    * The recovery thread. It ends after at most max(1, join_retries) full attempts and reports exactly
    * one of resumed, reconnected and disconnected as its last call, or none, and none only if a stop was
    * requested. Reconnected means the last attempt joined and connected; disconnected means none did.
    */
  method RunRecovery(env: Environment)
    returns (calls: seq<Call>, attempts: nat, delays: seq<int>, recoveryAllowed: bool, stopReads: nat)
    requires env.Monotone()
    ensures attempts <= Max(1, env.joinRetries) && attempts <= |delays| <= Max(1, env.joinRetries)
    ensures OneFinalAtEnd(calls) && WellShaped(calls)
    ensures calls == [] || !IsFinal(calls[|calls| - 1]) ==> stopReads > 0 && env.stopAt(stopReads - 1)
    ensures EndsIn(calls, CallResumed) <==> env.MayResume() && !env.forceAt(1)
    ensures EndsIn(calls, CallResumed) ==> calls == [CallResumed] && attempts == 0
    ensures EndsIn(calls, CallReconnected) ==>
              && attempts > 0 && env.Succeeds(attempts - 1)
              && forall k :: 0 <= k < attempts - 1 ==> !env.Succeeds(k)
    ensures EndsIn(calls, CallSignalDisconnected) ==>
              && !recoveryAllowed
              && (forall k :: 0 <= k < attempts ==> !env.Succeeds(k))
              && (attempts == Max(1, env.joinRetries) || env.NoFurther(attempts))
    ensures !EndsIn(calls, CallSignalDisconnected) ==> recoveryAllowed
    ensures forall k :: 0 <= k < |delays| ==> env.policy(k) == Delay(delays[k])
    ensures forall k :: 0 <= k < attempts ==> !env.NoFurther(k)
    ensures calls != [] && IsFinal(calls[|calls| - 1]) ==> stopReads > 0 && !env.stopAt(stopReads - 1)
    ensures !EndsIn(calls, CallResumed) ==> (calls != [] && calls[0] == CallReconnecting <==> !env.stopAt(1))
  {
    calls, attempts, delays, recoveryAllowed, stopReads := [], 0, [], true, 0;
    var limit := Limit(env.joinRetries);
    var stop := env.stopAt(stopReads);
    stopReads := stopReads + 1;
    if !env.forceAt(0) && !stop {
      var recovered := env.url != "" && env.resumeToken != "" && env.resumes;
      if recovered && !env.forceAt(1) {
        calls := [CallResumed];
        return;
      }
    }
    stop := env.stopAt(stopReads);
    stopReads := stopReads + 1;
    if !stop {
      calls := [CallReconnecting];
    }
    var recovered := false;
    var attempt := 0;
    while true
      invariant 0 <= attempt <= limit && attempts == |delays| == attempt && !recovered && stopReads > 0
      invariant calls == [] || calls == [CallReconnecting]
      invariant calls == [] ==> env.stopAt(stopReads - 1)
      invariant forall k :: 0 <= k < |delays| ==> env.policy(k) == Delay(delays[k])
      invariant forall k :: 0 <= k < attempts ==> !env.Succeeds(k) || env.stopAt(stopReads - 1)
      invariant forall k :: 0 <= k < attempts ==> !env.NoFurther(k)
      invariant stopReads >= 2 && (calls == [CallReconnecting] <==> !env.stopAt(1))
      decreases limit - attempt
    {
      if attempt >= limit {
        break;
      }
      stop := env.stopAt(stopReads);
      stopReads := stopReads + 1;
      if stop {
        break;
      }
      var answer := env.policy(attempt);
      if !answer.Delay? {
        break;
      }
      delays := delays + [answer.ms];
      if answer.ms > 0 {
        stop := env.stopAt(stopReads);
        stopReads := stopReads + 1;
        if stop {
          break;
        }
      }
      if env.url == "" || env.tokenAt(attempt) == "" {
        break;
      }
      attempts := attempts + 1;
      if env.hasRoom(attempt) {
        stop := env.stopAt(stopReads);
        stopReads := stopReads + 1;
        recovered := env.rtcConnects(attempt) && !stop;
      }
      if recovered {
        break;
      }
      attempt := attempt + 1;
    }
    if recovered {
      calls := calls + [CallReconnected];
      return;
    }
    stop := env.stopAt(stopReads);
    stopReads := stopReads + 1;
    if !stop {
      recoveryAllowed := false;
      calls := calls + [CallSignalDisconnected];
    }
  }

  function Sum(delays: seq<int>): int {
    if delays == [] then 0 else Sum(delays[..|delays| - 1]) + delays[|delays| - 1]
  }

  /** The delays that RunRecovery waited, when the policy is the default one. */
  lemma {:induction false} DefaultPolicyDelays(env: Environment, delays: seq<int>)
    requires |delays| <= Limit(env.joinRetries) && forall k :: 0 <= k < |delays| ==> env.policy(k) == Delay(delays[k])
    requires forall k: nat :: k < TWO_32 ==> env.policy(k) == Delay(NextRetryDelay(k))
    ensures Sum(delays) == TotalDelay(|delays|)
    ensures Sum(delays) <= 9000 + 7000 * Max(0, |delays| - 5)
  {
    if delays != [] {
      DefaultPolicyDelays(env, delays[..|delays| - 1]);
    }
    DelaysAreBounded(|delays|);
  }
}
