/**
  * Publisher negotiation: while an offer is outstanding, further requests are remembered in two flags and
  * served together by one offer when the answer arrives.
  */
module Negotiation {
  import opened Wire
  import opened Machines

  /** publisher_negotiation_in_flight_, publisher_negotiation_pending_, publisher_ice_restart_pending_. */
  datatype Flags = Flags(inFlight: bool, pending: bool, icePending: bool)

  const Idle := Flags(false, false, false)

  /** What a call does: the new flags, the offer that it starts (with or without ICE restart), its result. */
  datatype Effect = Effect(flags: Flags, offer: Option<bool>, accepted: bool)

  /** `works` is the result of PeerTransport::Negotiate, should it be called. */
  function Asking(f: Flags, ice: bool, works: bool): Effect {
    if f.inFlight then Effect(f.(pending := true, icePending := f.icePending || ice), None, true)
    else if works then Effect(f.(inFlight := true), Some(ice), true)
    else Effect(f, None, false)
  }

  function Answering(f: Flags, works: bool): Effect {
    if f.pending then Asking(Idle, f.icePending, works) else Effect(Idle, None, true)
  }

  class RtcSession {
    var inFlight: bool
    var pending: bool
    var icePending: bool
    var publisherRequired: bool
    var hasPublished: bool

    ghost function Current(): Flags
      reads this
    {
      Flags(inFlight, pending, icePending)
    }

    method RequestPublisherNegotiation(ice: bool, works: bool) returns (accepted: bool, offer: Option<bool>)
      modifies this`inFlight, this`pending, this`icePending
      ensures Effect(Current(), offer, accepted) == Asking(old(Current()), ice, works)
    {
      if inFlight {
        pending := true;
        icePending := icePending || ice;
        return true, None;
      }
      inFlight := true;
      if works {
        return true, Some(ice);
      }
      inFlight := false;
      return false, None;
    }

    method PublisherNegotiationCompleted(works: bool) returns (offer: Option<bool>)
      modifies this`inFlight, this`pending, this`icePending
      ensures var effect := Answering(old(Current()), works);
              Current() == effect.flags && offer == effect.offer
    {
      inFlight := false;
      var again, ice := pending, icePending;
      pending := false;
      icePending := false;
      offer := None;
      if again {
        var accepted;
        accepted, offer := RequestPublisherNegotiation(ice, works);
      }
    }

    method PublisherNegotiationNeeded(works: bool) returns (accepted: bool, offer: Option<bool>)
      modifies this`inFlight, this`pending, this`icePending, this`hasPublished
      ensures hasPublished && Effect(Current(), offer, accepted) == Asking(old(Current()), false, works)
    {
      hasPublished := true;
      accepted, offer := RequestPublisherNegotiation(false, works);
    }

    /** Nothing is asked for while there is no publisher connection to restart. */
    method RestartPublisherIce(works: bool) returns (accepted: bool, offer: Option<bool>)
      modifies this`inFlight, this`pending, this`icePending
      ensures publisherRequired || hasPublished ==>
                Effect(Current(), offer, accepted) == Asking(old(Current()), true, works)
      ensures !publisherRequired && !hasPublished ==>
                Current() == old(Current()) && offer == None && accepted
    {
      if !publisherRequired && !hasPublished {
        return true, None;
      }
      accepted, offer := RequestPublisherNegotiation(true, works);
    }
  }

  // ----- Runs, with the history of requests and offers -----

  datatype Step = Request(ice: bool, works: bool) | Answer(works: bool)

  /** A request that was made after `at` offers had been started. */
  datatype Ask = Ask(ice: bool, accepted: bool, at: nat)

  /** `offers` says of each offer whether it restarts ICE; `dropped` are the requests given up on a failed offer. */
  datatype State = State(flags: Flags, offers: seq<bool>, answers: nat, asks: seq<Ask>, dropped: set<nat>)
  {
    predicate Live(i: nat) { i < |asks| && asks[i].accepted && i !in dropped }

    /** Still to be served by the next offer. */
    predicate Waits(i: nat) { Live(i) && asks[i].at == |offers| }

    /** An offer that started at or after the request covers it. */
    ghost predicate Covered(i: nat) { exists j: nat :: Covers(j, i) }

    predicate Covers(j: nat, i: nat) {
      i < |asks| && asks[i].at <= j < |offers| && (asks[i].ice ==> offers[j])
    }

    predicate Quiet() { !flags.inFlight }
  }

  const Start := State(Idle, [], 0, [], {})

  function Started(offers: seq<bool>, offer: Option<bool>): seq<bool> {
    if offer.Some? then offers + [offer.value] else offers
  }

  function Next(s: State, step: Step): State {
    match step
    case Request(ice, works) =>
      var effect := Asking(s.flags, ice, works);
      s.(flags := effect.flags, offers := Started(s.offers, effect.offer),
         asks := s.asks + [Ask(ice, effect.accepted, |s.offers|)])
    case Answer(works) =>
      var effect := Answering(s.flags, works);
      s.(flags := effect.flags, offers := Started(s.offers, effect.offer), answers := s.answers + 1,
         dropped := if effect.accepted then s.dropped else s.dropped + set i | 0 <= i < |s.asks| && s.Waits(i))
  }

  function After(steps: seq<Step>): State {
    Reach(Next, Start, steps)
  }

  /** The server answers each offer once, after it was started. */
  predicate Legal(steps: seq<Step>) {
    steps == [] ||
    var before, step := steps[..|steps| - 1], steps[|steps| - 1];
    Legal(before) && (step.Answer? ==> After(before).answers < |After(before).offers|)
  }

  predicate AllOffersWork(steps: seq<Step>) {
    forall i :: 0 <= i < |steps| && steps[i].Answer? ==> steps[i].works
  }

  /** Some live request was made just before offer j, asking for an ICE restart if `ice`. */
  ghost predicate AskedAt(s: State, j: nat, ice: bool) {
    exists i: nat :: s.Live(i) && s.asks[i].at == j && (ice ==> s.asks[i].ice)
  }

  ghost predicate Inv(s: State) {
    && (s.flags.pending ==> s.flags.inFlight) && (s.flags.icePending ==> s.flags.pending)
    && |s.offers| == s.answers + (if s.flags.inFlight then 1 else 0)
    && (forall i: nat :: s.Live(i) ==> s.asks[i].at <= |s.offers|)
    && (s.flags.pending <==> AskedAt(s, |s.offers|, false))
    && (s.flags.icePending <==> AskedAt(s, |s.offers|, true))
    && (forall j :: 0 <= j < |s.offers| ==> AskedAt(s, j, false) && (s.offers[j] <==> AskedAt(s, j, true)))
    && (forall i :: i in s.dropped ==> i < |s.asks|)
  }

  lemma AskedAtSame(s: State, t: State, j: nat, ice: bool)
    requires forall i: nat :: s.Live(i) && s.asks[i].at == j && (ice ==> s.asks[i].ice) ==> t.Live(i) && t.asks[i] == s.asks[i]
    ensures AskedAt(s, j, ice) ==> AskedAt(t, j, ice)
  {
  }

  lemma RequestKeepsInv(s: State, step: Step)
    requires Inv(s) && step.Request?
    ensures Inv(Next(s, step))
  {
    var t := Next(s, step);
    var last := |s.asks|;
    assert t.Live(last) <==> t.asks[last].accepted;
    assert forall i :: 0 <= i < last ==> t.asks[i] == s.asks[i] && (t.Live(i) <==> s.Live(i));
    forall j: nat, ice | j < |s.offers| || (j == |s.offers| && !(t.Live(last) && (ice ==> step.ice)))
      ensures AskedAt(s, j, ice) <==> AskedAt(t, j, ice)
    {
      AskedAtSame(s, t, j, ice);
      AskedAtSame(t, s, j, ice);
    }
  }

  lemma AnswerKeepsInv(s: State, step: Step)
    requires Inv(s) && step.Answer? && s.answers < |s.offers|
    ensures Inv(Next(s, step))
  {
    var t := Next(s, step);
    assert forall i: nat :: t.Live(i) <==> s.Live(i) && (s.Waits(i) && s.flags.pending ==> step.works);
    forall j: nat, ice | j < |s.offers| || (j == |s.offers| && (s.flags.pending ==> step.works))
      ensures AskedAt(s, j, ice) <==> AskedAt(t, j, ice)
    {
      AskedAtSame(s, t, j, ice);
      AskedAtSame(t, s, j, ice);
    }
  }

  lemma {:induction false} RunKeepsInv(steps: seq<Step>)
    requires Legal(steps)
    ensures Inv(After(steps))
  {
    if steps != [] {
      var before, step := steps[..|steps| - 1], steps[|steps| - 1];
      RunKeepsInv(before);
      if step.Request? {
        RequestKeepsInv(After(before), step);
      } else {
        AnswerKeepsInv(After(before), step);
      }
    }
  }

  /** At most one offer is outstanding, exactly while the flag says so, and requests wait only behind an offer. */
  lemma OneOfferOutstanding(steps: seq<Step>)
    requires Legal(steps)
    ensures var s := After(steps);
            && |s.offers| == s.answers + (if s.flags.inFlight then 1 else 0)
            && (s.flags.pending ==> s.flags.inFlight)
            && (s.flags.pending <==> exists i: nat :: s.Waits(i))
            && (s.flags.icePending <==> exists i: nat :: s.Waits(i) && s.asks[i].ice)
  {
    RunKeepsInv(steps);
    var s := After(steps);
    assert forall i: nat :: s.Waits(i) <==> s.Live(i) && s.asks[i].at == |s.offers|;
  }

  /** No offer is made for nothing, and one restarts ICE exactly when a request it serves asked for that. */
  lemma OffersServeRequests(steps: seq<Step>, j: nat)
    requires Legal(steps) && j < |After(steps).offers|
    ensures AskedAt(After(steps), j, false)
    ensures After(steps).offers[j] <==> AskedAt(After(steps), j, true)
  {
    RunKeepsInv(steps);
  }

  lemma {:induction false} NothingDropped(steps: seq<Step>)
    requires AllOffersWork(steps)
    ensures After(steps).dropped == {}
  {
    if steps != [] {
      NothingDropped(steps[..|steps| - 1]);
    }
  }

  lemma LiveIsCovered(s: State, i: nat)
    requires Inv(s) && s.Live(i)
    ensures s.Covered(i) <==> !s.Waits(i)
  {
    var j := s.asks[i].at;
    if j < |s.offers| {
      assert s.asks[i].ice ==> AskedAt(s, j, true);
      assert s.Covers(j, i);
    }
  }

  /**
    * Every accepted request that was not dropped is covered by an offer started at or after it, or waits
    * behind an outstanding one; when no offer is outstanding, all are covered. If no offer fails at an
    * answer, none is dropped.
    */
  lemma RequestsAreCovered(steps: seq<Step>, i: nat)
    requires Legal(steps) && i < |After(steps).asks| && After(steps).asks[i].accepted
    ensures var s := After(steps);
            i !in s.dropped ==> s.Covered(i) || (s.flags.inFlight && s.flags.pending && s.Waits(i))
    ensures AllOffersWork(steps) && After(steps).Quiet() ==> After(steps).Covered(i)
  {
    RunKeepsInv(steps);
    var s := After(steps);
    if s.Live(i) {
      LiveIsCovered(s, i);
      if s.Waits(i) {
        assert AskedAt(s, |s.offers|, false);
      }
    }
    if AllOffersWork(steps) {
      NothingDropped(steps);
    }
  }

  /** A request that was covered or waiting is neither any more. */
  ghost predicate Loses(s: State, t: State) {
    exists i: nat :: s.Live(i) && !t.Covered(i) && !t.Waits(i)
  }

  /** A step loses a request exactly when it is an answer with requests waiting and the offer for them fails. */
  lemma WhenRequestsAreLost(steps: seq<Step>, step: Step)
    requires Legal(steps + [step])
    ensures Loses(After(steps), Next(After(steps), step)) <==> step.Answer? && After(steps).flags.pending && !step.works
  {
    var s, t := After(steps), Next(After(steps), step);
    assert (steps + [step])[..|steps|] == steps;
    RunKeepsInv(steps);
    RunKeepsInv(steps + [step]);
    if step.Answer? && s.flags.pending && !step.works {
      assert AskedAt(s, |s.offers|, false);
      var i: nat :| s.Live(i) && s.asks[i].at == |s.offers|;
      assert s.Waits(i) && !t.Covered(i) && !t.Waits(i);
    } else {
      forall i: nat | s.Live(i) ensures t.Covered(i) || t.Waits(i) {
        assert t.Live(i);
        LiveIsCovered(t, i);
      }
    }
  }

  /** A run that loses one: a second request asks for an ICE restart, and the offer for it fails at the answer. */
  lemma LostRequest()
    ensures var steps := [Request(false, true)] + [Request(true, true)];
            && Legal(steps + [Answer(false)]) && Loses(After(steps), After(steps + [Answer(false)]))
            && After(steps + [Answer(false)]).flags == Idle
  {
    var one := [Request(false, true)];
    var two := one + [Request(true, true)];
    var all := two + [Answer(false)];
    assert one[..0] == [] && two[..1] == one && all[..2] == two;
    assert After(one).flags == Flags(true, false, false) && After(one).offers == [false];
    assert After(two).flags == Flags(true, true, true) && After(two).offers == [false];
    WhenRequestsAreLost(two, Answer(false));
  }

  /**
    * What a request must lead to: behind an outstanding offer it is accepted and no offer starts; otherwise an
    * offer starts for it alone, and it is accepted, exactly when the offer works.
    */
  lemma RequestAnswers(steps: seq<Step>, ice: bool, works: bool)
    requires Legal(steps)
    ensures var s, t := After(steps), After(steps + [Request(ice, works)]);
            && |t.asks| == |s.asks| + 1 && t.asks[|s.asks|].ice == ice && t.asks[|s.asks|].at == |s.offers|
            && (t.asks[|s.asks|].accepted <==> s.answers < |s.offers| || works)
            && t.offers == (if s.answers == |s.offers| && works then s.offers + [ice] else s.offers)
  {
    RunKeepsInv(steps);
    assert (steps + [Request(ice, works)])[..|steps|] == steps;
  }

  /** What an answer must lead to: a new offer exactly when requests wait and it works, with ICE restart if one of them asked. */
  lemma AnswerAnswers(steps: seq<Step>, works: bool)
    requires Legal(steps + [Answer(works)])
    ensures var s, t := After(steps), After(steps + [Answer(works)]);
            var waiting := exists i: nat :: s.Waits(i);
            var restart := exists i: nat :: s.Waits(i) && s.asks[i].ice;
            && t.answers == s.answers + 1 && t.asks == s.asks
            && t.offers == if waiting && works then s.offers + [restart] else s.offers
  {
    assert (steps + [Answer(works)])[..|steps|] == steps;
    OneOfferOutstanding(steps);
  }
}
