/** When the events of a batch, and of a run, replay to the new registry: a condition on the infos. */
module RegistryReturns {
  import opened Machines
  import opened Registry
  import opened RegistryFold
  import opened RegistryReplay

  /** Some info makes the participant leave. */
  predicate Leaves(reg: Registry, infos: seq<ParticipantInfo>, id: string) {
    exists k :: 0 <= k < |infos| && LeavesAt(reg, infos, id, k)
  }

  /** Some info makes the publication go. */
  predicate Withdraws(reg: Registry, infos: seq<ParticipantInfo>, id: string, t: string) {
    exists k :: 0 <= k < |infos| && WithdrawsAt(reg, infos, id, t, k)
  }

  /** It leaves and is there at the end. */
  predicate ComesBack(reg: Registry, infos: seq<ParticipantInfo>, id: string) {
    Leaves(reg, infos, id) && HereAt(reg, infos, id, |infos|)
  }

  predicate PublishedAgain(reg: Registry, infos: seq<ParticipantInfo>, id: string, t: string) {
    Withdraws(reg, infos, id, t) && PublishesAt(reg, infos, id, t, |infos|)
  }

  ghost predicate Returns(reg: Registry, infos: seq<ParticipantInfo>) {
    (exists id :: ComesBack(reg, infos, id)) || (exists id, t :: PublishedAgain(reg, infos, id, t))
  }

  /** An entry reports as gone exactly what it takes away. */
  lemma EntryRemovals(reg: Registry, info: ParticipantInfo, id: string, t: string)
    ensures var r := ApplyOne(reg, info, true);
            && (Disconnected(id) in r.log <==> id in reg.people && id !in r.reg.people)
            && (Unpublished(id, t) in r.log <==> Publishes(reg.people, id, t) && !Publishes(r.reg.people, id, t))
  {
    EntryIsExact(reg, info);
    var r := ApplyOne(reg, info, true);
    PubsOfView(reg, id, t);
    PubsOfView(r.reg, id, t);
    assert id in View(reg).people <==> id in reg.people;
    assert id in View(r.reg).people <==> id in r.reg.people;
  }

  /** The last info of a batch, in terms of the fold. */
  lemma LastRemovals(reg: Registry, infos: seq<ParticipantInfo>, id: string, t: string)
    requires infos != []
    ensures var n := |infos| - 1;
            var log := ApplyOne(ApplyAll(reg, infos[..n], true).reg, infos[n], true).log;
            && (Disconnected(id) in log <==> LeavesAt(reg, infos, id, n))
            && (Unpublished(id, t) in log <==> WithdrawsAt(reg, infos, id, t, n))
  {
    var n := |infos| - 1;
    EntryRemovals(ApplyAll(reg, infos[..n], true).reg, infos[n], id, t);
    AtIsPrefix(reg, infos, true, id, n);
    AtIsPrefix(reg, infos, true, id, |infos|);
  }

  lemma FrontIsSame(reg: Registry, infos: seq<ParticipantInfo>, id: string, t: string, k: nat)
    requires k + 1 < |infos|
    ensures LeavesAt(reg, infos[..|infos| - 1], id, k) == LeavesAt(reg, infos, id, k)
    ensures WithdrawsAt(reg, infos[..|infos| - 1], id, t, k) == WithdrawsAt(reg, infos, id, t, k)
  {
    AtOfFront(reg, infos, id, k);
    AtOfFront(reg, infos, id, k + 1);
  }

  lemma LeavesOfFront(reg: Registry, infos: seq<ParticipantInfo>, id: string)
    requires infos != []
    ensures var n := |infos| - 1; Leaves(reg, infos, id) <==> Leaves(reg, infos[..n], id) || LeavesAt(reg, infos, id, n)
  {
    var front, n := infos[..|infos| - 1], |infos| - 1;
    if Leaves(reg, front, id) {
      var k :| 0 <= k < n && LeavesAt(reg, front, id, k);
      FrontIsSame(reg, infos, id, "", k);
      assert LeavesAt(reg, infos, id, k);
    }
    if Leaves(reg, infos, id) {
      var k :| 0 <= k <= n && LeavesAt(reg, infos, id, k);
      if k < n {
        FrontIsSame(reg, infos, id, "", k);
        assert LeavesAt(reg, front, id, k);
      }
    }
  }

  lemma WithdrawsOfFront(reg: Registry, infos: seq<ParticipantInfo>, id: string, t: string)
    requires infos != []
    ensures var n := |infos| - 1; Withdraws(reg, infos, id, t) <==> Withdraws(reg, infos[..n], id, t) || WithdrawsAt(reg, infos, id, t, n)
  {
    var front, n := infos[..|infos| - 1], |infos| - 1;
    if Withdraws(reg, front, id, t) {
      var k :| 0 <= k < n && WithdrawsAt(reg, front, id, t, k);
      FrontIsSame(reg, infos, id, t, k);
      assert WithdrawsAt(reg, infos, id, t, k);
    }
    if Withdraws(reg, infos, id, t) {
      var k :| 0 <= k <= n && WithdrawsAt(reg, infos, id, t, k);
      if k < n {
        FrontIsSame(reg, infos, id, t, k);
        assert WithdrawsAt(reg, front, id, t, k);
      }
    }
  }

  /** The log of a batch names as gone exactly what some info takes away. */
  lemma {:induction false} BatchRemovals(reg: Registry, infos: seq<ParticipantInfo>, id: string, t: string)
    ensures var log := ApplyAll(reg, infos, true).log;
            && (Disconnected(id) in log <==> Leaves(reg, infos, id))
            && (Unpublished(id, t) in log <==> Withdraws(reg, infos, id, t))
  {
    if infos != [] {
      BatchRemovals(reg, infos[..|infos| - 1], id, t);
      LastRemovals(reg, infos, id, t);
      LeavesOfFront(reg, infos, id);
      WithdrawsOfFront(reg, infos, id, t);
    }
  }

  /**
    * Replay: folding the events of a batch over what a listener knew gives exactly the new registry,
    * participants, publications and attached tracks, if and only if no participant and no publication
    * goes and comes back within the batch, as the infos alone tell.
    */
  lemma Replay(reg: Registry, infos: seq<ParticipantInfo>)
    ensures var r := ApplyUpdates(reg, infos, true);
            Fold(View(reg), r.log) == View(r.reg) <==> !Returns(reg, infos)
  {
    ReplayByLog(reg, infos);
    var r := ApplyAll(reg, infos, true);
    forall id ensures ComesBack(reg, infos, id) <==> Disconnected(id) in r.log && id in r.reg.people {
      BatchRemovals(reg, infos, id, "");
      AtIsPrefix(reg, infos, true, id, |infos|);
    }
    forall id, t ensures PublishedAgain(reg, infos, id, t) <==> Unpublished(id, t) in r.log && Publishes(r.reg.people, id, t) {
      BatchRemovals(reg, infos, id, t);
      AtIsPrefix(reg, infos, true, id, |infos|);
    }
  }

  /** No sid twice in the batch is enough. */
  lemma DistinctSidsReturnNothing(reg: Registry, infos: seq<ParticipantInfo>)
    requires forall i, j :: 0 <= i < j < |infos| ==> infos[i].sid != infos[j].sid
    ensures !Returns(reg, infos)
  {
    forall id ensures !ComesBack(reg, infos, id) {
      if Leaves(reg, infos, id) {
        var k :| 0 <= k < |infos| && LeavesAt(reg, infos, id, k);
        MetOnce(reg, infos, id, k, |infos|);
      }
    }
    forall id, t ensures !PublishedAgain(reg, infos, id, t) {
      if Withdraws(reg, infos, id, t) {
        var k :| 0 <= k < |infos| && WithdrawsAt(reg, infos, id, t, k);
        MetOnce(reg, infos, id, k, |infos|);
      }
    }
  }

  /** After the info that changes a participant, no other one does. */
  lemma {:induction false} MetOnce(reg: Registry, infos: seq<ParticipantInfo>, id: string, k: nat, n: nat)
    requires forall i, j :: 0 <= i < j < |infos| ==> infos[i].sid != infos[j].sid
    requires k < n <= |infos| && At(reg, infos, id, k) != At(reg, infos, id, k + 1)
    ensures At(reg, infos, id, n) == At(reg, infos, id, k + 1)
    decreases n
  {
    assert infos[..k + 1][..k] == infos[..k];
    if n > k + 1 {
      assert infos[..n][..n - 1] == infos[..n - 1];
      MetOnce(reg, infos, id, k, n - 1);
      assert infos[k].sid == id && infos[n - 1].sid != id;
    }
  }

  /** A participant that leaves and is back in the same batch is lost to the listener. */
  lemma LeavingAndReturning(reg: Registry, back: ParticipantInfo)
    requires back.sid in reg.people && back.sid != "" && !back.disconnected && !IsLocal(reg, back)
    ensures var infos := [back.(disconnected := true), back];
            var r := ApplyUpdates(reg, infos, true);
            Returns(reg, infos) && Fold(View(reg), r.log) != View(r.reg)
  {
    var infos := [back.(disconnected := true), back];
    assert infos[..0] == [] && infos[..1] == [infos[0]] && infos[..2] == infos && infos[..1][..0] == [] && infos[..2][..1] == infos[..1];
    assert !IsLocal(reg, infos[0]);
    assert LeavesAt(reg, infos, back.sid, 0);
    assert ComesBack(reg, infos, back.sid);
    Replay(reg, infos);
  }

  // ----- Runs between two join responses -----

  /** Participant updates, media events and mute changes. */
  predicate BetweenJoins(ops: seq<Op>) { forall op :: op in ops ==> !op.JoinResponse? && !op.Disconnect? }

  /** Folding the events of a run over what a listener knew gives the registry. */
  ghost predicate Replays(reg: Registry, ops: seq<Op>) {
    Fold(View(reg), Run(Play(), reg, ops).events) == View(After(reg, ops))
  }

  /** At every moment of the run. */
  ghost predicate AlwaysReplays(reg: Registry, ops: seq<Op>) {
    Replays(reg, ops) && (ops != [] ==> AlwaysReplays(reg, ops[..|ops| - 1]))
  }

  ghost predicate NeverReturns(reg: Registry, ops: seq<Op>) {
    ops == [] ||
    var before, last := ops[..|ops| - 1], ops[|ops| - 1];
    NeverReturns(reg, before) && (last.Update? ==> !Returns(After(reg, before), last.infos))
  }

  lemma OpReplays(reg: Registry, op: Op)
    requires !op.JoinResponse? && !op.Disconnect?
    ensures Fold(View(reg), Step(reg, op).log) == View(Step(reg, op).reg) <==> (op.Update? ==> !Returns(reg, op.infos))
  {
    match op
    case Update(infos) => Replay(reg, infos);
    case Media(t, kind) => MediaTrackReplay(reg, t, kind, View(reg));
    case MediaGone(t) => MediaTrackRemovedReplay(reg, t);
    case Mute(t, muted) => MuteTrackReplay(reg, t, muted);
  }

  /**
    * Between joins, a listener that folds what it hears has the registry's participants, publications and
    * attached tracks at every moment if and only if no batch lets anything go and come back.
    */
  lemma {:induction false} ReplayOfRuns(reg: Registry, ops: seq<Op>)
    requires BetweenJoins(ops)
    ensures AlwaysReplays(reg, ops) <==> NeverReturns(reg, ops)
  {
    if ops != [] {
      var before, last := ops[..|ops| - 1], ops[|ops| - 1];
      assert last in ops && BetweenJoins(before);
      ReplayOfRuns(reg, before);
      OpReplays(After(reg, before), last);
      FoldConcat(View(reg), Run(Play(), reg, before).events, Step(After(reg, before), last).log);
    }
  }
}
