/** Runs of a deterministic machine: inputs one after the other, events in the order of the inputs. */
module Machines {
  datatype Outcome<S, E> = Outcome(state: S, events: seq<E>)

  function Run<S, I, E>(step: (S, I) -> Outcome<S, E>, start: S, inputs: seq<I>): Outcome<S, E> {
    if inputs == [] then Outcome(start, []) else
    var before := Run(step, start, inputs[..|inputs| - 1]);
    var last := step(before.state, inputs[|inputs| - 1]);
    Outcome(last.state, before.events + last.events)
  }

  /** A run goes on where its first part ended. */
  lemma {:induction false} RunConcat<S, I, E>(step: (S, I) -> Outcome<S, E>, start: S, a: seq<I>, b: seq<I>)
    ensures var first := Run(step, start, a);
            var then_ := Run(step, first.state, b);
            Run(step, start, a + b) == Outcome(then_.state, first.events + then_.events)
    decreases |b|
  {
    if b == [] {
      assert a + b == a && Run(step, start, a).events + [] == Run(step, start, a).events;
    } else {
      var front, last := b[..|b| - 1], b[|b| - 1];
      RunConcat(step, start, a, front);
      assert (a + b)[..|a + b| - 1] == a + front && (a + b)[|a + b| - 1] == last;
      var first := Run(step, start, a);
      var mid := Run(step, first.state, front);
      assert first.events + (mid.events + step(mid.state, last).events) == first.events + mid.events + step(mid.state, last).events;
    }
  }

  lemma RunOne<S, I, E>(step: (S, I) -> Outcome<S, E>, start: S, i: I)
    ensures Run(step, start, [i]) == step(start, i)
  {
    assert [i][..0] == [] && [] + step(start, i).events == step(start, i).events;
  }

  lemma RunMore<S, I, E>(step: (S, I) -> Outcome<S, E>, start: S, inputs: seq<I>, i: I)
    ensures var r := Run(step, start, inputs);
            Run(step, start, inputs + [i]) == Outcome(step(r.state, i).state, r.events + step(r.state, i).events)
  {
    assert (inputs + [i])[..|inputs|] == inputs;
  }

  /** One step leads from what is known before it to what is known after it. */
  predicate Follows<S(==), I, E(==)>(step: (S, I) -> Outcome<S, E>, before: Outcome<S, E>, i: I, after: Outcome<S, E>) {
    step(before.state, i).state == after.state && before.events + step(before.state, i).events == after.events
  }

  /** A run is known from its steps. */
  lemma {:induction false} RunFollows<S, I, E>(step: (S, I) -> Outcome<S, E>, inputs: seq<I>, at: nat -> Outcome<S, E>)
    requires at(0).events == [] && forall k: nat :: k < |inputs| ==> Follows(step, at(k), inputs[k], at(k + 1))
    ensures Run(step, at(0).state, inputs) == at(|inputs|)
  {
    if inputs != [] {
      var front := inputs[..|inputs| - 1];
      forall k: nat | k < |front| ensures Follows(step, at(k), front[k], at(k + 1)) {
        assert front[k] == inputs[k];
      }
      RunFollows(step, front, at);
      assert Follows(step, at(|front|), inputs[|front|], at(|front| + 1));
    }
  }

  /** Runs of a machine without events. */
  function Reach<S, I>(next: (S, I) -> S, start: S, inputs: seq<I>): S {
    if inputs == [] then start else next(Reach(next, start, inputs[..|inputs| - 1]), inputs[|inputs| - 1])
  }
}
