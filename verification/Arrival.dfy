/** What the order in which endorsers answer can change about a call, and what not. */
module Arrival {
  import opened Wrappers
  import opened Messages
  import opened TxBuilder
  import opened Invoke
  import opened Submission
  import FanOut

  /** Every schedule of the fan-out is one of the whole call. */
  lemma {:induction false} FanOutOfCall(env: Env, fan: seq<FanOut.Step>) returns (steps: seq<Step>)
    requires CanPropose(env) && FanOut.Run(env.answers, fan).Some?
    ensures Run(env, steps) == Some(State(Endorsing, FanOut.Run(env.answers, fan).value, None, None, false, false))
  {
    hide CanPropose;
    hide FanOut.Next;
    hide FanOut.Enabled;
    if fan == [] {
      OneMoreStep(env, [], Begin);
      steps := [] + [Begin];
    } else {
      var before := FanOutOfCall(env, fan[..|fan| - 1]);
      var step := Endorse(fan[|fan| - 1]);
      OneMoreStep(env, before, step);
      steps := before + [step];
    }
  }

  /** Any endorser may turn out to be the first to have answered. */
  lemma FirstToArrive(env: Env, i: nat) returns (steps: seq<Step>)
    requires CanPropose(env) && AllResponded(env) && i < |env.answers|
    ensures Run(env, steps).Some? && var s := Run(env, steps).value;
      && s.main.Endorsing? && Untouched(s)
      && s.fan.main.Returned? && s.fan.main.result.Success?
      && Resps(s) != [] && Resps(s)[0] == env.answers[i].response
  {
    var fan := FanOut.AnyoneCanBeFirst(env.answers, i);
    steps := FanOutOfCall(env, fan);
  }

  lemma MixedIsNotAcceptable(env: Env, steps: seq<Step>, s: State, bad: nat)
    requires Run(env, steps) == Some(s) && s.fan.main.Returned? && s.fan.main.result.Success?
    requires bad < |env.answers| && AllResponded(env) && !Successful(env.answers[bad].response)
    ensures !Acceptable(env, Resps(s))
  {
    hide Run;
    RespsAreTheAnswers(env, steps, s);
    AgreementIsUnanimity(env, Resps(s));
  }

  /** With answers on both sides of the threshold the same call may return a nil
      error or an error, nothing being sent either way: whoever answers first decides. */
  lemma MixedStatusesRace(env: Env, bad: nat, good: nat) returns (nil: seq<Step>, err: seq<Step>)
    requires CanPropose(env) && env.invoke && AllResponded(env)
    requires bad < |env.answers| && env.answers[bad].response.response.status >= 400
    requires good < |env.answers| && env.answers[good].response.response.status < 400
    ensures Run(env, nil).Some? && var s := Run(env, nil).value;
      s.main == Returned(Some(Reply(Asked(env).txid, env.answers[bad].response.response)), None) && !s.sent
    ensures Run(env, err).Some? && var s := Run(env, err).value;
      && s.main == Returned(Some(Reply(Asked(env).txid, env.answers[good].response.response)), Some(NotAssembled))
      && !s.sent
  {
    hide CanPropose;
    hide Acceptable;
    hide EnvelopeOf;
    hide Run;
    var first := FirstToArrive(env, bad);
    OneMoreStep(env, first, Decide);
    nil := first + [Decide];
    var other := FirstToArrive(env, good);
    OneMoreStep(env, other, Decide);
    MixedIsNotAcceptable(env, other, Run(env, other).value, bad);
    OneMoreStep(env, other + [Decide], Assemble);
    err := other + [Decide] + [Assemble];
  }

  /** That race is the only one: with every status on the same side, whether the
      call stops at the first response does not depend on the order of arrival. */
  lemma DecisionIgnoresOrderExactlyWhenUnmixed(env: Env)
    requires CanPropose(env) && AllResponded(env)
    ensures
      (forall p, q: seq<Step> :: Decided(env, p) && Decided(env, q) ==>
        (FirstIsError(env, p) <==> FirstIsError(env, q)))
      <==> !Mixed(env)
  {
    hide CanPropose;
    hide Run;
    if Mixed(env) {
      var i: nat, j: nat :| i < |env.answers| && j < |env.answers| && IsError(env, i) && !IsError(env, j);
      var p := FirstToArrive(env, i);
      var q := FirstToArrive(env, j);
      assert Decided(env, p) && Decided(env, q);
      assert FirstIsError(env, p) && !FirstIsError(env, q);
    } else {
      forall p, q: seq<Step> | Decided(env, p) && Decided(env, q)
        ensures FirstIsError(env, p) <==> FirstIsError(env, q)
      {
        var i := FirstIsSomeAnswer(env, p);
        var j := FirstIsSomeAnswer(env, q);
        assert IsError(env, i) <==> IsError(env, j);
      }
    }
  }

  predicate IsError(env: Env, i: nat)
    requires i < |env.answers| && AllResponded(env)
  {
    env.answers[i].response.response.status >= 400
  }

  predicate Mixed(env: Env)
    requires AllResponded(env)
  {
    exists i: nat, j: nat :: i < |env.answers| && j < |env.answers| && IsError(env, i) && !IsError(env, j)
  }

  ghost predicate Decided(env: Env, steps: seq<Step>) {
    Run(env, steps).Some? && Resps(Run(env, steps).value) != []
  }

  ghost predicate FirstIsError(env: Env, steps: seq<Step>)
    requires Decided(env, steps)
  {
    Resps(Run(env, steps).value)[0].response.status >= 400
  }

  lemma FirstIsSomeAnswer(env: Env, steps: seq<Step>) returns (i: nat)
    requires AllResponded(env) && Decided(env, steps)
    ensures i < |env.answers| && env.answers[i].response == Resps(Run(env, steps).value)[0]
  {
    hide Run;
    RespsAreTheAnswers(env, steps, Run(env, steps).value);
    var r := Resps(Run(env, steps).value)[0];
    assert r in multiset(Resps(Run(env, steps).value));
    FanOut.ResponsesAreAnswers(env.answers, r);
    i :| i < |env.answers| && env.answers[i] == FanOut.Responded(r);
  }
}
