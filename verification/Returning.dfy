/** That a call returns: it is never stuck while everyone it waits for answers, and
    no schedule of it is longer than a bound. */
module Returning {
  import opened Wrappers
  import opened Messages
  import opened Invoke
  import FanOut
  import DeliverGroup
  import DeliverBound

  predicate EveryStreamDecides(env: Env) {
    forall i :: 0 <= i < |env.peers| ==>
      !DeliverGroup.StreamVerdict(env.peers[i].stream, Asked(env).txid).Pending?
  }

  /** Nobody keeps the call waiting: endorsers and orderer answer, and each peer's
      connection and stream come to a decision. */
  predicate NobodyIsSilent(env: Env) {
    && FanOut.AllAnswer(env.answers)
    && !env.orderer.Silent?
    && DeliverGroup.NoneHangs(GroupEnv(env))
    && EveryStreamDecides(env)
  }

  lemma GroupGoesOn(env: Env, steps: seq<Step>, s: State) returns (step: Step)
    requires Run(env, steps) == Some(s) && (s.main.Connecting? || s.main.Awaiting?)
    requires Inv(env, s) && DeliverGroup.NoneHangs(GroupEnv(env)) && EveryStreamDecides(env)
    ensures Enabled(env, s, step)
    ensures step.Deliver? ==> !step.d.TimeOut?
  {
    hide Run;
    hide DeliverGroup.Run;
    hide DeliverGroup.StreamVerdict;
    hide Built;
    Projects(env, steps);
    var m := s.group.value.main;
    if s.main.Connecting? && (m.Connected? || m.ConnectFailed?) {
      step := Join;
    } else if m.WaitReturned? {
      step := Finish;
    } else {
      var d := DeliverGroup.NeverStuck(GroupEnv(env), GroupSteps(steps));
      step := Deliver(d);
    }
  }

  /** While the call has not returned some step other than a timeout is possible,
      as long as nobody keeps silent. */
  lemma NeverStuck(env: Env, steps: seq<Step>, s: State) returns (step: Step)
    requires Run(env, steps) == Some(s) && !s.main.Returned?
    requires NobodyIsSilent(env)
    ensures Enabled(env, s, step)
    ensures step.Deliver? ==> !step.d.TimeOut?
  {
    hide Run;
    hide Acceptable;
    hide EnvelopeOf;
    hide CanPropose;
    hide FanOut.Enabled;
    hide DeliverGroup.Enabled;
    RunKeepsInv(env, steps);
    Projects(env, steps);
    match s.main
    case Starting => step := Begin;
    case Endorsing =>
      if s.fan.main.Returned? {
        step := Decide;
      } else {
        var f := FanOut.NeverDeadlocks(env.answers, FanSteps(steps));
        step := Endorse(f);
      }
    case Assembling => step := Assemble;
    case Opening => step := Open;
    case Connecting => step := GroupGoesOn(env, steps, s);
    case Broadcasting => step := Send;
    case Acking => step := Ack;
    case Awaiting => step := GroupGoesOn(env, steps, s);
  }

  /** The calls to the endorsers and the broadcast have no deadline: a silent endorser
      or, once the envelope has left, a silent orderer keeps the call for ever. */
  lemma SilenceBlocks(env: Env, steps: seq<Step>, s: State)
    requires Run(env, steps) == Some(s) && s.main.Returned?
    ensures FanOut.AllAnswer(env.answers) || s.main.error == Some(NoProposal)
    ensures s.sent ==> !env.orderer.Silent?
  {
    hide Run;
    hide FanOut.Run;
    hide FanOut.AllAnswer;
    hide Acceptable;
    hide EnvelopeOf;
    hide CanPropose;
    RunKeepsInv(env, steps);
    Projects(env, steps);
    if !FanOut.AllAnswer(env.answers) {
      FanOut.SilenceBlocks(env.answers, FanSteps(steps));
    }
  }

  // ----- termination

  /** The caller's own steps still to come. */
  function MainLeft(m: Main): nat {
    match m
    case Starting => 9
    case Endorsing => 8
    case Assembling => 7
    case Opening => 6
    case Connecting => 5
    case Broadcasting => 4
    case Acking => 3
    case Awaiting => 2
    case Returned(_, _) => 0
  }

  /** The group's steps, counted in full before it exists. */
  function GroupLeft(env: Env, s: State): nat {
    match s.group
    case Some(g) => DeliverBound.Remaining(GroupEnv(env), g)
    case None =>
      if s.main.Returned? || s.main.Broadcasting? || s.main.Acking? then 0 else DeliverBound.Bound(GroupEnv(env))
  }

  function Remaining(env: Env, s: State): int {
    MainLeft(s.main) + FanOut.Remaining(env.answers, s.fan) + GroupLeft(env, s)
  }

  lemma EveryStepCounts(env: Env, steps: seq<Step>, s: State, step: Step)
    requires Run(env, steps) == Some(s) && Enabled(env, s, step)
    ensures Remaining(env, Next(env, s, step)) < Remaining(env, s)
  {
    hide Run;
    Projects(env, steps);
    RunKeepsInv(env, steps);
    match step
    case Endorse(f) =>
      FanOut.RunKeepsInv(env.answers, FanSteps(steps));
      EndorseCounts(env, s, f);
    case Deliver(d) =>
      DeliverGroup.RunKeepsInv(GroupEnv(env), GroupSteps(steps));
      DeliverCounts(env, s, d);
    case _ => OwnStepCounts(env, s, step);
  }

  lemma EndorseCounts(env: Env, s: State, f: FanOut.Step)
    requires Shaped(env, s) && Enabled(env, s, Endorse(f)) && FanOut.Inv(env.answers, s.fan)
    ensures Remaining(env, Next(env, s, Endorse(f))) < Remaining(env, s)
  {
    hide FanOut.Remaining;
    hide FanOut.Next;
    FanOut.EveryStepCounts(env.answers, s.fan, f);
  }

  lemma DeliverCounts(env: Env, s: State, d: DeliverGroup.Step)
    requires Shaped(env, s) && Enabled(env, s, Deliver(d)) && DeliverGroup.Inv(GroupEnv(env), s.group.value)
    ensures Remaining(env, Next(env, s, Deliver(d))) < Remaining(env, s)
  {
    hide DeliverBound.Remaining;
    hide DeliverGroup.Next;
    hide DeliverGroup.Inv;
    hide DeliverGroup.Enabled;
    DeliverBound.EveryStepCounts(GroupEnv(env), s.group.value, d);
  }

  lemma OwnStepCounts(env: Env, s: State, step: Step)
    requires Shaped(env, s) && Inv(env, s) && Enabled(env, s, step) && !step.Endorse? && !step.Deliver?
    ensures Remaining(env, Next(env, s, step)) < Remaining(env, s)
  {
    hide FanOut.Remaining;
    hide DeliverBound.Remaining;
    hide DeliverBound.Bound;
    hide DeliverGroup.Init;
    hide Acceptable;
    hide EnvelopeOf;
    hide CanPropose;
    if step.Open? {
      DeliverBound.InitialBound(GroupEnv(env));
    }
  }

  /** No schedule of the whole call, leaked goroutines included, is longer than this. */
  function Bound(env: Env): int { 4 * |env.answers| + 11 + DeliverBound.Bound(GroupEnv(env)) }

  lemma {:induction false} CallsAreBounded(env: Env, steps: seq<Step>)
    requires Run(env, steps).Some?
    ensures |steps| + Remaining(env, Run(env, steps).value) <= Bound(env)
    ensures |steps| <= Bound(env)
  {
    hide Next;
    hide Enabled;
    hide Bound;
    hide Remaining;
    if steps == [] {
      InitialBound(env);
    } else {
      var n := |steps| - 1;
      LastStep(env, steps);
      CallsAreBounded(env, steps[..n]);
      EveryStepCounts(env, steps[..n], Run(env, steps[..n]).value, steps[n]);
    }
    RemainingIsNat(env, steps);
  }

  lemma InitialBound(env: Env)
    ensures Remaining(env, Init()) == Bound(env)
  {
  }

  lemma RemainingIsNat(env: Env, steps: seq<Step>)
    requires Run(env, steps).Some?
    ensures Remaining(env, Run(env, steps).value) >= 0
  {
    hide Run;
    hide FanOut.Run;
    Projects(env, steps);
    FanOut.RunKeepsInv(env.answers, FanSteps(steps));
    FanOut.RemainingIsNat(env.answers, Run(env, steps).value.fan);
  }

  /** If nobody keeps silent, every run can be continued to the return of the call
      without a timeout; as no run is longer than the bound, the call returns. */
  lemma {:induction false} CallReturns(env: Env, steps: seq<Step>) returns (all: seq<Step>)
    requires Run(env, steps).Some? && NobodyIsSilent(env)
    ensures steps <= all && Run(env, all).Some? && Run(env, all).value.main.Returned?
    ensures forall i :: |steps| <= i < |all| ==> !(all[i].Deliver? && all[i].d.TimeOut?)
    decreases Bound(env) - |steps|
  {
    hide Run;
    hide Next;
    hide Enabled;
    hide Bound;
    if Run(env, steps).value.main.Returned? {
      all := steps;
    } else {
      var step := NeverStuck(env, steps, Run(env, steps).value);
      OneMoreStep(env, steps, step);
      CallsAreBounded(env, steps + [step]);
      all := CallReturns(env, steps + [step]);
    }
  }
}
