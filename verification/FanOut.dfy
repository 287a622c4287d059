/** The concurrent fan-out of processProposal as a small-step system: a spawning
    loop, one goroutine per endorser, two buffered channels and a wait group. The
    endorsers' answers, or their silence, are fixed but unknown; the schedule is
    arbitrary. */
module FanOut {
  import opened Wrappers
  import opened Counting

  /** What an endorser does; a silent one leaves its caller waiting for ever. */
  datatype Answer<R> = Responded(response: R) | Failed(error: string) | Silent

  datatype PC =
    | Calling     // inside the RPC
    | Sending     // has an answer, at the channel send
    | Finishing   // has sent, deferred Done still to run
    | Done

  datatype Main<R> =
    | Spawning
    | Waiting
    | Returned(result: Result<seq<R>, string>)

  datatype State<R> = State(main: Main<R>, pcs: seq<PC>, responsesCh: seq<R>, errorCh: seq<string>, counter: nat)

  datatype Step = Spawn | Answer(i: nat) | Send(i: nat) | Finish(i: nat) | Collect

  function Init<R>(): State<R> { State(Spawning, [], [], [], 0) }

  /** Each channel has room for one message per endorser; a full one blocks. */
  predicate HasRoom<R>(env: seq<Answer<R>>, s: State<R>, i: nat)
    requires i < |env|
  {
    if env[i].Responded? then |s.responsesCh| < |env| else |s.errorCh| < |env|
  }

  predicate At<R>(s: State<R>, i: nat, pc: PC) { i < |s.pcs| && s.pcs[i] == pc }

  predicate Enabled<R>(env: seq<Answer<R>>, s: State<R>, step: Step) {
    match step
    case Spawn => s.main.Spawning?
    case Answer(i) => At(s, i, Calling) && i < |env| && !env[i].Silent?
    case Send(i) => At(s, i, Sending) && i < |env| && !env[i].Silent? && HasRoom(env, s, i)
    case Finish(i) => At(s, i, Finishing) && s.counter > 0
    case Collect => s.main.Waiting? && s.counter == 0
  }

  function Next<R>(env: seq<Answer<R>>, s: State<R>, step: Step): State<R>
    requires Enabled(env, s, step)
  {
    match step
    case Spawn =>
      if |s.pcs| < |env| then s.(pcs := s.pcs + [Calling], counter := s.counter + 1)
      else s.(main := Waiting)
    case Answer(i) => s.(pcs := s.pcs[i := Sending])
    case Send(i) =>
      var s' := s.(pcs := s.pcs[i := Finishing]);
      (match env[i]
       case Responded(r) => s'.(responsesCh := s.responsesCh + [r])
       case Failed(e) => s'.(errorCh := s.errorCh + [e]))
    case Finish(i) => s.(pcs := s.pcs[i := Done], counter := s.counter - 1)
    case Collect =>
      s.(main := Returned(if s.errorCh != [] then Failure(s.errorCh[0]) else Success(s.responsesCh)))
  }

  /** The state after a schedule, if each of its steps was enabled. */
  function Run<R>(env: seq<Answer<R>>, steps: seq<Step>): Option<State<R>> {
    if steps == [] then Some(Init())
    else
      match Run(env, steps[..|steps| - 1])
      case None => None
      case Some(s) =>
        var step := steps[|steps| - 1];
        if Enabled(env, s, step) then Some(Next(env, s, step)) else None
  }

  // ----- what the goroutines have done so far

  function Bag<T>(f: (nat, PC) -> multiset<T>, pcs: seq<PC>): multiset<T> {
    if pcs == [] then multiset{} else Bag(f, pcs[..|pcs| - 1]) + f(|pcs| - 1, pcs[|pcs| - 1])
  }

  lemma {:induction false} BagAfterUpdate<T>(f: (nat, PC) -> multiset<T>, pcs: seq<PC>, i: nat, pc: PC)
    requires i < |pcs|
    ensures f(i, pcs[i]) == f(i, pc) ==> Bag(f, pcs[i := pc]) == Bag(f, pcs)
    ensures f(i, pcs[i]) == multiset{} ==> Bag(f, pcs[i := pc]) == Bag(f, pcs) + f(i, pc)
  {
    var n := |pcs| - 1;
    if i < n {
      BagAfterUpdate(f, pcs[..n], i, pc);
      assert pcs[i := pc][..n] == pcs[..n][i := pc];
    } else {
      assert pcs[i := pc][..n] == pcs[..n];
    }
  }

  lemma BagAfterAppend<T>(f: (nat, PC) -> multiset<T>, pcs: seq<PC>, pc: PC)
    ensures Bag(f, pcs + [pc]) == Bag(f, pcs) + f(|pcs|, pc)
  {
    assert (pcs + [pc])[..|pcs|] == pcs;
  }

  function IsLive(pc: PC): nat { if pc.Done? then 0 else 1 }

  function HasSent(pc: PC): nat { if pc.Finishing? || pc.Done? then 1 else 0 }

  /** Program points a goroutine still has to pass. */
  function PointsLeft(pc: PC): nat {
    match pc case Calling => 3 case Sending => 2 case Finishing => 1 case Done => 0
  }

  /** What a goroutine has put into each channel. */
  function ResponseSent<R>(env: seq<Answer<R>>): (nat, PC) -> multiset<R> {
    (i: nat, pc: PC) =>
      if HasSent(pc) == 1 && i < |env| && env[i].Responded? then multiset{env[i].response} else multiset{}
  }

  function ErrorSent<R>(env: seq<Answer<R>>): (nat, PC) -> multiset<string> {
    (i: nat, pc: PC) =>
      if HasSent(pc) == 1 && i < |env| && env[i].Failed? then multiset{env[i].error} else multiset{}
  }

  ghost predicate Inv<R>(env: seq<Answer<R>>, s: State<R>) {
    && |s.pcs| <= |env|
    && (!s.main.Spawning? ==> |s.pcs| == |env|)
    && (forall i :: 0 <= i < |s.pcs| && env[i].Silent? ==> s.pcs[i].Calling?)
    && s.counter == Total(IsLive, s.pcs)
    && multiset(s.responsesCh) == Bag(ResponseSent(env), s.pcs)
    && multiset(s.errorCh) == Bag(ErrorSent(env), s.pcs)
    && |s.responsesCh| + |s.errorCh| == Total(HasSent, s.pcs)
    && (s.main.Returned? ==>
          && s.counter == 0
          && s.main.result == if s.errorCh != [] then Failure(s.errorCh[0]) else Success(s.responsesCh))
  }

  lemma SpawnKeepsInv<R>(env: seq<Answer<R>>, s: State<R>)
    requires Inv(env, s) && s.main.Spawning?
    ensures Inv(env, Next(env, s, Spawn))
  {
    hide Total;
    hide Bag;
    TotalAfterAppend(IsLive, s.pcs, Calling);
    TotalAfterAppend(HasSent, s.pcs, Calling);
    BagAfterAppend(ResponseSent(env), s.pcs, Calling);
    BagAfterAppend(ErrorSent(env), s.pcs, Calling);
  }

  lemma SendKeepsInv<R>(env: seq<Answer<R>>, s: State<R>, i: nat)
    requires Inv(env, s) && Enabled(env, s, Send(i))
    ensures Inv(env, Next(env, s, Send(i)))
  {
    hide Total;
    hide Bag;
    hide ResponseSent;
    hide ErrorSent;
    LiveIsCounted(s.pcs, i);
    GoroutineStep(env, s.pcs, i, Finishing);
  }

  lemma StepKeepsInv<R>(env: seq<Answer<R>>, s: State<R>, step: Step)
    requires Inv(env, s) && Enabled(env, s, step)
    ensures Inv(env, Next(env, s, step))
  {
    hide Total;
    hide Bag;
    hide ResponseSent;
    hide ErrorSent;
    match step
    case Spawn => SpawnKeepsInv(env, s);
    case Answer(i) => GoroutineStep(env, s.pcs, i, Sending);
    case Send(i) => SendKeepsInv(env, s, i);
    case Finish(i) =>
      LiveIsCounted(s.pcs, i);
      GoroutineStep(env, s.pcs, i, Done);
    case Collect =>
  }

  /** The sums over all goroutines move by what the stepping goroutine adds. */
  lemma GoroutineStep<R>(env: seq<Answer<R>>, pcs: seq<PC>, i: nat, pc: PC)
    requires i < |pcs| <= |env|
    requires PointsLeft(pcs[i]) == PointsLeft(pc) + 1
    ensures var pcs' := pcs[i := pc];
      && Total(IsLive, pcs') == Total(IsLive, pcs) - (if pc.Done? then 1 else 0)
      && Total(HasSent, pcs') == Total(HasSent, pcs) + (if pc.Finishing? then 1 else 0)
      && Bag(ResponseSent(env), pcs')
           == (if pc.Finishing? && env[i].Responded? then Bag(ResponseSent(env), pcs) + multiset{env[i].response}
               else Bag(ResponseSent(env), pcs))
      && Bag(ErrorSent(env), pcs')
           == (if pc.Finishing? && env[i].Failed? then Bag(ErrorSent(env), pcs) + multiset{env[i].error}
               else Bag(ErrorSent(env), pcs))
  {
    hide Total;
    hide Bag;
    TotalAfterUpdate(IsLive, pcs, i, pc);
    TotalAfterUpdate(HasSent, pcs, i, pc);
    BagAfterUpdate(ResponseSent(env), pcs, i, pc);
    BagAfterUpdate(ErrorSent(env), pcs, i, pc);
    match pc
    case Sending =>
    case Finishing =>
    case Done =>
  }

  lemma {:induction false} RunKeepsInv<R>(env: seq<Answer<R>>, steps: seq<Step>)
    requires Run(env, steps).Some?
    ensures Inv(env, Run(env, steps).value)
  {
    if steps != [] {
      RunKeepsInv(env, steps[..|steps| - 1]);
      StepKeepsInv(env, Run(env, steps[..|steps| - 1]).value, steps[|steps| - 1]);
    }
  }

  // ----- no step ever blocks on a channel, and every schedule ends

  /** A goroutine that wants to send can: the channels never fill up. */
  lemma SendNeverBlocks<R>(env: seq<Answer<R>>, steps: seq<Step>, i: nat)
    requires Run(env, steps).Some? && At(Run(env, steps).value, i, Sending)
    ensures Enabled(env, Run(env, steps).value, Send(i))
  {
    RunKeepsInv(env, steps);
    TotalAfterUpdate(HasSent, Run(env, steps).value.pcs, i, Finishing);
  }

  lemma LiveIsCounted(pcs: seq<PC>, i: nat)
    requires i < |pcs| && !pcs[i].Done?
    ensures Total(IsLive, pcs) > 0
  {
    TotalIsZero(IsLive, pcs);
    assert IsLive(pcs[i]) == 1;
  }

  predicate AllAnswer<R>(env: seq<Answer<R>>) { forall i :: 0 <= i < |env| ==> !env[i].Silent? }

  /** Until the call returns some step is possible, if every endorser answers. */
  lemma NeverDeadlocks<R>(env: seq<Answer<R>>, steps: seq<Step>) returns (step: Step)
    requires Run(env, steps).Some? && !Run(env, steps).value.main.Returned? && AllAnswer(env)
    ensures Enabled(env, Run(env, steps).value, step)
  {
    var s := Run(env, steps).value;
    RunKeepsInv(env, steps);
    if s.main.Spawning? {
      step := Spawn;
    } else if s.counter == 0 {
      step := Collect;
    } else {
      TotalIsZero(IsLive, s.pcs);
      var i: nat :| i < |s.pcs| && IsLive(s.pcs[i]) != 0;
      match s.pcs[i] {
        case Calling => step := Answer(i);
        case Sending =>
          SendNeverBlocks(env, steps, i);
          step := Send(i);
        case Finishing => step := Finish(i);
      }
    }
  }

  /** And with a silent one the call never returns. */
  lemma SilenceBlocks<R>(env: seq<Answer<R>>, steps: seq<Step>)
    requires Run(env, steps).Some? && !AllAnswer(env)
    ensures !Run(env, steps).value.main.Returned?
  {
    RunKeepsInv(env, steps);
    var s := Run(env, steps).value;
    if s.main.Returned? {
      var i :| 0 <= i < |env| && env[i].Silent?;
      LiveIsCounted(s.pcs, i);
    }
  }

  /** Steps still to be taken: one per goroutine and program point, and the main ones. */
  function Remaining<R>(env: seq<Answer<R>>, s: State<R>): int {
    4 * (|env| - |s.pcs|) + Total(PointsLeft, s.pcs)
      + (match s.main case Spawning => 2 case Waiting => 1 case Returned(_) => 0)
  }

  lemma EveryStepCounts<R>(env: seq<Answer<R>>, s: State<R>, step: Step)
    requires |s.pcs| <= |env| && Enabled(env, s, step)
    ensures Remaining(env, Next(env, s, step)) == Remaining(env, s) - 1
  {
    hide Total;
    match step
    case Spawn => TotalAfterAppend(PointsLeft, s.pcs, Calling);
    case Answer(i) => TotalAfterUpdate(PointsLeft, s.pcs, i, Sending);
    case Send(i) => TotalAfterUpdate(PointsLeft, s.pcs, i, Finishing);
    case Finish(i) => TotalAfterUpdate(PointsLeft, s.pcs, i, Done);
    case Collect =>
  }

  lemma ReturnedMeansNothingLeft<R>(env: seq<Answer<R>>, s: State<R>)
    requires Inv(env, s)
    ensures s.main.Returned? <==> Remaining(env, s) == 0
  {
    NothingLeftWhenDone(s.pcs);
  }

  /** Every schedule of 4n + 2 steps has returned, and no schedule is longer. */
  lemma {:induction false} EveryScheduleEnds<R>(env: seq<Answer<R>>, steps: seq<Step>)
    requires Run(env, steps).Some?
    ensures |steps| + Remaining(env, Run(env, steps).value) == 4 * |env| + 2
    ensures Run(env, steps).value.main.Returned? <==> |steps| == 4 * |env| + 2
  {
    RunKeepsInv(env, steps);
    ReturnedMeansNothingLeft(env, Run(env, steps).value);
    if steps != [] {
      var n := |steps| - 1;
      RunKeepsInv(env, steps[..n]);
      EveryScheduleEnds(env, steps[..n]);
      StepOfRun(env, steps);
    }
  }

  lemma StepOfRun<R>(env: seq<Answer<R>>, steps: seq<Step>)
    requires steps != [] && Run(env, steps).Some?
    requires Run(env, steps[..|steps| - 1]).Some? ==> |Run(env, steps[..|steps| - 1]).value.pcs| <= |env|
    ensures Run(env, steps[..|steps| - 1]).Some?
    ensures Remaining(env, Run(env, steps).value) == Remaining(env, Run(env, steps[..|steps| - 1]).value) - 1
  {
    hide Remaining;
    EveryStepCounts(env, Run(env, steps[..|steps| - 1]).value, steps[|steps| - 1]);
  }

  lemma NothingLeftWhenDone(pcs: seq<PC>)
    ensures Total(IsLive, pcs) == 0 <==> Total(PointsLeft, pcs) == 0
  {
    TotalIsZero(IsLive, pcs);
    TotalIsZero(PointsLeft, pcs);
    assert forall i :: 0 <= i < |pcs| ==> (IsLive(pcs[i]) == 0 <==> PointsLeft(pcs[i]) == 0);
  }

  // ----- the result

  function Responses<R>(env: seq<Answer<R>>): multiset<R> {
    if env == [] then multiset{}
    else
      var n := |env| - 1;
      Responses(env[..n]) + (if env[n].Responded? then multiset{env[n].response} else multiset{})
  }

  lemma {:induction false} AllSentWhenDone<R>(env: seq<Answer<R>>, pcs: seq<PC>)
    requires |pcs| <= |env| && Total(IsLive, pcs) == 0
    ensures Bag(ResponseSent(env), pcs) == Responses(env[..|pcs|])
    ensures Total(HasSent, pcs) == |pcs|
  {
    if pcs != [] {
      var n := |pcs| - 1;
      AllSentWhenDone(env, pcs[..n]);
      assert env[..|pcs|][..n] == env[..n];
    }
  }

  lemma {:induction false} ErrorsAreAnswers<R>(env: seq<Answer<R>>, pcs: seq<PC>, e: string)
    requires |pcs| <= |env|
    ensures e in Bag(ErrorSent(env), pcs) ==> exists i :: 0 <= i < |pcs| && env[i] == Failed(e)
    ensures Total(IsLive, pcs) == 0 && (exists i :: 0 <= i < |pcs| && env[i] == Failed(e)) ==>
      e in Bag(ErrorSent(env), pcs)
  {
    if pcs != [] {
      var n := |pcs| - 1;
      ErrorsAreAnswers(env, pcs[..n], e);
      if e in Bag(ErrorSent(env), pcs) {
        if e in Bag(ErrorSent(env), pcs[..n]) {
          var i :| 0 <= i < n && env[i] == Failed(e);
        } else {
          assert env[n] == Failed(e);
        }
      }
    }
  }

  /** For every schedule: the call fails exactly when some endorser failed, and then
      with an error some endorser gave; otherwise it returns every response once. */
  lemma ReturnsEveryAnswer<R>(env: seq<Answer<R>>, steps: seq<Step>)
    requires Run(env, steps).Some? && Run(env, steps).value.main.Returned?
    ensures var r := Run(env, steps).value.main.result;
      && (r.Success? <==> forall i :: 0 <= i < |env| ==> env[i].Responded?)
      && (r.Failure? ==> exists i :: 0 <= i < |env| && env[i] == Failed(r.error))
      && (r.Success? ==> |r.value| == |env| && multiset(r.value) == Responses(env))
  {
    RunKeepsInv(env, steps);
    ResultOf(env, Run(env, steps).value);
  }

  lemma ResultOf<R>(env: seq<Answer<R>>, s: State<R>)
    requires Inv(env, s) && s.main.Returned?
    ensures var r := s.main.result;
      && (r.Success? <==> forall i :: 0 <= i < |env| ==> env[i].Responded?)
      && (r.Failure? ==> exists i :: 0 <= i < |env| && env[i] == Failed(r.error))
      && (r.Success? ==> |r.value| == |env| && multiset(r.value) == Responses(env))
  {
    hide Total;
    hide Bag;
    AllSentWhenDone(env, s.pcs);
    assert env[..|env|] == env;
    if s.errorCh != [] {
      assert s.errorCh[0] in multiset(s.errorCh);
      ErrorsAreAnswers(env, s.pcs, s.errorCh[0]);
    } else {
      forall i | 0 <= i < |env| ensures env[i].Responded? {
        NoErrorsSent(env, s, i);
      }
    }
  }

  lemma NoErrorsSent<R>(env: seq<Answer<R>>, s: State<R>, i: nat)
    requires Inv(env, s) && s.main.Returned? && s.errorCh == [] && i < |env|
    ensures env[i].Responded?
  {
    if env[i].Failed? {
      ErrorsAreAnswers(env, s.pcs, env[i].error);
      assert false;
    }
    if env[i].Silent? {
      LiveIsCounted(s.pcs, i);
      assert false;
    }
  }

  /** A returned response is some endorser's answer, and every answer is returned. */
  lemma {:induction false} ResponsesAreAnswers<R>(env: seq<Answer<R>>, r: R)
    ensures r in Responses(env) <==> Responded(r) in env
  {
    if env != [] {
      var n := |env| - 1;
      ResponsesAreAnswers(env[..n], r);
      assert env == env[..n] + [env[n]];
    }
  }

  /** The answers in the order in which the schedule sent them. */
  function SentResponses<R>(env: seq<Answer<R>>, steps: seq<Step>): seq<R> {
    if steps == [] then []
    else
      var before, last := SentResponses(env, steps[..|steps| - 1]), steps[|steps| - 1];
      if last.Send? && last.i < |env| && env[last.i].Responded? then before + [env[last.i].response] else before
  }

  function SentErrors<R>(env: seq<Answer<R>>, steps: seq<Step>): seq<string> {
    if steps == [] then []
    else
      var before, last := SentErrors(env, steps[..|steps| - 1]), steps[|steps| - 1];
      if last.Send? && last.i < |env| && env[last.i].Failed? then before + [env[last.i].error] else before
  }

  lemma {:induction false} ChannelsHoldWhatWasSent<R>(env: seq<Answer<R>>, steps: seq<Step>)
    requires Run(env, steps).Some?
    ensures var s := Run(env, steps).value;
      s.responsesCh == SentResponses(env, steps) && s.errorCh == SentErrors(env, steps)
  {
    if steps != [] {
      ChannelsHoldWhatWasSent(env, steps[..|steps| - 1]);
    }
  }

  /** The call returns the error sent first, if any was sent, and otherwise the
      responses in the order of arrival. */
  lemma ReturnsInOrderOfArrival<R>(env: seq<Answer<R>>, steps: seq<Step>)
    requires Run(env, steps).Some? && Run(env, steps).value.main.Returned?
    ensures Run(env, steps).value.main.result ==
      if SentErrors(env, steps) != [] then Failure(SentErrors(env, steps)[0]) else Success(SentResponses(env, steps))
  {
    RunKeepsInv(env, steps);
    ChannelsHoldWhatWasSent(env, steps);
  }

  // ----- any endorser may be the first to answer

  lemma OneMoreStep<R>(env: seq<Answer<R>>, steps: seq<Step>, step: Step)
    requires Run(env, steps).Some? && Enabled(env, Run(env, steps).value, step)
    ensures Run(env, steps + [step]) == Some(Next(env, Run(env, steps).value, step))
  {
    assert (steps + [step])[..|steps|] == steps;
  }

  lemma {:induction false} SpawnMany<R>(env: seq<Answer<R>>, k: nat) returns (steps: seq<Step>)
    requires k <= |env|
    ensures Run(env, steps) == Some(State(Spawning, seq(k, _ => Calling), [], [], k))
  {
    if k == 0 {
      steps := [];
      assert seq(0, _ => Calling) == [];
    } else {
      var before := SpawnMany(env, k - 1);
      OneMoreStep(env, before, Spawn);
      steps := before + [Spawn];
      assert seq(k - 1, _ => Calling) + [Calling] == seq(k, _ => Calling);
    }
  }

  /** Any run can be continued until the call returns; what has arrived stays first. */
  lemma {:induction false} CanFinish<R>(env: seq<Answer<R>>, steps: seq<Step>) returns (all: seq<Step>)
    requires Run(env, steps).Some? && AllAnswer(env)
    ensures Run(env, all).Some? && Run(env, all).value.main.Returned?
    ensures Run(env, steps).value.responsesCh <= Run(env, all).value.responsesCh
    decreases 4 * |env| + 2 - |steps|
  {
    hide Next;
    hide Enabled;
    if Run(env, steps).value.main.Returned? {
      all := steps;
    } else {
      var step := NeverDeadlocks(env, steps);
      OneMoreStep(env, steps, step);
      ArrivalsStay(env, Run(env, steps).value, step);
      EveryScheduleEnds(env, steps);
      EveryScheduleEnds(env, steps + [step]);
      RunKeepsInv(env, steps + [step]);
      ReturnedMeansNothingLeft(env, Run(env, steps + [step]).value);
      RemainingIsNat(env, Run(env, steps + [step]).value);
      all := CanFinish(env, steps + [step]);
    }
  }

  lemma RemainingIsNat<R>(env: seq<Answer<R>>, s: State<R>)
    requires Inv(env, s)
    ensures Remaining(env, s) >= 0
  {
  }

  lemma ArrivalsStay<R>(env: seq<Answer<R>>, s: State<R>, step: Step)
    requires Enabled(env, s, step)
    ensures s.responsesCh <= Next(env, s, step).responsesCh
  {
  }

  lemma AnyoneCanBeFirst<R>(env: seq<Answer<R>>, i: nat) returns (steps: seq<Step>)
    requires i < |env| && forall k :: 0 <= k < |env| ==> env[k].Responded?
    ensures Run(env, steps).Some?
    ensures var m := Run(env, steps).value.main;
      m.Returned? && m.result.Success? && m.result.value != [] && m.result.value[0] == env[i].response
  {
    var before := SpawnMany(env, |env|);
    OneMoreStep(env, before, Answer(i));
    OneMoreStep(env, before + [Answer(i)], Send(i));
    var sent := before + [Answer(i)] + [Send(i)];
    assert Run(env, sent).value.responsesCh == [env[i].response];
    steps := CanFinish(env, sent);
    RunKeepsInv(env, steps);
    ReturnsEveryAnswer(env, steps);
  }
}
