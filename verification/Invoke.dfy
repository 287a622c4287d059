/** One invocation as a whole: the fan-out to the endorsers, the agreement check,
    the envelope, the deliver streams, the broadcast and the wait for the commit,
    as one small-step system over the systems of its parts. Endorsers, orderer and
    peers behave in a fixed but unknown way; the interleaving is arbitrary, and the
    goroutines of the deliver group may outlive the call. */
module Invoke {
  import opened Wrappers
  import opened Codec
  import opened Messages
  import opened TxBuilder
  import FanOut
  import DeliverGroup

  const ERROR_THRESHOLD := 400

  /** What the orderer does; a silent one never answers what it was sent. */
  datatype Orderer = NoClient(e: string) | NotSent(e: string) | Refused(e: string) | Acknowledges | Silent

  datatype Env = Env(
    c: Codecs, proposalCodec: Codec<Proposal>, sha: Bytes -> Bytes,
    request: Request, signer: Signer,
    answers: seq<FanOut.Answer<ProposalResponse>>,
    invoke: bool, timeout: int,
    orderer: Orderer, peers: seq<DeliverGroup.Client>)

  /** The request made: its creator is the signer, its txid the computed one. */
  function Asked(env: Env): Request {
    var creator := match env.signer.serialized case None => [] case Some(id) => id;
    WithTxID(env.sha, env.request.(creator := creator, txid := ""))
  }

  function ProposalOf(env: Env): Proposal { CreateProposal(env.c, Asked(env)) }

  function GroupEnv(env: Env): DeliverGroup.Env { DeliverGroup.Env(env.peers, Asked(env).txid) }

  predicate CanPropose(env: Env) {
    env.signer.serialized.Some? && env.signer.sign(env.proposalCodec.enc(ProposalOf(env))).Some?
  }

  datatype Error =
    | NoProposal
    | EndorserFailed(e: string)
    | NoAnswers
    | NotAssembled
    | NoBroadcastClient(e: string)
    | CannotConnect(reason: DeliverGroup.Error)
    | CannotSend(e: string)
    | NotAcknowledged(e: string)
    | NotCommitted(reason: DeliverGroup.Error)

  datatype Reply = Reply(txid: string, response: Response)

  datatype Main =
    | Starting
    | Endorsing
    | Assembling
    | Opening
    | Connecting
    | Broadcasting
    | Acking
    | Awaiting
    | Returned(reply: Option<Reply>, error: Option<Error>)

  datatype State = State(
    main: Main,
    fan: FanOut.State<ProposalResponse>,
    envelope: Option<Envelope>,
    group: Option<DeliverGroup.State>,
    sent: bool,    // the envelope was handed to the orderer's stream
    acked: bool)   // the orderer answered with success

  datatype Step =
    | Begin
    | Endorse(f: FanOut.Step)
    | Decide
    | Assemble
    | Open
    | Deliver(d: DeliverGroup.Step)
    | Join
    | Send
    | Ack
    | Finish

  function Init(): State { State(Starting, FanOut.Init(), None, None, false, false) }

  function Resps(s: State): seq<ProposalResponse> {
    if s.fan.main.Returned? && s.fan.main.result.Success? then s.fan.main.result.value else []
  }

  function ReplyOf(env: Env, s: State): Option<Reply> {
    if Resps(s) == [] then None else Some(Reply(Asked(env).txid, Resps(s)[0].response))
  }

  predicate Shaped(env: Env, s: State) { s.group.Some? ==> DeliverGroup.Shaped(GroupEnv(env), s.group.value) }

  /** Steps of Connect and Wait themselves happen only while they run; those of the
      group's goroutines at any time, even after the call has returned. */
  predicate MayRun(m: Main, d: DeliverGroup.Step) {
    match d
    case Spawn => m.Connecting? || m.Awaiting?
    case TakeReady => m.Connecting? || m.Awaiting?
    case TimeOut => m.Connecting? || m.Awaiting?
    case StartWait => m.Awaiting?
    case _ => true
  }

  predicate Enabled(env: Env, s: State, step: Step) {
    match step
    case Begin => s.main.Starting?
    case Endorse(f) => s.main.Endorsing? && FanOut.Enabled(env.answers, s.fan, f)
    case Decide => s.main.Endorsing? && s.fan.main.Returned?
    case Assemble => s.main.Assembling?
    case Open => s.main.Opening?
    case Deliver(d) => s.group.Some? && MayRun(s.main, d) && DeliverGroup.Enabled(GroupEnv(env), s.group.value, d)
    case Join =>
      && s.main.Connecting? && s.group.Some?
      && (s.group.value.main.Connected? || s.group.value.main.ConnectFailed?)
    case Send => s.main.Broadcasting?
    case Ack => s.main.Acking? && !env.orderer.Silent?
    case Finish => s.main.Awaiting? && s.group.Some? && s.group.value.main.WaitReturned?
  }

  function Return(env: Env, s: State, error: Option<Error>): State { s.(main := Returned(ReplyOf(env, s), error)) }

  /** What invokeOrQuery does with the outcome of the fan-out: only the status of
      the first response to arrive decides whether to go on. */
  function DecideNext(env: Env, s: State): State
    requires s.fan.main.Returned?
  {
    match s.fan.main.result
    case Failure(e) => Return(env, s, Some(EndorserFailed(e)))
    case Success(resps) =>
      if resps == [] then Return(env, s, Some(NoAnswers))
      else if resps[0].response.status >= ERROR_THRESHOLD || !env.invoke then Return(env, s, None)
      else s.(main := Assembling)
  }

  ghost predicate Acceptable(env: Env, resps: seq<ProposalResponse>) {
    Accepts(env.c, ProposalOf(env), env.signer, resps)
  }

  ghost function EnvelopeOf(env: Env, resps: seq<ProposalResponse>): Envelope
    requires Acceptable(env, resps)
  {
    var payload := env.c.payload.enc(TxPayload(env.c, ProposalOf(env), resps));
    Envelope(payload, env.signer.sign(payload).value)
  }

  ghost function Next(env: Env, s: State, step: Step): (s': State)
    requires Shaped(env, s) && Enabled(env, s, step)
    ensures Shaped(env, s')
  {
    match step
    case Begin => if CanPropose(env) then s.(main := Endorsing) else s.(main := Returned(None, Some(NoProposal)))
    case Endorse(f) => s.(fan := FanOut.Next(env.answers, s.fan, f))
    case Decide => DecideNext(env, s)
    case Assemble =>
      if Acceptable(env, Resps(s)) then s.(main := Opening, envelope := Some(EnvelopeOf(env, Resps(s))))
      else Return(env, s, Some(NotAssembled))
    case Open =>
      if env.orderer.NoClient? then Return(env, s, Some(NoBroadcastClient(env.orderer.e)))
      else if env.timeout > 0 then s.(main := Connecting, group := Some(DeliverGroup.Init(GroupEnv(env))))
      else s.(main := Broadcasting)
    case Deliver(d) => s.(group := Some(DeliverGroup.Next(GroupEnv(env), s.group.value, d)))
    case Join =>
      if s.group.value.main.Connected? then s.(main := Broadcasting)
      else Return(env, s, Some(CannotConnect(s.group.value.main.error)))
    case Send =>
      if env.orderer.NotSent? then Return(env, s.(sent := true), Some(CannotSend(env.orderer.e)))
      else s.(main := Acking, sent := true)
    case Ack =>
      if env.orderer.Refused? then Return(env, s, Some(NotAcknowledged(env.orderer.e)))
      else if env.timeout > 0 then s.(main := Awaiting, acked := true)
      else Return(env, s.(acked := true), None)
    case Finish =>
      (match s.group.value.main.result
       case None => Return(env, s, None)
       case Some(e) => Return(env, s, Some(NotCommitted(e))))
  }

  /** The state after a schedule, if each of its steps was enabled. */
  ghost function Run(env: Env, steps: seq<Step>): (r: Option<State>)
    ensures r.Some? ==> Shaped(env, r.value)
    decreases |steps|, 1
  {
    if steps == [] then Some(Init()) else RunLast(env, steps)
  }

  ghost function RunLast(env: Env, steps: seq<Step>): (r: Option<State>)
    requires steps != []
    ensures r.Some? ==> Shaped(env, r.value)
    decreases |steps|, 0
  {
    match Run(env, steps[..|steps| - 1])
    case None => None
    case Some(s) =>
      var step := steps[|steps| - 1];
      if Enabled(env, s, step) then Some(Next(env, s, step)) else None
  }

  lemma LastStep(env: Env, steps: seq<Step>)
    requires steps != [] && Run(env, steps).Some?
    ensures var before, step := Run(env, steps[..|steps| - 1]), steps[|steps| - 1];
      before.Some? && Enabled(env, before.value, step) && Run(env, steps) == Some(Next(env, before.value, step))
  {
    hide Next;
    hide Enabled;
    assert Run(env, steps) == RunLast(env, steps);
  }

  // ----- a run of the whole contains a run of each part

  function FanSteps(steps: seq<Step>): seq<FanOut.Step> {
    if steps == [] then []
    else
      var rest, last := FanSteps(steps[..|steps| - 1]), steps[|steps| - 1];
      if last.Endorse? then rest + [last.f] else rest
  }

  function GroupSteps(steps: seq<Step>): seq<DeliverGroup.Step> {
    if steps == [] then []
    else
      var rest, last := GroupSteps(steps[..|steps| - 1]), steps[|steps| - 1];
      if last.Deliver? then rest + [last.d] else rest
  }

  /** The runs of the parts that have led to a state of the whole. */
  ghost predicate Led(env: Env, s: State, fan: seq<FanOut.Step>, group: seq<DeliverGroup.Step>) {
    && FanOut.Run(env.answers, fan) == Some(s.fan)
    && (if s.group.None? then group == [] else DeliverGroup.Run(GroupEnv(env), group) == s.group)
    && (s.main.Starting? || s.main.Endorsing? || s.main.Assembling? || s.main.Opening? ==> s.group.None?)
  }

  lemma StepLeads(env: Env, s: State, step: Step, fan: seq<FanOut.Step>, group: seq<DeliverGroup.Step>)
    requires Shaped(env, s) && Led(env, s, fan, group) && Enabled(env, s, step)
    ensures Led(env, Next(env, s, step),
                if step.Endorse? then fan + [step.f] else fan, if step.Deliver? then group + [step.d] else group)
  {
    hide FanOut.Next;
    hide FanOut.Enabled;
    hide FanOut.Run;
    hide DeliverGroup.Next;
    hide DeliverGroup.Enabled;
    hide CanPropose;
    hide Resps;
    hide ReplyOf;
    hide Acceptable;
    hide EnvelopeOf;
    match step
    case Endorse(f) => FanOut.OneMoreStep(env.answers, fan, f);
    case Deliver(d) => DeliverGroup.OneMoreStep(GroupEnv(env), group, d);
    case _ =>
  }

  lemma {:induction false} Projects(env: Env, steps: seq<Step>)
    requires Run(env, steps).Some?
    ensures Led(env, Run(env, steps).value, FanSteps(steps), GroupSteps(steps))
  {
    hide FanOut.Next;
    hide DeliverGroup.Next;
    hide Next;
    hide Enabled;
    if steps != [] {
      var n := |steps| - 1;
      LastStep(env, steps);
      Projects(env, steps[..n]);
      StepLeads(env, Run(env, steps[..n]).value, steps[n], FanSteps(steps[..n]), GroupSteps(steps[..n]));
    }
  }

  // ----- the invariant

  predicate Untouched(s: State) { s.envelope.None? && s.group.None? && !s.sent && !s.acked }

  /** The fan-out is over and the first response lets an invocation go on. */
  predicate Endorsed(env: Env, s: State) {
    && env.invoke && CanPropose(env)
    && s.fan.main.Returned? && s.fan.main.result.Success?
    && Resps(s) != [] && Resps(s)[0].response.status < ERROR_THRESHOLD
  }

  ghost predicate Built(env: Env, s: State) {
    && Endorsed(env, s)
    && Acceptable(env, Resps(s))
    && s.envelope == Some(EnvelopeOf(env, Resps(s)))
  }

  predicate Joined(env: Env, s: State) {
    if env.timeout > 0 then s.group.Some? && s.group.value.main.Connected? else s.group.None?
  }

  predicate InWaitPhase(m: DeliverGroup.Main) { m.Connected? || DeliverGroup.InWait(m) }

  /** What each way of returning says about the run. */
  ghost predicate Outcome(env: Env, s: State)
    requires s.main.Returned?
  {
    match s.main.error
    case None =>
      && s.main.reply == ReplyOf(env, s) && Resps(s) != [] && CanPropose(env)
      && (if env.invoke && Resps(s)[0].response.status < ERROR_THRESHOLD
          then
            && Built(env, s) && s.sent && s.acked && env.orderer.Acknowledges?
            && (env.timeout > 0 ==>
                  s.group.Some? && s.group.value.main.WaitReturned? && s.group.value.main.result.None?)
          else Untouched(s))
    case Some(NoProposal) => Untouched(s) && !CanPropose(env)
    case Some(EndorserFailed(e)) =>
      Untouched(s) && CanPropose(env) && s.fan.main.Returned? && s.fan.main.result == Failure(e)
    case Some(NoAnswers) => Untouched(s) && CanPropose(env) && s.fan.main.Returned? && s.fan.main.result == Success([])
    case Some(NotAssembled) => Untouched(s) && Endorsed(env, s) && !Acceptable(env, Resps(s))
    case Some(NoBroadcastClient(e)) => Built(env, s) && !s.sent && !s.acked && env.orderer == NoClient(e)
    case Some(CannotConnect(e)) =>
      && Built(env, s) && env.timeout > 0 && !s.sent && !s.acked
      && s.group.Some? && s.group.value.main == DeliverGroup.ConnectFailed(e)
    case Some(CannotSend(e)) => Built(env, s) && s.sent && !s.acked && env.orderer == NotSent(e)
    case Some(NotAcknowledged(e)) => Built(env, s) && s.sent && !s.acked && env.orderer == Refused(e)
    case Some(NotCommitted(e)) =>
      && Built(env, s) && env.timeout > 0 && s.sent && s.acked && env.orderer.Acknowledges?
      && s.group.Some? && s.group.value.main.WaitReturned? && s.group.value.main.result == Some(e)
  }

  ghost predicate Inv(env: Env, s: State) {
    match s.main
    case Starting => Untouched(s)
    case Endorsing => Untouched(s) && CanPropose(env)
    case Assembling => Untouched(s) && Endorsed(env, s)
    case Opening => Built(env, s) && s.group.None? && !s.sent && !s.acked
    case Connecting =>
      && Built(env, s) && s.group.Some? && !DeliverGroup.InWait(s.group.value.main) && env.timeout > 0
      && !s.sent && !s.acked && !env.orderer.NoClient?
    case Broadcasting => Built(env, s) && Joined(env, s) && !s.sent && !s.acked && !env.orderer.NoClient?
    case Acking =>
      && Built(env, s) && Joined(env, s) && s.sent && !s.acked
      && !env.orderer.NoClient? && !env.orderer.NotSent?
    case Awaiting =>
      && Built(env, s) && s.group.Some? && InWaitPhase(s.group.value.main) && env.timeout > 0
      && s.sent && s.acked && env.orderer.Acknowledges?
    case Returned(_, _) => Outcome(env, s)
  }

  /** The caller's view of the group changes only while the caller runs it. */
  lemma GroupKeepsCallersView(env: DeliverGroup.Env, s: DeliverGroup.State, d: DeliverGroup.Step, m: Main)
    requires DeliverGroup.Shaped(env, s) && DeliverGroup.Enabled(env, s, d) && MayRun(m, d)
    ensures !m.Connecting? && !m.Awaiting? ==> DeliverGroup.Next(env, s, d).main == s.main
    ensures m.Connecting? && !DeliverGroup.InWait(s.main) ==> !DeliverGroup.InWait(DeliverGroup.Next(env, s, d).main)
    ensures m.Awaiting? && InWaitPhase(s.main) ==> InWaitPhase(DeliverGroup.Next(env, s, d).main)
  {
  }

  lemma DeliverKeepsInv(env: Env, s: State, d: DeliverGroup.Step)
    requires Shaped(env, s) && Inv(env, s) && Enabled(env, s, Deliver(d))
    ensures Inv(env, Next(env, s, Deliver(d)))
  {
    hide DeliverGroup.Next;
    hide DeliverGroup.Enabled;
    hide Acceptable;
    hide EnvelopeOf;
    hide CanPropose;
    GroupKeepsCallersView(GroupEnv(env), s.group.value, d, s.main);
  }

  lemma EarlyStepKeepsInv(env: Env, s: State, step: Step)
    requires Shaped(env, s) && Inv(env, s) && Enabled(env, s, step)
    requires step.Begin? || step.Endorse? || step.Decide? || step.Assemble? || step.Open?
    ensures Inv(env, Next(env, s, step))
  {
    hide FanOut.Next;
    hide FanOut.Enabled;
    hide Acceptable;
    hide EnvelopeOf;
    hide CanPropose;
  }

  lemma LateStepKeepsInv(env: Env, s: State, step: Step)
    requires Shaped(env, s) && Inv(env, s) && Enabled(env, s, step)
    requires step.Join? || step.Send? || step.Ack? || step.Finish?
    ensures Inv(env, Next(env, s, step))
  {
    hide Acceptable;
    hide EnvelopeOf;
    hide CanPropose;
  }

  lemma StepKeepsInv(env: Env, s: State, step: Step)
    requires Shaped(env, s) && Inv(env, s) && Enabled(env, s, step)
    ensures Inv(env, Next(env, s, step))
  {
    hide Inv;
    hide Next;
    hide Enabled;
    match step
    case Deliver(d) => DeliverKeepsInv(env, s, d);
    case Begin => EarlyStepKeepsInv(env, s, step);
    case Endorse(_) => EarlyStepKeepsInv(env, s, step);
    case Decide => EarlyStepKeepsInv(env, s, step);
    case Assemble => EarlyStepKeepsInv(env, s, step);
    case Open => EarlyStepKeepsInv(env, s, step);
    case _ => LateStepKeepsInv(env, s, step);
  }

  lemma {:induction false} RunKeepsInv(env: Env, steps: seq<Step>)
    requires Run(env, steps).Some?
    ensures Inv(env, Run(env, steps).value)
  {
    hide Next;
    hide Enabled;
    hide Inv;
    if steps == [] {
      InitInv(env);
    } else {
      LastStep(env, steps);
      RunKeepsInv(env, steps[..|steps| - 1]);
      StepKeepsInv(env, Run(env, steps[..|steps| - 1]).value, steps[|steps| - 1]);
    }
  }

  lemma InitInv(env: Env)
    ensures Inv(env, Init())
  {
  }

  lemma OneMoreStep(env: Env, steps: seq<Step>, step: Step)
    requires Run(env, steps).Some? && Enabled(env, Run(env, steps).value, step)
    ensures Run(env, steps + [step]) == Some(Next(env, Run(env, steps).value, step))
  {
    hide Next;
    hide Enabled;
    assert (steps + [step])[..|steps|] == steps;
    assert Run(env, steps + [step]) == RunLast(env, steps + [step]);
  }
}
