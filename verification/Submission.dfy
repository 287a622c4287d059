/** What holds of a call in every interleaving: when an envelope is sent and what it
    carries, what a nil error means, and how the ledger's readers see the envelope. */
module Submission {
  import opened Wrappers
  import opened Codec
  import opened Messages
  import opened TxBuilder
  import opened Invoke
  import TxParser
  import FanOut
  import DeliverGroup
  import DeliverErrors

  predicate AllResponded(env: Env) { forall i :: 0 <= i < |env.answers| ==> env.answers[i].Responded? }

  /** Every endorser answered, successfully and with the same payload. */
  predicate Unanimous(env: Env) {
    && AllResponded(env)
    && (forall i :: 0 <= i < |env.answers| ==> 200 <= env.answers[i].response.response.status < 400)
    && (forall i, j :: 0 <= i < |env.answers| && 0 <= j < |env.answers| ==>
          env.answers[i].response.payload == env.answers[j].response.payload)
  }

  /** The fan-out hands over every endorser's response, once each. */
  lemma RespsAreTheAnswers(env: Env, steps: seq<Step>, s: State)
    requires Run(env, steps) == Some(s) && s.fan.main.Returned? && s.fan.main.result.Success?
    ensures AllResponded(env)
    ensures |Resps(s)| == |env.answers| && multiset(Resps(s)) == FanOut.Responses(env.answers)
  {
    Projects(env, steps);
    FanOut.ReturnsEveryAnswer(env.answers, FanSteps(steps));
  }

  lemma AgreementIsUnanimity(env: Env, resps: seq<ProposalResponse>)
    requires AllResponded(env) && multiset(resps) == FanOut.Responses(env.answers)
    ensures Agree(resps) <==> Unanimous(env)
  {
    if Agree(resps) {
      forall i | 0 <= i < |env.answers| ensures env.answers[i].response in resps {
        FanOut.ResponsesAreAnswers(env.answers, env.answers[i].response);
        assert env.answers[i] == FanOut.Responded(env.answers[i].response);
        assert env.answers[i].response in multiset(resps);
      }
    }
    forall k | 0 <= k < |resps| ensures FanOut.Responded(resps[k]) in env.answers {
      FanOut.ResponsesAreAnswers(env.answers, resps[k]);
      assert resps[k] in multiset(resps);
    }
  }

  /** An envelope is handed to the orderer only by an invocation, only when every
      endorser answered successfully with the same payload, and only when the signer
      created the proposal; it is signed and carries all the responses once each. */
  lemma SendSafety(env: Env, steps: seq<Step>, s: State)
    requires Run(env, steps) == Some(s) && s.sent
    ensures env.invoke && Unanimous(env) && env.answers != []
    ensures var c, p, resps := env.c, ProposalOf(env), Resps(s);
      && |resps| == |env.answers| && multiset(resps) == FanOut.Responses(env.answers)
      && c.header.dec(p.header).Some? && c.proposalPayload.dec(p.payload).Some?
      && (var shdr := c.signatureHeader.dec(c.header.dec(p.header).value.signatureHeader);
          shdr.Some? && Some(shdr.value.creator) == env.signer.serialized)
      && s.envelope.Some?
      && s.envelope.value.payload == c.payload.enc(TxPayload(c, p, resps))
      && Some(s.envelope.value.signature) == env.signer.sign(s.envelope.value.payload)
  {
    hide Run;
    RunKeepsInv(env, steps);
    SentMeansBuilt(env, s);
    RespsAreTheAnswers(env, steps, s);
    AgreementIsUnanimity(env, Resps(s));
  }

  lemma SentMeansBuilt(env: Env, s: State)
    requires Inv(env, s) && s.sent
    ensures Built(env, s)
  {
    hide Acceptable;
    hide EnvelopeOf;
  }

  /** Whether every peer connected and then reported the transaction as valid. */
  predicate CommittedEverywhere(env: Env) {
    forall i :: 0 <= i < |env.peers| ==>
      env.peers[i].connection.Connects? && DeliverGroup.StreamVerdict(env.peers[i].stream, Asked(env).txid).Valid?
  }

  /** A query never sends, nor does a call whose first response is an error. */
  lemma NothingSentWithoutInvoking(env: Env, steps: seq<Step>, s: State)
    requires Run(env, steps) == Some(s)
    requires !env.invoke || (Resps(s) != [] && Resps(s)[0].response.status >= 400)
    ensures !s.sent && s.envelope.None? && s.group.None?
  {
    hide Run;
    hide Acceptable;
    hide EnvelopeOf;
    hide CanPropose;
    RunKeepsInv(env, steps);
  }

  /** What it takes for a call to succeed, given the responses in order of arrival. */
  ghost predicate Succeeds(env: Env, resps: seq<ProposalResponse>) {
    && CanPropose(env) && AllResponded(env) && resps != []
    && (env.invoke && resps[0].response.status < 400 ==>
          && Acceptable(env, resps)
          && env.orderer.Acknowledges?
          && (env.timeout > 0 ==> CommittedEverywhere(env)))
  }

  predicate IsTimeout(e: Error) { (e.CannotConnect? || e.NotCommitted?) && e.reason.TimedOut? }

  /** What the fan-out and the deliver group each guarantee about where they ended. */
  ghost predicate PartsEnded(env: Env, s: State) {
    && (s.fan.main.Returned? ==> (s.fan.main.result.Success? <==> AllResponded(env)))
    && (s.group.Some? ==>
          var m := s.group.value.main;
          && (m.WaitReturned? && m.result.None? ==> CommittedEverywhere(env))
          && (m.WaitReturned? && m.result.Some? && !m.result.value.TimedOut? ==> !CommittedEverywhere(env))
          && (m.ConnectFailed? && !m.error.TimedOut? ==> !CommittedEverywhere(env)))
  }

  lemma PartsEndAsPromised(env: Env, steps: seq<Step>, s: State)
    requires Run(env, steps) == Some(s)
    ensures PartsEnded(env, s)
  {
    hide Run;
    Projects(env, steps);
    if s.fan.main.Returned? {
      FanOut.ReturnsEveryAnswer(env.answers, FanSteps(steps));
    }
    if s.group.Some? {
      GroupEndsAsPromised(env, GroupSteps(steps));
    }
  }

  lemma GroupEndsAsPromised(env: Env, steps: seq<DeliverGroup.Step>)
    requires DeliverGroup.Run(GroupEnv(env), steps).Some?
    ensures var m := DeliverGroup.Run(GroupEnv(env), steps).value.main;
      && (m.WaitReturned? && m.result.None? ==> CommittedEverywhere(env))
      && (m.WaitReturned? && m.result.Some? && !m.result.value.TimedOut? ==> !CommittedEverywhere(env))
      && (m.ConnectFailed? && !m.error.TimedOut? ==> !CommittedEverywhere(env))
  {
    hide DeliverGroup.Run;
    hide DeliverGroup.StreamVerdict;
    DeliverGroup.ConnectOutcome(GroupEnv(env), steps);
    if DeliverGroup.Run(GroupEnv(env), steps).value.main.WaitReturned? {
      DeliverGroup.WaitOutcome(GroupEnv(env), steps);
    }
  }

  lemma OutcomeIsSuccess(env: Env, s: State)
    requires s.main.Returned? && Outcome(env, s) && PartsEnded(env, s)
    ensures s.main.error.None? ==> Succeeds(env, Resps(s))
    ensures s.main.error.Some? && !IsTimeout(s.main.error.value) ==> !Succeeds(env, Resps(s))
  {
    hide Acceptable;
    hide EnvelopeOf;
    hide CanPropose;
    hide CommittedEverywhere;
    hide AllResponded;
  }

  /** A nil error means success in full. */
  lemma NilMeansSuccess(env: Env, steps: seq<Step>, s: State)
    requires Run(env, steps) == Some(s) && s.main.Returned? && s.main.error.None?
    ensures Succeeds(env, Resps(s))
  {
    hide Run;
    hide Outcome;
    hide Succeeds;
    RunKeepsInv(env, steps);
    PartsEndAsPromised(env, steps, s);
    OutcomeIsSuccess(env, s);
  }

  // ----- timeouts

  ghost predicate TimesOut(steps: seq<Step>) {
    exists k :: 0 <= k < |steps| && steps[k] == Deliver(DeliverGroup.TimeOut)
  }

  lemma {:induction false} GroupTimesOut(steps: seq<Step>)
    requires DeliverErrors.TimesOut(GroupSteps(steps))
    ensures TimesOut(steps)
  {
    if steps != [] {
      var n := |steps| - 1;
      var rest := GroupSteps(steps[..n]);
      if steps[n] != Deliver(DeliverGroup.TimeOut) {
        var k :| 0 <= k < |GroupSteps(steps)| && GroupSteps(steps)[k].TimeOut?;
        assert rest[k].TimeOut?;
        GroupTimesOut(steps[..n]);
        var j :| 0 <= j < n && steps[..n][j] == Deliver(DeliverGroup.TimeOut);
        assert steps[j] == Deliver(DeliverGroup.TimeOut);
      }
    }
  }

  /** A call reports a timeout only if its context expired while it was waiting. */
  lemma TimedOutOnlyByTimeOut(env: Env, steps: seq<Step>, s: State)
    requires Run(env, steps) == Some(s) && s.main.Returned?
    requires s.main.error.Some? && IsTimeout(s.main.error.value)
    ensures TimesOut(steps)
  {
    hide Run;
    hide DeliverGroup.Run;
    hide FanOut.Run;
    hide Acceptable;
    hide EnvelopeOf;
    hide CanPropose;
    RunKeepsInv(env, steps);
    Projects(env, steps);
    DeliverErrors.TimedOutOnlyByTimeOut(GroupEnv(env), GroupSteps(steps));
    GroupTimesOut(steps);
  }

  /** And when everything succeeds only a timeout can make the call report an error. */
  lemma SuccessReturnsNil(env: Env, steps: seq<Step>, s: State)
    requires Run(env, steps) == Some(s) && s.main.Returned? && Succeeds(env, Resps(s))
    ensures s.main.error.None? || (IsTimeout(s.main.error.value) && TimesOut(steps))
  {
    hide Run;
    hide Outcome;
    hide Succeeds;
    RunKeepsInv(env, steps);
    PartsEndAsPromised(env, steps, s);
    OutcomeIsSuccess(env, s);
    if s.main.error.Some? {
      TimedOutOnlyByTimeOut(env, steps, s);
    }
  }

  /** What a caller may conclude from a nil error and a first status below 400: the
      transaction was acknowledged and, with a timeout set, is valid on every peer. */
  lemma NilMeansCommitted(env: Env, steps: seq<Step>, s: State)
    requires Run(env, steps) == Some(s) && s.main.Returned? && s.main.error.None? && env.invoke
    ensures s.main.reply.Some? && s.main.reply.value.txid == Asked(env).txid
    ensures s.main.reply.value.response.status < 400 ==>
      && s.sent && s.acked && Unanimous(env)
      && (env.timeout > 0 ==> CommittedEverywhere(env))
    ensures s.main.reply.value.response.status >= 400 ==> !s.sent
  {
    hide Run;
    hide Succeeds;
    RunKeepsInv(env, steps);
    NilMeansSuccess(env, steps, s);
    if s.sent {
      SendSafety(env, steps, s);
      CommitOfSuccess(env, Resps(s));
    }
  }

  lemma CommitOfSuccess(env: Env, resps: seq<ProposalResponse>)
    requires Succeeds(env, resps) && env.invoke && resps[0].response.status < 400
    ensures env.timeout > 0 ==> CommittedEverywhere(env)
  {
    hide CommittedEverywhere;
  }

  /** The request the caller made, under the signer's identity and the computed id. */
  ghost predicate IsRequestOf(env: Env, q: Request) {
    && env.signer.serialized == Some(q.creator)
    && q.txid == Hex(env.sha(env.request.nonce + q.creator))
    && q.nonce == env.request.nonce && q.spec == env.request.spec && q.transientMap == env.request.transientMap
    && q.typ == env.request.typ && q.channelId == env.request.channelId && q.timestamp == env.request.timestamp
  }

  lemma AskedIsTheRequest(env: Env)
    requires env.signer.serialized.Some?
    ensures IsRequestOf(env, Asked(env))
  {
  }

  /** Endorsers are called exactly when the signer has an identity and signs the
      proposal; what they are shown says what the caller asked for. */
  lemma ProposesTheRequest(env: Env, steps: seq<Step>, s: State)
    requires Run(env, steps) == Some(s) && !s.main.Starting? && AllLawful(env.c)
    ensures s.main.Returned? && s.main.error == Some(NoProposal) <==>
      env.signer.serialized.None? || env.signer.sign(env.proposalCodec.enc(ProposalOf(env))).None?
    ensures env.signer.serialized.Some? ==>
      var c, p, q := env.c, ProposalOf(env), Asked(env);
      && IsRequestOf(env, q)
      && c.header.dec(p.header).Some? && TxParser.HeadersSay(c, q, c.header.dec(p.header).value)
      && TxParser.PayloadSays(c, p.payload, env.request.spec, env.request.transientMap)
  {
    hide Run;
    hide Inv;
    hide Asked;
    hide ProposalOf;
    hide IsRequestOf;
    hide TxParser.HeadersSay;
    hide TxParser.PayloadSays;
    RunKeepsInv(env, steps);
    NoProposalExactlyWhen(env, s);
    if env.signer.serialized.Some? {
      ProposalSays(env);
    }
  }

  lemma NoProposalExactlyWhen(env: Env, s: State)
    requires Inv(env, s) && !s.main.Starting?
    ensures s.main.Returned? && s.main.error == Some(NoProposal) <==> !CanPropose(env)
  {
    hide CanPropose;
    hide Acceptable;
    hide EnvelopeOf;
  }

  lemma ProposalSays(env: Env)
    requires AllLawful(env.c) && env.signer.serialized.Some?
    ensures var c, p, q := env.c, ProposalOf(env), Asked(env);
      && IsRequestOf(env, q)
      && c.header.dec(p.header).Some? && TxParser.HeadersSay(c, q, c.header.dec(p.header).value)
      && TxParser.PayloadSays(c, p.payload, env.request.spec, env.request.transientMap)
  {
    hide CreateProposal;
    AskedIsTheRequest(env);
    TxParser.BuiltProposalSays(env.c, Asked(env));
  }

  /** And so does the envelope, byte string by byte string: the caller's channel, type,
      time and nonce, the spec with its arguments, no transient data, and what the
      endorsers answered. */
  lemma SentEnvelopeCarriesTheRequest(env: Env, steps: seq<Step>, s: State)
    requires Run(env, steps) == Some(s) && s.sent && AllLawful(env.c)
    ensures s.envelope.Some? && Resps(s) != []
    ensures var c := env.c;
      var payload := c.payload.dec(s.envelope.value.payload);
      && payload.Some? && payload.value.header.Some?
      && (exists q :: IsRequestOf(env, q) && TxParser.HeadersSay(c, q, payload.value.header.value))
      && var tx := c.transaction.dec(payload.value.data);
      && tx.Some? && |tx.value.actions| == 1
      && tx.value.actions[0].header == payload.value.header.value.signatureHeader
      && var cap := c.actionPayload.dec(tx.value.actions[0].payload);
      && cap.Some? && TxParser.PayloadSays(c, cap.value.chaincodeProposalPayload, env.request.spec, map[])
      && cap.value.action.Some?
      && cap.value.action.value.proposalResponsePayload == Resps(s)[0].payload
      && |cap.value.action.value.endorsements| == |Resps(s)|
      && forall i :: 0 <= i < |Resps(s)| ==> cap.value.action.value.endorsements[i] == Resps(s)[i].endorsement
  {
    hide Run;
    hide TxPayload;
    hide CreateProposal;
    SendSafety(env, steps, s);
    SignerOfSent(env, steps, s);
    AskedIsTheRequest(env);
    TxParser.BuiltHeadersSay(env.c, Asked(env));
    TxParser.ActionPayloadOf(env.c, Asked(env), Resps(s));
    TxParser.StrippedPayloadSays(env.c, env.request.spec);
    assert TxParser.HeadersSay(env.c, Asked(env), HeaderOf(env.c, Asked(env)));
  }

  lemma SignerOfSent(env: Env, steps: seq<Step>, s: State)
    requires Run(env, steps) == Some(s) && s.sent
    ensures env.signer.serialized.Some?
  {
    SendSafety(env, steps, s);
  }

  /** A sent envelope reads back, through the block parser, as this call: its txid,
      its chaincode spec without the transient map, and every endorsement in order. */
  lemma SentEnvelopeReadsBack(env: Env, steps: seq<Step>, s: State)
    requires Run(env, steps) == Some(s) && s.sent
    requires AllLawful(env.c)
    ensures var c, q := env.c, Asked(env);
      && s.envelope.Some? && Resps(s) != []
      && TxParser.GetOrComputeTxID(c, env.sha, c.envelope.enc(s.envelope.value)) == Some(q.txid)
      && CheckTxID(env.sha, q.txid, q.nonce, q.creator)
      && IsRequestOf(env, q)
      && var parsed := TxParser.ParseEnvelope(c, s.envelope.value);
      && (parsed.Success? <==> TxParser.Readable(c, q, Resps(s)))
      && (parsed.Success? ==>
            && TxParser.HeaderSays(c, q, parsed.value.channelHeader)
            && |parsed.value.actions| == 1
            && TxParser.ReadsAs(c, q, Resps(s), parsed.value.actions[0])
            && parsed.value.actions[0].input == Some(env.request.spec))
  {
    hide Run;
    hide TxParser.ReadsAs;
    hide TxParser.Readable;
    hide TxParser.ParseEnvelope;
    hide TxParser.GetOrComputeTxID;
    hide AllLawful;
    SendSafety(env, steps, s);
    SignerOfSent(env, steps, s);
    AskedIsTheRequest(env);
    var q := Asked(env);
    var creator := match env.signer.serialized case None => [] case Some(id) => id;
    assert Envelope(s.envelope.value.payload, s.envelope.value.signature) == s.envelope.value;
    TxParser.ParserUndoesBuilder(env.c, q, Resps(s), s.envelope.value.signature);
    TxParser.TxIDRoundTrip(env.c, env.sha, env.request.(creator := creator, txid := ""), Resps(s),
                           s.envelope.value.signature);
    if TxParser.ParseEnvelope(env.c, s.envelope.value).Success? {
      InputOfAction(env.c, q, Resps(s), TxParser.ParseEnvelope(env.c, s.envelope.value).value.actions[0]);
    }
  }

  lemma InputOfAction(c: Codecs, q: Request, resps: seq<ProposalResponse>, a: TxParser.ParsedTransactionAction)
    requires resps != [] && TxParser.Readable(c, q, resps) && TxParser.ReadsAs(c, q, resps, a)
    ensures a.input == Some(q.spec)
  {
  }
}
