/** Reading a transaction back: the typed block view, the chaincode action, the
    transaction id, and the committer's recomputation of the proposal hash. */
module TxParser {
  import opened Wrappers
  import opened Codec
  import opened Messages
  import opened TxBuilder
  import RwSets

  // ----- the typed view

  datatype IdentityHeader = IdentityHeader(creator: SerializedIdentity, nonce: Bytes)

  datatype ParsedEndorsement = ParsedEndorsement(endorser: SerializedIdentity, signature: Bytes)

  datatype ParsedAction = ParsedAction(
    response: Option<Response>, chaincodeId: Option<ChaincodeID>, events: Bytes, results: seq<RwSets.NsRwSet>)

  datatype ParsedTransactionAction = ParsedTransactionAction(
    header: IdentityHeader,
    endorsements: seq<ParsedEndorsement>,
    proposalHash: Bytes,
    action: ParsedAction,
    transientMap: map<string, Bytes>,
    input: Option<ChaincodeSpec>)

  datatype ParsedEnvelope = ParsedEnvelope(
    channelHeader: ChannelHeader, signatureHeader: IdentityHeader,
    actions: seq<ParsedTransactionAction>, signature: Bytes)

  /** NilPointer stands for the panic of following a submessage that is absent. */
  datatype ParseError = Undecodable | NilPointer

  function ParseIdentityHeader(c: Codecs, b: Bytes): Option<IdentityHeader> {
    match c.signatureHeader.dec(b)
    case None => None
    case Some(h) =>
      match c.identity.dec(h.creator)
      case None => None
      case Some(id) => Some(IdentityHeader(id, h.nonce))
  }

  function ParseEndorsement(c: Codecs): Endorsement -> Option<ParsedEndorsement> {
    (e: Endorsement) =>
      match c.identity.dec(e.endorser)
      case None => None
      case Some(id) => Some(ParsedEndorsement(id, e.signature))
  }

  /** The error of decoding the extension is dropped: what decoding had filled in
      before it failed is read as the action. */
  function ParseAction(c: Codecs, extension: Bytes): Option<ParsedAction> {
    var cc := c.partialAction(extension);
    match RwSets.FromBytes(c.rwSets, cc.results)
    case None => None
    case Some(sets) => Some(ParsedAction(cc.response, cc.chaincodeId, cc.events, sets))
  }

  function ParseTransactionAction(c: Codecs, ta: TransactionAction): Result<ParsedTransactionAction, ParseError> {
    match (ParseIdentityHeader(c, ta.header), c.actionPayload.dec(ta.payload))
    case (Some(header), Some(cap)) =>
      if cap.action.None? then Failure(NilPointer)
      else
        var cea := cap.action.value;
        (match (RwSets.All(ParseEndorsement(c), cea.endorsements), c.responsePayload.dec(cea.proposalResponsePayload))
         case (Some(es), Some(prp)) =>
           (match (ParseAction(c, prp.extension), c.proposalPayload.dec(cap.chaincodeProposalPayload))
            case (Some(act), Some(cpp)) =>
              (match c.cis.dec(cpp.input)
               case None => Failure(Undecodable)
               case Some(cis) =>
                 Success(ParsedTransactionAction(
                   header, es, prp.proposalHash, act, cpp.transientMap, cis.chaincodeSpec)))
            case _ => Failure(Undecodable))
         case _ => Failure(Undecodable))
    case _ => Failure(Undecodable)
  }

  /** The results of the actions in order, or the first failure. */
  function ParseActions(c: Codecs, tas: seq<TransactionAction>): Result<seq<ParsedTransactionAction>, ParseError> {
    if tas == [] then Success([])
    else
      match ParseTransactionAction(c, tas[0])
      case Failure(e) => Failure(e)
      case Success(a) => Prefixed([a], ParseActions(c, tas[1..]))
  }

  method UnmarshalEndorsements(c: Codecs, es: seq<Endorsement>) returns (r: Option<seq<ParsedEndorsement>>)
    ensures r == RwSets.All(ParseEndorsement(c), es)
  {
    var endorsements := new ParsedEndorsement[|es|](_ => ParsedEndorsement(SerializedIdentity("", []), []));
    for i := 0 to |es|
      invariant forall k :: 0 <= k < i ==> ParseEndorsement(c)(es[k]) == Some(endorsements[k])
    {
      var id := c.identity.dec(es[i].endorser);
      if id.None? {
        assert ParseEndorsement(c)(es[i]).None?;
        return None;
      }
      endorsements[i] := ParsedEndorsement(id.value, es[i].signature);
    }
    var all := RwSets.All(ParseEndorsement(c), es);
    assert all.Some? ==> endorsements[..] == all.value;
    return Some(endorsements[..]);
  }

  method UnmarshalTransactionAction(c: Codecs, ta: TransactionAction)
    returns (r: Result<ParsedTransactionAction, ParseError>)
    ensures r == ParseTransactionAction(c, ta)
  {
    var header := ParseIdentityHeader(c, ta.header);
    var cap := c.actionPayload.dec(ta.payload);
    if header.None? || cap.None? {
      return Failure(Undecodable);
    }
    if cap.value.action.None? {
      return Failure(NilPointer);
    }
    var cea := cap.value.action.value;
    var es := UnmarshalEndorsements(c, cea.endorsements);
    var prp := c.responsePayload.dec(cea.proposalResponsePayload);
    if es.None? || prp.None? {
      return Failure(Undecodable);
    }
    var act := ParseAction(c, prp.value.extension);
    var cpp := c.proposalPayload.dec(cap.value.chaincodeProposalPayload);
    if act.None? || cpp.None? {
      return Failure(Undecodable);
    }
    var cis := c.cis.dec(cpp.value.input);
    if cis.None? {
      return Failure(Undecodable);
    }
    return Success(ParsedTransactionAction(
      header.value, es.value, prp.value.proposalHash, act.value, cpp.value.transientMap, cis.value.chaincodeSpec));
  }

  method UnmarshalTransactionActions(c: Codecs, tas: seq<TransactionAction>)
    returns (r: Result<seq<ParsedTransactionAction>, ParseError>)
    ensures r == ParseActions(c, tas)
  {
    var txActions: seq<ParsedTransactionAction> := [];
    assert tas[0..] == tas;
    PrefixNothing(ParseActions(c, tas));
    for i := 0 to |tas|
      invariant Prefixed(txActions, ParseActions(c, tas[i..])) == ParseActions(c, tas)
    {
      assert tas[i..][1..] == tas[i + 1..];
      var txAction := UnmarshalTransactionAction(c, tas[i]);
      if txAction.Failure? {
        return Failure(txAction.error);
      }
      PrefixOne(txActions, txAction.value, ParseActions(c, tas[i + 1..]));
      txActions := txActions + [txAction.value];
    }
    assert txActions + [] == txActions;
    return Success(txActions);
  }

  function Prefixed(done: seq<ParsedTransactionAction>, r: Result<seq<ParsedTransactionAction>, ParseError>)
    : Result<seq<ParsedTransactionAction>, ParseError>
  {
    match r { case Failure(e) => Failure(e) case Success(rest) => Success(done + rest) }
  }

  lemma PrefixNothing(r: Result<seq<ParsedTransactionAction>, ParseError>)
    ensures Prefixed([], r) == r
  {
    if r.Success? {
      assert [] + r.value == r.value;
    }
  }

  lemma PrefixOne(done: seq<ParsedTransactionAction>, a: ParsedTransactionAction,
                  r: Result<seq<ParsedTransactionAction>, ParseError>)
    ensures Prefixed(done, Prefixed([a], r)) == Prefixed(done + [a], r)
  {
    if r.Success? {
      assert done + ([a] + r.value) == (done + [a]) + r.value;
    }
  }

  method UnmarshalEnvelope(c: Codecs, env: Envelope) returns (r: Result<ParsedEnvelope, ParseError>)
    ensures r == ParseEnvelope(c, env)
  {
    var payload := c.payload.dec(env.payload);
    if payload.None? {
      return Failure(Undecodable);
    }
    if payload.value.header.None? {
      return Failure(NilPointer);
    }
    var channelHeader := c.channelHeader.dec(payload.value.header.value.channelHeader);
    var sigHeader := ParseIdentityHeader(c, payload.value.header.value.signatureHeader);
    if channelHeader.None? || sigHeader.None? {
      return Failure(Undecodable);
    }
    var tx := c.transaction.dec(payload.value.data);
    if tx.None? {
      return Failure(Undecodable);
    }
    var txActions := UnmarshalTransactionActions(c, tx.value.actions);
    match txActions {
      case Failure(e) => r := Failure(e);
      case Success(actions) =>
        r := Success(ParsedEnvelope(channelHeader.value, sigHeader.value, actions, env.signature));
    }
  }

  function ParseEnvelope(c: Codecs, env: Envelope): Result<ParsedEnvelope, ParseError> {
    match c.payload.dec(env.payload)
    case None => Failure(Undecodable)
    case Some(payload) =>
      if payload.header.None? then Failure(NilPointer)
      else
        match (c.channelHeader.dec(payload.header.value.channelHeader),
               ParseIdentityHeader(c, payload.header.value.signatureHeader),
               c.transaction.dec(payload.data))
        case (Some(ch), Some(sh), Some(tx)) =>
          (match ParseActions(c, tx.actions)
           case Failure(e) => Failure(e)
           case Success(actions) => Success(ParsedEnvelope(ch, sh, actions, env.signature)))
        case _ => Failure(Undecodable)
  }

  function GetAction(c: Codecs, env: Envelope): Option<ChaincodeAction> {
    match c.payload.dec(env.payload)
    case None => None
    case Some(payload) =>
      match c.transaction.dec(payload.data)
      case None => None
      case Some(tx) =>
        if tx.actions == [] then None
        else
          match c.actionPayload.dec(tx.actions[0].payload)
          case None => None
          case Some(cap) =>
            if cap.action.None? || cap.action.value.proposalResponsePayload == [] then None
            else
              match c.responsePayload.dec(cap.action.value.proposalResponsePayload)
              case None => None
              case Some(prp) => if prp.extension == [] then None else c.action.dec(prp.extension)
  }

  function GetOrComputeTxID(c: Codecs, sha: Bytes -> Bytes, envBytes: Bytes): Option<string> {
    match c.envelope.dec(envBytes)
    case None => None
    case Some(env) =>
      match c.payload.dec(env.payload)
      case None => None
      case Some(payload) =>
        if payload.header.None? then None
        else
          match c.channelHeader.dec(payload.header.value.channelHeader)
          case None => None
          case Some(ch) =>
            if ch.txId != "" then Some(ch.txId)
            else
              match c.signatureHeader.dec(payload.header.value.signatureHeader)
              case None => None
              case Some(sh) => Some(ComputeTxID(sha, sh.nonce, sh.creator))
  }

  function InvokedChaincodeName(c: Codecs, proposals: Codec<Proposal>, proposalBytes: Bytes): Option<string> {
    match proposals.dec(proposalBytes)
    case None => None
    case Some(proposal) =>
      match c.proposalPayload.dec(proposal.payload)
      case None => None
      case Some(cpp) =>
        match c.cis.dec(cpp.input)
        case None => None
        case Some(cis) =>
          if cis.chaincodeSpec.None? || cis.chaincodeSpec.value.chaincodeId.None? then None
          else Some(cis.chaincodeSpec.value.chaincodeId.value.name)
  }

  // ----- builder and parser undo each other

  /** What the parser needs of the opaque parts: identities, action and results. */
  ghost predicate Readable(c: Codecs, q: Request, resps: seq<ProposalResponse>)
    requires resps != []
  {
    && c.identity.dec(q.creator).Some?
    && (forall i :: 0 <= i < |resps| ==> c.identity.dec(resps[i].endorsement.endorser).Some?)
    && c.responsePayload.dec(resps[0].payload).Some?
    && ParseAction(c, c.responsePayload.dec(resps[0].payload).value.extension).Some?
  }

  lemma BuiltParts(c: Codecs, q: Request)
    requires AllLawful(c)
    ensures var p := CreateProposal(c, q);
      && c.header.dec(p.header) == Some(HeaderOf(c, q))
      && c.channelHeader.dec(HeaderOf(c, q).channelHeader) == Some(ChannelHeaderOf(c, q))
      && c.signatureHeader.dec(HeaderOf(c, q).signatureHeader) == Some(SignatureHeader(q.creator, q.nonce))
      && c.proposalPayload.dec(p.payload)
           == Some(ChaincodeProposalPayload(c.cis.enc(ChaincodeInvocationSpec(Some(q.spec))), q.transientMap))
  {
  }

  /** The channel header of a request, field by field. */
  ghost predicate HeaderSays(c: Codecs, q: Request, h: ChannelHeader) {
    && h.typ == q.typ && h.timestamp == q.timestamp && h.channelId == q.channelId && h.txId == q.txid && h.epoch == 0
    && c.ext.dec(h.extension) == Some(ChaincodeHeaderExtension(q.spec.chaincodeId))
  }

  /** The payload that endorsers are shown carries the spec and the transient map, the
      one in a transaction only the spec. */
  ghost predicate PayloadSays(c: Codecs, payload: Bytes, spec: ChaincodeSpec, transientMap: map<string, Bytes>) {
    && var p := c.proposalPayload.dec(payload);
    && p.Some? && p.value.transientMap == transientMap
    && c.cis.dec(p.value.input) == Some(ChaincodeInvocationSpec(Some(spec)))
  }

  ghost predicate HeadersSay(c: Codecs, q: Request, hdr: Header) {
    && var h := c.channelHeader.dec(hdr.channelHeader);
    && h.Some? && HeaderSays(c, q, h.value)
    && c.signatureHeader.dec(hdr.signatureHeader) == Some(SignatureHeader(q.creator, q.nonce))
  }

  /** What a built proposal says, decoded part by part. */
  lemma BuiltProposalSays(c: Codecs, q: Request)
    requires AllLawful(c)
    ensures var p := CreateProposal(c, q);
      && c.header.dec(p.header).Some? && HeadersSay(c, q, c.header.dec(p.header).value)
      && PayloadSays(c, p.payload, q.spec, q.transientMap)
  {
    BuiltParts(c, q);
  }

  lemma BuiltHeadersSay(c: Codecs, q: Request)
    requires AllLawful(c)
    ensures HeadersSay(c, q, HeaderOf(c, q))
  {
    BuiltParts(c, q);
  }

  lemma StrippedPayloadSays(c: Codecs, spec: ChaincodeSpec)
    requires AllLawful(c)
    ensures PayloadSays(c, c.proposalPayload.enc(
      ChaincodeProposalPayload(c.cis.enc(ChaincodeInvocationSpec(Some(spec))), map[])), spec, map[])
  {
  }

  /** The client signs for exactly these requests and responses. */
  lemma AcceptsBuiltProposal(c: Codecs, q: Request, signer: Signer, resps: seq<ProposalResponse>)
    requires AllLawful(c)
    ensures var p := CreateProposal(c, q);
      Accepts(c, p, signer, resps) <==>
        && resps != [] && Agree(resps)
        && signer.serialized == Some(q.creator)
        && c.header.dec(p.header).Some? && c.proposalPayload.dec(p.payload).Some?
        && signer.sign(c.payload.enc(TxPayload(c, p, resps))).Some?
  {
    BuiltParts(c, q);
  }

  /** The action payload as it arrives at the committer. */
  lemma ActionPayloadOf(c: Codecs, q: Request, resps: seq<ProposalResponse>)
    requires AllLawful(c) && resps != []
    ensures var p := CreateProposal(c, q);
      && c.header.dec(p.header).Some? && c.proposalPayload.dec(p.payload).Some?
      && var payload := TxPayload(c, p, resps);
      && payload.header == Some(HeaderOf(c, q))
      && c.payload.dec(c.payload.enc(payload)) == Some(payload)
      && var tx := c.transaction.dec(payload.data);
      && tx.Some? && |tx.value.actions| == 1
      && tx.value.actions[0].header == HeaderOf(c, q).signatureHeader
      && c.actionPayload.dec(tx.value.actions[0].payload) == Some(ChaincodeActionPayload(
           c.proposalPayload.enc(ChaincodeProposalPayload(c.cis.enc(ChaincodeInvocationSpec(Some(q.spec))), map[])),
           Some(ChaincodeEndorsedAction(resps[0].payload, Endorsements(resps)))))
  {
    BuiltParts(c, q);
  }

  /** The typed action says what the request and the responses said: headers,
      endorsements in order, spec, endorsed action, and no transient data. */
  ghost predicate ReadsAs(c: Codecs, q: Request, resps: seq<ProposalResponse>, a: ParsedTransactionAction)
    requires resps != [] && Readable(c, q, resps)
  {
    var prp := c.responsePayload.dec(resps[0].payload).value;
    && a.header == IdentityHeader(c.identity.dec(q.creator).value, q.nonce)
    && |a.endorsements| == |resps|
    && (forall i :: 0 <= i < |resps| ==>
          && a.endorsements[i].signature == resps[i].endorsement.signature
          && Some(a.endorsements[i].endorser) == c.identity.dec(resps[i].endorsement.endorser))
    && a.proposalHash == prp.proposalHash
    && Some(a.action) == ParseAction(c, prp.extension)
    && a.transientMap == map[]
    && a.input == Some(q.spec)
  }

  /** Parsing a built envelope succeeds exactly when its opaque parts are readable,
      and then gives back everything that went in, minus the transient map. */
  lemma ParserUndoesBuilder(c: Codecs, q: Request, resps: seq<ProposalResponse>, sig: Bytes)
    requires AllLawful(c) && resps != []
    ensures var p := CreateProposal(c, q);
      && c.header.dec(p.header).Some? && c.proposalPayload.dec(p.payload).Some?
      && var r := ParseEnvelope(c, Envelope(c.payload.enc(TxPayload(c, p, resps)), sig));
      && (r.Success? <==> Readable(c, q, resps))
      && (r.Success? ==>
            && HeaderSays(c, q, r.value.channelHeader)
            && r.value.signatureHeader == IdentityHeader(c.identity.dec(q.creator).value, q.nonce)
            && r.value.signature == sig
            && |r.value.actions| == 1
            && ReadsAs(c, q, resps, r.value.actions[0]))
  {
    hide ParseTransactionAction;
    hide ReadsAs;
    hide ParseActions;
    hide Endorsements;
    BuiltParts(c, q);
    ActionPayloadOf(c, q, resps);
    var payload := TxPayload(c, CreateProposal(c, q), resps);
    var ta := c.transaction.dec(payload.data).value.actions[0];
    assert c.transaction.dec(payload.data).value.actions == [ta];
    SingleAction(c, ta);
    ParsedBuiltAction(c, q, resps, ta);
  }

  lemma SingleAction(c: Codecs, ta: TransactionAction)
    ensures ParseActions(c, [ta]) ==
      match ParseTransactionAction(c, ta) { case Failure(e) => Failure(e) case Success(a) => Success([a]) }
  {
    assert [ta][1..] == [];
    assert forall a: ParsedTransactionAction :: [a] + [] == [a];
  }

  lemma ParsedBuiltAction(c: Codecs, q: Request, resps: seq<ProposalResponse>, ta: TransactionAction)
    requires AllLawful(c) && resps != []
    requires ta.header == HeaderOf(c, q).signatureHeader
    requires c.actionPayload.dec(ta.payload) == Some(ChaincodeActionPayload(
      c.proposalPayload.enc(ChaincodeProposalPayload(c.cis.enc(ChaincodeInvocationSpec(Some(q.spec))), map[])),
      Some(ChaincodeEndorsedAction(resps[0].payload, Endorsements(resps)))))
    ensures var r := ParseTransactionAction(c, ta);
      && (r.Success? <==> Readable(c, q, resps))
      && (r.Success? ==> ReadsAs(c, q, resps, r.value))
  {
    hide ParseEndorsement;
    hide Endorsements;
    hide RwSets.All;
    hide ParseAction;
    EndorsementsParse(c, resps);
    assert c.signatureHeader.dec(ta.header) == Some(SignatureHeader(q.creator, q.nonce));
  }

  lemma EndorsementsParse(c: Codecs, resps: seq<ProposalResponse>)
    ensures var parsed := RwSets.All(ParseEndorsement(c), Endorsements(resps));
      && (parsed.Some? <==> forall i :: 0 <= i < |resps| ==> c.identity.dec(resps[i].endorsement.endorser).Some?)
      && (parsed.Some? ==>
            && |parsed.value| == |resps|
            && forall i :: 0 <= i < |resps| ==>
                 && parsed.value[i].signature == resps[i].endorsement.signature
                 && Some(parsed.value[i].endorser) == c.identity.dec(resps[i].endorsement.endorser))
  {
    var es := Endorsements(resps);
    assert forall i :: 0 <= i < |es| ==> (ParseEndorsement(c)(es[i]).Some? <==> c.identity.dec(es[i].endorser).Some?);
    assert forall i :: 0 <= i < |resps| ==> es[i] == resps[i].endorsement;
  }

  // ----- envelopes of any number of actions

  /** The actions come back in order. */
  lemma {:induction false} ActionsParseInOrder(c: Codecs, tas: seq<TransactionAction>)
    requires ParseActions(c, tas).Success?
    ensures var actions := ParseActions(c, tas).value;
      && |actions| == |tas|
      && forall i :: 0 <= i < |tas| ==> ParseTransactionAction(c, tas[i]) == Success(actions[i])
  {
    hide ParseTransactionAction;
    if tas != [] {
      ActionsParseInOrder(c, tas[1..]);
    }
  }

  /** Following an absent submessage is the failure exactly of a missing payload header,
      or of the first action that fails, when its endorsed action is missing. */
  ghost predicate LacksEndorsedAction(c: Codecs, ta: TransactionAction) {
    && ParseIdentityHeader(c, ta.header).Some?
    && c.actionPayload.dec(ta.payload).Some? && c.actionPayload.dec(ta.payload).value.action.None?
  }

  ghost predicate FirstLacks(c: Codecs, tas: seq<TransactionAction>, i: int) {
    0 <= i < |tas| && LacksEndorsedAction(c, tas[i]) && forall j :: 0 <= j < i ==> Accepted(c, tas[j])
  }

  lemma {:induction false} ActionsPanicExactlyWhen(c: Codecs, tas: seq<TransactionAction>)
    ensures ParseActions(c, tas) == Failure(NilPointer) <==> exists i :: FirstLacks(c, tas, i)
  {
    hide ParseTransactionAction;
    hide LacksEndorsedAction;
    hide Accepted;
    if tas != [] {
      OneAcceptedExactlyWhen(c, tas[0]);
      OnePanicsExactlyWhen(c, tas[0]);
      ActionsPanicExactlyWhen(c, tas[1..]);
      if i :| FirstLacks(c, tas, i) {
        if i > 0 {
          assert FirstLacks(c, tas[1..], i - 1);
        }
      }
      if LacksEndorsedAction(c, tas[0]) {
        assert FirstLacks(c, tas, 0);
      } else if i :| FirstLacks(c, tas[1..], i) {
        if Accepted(c, tas[0]) {
          assert FirstLacks(c, tas, i + 1);
        }
      }
    }
  }

  lemma OnePanicsExactlyWhen(c: Codecs, ta: TransactionAction)
    ensures ParseTransactionAction(c, ta) == Failure(NilPointer) <==> LacksEndorsedAction(c, ta)
    ensures !(LacksEndorsedAction(c, ta) && Accepted(c, ta))
  {
    hide ParseEndorsement;
    hide ParseIdentityHeader;
    hide ParseAction;
    hide RwSets.All;
  }

  lemma EnvelopePanicsExactlyWhen(c: Codecs, env: Envelope)
    ensures ParseEnvelope(c, env) == Failure(NilPointer) <==>
      && c.payload.dec(env.payload).Some?
      && var payload := c.payload.dec(env.payload).value;
      (payload.header.None? ||
         (&& c.channelHeader.dec(payload.header.value.channelHeader).Some?
          && ParseIdentityHeader(c, payload.header.value.signatureHeader).Some?
          && c.transaction.dec(payload.data).Some?
          && exists i :: FirstLacks(c, c.transaction.dec(payload.data).value.actions, i)))
  {
    hide ParseActions;
    hide ParseIdentityHeader;
    hide FirstLacks;
    var payload := c.payload.dec(env.payload);
    if payload.Some? && c.transaction.dec(payload.value.data).Some? {
      ActionsPanicExactlyWhen(c, c.transaction.dec(payload.value.data).value.actions);
    }
  }

  /** The chaincode action of an envelope is its first action's, if each message on the
      way is there. */
  lemma ActionOfEnvelope(c: Codecs, env: Envelope, payload: Payload, tx: Transaction)
    requires c.payload.dec(env.payload) == Some(payload) && c.transaction.dec(payload.data) == Some(tx)
    ensures GetAction(c, env).Some? <==>
      && tx.actions != [] && c.actionPayload.dec(tx.actions[0].payload).Some?
      && var action := c.actionPayload.dec(tx.actions[0].payload).value.action;
      && action.Some? && action.value.proposalResponsePayload != []
      && var prp := c.responsePayload.dec(action.value.proposalResponsePayload);
      && prp.Some? && prp.value.extension != [] && c.action.dec(prp.value.extension).Some?
    ensures GetAction(c, env).Some? ==>
      var action := c.actionPayload.dec(tx.actions[0].payload).value.action.value;
      GetAction(c, env) == c.action.dec(c.responsePayload.dec(action.proposalResponsePayload).value.extension)
  {
  }

  // ----- the dropped error

  /** All the parser asks of an action, decoding the chaincode action aside. */
  predicate ReadableUpToAction(c: Codecs, ta: TransactionAction) {
    && ParseIdentityHeader(c, ta.header).Some?
    && var cap := c.actionPayload.dec(ta.payload);
    && cap.Some? && cap.value.action.Some?
    && RwSets.All(ParseEndorsement(c), cap.value.action.value.endorsements).Some?
    && c.responsePayload.dec(cap.value.action.value.proposalResponsePayload).Some?
    && var cpp := c.proposalPayload.dec(cap.value.chaincodeProposalPayload);
    && cpp.Some? && c.cis.dec(cpp.value.input).Some?
  }

  function ExtensionOf(c: Codecs, ta: TransactionAction): Bytes
    requires ReadableUpToAction(c, ta)
  {
    c.responsePayload.dec(c.actionPayload.dec(ta.payload).value.action.value.proposalResponsePayload).value.extension
  }

  /** An action is accepted exactly when the results in what decoding left behind
      are readable, whether or not it decodes. */
  predicate Accepted(c: Codecs, ta: TransactionAction) {
    && ReadableUpToAction(c, ta)
    && RwSets.FromBytes(c.rwSets, c.partialAction(ExtensionOf(c, ta)).results).Some?
  }

  lemma {:induction false} ActionsAcceptedExactlyWhen(c: Codecs, tas: seq<TransactionAction>)
    ensures ParseActions(c, tas).Success? <==> forall i :: 0 <= i < |tas| ==> Accepted(c, tas[i])
  {
    hide Accepted;
    if tas != [] {
      OneAcceptedExactlyWhen(c, tas[0]);
      ActionsAcceptedExactlyWhen(c, tas[1..]);
      assert forall i :: 1 <= i < |tas| ==> tas[i] == tas[1..][i - 1];
    }
  }

  lemma OneAcceptedExactlyWhen(c: Codecs, ta: TransactionAction)
    ensures ParseTransactionAction(c, ta).Success? <==> Accepted(c, ta)
    ensures Accepted(c, ta) ==>
      var a := c.partialAction(ExtensionOf(c, ta));
      ParseTransactionAction(c, ta).value.action
        == ParsedAction(a.response, a.chaincodeId, a.events, RwSets.FromBytes(c.rwSets, a.results).value)
  {
    hide ParseEndorsement;
    hide ParseIdentityHeader;
    hide RwSets.All;
    hide RwSets.FromBytes;
  }

  /** Which envelopes the parser accepts: the chaincode action need not decode. */
  lemma EnvelopeAcceptedExactlyWhen(c: Codecs, env: Envelope)
    ensures ParseEnvelope(c, env).Success? <==>
      var payload := c.payload.dec(env.payload);
      && payload.Some? && payload.value.header.Some?
      && c.channelHeader.dec(payload.value.header.value.channelHeader).Some?
      && ParseIdentityHeader(c, payload.value.header.value.signatureHeader).Some?
      && var tx := c.transaction.dec(payload.value.data);
      && tx.Some? && forall i :: 0 <= i < |tx.value.actions| ==> Accepted(c, tx.value.actions[i])
  {
    hide Accepted;
    hide ParseIdentityHeader;
    hide ParseActions;
    var payload := c.payload.dec(env.payload);
    if payload.Some? && c.transaction.dec(payload.value.data).Some? {
      ActionsAcceptedExactlyWhen(c, c.transaction.dec(payload.value.data).value.actions);
    }
  }

  /** An endorser's action that does not decode is accepted all the same, and read
      as the part that was decoded, exactly when the results in that part are. */
  lemma UndecodableActionAcceptedExactlyWhen(
      c: Codecs, q: Request, resps: seq<ProposalResponse>, sig: Bytes, hash: Bytes, extension: Bytes)
    requires AllLawful(c) && resps != [] && c.action.dec(extension).None?
    requires resps[0].payload == c.responsePayload.enc(ProposalResponsePayload(hash, extension))
    requires c.identity.dec(q.creator).Some?
    requires forall i :: 0 <= i < |resps| ==> c.identity.dec(resps[i].endorsement.endorser).Some?
    ensures var p, part := CreateProposal(c, q), c.partialAction(extension);
      && c.header.dec(p.header).Some? && c.proposalPayload.dec(p.payload).Some?
      && var r := ParseEnvelope(c, Envelope(c.payload.enc(TxPayload(c, p, resps)), sig));
      && (r.Success? <==> RwSets.FromBytes(c.rwSets, part.results).Some?)
      && (r.Success? ==>
            && |r.value.actions| == 1
            && var sets := RwSets.FromBytes(c.rwSets, part.results).value;
            r.value.actions[0].action == ParsedAction(part.response, part.chaincodeId, part.events, sets))
  {
    hide ParseEnvelope;
    hide TxPayload;
    hide CreateProposal;
    ParserUndoesBuilder(c, q, resps, sig);
  }

  /** Such actions exist beside any lawful codec: one that puts a zero byte before
      every message leaves the others undecodable, and may have read anything. */
  function Prefixing(c: Codecs, left: ChaincodeAction): Codecs {
    var enc := (x: ChaincodeAction) => if c.action.enc(x) == [] then [] else [0] + c.action.enc(x);
    var dec := (b: Bytes) => if b == [] then c.action.dec([]) else if b[0] == 0 then c.action.dec(b[1..]) else None;
    c.(action := Codec(enc, dec, c.action.zero),
       partialAction := (b: Bytes) => match dec(b) { case Some(x) => x case None => left })
  }

  lemma SomeUndecodableActionIsAccepted(
      c: Codecs, left: ChaincodeAction, q: Request, endorsement: Endorsement, sig: Bytes)
    returns (resp: ProposalResponse)
    requires AllLawful(c) && RwSets.FromBytes(c.rwSets, left.results).Some?
    requires c.identity.dec(q.creator).Some? && c.identity.dec(endorsement.endorser).Some?
    ensures var c', p := Prefixing(c, left), CreateProposal(c, q);
      && AllLawful(c') && CreateProposal(c', q) == p
      && c'.responsePayload.dec(resp.payload).Some?
      && c'.action.dec(c'.responsePayload.dec(resp.payload).value.extension).None?
      && c'.header.dec(p.header).Some? && c'.proposalPayload.dec(p.payload).Some?
      && ParseEnvelope(c', Envelope(c'.payload.enc(TxPayload(c', p, [resp])), sig)).Success?
  {
    hide ParseEnvelope;
    hide TxPayload;
    var c' := Prefixing(c, left);
    PrefixingIsLawful(c, left);
    resp := ProposalResponse(
      1, Response(200, "OK", []), c'.responsePayload.enc(ProposalResponsePayload([], [1])), endorsement);
    UndecodableActionAcceptedExactlyWhen(c', q, [resp], sig, [], [1]);
  }

  lemma PrefixingIsLawful(c: Codecs, left: ChaincodeAction)
    requires AllLawful(c)
    ensures AllLawful(Prefixing(c, left)) && Prefixing(c, left).action.dec([1]).None?
    ensures Prefixing(c, left).partialAction([1]) == left
  {
    var d := Prefixing(c, left).action;
    forall x: ChaincodeAction ensures d.dec(d.enc(x)) == Some(x) && (d.enc(x) == [] <==> x == d.zero) {
      if c.action.enc(x) != [] {
        assert ([0] + c.action.enc(x))[1..] == c.action.enc(x);
      }
    }
  }

  /** The chaincode action comes back out of a built envelope as the first
      endorser wrote it, unless it is the empty action, which reads as missing. */
  lemma ActionRoundTrip(c: Codecs, q: Request, resps: seq<ProposalResponse>, sig: Bytes,
                        hash: Bytes, act: ChaincodeAction)
    requires AllLawful(c) && resps != []
    requires resps[0].payload == c.responsePayload.enc(ProposalResponsePayload(hash, c.action.enc(act)))
    ensures var p := CreateProposal(c, q);
      && c.header.dec(p.header).Some? && c.proposalPayload.dec(p.payload).Some?
      && GetAction(c, Envelope(c.payload.enc(TxPayload(c, p, resps)), sig))
           == if act == c.action.zero then None else Some(act)
  {
    ActionPayloadOf(c, q, resps);
  }

  /** The id read from the envelope is the one the proposal was created under; if that
      was empty, the hash over nonce and creator is computed from the envelope. */
  lemma TxIDOfEnvelope(c: Codecs, sha: Bytes -> Bytes, q: Request, resps: seq<ProposalResponse>, sig: Bytes)
    requires AllLawful(c) && resps != []
    ensures var p := CreateProposal(c, q);
      && c.header.dec(p.header).Some? && c.proposalPayload.dec(p.payload).Some?
      && GetOrComputeTxID(c, sha, c.envelope.enc(Envelope(c.payload.enc(TxPayload(c, p, resps)), sig)))
           == Some(if q.txid == "" then Hex(sha(q.nonce + q.creator)) else q.txid)
  {
    BuiltParts(c, q);
    ActionPayloadOf(c, q, resps);
  }

  /** A proposal for which no id was asked gets that hash as its id, which is read back
      from the envelope and passes the check. */
  lemma TxIDRoundTrip(c: Codecs, sha: Bytes -> Bytes, q: Request, resps: seq<ProposalResponse>, sig: Bytes)
    requires AllLawful(c) && resps != []
    ensures var q' := WithTxID(sha, q);
      var p := CreateProposal(c, q');
      && c.header.dec(p.header).Some? && c.proposalPayload.dec(p.payload).Some?
      && GetOrComputeTxID(c, sha, c.envelope.enc(Envelope(c.payload.enc(TxPayload(c, p, resps)), sig))) == Some(q'.txid)
      && q' == q.(txid := if q.txid == "" then Hex(sha(q.nonce + q.creator)) else q.txid)
      && (q.txid == "" ==> CheckTxID(sha, q'.txid, q.nonce, q.creator))
  {
    hide GetOrComputeTxID;
    hide TxPayload;
    hide CreateProposal;
    TxIDOfEnvelope(c, sha, WithTxID(sha, q), resps, sig);
  }

  /** The endorser finds in a built proposal the name the client asked for, if the
      spec names a chaincode at all; the transient map does not matter. */
  lemma InvokedNameRoundTrip(c: Codecs, proposals: Codec<Proposal>, q: Request)
    requires AllLawful(c) && Lawful(proposals)
    ensures InvokedChaincodeName(c, proposals, proposals.enc(CreateProposal(c, q)))
      == if q.spec.chaincodeId.Some? then Some(q.spec.chaincodeId.value.name) else None
  {
    BuiltParts(c, q);
  }

  // ----- endorser and committer agree

  /** The two hash functions agree on a payload and its stripped form exactly when
      something is left after stripping. */
  lemma HashesAgreeWhenSomethingIsLeft(c: Codecs, sha: Bytes -> Bytes, hdr: Header, payl: Bytes)
    requires AllLawful(c) && ProposalHash1(c, sha, hdr, payl).Success?
    ensures var p := c.proposalPayload.dec(payl);
      && p.Some?
      && var stripped := StripTransient(c, p.value);
      && (ProposalHash2(c, sha, hdr, stripped) == ProposalHash1(c, sha, hdr, payl) <==> p.value.input != [])
      && (p.value.input != [] ==> ProposalHash1(c, sha, hdr, stripped) == ProposalHash1(c, sha, hdr, payl))
      && c.proposalPayload.dec(stripped) == Some(ChaincodeProposalPayload(p.value.input, map[]))
  {
    var p := c.proposalPayload.dec(payl).value;
    var q := ChaincodeProposalPayload(p.input, map[]);
    assert StripTransient(c, p) == c.proposalPayload.enc(q);
    assert StripTransient(c, q) == StripTransient(c, p);
    assert q == c.proposalPayload.zero <==> p.input == [];
  }

  /** A payload that carries only transient data: the endorser hashes it, the
      committer is left with nothing and refuses. */
  lemma TransientOnlyPayloadDisagrees(c: Codecs, sha: Bytes -> Bytes, hdr: Header, secret: Bytes)
    requires AllLawful(c) && hdr.channelHeader != [] && hdr.signatureHeader != []
    ensures var p := ChaincodeProposalPayload([], map["k" := secret]);
      && ProposalHash1(c, sha, hdr, c.proposalPayload.enc(p)).Success?
      && ProposalHash2(c, sha, hdr, StripTransient(c, p)) == Failure(NilArguments)
  {
    var p := ChaincodeProposalPayload([], map["k" := secret]);
    assert "k" in p.transientMap;
    assert p != c.proposalPayload.zero;
  }

  /** The hash of a built proposal, and whether it has one, does not depend on its
      transient map; it has one exactly when neither header is empty, over both headers
      and the payload without the map. */
  lemma HashIgnoresTransientMap(c: Codecs, sha: Bytes -> Bytes, q: Request, tmap: map<string, Bytes>)
    requires AllLawful(c)
    ensures var hdr := HeaderOf(c, q);
      && ProposalHash1(c, sha, hdr, CreateProposal(c, q).payload)
           == ProposalHash1(c, sha, hdr, CreateProposal(c, q.(transientMap := tmap)).payload)
      && (ProposalHash1(c, sha, hdr, CreateProposal(c, q).payload).Success? <==>
            hdr.channelHeader != [] && hdr.signatureHeader != [])
      && var stripped := ChaincodeProposalPayload(c.cis.enc(ChaincodeInvocationSpec(Some(q.spec))), map[]);
      (hdr.channelHeader != [] && hdr.signatureHeader != [] ==>
         ProposalHash1(c, sha, hdr, CreateProposal(c, q).payload)
           == Success(sha(hdr.channelHeader + hdr.signatureHeader + c.proposalPayload.enc(stripped))))
  {
    BuiltInputIsPresent(c, q);
    BuiltInputIsPresent(c, q.(transientMap := tmap));
  }

  lemma BuiltInputIsPresent(c: Codecs, q: Request)
    requires AllLawful(c)
    ensures c.cis.enc(ChaincodeInvocationSpec(Some(q.spec))) != []
    ensures CreateProposal(c, q).payload != []
  {
    var cis := ChaincodeInvocationSpec(Some(q.spec));
    assert cis != c.cis.zero;
    var p := ChaincodeProposalPayload(c.cis.enc(cis), q.transientMap);
    assert p != c.proposalPayload.zero;
  }

  /** What an endorser vouches for: it responds exactly when the proposal can be hashed
      and its identity and key work, and it signs the response payload followed by its
      identity; the payload carries the hash and the action. */
  lemma EndorserSigns(c: Codecs, sha: Bytes -> Bytes, p: Proposal, act: ChaincodeAction, endorser: Signer)
    requires AllLawful(c)
    ensures var r := CreateProposalResponse(c, sha, p, act, endorser);
      && (r.Success? ==>
            && r.value.version == 1 && r.value.response == Response(200, "OK", [])
            && endorser.serialized == Some(r.value.endorsement.endorser)
            && endorser.sign(r.value.payload + r.value.endorsement.endorser) == Some(r.value.endorsement.signature)
            && c.header.dec(p.header).Some?
            && var prp := c.responsePayload.dec(r.value.payload);
            && prp.Some? && c.action.dec(prp.value.extension) == Some(act)
            && ProposalHash1(c, sha, c.header.dec(p.header).value, p.payload) == Success(prp.value.proposalHash))
      && (r.Failure? ==>
            || c.header.dec(p.header).None?
            || ProposalHash1(c, sha, c.header.dec(p.header).value, p.payload) == Failure(r.error)
            || (endorser.serialized.None? && r.error == SignerUnavailable)
            || (r.error == SigningFailed && exists b :: endorser.sign(b).None?))
  {
  }

  /** Endorsers that found the same action agree, whoever they are. */
  lemma EndorsersOfOneActionAgree(c: Codecs, sha: Bytes -> Bytes, p: Proposal, act: ChaincodeAction,
                                  endorsers: seq<Signer>, resps: seq<ProposalResponse>)
    requires |resps| == |endorsers|
    requires forall i :: 0 <= i < |resps| ==> CreateProposalResponse(c, sha, p, act, endorsers[i]) == Success(resps[i])
    ensures Agree(resps)
  {
    if resps != [] {
      assert CreateProposalResponse(c, sha, p, act, endorsers[0]) == Success(resps[0]);
      forall i | 0 <= i < |resps| ensures Successful(resps[i]) && resps[i].payload == resps[0].payload {
        assert CreateProposalResponse(c, sha, p, act, endorsers[i]) == Success(resps[i]);
      }
    }
  }

  /** End to end: whatever the endorser was shown, transient data included, the
      committer recomputes from the envelope the hash that the endorser signed. */
  lemma CommitterRecomputesEndorsedHash(
      c: Codecs, sha: Bytes -> Bytes, q: Request, act: ChaincodeAction, endorser: Signer,
      resps: seq<ProposalResponse>)
    requires AllLawful(c) && resps != []
    requires CreateProposalResponse(c, sha, CreateProposal(c, q), act, endorser) == Success(resps[0])
    ensures var p := CreateProposal(c, q);
      && c.header.dec(p.header).Some? && c.proposalPayload.dec(p.payload).Some?
      && var payload := c.payload.dec(c.payload.enc(TxPayload(c, p, resps)));
      && payload.Some? && payload.value.header.Some?
      && var tx := c.transaction.dec(payload.value.data);
      && tx.Some? && |tx.value.actions| == 1
      && var cap := c.actionPayload.dec(tx.value.actions[0].payload);
      && cap.Some? && cap.value.action.Some?
      && var prp := c.responsePayload.dec(cap.value.action.value.proposalResponsePayload);
      && prp.Some?
      && ProposalHash2(c, sha, payload.value.header.value, cap.value.chaincodeProposalPayload)
           == Success(prp.value.proposalHash)
  {
    BuiltParts(c, q);
    BuiltInputIsPresent(c, q);
    ActionPayloadOf(c, q, resps);
    HashesAgreeWhenSomethingIsLeft(c, sha, HeaderOf(c, q), CreateProposal(c, q).payload);
  }
}
