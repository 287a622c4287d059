/** The protobuf messages of a transaction, from the proposal a client builds to
    the envelope the ledger stores, and the typed view that block parsing gives. */
module Messages {
  import opened Wrappers
  import opened Codec
  import RwSets

  datatype SerializedIdentity = SerializedIdentity(mspid: string, idBytes: Bytes)

  datatype ChaincodeID = ChaincodeID(path: string, name: string, version: string)

  datatype ChaincodeSpec = ChaincodeSpec(typ: nat, chaincodeId: Option<ChaincodeID>, args: seq<Bytes>, isInit: bool)

  datatype ChaincodeInvocationSpec = ChaincodeInvocationSpec(chaincodeSpec: Option<ChaincodeSpec>)

  datatype ChaincodeHeaderExtension = ChaincodeHeaderExtension(chaincodeId: Option<ChaincodeID>)

  datatype ChannelHeader = ChannelHeader(
    typ: nat, timestamp: int, channelId: string, txId: string, epoch: nat, extension: Bytes)

  datatype SignatureHeader = SignatureHeader(creator: Bytes, nonce: Bytes)

  datatype Header = Header(channelHeader: Bytes, signatureHeader: Bytes)

  datatype Proposal = Proposal(header: Bytes, payload: Bytes)

  datatype ChaincodeProposalPayload = ChaincodeProposalPayload(input: Bytes, transientMap: map<string, Bytes>)

  datatype Response = Response(status: int, message: string, payload: Bytes)

  datatype Endorsement = Endorsement(endorser: Bytes, signature: Bytes)

  datatype ProposalResponse = ProposalResponse(
    version: nat, response: Response, payload: Bytes, endorsement: Endorsement)

  datatype ProposalResponsePayload = ProposalResponsePayload(proposalHash: Bytes, extension: Bytes)

  datatype ChaincodeAction = ChaincodeAction(
    results: Bytes, events: Bytes, response: Option<Response>, chaincodeId: Option<ChaincodeID>)

  datatype ChaincodeEndorsedAction = ChaincodeEndorsedAction(
    proposalResponsePayload: Bytes, endorsements: seq<Endorsement>)

  datatype ChaincodeActionPayload = ChaincodeActionPayload(
    chaincodeProposalPayload: Bytes, action: Option<ChaincodeEndorsedAction>)

  datatype TransactionAction = TransactionAction(header: Bytes, payload: Bytes)

  datatype Transaction = Transaction(actions: seq<TransactionAction>)

  datatype Payload = Payload(header: Option<Header>, data: Bytes)

  datatype Envelope = Envelope(payload: Bytes, signature: Bytes)

  datatype Codecs = Codecs(
    identity: Codec<SerializedIdentity>,
    cis: Codec<ChaincodeInvocationSpec>,
    ext: Codec<ChaincodeHeaderExtension>,
    channelHeader: Codec<ChannelHeader>,
    signatureHeader: Codec<SignatureHeader>,
    header: Codec<Header>,
    proposalPayload: Codec<ChaincodeProposalPayload>,
    responsePayload: Codec<ProposalResponsePayload>,
    action: Codec<ChaincodeAction>,
    partialAction: Bytes -> ChaincodeAction,  // what decoding leaves in the message, error or not
    actionPayload: Codec<ChaincodeActionPayload>,
    transaction: Codec<Transaction>,
    payload: Codec<Payload>,
    envelope: Codec<Envelope>,
    rwSets: RwSets.Codecs)

  /** Every codec round-trips, and the zero messages are the empty ones. */
  ghost predicate AllLawful(c: Codecs) {
    && Lawful(c.identity) && Lawful(c.cis) && Lawful(c.ext)
    && Lawful(c.channelHeader) && Lawful(c.signatureHeader) && Lawful(c.header)
    && Lawful(c.proposalPayload) && Lawful(c.responsePayload) && Lawful(c.action)
    && (forall b :: c.action.dec(b).Some? ==> c.partialAction(b) == c.action.dec(b).value)
    && Lawful(c.actionPayload) && Lawful(c.transaction) && Lawful(c.payload) && Lawful(c.envelope)
    && RwSets.AllLawful(c.rwSets)
    && c.cis.zero == ChaincodeInvocationSpec(None)
    && c.proposalPayload.zero == ChaincodeProposalPayload([], map[])
    && c.channelHeader.zero == ChannelHeader(0, 0, "", "", 0, [])
    && c.signatureHeader.zero == SignatureHeader([], [])
    && c.responsePayload.zero == ProposalResponsePayload([], [])
    && c.action.zero == ChaincodeAction([], [], None, None)
  }

  datatype Signer = Signer(serialized: Option<Bytes>, sign: Bytes -> Option<Bytes>)

  datatype TxError =
    | NoResponses
    | Malformed
    | SignerUnavailable
    | WrongSigner
    | Unsuccessful(position: nat, status: int)
    | PayloadMismatch(position: nat)
    | NilArguments
    | SigningFailed
}
