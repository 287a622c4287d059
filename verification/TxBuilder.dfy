/** Building a transaction: the proposal, the endorser's response to it, and the
    signed envelope assembled from the responses. */
module TxBuilder {
  import opened Wrappers
  import opened Codec
  import opened Messages

  // ----- the proposal

  /** What a client asks for; the nonce and the time are supplied from outside. */
  datatype Request = Request(
    txid: string, typ: nat, channelId: string, spec: ChaincodeSpec,
    nonce: Bytes, creator: Bytes, transientMap: map<string, Bytes>, timestamp: int)

  function HexDigit(d: nat): char
    requires d < 16
  {
    if d < 10 then '0' + d as char else 'a' + (d - 10) as char
  }

  function Hex(b: Bytes): (s: string)
    ensures |s| == 2 * |b|
  {
    if b == [] then [] else [HexDigit(b[0] / 16), HexDigit(b[0] % 16)] + Hex(b[1..])
  }

  /** Two lower-case digits for each byte, so different digests give different ids. */
  lemma {:induction false} HexReads(b: Bytes, i: nat)
    requires i < |b|
    ensures Hex(b)[2 * i] == "0123456789abcdef"[b[i] / 16] && Hex(b)[2 * i + 1] == "0123456789abcdef"[b[i] % 16]
  {
    if i > 0 {
      HexReads(b[1..], i - 1);
    }
  }

  lemma HexIsInjective(a: Bytes, b: Bytes)
    requires Hex(a) == Hex(b)
    ensures a == b
  {
    hide Hex;
    assert |a| == |b|;
    forall i | 0 <= i < |a| ensures a[i] == b[i] {
      HexReads(a, i);
      HexReads(b, i);
      SameDigits(a[i], b[i]);
    }
  }

  lemma SameDigits(x: byte, y: byte)
    requires "0123456789abcdef"[x / 16] == "0123456789abcdef"[y / 16]
    requires "0123456789abcdef"[x % 16] == "0123456789abcdef"[y % 16]
    ensures x == y
  {
    SameDigit(x / 16, y / 16);
    SameDigit(x % 16, y % 16);
  }

  lemma SameDigit(x: nat, y: nat)
    requires x < 16 && y < 16 && "0123456789abcdef"[x] == "0123456789abcdef"[y]
    ensures x == y
  {
    assert HexDigit(x) == "0123456789abcdef"[x] && HexDigit(y) == "0123456789abcdef"[y];
  }

  function ComputeTxID(sha: Bytes -> Bytes, nonce: Bytes, creator: Bytes): string { Hex(sha(nonce + creator)) }

  function CheckTxID(sha: Bytes -> Bytes, txid: string, nonce: Bytes, creator: Bytes): bool {
    txid == ComputeTxID(sha, nonce, creator)
  }

  /** An empty txid asks for the computed one. */
  function WithTxID(sha: Bytes -> Bytes, q: Request): Request {
    if q.txid == "" then q.(txid := ComputeTxID(sha, q.nonce, q.creator)) else q
  }

  function ChannelHeaderOf(c: Codecs, q: Request): ChannelHeader {
    ChannelHeader(q.typ, q.timestamp, q.channelId, q.txid, 0, c.ext.enc(ChaincodeHeaderExtension(q.spec.chaincodeId)))
  }

  function HeaderOf(c: Codecs, q: Request): Header {
    Header(c.channelHeader.enc(ChannelHeaderOf(c, q)), c.signatureHeader.enc(SignatureHeader(q.creator, q.nonce)))
  }

  function CreateProposal(c: Codecs, q: Request): Proposal {
    var cisBytes := c.cis.enc(ChaincodeInvocationSpec(Some(q.spec)));
    Proposal(c.header.enc(HeaderOf(c, q)), c.proposalPayload.enc(ChaincodeProposalPayload(cisBytes, q.transientMap)))
  }

  // ----- the two proposal hashes

  function StripTransient(c: Codecs, p: ChaincodeProposalPayload): Bytes {
    c.proposalPayload.enc(ChaincodeProposalPayload(p.input, map[]))
  }

  /** Bytes read off the wire are nil exactly when they are empty. */
  function ProposalHash2(c: Codecs, sha: Bytes -> Bytes, hdr: Header, payl: Bytes): Result<Bytes, TxError> {
    if hdr.channelHeader == [] || hdr.signatureHeader == [] || payl == [] then Failure(NilArguments)
    else Success(sha(hdr.channelHeader + hdr.signatureHeader + payl))
  }

  function ProposalHash1(c: Codecs, sha: Bytes -> Bytes, hdr: Header, payl: Bytes): Result<Bytes, TxError> {
    if hdr.channelHeader == [] || hdr.signatureHeader == [] || payl == [] then Failure(NilArguments)
    else
      match c.proposalPayload.dec(payl)
      case None => Failure(Malformed)
      case Some(p) => Success(sha(hdr.channelHeader + hdr.signatureHeader + StripTransient(c, p)))
  }

  // ----- the endorser

  function CreateProposalResponse(
      c: Codecs, sha: Bytes -> Bytes, proposal: Proposal, act: ChaincodeAction, endorser: Signer)
    : Result<ProposalResponse, TxError>
  {
    match c.header.dec(proposal.header)
    case None => Failure(Malformed)
    case Some(hdr) =>
      match ProposalHash1(c, sha, hdr, proposal.payload)
      case Failure(e) => Failure(e)
      case Success(hash) =>
        var prp := c.responsePayload.enc(ProposalResponsePayload(hash, c.action.enc(act)));
        match endorser.serialized
        case None => Failure(SignerUnavailable)
        case Some(id) =>
          match endorser.sign(prp + id)
          case None => Failure(SigningFailed)
          case Some(sig) => Success(ProposalResponse(1, Response(200, "OK", []), prp, Endorsement(id, sig)))
  }

  // ----- the client

  predicate Successful(r: ProposalResponse) { 200 <= r.response.status < 400 }

  /** All responses succeeded and carry the same payload, byte for byte. */
  predicate Agree(resps: seq<ProposalResponse>) {
    forall i :: 0 <= i < |resps| ==> Successful(resps[i]) && resps[i].payload == resps[0].payload
  }

  function Endorsements(resps: seq<ProposalResponse>): (es: seq<Endorsement>)
    ensures |es| == |resps| && forall i :: 0 <= i < |resps| ==> es[i] == resps[i].endorsement
  {
    seq(|resps|, i requires 0 <= i < |resps| => resps[i].endorsement)
  }

  /** The loop over the responses: the first offending position, if any. */
  method CheckResponses(resps: seq<ProposalResponse>) returns (r: Option<TxError>)
    ensures r.None? <==> Agree(resps)
    ensures r.Some? ==>
      && (r.value.Unsuccessful? || r.value.PayloadMismatch?)
      && r.value.position < |resps|
      && Agree(resps[..r.value.position])
      && var status := resps[r.value.position].response.status;
      && (r.value.Unsuccessful? <==> status < 200 || status >= 400)
      && (r.value.Unsuccessful? ==> r.value.status == status)
      && (r.value.PayloadMismatch? ==> resps[r.value.position].payload != resps[0].payload)
  {
    var a1: Bytes := [];
    for n := 0 to |resps|
      invariant Agree(resps[..n])
      invariant n > 0 ==> a1 == resps[0].payload
    {
      if !Successful(resps[n]) {
        return Some(Unsuccessful(n, resps[n].response.status));
      }
      if n == 0 {
        a1 := resps[n].payload;
        continue;
      }
      if a1 != resps[n].payload {
        return Some(PayloadMismatch(n));
      }
    }
    assert resps[..|resps|] == resps;
    return None;
  }

  /** What the client's own checks demand before it signs anything. */
  ghost predicate Accepts(c: Codecs, proposal: Proposal, signer: Signer, resps: seq<ProposalResponse>) {
    && resps != []
    && c.header.dec(proposal.header).Some?
    && c.proposalPayload.dec(proposal.payload).Some?
    && signer.serialized.Some?
    && var shdr := c.signatureHeader.dec(c.header.dec(proposal.header).value.signatureHeader);
    && shdr.Some? && shdr.value.creator == signer.serialized.value
    && Agree(resps)
    && signer.sign(c.payload.enc(TxPayload(c, proposal, resps))).Some?
  }

  /** The payload that is signed. */
  function TxPayload(c: Codecs, proposal: Proposal, resps: seq<ProposalResponse>): Payload
    requires resps != [] && c.header.dec(proposal.header).Some? && c.proposalPayload.dec(proposal.payload).Some?
  {
    var hdr := c.header.dec(proposal.header).value;
    var stripped := StripTransient(c, c.proposalPayload.dec(proposal.payload).value);
    var cea := ChaincodeEndorsedAction(resps[0].payload, Endorsements(resps));
    var taa := TransactionAction(hdr.signatureHeader, c.actionPayload.enc(ChaincodeActionPayload(stripped, Some(cea))));
    Payload(Some(hdr), c.transaction.enc(Transaction([taa])))
  }

  /** Succeeds exactly when the checks hold; the envelope is then determined. */
  method CreateSignedTx(c: Codecs, proposal: Proposal, signer: Signer, resps: seq<ProposalResponse>)
    returns (r: Result<Envelope, TxError>)
    ensures r.Success? <==> Accepts(c, proposal, signer, resps)
    ensures r.Success? ==>
      var payload := c.payload.enc(TxPayload(c, proposal, resps));
      Some(r.value.signature) == signer.sign(payload) && r.value.payload == payload
    ensures r == Failure(NoResponses) <==> resps == []
    ensures r == Failure(Malformed) ==>
      || c.header.dec(proposal.header).None?
      || c.proposalPayload.dec(proposal.payload).None?
      || c.signatureHeader.dec(c.header.dec(proposal.header).value.signatureHeader).None?
    ensures r == Failure(SignerUnavailable) ==> signer.serialized.None?
    ensures r == Failure(WrongSigner) ==>
      && c.header.dec(proposal.header).Some?
      && var shdr := c.signatureHeader.dec(c.header.dec(proposal.header).value.signatureHeader);
      shdr.Some? && Some(shdr.value.creator) != signer.serialized
    ensures r.Failure? && (r.error.Unsuccessful? || r.error.PayloadMismatch?) ==>
      && r.error.position < |resps| && Agree(resps[..r.error.position])
      && (r.error.Unsuccessful? <==> !(200 <= resps[r.error.position].response.status < 400))
    ensures r == Failure(SigningFailed) ==>
      && Agree(resps)
      && c.header.dec(proposal.header).Some? && c.proposalPayload.dec(proposal.payload).Some?
      && signer.sign(c.payload.enc(TxPayload(c, proposal, resps))).None?
  {
    if |resps| == 0 {
      return Failure(NoResponses);
    }
    var hdr := c.header.dec(proposal.header);
    if hdr.None? {
      return Failure(Malformed);
    }
    var pPayl := c.proposalPayload.dec(proposal.payload);
    if pPayl.None? {
      return Failure(Malformed);
    }
    if signer.serialized.None? {
      return Failure(SignerUnavailable);
    }
    var shdr := c.signatureHeader.dec(hdr.value.signatureHeader);
    if shdr.None? {
      return Failure(Malformed);
    }
    if signer.serialized.value != shdr.value.creator {
      return Failure(WrongSigner);
    }
    var bad := CheckResponses(resps);
    if bad.Some? {
      return Failure(bad.value);
    }

    var endorsements := new Endorsement[|resps|](_ => resps[0].endorsement);
    for n := 0 to |resps|
      invariant forall k :: 0 <= k < n ==> endorsements[k] == resps[k].endorsement
    {
      endorsements[n] := resps[n].endorsement;
    }
    assert endorsements[..] == Endorsements(resps);

    var cea := ChaincodeEndorsedAction(resps[0].payload, endorsements[..]);
    var cap := ChaincodeActionPayload(StripTransient(c, pPayl.value), Some(cea));
    var taa := TransactionAction(hdr.value.signatureHeader, c.actionPayload.enc(cap));
    var paylBytes := c.payload.enc(Payload(hdr, c.transaction.enc(Transaction([taa]))));
    var sig := signer.sign(paylBytes);
    if sig.None? {
      return Failure(SigningFailed);
    }
    return Success(Envelope(paylBytes, sig.value));
  }
}
