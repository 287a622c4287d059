/** Collecting the signatures of a configuration update: one per organisation,
    whatever order Go's maps are walked in, plus the submitter's own. */
module Signatures {
  import opened Wrappers

  datatype ProposalSignature = ProposalSignature(proposalHash: Bytes, creator: string, signature: Bytes)

  /** A ConfigSignature: the marshalled signature header and the signature over it. */
  datatype ConfigSignature = ConfigSignature(signatureHeader: Bytes, signature: Bytes)

  datatype SignError = Undecodable | AlreadySigned(mspId: string) | SignerFailed

  // ----- signing an update

  function Concat(parts: seq<Bytes>): Bytes { if parts == [] then [] else parts[0] + Concat(parts[1..]) }

  /** The variant that appends. */
  method Append(data: seq<Bytes>) returns (res: Bytes)
    ensures res == Concat(data)
  {
    res := [];
    assert data[0..] == data;
    for i := 0 to |data|
      invariant res + Concat(data[i..]) == Concat(data)
    {
      assert data[i..][1..] == data[i + 1..];
      res := res + data[i];
    }
  }

  function TotalLength(parts: seq<Bytes>): nat { if parts == [] then 0 else |parts[0]| + TotalLength(parts[1..]) }

  lemma {:induction false} ConcatPrefix(parts: seq<Bytes>, k: nat)
    requires k < |parts|
    ensures Concat(parts[..k + 1]) == Concat(parts[..k]) + parts[k]
    ensures |Concat(parts[..k])| + |parts[k]| <= TotalLength(parts)
  {
    if k == 0 {
      var first := [parts[0]];
      assert parts[..1] == first && |first[1..]| == 0;
      assert |parts[..0]| == 0;
    } else {
      ConcatPrefix(parts[1..], k - 1);
      assert parts[..k + 1][1..] == parts[1..][..k];
      assert parts[..k][1..] == parts[1..][..k - 1];
    }
  }

  lemma {:induction false} ConcatLength(parts: seq<Bytes>)
    ensures |Concat(parts)| == TotalLength(parts)
  {
    if parts != [] {
      ConcatLength(parts[1..]);
    }
  }

  /** The variant that fills a buffer measured beforehand, byte by byte. */
  method ConcatenateBytes(data: seq<Bytes>) returns (result: array<byte>)
    ensures fresh(result) && result[..] == Concat(data)
  {
    var finalLength := 0;
    assert data[0..] == data;
    for n := 0 to |data|
      invariant finalLength + TotalLength(data[n..]) == TotalLength(data)
    {
      assert data[n..][1..] == data[n + 1..];
      finalLength := finalLength + |data[n]|;
    }
    result := new byte[finalLength](_ => 0);
    var last := 0;
    for n := 0 to |data|
      invariant last == |Concat(data[..n])| <= finalLength
      invariant result[..last] == Concat(data[..n])
    {
      ConcatPrefix(data, n);
      for i := 0 to |data[n]|
        invariant result[..last] == Concat(data[..n])
        invariant result[last..last + i] == data[n][..i]
      {
        result[i + last] := data[n][i];
      }
      assert result[..last + |data[n]|] == result[..last] + result[last..last + |data[n]|];
      last := last + |data[n]|;
    }
    ConcatLength(data);
    assert data[..|data|] == data;
  }

  /** A signer of updates: its organisation, the signature header it makes this
      time, nonce included, and its key. */
  datatype UpdateSigner = UpdateSigner(mspId: string, header: Option<Bytes>, sign: Bytes -> Option<Bytes>)

  /** A signature covers its header and the update. */
  function SignedOver(signer: UpdateSigner, update: Bytes): Option<ConfigSignature> {
    match signer.header
    case None => None
    case Some(header) =>
      match signer.sign(Concat([header, update]))
      case None => None
      case Some(signature) => Some(ConfigSignature(header, signature))
  }

  method SignUpdateConfig(signer: UpdateSigner, update: Bytes) returns (r: Option<ConfigSignature>)
    ensures r == SignedOver(signer, update)
  {
    if signer.header.None? {
      return None;
    }
    var data := Append([signer.header.value, update]);
    var signature := signer.sign(data);
    if signature.None? {
      return None;
    }
    return Some(ConfigSignature(signer.header.value, signature.value));
  }

  // ----- ProposalSubmit: the last matching signature of each creator wins

  function Collected(sponsor: ProposalSignature, sigs: seq<ProposalSignature>): map<string, Bytes> {
    if sigs == [] then map[sponsor.creator := sponsor.signature]
    else
      var m := Collected(sponsor, sigs[..|sigs| - 1]);
      var sig := sigs[|sigs| - 1];
      if sig.proposalHash == sponsor.proposalHash then m[sig.creator := sig.signature] else m
  }

  method CollectSignatures(sponsor: ProposalSignature, reqSigs: seq<ProposalSignature>)
    returns (sigs: map<string, Bytes>)
    ensures sigs == Collected(sponsor, reqSigs)
  {
    sigs := map[];
    sigs := sigs[sponsor.creator := sponsor.signature];
    for i := 0 to |reqSigs|
      invariant sigs == Collected(sponsor, reqSigs[..i])
    {
      var sig := reqSigs[i];
      assert reqSigs[..i + 1][..i] == reqSigs[..i];
      if sponsor.proposalHash == sig.proposalHash {
        sigs := sigs[sig.creator := sig.signature];
      }
    }
    assert reqSigs[..|reqSigs|] == reqSigs;
  }

  /** The co-signature at `i` is for this proposal and by `c`. */
  predicate Matches(sponsor: ProposalSignature, sigs: seq<ProposalSignature>, i: nat, c: string) {
    i < |sigs| && sigs[i].proposalHash == sponsor.proposalHash && sigs[i].creator == c
  }

  predicate IsLastMatch(sponsor: ProposalSignature, sigs: seq<ProposalSignature>, i: nat, c: string) {
    Matches(sponsor, sigs, i, c) && forall j :: i < j < |sigs| ==> !Matches(sponsor, sigs, j, c)
  }

  /** One entry per distinct creator among the sponsor and the matching signers:
      the last match, otherwise the sponsor's own signature. */
  lemma {:induction false} OneSignaturePerCreator(sponsor: ProposalSignature, sigs: seq<ProposalSignature>, c: string)
    ensures var m := Collected(sponsor, sigs);
      && (c in m <==> c == sponsor.creator || exists i: nat :: Matches(sponsor, sigs, i, c))
      && (forall i: nat :: IsLastMatch(sponsor, sigs, i, c) ==> m[c] == sigs[i].signature)
      && (c in m && (forall i: nat :: !Matches(sponsor, sigs, i, c)) ==> m[c] == sponsor.signature)
  {
    if sigs != [] {
      var n := |sigs| - 1;
      var init := sigs[..n];
      OneSignaturePerCreator(sponsor, init, c);
      forall i: nat | i < n
        ensures Matches(sponsor, sigs, i, c) <==> Matches(sponsor, init, i, c)
      {
      }
      if Matches(sponsor, sigs, n, c) {
      } else {
        forall i: nat | IsLastMatch(sponsor, sigs, i, c)
          ensures IsLastMatch(sponsor, init, i, c)
        {
        }
      }
    }
  }

  // ----- walking a map in an unspecified order

  /** `order` visits every key of the map exactly once. */
  ghost predicate Visits<V>(order: seq<string>, m: map<string, V>) {
    (forall i, j :: 0 <= i < j < |order| ==> order[i] != order[j]) && forall k :: k in order <==> k in m
  }

  function Values<V>(order: seq<string>, m: map<string, V>): (vs: seq<V>)
    requires forall k :: k in order ==> k in m
    ensures |vs| == |order|
  {
    seq(|order|, i requires 0 <= i < |order| => m[order[i]])
  }

  /** Whatever order a map is walked in, it yields the same values, as a multiset. */
  lemma {:induction false} WalkOrderIsIrrelevant<V>(a: seq<string>, b: seq<string>, m: map<string, V>)
    requires Visits(a, m) && Visits(b, m)
    ensures (forall k :: k in a ==> k in m) && (forall k :: k in b ==> k in m)
    ensures multiset(Values(a, m)) == multiset(Values(b, m)) && |a| == |m|
    decreases |a|
  {
    hide Visits;
    hide Values;
    WalksOnlyKeys(a, m);
    WalksOnlyKeys(b, m);
    if a == [] {
      EmptyWalk(a, b, m);
    } else {
      var k := a[0];
      var j := Position(k, a, b, m);
      VisitsRest(a, 0, m);
      VisitsRest(b, j, m);
      WalkOrderIsIrrelevant(a[..0] + a[1..], b[..j] + b[j + 1..], m - {k});
      ValuesWithout(a, 0, m);
      ValuesWithout(b, j, m);
    }
  }

  lemma EmptyWalk<V>(a: seq<string>, b: seq<string>, m: map<string, V>)
    requires a == [] && Visits(a, m) && Visits(b, m)
    ensures b == [] && |m| == 0
  {
    assert forall k :: k in m ==> k in a;
    assert m == map[];
    WalkVisitsSomething(b, m);
  }

  lemma WalkVisitsSomething<V>(b: seq<string>, m: map<string, V>)
    requires Visits(b, m)
    ensures b != [] ==> |m| > 0
  {
    if b != [] {
      assert b[0] in b && b[0] in m.Keys;
    }
  }

  lemma Position<V>(k: string, a: seq<string>, b: seq<string>, m: map<string, V>) returns (j: nat)
    requires k in a && Visits(a, m) && Visits(b, m)
    ensures k in m && |m| == |m - {k}| + 1
    ensures j < |b| && b[j] == k
  {
    assert k in b;
    j :| 0 <= j < |b| && b[j] == k;
    assert m.Keys == (m - {k}).Keys + {k};
  }

  lemma WalksOnlyKeys<V>(a: seq<string>, m: map<string, V>)
    requires Visits(a, m)
    ensures forall k :: k in a ==> k in m
  {
  }

  lemma VisitsRest<V>(order: seq<string>, j: nat, m: map<string, V>)
    requires Visits(order, m) && j < |order|
    ensures Visits(order[..j] + order[j + 1..], m - {order[j]})
  {
    var rest, m' := order[..j] + order[j + 1..], m - {order[j]};
    forall k ensures k in rest <==> k in m' {
      if k in m' {
        assert k in order;
        var i :| 0 <= i < |order| && order[i] == k;
        assert rest[if i < j then i else i - 1] == k;
      }
      if k in rest {
        var i :| 0 <= i < |rest| && rest[i] == k;
        assert k == order[if i < j then i else i + 1];
      }
    }
    forall p, q | 0 <= p < q < |rest| ensures rest[p] != rest[q] {
      assert rest[p] == order[if p < j then p else p + 1];
      assert rest[q] == order[if q < j then q else q + 1];
    }
  }

  lemma ValuesWithout<V>(order: seq<string>, j: nat, m: map<string, V>)
    requires Visits(order, m) && j < |order|
    ensures var rest, m' := order[..j] + order[j + 1..], m - {order[j]};
      && (forall k :: k in rest ==> k in m')
      && multiset(Values(order, m)) == multiset(Values(rest, m')) + multiset{m[order[j]]}
  {
    var rest, m' := order[..j] + order[j + 1..], m - {order[j]};
    VisitsRest(order, j, m);
    var vs, us := Values(order, m), Values(rest, m');
    assert forall i :: 0 <= i < j ==> us[i] == vs[i];
    assert forall i :: j <= i < |us| ==> us[i] == vs[i + 1];
    hide Visits;
    hide Values;
    TakenOut(vs, us, j);
  }

  lemma TakenOut<V>(vs: seq<V>, us: seq<V>, j: nat)
    requires j < |vs| && |us| == |vs| - 1
    requires forall i :: 0 <= i < j ==> us[i] == vs[i]
    requires forall i :: j <= i < |us| ==> us[i] == vs[i + 1]
    ensures multiset(vs) == multiset(us) + multiset{vs[j]}
  {
    assert us == vs[..j] + vs[j + 1..];
    assert vs == vs[..j] + ([vs[j]] + vs[j + 1..]);
  }

  /** The keys of a map in some order. */
  method WalkKeys<V>(m: map<string, V>) returns (order: seq<string>)
    ensures Visits(order, m)
  {
    order := [];
    var left := m.Keys;
    while left != {}
      invariant left <= m.Keys
      invariant forall i, j :: 0 <= i < j < |order| ==> order[i] != order[j]
      invariant forall k :: k in order <==> k in m.Keys && k !in left
      decreases |left|
    {
      var k :| k in left;
      left := left - {k};
      order := order + [k];
    }
  }

  // ----- the update envelope

  class UpdateEnvelope {
    var signatures: map<string, ConfigSignature>
    const update: Bytes
    const channelID: string

    constructor (update: Bytes, channelID: string)
      ensures this.update == update && this.channelID == channelID && signatures == map[]
    {
      this.update, this.channelID := update, channelID;
      signatures := map[];
    }

    /** An organisation signs at most once; a refused signature changes nothing. */
    method SignBy(signer: UpdateSigner) returns (r: Option<SignError>)
      modifies this
      ensures r == if signer.mspId in old(signatures) then Some(AlreadySigned(signer.mspId))
                   else if SignedOver(signer, update).None? then Some(SignerFailed) else None
      ensures signatures == if r.Some? then old(signatures)
                            else old(signatures)[signer.mspId := SignedOver(signer, update).value]
    {
      if signer.mspId in signatures {
        return Some(AlreadySigned(signer.mspId));
      }
      var signature := SignUpdateConfig(signer, update);
      if signature.None? {
        return Some(SignerFailed);
      }
      signatures := signatures[signer.mspId := signature.value];
      return None;
    }

    /** The signatures handed to the envelope library, in the order of one walk. */
    method SignatureList() returns (list: seq<ConfigSignature>)
      ensures exists order :: Visits(order, signatures) && list == Values(order, signatures)
    {
      var order := WalkKeys(signatures);
      list := [];
      for i := 0 to |order|
        invariant |list| == i
        invariant forall k :: 0 <= k < i ==> order[k] in signatures && list[k] == signatures[order[k]]
      {
        assert order[i] in order;
        list := list + [signatures[order[i]]];
      }
      assert list == Values(order, signatures);
    }
  }

  /** Decodes every collected signature; one that does not decode fails the call. */
  method CreateUpdateEnvelope(update: Bytes, sigs: map<string, Bytes>, channelID: string,
                              decode: Bytes -> Option<ConfigSignature>) returns (r: Option<UpdateEnvelope>)
    ensures r.Some? <==> forall k :: k in sigs ==> decode(sigs[k]).Some?
    ensures r.Some? ==>
      && r.value.update == update && r.value.channelID == channelID
      && r.value.signatures.Keys == sigs.Keys
      && forall k :: k in sigs ==> Some(r.value.signatures[k]) == decode(sigs[k])
  {
    var updateEnvelope := new UpdateEnvelope(update, channelID);
    var order := WalkKeys(sigs);
    for i := 0 to |order|
      invariant fresh(updateEnvelope)
      invariant forall k :: k in updateEnvelope.signatures <==> k in order[..i]
      invariant forall k :: k in updateEnvelope.signatures ==>
        k in sigs && Some(updateEnvelope.signatures[k]) == decode(sigs[k])
    {
      var name := order[i];
      assert name in order;
      assert forall k :: k in order[..i + 1] <==> k in order[..i] || k == name;
      var sig := decode(sigs[name]);
      if sig.None? {
        return None;
      }
      updateEnvelope.signatures := updateEnvelope.signatures[name := sig.value];
    }
    assert order[..|order|] == order;
    return Some(updateEnvelope);
  }

  // ----- the checked update

  const CONFIG_UPDATE: int := 2

  datatype ChannelHeader = ChannelHeader(typ: int, channelId: string)

  /** What a configuration update carries once its payload is unmarshalled; a
      missing header and an undecodable part are both possible. */
  datatype UpdatePayload = UpdatePayload(header: Option<Option<ChannelHeader>>, data: Option<ConfigUpdateEnvelope>)

  datatype ConfigUpdateEnvelope = ConfigUpdateEnvelope(configUpdate: Bytes, signatures: seq<ConfigSignature>)

  datatype CheckError = BadPayload | BadChannelHeader | Mismatched | BadUpdate | CannotSign

  datatype SignedUpdate = SignedUpdate(channelID: string, update: ConfigUpdateEnvelope)

  /** sanityCheckAndSignConfigTx up to the outer signature. Three rejections wrap an
      error that is nil at that point, so they return no envelope and no error. */
  function SanityCheckAndSign(payload: Option<UpdatePayload>, signer: UpdateSigner, channelID: string)
    : Result<Option<SignedUpdate>, CheckError>
  {
    if payload.None? then Failure(BadPayload)
    else if payload.value.header.None? then Success(None)
    else if payload.value.header.value.None? then Failure(BadChannelHeader)
    else
      var ch := payload.value.header.value.value;
      if ch.typ != CONFIG_UPDATE then Success(None)
      else if ch.channelId == "" then Success(None)
      else
        var id := if channelID == "" then ch.channelId else channelID;
        if ch.channelId != id then Failure(Mismatched)
        else if payload.value.data.None? then Failure(BadUpdate)
        else
          var env := payload.value.data.value;
          match SignedOver(signer, env.configUpdate)
          case None => Failure(CannotSign)
          case Some(own) => Success(Some(SignedUpdate(id, env.(signatures := env.signatures + [own]))))
  }

  /** No error does not mean an envelope to send: exactly a payload without a
      header, of another type or without a channel name slips through. */
  lemma SilentRejections(payload: Option<UpdatePayload>, signer: UpdateSigner, channelID: string)
    ensures SanityCheckAndSign(payload, signer, channelID) == Success(None) <==>
      && payload.Some?
      && (payload.value.header.None? ||
            (payload.value.header.value.Some? &&
               var ch := payload.value.header.value.value; ch.typ != CONFIG_UPDATE || ch.channelId == ""))
  {
  }

  /** And an envelope comes back exactly for a configuration update of a named channel,
      which the argument repeats or leaves open; then with one signature more. */
  lemma SignedExactlyWhen(payload: Option<UpdatePayload>, signer: UpdateSigner, channelID: string)
    ensures var r := SanityCheckAndSign(payload, signer, channelID);
      && (r.Success? && r.value.Some? <==>
            && payload.Some? && payload.value.header.Some? && payload.value.header.value.Some?
            && var ch := payload.value.header.value.value;
            && ch.typ == 2 && ch.channelId != "" && (channelID == "" || channelID == ch.channelId)
            && payload.value.data.Some? && signer.header.Some?
            && signer.sign(signer.header.value + payload.value.data.value.configUpdate).Some?)
      && (r == Failure(Mismatched) <==>
            && payload.Some? && payload.value.header.Some? && payload.value.header.value.Some?
            && var ch := payload.value.header.value.value;
            ch.typ == 2 && ch.channelId != "" && channelID != "" && channelID != ch.channelId)
      && (r == Failure(BadPayload) <==> payload.None?)
      && (r == Failure(BadChannelHeader) <==>
            payload.Some? && payload.value.header.Some? && payload.value.header.value.None?)
      && (r == Failure(BadUpdate) ==> payload.Some? && payload.value.data.None?)
      && (r == Failure(CannotSign) ==>
            && payload.Some? && payload.value.data.Some?
            && (signer.header.None? ||
                  signer.sign(signer.header.value + payload.value.data.value.configUpdate).None?))
      && (r.Success? && r.value.Some? ==>
            var env, own := payload.value.data.value, signer.header.value;
            r.value.value == SignedUpdate(payload.value.header.value.value.channelId, ConfigUpdateEnvelope(
              env.configUpdate,
              env.signatures + [ConfigSignature(own, signer.sign(own + env.configUpdate).value)])))
  {
    if payload.Some? && payload.value.data.Some? && signer.header.Some? {
      TwoParts(signer.header.value, payload.value.data.value.configUpdate);
    }
  }

  method SanityCheckAndSignConfigTx(payload: Option<UpdatePayload>, signer: UpdateSigner, channelID: string)
    returns (r: Result<Option<SignedUpdate>, CheckError>)
    ensures r == SanityCheckAndSign(payload, signer, channelID)
  {
    if payload.None? {
      return Failure(BadPayload);
    }
    var header := payload.value.header;
    if header.None? {
      return Success(None);
    }
    if header.value.None? {
      return Failure(BadChannelHeader);
    }
    var ch := header.value.value;
    if ch.typ != CONFIG_UPDATE || ch.channelId == "" {
      return Success(None);
    }
    var id := channelID;
    if id == "" {
      id := ch.channelId;
    }
    if ch.channelId != id {
      return Failure(Mismatched);
    }
    if payload.value.data.None? {
      return Failure(BadUpdate);
    }
    var configUpdateEnv := payload.value.data.value;
    if signer.header.None? {
      return Failure(CannotSign);
    }
    var data := ConcatenateBytes([signer.header.value, configUpdateEnv.configUpdate]);
    var signature := signer.sign(data[..]);
    if signature.None? {
      return Failure(CannotSign);
    }
    var configSig := ConfigSignature(signer.header.value, signature.value);
    configUpdateEnv := configUpdateEnv.(signatures := configUpdateEnv.signatures + [configSig]);
    return Success(Some(SignedUpdate(id, configUpdateEnv)));
  }

  /** The decoded map that CreateUpdateEnvelope builds from the collected bytes. */
  ghost predicate Decodes(decode: Bytes -> Option<ConfigSignature>, sigs: map<string, Bytes>,
                          decoded: map<string, ConfigSignature>) {
    decoded.Keys == sigs.Keys && forall k :: k in decoded ==> decode(sigs[k]) == Some(decoded[k])
  }

  /** The signature a creator is to be represented by: its last for this proposal,
      otherwise the sponsor's own. */
  ghost predicate Represents(sponsor: ProposalSignature, sigs: seq<ProposalSignature>, c: string, signature: Bytes) {
    || (exists i: nat :: IsLastMatch(sponsor, sigs, i, c) && signature == sigs[i].signature)
    || (c == sponsor.creator && signature == sponsor.signature && forall i: nat :: !Matches(sponsor, sigs, i, c))
  }

  ghost predicate Signs(sponsor: ProposalSignature, sigs: seq<ProposalSignature>, c: string) {
    c == sponsor.creator || exists i: nat :: Matches(sponsor, sigs, i, c)
  }

  lemma {:induction false} LastMatchExists(sponsor: ProposalSignature, sigs: seq<ProposalSignature>, c: string, i: nat)
    requires Matches(sponsor, sigs, i, c)
    ensures exists j: nat :: IsLastMatch(sponsor, sigs, j, c)
    decreases |sigs| - i
  {
    if j :| i < j < |sigs| && Matches(sponsor, sigs, j, c) {
      LastMatchExists(sponsor, sigs, c, j);
    } else {
      assert IsLastMatch(sponsor, sigs, i, c);
    }
  }

  lemma CollectedRepresents(sponsor: ProposalSignature, sigs: seq<ProposalSignature>, c: string)
    ensures c in Collected(sponsor, sigs) <==> Signs(sponsor, sigs, c)
    ensures c in Collected(sponsor, sigs) ==> Represents(sponsor, sigs, c, Collected(sponsor, sigs)[c])
  {
    OneSignaturePerCreator(sponsor, sigs, c);
    if i: nat :| Matches(sponsor, sigs, i, c) {
      LastMatchExists(sponsor, sigs, c, i);
    }
  }

  /** From the co-signatures of a request to the update that is broadcast. The
      submitted list has one position for each creator among the sponsor and the
      matching signers, in the order of some walk over the map; there it holds the
      decoded signature that represents this creator; and one more follows, by the
      submitter, over its header and the update. The channel argument may be left
      empty. */
  lemma SubmissionConservesSignatures(
      sponsor: ProposalSignature, sigs: seq<ProposalSignature>, decode: Bytes -> Option<ConfigSignature>,
      decoded: map<string, ConfigSignature>, walk: seq<string>,
      update: Bytes, signer: UpdateSigner, header: Bytes, named: string, channelID: string)
    requires Decodes(decode, Collected(sponsor, sigs), decoded) && Visits(walk, decoded)
    requires named != "" && (channelID == "" || channelID == named)
    requires signer.header == Some(header) && signer.sign(header + update).Some?
    ensures var top := Some(Some(ChannelHeader(CONFIG_UPDATE, named)));
      var env := ConfigUpdateEnvelope(update, Values(walk, decoded));
      var r := SanityCheckAndSign(Some(UpdatePayload(top, Some(env))), signer, channelID);
      && r.Success? && r.value.Some?
      && r.value.value.channelID == named && r.value.value.update.configUpdate == update
      && var list := r.value.value.update.signatures;
      && |list| == |walk| + 1
      && list[|walk|] == ConfigSignature(header, signer.sign(header + update).value)
      && (forall i, j :: 0 <= i < j < |walk| ==> walk[i] != walk[j])
      && (forall c :: c in walk <==> Signs(sponsor, sigs, c))
      && forall i :: 0 <= i < |walk| ==> IsDecodedFor(sponsor, sigs, decode, walk[i], list[i])
  {
    TwoParts(header, update);
    forall c ensures c in walk <==> Signs(sponsor, sigs, c) {
      CollectedRepresents(sponsor, sigs, c);
    }
    forall i | 0 <= i < |walk|
      ensures IsDecodedFor(sponsor, sigs, decode, walk[i], Values(walk, decoded)[i])
    {
      var c := walk[i];
      assert c in walk && c in decoded;
      CollectedRepresents(sponsor, sigs, c);
    }
  }

  ghost predicate IsDecodedFor(sponsor: ProposalSignature, sigs: seq<ProposalSignature>,
                               decode: Bytes -> Option<ConfigSignature>, c: string, signature: ConfigSignature) {
    exists bytes :: Represents(sponsor, sigs, c, bytes) && decode(bytes) == Some(signature)
  }

  /** And as a multiset the list is the same for every walk. */
  lemma SubmissionIgnoresWalkOrder(
      decoded: map<string, ConfigSignature>, walk: seq<string>, walk': seq<string>,
      update: Bytes, signer: UpdateSigner, named: string, channelID: string)
    requires Visits(walk, decoded) && Visits(walk', decoded) && SignedOver(signer, update).Some?
    requires named != "" && (channelID == "" || channelID == named)
    ensures (forall k :: k in walk ==> k in decoded) && (forall k :: k in walk' ==> k in decoded)
    ensures var top := Some(Some(ChannelHeader(CONFIG_UPDATE, named)));
      var env := ConfigUpdateEnvelope(update, Values(walk, decoded));
      var env' := ConfigUpdateEnvelope(update, Values(walk', decoded));
      var r := SanityCheckAndSign(Some(UpdatePayload(top, Some(env))), signer, channelID);
      var r' := SanityCheckAndSign(Some(UpdatePayload(top, Some(env'))), signer, channelID);
      && r.Success? && r.value.Some? && r'.Success? && r'.value.Some?
      && multiset(r.value.value.update.signatures) == multiset(r'.value.value.update.signatures)
  {
    WalkOrderIsIrrelevant(walk, walk', decoded);
  }

  lemma TwoParts(a: Bytes, b: Bytes)
    ensures Concat([a, b]) == a + b
  {
    var both, second := [a, b], [b];
    assert both[1..] == second;
    assert Concat(second) == b by {
      assert |second[1..]| == 0;
      assert Concat(second) == second[0] + Concat(second[1..]);
    }
    assert Concat(both) == both[0] + Concat(both[1..]);
  }
}
