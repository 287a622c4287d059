/** Read-write sets and their protobuf form. Leaf messages are marshalled into the
    nodes above them, so a round trip passes through two or three codecs. */
module RwSets {
  import opened Wrappers
  import opened Codec

  // ----- leaf messages

  datatype Version = Version(blockNum: nat, txNum: nat)

  datatype KVRead = KVRead(key: string, version: Option<Version>)

  datatype KVWrite = KVWrite(key: string, isDelete: bool, value: Bytes)

  datatype KVRWSet = KVRWSet(kvReads: seq<KVRead>, rangeQueries: Bytes, kvWrites: seq<KVWrite>, metadataWrites: Bytes)

  datatype KVReadHash = KVReadHash(keyHash: Bytes, version: Option<Version>)

  datatype KVWriteHash = KVWriteHash(keyHash: Bytes, isDelete: bool, valueHash: Bytes)

  datatype HashedRWSet = HashedRWSet(
    hashedReads: seq<KVReadHash>, hashedWrites: seq<KVWriteHash>, metadataWrites: Bytes)

  // ----- the sets, and the messages that carry them

  datatype CollHashedRwSet = CollHashedRwSet(collectionName: string, hashedRwSet: HashedRWSet, pvtRwSetHash: Bytes)

  datatype NsRwSet = NsRwSet(nameSpace: string, kvRwSet: KVRWSet, collHashedRwSets: seq<CollHashedRwSet>)

  datatype CollPvtRwSet = CollPvtRwSet(collectionName: string, kvRwSet: KVRWSet)

  datatype NsPvtRwSet = NsPvtRwSet(nameSpace: string, collPvtRwSets: seq<CollPvtRwSet>)

  datatype CollHashedMsg = CollHashedMsg(collectionName: string, hashedRwset: Bytes, pvtRwsetHash: Bytes)

  datatype NsMsg = NsMsg(namespace: string, rwset: Bytes, collectionHashedRwset: seq<CollHashedMsg>)

  datatype TxMsg = TxMsg(dataModel: nat, nsRwset: seq<NsMsg>)

  datatype CollPvtMsg = CollPvtMsg(collectionName: string, rwset: Bytes)

  datatype NsPvtMsg = NsPvtMsg(namespace: string, collectionPvtRwset: seq<CollPvtMsg>)

  datatype TxPvtMsg = TxPvtMsg(dataModel: nat, nsPvtRwset: seq<NsPvtMsg>)

  const KV: nat := 0

  datatype Codecs = Codecs(kv: Codec<KVRWSet>, hashed: Codec<HashedRWSet>, tx: Codec<TxMsg>, pvt: Codec<TxPvtMsg>)

  ghost predicate AllLawful(c: Codecs) {
    Lawful(c.kv) && Lawful(c.hashed) && Lawful(c.tx) && Lawful(c.pvt)
  }

  /** Applies a conversion that may fail to each element, in order. */
  function All<A, B>(f: A -> Option<B>, xs: seq<A>): (r: Option<seq<B>>)
    ensures r.Some? <==> forall i :: 0 <= i < |xs| ==> f(xs[i]).Some?
    ensures r.Some? ==> |r.value| == |xs| && forall i :: 0 <= i < |xs| ==> f(xs[i]) == Some(r.value[i])
  {
    if xs == [] then Some([])
    else
      match (f(xs[0]), All(f, xs[1..]))
      case (Some(y), Some(ys)) => Some([y] + ys)
      case _ => None
  }

  function Map<A, B>(f: A -> B, xs: seq<A>): (ys: seq<B>)
    ensures |ys| == |xs| && forall i :: 0 <= i < |xs| ==> ys[i] == f(xs[i])
  {
    seq(|xs|, i requires 0 <= i < |xs| => f(xs[i]))
  }

  /** A pointwise inverse is an inverse on lists. */
  lemma AllAfterMap<A, B>(to: A -> B, from: B -> Option<A>, xs: seq<A>)
    requires forall i :: 0 <= i < |xs| ==> from(to(xs[i])) == Some(xs[i])
    ensures All(from, Map(to, xs)) == Some(xs)
  {
    var ms := Map(to, xs);
    assert forall i :: 0 <= i < |ms| ==> from(ms[i]) == Some(xs[i]);
    assert All(from, ms).value == xs;
  }

  // ----- public sets

  function CollToMsg(c: Codecs): CollHashedRwSet -> CollHashedMsg {
    (x: CollHashedRwSet) => CollHashedMsg(x.collectionName, c.hashed.enc(x.hashedRwSet), x.pvtRwSetHash)
  }

  function CollFromMsg(c: Codecs): CollHashedMsg -> Option<CollHashedRwSet> {
    (m: CollHashedMsg) =>
      match c.hashed.dec(m.hashedRwset)
      case None => None
      case Some(h) => Some(CollHashedRwSet(m.collectionName, h, m.pvtRwsetHash))
  }

  function NsToMsg(c: Codecs): NsRwSet -> NsMsg {
    (x: NsRwSet) => NsMsg(x.nameSpace, c.kv.enc(x.kvRwSet), Map(CollToMsg(c), x.collHashedRwSets))
  }

  function NsFromMsg(c: Codecs): NsMsg -> Option<NsRwSet> {
    (m: NsMsg) =>
      match (c.kv.dec(m.rwset), All(CollFromMsg(c), m.collectionHashedRwset))
      case (Some(kv), Some(colls)) => Some(NsRwSet(m.namespace, kv, colls))
      case _ => None
  }

  function ToBytes(c: Codecs, sets: seq<NsRwSet>): Bytes { c.tx.enc(TxMsg(KV, Map(NsToMsg(c), sets))) }

  function FromBytes(c: Codecs, b: Bytes): Option<seq<NsRwSet>> {
    match c.tx.dec(b)
    case None => None
    case Some(m) => All(NsFromMsg(c), m.nsRwset)
  }

  lemma CollRoundTrip(c: Codecs, x: CollHashedRwSet)
    requires AllLawful(c)
    ensures CollFromMsg(c)(CollToMsg(c)(x)) == Some(x)
  {
  }

  lemma NsRoundTrip(c: Codecs, x: NsRwSet)
    requires AllLawful(c)
    ensures NsFromMsg(c)(NsToMsg(c)(x)) == Some(x)
  {
    forall i | 0 <= i < |x.collHashedRwSets|
      ensures CollFromMsg(c)(CollToMsg(c)(x.collHashedRwSets[i])) == Some(x.collHashedRwSets[i])
    {
      CollRoundTrip(c, x.collHashedRwSets[i]);
    }
    AllAfterMap(CollToMsg(c), CollFromMsg(c), x.collHashedRwSets);
  }

  /** Serialising a public set and reading it back restores every namespace,
      collection and hash, in order. */
  lemma PublicRoundTrip(c: Codecs, sets: seq<NsRwSet>)
    requires AllLawful(c)
    ensures FromBytes(c, ToBytes(c, sets)) == Some(sets)
  {
    forall i | 0 <= i < |sets| ensures NsFromMsg(c)(NsToMsg(c)(sets[i])) == Some(sets[i]) {
      NsRoundTrip(c, sets[i]);
    }
    AllAfterMap(NsToMsg(c), NsFromMsg(c), sets);
  }

  /** The message a public set is written as, part by part. */
  lemma PublicMessageSays(c: Codecs, sets: seq<NsRwSet>)
    requires AllLawful(c)
    ensures var m := c.tx.dec(ToBytes(c, sets));
      && m.Some? && m.value.dataModel == 0 && |m.value.nsRwset| == |sets|
      && forall i :: 0 <= i < |sets| ==>
           var ns, x := m.value.nsRwset[i], sets[i];
           && ns.namespace == x.nameSpace && c.kv.dec(ns.rwset) == Some(x.kvRwSet)
           && |ns.collectionHashedRwset| == |x.collHashedRwSets|
           && forall j :: 0 <= j < |x.collHashedRwSets| ==>
                var coll, y := ns.collectionHashedRwset[j], x.collHashedRwSets[j];
                && coll.collectionName == y.collectionName && coll.pvtRwsetHash == y.pvtRwSetHash
                && c.hashed.dec(coll.hashedRwset) == Some(y.hashedRwSet)
  {
  }

  // ----- private sets

  function CollPvtToMsg(c: Codecs): CollPvtRwSet -> CollPvtMsg {
    (x: CollPvtRwSet) => CollPvtMsg(x.collectionName, c.kv.enc(x.kvRwSet))
  }

  function CollPvtFromMsg(c: Codecs): CollPvtMsg -> Option<CollPvtRwSet> {
    (m: CollPvtMsg) =>
      match c.kv.dec(m.rwset)
      case None => None
      case Some(kv) => Some(CollPvtRwSet(m.collectionName, kv))
  }

  function NsPvtToMsg(c: Codecs): NsPvtRwSet -> NsPvtMsg {
    (x: NsPvtRwSet) => NsPvtMsg(x.nameSpace, Map(CollPvtToMsg(c), x.collPvtRwSets))
  }

  function NsPvtFromMsg(c: Codecs): NsPvtMsg -> Option<NsPvtRwSet> {
    (m: NsPvtMsg) =>
      match All(CollPvtFromMsg(c), m.collectionPvtRwset)
      case None => None
      case Some(colls) => Some(NsPvtRwSet(m.namespace, colls))
  }

  function PvtToBytes(c: Codecs, sets: seq<NsPvtRwSet>): Bytes { c.pvt.enc(TxPvtMsg(KV, Map(NsPvtToMsg(c), sets))) }

  function PvtFromBytes(c: Codecs, b: Bytes): Option<seq<NsPvtRwSet>> {
    match c.pvt.dec(b)
    case None => None
    case Some(m) => All(NsPvtFromMsg(c), m.nsPvtRwset)
  }

  lemma CollPvtRoundTrip(c: Codecs, x: CollPvtRwSet)
    requires AllLawful(c)
    ensures CollPvtFromMsg(c)(CollPvtToMsg(c)(x)) == Some(x)
  {
  }

  lemma NsPvtRoundTrip(c: Codecs, x: NsPvtRwSet)
    requires AllLawful(c)
    ensures NsPvtFromMsg(c)(NsPvtToMsg(c)(x)) == Some(x)
  {
    forall i | 0 <= i < |x.collPvtRwSets|
      ensures CollPvtFromMsg(c)(CollPvtToMsg(c)(x.collPvtRwSets[i])) == Some(x.collPvtRwSets[i])
    {
      CollPvtRoundTrip(c, x.collPvtRwSets[i]);
    }
    AllAfterMap(CollPvtToMsg(c), CollPvtFromMsg(c), x.collPvtRwSets);
  }

  lemma PrivateRoundTrip(c: Codecs, sets: seq<NsPvtRwSet>)
    requires AllLawful(c)
    ensures PvtFromBytes(c, PvtToBytes(c, sets)) == Some(sets)
  {
    forall i | 0 <= i < |sets| ensures NsPvtFromMsg(c)(NsPvtToMsg(c)(sets[i])) == Some(sets[i]) {
      NsPvtRoundTrip(c, sets[i]);
    }
    AllAfterMap(NsPvtToMsg(c), NsPvtFromMsg(c), sets);
  }

  /** The message a private set is written as, part by part. */
  lemma PrivateMessageSays(c: Codecs, sets: seq<NsPvtRwSet>)
    requires AllLawful(c)
    ensures var m := c.pvt.dec(PvtToBytes(c, sets));
      && m.Some? && m.value.dataModel == 0 && |m.value.nsPvtRwset| == |sets|
      && forall i :: 0 <= i < |sets| ==>
           var ns, x := m.value.nsPvtRwset[i], sets[i];
           && ns.namespace == x.nameSpace && |ns.collectionPvtRwset| == |x.collPvtRwSets|
           && forall j :: 0 <= j < |x.collPvtRwSets| ==>
                var coll, y := ns.collectionPvtRwset[j], x.collPvtRwSets[j];
                coll.collectionName == y.collectionName && c.kv.dec(coll.rwset) == Some(y.kvRwSet)
  {
  }

  // ----- the conversion loops

  method CollectionsFromMsgs(c: Codecs, msgs: seq<CollHashedMsg>) returns (r: Option<seq<CollHashedRwSet>>)
    ensures r == All(CollFromMsg(c), msgs)
  {
    var colls: seq<CollHashedRwSet> := [];
    for i := 0 to |msgs|
      invariant |colls| == i
      invariant forall k :: 0 <= k < i ==> CollFromMsg(c)(msgs[k]) == Some(colls[k])
    {
      var coll := CollFromMsg(c)(msgs[i]);
      if coll.None? {
        return None;
      }
      colls := colls + [coll.value];
    }
    assert All(CollFromMsg(c), msgs).Some? ==> colls == All(CollFromMsg(c), msgs).value;
    return Some(colls);
  }

  method NamespacesFromMsgs(c: Codecs, msgs: seq<NsMsg>) returns (r: Option<seq<NsRwSet>>)
    ensures r == All(NsFromMsg(c), msgs)
  {
    var sets: seq<NsRwSet> := [];
    for i := 0 to |msgs|
      invariant |sets| == i
      invariant forall k :: 0 <= k < i ==> NsFromMsg(c)(msgs[k]) == Some(sets[k])
    {
      var kv := c.kv.dec(msgs[i].rwset);
      var colls := CollectionsFromMsgs(c, msgs[i].collectionHashedRwset);
      if kv.None? || colls.None? {
        assert NsFromMsg(c)(msgs[i]).None?;
        return None;
      }
      sets := sets + [NsRwSet(msgs[i].namespace, kv.value, colls.value)];
    }
    assert All(NsFromMsg(c), msgs).Some? ==> sets == All(NsFromMsg(c), msgs).value;
    return Some(sets);
  }

  class TxRwSet {
    var nsRwSets: seq<NsRwSet>

    constructor ()
      ensures nsRwSets == []
    {
      nsRwSets := [];
    }

    /** Replaces the set on success and leaves the receiver alone on failure. */
    method FromProtoBytes(c: Codecs, protoBytes: Bytes) returns (ok: bool)
      modifies this
      ensures ok <==> FromBytes(c, protoBytes).Some?
      ensures nsRwSets == if ok then FromBytes(c, protoBytes).value else old(nsRwSets)
    {
      var protoMsg := c.tx.dec(protoBytes);
      if protoMsg.None? {
        return false;
      }
      var temp := NamespacesFromMsgs(c, protoMsg.value.nsRwset);
      if temp.None? {
        return false;
      }
      nsRwSets := temp.value;
      return true;
    }

    /** The hash of the first collection so named in the first namespace so named;
        later namespaces of the same name are not consulted. */
    method GetPvtDataHash(ns: string, coll: string) returns (r: Option<Bytes>)
      ensures r.Some? <==> exists i, j :: FirstCollection(nsRwSets, ns, coll, i, j)
      ensures forall i, j :: FirstCollection(nsRwSets, ns, coll, i, j) ==>
        r == Some(nsRwSets[i].collHashedRwSets[j].pvtRwSetHash)
    {
      for i := 0 to |nsRwSets|
        invariant forall k :: 0 <= k < i ==> nsRwSets[k].nameSpace != ns
      {
        if nsRwSets[i].nameSpace != ns {
          continue;
        }
        var colls := nsRwSets[i].collHashedRwSets;
        for j := 0 to |colls|
          invariant forall k :: 0 <= k < j ==> colls[k].collectionName != coll
        {
          if colls[j].collectionName != coll {
            continue;
          }
          assert FirstCollection(nsRwSets, ns, coll, i, j);
          return Some(colls[j].pvtRwSetHash);
        }
        return None;
      }
      return None;
    }

    method NumCollections() returns (numColls: nat)
      ensures numColls == CountCollections(nsRwSets)
    {
      numColls := 0;
      for i := 0 to |nsRwSets|
        invariant numColls + CountCollections(nsRwSets[i..]) == CountCollections(nsRwSets)
      {
        numColls := numColls + |nsRwSets[i].collHashedRwSets|;
        assert nsRwSets[i..][1..] == nsRwSets[i + 1..];
      }
    }
  }

  method PvtCollectionsFromMsgs(c: Codecs, msgs: seq<CollPvtMsg>) returns (r: Option<seq<CollPvtRwSet>>)
    ensures r == All(CollPvtFromMsg(c), msgs)
  {
    var colls: seq<CollPvtRwSet> := [];
    for i := 0 to |msgs|
      invariant |colls| == i
      invariant forall k :: 0 <= k < i ==> CollPvtFromMsg(c)(msgs[k]) == Some(colls[k])
    {
      var coll := CollPvtFromMsg(c)(msgs[i]);
      if coll.None? {
        return None;
      }
      colls := colls + [coll.value];
    }
    assert All(CollPvtFromMsg(c), msgs).Some? ==> colls == All(CollPvtFromMsg(c), msgs).value;
    return Some(colls);
  }

  method PvtNamespacesFromMsgs(c: Codecs, msgs: seq<NsPvtMsg>) returns (r: Option<seq<NsPvtRwSet>>)
    ensures r == All(NsPvtFromMsg(c), msgs)
  {
    var sets: seq<NsPvtRwSet> := [];
    for i := 0 to |msgs|
      invariant |sets| == i
      invariant forall k :: 0 <= k < i ==> NsPvtFromMsg(c)(msgs[k]) == Some(sets[k])
    {
      var colls := PvtCollectionsFromMsgs(c, msgs[i].collectionPvtRwset);
      if colls.None? {
        assert NsPvtFromMsg(c)(msgs[i]).None?;
        return None;
      }
      sets := sets + [NsPvtRwSet(msgs[i].namespace, colls.value)];
    }
    assert All(NsPvtFromMsg(c), msgs).Some? ==> sets == All(NsPvtFromMsg(c), msgs).value;
    return Some(sets);
  }

  class TxPvtRwSet {
    var nsPvtRwSets: seq<NsPvtRwSet>

    constructor ()
      ensures nsPvtRwSets == []
    {
      nsPvtRwSets := [];
    }

    /** Replaces the set on success and leaves the receiver alone on failure. */
    method FromProtoBytes(c: Codecs, protoBytes: Bytes) returns (ok: bool)
      modifies this
      ensures ok <==> PvtFromBytes(c, protoBytes).Some?
      ensures nsPvtRwSets == if ok then PvtFromBytes(c, protoBytes).value else old(nsPvtRwSets)
    {
      var protoMsg := c.pvt.dec(protoBytes);
      if protoMsg.None? {
        return false;
      }
      var temp := PvtNamespacesFromMsgs(c, protoMsg.value.nsPvtRwset);
      if temp.None? {
        return false;
      }
      nsPvtRwSets := temp.value;
      return true;
    }
  }

  ghost predicate FirstCollection(sets: seq<NsRwSet>, ns: string, coll: string, i: int, j: int) {
    && 0 <= i < |sets| && sets[i].nameSpace == ns
    && (forall k :: 0 <= k < i ==> sets[k].nameSpace != ns)
    && 0 <= j < |sets[i].collHashedRwSets| && sets[i].collHashedRwSets[j].collectionName == coll
    && forall k :: 0 <= k < j ==> sets[i].collHashedRwSets[k].collectionName != coll
  }

  function CountCollections(sets: seq<NsRwSet>): nat {
    if sets == [] then 0 else |sets[0].collHashedRwSets| + CountCollections(sets[1..])
  }
  /** Every pair of positions that names a collection is counted once. */
  function CollectionsFrom(sets: seq<NsRwSet>, k: nat): set<(int, int)>
    requires k <= |sets|
  {
    set i, j | k <= i < |sets| && 0 <= j < |sets[i].collHashedRwSets| :: (i, j)
  }

  lemma {:induction false} CountIsNumberOfCollections(sets: seq<NsRwSet>, k: nat)
    requires k <= |sets|
    ensures CountCollections(sets[k..]) == |CollectionsFrom(sets, k)|
    decreases |sets| - k
  {
    if k == |sets| {
      assert CollectionsFrom(sets, k) == {};
    } else {
      CountIsNumberOfCollections(sets, k + 1);
      assert sets[k..][1..] == sets[k + 1..];
      var n := |sets[k].collHashedRwSets|;
      RowSize(k, n);
      assert CollectionsFrom(sets, k) == Row(k, n) + CollectionsFrom(sets, k + 1);
    }
  }

  function Row(k: int, n: nat): set<(int, int)> { set j | 0 <= j < n :: (k, j) }

  lemma {:induction false} RowSize(k: int, n: nat)
    ensures |Row(k, n)| == n
  {
    if n > 0 {
      RowSize(k, n - 1);
      assert Row(k, n) == Row(k, n - 1) + {(k, n - 1)};
    } else {
      assert Row(k, n) == {};
    }
  }
}
