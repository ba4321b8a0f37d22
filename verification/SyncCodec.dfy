/** The daemon-to-daemon graph sync messages (`peer_sync.rs`). */
module SyncCodec {
  import opened Bytes
  import opened Wrappers
  import opened Codec

  const MAX_QUIC_ADDRS: nat := 8
  const MSG_SYNC_REQUEST: byte := 0x01
  const MSG_SYNC_RESPONSE: byte := 0x02
  const MSG_PING: byte := 0x04
  const MSG_PONG: byte := 0x05

  datatype Addr = Addr(b0: byte, b1: byte, b2: byte, b3: byte)

  /** The fixed-width part of a topic: hashes and QoS. */
  datatype TopicHead = TopicHead(
    hash: u64, typeHash: u64,
    reliability: byte, durability: byte, historyKind: byte, historyDepth: i32,
    deadlineSec: u32, deadlineNsec: u32, lifespanSec: u32, lifespanNsec: u32,
    liveliness: byte, leaseSec: u32, leaseNsec: u32)

  datatype TopicInfo = TopicInfo(
    head: TopicHead, name: seq<byte>, topicType: seq<byte>, nodeName: seq<byte>, nodeNamespace: seq<byte>)

  datatype NodeInfo = NodeInfo(
    nodeId: u64, domainId: u32, pubs: seq<TopicInfo>, subs: seq<TopicInfo>,
    port: u16, addrs: seq<Addr>, name: seq<byte>, namespace: seq<byte>)

  datatype Endpoint = Endpoint(port: u16, addrs: seq<Addr>)

  datatype Result<+T> = Success(value: T) | Failure(error: DecodeError)

  function U16At(b: seq<byte>, off: nat): u16 requires off + 2 <= |b| { Pow256Widths(); U(b, off, 2) }
  function U32At(b: seq<byte>, off: nat): u32 requires off + 4 <= |b| { Pow256Widths(); U(b, off, 4) }
  function U64At(b: seq<byte>, off: nat): u64 requires off + 8 <= |b| { Pow256Widths(); U(b, off, 8) }

  // -------------------------------------------------------------- topic head

  const HEAD_BYTES: nat := 48

  function EncHead(h: TopicHead): (b: seq<byte>)
    ensures |b| == HEAD_BYTES
  {
    ToLe(h.hash, 8) + (ToLe(h.typeHash, 8) + ([h.reliability] + ([h.durability] + ([h.historyKind]
    + (ToLe(I32Bits(h.historyDepth), 4) + EncTimes(h))))))
  }

  function HeadAt(b: seq<byte>, off: nat): TopicHead
    requires off + HEAD_BYTES <= |b|
  {
    TopicHead(
      U64At(b, off), U64At(b, off + 8), b[off + 16], b[off + 17], b[off + 18],
      I32FromBits(U32At(b, off + 19)), U32At(b, off + 23), U32At(b, off + 27),
      U32At(b, off + 31), U32At(b, off + 35), b[off + 39], U32At(b, off + 40), U32At(b, off + 44))
  }

  function DecHead(b: seq<byte>, off: nat): (r: Parsed<TopicHead>) {
    if off + HEAD_BYTES > |b| then Err(TruncatedTopic) else Ok(HeadAt(b, off), off + HEAD_BYTES)
  }

  const HEAD: Codec<TopicHead> := Codec(EncHead, DecHead, _ => true)

  /** The integer at `off` inside a longer encoding, and what follows it. */
  lemma TakeInt(b: seq<byte>, off: nat, n: nat, k: nat, f: seq<byte>)
    requires Has(b, off, ToLe(n, k) + f) && n < Pow256(k)
    ensures U(b, off, k) == n && Has(b, off + k, f)
  {
    HasSplit(b, off, ToLe(n, k), f);
    UReads(b, off, n, k);
  }

  lemma TakeByte(b: seq<byte>, off: nat, x: byte, f: seq<byte>)
    requires Has(b, off, [x] + f)
    ensures b[off] == x && Has(b, off + 1, f)
  {
    HasSplit(b, off, [x], f);
    assert b[off..off + 1][0] == x;
  }

  /** The second half of the head, from the deadline on. */
  function EncTimes(h: TopicHead): (b: seq<byte>)
    ensures |b| == 25
  {
    ToLe(h.deadlineSec, 4) + (ToLe(h.deadlineNsec, 4) + (ToLe(h.lifespanSec, 4) + (ToLe(h.lifespanNsec, 4)
    + ([h.liveliness] + (ToLe(h.leaseSec, 4) + ToLe(h.leaseNsec, 4))))))
  }

  lemma TimesRead(b: seq<byte>, off: nat, h: TopicHead)
    requires Has(b, off, EncTimes(h))
    ensures U(b, off, 4) == h.deadlineSec && U(b, off + 4, 4) == h.deadlineNsec
    ensures U(b, off + 8, 4) == h.lifespanSec && U(b, off + 12, 4) == h.lifespanNsec
    ensures b[off + 16] == h.liveliness && U(b, off + 17, 4) == h.leaseSec && U(b, off + 21, 4) == h.leaseNsec
  {
    Pow256Widths();
    var t6 := ToLe(h.leaseSec, 4) + ToLe(h.leaseNsec, 4);
    var t5 := [h.liveliness] + t6;
    var t4 := ToLe(h.lifespanNsec, 4) + t5;
    var t3 := ToLe(h.lifespanSec, 4) + t4;
    TakeInt(b, off, h.deadlineSec, 4, ToLe(h.deadlineNsec, 4) + t3);
    TakeInt(b, off + 4, h.deadlineNsec, 4, t3);
    TakeInt(b, off + 8, h.lifespanSec, 4, t4);
    TakeInt(b, off + 12, h.lifespanNsec, 4, t5);
    TakeByte(b, off + 16, h.liveliness, t6);
    TakeInt(b, off + 17, h.leaseSec, 4, ToLe(h.leaseNsec, 4));
    UReads(b, off + 21, h.leaseNsec, 4);
  }

  lemma HeadReads(b: seq<byte>, off: nat, h: TopicHead)
    requires Has(b, off, EncHead(h))
    ensures HeadAt(b, off) == h
  {
    Pow256Widths();
    var t6 := ToLe(I32Bits(h.historyDepth), 4) + EncTimes(h);
    var t5 := [h.historyKind] + t6;
    var t4 := [h.durability] + t5;
    var t3 := [h.reliability] + t4;
    TakeInt(b, off, h.hash, 8, ToLe(h.typeHash, 8) + t3);
    TakeInt(b, off + 8, h.typeHash, 8, t3);
    TakeByte(b, off + 16, h.reliability, t4);
    TakeByte(b, off + 17, h.durability, t5);
    TakeByte(b, off + 18, h.historyKind, t6);
    TakeInt(b, off + 19, I32Bits(h.historyDepth), 4, EncTimes(h));
    TimesRead(b, off + 23, h);
  }

  lemma HeadStable(b: seq<byte>, m: nat, off: nat)
    requires m <= |b| && DecHead(b[..m], off).Ok?
    ensures DecHead(b, off) == DecHead(b[..m], off)
  {
    UStable(b, m, off, 8); UStable(b, m, off + 8, 8); UStable(b, m, off + 19, 4);
    UStable(b, m, off + 23, 4); UStable(b, m, off + 27, 4); UStable(b, m, off + 31, 4);
    UStable(b, m, off + 35, 4); UStable(b, m, off + 40, 4); UStable(b, m, off + 44, 4);
  }

  lemma HeadLawful()
    ensures Lawful(HEAD)
  {
    forall x, b, off: nat | HEAD.fits(x) && Has(b, off, HEAD.enc(x))
      ensures HEAD.dec(b, off) == Ok(x, off + |HEAD.enc(x)|)
    {
      HeadReads(b, off, x);
    }
    forall b: seq<byte>, m: nat, off: nat | m <= |b| && HEAD.dec(b[..m], off).Ok?
      ensures HEAD.dec(b, off) == HEAD.dec(b[..m], off)
    {
      HeadStable(b, m, off);
    }
  }

  // ------------------------------------------------------- identity, endpoint

  function EncIdentity(x: (u64, u32)): seq<byte> { ToLe(x.0, 8) + ToLe(x.1, 4) }

  function DecIdentity(b: seq<byte>, off: nat): (r: Parsed<(u64, u32)>) {
    if off + 12 > |b| then Err(TruncatedNodeHeader) else Ok((U64At(b, off), U32At(b, off + 8)), off + 12)
  }

  const IDENTITY: Codec<(u64, u32)> := Codec(EncIdentity, DecIdentity, _ => true)

  lemma IdentityReads(b: seq<byte>, off: nat, id: u64, domain: u32)
    requires Has(b, off, EncIdentity((id, domain)))
    ensures DecIdentity(b, off) == Ok((id, domain), off + 12) && |EncIdentity((id, domain))| == 12
  {
    Pow256Widths();
    TakeInt(b, off, id, 8, ToLe(domain, 4));
    UReads(b, off + 8, domain, 4);
  }

  lemma IdentityLawful()
    ensures Lawful(IDENTITY)
  {
    forall x, b, off: nat | IDENTITY.fits(x) && Has(b, off, IDENTITY.enc(x))
      ensures IDENTITY.dec(b, off) == Ok(x, off + |IDENTITY.enc(x)|)
    {
      IdentityReads(b, off, x.0, x.1);
    }
    forall b: seq<byte>, m: nat, off: nat | m <= |b| && IDENTITY.dec(b[..m], off).Ok?
      ensures IDENTITY.dec(b, off) == IDENTITY.dec(b[..m], off)
    {
      UStable(b, m, off, 8);
      UStable(b, m, off + 8, 4);
    }
  }

  function EncAddr(a: Addr): seq<byte> { [a.b0, a.b1, a.b2, a.b3] }

  function EncAddrs(addrs: seq<Addr>): (b: seq<byte>)
    ensures |b| == 4 * |addrs|
  {
    if addrs == [] then [] else EncAddr(addrs[0]) + EncAddrs(addrs[1..])
  }

  function DecAddrs(b: seq<byte>, off: nat, count: nat): (addrs: seq<Addr>)
    requires off + 4 * count <= |b|
    ensures |addrs| == count
    decreases count
  {
    if count == 0 then [] else [Addr(b[off], b[off + 1], b[off + 2], b[off + 3])] + DecAddrs(b, off + 4, count - 1)
  }

  function EncEndpoint(x: Endpoint): (b: seq<byte>)
    ensures |b| == 6 + 4 * |x.addrs|
  {
    ToLe(x.port, 2) + (ToLe(|x.addrs|, 4) + EncAddrs(x.addrs))
  }

  /** At most eight addresses are read, whatever the count says. */
  function DecEndpoint(b: seq<byte>, off: nat): (r: Parsed<Endpoint>) {
    if off + 6 > |b| then Err(TruncatedEndpoint)
    else
      var limit := Min(U32At(b, off + 2), MAX_QUIC_ADDRS);
      if off + 6 + 4 * limit > |b| then Err(TruncatedAddrs)
      else Ok(Endpoint(U16At(b, off), DecAddrs(b, off + 6, limit)), off + 6 + 4 * limit)
  }

  predicate EndpointFits(x: Endpoint) { |x.addrs| <= MAX_QUIC_ADDRS }

  const ENDPOINT: Codec<Endpoint> := Codec(EncEndpoint, DecEndpoint, EndpointFits)

  lemma {:induction false} AddrsReads(b: seq<byte>, off: nat, addrs: seq<Addr>)
    requires Has(b, off, EncAddrs(addrs))
    ensures DecAddrs(b, off, |addrs|) == addrs
    decreases |addrs|
  {
    if addrs != [] {
      HasSplit(b, off, EncAddr(addrs[0]), EncAddrs(addrs[1..]));
      var a := b[off..off + 4];
      assert b[off] == a[0] && b[off + 1] == a[1] && b[off + 2] == a[2] && b[off + 3] == a[3];
      AddrsReads(b, off + 4, addrs[1..]);
      assert [addrs[0]] + addrs[1..] == addrs;
    }
  }

  lemma {:induction false} AddrsStable(b: seq<byte>, m: nat, off: nat, count: nat)
    requires off + 4 * count <= m <= |b|
    ensures DecAddrs(b, off, count) == DecAddrs(b[..m], off, count)
    decreases count
  {
    if count > 0 {
      AddrsStable(b, m, off + 4, count - 1);
    }
  }

  lemma EndpointReads(b: seq<byte>, off: nat, x: Endpoint)
    requires Has(b, off, EncEndpoint(x)) && |x.addrs| <= MAX_QUIC_ADDRS
    ensures DecEndpoint(b, off) == Ok(x, off + |EncEndpoint(x)|)
  {
    Pow256Widths();
    TakeInt(b, off, x.port, 2, ToLe(|x.addrs|, 4) + EncAddrs(x.addrs));
    TakeInt(b, off + 2, |x.addrs|, 4, EncAddrs(x.addrs));
    AddrsReads(b, off + 6, x.addrs);
  }

  lemma EndpointStable(b: seq<byte>, m: nat, off: nat)
    requires m <= |b| && DecEndpoint(b[..m], off).Ok?
    ensures DecEndpoint(b, off) == DecEndpoint(b[..m], off)
  {
    UStable(b, m, off, 2);
    UStable(b, m, off + 2, 4);
    AddrsStable(b, m, off + 6, Min(U32At(b, off + 2), MAX_QUIC_ADDRS));
  }

  lemma EndpointYields(b: seq<byte>, off: nat)
    requires DecEndpoint(b, off).Ok?
    ensures off <= DecEndpoint(b, off).next <= |b| && |DecEndpoint(b, off).value.addrs| <= MAX_QUIC_ADDRS
  {
  }

  lemma EndpointInverts()
    ensures Inverts(ENDPOINT)
  {
    forall x: Endpoint, b, off: nat | ENDPOINT.fits(x) && Has(b, off, ENDPOINT.enc(x))
      ensures ENDPOINT.dec(b, off) == Ok(x, off + |ENDPOINT.enc(x)|)
    {
      EndpointReads(b, off, x);
    }
  }

  lemma EndpointLawful()
    ensures Lawful(ENDPOINT)
  {
    EndpointInverts();
    assert Stable(ENDPOINT) by {
      forall b: seq<byte>, m: nat, off: nat | m <= |b| && ENDPOINT.dec(b[..m], off).Ok?
        ensures ENDPOINT.dec(b, off) == ENDPOINT.dec(b[..m], off)
      {
        EndpointStable(b, m, off);
      }
    }
    assert Yields(ENDPOINT) by {
      forall b: seq<byte>, off: nat | off <= |b| && ENDPOINT.dec(b, off).Ok?
        ensures off <= ENDPOINT.dec(b, off).next <= |b| && ENDPOINT.fits(ENDPOINT.dec(b, off).value)
      {
        EndpointYields(b, off);
      }
    }
  }

  // ------------------------------------------------------------ topics, nodes

  type TopicParts = (TopicHead, (seq<byte>, (seq<byte>, (seq<byte>, seq<byte>))))

  function TopicOf(p: TopicParts): TopicInfo { TopicInfo(p.0, p.1.0, p.1.1.0, p.1.1.1.0, p.1.1.1.1) }

  function PartsOfTopic(t: TopicInfo): TopicParts {
    (t.head, (t.name, (t.topicType, (t.nodeName, t.nodeNamespace))))
  }

  const TOPIC: Codec<TopicInfo> := Map(Then(HEAD, Then(STR, Then(STR, Then(STR, STR)))), TopicOf, PartsOfTopic)

  lemma TopicLawful()
    ensures Lawful(TOPIC)
  {
    HeadLawful();
    StrLawful();
    ThenLawful(STR, STR);
    ThenLawful(STR, Then(STR, STR));
    ThenLawful(STR, Then(STR, Then(STR, STR)));
    ThenLawful(HEAD, Then(STR, Then(STR, Then(STR, STR))));
    MapLawful(Then(HEAD, Then(STR, Then(STR, Then(STR, STR)))), TopicOf, PartsOfTopic);
  }

  const PUBS: Codec<seq<TopicInfo>> := List(TOPIC, TruncatedPubCount)
  const SUBS: Codec<seq<TopicInfo>> := List(TOPIC, TruncatedSubCount)

  type NodeParts =
    ((u64, u32), (seq<byte>, (seq<byte>, (seq<TopicInfo>, (seq<TopicInfo>, Endpoint)))))

  function NodeOf(p: NodeParts): NodeInfo {
    NodeInfo(p.0.0, p.0.1, p.1.1.1.0, p.1.1.1.1.0, p.1.1.1.1.1.port, p.1.1.1.1.1.addrs, p.1.0, p.1.1.0)
  }

  function PartsOfNode(n: NodeInfo): NodeParts {
    ((n.nodeId, n.domainId), (n.name, (n.namespace, (n.pubs, (n.subs, Endpoint(n.port, n.addrs))))))
  }

  const NODE_PARTS: Codec<NodeParts> := Then(IDENTITY, Then(STR, Then(STR, Then(PUBS, Then(SUBS, ENDPOINT)))))
  const NODE: Codec<NodeInfo> := Map(NODE_PARTS, NodeOf, PartsOfNode)

  lemma NodeLawful()
    ensures Lawful(NODE)
  {
    StrLawful();
    TopicLawful();
    IdentityLawful();
    EndpointLawful();
    ListLawful(TOPIC, TruncatedPubCount);
    ListLawful(TOPIC, TruncatedSubCount);
    ThenLawful(SUBS, ENDPOINT);
    ThenLawful(PUBS, Then(SUBS, ENDPOINT));
    ThenLawful(STR, Then(PUBS, Then(SUBS, ENDPOINT)));
    ThenLawful(STR, Then(STR, Then(PUBS, Then(SUBS, ENDPOINT))));
    ThenLawful(IDENTITY, Then(STR, Then(STR, Then(PUBS, Then(SUBS, ENDPOINT)))));
    MapLawful(NODE_PARTS, NodeOf, PartsOfNode);
  }

  // ---------------------------------------------------------------- messages

  function EncPreamble(domain: u32): seq<byte> { [MSG_SYNC_RESPONSE] + ToLe(domain, 4) }

  /** Tag and domain; the check that the node count is there too comes with them. */
  function DecPreamble(b: seq<byte>, off: nat): (r: Parsed<u32>) {
    if off + 5 > |b| || b[off] != MSG_SYNC_RESPONSE then Err(BadResponse) else Ok(U32At(b, off + 1), off + 5)
  }

  const PREAMBLE: Codec<u32> := Codec(EncPreamble, DecPreamble, _ => true)

  lemma PreambleLawful()
    ensures Lawful(PREAMBLE)
  {
    forall x: u32, b, off: nat | PREAMBLE.fits(x) && Has(b, off, PREAMBLE.enc(x))
      ensures PREAMBLE.dec(b, off) == Ok(x, off + |PREAMBLE.enc(x)|)
    {
      Pow256Widths();
      TakeByte(b, off, MSG_SYNC_RESPONSE, ToLe(x, 4));
      UReads(b, off + 1, x, 4);
    }
    forall b: seq<byte>, m: nat, off: nat | m <= |b| && PREAMBLE.dec(b[..m], off).Ok?
      ensures PREAMBLE.dec(b, off) == PREAMBLE.dec(b[..m], off)
    {
      UStable(b, m, off + 1, 4);
    }
  }

  const RESPONSE: Codec<(u32, seq<NodeInfo>)> := Then(PREAMBLE, List(NODE, BadResponse))

  function EncodeResponse(domain: u32, nodes: seq<NodeInfo>): seq<byte> { RESPONSE.enc((domain, nodes)) }

  /** Trailing bytes after the last node are ignored. */
  function DecodeResponse(b: seq<byte>): Parsed<(u32, seq<NodeInfo>)> { RESPONSE.dec(b, 0) }

  lemma ResponseLawful()
    ensures Lawful(RESPONSE)
  {
    PreambleLawful();
    NodeLawful();
    ListLawful(NODE, BadResponse);
    ThenLawful(PREAMBLE, List(NODE, BadResponse));
  }

  // --------------------------------------------------- what survives the wire

  predicate TopicFits(t: TopicInfo) {
    StringFits(t.name) && StringFits(t.topicType) && StringFits(t.nodeName) && StringFits(t.nodeNamespace)
  }

  predicate TopicsFit(ts: seq<TopicInfo>) { |ts| <= U32_MAX && forall i :: 0 <= i < |ts| ==> TopicFits(ts[i]) }

  predicate NodeFits(n: NodeInfo) {
    && StringFits(n.name) && StringFits(n.namespace) && |n.addrs| <= MAX_QUIC_ADDRS
    && TopicsFit(n.pubs) && TopicsFit(n.subs)
  }

  predicate NodesFit(ns: seq<NodeInfo>) { |ns| <= U32_MAX && forall i :: 0 <= i < |ns| ==> NodeFits(ns[i]) }

  lemma TopicFitsIs(t: TopicInfo)
    ensures TOPIC.fits(t) == TopicFits(t)
  {
    var p := PartsOfTopic(t);
    assert Then(STR, STR).fits(p.1.1.1) == (STR.fits(t.nodeName) && STR.fits(t.nodeNamespace));
    assert Then(STR, Then(STR, STR)).fits(p.1.1) == (STR.fits(t.topicType) && Then(STR, STR).fits(p.1.1.1));
    assert Then(STR, Then(STR, Then(STR, STR))).fits(p.1)
        == (STR.fits(t.name) && Then(STR, Then(STR, STR)).fits(p.1.1));
    assert Then(HEAD, Then(STR, Then(STR, Then(STR, STR)))).fits(p)
        == Then(STR, Then(STR, Then(STR, STR))).fits(p.1);
  }

  lemma TopicsFitIs(ts: seq<TopicInfo>)
    ensures ListFits(TOPIC, ts) == TopicsFit(ts)
  {
    forall i | 0 <= i < |ts| ensures TOPIC.fits(ts[i]) == TopicFits(ts[i]) { TopicFitsIs(ts[i]); }
  }

  lemma NodeFitsIs(n: NodeInfo)
    ensures NODE.fits(n) == NodeFits(n)
  {
    var p := PartsOfNode(n);
    TopicsFitIs(n.pubs);
    TopicsFitIs(n.subs);
    assert Then(SUBS, ENDPOINT).fits(p.1.1.1.1) == (TopicsFit(n.subs) && |n.addrs| <= MAX_QUIC_ADDRS);
    assert Then(PUBS, Then(SUBS, ENDPOINT)).fits(p.1.1.1)
        == (TopicsFit(n.pubs) && Then(SUBS, ENDPOINT).fits(p.1.1.1.1));
    assert Then(STR, Then(PUBS, Then(SUBS, ENDPOINT))).fits(p.1.1)
        == (STR.fits(n.namespace) && Then(PUBS, Then(SUBS, ENDPOINT)).fits(p.1.1.1));
    assert Then(STR, Then(STR, Then(PUBS, Then(SUBS, ENDPOINT)))).fits(p.1)
        == (STR.fits(n.name) && Then(STR, Then(PUBS, Then(SUBS, ENDPOINT))).fits(p.1.1));
    assert NODE_PARTS.fits(p) == Then(STR, Then(STR, Then(PUBS, Then(SUBS, ENDPOINT)))).fits(p.1);
  }

  lemma ResponseFitsIs(domain: u32, nodes: seq<NodeInfo>)
    ensures RESPONSE.fits((domain, nodes)) == NodesFit(nodes)
  {
    forall i | 0 <= i < |nodes| ensures NODE.fits(nodes[i]) == NodeFits(nodes[i]) { NodeFitsIs(nodes[i]); }
  }

  /** Decoding an encoded response gives the domain and nodes back exactly when
      every string is shorter than 65536 bytes of UTF-8, every list shorter than
      2^32, and no node has more than eight addresses. */
  lemma ResponseRoundTripIff(domain: u32, nodes: seq<NodeInfo>)
    ensures var r := DecodeResponse(EncodeResponse(domain, nodes));
            (r.Ok? && r.value == (domain, nodes)) <==> NodesFit(nodes)
  {
    ResponseLawful();
    ResponseFitsIs(domain, nodes);
    RoundTripIff(RESPONSE, (domain, nodes));
  }

  lemma ResponsePrefixRejected(domain: u32, nodes: seq<NodeInfo>, m: nat)
    requires NodesFit(nodes) && m < |EncodeResponse(domain, nodes)|
    ensures DecodeResponse(EncodeResponse(domain, nodes)[..m]).Err?
  {
    ResponseLawful();
    ResponseFitsIs(domain, nodes);
    PrefixRejected(RESPONSE, (domain, nodes), m);
  }

  /** Whatever the bytes, a decoded response stays in bounds and fits the wire. */
  lemma DecodedResponseFits(b: seq<byte>)
    requires DecodeResponse(b).Ok?
    ensures DecodeResponse(b).next <= |b| && NodesFit(DecodeResponse(b).value.1)
  {
    ResponseLawful();
    var (domain, nodes) := DecodeResponse(b).value;
    ResponseFitsIs(domain, nodes);
  }

  // ---------------------------------------------------------------- requests

  function EncodeRequest(domain: u32): (b: seq<byte>)
    ensures |b| == 5
  {
    [MSG_SYNC_REQUEST] + ToLe(domain, 4)
  }

  function EncodePush(domain: u32, daemonId: u64, nodes: seq<NodeInfo>): seq<byte> {
    EncodeRequest(domain) + (ToLe(daemonId, 8) + EncodeResponse(domain, nodes))
  }

  function DecodeRequest(b: seq<byte>): (r: Result<u32>) {
    if |b| < 5 || b[0] != MSG_SYNC_REQUEST then Failure(BadRequest) else Success(U32At(b, 1))
  }

  function DecodePush(b: seq<byte>): (r: Result<Option<(u64, seq<NodeInfo>)>>) {
    if |b| == 5 then Success(None)
    else if |b| < 14 || b[0] != MSG_SYNC_REQUEST then Failure(BadPush)
    else
      match DecodeResponse(b[13..])
      case Err(e) => Failure(e)
      case Ok(r, _) => Success(Some((U64At(b, 5), r.1)))
  }

  lemma PushRoundTrip(domain: u32, daemonId: u64, nodes: seq<NodeInfo>)
    requires NodesFit(nodes)
    ensures DecodeRequest(EncodePush(domain, daemonId, nodes)) == Success(domain)
    ensures DecodePush(EncodePush(domain, daemonId, nodes)) == Success(Some((daemonId, nodes)))
  {
    var b, e := EncodePush(domain, daemonId, nodes), EncodeResponse(domain, nodes);
    Pow256Widths();
    assert b[0..|b|] == b;
    HasSplit(b, 0, EncodeRequest(domain), ToLe(daemonId, 8) + e);
    TakeByte(b, 0, MSG_SYNC_REQUEST, ToLe(domain, 4));
    UReads(b, 1, domain, 4);
    TakeInt(b, 5, daemonId, 8, e);
    assert b[13..] == b[13..13 + |e|] == e;
    ResponseRoundTripIff(domain, nodes);
  }
}
