/** The sync codec as the source runs it: encoders append to a buffer in nested
    loops, decoders carry an offset through the message. */
module SyncWire {
  import opened Bytes
  import opened Wrappers
  import opened Codec
  import opened SyncCodec

  // ---------------------------------------------------------------- encoding

  lemma {:induction false} EncAllSnoc<T>(enc: T -> seq<byte>, xs: seq<T>, x: T)
    ensures EncAll(enc, xs + [x]) == EncAll(enc, xs) + enc(x)
  {
    if xs == [] {
      assert xs + [x] == [x] && [x][1..] == [];
      assert EncAll(enc, [x]) == enc(x) + EncAll(enc, []);
    } else {
      assert (xs + [x])[1..] == xs[1..] + [x];
      EncAllSnoc(enc, xs[1..], x);
    }
  }

  lemma EncTopicIs(t: TopicInfo)
    ensures TOPIC.enc(t) ==
            EncHead(t.head) + (EncStr(t.name) + (EncStr(t.topicType) + (EncStr(t.nodeName) + EncStr(t.nodeNamespace))))
  {
    var p := PartsOfTopic(t);
    assert Then(STR, STR).enc(p.1.1.1) == EncStr(t.nodeName) + EncStr(t.nodeNamespace);
    assert Then(STR, Then(STR, STR)).enc(p.1.1) == EncStr(t.topicType) + Then(STR, STR).enc(p.1.1.1);
    assert Then(STR, Then(STR, Then(STR, STR))).enc(p.1) == EncStr(t.name) + Then(STR, Then(STR, STR)).enc(p.1.1);
  }

  method AppendTopic(buf: seq<byte>, t: TopicInfo) returns (out: seq<byte>)
    ensures out == buf + TOPIC.enc(t)
  {
    EncTopicIs(t);
    out := buf + EncHead(t.head);
    out := out + EncStr(t.name);
    out := out + EncStr(t.topicType);
    out := out + EncStr(t.nodeName);
    out := out + EncStr(t.nodeNamespace);
  }

  /** Appends one topic list: its count, then each topic. */
  method AppendTopics(buf: seq<byte>, topics: seq<TopicInfo>) returns (out: seq<byte>)
    ensures out == buf + EncList(TOPIC, topics)
  {
    out := buf + ToLe(|topics|, 4);
    for i := 0 to |topics|
      invariant out == buf + ToLe(|topics|, 4) + EncAll(TOPIC.enc, topics[..i])
    {
      EncAllSnoc(TOPIC.enc, topics[..i], topics[i]);
      assert topics[..i + 1] == topics[..i] + [topics[i]];
      out := AppendTopic(out, topics[i]);
    }
    assert topics[..|topics|] == topics;
  }

  lemma {:induction false} EncAddrsSnoc(xs: seq<Addr>, x: Addr)
    ensures EncAddrs(xs + [x]) == EncAddrs(xs) + EncAddr(x)
  {
    if xs == [] {
      assert xs + [x] == [x] && [x][1..] == [];
    } else {
      assert (xs + [x])[1..] == xs[1..] + [x];
      EncAddrsSnoc(xs[1..], x);
    }
  }

  method AppendEndpoint(buf: seq<byte>, port: u16, addrs: seq<Addr>) returns (out: seq<byte>)
    ensures out == buf + EncEndpoint(Endpoint(port, addrs))
  {
    out := buf + ToLe(port, 2);
    out := out + ToLe(|addrs|, 4);
    for i := 0 to |addrs|
      invariant out == buf + ToLe(port, 2) + ToLe(|addrs|, 4) + EncAddrs(addrs[..i])
    {
      EncAddrsSnoc(addrs[..i], addrs[i]);
      assert addrs[..i + 1] == addrs[..i] + [addrs[i]];
      out := out + EncAddr(addrs[i]);
    }
    assert addrs[..|addrs|] == addrs;
  }

  lemma EncNodeIs(n: NodeInfo)
    ensures NODE.enc(n) ==
            EncIdentity((n.nodeId, n.domainId)) + (EncStr(n.name) + (EncStr(n.namespace)
            + (EncList(TOPIC, n.pubs) + (EncList(TOPIC, n.subs) + EncEndpoint(Endpoint(n.port, n.addrs))))))
  {
    var p := PartsOfNode(n);
    var e := EncEndpoint(Endpoint(n.port, n.addrs));
    assert Then(SUBS, ENDPOINT).enc(p.1.1.1.1) == EncList(TOPIC, n.subs) + e;
    assert Then(PUBS, Then(SUBS, ENDPOINT)).enc(p.1.1.1)
        == EncList(TOPIC, n.pubs) + Then(SUBS, ENDPOINT).enc(p.1.1.1.1);
    assert Then(STR, Then(PUBS, Then(SUBS, ENDPOINT))).enc(p.1.1)
        == EncStr(n.namespace) + Then(PUBS, Then(SUBS, ENDPOINT)).enc(p.1.1.1);
    assert Then(STR, Then(STR, Then(PUBS, Then(SUBS, ENDPOINT)))).enc(p.1)
        == EncStr(n.name) + Then(STR, Then(PUBS, Then(SUBS, ENDPOINT))).enc(p.1.1);
  }

  lemma SixInARow(z: seq<byte>, a: seq<byte>, b: seq<byte>, c: seq<byte>, d: seq<byte>, e: seq<byte>, f: seq<byte>)
    ensures z + a + b + c + d + e + f == z + (a + (b + (c + (d + (e + f)))))
  {
    assert z + a + b == z + (a + b);
    assert c + d + e + f == c + (d + (e + f));
  }

  method AppendNode(buf: seq<byte>, n: NodeInfo) returns (out: seq<byte>)
    ensures out == buf + NODE.enc(n)
  {
    EncNodeIs(n);
    SixInARow(buf, EncIdentity((n.nodeId, n.domainId)), EncStr(n.name), EncStr(n.namespace), EncList(TOPIC, n.pubs),
              EncList(TOPIC, n.subs), EncEndpoint(Endpoint(n.port, n.addrs)));
    out := buf + EncIdentity((n.nodeId, n.domainId));
    out := out + EncStr(n.name);
    out := out + EncStr(n.namespace);
    out := AppendTopics(out, n.pubs);
    out := AppendTopics(out, n.subs);
    out := AppendEndpoint(out, n.port, n.addrs);
  }

  method AppendNodes(buf: seq<byte>, nodes: seq<NodeInfo>) returns (out: seq<byte>)
    ensures out == buf + EncAll(NODE.enc, nodes)
  {
    out := buf;
    for i := 0 to |nodes|
      invariant out == buf + EncAll(NODE.enc, nodes[..i])
    {
      EncAllSnoc(NODE.enc, nodes[..i], nodes[i]);
      assert nodes[..i + 1] == nodes[..i] + [nodes[i]];
      out := AppendNode(out, nodes[i]);
    }
    assert nodes[..|nodes|] == nodes;
  }

  /** `encode_sync_response` */
  method EncodeSyncResponse(domain: u32, nodes: seq<NodeInfo>) returns (buf: seq<byte>)
    ensures buf == EncodeResponse(domain, nodes)
  {
    assert EncodeResponse(domain, nodes) == EncPreamble(domain) + EncList(NODE, nodes);
    buf := [MSG_SYNC_RESPONSE];
    buf := buf + ToLe(domain, 4);
    buf := buf + ToLe(|nodes|, 4);
    buf := AppendNodes(buf, nodes);
  }

  // ---------------------------------------------------------------- decoding

  function Prepend<T>(xs: seq<T>, r: Parsed<seq<T>>): Parsed<seq<T>> {
    match r case Err(e) => Err(e) case Ok(ys, next) => Ok(xs + ys, next)
  }

  lemma PrependNone<T>(r: Parsed<seq<T>>)
    ensures Prepend([], r) == r
  {
    if r.Ok? { assert [] + r.value == r.value; }
  }

  /** One turn of a decoding loop that has `k` elements to go. */
  lemma DecAllStep<T>(dec: (seq<byte>, nat) -> Parsed<T>, b: seq<byte>, off: nat, k: nat, acc: seq<T>,
      whole: Parsed<seq<T>>)
    requires k > 0 && whole == Prepend(acc, DecAll(dec, b, off, k))
    ensures match dec(b, off)
            case Err(e) => whole == Err(e)
            case Ok(x, o1) => whole == Prepend(acc + [x], DecAll(dec, b, o1, k - 1))
  {
    if dec(b, off).Ok? && DecAll(dec, b, dec(b, off).next, k - 1).Ok? {
      var x, xs := dec(b, off).value, DecAll(dec, b, dec(b, off).next, k - 1).value;
      assert acc + ([x] + xs) == acc + [x] + xs;
    }
  }

  lemma DecAllDone<T>(dec: (seq<byte>, nat) -> Parsed<T>, b: seq<byte>, off: nat, acc: seq<T>)
    ensures Prepend(acc, DecAll(dec, b, off, 0)) == Ok(acc, off)
  {
    assert acc + [] == acc;
  }

  /** A string is read exactly when the bytes at `off` are the encoding of one, and then
      it is that string and the offset moves past it. */
  ghost predicate StringRead(b: seq<byte>, off: nat, r: Parsed<seq<byte>>) {
    match r
    case Ok(s, next) => StringFits(s) && Has(b, off, EncStr(s)) && next == off + |EncStr(s)|
    case Err(_) => forall s: seq<byte> :: StringFits(s) ==> !Has(b, off, EncStr(s))
  }

  lemma DecStrReads(b: seq<byte>, off: nat)
    ensures StringRead(b, off, DecStr(b, off))
  {
    var r := DecStr(b, off);
    if r.Ok? {
      StrYields(b, off);
      LeCanonical(b[off..off + 2]);
      assert b[off..r.next] == b[off..off + 2] + b[off + 2..r.next];
    } else {
      forall s: seq<byte> | StringFits(s) ensures !Has(b, off, EncStr(s)) {
        if Has(b, off, EncStr(s)) { StrReads(b, off, s); }
      }
    }
  }

  /** `read_string` */
  method ReadString(b: seq<byte>, off: nat) returns (r: Parsed<seq<byte>>)
    ensures StringRead(b, off, r) && r == DecStr(b, off)
  {
    DecStrReads(b, off);
    if off + 2 > |b| { return Err(TruncatedLen); }
    var len := FromLe(b[off..off + 2]);
    if off + 2 + len > |b| { return Err(TruncatedString); }
    if !Utf8(b[off + 2..off + 2 + len]) { return Err(BadUtf8); }
    return Ok(b[off + 2..off + 2 + len], off + 2 + len);
  }

  lemma ThenDec<A, B>(c: Codec<A>, d: Codec<B>, b: seq<byte>, off: nat)
    ensures Then(c, d).dec(b, off) == DecPair(c, d, b, off)
  {
  }

  /** `read_topic` */
  method ReadTopic(b: seq<byte>, off: nat) returns (r: Parsed<TopicInfo>)
    ensures r == TOPIC.dec(b, off)
  {
    ghost var t3 := Then(STR, STR);
    ghost var t2 := Then(STR, t3);
    ghost var t1 := Then(STR, t2);
    ThenDec(HEAD, t1, b, off);
    if off + HEAD_BYTES > |b| { return Err(TruncatedTopic); }
    var head := HeadAt(b, off);
    var o0 := off + HEAD_BYTES;
    ThenDec(STR, t2, b, o0);
    var name := ReadString(b, o0);
    if name.Err? { return Err(name.error); }
    ThenDec(STR, t3, b, name.next);
    var topicType := ReadString(b, name.next);
    if topicType.Err? { return Err(topicType.error); }
    ThenDec(STR, STR, b, topicType.next);
    var nodeName := ReadString(b, topicType.next);
    if nodeName.Err? { return Err(nodeName.error); }
    var ns := ReadString(b, nodeName.next);
    if ns.Err? { return Err(ns.error); }
    return Ok(TopicInfo(head, name.value, topicType.value, nodeName.value, ns.value), ns.next);
  }

  method ReadTopics(b: seq<byte>, off: nat, count: nat) returns (r: Parsed<seq<TopicInfo>>)
    ensures r == DecAll(TOPIC.dec, b, off, count)
  {
    var topics, o: nat := [], off;
    ghost var whole := DecAll(TOPIC.dec, b, off, count);
    PrependNone(whole);
    for i := 0 to count
      invariant whole == Prepend(topics, DecAll(TOPIC.dec, b, o, count - i))
    {
      var t := ReadTopic(b, o);
      DecAllStep(TOPIC.dec, b, o, count - i, topics, whole);
      if t.Err? { return Err(t.error); }
      topics, o := topics + [t.value], t.next;
    }
    DecAllDone(TOPIC.dec, b, o, topics);
    return Ok(topics, o);
  }

  method ReadTopicList(b: seq<byte>, off: nat, missing: DecodeError) returns (r: Parsed<seq<TopicInfo>>)
    ensures r == DecList(TOPIC, missing, b, off)
  {
    if off + 4 > |b| { return Err(missing); }
    r := ReadTopics(b, off + 4, U32At(b, off));
  }

  lemma DecAddrsNext(b: seq<byte>, off: nat, count: nat, acc: seq<Addr>)
    requires count > 0 && off + 4 * count <= |b|
    ensures acc + DecAddrs(b, off, count)
         == acc + [Addr(b[off], b[off + 1], b[off + 2], b[off + 3])] + DecAddrs(b, off + 4, count - 1)
  {
  }

  method ReadAddrs(b: seq<byte>, off: nat, count: nat) returns (addrs: seq<Addr>)
    requires off + 4 * count <= |b|
    ensures addrs == DecAddrs(b, off, count)
  {
    addrs := [];
    var o := off;
    for i := 0 to count
      invariant o == off + 4 * i
      invariant DecAddrs(b, off, count) == addrs + DecAddrs(b, o, count - i)
    {
      DecAddrsNext(b, o, count - i, addrs);
      addrs, o := addrs + [Addr(b[o], b[o + 1], b[o + 2], b[o + 3])], o + 4;
    }
    assert addrs + [] == addrs;
  }

  method ReadEndpoint(b: seq<byte>, off: nat) returns (r: Parsed<Endpoint>)
    ensures r == DecEndpoint(b, off)
  {
    if off + 6 > |b| { return Err(TruncatedEndpoint); }
    var port := U16At(b, off);
    var limit := Min(U32At(b, off + 2), MAX_QUIC_ADDRS);
    if off + 6 + 4 * limit > |b| { return Err(TruncatedAddrs); }
    var addrs := ReadAddrs(b, off + 6, limit);
    return Ok(Endpoint(port, addrs), off + 6 + 4 * limit);
  }

  method ReadNode(b: seq<byte>, off: nat) returns (r: Parsed<NodeInfo>)
    ensures r == NODE.dec(b, off)
  {
    ghost var t4 := Then(SUBS, ENDPOINT);
    ghost var t3 := Then(PUBS, t4);
    ghost var t2 := Then(STR, t3);
    ghost var t1 := Then(STR, t2);
    ThenDec(IDENTITY, t1, b, off);
    if off + 12 > |b| { return Err(TruncatedNodeHeader); }
    var nodeId, domainId := U64At(b, off), U32At(b, off + 8);
    ThenDec(STR, t2, b, off + 12);
    var name := ReadString(b, off + 12);
    if name.Err? { return Err(name.error); }
    ThenDec(STR, t3, b, name.next);
    var ns := ReadString(b, name.next);
    if ns.Err? { return Err(ns.error); }
    ThenDec(PUBS, t4, b, ns.next);
    var pubs := ReadTopicList(b, ns.next, TruncatedPubCount);
    if pubs.Err? { return Err(pubs.error); }
    ThenDec(SUBS, ENDPOINT, b, pubs.next);
    var subs := ReadTopicList(b, pubs.next, TruncatedSubCount);
    if subs.Err? { return Err(subs.error); }
    var e := ReadEndpoint(b, subs.next);
    if e.Err? { return Err(e.error); }
    var node := NodeInfo(nodeId, domainId, pubs.value, subs.value, e.value.port, e.value.addrs, name.value, ns.value);
    return Ok(node, e.next);
  }

  method ReadNodes(b: seq<byte>, off: nat, count: nat) returns (r: Parsed<seq<NodeInfo>>)
    ensures r == DecAll(NODE.dec, b, off, count)
  {
    var nodes, o: nat := [], off;
    ghost var whole := DecAll(NODE.dec, b, off, count);
    PrependNone(whole);
    for i := 0 to count
      invariant whole == Prepend(nodes, DecAll(NODE.dec, b, o, count - i))
    {
      var n := ReadNode(b, o);
      DecAllStep(NODE.dec, b, o, count - i, nodes, whole);
      if n.Err? { return Err(n.error); }
      nodes, o := nodes + [n.value], n.next;
    }
    DecAllDone(NODE.dec, b, o, nodes);
    return Ok(nodes, o);
  }

  /** `decode_sync_response` */
  method DecodeSyncResponse(b: seq<byte>) returns (r: Result<(u32, seq<NodeInfo>)>)
    ensures match DecodeResponse(b)
            case Ok(v, _) => r == Success(v)
            case Err(e) => r == Failure(e)
  {
    ThenDec(PREAMBLE, List(NODE, BadResponse), b, 0);
    if |b| < 9 || b[0] != MSG_SYNC_RESPONSE { return Failure(BadResponse); }
    var nodes := ReadNodes(b, 9, U32At(b, 5));
    if nodes.Err? { return Failure(nodes.error); }
    return Success((U32At(b, 1), nodes.value));
  }

  /** `decode_sync_request_push` */
  method DecodeSyncRequestPush(b: seq<byte>) returns (r: Result<Option<(u64, seq<NodeInfo>)>>)
    ensures r == DecodePush(b)
  {
    if |b| == 5 { return Success(None); }
    if |b| < 14 || b[0] != MSG_SYNC_REQUEST { return Failure(BadPush); }
    var inner := DecodeSyncResponse(b[13..]);
    if inner.Failure? { return Failure(inner.error); }
    return Success(Some((U64At(b, 5), inner.value.1)));
  }
}
