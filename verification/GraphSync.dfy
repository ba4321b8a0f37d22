/** Exporting local nodes, and a push from one daemon's table into another's. */
module GraphSync {
  import opened Bytes
  import opened Wrappers
  import opened Codec
  import opened SyncCodec
  import opened NodeTable
  import opened PeerMerge

  // -------------------------------------------------------------- C strings

  /** The first zero at or after `i`, or the length. */
  function ZeroAt(a: seq<byte>, i: nat): (k: nat)
    requires i <= |a|
    ensures i <= k <= |a| && (k < |a| ==> a[k] == 0) && forall j :: i <= j < k ==> a[j] != 0
    decreases |a| - i
  {
    if i == |a| || a[i] == 0 then i else ZeroAt(a, i + 1)
  }

  function CStr(a: seq<byte>): (s: seq<byte>)
    ensures 0 !in s && |s| <= |a|
  {
    a[..ZeroAt(a, 0)]
  }

  /** `from_utf8(..).unwrap_or(other)` on a fixed-size name. */
  function Text(a: seq<byte>, other: seq<byte>): seq<byte> { if Utf8(CStr(a)) then CStr(a) else other }

  predicate WellNamed(a: seq<byte>) { |a| == MAX_NAME_LEN && 0 in a && Utf8(CStr(a)) }

  lemma CopyStrShows(s: seq<byte>)
    requires 0 !in s
    ensures CStr(CopyStr(s)) == s[..Min(|s|, MAX_NAME_LEN - 1)]
  {
    var k := Min(|s|, MAX_NAME_LEN - 1);
    var c := CopyStr(s);
    assert forall i :: 0 <= i < k ==> c[i] == s[i] && s[i] in s;
    assert c[k] == 0;
    assert ZeroAt(c, 0) == k;
  }

  /** A name keeps its text across export and import exactly when it is
      NUL-terminated and valid UTF-8. */
  lemma NameSurvivesIff(a: seq<byte>)
    requires |a| == MAX_NAME_LEN
    ensures CStr(CopyStr(Text(a, []))) == CStr(a) <==> WellNamed(a)
  {
    CopyStrShows(Text(a, []));
    if !Utf8(CStr(a)) { assert Utf8([]); }
    if 0 in a { assert ZeroAt(a, 0) < |a|; }
  }

  // ------------------------------------------------------------------ export

  const SLASH: seq<byte> := [0x2F]

  function OrElse(s: seq<byte>, other: seq<byte>): seq<byte> { if s == [] then other else s }

  function EntryToInfo(t: TopicEntry, name: seq<byte>, ns: seq<byte>): TopicInfo {
    TopicInfo(t.head, Text(t.topicName, []), Text(t.topicType, []),
              OrElse(Text(t.nodeName, name), name), OrElse(Text(t.nodeNamespace, ns), ns))
  }

  function EntriesToInfos(ts: seq<TopicEntry>, name: seq<byte>, ns: seq<byte>): (r: seq<TopicInfo>)
    ensures |r| == |ts| && forall i :: 0 <= i < |ts| ==> r[i] == EntryToInfo(ts[i], name, ns)
  {
    seq(|ts|, i requires 0 <= i < |ts| => EntryToInfo(ts[i], name, ns))
  }

  /** `node_entry_to_info` */
  function NodeToInfo(e: NodeEntry): NodeInfo
    requires Wf(e)
  {
    var name, ns := Text(e.name, []), Text(e.namespace, SLASH);
    NodeInfo(e.nodeId, e.domainId, EntriesToInfos(e.pubs[..e.pubCount], name, ns),
             EntriesToInfos(e.subs[..e.subCount], name, ns), e.port, e.addrs[..e.addrCount], name, ns)
  }

  /** Local, active, in the domain, and its process not known dead. */
  predicate Exported(e: NodeEntry, domain: u32, alive: (u32, u64) -> bool) {
    e.state == ACTIVE && e.domainId == domain && e.origin == 0 && (e.pid > 0 ==> alive(e.pid, e.startTime))
  }

  /** `collect_domain_nodes` */
  function Collect(t: Table, domain: u32, alive: (u32, u64) -> bool): (ns: seq<NodeInfo>)
    requires WfTable(t)
    ensures |ns| <= |t|
  {
    if t == [] then []
    else
      var init, last := t[..|t| - 1], t[|t| - 1];
      if Exported(last, domain, alive) then Collect(init, domain, alive) + [NodeToInfo(last)]
      else Collect(init, domain, alive)
  }

  /** Each collected node comes from a local, active entry of the domain whose process is
      not known dead ... */
  lemma {:induction false} CollectSound(t: Table, domain: u32, alive: (u32, u64) -> bool, k: nat)
    requires WfTable(t) && k < |Collect(t, domain, alive)|
    ensures exists i :: 0 <= i < |t| && Exported(t[i], domain, alive)
                        && Collect(t, domain, alive)[k] == NodeToInfo(t[i])
    ensures exists i :: 0 <= i < |t| && t[i].state == ACTIVE && t[i].origin == 0 && t[i].domainId == domain
                        && (t[i].pid > 0 ==> alive(t[i].pid, t[i].startTime))
                        && Collect(t, domain, alive)[k].nodeId == t[i].nodeId
  {
    var init, last := t[..|t| - 1], t[|t| - 1];
    if k < |Collect(init, domain, alive)| {
      CollectSound(init, domain, alive, k);
      var i :| 0 <= i < |init| && Exported(init[i], domain, alive)
               && Collect(init, domain, alive)[k] == NodeToInfo(init[i]);
      assert t[i] == init[i];
    } else {
      assert Exported(t[|t| - 1], domain, alive);
    }
  }

  /** ... and every such entry is collected. */
  lemma {:induction false} CollectComplete(t: Table, domain: u32, alive: (u32, u64) -> bool, i: nat)
    requires WfTable(t) && i < |t| && t[i].state == ACTIVE && t[i].origin == 0 && t[i].domainId == domain
    requires t[i].pid > 0 ==> alive(t[i].pid, t[i].startTime)
    ensures NodeToInfo(t[i]) in Collect(t, domain, alive)
  {
    if i < |t| - 1 {
      assert t[..|t| - 1][i] == t[i];
      CollectComplete(t[..|t| - 1], domain, alive, i);
    }
  }

  lemma CollectLast(t: Table, e: NodeEntry, domain: u32, alive: (u32, u64) -> bool)
    requires WfTable(t) && Wf(e)
    ensures WfTable(t + [e])
    ensures Collect(t + [e], domain, alive) ==
            Collect(t, domain, alive) + if Exported(e, domain, alive) then [NodeToInfo(e)] else []
  {
    assert (t + [e])[..|t|] == t;
  }

  lemma Regrouped<T>(a: seq<T>, b: seq<T>, c: seq<T>)
    ensures a + b + c == a + (b + c)
  {
  }

  /** Collecting goes entry by entry, in table order. */
  lemma {:induction false} CollectJoins(t: Table, u: Table, domain: u32, alive: (u32, u64) -> bool)
    requires WfTable(t) && WfTable(u)
    ensures WfTable(t + u) && Collect(t + u, domain, alive) == Collect(t, domain, alive) + Collect(u, domain, alive)
  {
    if u == [] {
      assert t + u == t;
    } else {
      var init, last := u[..|u| - 1], u[|u| - 1];
      CollectJoins(t, init, domain, alive);
      assert u == init + [last];
      CollectLast(init, last, domain, alive);
      Regrouped(t, init, [last]);
      CollectLast(t + init, last, domain, alive);
      var more := if Exported(last, domain, alive) then [NodeToInfo(last)] else [];
      Regrouped(Collect(t, domain, alive), Collect(init, domain, alive), more);
    }
  }

  lemma {:induction false} CollectDistinct(t: Table, domain: u32, alive: (u32, u64) -> bool)
    requires WfTable(t) && UniqueIds(t)
    requires forall i :: 0 <= i < |t| && t[i].state == ACTIVE ==> t[i].nodeId != 0
    ensures Distinct(Collect(t, domain, alive))
  {
    if t != [] {
      var init, last := t[..|t| - 1], t[|t| - 1];
      CollectDistinct(init, domain, alive);
      if Exported(last, domain, alive) {
        var ns0 := Collect(init, domain, alive);
        forall k | 0 <= k < |ns0| ensures ns0[k].nodeId != last.nodeId {
          CollectSound(init, domain, alive, k);
          var i :| 0 <= i < |init| && Exported(init[i], domain, alive) && ns0[k] == NodeToInfo(init[i]);
          assert t[i] == init[i];
        }
      }
    }
  }

  // ------------------------------------------------------- exports fit the wire

  predicate NamesSized(e: NodeEntry) {
    && |e.name| == |e.namespace| == MAX_NAME_LEN
    && (forall i :: 0 <= i < |e.pubs| ==> TopicSized(e.pubs[i]))
    && (forall i :: 0 <= i < |e.subs| ==> TopicSized(e.subs[i]))
  }

  predicate TopicSized(t: TopicEntry) {
    |t.topicName| == |t.topicType| == |t.nodeName| == |t.nodeNamespace| == MAX_NAME_LEN
  }

  lemma ExportedTopicFits(t: TopicEntry, name: seq<byte>, ns: seq<byte>)
    requires TopicSized(t) && StringFits(name) && StringFits(ns)
    ensures TopicFits(EntryToInfo(t, name, ns))
  {
    assert Utf8([]);
  }

  lemma ExportedNodeFits(e: NodeEntry)
    requires Wf(e) && NamesSized(e)
    ensures NodeFits(NodeToInfo(e))
  {
    assert Utf8([]);
    assert Utf8(SLASH) by { assert Utf8From(SLASH, 1); }
    var name, ns := Text(e.name, []), Text(e.namespace, SLASH);
    forall i | 0 <= i < e.pubCount ensures TopicFits(EntryToInfo(e.pubs[i], name, ns)) {
      ExportedTopicFits(e.pubs[i], name, ns);
    }
    forall i | 0 <= i < e.subCount ensures TopicFits(EntryToInfo(e.subs[i], name, ns)) {
      ExportedTopicFits(e.subs[i], name, ns);
    }
  }

  lemma CollectFits(t: Table, domain: u32, alive: (u32, u64) -> bool)
    requires WfTable(t) && |t| <= U32_MAX && forall i :: 0 <= i < |t| ==> NamesSized(t[i])
    ensures NodesFit(Collect(t, domain, alive))
  {
    var ns := Collect(t, domain, alive);
    forall k | 0 <= k < |ns| ensures NodeFits(ns[k]) {
      CollectSound(t, domain, alive, k);
      var i :| 0 <= i < |t| && Exported(t[i], domain, alive) && ns[k] == NodeToInfo(t[i]);
      ExportedNodeFits(t[i]);
    }
  }

  // ---------------------------------------------------------- handling a push

  datatype Reply = Response(bytes: seq<byte>) | Rejected

  /** `handle_sync_payload`: the table after it, and the reply. */
  function Handle(t: Table, data: seq<byte>, now: nat, alive: (u32, u64) -> bool): (r: (Table, Reply))
    requires WfTable(t)
    ensures WfTable(r.0) && |r.0| == |t|
  {
    if data == [] then (t, Response([]))
    else if data[0] == MSG_SYNC_REQUEST then
      match DecodeRequest(data)
      case Failure(_) => (t, Rejected)
      case Success(domain) =>
        match DecodePush(data)
        case Failure(_) => (t, Rejected)
        case Success(push) =>
          var t' := if push.Some? then Merge(t, push.value.0, push.value.1, now) else t;
          (t', Response(EncodeResponse(domain, Collect(t', domain, alive))))
    else if data[0] == MSG_PING then (t, Response([MSG_PONG]))
    else (t, Rejected)
  }

  // --------------------------------------------------------------- mirroring

  /** Topic `y` at the receiver shows what topic `x` of node `e` shows. */
  predicate TopicMirrors(x: TopicEntry, y: TopicEntry, e: NodeEntry) {
    && y.head == x.head
    && CStr(y.topicName) == CStr(x.topicName) && CStr(y.topicType) == CStr(x.topicType)
    && CStr(y.nodeName) == OrElse(CStr(x.nodeName), CStr(e.name))
    && CStr(y.nodeNamespace) == OrElse(CStr(x.nodeNamespace), CStr(e.namespace))
  }

  predicate TopicsMirror(xs: seq<TopicEntry>, ys: seq<TopicEntry>, e: NodeEntry) {
    |xs| == |ys| && forall i :: 0 <= i < |xs| ==> TopicMirrors(xs[i], ys[i], e)
  }

  predicate Mirrors(a: NodeEntry, b: NodeEntry, origin: u64)
    requires Wf(a) && Wf(b)
  {
    && b.state == ACTIVE && b.origin == origin
    && b.nodeId == a.nodeId && b.domainId == a.domainId && b.port == a.port
    && b.addrs[..b.addrCount] == a.addrs[..a.addrCount]
    && TopicsMirror(a.pubs[..a.pubCount], b.pubs[..b.pubCount], a)
    && TopicsMirror(a.subs[..a.subCount], b.subs[..b.subCount], a)
    && CStr(b.name) == CStr(a.name) && CStr(b.namespace) == CStr(a.namespace)
  }

  predicate TopicWellNamed(t: TopicEntry) {
    WellNamed(t.topicName) && WellNamed(t.topicType) && WellNamed(t.nodeName) && WellNamed(t.nodeNamespace)
  }

  predicate NodeWellNamed(e: NodeEntry) {
    && WellNamed(e.name) && WellNamed(e.namespace)
    && (forall i :: 0 <= i < |e.pubs| ==> TopicWellNamed(e.pubs[i]))
    && (forall i :: 0 <= i < |e.subs| ==> TopicWellNamed(e.subs[i]))
  }

  lemma WellNamedCopies(a: seq<byte>)
    requires WellNamed(a)
    ensures CStr(CopyStr(CStr(a))) == CStr(a)
  {
    CopyStrShows(CStr(a));
    assert ZeroAt(a, 0) < |a|;
  }

  lemma TopicArrives(t: TopicEntry, e: NodeEntry)
    requires TopicWellNamed(t) && WellNamed(e.name) && WellNamed(e.namespace)
    ensures TopicMirrors(t, InfoToEntry(EntryToInfo(t, CStr(e.name), CStr(e.namespace))), e)
  {
    WellNamedCopies(t.topicName);
    WellNamedCopies(t.topicType);
    WellNamedCopies(t.nodeName);
    WellNamedCopies(t.nodeNamespace);
    WellNamedCopies(e.name);
    WellNamedCopies(e.namespace);
  }

  lemma TopicsArrive(ts: seq<TopicEntry>, es: seq<TopicEntry>, e: NodeEntry)
    requires WellNamed(e.name) && WellNamed(e.namespace)
    requires forall i :: 0 <= i < |ts| ==> TopicWellNamed(ts[i])
    requires es == InfosToEntries(EntriesToInfos(ts, CStr(e.name), CStr(e.namespace)))
    ensures TopicsMirror(ts, es, e)
  {
    forall i | 0 <= i < |ts| ensures TopicMirrors(ts[i], es[i], e) { TopicArrives(ts[i], e); }
  }

  lemma CarriedMirrors(a: NodeEntry, b: NodeEntry, origin: u64, now: nat)
    requires Wf(a) && Wf(b) && NodeWellNamed(a) && Carries(b, origin, NodeToInfo(a), now)
    ensures Mirrors(a, b, origin)
  {
    var n := NodeToInfo(a);
    var ps, qs := InfosToEntries(n.pubs), InfosToEntries(n.subs);
    assert n.addrs[..|n.addrs|] == n.addrs && ps[..|ps|] == ps && qs[..|qs|] == qs;
    TopicsArrive(a.pubs[..a.pubCount], ps, a);
    TopicsArrive(a.subs[..a.subCount], qs, a);
    WellNamedCopies(a.name);
    WellNamedCopies(a.namespace);
  }

  /** A table fit to export: unique non-zero ids and well-formed names. */
  ghost predicate Exportable(t: Table) {
    && WfTable(t) && |t| <= U32_MAX && UniqueIds(t)
    && (forall i :: 0 <= i < |t| && t[i].state == ACTIVE ==> t[i].nodeId != 0)
    && (forall i :: 0 <= i < |t| ==> NodeWellNamed(t[i]))
  }

  /** A push whose nodes fit the wire is merged as sent. */
  lemma PushHandled(t: Table, id: u64, domain: u32, nodes: seq<NodeInfo>, now: nat, alive: (u32, u64) -> bool)
    requires WfTable(t) && NodesFit(nodes)
    ensures var t' := Merge(t, id, nodes, now);
            Handle(t, EncodePush(domain, id, nodes), now, alive)
            == (t', Response(EncodeResponse(domain, Collect(t', domain, alive))))
  {
    PushRoundTrip(domain, id, nodes);
    assert EncodePush(domain, id, nodes)[0] == MSG_SYNC_REQUEST;
  }

  /** A request without nodes is answered and merges nothing. */
  lemma RequestHandled(t: Table, domain: u32, now: nat, alive: (u32, u64) -> bool)
    requires WfTable(t)
    ensures Handle(t, EncodeRequest(domain), now, alive)
         == (t, Response(EncodeResponse(domain, Collect(t, domain, alive))))
  {
    var b := EncodeRequest(domain);
    Pow256Widths();
    assert b[1..5] == ToLe(domain, 4);
    LeRoundTrip(domain, 4);
  }

  /** A payload that is refused, is empty or is a ping changes nothing. */
  lemma RefusedChangesNothing(t: Table, data: seq<byte>, now: nat, alive: (u32, u64) -> bool)
    requires WfTable(t)
    ensures Handle(t, data, now, alive).1.Rejected? || data == [] || data[0] != MSG_SYNC_REQUEST ==>
              Handle(t, data, now, alive).0 == t
    ensures Handle(t, data, now, alive).1.Rejected? <==>
              && data != [] && data[0] != MSG_PING
              && !(data[0] == MSG_SYNC_REQUEST && |data| >= 5 && DecodePush(data).Success?)
    ensures Handle(t, [MSG_PING] + data, now, alive).1 == Response([MSG_PONG])
  {
  }

  lemma NodeArrives(ta: Table, r: Table, idA: u64, domain: u32, now: nat, alive: (u32, u64) -> bool, i: nat)
    requires Exportable(ta) && WfTable(r) && i < |ta| && Exported(ta[i], domain, alive)
    requires var nodes := Collect(ta, domain, alive);
             forall k :: 0 <= k < |nodes| ==> HasCarrier(r, idA, nodes[k], now)
    ensures exists j :: 0 <= j < |r| && Mirrors(ta[i], r[j], idA)
  {
    var nodes := Collect(ta, domain, alive);
    CollectComplete(ta, domain, alive, i);
    var k :| 0 <= k < |nodes| && nodes[k] == NodeToInfo(ta[i]);
    var j :| 0 <= j < |r| && Carries(r[j], idA, nodes[k], now);
    CarriedMirrors(ta[i], r[j], idA, now);
  }

  lemma MergedGraphMirrors(ta: Table, tb: Table, idA: u64, domain: u32, nodes: seq<NodeInfo>, now: nat,
                           alive: (u32, u64) -> bool)
    requires Exportable(ta) && WfTable(tb) && UniqueIds(tb) && idA != 0 && nodes == Collect(ta, domain, alive)
    requires NoneLocal(tb, nodes) && Room(tb, idA, nodes)
    ensures var r := Merge(tb, idA, nodes, now);
            && HeldUnder(r, idA) == IdSet(nodes)
            && forall i :: 0 <= i < |ta| && Exported(ta[i], domain, alive) ==>
                 exists j :: 0 <= j < |r| && Mirrors(ta[i], r[j], idA)
  {
    CollectDistinct(ta, domain, alive);
    MergeIsSnapshot(tb, idA, nodes, now);
    var r := Merge(tb, idA, nodes, now);
    forall k | 0 <= k < |nodes| ensures HasCarrier(r, idA, nodes[k], now) {
      MergeCarries(tb, idA, nodes, now, k);
    }
    forall i | 0 <= i < |ta| && Exported(ta[i], domain, alive)
      ensures exists j :: 0 <= j < |r| && Mirrors(ta[i], r[j], idA)
    {
      NodeArrives(ta, r, idA, domain, now, alive, i);
    }
  }

  /** End to end: when B handles the push that A encodes from its local active
      nodes of a domain, the ids B holds under A become exactly those, and for
      each of them B has an entry showing the same addresses, topics, QoS and
      names as A's. */
  lemma PushedGraphArrives(ta: Table, tb: Table, idA: u64, domain: u32, now: nat, alive: (u32, u64) -> bool)
    requires Exportable(ta) && WfTable(tb) && UniqueIds(tb) && idA != 0
    requires NoneLocal(tb, Collect(ta, domain, alive)) && Room(tb, idA, Collect(ta, domain, alive))
    ensures var nodes := Collect(ta, domain, alive);
            var tb' := Handle(tb, EncodePush(domain, idA, nodes), now, alive).0;
            && HeldUnder(tb', idA) == IdSet(nodes)
            && forall i :: 0 <= i < |ta| && Exported(ta[i], domain, alive) ==>
                 exists j :: 0 <= j < |tb'| && Mirrors(ta[i], tb'[j], idA)
  {
    var nodes := Collect(ta, domain, alive);
    assert forall i :: 0 <= i < |ta| ==> NamesSized(ta[i]);
    CollectFits(ta, domain, alive);
    PushHandled(tb, idA, domain, nodes, now, alive);
    MergedGraphMirrors(ta, tb, idA, domain, nodes, now, alive);
  }
}
