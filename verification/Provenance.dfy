/** Where replicated entries come from, over any network of daemons: pushes and
    replies travel as bytes, arrive late, repeatedly or never, and are merged as
    `peer_sync.rs` and `axon_daemon.rs` merge them. */
module Provenance {
  import opened Bytes
  import opened SyncCodec
  import opened NodeTable
  import opened PeerMerge
  import opened GraphSync

  // ------------------------------------------- the merge of a sync reply

  /** The fields cleared when a reply no longer lists a node. */
  function Emptied(e: NodeEntry): (r: NodeEntry)
    requires Wf(e)
    ensures Wf(r)
  {
    Cleared().(port := e.port, startTime := e.startTime, addrs := e.addrs)
  }

  predicate Unlisted(e: NodeEntry, origin: u64, ids: seq<u64>) {
    e.state != EMPTY && e.origin == origin && e.nodeId !in ids
  }

  function DropUnlisted(t: Table, origin: u64, ids: seq<u64>): (r: Table)
    requires WfTable(t)
    ensures |r| == |t| && WfTable(r)
    ensures forall i :: 0 <= i < |t| ==> r[i] == if Unlisted(t[i], origin, ids) then Emptied(t[i]) else t[i]
  {
    seq(|t|, i requires 0 <= i < |t| => if Unlisted(t[i], origin, ids) then Emptied(t[i]) else t[i])
  }

  function UnlistedIds(t: Table, origin: u64, ids: seq<u64>): (gone: seq<u64>) {
    if t == [] then []
    else
      var init, last := t[..|t| - 1], t[|t| - 1];
      if Unlisted(last, origin, ids) && last.nodeId != 0 then UnlistedIds(init, origin, ids) + [last.nodeId]
      else UnlistedIds(init, origin, ids)
  }

  /** `xs` laid over the front of `ys`. */
  function Over<T>(xs: seq<T>, ys: seq<T>): (r: seq<T>)
    ensures |r| == |ys|
  {
    var k := Min(|xs|, |ys|);
    xs[..k] + ys[k..]
  }

  /** What a listed node overwrites: fewer fields than a push, and list tails stay. */
  function Noted(e: NodeEntry, isNew: bool, origin: u64, n: NodeInfo, now: nat): (r: NodeEntry)
    requires Wf(e)
    ensures Wf(r)
  {
    e.(state := ACTIVE, nodeId := n.nodeId, domainId := n.domainId, pid := 0, port := n.port,
       addrs := Over(n.addrs, e.addrs), addrCount := Min(|n.addrs|, MAX_QUIC_ADDRS), origin := origin, lastSeen := now,
       pubCount := Min(|n.pubs|, MAX_TOPICS_PER_NODE), pubs := Over(InfosToEntries(n.pubs), e.pubs),
       subCount := Min(|n.subs|, MAX_TOPICS_PER_NODE), subs := Over(InfosToEntries(n.subs), e.subs),
       name := CopyStr(n.name), namespace := CopyStr(n.namespace),
       matchCount := if isNew then 0 else e.matchCount, responseGen := if isNew then 0 else e.responseGen)
  }

  /** One listed node; without room it is skipped. */
  function AbsorbNode(t: Table, origin: u64, n: NodeInfo, now: nat): (r: Table)
    requires WfTable(t)
    ensures WfTable(r) && |r| == |t|
  {
    var i := SlotFor(t, n.nodeId);
    if i == |t| then t
    else
      var t1 := if Changed(t, n) then ForgetIn(t, [n.nodeId]) else t;
      t1[i := Noted(t1[i], HeldAt(t, n.nodeId, 0) == |t|, origin, n, now)]
  }

  function AbsorbNodes(t: Table, origin: u64, nodes: seq<NodeInfo>, now: nat): (r: Table)
    requires WfTable(t)
    ensures WfTable(r) && |r| == |t|
  {
    if nodes == [] then t
    else AbsorbNode(AbsorbNodes(t, origin, nodes[..|nodes| - 1], now), origin, nodes[|nodes| - 1], now)
  }

  /** The merge of a reply. */
  function Absorb(t: Table, origin: u64, nodes: seq<NodeInfo>, now: nat): (r: Table)
    requires WfTable(t)
    ensures WfTable(r) && |r| == |t|
  {
    AbsorbNodes(ForgetIn(DropUnlisted(t, origin, Ids(nodes)), UnlistedIds(t, origin, Ids(nodes))), origin, nodes, now)
  }

  // ------------------------------------------------------------ source of an entry

  /** A node as a daemon gave it out. */
  datatype Export = Export(origin: u64, node: NodeInfo)

  /** Entry `e` shows exactly what was given out, cut to the table's limits. */
  predicate Shows(e: NodeEntry, x: Export)
    requires Wf(e)
  {
    var n := x.node;
    && e.state == ACTIVE && e.origin == x.origin && e.nodeId == n.nodeId && e.domainId == n.domainId && e.port == n.port
    && e.addrs[..e.addrCount] == n.addrs[..Min(|n.addrs|, MAX_QUIC_ADDRS)]
    && e.pubs[..e.pubCount] == InfosToEntries(n.pubs)[..Min(|n.pubs|, MAX_TOPICS_PER_NODE)]
    && e.subs[..e.subCount] == InfosToEntries(n.subs)[..Min(|n.subs|, MAX_TOPICS_PER_NODE)]
    && e.name == CopyStr(n.name) && e.namespace == CopyStr(n.namespace)
  }

  predicate Sourced(h: set<Export>, e: NodeEntry)
    requires Wf(e)
  {
    exists x :: x in h && Shows(e, x)
  }

  predicate Remote(e: NodeEntry) { e.state != EMPTY && e.origin != 0 }

  predicate EntryOk(h: set<Export>, e: NodeEntry) { Wf(e) && NamesSized(e) && (Remote(e) ==> Sourced(h, e)) }

  predicate TableOk(h: set<Export>, t: Table) { |t| <= U32_MAX && forall i :: 0 <= i < |t| ==> EntryOk(h, t[i]) }

  lemma SameCoreOk(h: set<Export>, e: NodeEntry, e': NodeEntry)
    requires EntryOk(h, e) && Wf(e') && SameButMatches(e, e')
    ensures EntryOk(h, e')
  {
    assert Core(e) == Core(e');
    if Remote(e') {
      var x :| x in h && Shows(e, x);
      assert Shows(e', x);
    }
  }

  lemma ForgetInOk(h: set<Export>, t: Table, ids: seq<u64>)
    requires TableOk(h, t)
    ensures TableOk(h, ForgetIn(t, ids))
  {
    forall i | 0 <= i < |t| ensures EntryOk(h, ForgetIn(t, ids)[i]) {
      assert EntryOk(h, t[i]);
      ForgetAllLive(t[i], ids);
      SameCoreOk(h, t[i], ForgetAll(t[i], ids));
    }
  }

  lemma WrittenOk(h: set<Export>, e: NodeEntry, origin: u64, n: NodeInfo, now: nat)
    requires Wf(e) && NamesSized(e) && Export(origin, n) in h
    ensures EntryOk(h, Written(e, origin, n, now))
  {
    assert Shows(Written(e, origin, n, now), Export(origin, n));
  }

  lemma NotedOk(h: set<Export>, e: NodeEntry, isNew: bool, origin: u64, n: NodeInfo, now: nat)
    requires Wf(e) && NamesSized(e) && Export(origin, n) in h
    ensures EntryOk(h, Noted(e, isNew, origin, n, now))
  {
    assert Shows(Noted(e, isNew, origin, n, now), Export(origin, n));
  }

  lemma ClearedOk(h: set<Export>, e: NodeEntry)
    requires Wf(e)
    ensures EntryOk(h, Cleared()) && EntryOk(h, Emptied(e))
  {
  }

  lemma TableOkAt(h: set<Export>, t: Table, i: nat, e: NodeEntry)
    requires TableOk(h, t) && i < |t| && EntryOk(h, e)
    ensures TableOk(h, t[i := e])
  {
  }

  lemma TableOkWf(h: set<Export>, t: Table)
    requires TableOk(h, t)
    ensures WfTable(t)
  {
    forall i | 0 <= i < |t| ensures Wf(t[i]) { assert EntryOk(h, t[i]); }
  }

  lemma MergeNodeOk(h: set<Export>, t: Table, origin: u64, n: NodeInfo, now: nat)
    requires TableOk(h, t) && WfTable(t) && SlotFor(t, n.nodeId) < |t| && Export(origin, n) in h
    ensures TableOk(h, MergeNode(t, origin, n, now))
  {
    ForgetInOk(h, t, [n.nodeId]);
    var i := SlotFor(t, n.nodeId);
    var t1 := if Changed(t, n) then ForgetIn(t, [n.nodeId]) else t;
    assert EntryOk(h, t1[i]);
    ClearedOk(h, t1[i]);
    var base := if HeldAt(t, n.nodeId, 0) < |t| then t1[i] else Cleared();
    WrittenOk(h, base, origin, n, now);
    TableOkAt(h, t1, i, Written(base, origin, n, now));
  }

  predicate AllIn(h: set<Export>, origin: u64, nodes: seq<NodeInfo>) {
    forall k :: 0 <= k < |nodes| ==> Export(origin, nodes[k]) in h
  }

  lemma {:induction false} MergeNodesOk(h: set<Export>, t: Table, origin: u64, nodes: seq<NodeInfo>, now: nat)
    requires TableOk(h, t) && WfTable(t) && AllIn(h, origin, nodes)
    ensures TableOk(h, MergeNodes(t, origin, nodes, now))
    decreases |nodes|
  {
    if nodes != [] && SlotFor(t, nodes[0].nodeId) < |t| {
      assert Export(origin, nodes[0]) in h;
      MergeNodeOk(h, t, origin, nodes[0], now);
      assert AllIn(h, origin, nodes[1..]);
      MergeNodesOk(h, MergeNode(t, origin, nodes[0], now), origin, nodes[1..], now);
    }
  }

  lemma MergeOk(h: set<Export>, t: Table, origin: u64, nodes: seq<NodeInfo>, now: nat)
    requires TableOk(h, t) && WfTable(t) && AllIn(h, origin, nodes)
    ensures TableOk(h, Merge(t, origin, nodes, now))
  {
    var t1 := DropStale(t, origin, Ids(nodes));
    forall i | 0 <= i < |t| ensures EntryOk(h, t1[i]) {
      assert EntryOk(h, t[i]);
      ClearedOk(h, t[i]);
    }
    ForgetInOk(h, t1, DroppedIds(t, origin, Ids(nodes)));
    MergeNodesOk(h, Swept(t, origin, nodes), origin, nodes, now);
  }

  lemma AbsorbNodeOk(h: set<Export>, t: Table, origin: u64, n: NodeInfo, now: nat)
    requires TableOk(h, t) && WfTable(t) && Export(origin, n) in h
    ensures TableOk(h, AbsorbNode(t, origin, n, now))
  {
    var i := SlotFor(t, n.nodeId);
    if i < |t| {
      ForgetInOk(h, t, [n.nodeId]);
      var t1 := if Changed(t, n) then ForgetIn(t, [n.nodeId]) else t;
      assert EntryOk(h, t1[i]);
      var isNew := HeldAt(t, n.nodeId, 0) == |t|;
      NotedOk(h, t1[i], isNew, origin, n, now);
      TableOkAt(h, t1, i, Noted(t1[i], isNew, origin, n, now));
    }
  }

  lemma {:induction false} AbsorbNodesOk(h: set<Export>, t: Table, origin: u64, nodes: seq<NodeInfo>, now: nat)
    requires TableOk(h, t) && WfTable(t) && AllIn(h, origin, nodes)
    ensures TableOk(h, AbsorbNodes(t, origin, nodes, now))
  {
    if nodes != [] {
      var init := nodes[..|nodes| - 1];
      assert AllIn(h, origin, init);
      AbsorbNodesOk(h, t, origin, init, now);
      AbsorbNodeOk(h, AbsorbNodes(t, origin, init, now), origin, nodes[|nodes| - 1], now);
    }
  }

  lemma AbsorbOk(h: set<Export>, t: Table, origin: u64, nodes: seq<NodeInfo>, now: nat)
    requires TableOk(h, t) && WfTable(t) && AllIn(h, origin, nodes)
    ensures TableOk(h, Absorb(t, origin, nodes, now))
  {
    var t1 := DropUnlisted(t, origin, Ids(nodes));
    forall i | 0 <= i < |t| ensures EntryOk(h, t1[i]) {
      assert EntryOk(h, t[i]);
      ClearedOk(h, t[i]);
    }
    ForgetInOk(h, t1, UnlistedIds(t, origin, Ids(nodes)));
    AbsorbNodesOk(h, ForgetIn(t1, UnlistedIds(t, origin, Ids(nodes))), origin, nodes, now);
  }

  // ------------------------------------------------------------ the network

  datatype Wire = Request(bytes: seq<byte>) | Answer(source: nat, bytes: seq<byte>)

  /** Each daemon's table, everything ever sent, and every node ever given out. */
  datatype Net = Net(tables: seq<Table>, wire: set<Wire>, history: set<Export>)

  type Alive = (u32, u64) -> bool

  datatype Action =
    | Local(d: nat, t: Table)
    | Ask(d: nat, domain: u32, alive: Alive)
    | Serve(d: nat, m: Wire, now: nat, alive: Alive)
    | Learn(d: nat, m: Wire, now: nat)

  function Exports(origin: u64, nodes: seq<NodeInfo>): (xs: set<Export>)
    ensures forall k :: 0 <= k < |nodes| ==> Export(origin, nodes[k]) in xs
  {
    set k | 0 <= k < |nodes| :: Export(origin, nodes[k])
  }

  /** Registration, departure, matching, ageing: anything may happen to local
      entries and to matches, and remote entries may go, but none appears. */
  predicate LocalStep(t: Table, t': Table) {
    && |t'| == |t|
    && forall i :: 0 <= i < |t| ==> Wf(t'[i]) && NamesSized(t'[i]) && (Remote(t'[i]) ==> SameButMatches(t[i], t'[i]))
  }

  predicate Enabled(s: Net, a: Action) {
    && a.d < |s.tables|
    && match a
       case Local(d, t) => LocalStep(s.tables[d], t)
       case Ask(_, _, _) => true
       case Serve(_, m, _, _) => m in s.wire && m.Request?
       case Learn(_, m, _) => m in s.wire && m.Answer?
  }

  /** The nodes daemon `d` gives out in reply to a request. */
  function Given(t: Table, data: seq<byte>, alive: Alive): (nodes: seq<NodeInfo>)
    requires WfTable(t)
  {
    match DecodeRequest(data)
    case Failure(_) => []
    case Success(domain) => Collect(t, domain, alive)
  }

  function Next(s: Net, ids: seq<u64>, a: Action): (r: Net)
    requires Enabled(s, a) && |ids| == |s.tables| && forall d :: 0 <= d < |s.tables| ==> WfTable(s.tables[d])
  {
    match a
    case Local(d, t) => s.(tables := s.tables[d := t])
    case Ask(d, domain, alive) =>
      var nodes := Collect(s.tables[d], domain, alive);
      s.(wire := s.wire + {Request(EncodePush(domain, ids[d], nodes))}, history := s.history + Exports(ids[d], nodes))
    case Serve(d, m, now, alive) =>
      var (t, reply) := Handle(s.tables[d], m.bytes, now, alive);
      Net(s.tables[d := t],
          if reply.Response? then s.wire + {Answer(d, reply.bytes)} else s.wire,
          s.history + Exports(ids[d], Given(t, m.bytes, alive)))
    case Learn(d, m, now) =>
      match DecodeResponse(m.bytes)
      case Err(_) => s
      case Ok(r, _) =>
        if m.source < |ids| then s.(tables := s.tables[d := Absorb(s.tables[d], ids[m.source], r.1, now)]) else s
  }

  /** Sent bytes stand for nodes their sender had given out. */
  ghost predicate WireOk(h: set<Export>, ids: seq<u64>, m: Wire) {
    match m
    case Request(b) =>
      exists domain: u32, f, nodes ::
          0 <= f < |ids| && b == EncodePush(domain, ids[f], nodes) && NodesFit(nodes) && AllIn(h, ids[f], nodes)
    case Answer(f, b) =>
      f < |ids| && exists domain: u32, nodes ::
          b == EncodeResponse(domain, nodes) && NodesFit(nodes) && AllIn(h, ids[f], nodes)
  }

  ghost predicate Inv(s: Net, ids: seq<u64>) {
    && |ids| == |s.tables|
    && (forall d :: 0 <= d < |s.tables| ==> TableOk(s.history, s.tables[d]) && WfTable(s.tables[d]))
    && (forall m :: m in s.wire ==> WireOk(s.history, ids, m))
  }

  lemma MoreHistory(h: set<Export>, h': set<Export>, t: Table)
    requires h <= h' && TableOk(h, t)
    ensures TableOk(h', t)
  {
    forall i | 0 <= i < |t| ensures EntryOk(h', t[i]) {
      assert EntryOk(h, t[i]);
      if Remote(t[i]) {
        var x :| x in h && Shows(t[i], x);
        assert x in h';
      }
    }
  }

  lemma MoreHistoryWire(h: set<Export>, h': set<Export>, ids: seq<u64>, m: Wire)
    requires h <= h' && WireOk(h, ids, m)
    ensures WireOk(h', ids, m)
  {
    match m
    case Request(b) =>
      var domain: u32, f, nodes :| 0 <= f < |ids| && b == EncodePush(domain, ids[f], nodes) && NodesFit(nodes)
          && AllIn(h, ids[f], nodes);
      assert AllIn(h', ids[f], nodes);
    case Answer(f, b) =>
      var domain: u32, nodes :| b == EncodeResponse(domain, nodes) && NodesFit(nodes) && AllIn(h, ids[f], nodes);
      assert AllIn(h', ids[f], nodes);
  }

  /** A step that changes one table and adds to the wire and the history. */
  lemma StepOk(s: Net, s': Net, ids: seq<u64>, d: nat)
    requires Inv(s, ids) && d < |s.tables| && s.history <= s'.history
    requires |s'.tables| == |s.tables| && s'.tables == s.tables[d := s'.tables[d]] && TableOk(s'.history, s'.tables[d])
    requires forall m :: m in s'.wire && m !in s.wire ==> WireOk(s'.history, ids, m)
    ensures Inv(s', ids)
  {
    forall e | 0 <= e < |s.tables| ensures TableOk(s'.history, s'.tables[e]) && WfTable(s'.tables[e]) {
      if e != d { MoreHistory(s.history, s'.history, s.tables[e]); }
      TableOkWf(s'.history, s'.tables[e]);
    }
    forall m | m in s'.wire ensures WireOk(s'.history, ids, m) {
      if m in s.wire { MoreHistoryWire(s.history, s'.history, ids, m); }
    }
  }

  lemma LocalOk(h: set<Export>, t: Table, t': Table)
    requires TableOk(h, t) && LocalStep(t, t')
    ensures TableOk(h, t')
  {
    forall i | 0 <= i < |t| ensures EntryOk(h, t'[i]) {
      assert EntryOk(h, t[i]);
      if Remote(t'[i]) { SameCoreOk(h, t[i], t'[i]); }
    }
  }

  lemma CollectedFits(h: set<Export>, t: Table, domain: u32, alive: Alive)
    requires TableOk(h, t) && WfTable(t)
    ensures NodesFit(Collect(t, domain, alive))
  {
    forall i | 0 <= i < |t| ensures NamesSized(t[i]) { assert EntryOk(h, t[i]); }
    CollectFits(t, domain, alive);
  }

  lemma AskOk(s: Net, ids: seq<u64>, a: Action)
    requires Inv(s, ids) && Enabled(s, a) && a.Ask?
    ensures Inv(Next(s, ids, a), ids)
  {
    var nodes := Collect(s.tables[a.d], a.domain, a.alive);
    var s' := Next(s, ids, a);
    CollectedFits(s.history, s.tables[a.d], a.domain, a.alive);
    assert AllIn(s'.history, ids[a.d], nodes);
    assert WireOk(s'.history, ids, Request(EncodePush(a.domain, ids[a.d], nodes)));
    MoreHistory(s.history, s'.history, s.tables[a.d]);
    StepOk(s, s', ids, a.d);
  }

  /** What serving a push comes to, once its bytes are decoded. */
  lemma ServedAs(s: Net, ids: seq<u64>, a: Action, domain: u32, id: u64, nodes: seq<NodeInfo>)
    requires Enabled(s, a) && |ids| == |s.tables| && (forall d :: 0 <= d < |s.tables| ==> WfTable(s.tables[d]))
    requires a.Serve? && NodesFit(nodes) && a.m.bytes == EncodePush(domain, id, nodes)
    ensures var t' := Merge(s.tables[a.d], id, nodes, a.now);
            var out := Collect(t', domain, a.alive);
            Next(s, ids, a) == Net(s.tables[a.d := t'], s.wire + {Answer(a.d, EncodeResponse(domain, out))},
                                   s.history + Exports(ids[a.d], out))
  {
    PushHandled(s.tables[a.d], id, domain, nodes, a.now, a.alive);
    PushRoundTrip(domain, id, nodes);
  }

  lemma AnswerOk(h: set<Export>, h': set<Export>, ids: seq<u64>, d: nat, t: Table, domain: u32, alive: Alive)
    requires TableOk(h, t) && WfTable(t) && d < |ids| && h' == h + Exports(ids[d], Collect(t, domain, alive))
    ensures TableOk(h', t) && WireOk(h', ids, Answer(d, EncodeResponse(domain, Collect(t, domain, alive))))
  {
    MoreHistory(h, h', t);
    CollectedFits(h, t, domain, alive);
    assert AllIn(h', ids[d], Collect(t, domain, alive));
  }

  lemma ServeOk(s: Net, ids: seq<u64>, a: Action)
    requires Inv(s, ids) && Enabled(s, a) && a.Serve?
    ensures Inv(Next(s, ids, a), ids)
  {
    assert WireOk(s.history, ids, a.m);
    var domain: u32, f, nodes :| 0 <= f < |ids| && a.m.bytes == EncodePush(domain, ids[f], nodes) && NodesFit(nodes)
        && AllIn(s.history, ids[f], nodes);
    ServedAs(s, ids, a, domain, ids[f], nodes);
    var s', t' := Next(s, ids, a), Merge(s.tables[a.d], ids[f], nodes, a.now);
    MergeOk(s.history, s.tables[a.d], ids[f], nodes, a.now);
    AnswerOk(s.history, s'.history, ids, a.d, t', domain, a.alive);
    StepOk(s, s', ids, a.d);
  }

  lemma LearnOk(s: Net, ids: seq<u64>, a: Action)
    requires Inv(s, ids) && Enabled(s, a) && a.Learn?
    ensures Inv(Next(s, ids, a), ids)
  {
    var s' := Next(s, ids, a);
    assert WireOk(s.history, ids, a.m);
    var domain: u32, nodes :| a.m.bytes == EncodeResponse(domain, nodes) && NodesFit(nodes)
        && AllIn(s.history, ids[a.m.source], nodes);
    ResponseRoundTripIff(domain, nodes);
    AbsorbOk(s.history, s.tables[a.d], ids[a.m.source], nodes, a.now);
    StepOk(s, s', ids, a.d);
  }

  lemma NextOk(s: Net, ids: seq<u64>, a: Action)
    requires Inv(s, ids) && Enabled(s, a)
    ensures Inv(Next(s, ids, a), ids)
  {
    match a
    case Local(d, t) =>
      LocalOk(s.history, s.tables[d], t);
      StepOk(s, Next(s, ids, a), ids, d);
    case Ask(_, _, _) => AskOk(s, ids, a);
    case Serve(_, _, _, _) => ServeOk(s, ids, a);
    case Learn(_, _, _) => LearnOk(s, ids, a);
  }

  predicate Initial(s: Net) {
    && s.wire == {} && s.history == {}
    && forall d :: 0 <= d < |s.tables| ==>
         |s.tables[d]| <= U32_MAX && forall i :: 0 <= i < |s.tables[d]| ==> s.tables[d][i] == Cleared()
  }

  predicate Run(states: seq<Net>, ids: seq<u64>, actions: seq<Action>) {
    && |states| == |actions| + 1 && Initial(states[0]) && |ids| == |states[0].tables|
    && forall n :: 0 <= n < |actions| ==>
         && |ids| == |states[n].tables| && (forall d :: 0 <= d < |ids| ==> WfTable(states[n].tables[d]))
         && Enabled(states[n], actions[n]) && states[n + 1] == Next(states[n], ids, actions[n])
  }

  lemma {:induction false} RunOk(states: seq<Net>, ids: seq<u64>, actions: seq<Action>, n: nat)
    requires Run(states, ids, actions) && n <= |actions|
    ensures Inv(states[n], ids)
  {
    if n == 0 {
      forall d | 0 <= d < |ids| ensures TableOk({}, states[0].tables[d]) && WfTable(states[0].tables[d]) {
        forall i | 0 <= i < |states[0].tables[d]|
          ensures EntryOk({}, states[0].tables[d][i])
        {
          ClearedOk({}, Cleared());
        }
      }
    } else {
      RunOk(states, ids, actions, n - 1);
      NextOk(states[n - 1], ids, actions[n - 1]);
    }
  }

  /** Daemon `f` held `x` as a local active node at step `m`. */
  predicate LocalAt(states: seq<Net>, ids: seq<u64>, x: Export, m: nat, f: nat, k: nat) {
    && m < |states| && f < |ids| && f < |states[m].tables| && ids[f] == x.origin && k < |states[m].tables[f]|
    && Wf(states[m].tables[f][k]) && states[m].tables[f][k].state == ACTIVE && states[m].tables[f][k].origin == 0
    && NodeToInfo(states[m].tables[f][k]) == x.node
  }

  lemma CollectedLocal(states: seq<Net>, ids: seq<u64>, m: nat, f: nat, domain: u32, alive: Alive, x: Export)
    returns (k: nat)
    requires m < |states| && f < |ids| == |states[m].tables| && WfTable(states[m].tables[f])
    requires x in Exports(ids[f], Collect(states[m].tables[f], domain, alive))
    ensures LocalAt(states, ids, x, m, f, k)
  {
    var nodes := Collect(states[m].tables[f], domain, alive);
    var j :| 0 <= j < |nodes| && x == Export(ids[f], nodes[j]);
    CollectSound(states[m].tables[f], domain, alive, j);
    k :| 0 <= k < |states[m].tables[f]| && Exported(states[m].tables[f][k], domain, alive)
        && nodes[j] == NodeToInfo(states[m].tables[f][k]);
  }

  /** What one step adds to the history is local at that daemon, before or after it. */
  lemma GivenNow(states: seq<Net>, ids: seq<u64>, actions: seq<Action>, n: nat, x: Export)
    returns (m: nat, f: nat, k: nat)
    requires Run(states, ids, actions) && n < |actions| && x in states[n + 1].history && x !in states[n].history
    ensures m <= n + 1 && LocalAt(states, ids, x, m, f, k)
  {
    RunOk(states, ids, actions, n + 1);
    var a := actions[n];
    assert states[n + 1] == Next(states[n], ids, a);
    f := a.d;
    match a
    case Ask(_, domain, alive) =>
      m := n;
      k := CollectedLocal(states, ids, m, f, domain, alive, x);
    case Serve(_, msg, _, alive) =>
      m := n + 1;
      k := CollectedLocal(states, ids, m, f, DecodeRequest(msg.bytes).value, alive, x);
  }

  lemma StartsWithoutHistory(states: seq<Net>, ids: seq<u64>, actions: seq<Action>)
    requires Run(states, ids, actions)
    ensures states[0].history == {}
  {
  }

  lemma {:induction false} GivenWasLocal(states: seq<Net>, ids: seq<u64>, actions: seq<Action>, n: nat, x: Export)
    returns (m: nat, f: nat, k: nat)
    requires Run(states, ids, actions) && n <= |actions| && x in states[n].history
    ensures m <= n && LocalAt(states, ids, x, m, f, k)
  {
    StartsWithoutHistory(states, ids, actions);
    if x in states[n - 1].history {
      m, f, k := GivenWasLocal(states, ids, actions, n - 1, x);
    } else {
      m, f, k := GivenNow(states, ids, actions, n - 1, x);
    }
  }

  /** In every run, an entry some daemon holds under origin `o` shows, field by
      field, a node that a daemon with that id held as its own local active node
      at the same or an earlier step. */
  lemma RemoteWasLocal(states: seq<Net>, ids: seq<u64>, actions: seq<Action>, n: nat, d: nat, i: nat)
    returns (x: Export, m: nat, f: nat, k: nat)
    requires Run(states, ids, actions) && n <= |actions|
    requires d < |states[n].tables| && i < |states[n].tables[d]| && Remote(states[n].tables[d][i])
    ensures Wf(states[n].tables[d][i]) && Shows(states[n].tables[d][i], x)
    ensures m <= n && LocalAt(states, ids, x, m, f, k)
  {
    RunOk(states, ids, actions, n);
    assert EntryOk(states[n].history, states[n].tables[d][i]);
    x :| x in states[n].history && Shows(states[n].tables[d][i], x);
    m, f, k := GivenWasLocal(states, ids, actions, n, x);
  }
}
