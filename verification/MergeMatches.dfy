/** What merging a peer's nodes does to the matches of every entry, the pushed ones
    included (`peer_sync.rs`). */
module MergeMatches {
  import opened Bytes
  import opened SyncCodec
  import opened NodeTable
  import opened PeerMerge

  /** Same matches, same generation, whatever else differs. */
  predicate SameMatches(e: NodeEntry, e': NodeEntry) {
    e.matches == e'.matches && e.matchCount == e'.matchCount && e.responseGen == e'.responseGen
  }

  lemma {:induction false} ForgetAllMatches(e: NodeEntry, e': NodeEntry, ids: seq<u64>)
    requires e.state == e'.state == ACTIVE && SameMatches(e, e')
    ensures SameMatches(ForgetAll(e, ids), ForgetAll(e', ids))
    decreases |ids|
  {
    if ids != [] { ForgetAllMatches(Forget(e, ids[0]), Forget(e', ids[0]), ids[1..]); }
  }

  /** One node placed: an entry keeps its matches but those on a node whose endpoints
      changed, also when it is that node's own entry. */
  lemma MergeNodeMatches(t: Table, origin: u64, n: NodeInfo, now: nat, i: nat)
    requires WfTable(t) && SlotFor(t, n.nodeId) < |t| && i < |t| && t[i].state == ACTIVE
    ensures MergeNode(t, origin, n, now)[i].state == ACTIVE
    ensures SameMatches(MergeNode(t, origin, n, now)[i], if Changed(t, n) then Forget(t[i], n.nodeId) else t[i])
  {
    ForgetOne(t[i], n.nodeId);
    if i != SlotFor(t, n.nodeId) { MergeNodeElsewhere(t, origin, n, now, i); }
  }

  lemma {:induction false} MergeNodesMatches(t: Table, origin: u64, nodes: seq<NodeInfo>, now: nat, i: nat)
    requires WfTable(t) && i < |t| && t[i].state == ACTIVE
    ensures SameMatches(MergeNodes(t, origin, nodes, now)[i], ForgetAll(t[i], ChangedIds(t, origin, nodes, now)))
    decreases |nodes|
  {
    if nodes != [] && SlotFor(t, nodes[0].nodeId) < |t| {
      var t', n := MergeNode(t, origin, nodes[0], now), nodes[0];
      MergeNodeMatches(t, origin, n, now, i);
      MergeNodesMatches(t', origin, nodes[1..], now, i);
      var rest := ChangedIds(t', origin, nodes[1..], now);
      var before := if Changed(t, n) then Forget(t[i], n.nodeId) else t[i];
      ForgetAllMatches(t'[i], before, rest);
      if Changed(t, n) { assert ([n.nodeId] + rest)[1..] == rest; } else { assert [] + rest == rest; }
    }
  }

  /** An entry taken up for a new node has no matches. */
  lemma {:induction false} NewHasNone(t: Table, origin: u64, nodes: seq<NodeInfo>, now: nat, i: nat)
    requires WfTable(t) && i < |t| && (t[i].state == EMPTY || t[i].matchCount == 0)
    ensures var e := MergeNodes(t, origin, nodes, now)[i];
            if e.state == EMPTY then e == t[i] else e.matchCount == 0
    decreases |nodes|
  {
    if nodes != [] && SlotFor(t, nodes[0].nodeId) < |t| {
      ForgetOne(t[i], nodes[0].nodeId);
      if i != SlotFor(t, nodes[0].nodeId) { MergeNodeElsewhere(t, origin, nodes[0], now, i); }
      NewHasNone(MergeNode(t, origin, nodes[0], now), origin, nodes[1..], now, i);
    }
  }

  /** After a merge every active entry that is not dropped, pushed or not, has exactly its
      old matches less those on nodes dropped or pushed with different endpoints; its
      response generation moves exactly when that loses one. */
  lemma MergeKeepsMatches(t: Table, origin: u64, nodes: seq<NodeInfo>, now: nat, i: nat)
    requires WfTable(t) && origin != 0 && i < |t| && t[i].state == ACTIVE && !Dropped(t[i], origin, Ids(nodes))
    ensures var gone := DroppedIds(t, origin, Ids(nodes)) + ChangedIds(Swept(t, origin, nodes), origin, nodes, now);
            var r := Merge(t, origin, nodes, now)[i];
            && r.state == ACTIVE && Live(r) == Filter(Live(t[i]), NotAmong(gone))
            && t[i].responseGen <= r.responseGen
            && (r.responseGen == t[i].responseGen <==> Live(r) == Live(t[i]))
  {
    var s := Swept(t, origin, nodes);
    var gone, changed := DroppedIds(t, origin, Ids(nodes)), ChangedIds(s, origin, nodes, now);
    ForgetAllLive(t[i], gone);
    assert s[i] == ForgetAll(t[i], gone);
    MergeNodesMatches(s, origin, nodes, now, i);
    MergeNodesActive(s, origin, nodes, now, i);
    ForgetAllConcat(t[i], gone, changed);
    ForgetAllLive(t[i], gone + changed);
    FilterAll(Live(t[i]), NotAmong(gone + changed));
  }

  lemma {:induction false} MergeNodesActive(t: Table, origin: u64, nodes: seq<NodeInfo>, now: nat, i: nat)
    requires WfTable(t) && i < |t| && t[i].state == ACTIVE
    ensures MergeNodes(t, origin, nodes, now)[i].state == ACTIVE
    decreases |nodes|
  {
    if nodes != [] && SlotFor(t, nodes[0].nodeId) < |t| {
      MergeNodeMatches(t, origin, nodes[0], now, i);
      MergeNodesActive(MergeNode(t, origin, nodes[0], now), origin, nodes[1..], now, i);
    }
  }
}
