/** `merge_remote_nodes`: a peer's snapshot replaces everything held under its
    origin. */
module PeerMerge {
  import opened Bytes
  import opened SyncCodec
  import opened NodeTable

  // ---------------------------------------------------------- specification

  function Ids(nodes: seq<NodeInfo>): (ids: seq<u64>)
    ensures |ids| == |nodes| && forall i :: 0 <= i < |nodes| ==> ids[i] == nodes[i].nodeId
  {
    seq(|nodes|, i requires 0 <= i < |nodes| => nodes[i].nodeId)
  }

  /** Held under the origin but not pushed again, or held under another remote origin. */
  predicate Dropped(e: NodeEntry, origin: u64, ids: seq<u64>) {
    && e.state != EMPTY
    && ((e.origin == origin && e.nodeId !in ids) || (e.origin != 0 && e.origin != origin && e.nodeId in ids))
  }

  function DropStale(t: Table, origin: u64, ids: seq<u64>): (r: Table)
    ensures |r| == |t|
    ensures forall i :: 0 <= i < |t| ==> r[i] == if Dropped(t[i], origin, ids) then Cleared() else t[i]
  {
    seq(|t|, i requires 0 <= i < |t| => if Dropped(t[i], origin, ids) then Cleared() else t[i])
  }

  /** The ids dropped, in table order. */
  function DroppedIds(t: Table, origin: u64, ids: seq<u64>): (gone: seq<u64>) {
    if t == [] then []
    else
      var init, last := t[..|t| - 1], t[|t| - 1];
      var gone := DroppedIds(init, origin, ids);
      if Dropped(last, origin, ids) && last.nodeId != 0 then gone + [last.nodeId] else gone
  }

  ghost predicate DropsNode(t: Table, origin: u64, ids: seq<u64>, id: u64) {
    id != 0 && exists i :: 0 <= i < |t| && Dropped(t[i], origin, ids) && t[i].nodeId == id
  }

  /** They are exactly the non-zero ids of the entries dropped. */
  lemma {:induction false} DroppedIdsExact(t: Table, origin: u64, ids: seq<u64>, id: u64)
    ensures id in DroppedIds(t, origin, ids) <==> DropsNode(t, origin, ids, id)
  {
    if t != [] {
      var init, last := t[..|t| - 1], t[|t| - 1];
      DroppedIdsExact(init, origin, ids, id);
      if DropsNode(init, origin, ids, id) {
        var i :| 0 <= i < |init| && Dropped(init[i], origin, ids) && init[i].nodeId == id;
        assert Dropped(t[i], origin, ids) && t[i].nodeId == id;
      }
      if DropsNode(t, origin, ids, id) {
        var i :| 0 <= i < |t| && Dropped(t[i], origin, ids) && t[i].nodeId == id;
        if i < |init| { assert Dropped(init[i], origin, ids) && init[i].nodeId == id; }
      }
      if Dropped(last, origin, ids) && last.nodeId == id { assert Dropped(t[|t| - 1], origin, ids); }
    }
  }

  function ForgetIn(t: Table, ids: seq<u64>): (r: Table)
    ensures |r| == |t| && forall i :: 0 <= i < |t| ==> r[i] == ForgetAll(t[i], ids)
  {
    seq(|t|, i requires 0 <= i < |t| => ForgetAll(t[i], ids))
  }

  predicate Holds(e: NodeEntry, id: u64) { e.state != EMPTY && e.nodeId == id }

  /** The first index at or after `i` that holds `id`, or the table's length. */
  function HeldAt(t: Table, id: u64, i: nat): (r: nat)
    requires i <= |t|
    ensures i <= r <= |t| && (r < |t| ==> Holds(t[r], id)) && forall k :: i <= k < r ==> !Holds(t[k], id)
    decreases |t| - i
  {
    if i == |t| || Holds(t[i], id) then i else HeldAt(t, id, i + 1)
  }

  function FreeAt(t: Table, i: nat): (r: nat)
    requires i <= |t|
    ensures i <= r <= |t| && (r < |t| ==> t[r].state == EMPTY) && forall k :: i <= k < r ==> t[k].state != EMPTY
    decreases |t| - i
  {
    if i == |t| || t[i].state == EMPTY then i else FreeAt(t, i + 1)
  }

  /** Where a pushed node goes: its present slot, else the first empty one,
      else nowhere (`|t|`). */
  function SlotFor(t: Table, id: u64): (r: nat)
    ensures r <= |t|
  {
    if HeldAt(t, id, 0) < |t| then HeldAt(t, id, 0) else FreeAt(t, 0)
  }

  /** `peer_node_endpoints_match` */
  predicate EndpointsMatch(e: NodeEntry, n: NodeInfo)
    requires Wf(e)
  {
    var ac, pc, sc := Min(|n.addrs|, MAX_QUIC_ADDRS), Min(|n.pubs|, MAX_TOPICS_PER_NODE),
        Min(|n.subs|, MAX_TOPICS_PER_NODE);
    && e.domainId == n.domainId && e.port == n.port
    && e.addrCount == ac && e.addrs[..ac] == n.addrs[..ac]
    && e.pubCount == pc && e.pubs[..pc] == InfosToEntries(n.pubs)[..pc]
    && e.subCount == sc && e.subs[..sc] == InfosToEntries(n.subs)[..sc]
  }

  /** The fields a pushed node overwrites; its matches stay. */
  function Written(e: NodeEntry, origin: u64, n: NodeInfo, now: nat): (r: NodeEntry)
    ensures Wf(e) ==> Wf(r)
  {
    e.(nodeId := n.nodeId, domainId := n.domainId, pid := 0, startTime := 0, port := n.port,
       addrs := Padded(n.addrs, MAX_QUIC_ADDRS, ZERO_ADDR), addrCount := Min(|n.addrs|, MAX_QUIC_ADDRS),
       origin := origin, lastSeen := now, name := CopyStr(n.name), namespace := CopyStr(n.namespace),
       pubCount := Min(|n.pubs|, MAX_TOPICS_PER_NODE),
       pubs := Padded(InfosToEntries(n.pubs), MAX_TOPICS_PER_NODE, DefaultTopic()),
       subCount := Min(|n.subs|, MAX_TOPICS_PER_NODE),
       subs := Padded(InfosToEntries(n.subs), MAX_TOPICS_PER_NODE, DefaultTopic()),
       state := ACTIVE)
  }

  /** A node held with different endpoints loses the matches others hold on it. */
  predicate Changed(t: Table, n: NodeInfo)
    requires WfTable(t)
  {
    var i := HeldAt(t, n.nodeId, 0);
    i < |t| && !EndpointsMatch(t[i], n)
  }

  function MergeNode(t: Table, origin: u64, n: NodeInfo, now: nat): (r: Table)
    requires WfTable(t) && SlotFor(t, n.nodeId) < |t|
    ensures WfTable(r) && |r| == |t|
  {
    var i := SlotFor(t, n.nodeId);
    var t1 := if Changed(t, n) then ForgetIn(t, [n.nodeId]) else t;
    var base := if HeldAt(t, n.nodeId, 0) < |t| then t1[i] else Cleared();
    t1[i := Written(base, origin, n, now)]
  }

  /** Node by node, until one finds no room. */
  function MergeNodes(t: Table, origin: u64, nodes: seq<NodeInfo>, now: nat): (r: Table)
    requires WfTable(t)
    ensures WfTable(r) && |r| == |t|
    decreases |nodes|
  {
    if nodes == [] || SlotFor(t, nodes[0].nodeId) == |t| then t
    else MergeNodes(MergeNode(t, origin, nodes[0], now), origin, nodes[1..], now)
  }

  /** The table after stale and duplicate entries are gone. */
  function Swept(t: Table, origin: u64, nodes: seq<NodeInfo>): (r: Table)
    requires WfTable(t)
    ensures WfTable(r) && |r| == |t|
  {
    ForgetIn(DropStale(t, origin, Ids(nodes)), DroppedIds(t, origin, Ids(nodes)))
  }

  function Merge(t: Table, origin: u64, nodes: seq<NodeInfo>, now: nat): (r: Table)
    requires WfTable(t)
    ensures WfTable(r) && |r| == |t|
  {
    if origin == 0 then t else MergeNodes(Swept(t, origin, nodes), origin, nodes, now)
  }

  // -------------------------------------------------------------- vocabulary

  ghost predicate UniqueIds(t: Table) {
    forall i, j :: 0 <= i < j < |t| && t[i].state != EMPTY && t[j].state != EMPTY && t[i].nodeId != 0 ==>
      t[i].nodeId != t[j].nodeId
  }

  predicate Distinct(nodes: seq<NodeInfo>) {
    && (forall i :: 0 <= i < |nodes| ==> nodes[i].nodeId != 0)
    && (forall i, j :: 0 <= i < j < |nodes| ==> nodes[i].nodeId != nodes[j].nodeId)
  }

  function HeldUnder(t: Table, origin: u64): (ids: set<u64>) {
    set i | 0 <= i < |t| && t[i].state != EMPTY && t[i].origin == origin :: t[i].nodeId
  }

  function HeldIds(t: Table): (ids: set<u64>) {
    set i | 0 <= i < |t| && t[i].state != EMPTY :: t[i].nodeId
  }

  function FreeSlots(t: Table): (s: set<nat>) { set i: nat | i < |t| && t[i].state == EMPTY }

  function IdSet(nodes: seq<NodeInfo>): (s: set<u64>) { set i | 0 <= i < |nodes| :: nodes[i].nodeId }

  /** No pushed node is held by a local entry. */
  predicate NoneLocal(t: Table, nodes: seq<NodeInfo>) {
    forall i :: 0 <= i < |t| && t[i].state != EMPTY && t[i].origin == 0 ==> t[i].nodeId !in Ids(nodes)
  }

  /** Enough empty slots, once swept, for the nodes not yet held. */
  predicate Room(t: Table, origin: u64, nodes: seq<NodeInfo>)
    requires WfTable(t)
  {
    Suffices(Swept(t, origin, nodes), nodes)
  }

  /** What a pushed node leaves in its entry. */
  predicate Carries(e: NodeEntry, origin: u64, n: NodeInfo, now: nat)
    requires Wf(e)
  {
    && e.state == ACTIVE && e.nodeId == n.nodeId && e.origin == origin && e.lastSeen == now && e.pid == 0
    && EndpointsMatch(e, n) && e.name == CopyStr(n.name) && e.namespace == CopyStr(n.namespace)
  }

  ghost predicate HasCarrier(t: Table, origin: u64, n: NodeInfo, now: nat)
    requires WfTable(t)
  {
    exists i :: 0 <= i < |t| && Carries(t[i], origin, n, now)
  }

  // ---------------------------------------------------------- one node placed

  /** An entry that writing `n` again would not change. */
  predicate Stamped(e: NodeEntry, origin: u64, n: NodeInfo, now: nat) { e == Written(e, origin, n, now) }

  ghost predicate HasStamped(t: Table, origin: u64, n: NodeInfo, now: nat) {
    exists i :: 0 <= i < |t| && Stamped(t[i], origin, n, now)
  }

  lemma StampedCarries(e: NodeEntry, origin: u64, n: NodeInfo, now: nat)
    requires Wf(e) && Stamped(e, origin, n, now)
    ensures Carries(e, origin, n, now)
  {
  }

  lemma StampedKept(e: NodeEntry, e': NodeEntry, origin: u64, n: NodeInfo, now: nat)
    requires SameButMatches(e, e') && Stamped(e, origin, n, now)
    ensures Stamped(e', origin, n, now)
  {
  }

  lemma ForgetOne(e: NodeEntry, id: u64)
    ensures ForgetAll(e, [id]) == Forget(e, id)
  {
    assert [id][1..] == [];
    assert ForgetAll(Forget(e, id), []) == Forget(e, id);
  }

  /** Away from its slot, placing a node costs others at most their matches on it. */
  lemma MergeNodeElsewhere(t: Table, origin: u64, n: NodeInfo, now: nat, i: nat)
    requires WfTable(t) && SlotFor(t, n.nodeId) < |t| && i < |t| && i != SlotFor(t, n.nodeId)
    ensures MergeNode(t, origin, n, now)[i] == if Changed(t, n) then Forget(t[i], n.nodeId) else t[i]
    ensures SameButMatches(t[i], MergeNode(t, origin, n, now)[i])
  {
    ForgetOne(t[i], n.nodeId);
    ForgetAllLive(t[i], [n.nodeId]);
  }

  lemma MergeNodeHere(t: Table, origin: u64, n: NodeInfo, now: nat)
    requires WfTable(t) && SlotFor(t, n.nodeId) < |t|
    ensures Stamped(MergeNode(t, origin, n, now)[SlotFor(t, n.nodeId)], origin, n, now)
  {
  }

  /** Before each placement: ids unique, and what is still to come is held
      under the origin or not at all. */
  ghost predicate Ready(t: Table, origin: u64, nodes: seq<NodeInfo>) {
    && WfTable(t) && UniqueIds(t) && Distinct(nodes)
    && (forall i :: 0 <= i < |t| && t[i].state != EMPTY && t[i].nodeId in Ids(nodes) ==> t[i].origin == origin)
  }

  lemma MergeNodeReady(t: Table, origin: u64, nodes: seq<NodeInfo>, now: nat)
    requires Ready(t, origin, nodes) && nodes != [] && SlotFor(t, nodes[0].nodeId) < |t|
    ensures Ready(MergeNode(t, origin, nodes[0], now), origin, nodes[1..])
  {
    var t', k := MergeNode(t, origin, nodes[0], now), SlotFor(t, nodes[0].nodeId);
    MergeNodeHere(t, origin, nodes[0], now);
    forall i | 0 <= i < |t| && i != k ensures SameButMatches(t[i], t'[i]) {
      MergeNodeElsewhere(t, origin, nodes[0], now, i);
    }
    assert forall i :: 0 <= i < |t| && i != k && t[i].state != EMPTY ==> t[i].nodeId != nodes[0].nodeId;
    assert forall x :: x in Ids(nodes[1..]) ==> x in Ids(nodes);
  }

  // ------------------------------------------------------------ all nodes placed

  /** The pushed nodes whose endpoints had changed, as the loop meets them. */
  function ChangedIds(t: Table, origin: u64, nodes: seq<NodeInfo>, now: nat): (ids: seq<u64>)
    requires WfTable(t)
    decreases |nodes|
  {
    if nodes == [] || SlotFor(t, nodes[0].nodeId) == |t| then []
    else
      (if Changed(t, nodes[0]) then [nodes[0].nodeId] else [])
      + ChangedIds(MergeNode(t, origin, nodes[0], now), origin, nodes[1..], now)
  }

  lemma {:induction false} MergeNodesElsewhere(t: Table, origin: u64, nodes: seq<NodeInfo>, now: nat, i: nat)
    requires Ready(t, origin, nodes) && i < |t| && t[i].state != EMPTY && t[i].nodeId !in Ids(nodes)
    ensures MergeNodes(t, origin, nodes, now)[i] == ForgetAll(t[i], ChangedIds(t, origin, nodes, now))
    decreases |nodes|
  {
    if nodes != [] && SlotFor(t, nodes[0].nodeId) < |t| {
      var t', n := MergeNode(t, origin, nodes[0], now), nodes[0];
      assert nodes[0].nodeId in Ids(nodes);
      MergeNodeReady(t, origin, nodes, now);
      MergeNodeElsewhere(t, origin, n, now, i);
      assert forall x :: x in Ids(nodes[1..]) ==> x in Ids(nodes);
      MergeNodesElsewhere(t', origin, nodes[1..], now, i);
      var rest := ChangedIds(t', origin, nodes[1..], now);
      if Changed(t, n) {
        assert ([n.nodeId] + rest)[1..] == rest;
      } else {
        assert [] + rest == rest;
      }
    }
  }

  /** Placing a node leaves every other id where it was found. */
  lemma HeldAtKept(t: Table, origin: u64, n: NodeInfo, now: nat, id: u64)
    requires WfTable(t) && SlotFor(t, n.nodeId) < |t| && id != n.nodeId
    ensures HeldAt(MergeNode(t, origin, n, now), id, 0) == HeldAt(t, id, 0)
  {
    var t', k := MergeNode(t, origin, n, now), SlotFor(t, n.nodeId);
    MergeNodeHere(t, origin, n, now);
    forall i: nat | i < |t| ensures Holds(t'[i], id) == Holds(t[i], id) {
      if i != k { MergeNodeElsewhere(t, origin, n, now, i); }
    }
  }

  lemma ChangedKept(t: Table, origin: u64, n: NodeInfo, now: nat, other: NodeInfo)
    requires WfTable(t) && SlotFor(t, n.nodeId) < |t| && other.nodeId != n.nodeId
    ensures Changed(MergeNode(t, origin, n, now), other) == Changed(t, other)
  {
    HeldAtKept(t, origin, n, now, other.nodeId);
    var i := HeldAt(t, other.nodeId, 0);
    if i < |t| {
      assert i != SlotFor(t, n.nodeId);
      MergeNodeElsewhere(t, origin, n, now, i);
    }
  }

  predicate AllPlaced(t: Table, origin: u64, nodes: seq<NodeInfo>, now: nat)
    requires WfTable(t)
    decreases |nodes|
  {
    nodes == [] ||
    (SlotFor(t, nodes[0].nodeId) < |t| && AllPlaced(MergeNode(t, origin, nodes[0], now), origin, nodes[1..], now))
  }

  predicate SomeChanged(t: Table, nodes: seq<NodeInfo>, id: u64)
    requires WfTable(t)
  {
    exists k :: 0 <= k < |nodes| && nodes[k].nodeId == id && Changed(t, nodes[k])
  }

  lemma SomeChangedSplit(t: Table, nodes: seq<NodeInfo>, id: u64)
    requires WfTable(t) && nodes != []
    ensures SomeChanged(t, nodes, id) <==>
              (nodes[0].nodeId == id && Changed(t, nodes[0])) || SomeChanged(t, nodes[1..], id)
  {
    var rest := nodes[1..];
    if SomeChanged(t, nodes, id) {
      var k :| 0 <= k < |nodes| && nodes[k].nodeId == id && Changed(t, nodes[k]);
      if k > 0 { assert rest[k - 1].nodeId == id && Changed(t, rest[k - 1]); }
    }
    if SomeChanged(t, rest, id) {
      var k :| 0 <= k < |rest| && rest[k].nodeId == id && Changed(t, rest[k]);
      assert nodes[k + 1].nodeId == id && Changed(t, nodes[k + 1]);
    }
  }

  lemma SomeChangedKept(t: Table, origin: u64, n: NodeInfo, now: nat, rest: seq<NodeInfo>, id: u64)
    requires WfTable(t) && SlotFor(t, n.nodeId) < |t| && forall k :: 0 <= k < |rest| ==> rest[k].nodeId != n.nodeId
    ensures SomeChanged(MergeNode(t, origin, n, now), rest, id) <==> SomeChanged(t, rest, id)
  {
    var t' := MergeNode(t, origin, n, now);
    forall k | 0 <= k < |rest| ensures Changed(t', rest[k]) == Changed(t, rest[k]) {
      ChangedKept(t, origin, n, now, rest[k]);
    }
  }

  lemma {:induction false} ChangedIdsExact(t: Table, origin: u64, nodes: seq<NodeInfo>, now: nat, id: u64)
    requires Ready(t, origin, nodes) && AllPlaced(t, origin, nodes, now)
    ensures id in ChangedIds(t, origin, nodes, now) <==> SomeChanged(t, nodes, id)
    decreases |nodes|
  {
    if nodes != [] {
      var rest := nodes[1..];
      MergeNodeReady(t, origin, nodes, now);
      ChangedIdsExact(MergeNode(t, origin, nodes[0], now), origin, rest, now, id);
      SomeChangedKept(t, origin, nodes[0], now, rest, id);
      SomeChangedSplit(t, nodes, id);
    }
  }

  /** Every pushed node that finds room ends up in some entry. */
  lemma {:induction false} PlacedAt(t: Table, origin: u64, nodes: seq<NodeInfo>, now: nat, k: nat)
    requires Ready(t, origin, nodes) && AllPlaced(t, origin, nodes, now) && k < |nodes|
    ensures HasStamped(MergeNodes(t, origin, nodes, now), origin, nodes[k], now)
    decreases |nodes|
  {
    var t', i := MergeNode(t, origin, nodes[0], now), SlotFor(t, nodes[0].nodeId);
    MergeNodeReady(t, origin, nodes, now);
    if k == 0 {
      MergeNodeHere(t, origin, nodes[0], now);
      MergeNodesElsewhere(t', origin, nodes[1..], now, i);
      var ids := ChangedIds(t', origin, nodes[1..], now);
      ForgetAllLive(t'[i], ids);
      StampedKept(t'[i], ForgetAll(t'[i], ids), origin, nodes[0], now);
      assert Stamped(MergeNodes(t, origin, nodes, now)[i], origin, nodes[0], now);
    } else {
      PlacedAt(t', origin, nodes[1..], now, k - 1);
      assert nodes[1..][k - 1] == nodes[k];
    }
  }

  predicate SameHead(e: NodeEntry, e': NodeEntry) {
    e'.state == e.state && e'.nodeId == e.nodeId && e'.origin == e.origin
  }

  /** Slot `k`, empty before or already `id` under the origin, now holds `id`. */
  ghost predicate SlotTaken(t: Table, t': Table, k: nat, id: u64, origin: u64) {
    && k < |t| == |t'|
    && (forall i :: 0 <= i < |t| && i != k ==> SameHead(t[i], t'[i]))
    && t'[k].state != EMPTY && t'[k].nodeId == id && t'[k].origin == origin
    && (t[k].state == EMPTY || (t[k].nodeId == id && t[k].origin == origin))
  }

  lemma TakenHeldIds(t: Table, t': Table, k: nat, id: u64, origin: u64)
    requires SlotTaken(t, t', k, id, origin)
    ensures HeldIds(t') == HeldIds(t) + {id}
  {
    forall x ensures x in HeldIds(t') <==> x in HeldIds(t) + {id} {
      if x in HeldIds(t) {
        var i :| 0 <= i < |t| && t[i].state != EMPTY && t[i].nodeId == x;
        assert t'[i].state != EMPTY && t'[i].nodeId == x;
      }
      if x in HeldIds(t') && x != id {
        var i :| 0 <= i < |t| && t'[i].state != EMPTY && t'[i].nodeId == x;
        assert t[i].state != EMPTY && t[i].nodeId == x;
      }
      if x == id { assert t'[k].nodeId == x; }
    }
  }

  lemma TakenHeldUnder(t: Table, t': Table, k: nat, id: u64, origin: u64)
    requires SlotTaken(t, t', k, id, origin)
    ensures HeldUnder(t', origin) == HeldUnder(t, origin) + {id}
  {
    forall x ensures x in HeldUnder(t', origin) <==> x in HeldUnder(t, origin) + {id} {
      if x in HeldUnder(t, origin) {
        var i :| 0 <= i < |t| && t[i].state != EMPTY && t[i].origin == origin && t[i].nodeId == x;
        assert t'[i].state != EMPTY && t'[i].origin == origin && t'[i].nodeId == x;
      }
      if x in HeldUnder(t', origin) && x != id {
        var i :| 0 <= i < |t| && t'[i].state != EMPTY && t'[i].origin == origin && t'[i].nodeId == x;
        assert t[i].state != EMPTY && t[i].origin == origin && t[i].nodeId == x;
      }
      if x == id { assert t'[k].nodeId == x && t'[k].origin == origin; }
    }
  }

  lemma MergeNodeTakes(t: Table, origin: u64, nodes: seq<NodeInfo>, now: nat)
    requires Ready(t, origin, nodes) && nodes != [] && SlotFor(t, nodes[0].nodeId) < |t|
    ensures SlotTaken(t, MergeNode(t, origin, nodes[0], now), SlotFor(t, nodes[0].nodeId), nodes[0].nodeId, origin)
  {
    var t', k := MergeNode(t, origin, nodes[0], now), SlotFor(t, nodes[0].nodeId);
    MergeNodeHere(t, origin, nodes[0], now);
    forall i | 0 <= i < |t| && i != k ensures SameHead(t[i], t'[i]) {
      MergeNodeElsewhere(t, origin, nodes[0], now, i);
    }
    assert nodes[0].nodeId in Ids(nodes);
  }

  lemma HeldIdsAfter(t: Table, origin: u64, nodes: seq<NodeInfo>, now: nat)
    requires Ready(t, origin, nodes) && nodes != [] && SlotFor(t, nodes[0].nodeId) < |t|
    ensures var t', id := MergeNode(t, origin, nodes[0], now), nodes[0].nodeId;
            && HeldIds(t') == HeldIds(t) + {id}
            && HeldUnder(t', origin) == HeldUnder(t, origin) + {id}
            && FreeSlots(t') == FreeSlots(t) - {SlotFor(t, id)}
  {
    var t', k, id := MergeNode(t, origin, nodes[0], now), SlotFor(t, nodes[0].nodeId), nodes[0].nodeId;
    MergeNodeTakes(t, origin, nodes, now);
    TakenHeldIds(t, t', k, id, origin);
    TakenHeldUnder(t, t', k, id, origin);
  }

  lemma IdSetSplit(nodes: seq<NodeInfo>)
    requires nodes != [] && Distinct(nodes)
    ensures IdSet(nodes) == {nodes[0].nodeId} + IdSet(nodes[1..]) && nodes[0].nodeId !in IdSet(nodes[1..])
  {
    var rest := nodes[1..];
    forall x | x in IdSet(rest) ensures x in IdSet(nodes) {
      var i :| 0 <= i < |rest| && rest[i].nodeId == x;
      assert nodes[i + 1].nodeId == x;
    }
    forall x | x in IdSet(nodes) && x != nodes[0].nodeId ensures x in IdSet(rest) {
      var i :| 0 <= i < |nodes| && nodes[i].nodeId == x;
      assert rest[i - 1].nodeId == x;
    }
  }

  lemma HeldIffHeldAt(t: Table, id: u64)
    ensures id in HeldIds(t) <==> HeldAt(t, id, 0) < |t|
    ensures FreeSlots(t) == {} <==> FreeAt(t, 0) == |t|
  {
    if HeldAt(t, id, 0) < |t| { assert t[HeldAt(t, id, 0)].nodeId == id; }
    if FreeAt(t, 0) < |t| { assert FreeAt(t, 0) in FreeSlots(t); }
  }

  predicate RoomFor(ids: set<u64>, held: set<u64>, free: set<nat>) { |ids - held| <= |free| }

  /** Placing one id uses up one empty slot exactly when it was not held. */
  lemma RoomStep(all: set<u64>, rest: set<u64>, held: set<u64>, held': set<u64>, free: set<nat>, free': set<nat>,
      id: u64, k: nat)
    requires all == {id} + rest && id !in rest && held' == held + {id} && free' == free - {k}
    requires if id in held then k !in free else k in free
    ensures RoomFor(rest, held', free') == RoomFor(all, held, free)
  {
    if id in held {
      assert free' == free && all - held == rest - held';
    } else {
      assert all - held == (rest - held') + {id};
      assert free == free' + {k};
    }
  }

  predicate Suffices(t: Table, nodes: seq<NodeInfo>) { RoomFor(IdSet(nodes), HeldIds(t), FreeSlots(t)) }

  lemma SufficesStep(t: Table, t': Table, nodes: seq<NodeInfo>, id: u64, k: nat)
    requires nodes != [] && Distinct(nodes) && id == nodes[0].nodeId
    requires HeldIds(t') == HeldIds(t) + {id} && FreeSlots(t') == FreeSlots(t) - {k}
    requires if id in HeldIds(t) then k !in FreeSlots(t) else k in FreeSlots(t)
    ensures Suffices(t', nodes[1..]) == Suffices(t, nodes)
  {
    IdSetSplit(nodes);
    RoomStep(IdSet(nodes), IdSet(nodes[1..]), HeldIds(t), HeldIds(t'), FreeSlots(t), FreeSlots(t'), id, k);
  }

  lemma SufficesAfter(t: Table, origin: u64, nodes: seq<NodeInfo>, now: nat)
    requires Ready(t, origin, nodes) && nodes != [] && SlotFor(t, nodes[0].nodeId) < |t|
    ensures Suffices(MergeNode(t, origin, nodes[0], now), nodes[1..]) == Suffices(t, nodes)
  {
    var id, t' := nodes[0].nodeId, MergeNode(t, origin, nodes[0], now);
    HeldIdsAfter(t, origin, nodes, now);
    HeldIffHeldAt(t, id);
    SufficesStep(t, t', nodes, id, SlotFor(t, id));
  }

  lemma NoRoom(t: Table, nodes: seq<NodeInfo>)
    requires nodes != [] && SlotFor(t, nodes[0].nodeId) == |t|
    ensures !Suffices(t, nodes)
  {
    HeldIffHeldAt(t, nodes[0].nodeId);
    assert nodes[0].nodeId in IdSet(nodes) - HeldIds(t);
  }

  /** All pushed nodes find a slot exactly when the empty slots suffice. */
  lemma {:induction false} PlacedIffRoom(t: Table, origin: u64, nodes: seq<NodeInfo>, now: nat)
    requires Ready(t, origin, nodes)
    ensures AllPlaced(t, origin, nodes, now) <==> Suffices(t, nodes)
    decreases |nodes|
  {
    if nodes == [] {
      assert IdSet(nodes) - HeldIds(t) == {};
    } else if SlotFor(t, nodes[0].nodeId) == |t| {
      NoRoom(t, nodes);
    } else {
      MergeNodeReady(t, origin, nodes, now);
      SufficesAfter(t, origin, nodes, now);
      PlacedIffRoom(MergeNode(t, origin, nodes[0], now), origin, nodes[1..], now);
    }
  }

  lemma {:induction false} HeldUnderAfterAll(t: Table, origin: u64, nodes: seq<NodeInfo>, now: nat)
    requires Ready(t, origin, nodes)
    ensures var r := MergeNodes(t, origin, nodes, now);
            && UniqueIds(r)
            && HeldUnder(r, origin) <= HeldUnder(t, origin) + IdSet(nodes)
            && (AllPlaced(t, origin, nodes, now) ==> HeldUnder(r, origin) == HeldUnder(t, origin) + IdSet(nodes))
            && (!AllPlaced(t, origin, nodes, now) ==> !(IdSet(nodes) <= HeldIds(r)))
    decreases |nodes|
  {
    if nodes == [] {
      assert IdSet(nodes) == {};
    } else {
      var id := nodes[0].nodeId;
      IdSetSplit(nodes);
      HeldIffHeldAt(t, id);
      if SlotFor(t, id) < |t| {
        MergeNodeReady(t, origin, nodes, now);
        HeldIdsAfter(t, origin, nodes, now);
        HeldUnderAfterAll(MergeNode(t, origin, nodes[0], now), origin, nodes[1..], now);
      }
    }
  }

  // ------------------------------------------------------------- the sweep

  lemma {:induction false} ForgetAllConcat(e: NodeEntry, a: seq<u64>, b: seq<u64>)
    ensures ForgetAll(ForgetAll(e, a), b) == ForgetAll(e, a + b)
    decreases |a|
  {
    if a == [] {
      assert [] + b == b;
    } else {
      assert (a + b)[1..] == a[1..] + b;
      ForgetAllConcat(Forget(e, a[0]), a[1..], b);
    }
  }

  lemma SweptEntry(t: Table, origin: u64, nodes: seq<NodeInfo>, i: nat)
    requires WfTable(t) && i < |t|
    ensures Dropped(t[i], origin, Ids(nodes)) ==> Swept(t, origin, nodes)[i] == Cleared()
    ensures !Dropped(t[i], origin, Ids(nodes)) ==>
              Swept(t, origin, nodes)[i] == ForgetAll(t[i], DroppedIds(t, origin, Ids(nodes)))
              && SameButMatches(t[i], Swept(t, origin, nodes)[i])
  {
    var gone := DroppedIds(t, origin, Ids(nodes));
    ForgetAllLive(t[i], gone);
    ForgetAllLive(Cleared(), gone);
  }

  lemma InIds(nodes: seq<NodeInfo>, id: u64)
    ensures id in Ids(nodes) <==> id in IdSet(nodes)
  {
    if id in Ids(nodes) {
      var i :| 0 <= i < |nodes| && Ids(nodes)[i] == id;
      assert nodes[i].nodeId == id;
    }
    if id in IdSet(nodes) {
      var i :| 0 <= i < |nodes| && nodes[i].nodeId == id;
      assert Ids(nodes)[i] == id;
    }
  }

  lemma SweptReady(t: Table, origin: u64, nodes: seq<NodeInfo>)
    requires WfTable(t) && UniqueIds(t) && Distinct(nodes) && NoneLocal(t, nodes) && origin != 0
    ensures Ready(Swept(t, origin, nodes), origin, nodes)
    ensures HeldUnder(Swept(t, origin, nodes), origin) <= IdSet(nodes)
  {
    var r := Swept(t, origin, nodes);
    forall i | 0 <= i < |t|
      ensures r[i].state != EMPTY ==> SameButMatches(t[i], r[i]) && !Dropped(t[i], origin, Ids(nodes))
    {
      SweptEntry(t, origin, nodes, i);
    }
    forall x | x in HeldUnder(r, origin) ensures x in IdSet(nodes) {
      var i :| 0 <= i < |r| && r[i].state != EMPTY && r[i].origin == origin && r[i].nodeId == x;
      InIds(nodes, x);
    }
  }

  // ------------------------------------------------------------ the theorems

  lemma UnderIsHeld(t: Table, origin: u64)
    ensures HeldUnder(t, origin) <= HeldIds(t)
  {
    forall x | x in HeldUnder(t, origin) ensures x in HeldIds(t) {
      var i :| 0 <= i < |t| && t[i].state != EMPTY && t[i].origin == origin && t[i].nodeId == x;
    }
  }

  /** Snapshot semantics: the ids held under the origin become exactly the
      pushed ids if and only if the table has room, and ids stay unique. */
  lemma MergeIsSnapshot(t: Table, origin: u64, nodes: seq<NodeInfo>, now: nat)
    requires WfTable(t) && UniqueIds(t) && Distinct(nodes) && NoneLocal(t, nodes) && origin != 0
    ensures var r := Merge(t, origin, nodes, now);
            && UniqueIds(r)
            && HeldUnder(r, origin) <= IdSet(nodes)
            && (HeldUnder(r, origin) == IdSet(nodes) <==> Room(t, origin, nodes))
  {
    var s := Swept(t, origin, nodes);
    SweptReady(t, origin, nodes);
    PlacedIffRoom(s, origin, nodes, now);
    HeldUnderAfterAll(s, origin, nodes, now);
    UnderIsHeld(Merge(t, origin, nodes, now), origin);
  }

  lemma MergeStamps(t: Table, origin: u64, nodes: seq<NodeInfo>, now: nat, k: nat)
    requires WfTable(t) && UniqueIds(t) && Distinct(nodes) && NoneLocal(t, nodes) && origin != 0
    requires Room(t, origin, nodes) && k < |nodes|
    ensures HasStamped(Merge(t, origin, nodes, now), origin, nodes[k], now)
  {
    var s := Swept(t, origin, nodes);
    SweptReady(t, origin, nodes);
    PlacedIffRoom(s, origin, nodes, now);
    PlacedAt(s, origin, nodes, now, k);
  }

  /** With room, every pushed node is in some entry with all its fields. */
  lemma MergeCarries(t: Table, origin: u64, nodes: seq<NodeInfo>, now: nat, k: nat)
    requires WfTable(t) && UniqueIds(t) && Distinct(nodes) && NoneLocal(t, nodes) && origin != 0
    requires Room(t, origin, nodes) && k < |nodes|
    ensures HasCarrier(Merge(t, origin, nodes, now), origin, nodes[k], now)
  {
    var r := Merge(t, origin, nodes, now);
    MergeStamps(t, origin, nodes, now, k);
    var i :| 0 <= i < |r| && Stamped(r[i], origin, nodes[k], now);
    StampedCarries(r[i], origin, nodes[k], now);
    assert Carries(r[i], origin, nodes[k], now);
  }

  /** Everything else changes only by losing its matches on nodes that were
      dropped or came back with different endpoints. */
  lemma MergeSparesOthers(t: Table, origin: u64, nodes: seq<NodeInfo>, now: nat, i: nat)
    requires WfTable(t) && UniqueIds(t) && Distinct(nodes) && NoneLocal(t, nodes) && origin != 0
    requires i < |t| && t[i].state != EMPTY && t[i].origin != origin && t[i].nodeId !in Ids(nodes)
    ensures var s, r := Swept(t, origin, nodes), Merge(t, origin, nodes, now);
            var gone := DroppedIds(t, origin, Ids(nodes)) + ChangedIds(s, origin, nodes, now);
            && SameButMatches(t[i], r[i])
            && (t[i].state != ACTIVE ==> r[i] == t[i])
            && (t[i].state == ACTIVE ==> Live(r[i]) == Filter(Live(t[i]), NotAmong(gone)))
            && ((forall k :: 0 <= k < |Live(t[i])| ==> Live(t[i])[k].nodeId !in gone) ==> r[i] == t[i])
  {
    var s := Swept(t, origin, nodes);
    var gone, changed := DroppedIds(t, origin, Ids(nodes)), ChangedIds(s, origin, nodes, now);
    SweptReady(t, origin, nodes);
    SweptEntry(t, origin, nodes, i);
    MergeNodesElsewhere(s, origin, nodes, now, i);
    ForgetAllConcat(t[i], gone, changed);
    ForgetAllLive(t[i], gone + changed);
  }

  // ---------------------------------------------------------- merging again

  function Restamped(e: NodeEntry, ids: seq<u64>, now: nat): NodeEntry {
    if e.state != EMPTY && e.nodeId in ids then e.(lastSeen := now) else e
  }

  /** A node already held as pushed is rewritten in place with a new time. */
  lemma MergeNodeAgain(t: Table, origin: u64, nodes: seq<NodeInfo>, before: nat, now: nat)
    requires Ready(t, origin, nodes) && nodes != [] && HasStamped(t, origin, nodes[0], before)
    ensures var i := HeldAt(t, nodes[0].nodeId, 0);
            && i < |t| && MergeNode(t, origin, nodes[0], now) == t[i := t[i].(lastSeen := now)]
  {
    var n := nodes[0];
    var k :| 0 <= k < |t| && Stamped(t[k], origin, n, before);
    assert Holds(t[k], n.nodeId);
    var i := HeldAt(t, n.nodeId, 0);
    assert i == k;
    StampedCarries(t[k], origin, n, before);
    assert Written(t[k], origin, n, now) == t[k].(lastSeen := now);
  }

  lemma StampedElsewhere(t: Table, origin: u64, nodes: seq<NodeInfo>, i: nat, before: nat, now: nat, k: nat)
    requires Distinct(nodes) && i < |t| && 0 < k < |nodes| && Holds(t[i], nodes[0].nodeId)
    requires HasStamped(t, origin, nodes[k], before)
    ensures HasStamped(t[i := t[i].(lastSeen := now)], origin, nodes[k], before)
  {
    var j :| 0 <= j < |t| && Stamped(t[j], origin, nodes[k], before);
    assert t[j].nodeId == nodes[k].nodeId && j != i;
    assert Stamped(t[i := t[i].(lastSeen := now)][j], origin, nodes[k], before);
  }

  lemma {:induction false} MergeNodesAgain(t: Table, origin: u64, nodes: seq<NodeInfo>, before: nat, now: nat)
    requires Ready(t, origin, nodes)
    requires forall k :: 0 <= k < |nodes| ==> HasStamped(t, origin, nodes[k], before)
    ensures forall i :: 0 <= i < |t| ==> MergeNodes(t, origin, nodes, now)[i] == Restamped(t[i], Ids(nodes), now)
    decreases |nodes|
  {
    if nodes != [] {
      var rest, i := nodes[1..], HeldAt(t, nodes[0].nodeId, 0);
      MergeNodeAgain(t, origin, nodes, before, now);
      var t' := t[i := t[i].(lastSeen := now)];
      MergeNodeReady(t, origin, nodes, now);
      forall k | 0 <= k < |rest| ensures HasStamped(t', origin, rest[k], before) {
        StampedElsewhere(t, origin, nodes, i, before, now, k + 1);
      }
      MergeNodesAgain(t', origin, rest, before, now);
      RestampedStep(t, nodes, i, now);
    }
  }

  lemma RestampedStep(t: Table, nodes: seq<NodeInfo>, i: nat, now: nat)
    requires UniqueIds(t) && Distinct(nodes) && nodes != [] && i < |t| && Holds(t[i], nodes[0].nodeId)
    ensures forall j :: 0 <= j < |t| ==>
              Restamped(t[i := t[i].(lastSeen := now)][j], Ids(nodes[1..]), now) == Restamped(t[j], Ids(nodes), now)
  {
    assert Ids(nodes) == [nodes[0].nodeId] + Ids(nodes[1..]);
    assert forall j :: 0 <= j < |t| && j != i && t[j].state != EMPTY ==> t[j].nodeId != nodes[0].nodeId;
  }

  lemma {:induction false} ForgetNone(e: NodeEntry)
    ensures ForgetAll(e, []) == e
  {
  }

  /** With room, repeating a merge changes only the time last seen of the
      origin's entries. */
  lemma MergeTwice(t: Table, origin: u64, nodes: seq<NodeInfo>, now: nat, later: nat)
    requires WfTable(t) && UniqueIds(t) && Distinct(nodes) && NoneLocal(t, nodes) && origin != 0
    requires Room(t, origin, nodes)
    ensures var r := Merge(t, origin, nodes, now);
            forall i :: 0 <= i < |r| ==>
              Merge(r, origin, nodes, later)[i]
              == if r[i].state != EMPTY && r[i].origin == origin then r[i].(lastSeen := later) else r[i]
  {
    var r := Merge(t, origin, nodes, now);
    MergeIsSnapshot(t, origin, nodes, now);
    forall k | 0 <= k < |nodes| ensures HasStamped(r, origin, nodes[k], now) {
      MergeStamps(t, origin, nodes, now, k);
    }
    MergeSettled(r, origin, nodes, now, later);
  }

  /** Merging a snapshot into a table that already shows it. */
  lemma MergeSettled(r: Table, origin: u64, nodes: seq<NodeInfo>, before: nat, later: nat)
    requires WfTable(r) && UniqueIds(r) && Distinct(nodes) && origin != 0 && HeldUnder(r, origin) <= IdSet(nodes)
    requires forall k :: 0 <= k < |nodes| ==> HasStamped(r, origin, nodes[k], before)
    ensures forall i :: 0 <= i < |r| ==>
              Merge(r, origin, nodes, later)[i]
              == if r[i].state != EMPTY && r[i].origin == origin then r[i].(lastSeen := later) else r[i]
  {
    OriginIffPushed(r, origin, nodes, before);
    NothingSwept(r, origin, nodes);
    MergeNodesAgain(r, origin, nodes, before, later);
  }

  /** Under snapshot semantics an id is pushed exactly when its entry is the origin's. */
  lemma OriginIffPushed(r: Table, origin: u64, nodes: seq<NodeInfo>, before: nat)
    requires WfTable(r) && UniqueIds(r) && Distinct(nodes) && HeldUnder(r, origin) <= IdSet(nodes)
    requires forall k :: 0 <= k < |nodes| ==> HasStamped(r, origin, nodes[k], before)
    ensures forall i :: 0 <= i < |r| && r[i].state != EMPTY ==> (r[i].nodeId in Ids(nodes) <==> r[i].origin == origin)
  {
    forall i | 0 <= i < |r| && r[i].state != EMPTY ensures r[i].nodeId in Ids(nodes) <==> r[i].origin == origin {
      if r[i].origin == origin {
        assert r[i].nodeId in HeldUnder(r, origin);
        InIds(nodes, r[i].nodeId);
      }
      if r[i].nodeId in Ids(nodes) {
        var k :| 0 <= k < |nodes| && Ids(nodes)[k] == r[i].nodeId;
        var j :| 0 <= j < |r| && Stamped(r[j], origin, nodes[k], before);
        assert r[j].nodeId == r[i].nodeId && r[j].state != EMPTY;
        assert i == j;
      }
    }
  }

  lemma {:induction false} NoDroppedIds(t: Table, origin: u64, ids: seq<u64>)
    requires forall i :: 0 <= i < |t| ==> !Dropped(t[i], origin, ids)
    ensures DroppedIds(t, origin, ids) == []
  {
    if t != [] { NoDroppedIds(t[..|t| - 1], origin, ids); }
  }

  lemma NothingSwept(r: Table, origin: u64, nodes: seq<NodeInfo>)
    requires WfTable(r)
    requires forall i :: 0 <= i < |r| && r[i].state != EMPTY ==> (r[i].nodeId in Ids(nodes) <==> r[i].origin == origin)
    ensures Swept(r, origin, nodes) == r
  {
    NoDroppedIds(r, origin, Ids(nodes));
    forall i | 0 <= i < |r| ensures Swept(r, origin, nodes)[i] == r[i] { ForgetNone(r[i]); }
  }
}
