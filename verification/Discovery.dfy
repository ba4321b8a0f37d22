/** `ShmDiscovery` and the graph operations that edit its table in place. */
module Discovery {
  import opened Bytes
  import opened Wrappers
  import opened Codec
  import opened SyncCodec
  import opened NodeTable
  import opened PeerMerge
  import opened GraphSync
  import opened Matching
  import SyncWire

  class ShmDiscovery {
    const table: array<NodeEntry>
    var generation: nat

    ghost predicate Valid()
      reads this, table
    {
      WfTable(table[..])
    }

    /** A zeroed table. */
    constructor (maxNodes: nat)
      ensures Valid() && fresh(table) && generation == 0
      ensures table.Length == maxNodes && forall i :: 0 <= i < maxNodes ==> table[i] == Cleared()
    {
      table := new NodeEntry[maxNodes](_ => Cleared());
      generation := 0;
    }

    /** `claim_free_slot`: the first empty slot, moved to Claiming. */
    method ClaimFreeSlot() returns (slot: nat)
      requires Valid()
      modifies table
      ensures Valid() && slot == FreeAt(old(table[..]), 0)
      ensures slot < table.Length ==> table[..] == old(table[..])[slot := old(table[slot]).(state := CLAIMING)]
      ensures slot == table.Length ==> table[..] == old(table[..])
      ensures slot <= table.Length && (slot < table.Length ==> old(table[slot]).state == EMPTY)
      ensures forall j :: 0 <= j < slot ==> old(table[j]).state != EMPTY
    {
      slot := 0;
      while slot < table.Length && table[slot].state != EMPTY
        invariant slot <= table.Length && FreeAt(table[..], slot) == FreeAt(table[..], 0)
      {
        slot := slot + 1;
      }
      if slot < table.Length { table[slot] := table[slot].(state := CLAIMING); }
    }

    /** `remove_matches_for_node` */
    method RemoveMatchesForNode(id: u64)
      requires Valid()
      modifies table
      ensures Valid() && table[..] == ForgetIn(old(table[..]), [id])
    {
      ghost var t := table[..];
      for i := 0 to table.Length
        invariant forall x :: 0 <= x < i ==> table[x] == ForgetAll(t[x], [id])
        invariant forall x :: i <= x < table.Length ==> table[x] == t[x]
      {
        ForgetOne(t[i], id);
        if table[i].state == ACTIVE {
          var r := RetainInPlace(table[i], NotNode(id));
          table[i] := r;
        }
      }
      assert table[..] == ForgetIn(t, [id]);
    }

    /** One entry of the first pass of the merge. */
    method ClearOne(i: nat, origin: u64, ids: seq<u64>) returns (gone: seq<u64>)
      requires Valid() && i < table.Length
      modifies table
      ensures Valid() && table[i] == if Dropped(old(table[i]), origin, ids) then Cleared() else old(table[i])
      ensures forall x :: 0 <= x < table.Length && x != i ==> table[x] == old(table[x])
      ensures gone == if Dropped(old(table[i]), origin, ids) && old(table[i]).nodeId != 0
                      then [old(table[i]).nodeId] else []
    {
      gone := [];
      var e := table[i];
      var stale := e.origin == origin && e.nodeId !in ids;
      var duplicate := e.origin != 0 && e.origin != origin && e.nodeId in ids;
      if e.state != EMPTY && (stale || duplicate) {
        table[i] := Cleared();
        if e.nodeId != 0 { gone := [e.nodeId]; }
      }
    }

    static lemma DroppedIdsNext(t: Table, i: nat, origin: u64, ids: seq<u64>)
      requires i < |t|
      ensures DroppedIds(t[..i + 1], origin, ids) == DroppedIds(t[..i], origin, ids)
              + if Dropped(t[i], origin, ids) && t[i].nodeId != 0 then [t[i].nodeId] else []
    {
      assert t[..i + 1][..i] == t[..i];
    }

    /** First pass of the merge: clear stale and duplicate entries. */
    method ClearStale(origin: u64, ids: seq<u64>) returns (gone: seq<u64>)
      requires Valid()
      modifies table
      ensures Valid() && table[..] == DropStale(old(table[..]), origin, ids)
      ensures gone == DroppedIds(old(table[..]), origin, ids)
    {
      gone := [];
      ghost var t := table[..];
      for i := 0 to table.Length
        invariant Valid()
        invariant forall x :: 0 <= x < i ==> table[x] == if Dropped(t[x], origin, ids) then Cleared() else t[x]
        invariant forall x :: i <= x < table.Length ==> table[x] == t[x]
        invariant gone == DroppedIds(t[..i], origin, ids)
      {
        DroppedIdsNext(t, i, origin, ids);
        var more := ClearOne(i, origin, ids);
        gone := gone + more;
      }
      assert t[..table.Length] == t;
      assert table[..] == DropStale(t, origin, ids);
    }

    method ForgetNodes(ids: seq<u64>)
      requires Valid()
      modifies table
      ensures Valid() && table[..] == ForgetIn(old(table[..]), ids)
    {
      ghost var t := table[..];
      assert table[..] == ForgetIn(t, []) by {
        forall i | 0 <= i < |t| ensures ForgetAll(t[i], []) == t[i] { ForgetNone(t[i]); }
      }
      for k := 0 to |ids|
        invariant Valid() && table[..] == ForgetIn(t, ids[..k])
      {
        RemoveMatchesForNode(ids[k]);
        forall i | 0 <= i < |t| ensures table[i] == ForgetAll(t[i], ids[..k + 1]) {
          ForgetOne(ForgetAll(t[i], ids[..k]), ids[k]);
          ForgetAllAppend(t[i], ids[..k], ids[k]);
          assert ids[..k + 1] == ids[..k] + [ids[k]];
        }
        assert table[..] == ForgetIn(t, ids[..k + 1]);
      }
      assert ids[..|ids|] == ids;
    }

    method FindHeld(id: u64) returns (i: nat)
      requires Valid()
      ensures i == HeldAt(table[..], id, 0)
    {
      i := 0;
      while i < table.Length && !Holds(table[i], id)
        invariant i <= table.Length && HeldAt(table[..], id, i) == HeldAt(table[..], id, 0)
      {
        i := i + 1;
      }
    }

    method FindFree() returns (i: nat)
      requires Valid()
      ensures i == FreeAt(table[..], 0)
    {
      i := 0;
      while i < table.Length && table[i].state != EMPTY
        invariant i <= table.Length && FreeAt(table[..], i) == FreeAt(table[..], 0)
      {
        i := i + 1;
      }
    }

    /** Place one pushed node; false when the table is full. */
    method PlaceNode(origin: u64, n: NodeInfo, now: nat) returns (placed: bool)
      requires Valid()
      modifies table
      ensures Valid()
      ensures placed == (SlotFor(old(table[..]), n.nodeId) < table.Length)
      ensures table[..] == if placed then MergeNode(old(table[..]), origin, n, now) else old(table[..])
    {
      var held := FindHeld(n.nodeId);
      var i := held;
      if held == table.Length {
        i := FindFree();
        if i == table.Length { return false; }
      }
      if held < table.Length && !EndpointsMatch(table[held], n) { RemoveMatchesForNode(n.nodeId); }
      if held == table.Length { table[i] := Cleared(); }
      table[i] := Written(table[i], origin, n, now);
      return true;
    }

    method PlaceNodes(origin: u64, nodes: seq<NodeInfo>, now: nat)
      requires Valid()
      modifies table
      ensures Valid() && table[..] == MergeNodes(old(table[..]), origin, nodes, now)
    {
      var k := 0;
      assert nodes[0..] == nodes;
      while k < |nodes|
        invariant k <= |nodes| && Valid()
        invariant MergeNodes(old(table[..]), origin, nodes, now) == MergeNodes(table[..], origin, nodes[k..], now)
        decreases |nodes| - k
      {
        assert nodes[k..][0] == nodes[k] && nodes[k..][1..] == nodes[k + 1..];
        var placed := PlaceNode(origin, nodes[k], now);
        if !placed { break; }
        k := k + 1;
      }
    }

    /** `merge_remote_nodes` */
    method MergeRemoteNodes(origin: u64, nodes: seq<NodeInfo>, now: nat)
      requires Valid()
      modifies this`generation, table
      ensures Valid() && table[..] == Merge(old(table[..]), origin, nodes, now)
      ensures generation == old(generation) + (if origin == 0 then 0 else 1)
    {
      if origin == 0 { return; }
      var gone := ClearStale(origin, Ids(nodes));
      ForgetNodes(gone);
      PlaceNodes(origin, nodes, now);
      generation := generation + 1;
    }

    /** One direction of one publication: matches in `e` on every address of `other`. */
    static method AddInPlace(e: NodeEntry, other: NodeEntry, hash: u64) returns (r: NodeEntry)
      requires Wf(e) && Wf(other)
      ensures r == Add(e, other, hash)
    {
      var cur := e.matchCount;
      var toAdd := Min(other.addrCount, MAX_MATCHES - cur);
      var ms, added := e.matches, 0;
      ghost var addrs, news: seq<MatchEntry> := other.addrs[..toAdd], [];
      assert addrs[..0] == [] && ms == With(e.matches, cur, []);
      for k := 0 to toAdd
        invariant news == Fresh(e.matches[..cur], other.nodeId, hash, other.port, addrs[..k])
        invariant added == |news| <= k && ms == With(e.matches, cur, news)
      {
        var addr := other.addrs[k];
        FreshNext(e.matches[..cur], other, hash, addrs, k);
        WithFront(e.matches, cur, news);
        if !Recorded(ms[..cur], other.nodeId, hash, addr) {
          var m := MatchEntry(other.nodeId, hash, other.port, addr);
          WithNext(e.matches, cur, news, m);
          ms, news := ms[cur + added := m], news + [m];
          added := added + 1;
        }
      }
      assert addrs[..toAdd] == addrs;
      AddIs(e, other, hash, news);
      if added > 0 { return e.(matches := ms, matchCount := cur + added); }
      return e;
    }

    static lemma FreshNext(have: seq<MatchEntry>, other: NodeEntry, hash: u64, addrs: seq<Addr>, k: nat)
      requires k < |addrs|
      ensures Fresh(have, other.nodeId, hash, other.port, addrs[..k + 1])
           == Fresh(have, other.nodeId, hash, other.port, addrs[..k])
              + if Recorded(have, other.nodeId, hash, addrs[k]) then []
                else [MatchEntry(other.nodeId, hash, other.port, addrs[k])]
    {
      assert addrs[..k + 1][..k] == addrs[..k];
    }

    /** The array with `news` written from `cur` on. */
    static ghost function With(ms: seq<MatchEntry>, cur: nat, news: seq<MatchEntry>): (r: seq<MatchEntry>)
      requires cur + |news| <= |ms|
      ensures |r| == |ms|
    {
      ms[..cur] + news + ms[cur + |news|..]
    }

    static lemma AddIs(e: NodeEntry, other: NodeEntry, hash: u64, news: seq<MatchEntry>)
      requires Wf(e) && Wf(other)
      requires var toAdd := Min(other.addrCount, MAX_MATCHES - e.matchCount);
               news == Fresh(e.matches[..e.matchCount], other.nodeId, hash, other.port, other.addrs[..toAdd])
      ensures |news| <= MAX_MATCHES - e.matchCount
      ensures Add(e, other, hash)
           == e.(matches := With(e.matches, e.matchCount, news), matchCount := e.matchCount + |news|)
      ensures news == [] ==> Add(e, other, hash) == e
    {
      assert With(e.matches, e.matchCount, []) == e.matches;
    }

    static lemma WithFront(ms: seq<MatchEntry>, cur: nat, news: seq<MatchEntry>)
      requires cur + |news| <= |ms|
      ensures With(ms, cur, news)[..cur] == ms[..cur]
    {
    }

    static lemma WithNext(ms: seq<MatchEntry>, cur: nat, news: seq<MatchEntry>, m: MatchEntry)
      requires cur + |news| < |ms|
      ensures With(ms, cur, news)[cur + |news| := m] == With(ms, cur, news + [m])
    {
    }

    /** One publisher entry against one subscriber entry, publication by publication. */
    static method PairInPlace(p0: NodeEntry, s0: NodeEntry) returns (p: NodeEntry, s: NodeEntry)
      requires Wf(p0) && Wf(s0)
      ensures (p, s) == Pair(p0, s0)
    {
      p, s := p0, s0;
      var pChanged, sChanged := false, false;
      for k := 0 to p0.pubCount
        invariant (p, s) == PairUpTo(p0, s0, k)
        invariant pChanged == (p.matchCount > p0.matchCount) && sChanged == (s.matchCount > s0.matchCount)
      {
        var t := p.pubs[k];
        assert Subscribed(s, t) == Subscribed(s0, t);
        if Subscribed(s, t) {
          var s1 := AddInPlace(s, p, t.head.hash);
          if s1.matchCount > s.matchCount { sChanged := true; }
          var p1 := AddInPlace(p, s, t.head.hash);
          if p1.matchCount > p.matchCount { pChanged := true; }
          p, s := p1, s1;
        }
      }
      if sChanged { s := s.(responseGen := s.responseGen + 1); }
      if pChanged { p := p.(responseGen := p.responseGen + 1); }
    }

    method MatchRow(i: nat)
      requires Valid() && i < table.Length
      modifies table
      ensures Valid() && table[..] == Row(old(table[..]), i, table.Length)
    {
      for j := 0 to table.Length
        invariant Valid() && table[..] == Row(old(table[..]), i, j)
      {
        if Eligible(table[..], i, j) {
          var p, s := PairInPlace(table[i], table[j]);
          table[i], table[j] := p, s;
        }
      }
    }

    method CollectActiveIds() returns (ids: seq<u64>)
      requires Valid()
      ensures ids == ActiveIds(table[..])
    {
      ids := [];
      for k := 0 to table.Length
        invariant ids == ActiveIds(table[..k])
      {
        assert table[..k + 1][..k] == table[..k];
        if table[k].state == ACTIVE && table[k].nodeId != 0 { ids := ids + [table[k].nodeId]; }
      }
      assert table[..table.Length] == table[..];
    }

    /** Second half of the update: drop matches on nodes that are not active. */
    method CleanOne(k: nat, ids: seq<u64>)
      requires Valid() && k < table.Length
      modifies table
      ensures Valid() && table[k] == CleanEntry(old(table[k]), ids)
      ensures forall x :: 0 <= x < table.Length && x != k ==> table[x] == old(table[x])
    {
      if table[k].state == ACTIVE {
        var r := RetainInPlace(table[k], Among(ids));
        table[k] := r;
      }
    }

    method DropDeadMatches()
      requires Valid()
      modifies table
      ensures Valid() && table[..] == Cleanup(old(table[..]))
    {
      ghost var u := table[..];
      var ids := CollectActiveIds();
      for k := 0 to table.Length
        invariant Valid()
        invariant forall x :: 0 <= x < k ==> table[x] == CleanEntry(u[x], ids)
        invariant forall x :: k <= x < table.Length ==> table[x] == u[x]
      {
        CleanOne(k, ids);
      }
      assert table[..] == Cleanup(u);
    }

    /** `process_topic_updates` */
    method ProcessTopicUpdates()
      requires Valid()
      modifies table
      ensures Valid() && table[..] == Process(old(table[..]))
    {
      for i := 0 to table.Length
        invariant Valid() && table[..] == AllPairs(old(table[..]), i)
      {
        MatchRow(i);
      }
      DropDeadMatches();
    }

    /** `collect_domain_nodes` */
    method CollectDomainNodes(domain: u32, alive: (u32, u64) -> bool) returns (nodes: seq<NodeInfo>)
      requires Valid()
      ensures nodes == Collect(table[..], domain, alive)
    {
      nodes := [];
      for i := 0 to table.Length
        invariant nodes == Collect(table[..i], domain, alive)
      {
        var e := table[i];
        assert table[..i + 1][..i] == table[..i];
        if e.state != ACTIVE || e.domainId != domain || e.origin != 0 { continue; }
        if e.pid > 0 && !alive(e.pid, e.startTime) { continue; }
        nodes := nodes + [NodeToInfo(e)];
      }
      assert table[..table.Length] == table[..];
    }

    /** The payload carries the nodes of a peer with an identity. */
    static predicate Merges(data: seq<byte>) {
      && data != [] && data[0] == MSG_SYNC_REQUEST && DecodeRequest(data).Success? && DecodePush(data).Success?
      && DecodePush(data).value.Some? && DecodePush(data).value.value.0 != 0
    }

    /** `handle_sync_payload` */
    method HandleSyncPayload(data: seq<byte>, now: nat, alive: (u32, u64) -> bool) returns (reply: Reply)
      requires Valid()
      modifies this`generation, table
      ensures Valid() && (table[..], reply) == Handle(old(table[..]), data, now, alive)
      ensures generation == old(generation) + if Merges(data) then 1 else 0
    {
      if data == [] { return Response([]); }
      if data[0] == MSG_SYNC_REQUEST {
        var domain := DecodeRequest(data);
        if domain.Failure? { return Rejected; }
        var push := SyncWire.DecodeSyncRequestPush(data);
        if push.Failure? { return Rejected; }
        if push.value.Some? {
          MergeRemoteNodes(push.value.value.0, push.value.value.1, now);
        }
        var nodes := CollectDomainNodes(domain.value, alive);
        var bytes := SyncWire.EncodeSyncResponse(domain.value, nodes);
        return Response(bytes);
      }
      if data[0] == MSG_PING { return Response([MSG_PONG]); }
      return Rejected;
    }
  }
}
