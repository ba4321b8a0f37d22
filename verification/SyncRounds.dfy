/** One round of graph exchange: what merging a reply leaves in the table
    (`axon_daemon.rs`), and that request and reply carry the two graphs across any network. */
module SyncRounds {
  import opened Bytes
  import opened SyncCodec
  import opened NodeTable
  import opened PeerMerge
  import opened GraphSync
  import opened Provenance

  // ------------------------------------------------------------- merging a reply

  /** Some entry shows the node under the origin, seen just now. */
  predicate Shown(t: Table, origin: u64, n: NodeInfo, now: nat)
    requires WfTable(t)
  {
    exists i :: 0 <= i < |t| && Shows(t[i], Export(origin, n)) && t[i].lastSeen == now && t[i].pid == 0
  }

  predicate Full(t: Table) { forall i :: 0 <= i < |t| ==> t[i].state != EMPTY }

  /** Away from its slot a listed node costs others at most their matches on it. */
  lemma AbsorbNodeElsewhere(t: Table, origin: u64, n: NodeInfo, now: nat, i: nat)
    requires WfTable(t) && i < |t| && i != SlotFor(t, n.nodeId)
    ensures var e := AbsorbNode(t, origin, n, now)[i];
            && SameButMatches(t[i], e)
            && (forall m :: m in Live(e) ==> m in Live(t[i]))
            && (forall m :: m in Live(t[i]) && m.nodeId != n.nodeId ==> m in Live(e))
  {
    ForgetAllLive(t[i], [n.nodeId]);
    FilterKeeps(Live(t[i]), NotAmong([n.nodeId]));
  }

  lemma AbsorbNodeHere(t: Table, origin: u64, n: NodeInfo, now: nat)
    requires WfTable(t)
    ensures Shown(AbsorbNode(t, origin, n, now), origin, n, now) || (Full(t) && AbsorbNode(t, origin, n, now) == t)
  {
    var i := SlotFor(t, n.nodeId);
    if i < |t| {
      ForgetAllLive(t[i], [n.nodeId]);
      assert Shows(AbsorbNode(t, origin, n, now)[i], Export(origin, n));
    }
  }

  /** What is shown, and that there is no room, outlast the other listed nodes. */
  lemma AbsorbNodeKeeps(t: Table, origin: u64, n: NodeInfo, now: nat, other: NodeInfo)
    requires WfTable(t) && n.nodeId != other.nodeId
    ensures Shown(t, origin, other, now) ==> Shown(AbsorbNode(t, origin, n, now), origin, other, now)
    ensures Full(t) ==> Full(AbsorbNode(t, origin, n, now))
  {
    var t', k := AbsorbNode(t, origin, n, now), SlotFor(t, n.nodeId);
    if Full(t) {
      forall i | 0 <= i < |t| ensures t'[i].state != EMPTY {
        if i != k { AbsorbNodeElsewhere(t, origin, n, now, i); }
      }
    }
    if Shown(t, origin, other, now) {
      var i :| 0 <= i < |t| && Shows(t[i], Export(origin, other)) && t[i].lastSeen == now && t[i].pid == 0;
      AbsorbNodeElsewhere(t, origin, n, now, i);
      assert Shows(t'[i], Export(origin, other));
    }
  }

  lemma {:induction false} AbsorbNodesShow(t: Table, origin: u64, nodes: seq<NodeInfo>, now: nat, k: nat)
    requires WfTable(t) && Distinct(nodes) && k < |nodes|
    ensures var r := AbsorbNodes(t, origin, nodes, now); Shown(r, origin, nodes[k], now) || Full(r)
  {
    var init, last := nodes[..|nodes| - 1], nodes[|nodes| - 1];
    var u := AbsorbNodes(t, origin, init, now);
    if k < |init| {
      AbsorbNodesShow(t, origin, init, now, k);
      AbsorbNodeKeeps(u, origin, last, now, nodes[k]);
    } else {
      AbsorbNodeHere(u, origin, last, now);
    }
  }

  /** Every listed node is shown under its daemon afterwards, unless the table is full. */
  lemma AbsorbShows(t: Table, origin: u64, nodes: seq<NodeInfo>, now: nat, k: nat)
    requires WfTable(t) && Distinct(nodes) && k < |nodes|
    ensures var r := Absorb(t, origin, nodes, now); Shown(r, origin, nodes[k], now) || Full(r)
  {
    var kept := ForgetIn(DropUnlisted(t, origin, Ids(nodes)), UnlistedIds(t, origin, Ids(nodes)));
    AbsorbNodesShow(kept, origin, nodes, now, k);
  }

  predicate OnlyListed(t: Table, origin: u64, ids: seq<u64>) {
    forall i :: 0 <= i < |t| && t[i].state != EMPTY && t[i].origin == origin ==> t[i].nodeId in ids
  }

  lemma {:induction false} AbsorbNodesList(t: Table, origin: u64, nodes: seq<NodeInfo>, now: nat, ids: seq<u64>)
    requires WfTable(t) && OnlyListed(t, origin, ids) && forall k :: 0 <= k < |nodes| ==> nodes[k].nodeId in ids
    ensures OnlyListed(AbsorbNodes(t, origin, nodes, now), origin, ids)
  {
    if nodes != [] {
      var init, last := nodes[..|nodes| - 1], nodes[|nodes| - 1];
      AbsorbNodesList(t, origin, init, now, ids);
      var u := AbsorbNodes(t, origin, init, now);
      forall i | 0 <= i < |t| && i != SlotFor(u, last.nodeId)
        ensures SameButMatches(u[i], AbsorbNode(u, origin, last, now)[i])
      {
        AbsorbNodeElsewhere(u, origin, last, now, i);
      }
    }
  }

  /** And what is held under that daemon afterwards is listed. */
  lemma AbsorbLists(t: Table, origin: u64, nodes: seq<NodeInfo>, now: nat)
    requires WfTable(t)
    ensures OnlyListed(Absorb(t, origin, nodes, now), origin, Ids(nodes))
  {
    var t1, gone := DropUnlisted(t, origin, Ids(nodes)), UnlistedIds(t, origin, Ids(nodes));
    forall i | 0 <= i < |t| ensures SameButMatches(t1[i], ForgetIn(t1, gone)[i]) { ForgetAllLive(t1[i], gone); }
    AbsorbNodesList(ForgetIn(t1, gone), origin, nodes, now, Ids(nodes));
  }

  lemma {:induction false} AbsorbNodesSpare(t: Table, origin: u64, nodes: seq<NodeInfo>, now: nat, i: nat)
    requires WfTable(t) && i < |t| && t[i].state != EMPTY && t[i].nodeId !in Ids(nodes)
    ensures var e := AbsorbNodes(t, origin, nodes, now)[i];
            && SameButMatches(t[i], e)
            && (forall m :: m in Live(e) ==> m in Live(t[i]))
            && (forall m :: m in Live(t[i]) && m.nodeId !in Ids(nodes) ==> m in Live(e))
  {
    if nodes != [] {
      var init, last := nodes[..|nodes| - 1], nodes[|nodes| - 1];
      IdsSnoc(nodes);
      AbsorbNodesSpare(t, origin, init, now, i);
      AbsorbNodeElsewhere(AbsorbNodes(t, origin, init, now), origin, last, now, i);
    }
  }

  lemma IdsSnoc(nodes: seq<NodeInfo>)
    requires nodes != []
    ensures forall id :: id in Ids(nodes) <==> id in Ids(nodes[..|nodes| - 1]) || id == nodes[|nodes| - 1].nodeId
  {
    var ids, rest := Ids(nodes), Ids(nodes[..|nodes| - 1]);
    assert forall k :: 0 <= k < |rest| ==> ids[k] == rest[k];
    assert ids[|rest|] == nodes[|nodes| - 1].nodeId;
  }

  /** Everything else only loses matches, on nodes no longer listed or listed anew. */
  lemma AbsorbSpares(t: Table, origin: u64, nodes: seq<NodeInfo>, now: nat, i: nat)
    requires WfTable(t) && i < |t| && t[i].state != EMPTY && t[i].origin != origin && t[i].nodeId !in Ids(nodes)
    ensures var e := Absorb(t, origin, nodes, now)[i];
            && SameButMatches(t[i], e)
            && (forall m :: m in Live(e) ==> m in Live(t[i]))
            && (forall m :: m in Live(t[i]) && m.nodeId !in Ids(nodes) + UnlistedIds(t, origin, Ids(nodes)) ==>
                  m in Live(e))
  {
    var gone := UnlistedIds(t, origin, Ids(nodes));
    var t1 := DropUnlisted(t, origin, Ids(nodes));
    ForgetAllLive(t[i], gone);
    FilterKeeps(Live(t[i]), NotAmong(gone));
    AbsorbNodesSpare(ForgetIn(t1, gone), origin, nodes, now, i);
  }

  ghost predicate UnlistsNode(t: Table, origin: u64, ids: seq<u64>, id: u64) {
    id != 0 && exists i :: 0 <= i < |t| && Unlisted(t[i], origin, ids) && t[i].nodeId == id
  }

  lemma {:induction false} UnlistedIdsExact(t: Table, origin: u64, ids: seq<u64>, id: u64)
    ensures id in UnlistedIds(t, origin, ids) <==> UnlistsNode(t, origin, ids, id)
  {
    if t != [] {
      var init, last := t[..|t| - 1], t[|t| - 1];
      UnlistedIdsExact(init, origin, ids, id);
      assert forall i :: 0 <= i < |init| ==> init[i] == t[i];
      if Unlisted(last, origin, ids) && last.nodeId == id { assert t[|t| - 1] == last; }
    }
  }

  // ------------------------------------------------------------------- one round

  function Push(s: Net, ids: seq<u64>, f: nat, domain: u32, alive: Alive): seq<byte>
    requires f < |s.tables| == |ids| && WfTable(s.tables[f])
  {
    EncodePush(domain, ids[f], Collect(s.tables[f], domain, alive))
  }

  /** Asking sends the daemon's own graph. */
  lemma AskSends(s: Net, ids: seq<u64>, f: nat, domain: u32, alive: Alive)
    requires Inv(s, ids) && f < |s.tables|
    ensures Enabled(s, Ask(f, domain, alive))
    ensures var s' := Next(s, ids, Ask(f, domain, alive));
            Request(Push(s, ids, f, domain, alive)) in s'.wire && s'.tables == s.tables
  {
  }

  /** Serving a request merges exactly the nodes the asker had when it asked, however long
      ago, and answers with the server's own. */
  lemma ServeMerges(s: Net, ids: seq<u64>, d: nat, domain: u32, id: u64, nodes: seq<NodeInfo>, now: nat, alive: Alive)
    requires Inv(s, ids) && d < |s.tables| && NodesFit(nodes) && Request(EncodePush(domain, id, nodes)) in s.wire
    ensures Enabled(s, Serve(d, Request(EncodePush(domain, id, nodes)), now, alive))
    ensures var s' := Next(s, ids, Serve(d, Request(EncodePush(domain, id, nodes)), now, alive));
            && s'.tables == s.tables[d := Merge(s.tables[d], id, nodes, now)]
            && Answer(d, EncodeResponse(domain, Collect(Merge(s.tables[d], id, nodes, now), domain, alive))) in s'.wire
  {
    ServedAs(s, ids, Serve(d, Request(EncodePush(domain, id, nodes)), now, alive), domain, id, nodes);
  }

  /** Learning an answer merges exactly the nodes the server gave. */
  lemma LearnMerges(s: Net, ids: seq<u64>, f: nat, d: nat, domain: u32, nodes: seq<NodeInfo>, now: nat)
    requires Inv(s, ids) && f < |s.tables| && d < |ids| && NodesFit(nodes)
    requires Answer(d, EncodeResponse(domain, nodes)) in s.wire
    ensures Enabled(s, Learn(f, Answer(d, EncodeResponse(domain, nodes)), now))
    ensures Next(s, ids, Learn(f, Answer(d, EncodeResponse(domain, nodes)), now))
         == s.(tables := s.tables[f := Absorb(s.tables[f], ids[d], nodes, now)])
  {
    ResponseRoundTripIff(domain, nodes);
  }

  /** From every reachable state, one round between any two daemons brings each the local
      active nodes of the other: the server holds the asker's as merged from its push, the
      asker the server's as merged from the reply, and nobody else is touched. */
  lemma RoundCompletes(states: seq<Net>, ids: seq<u64>, actions: seq<Action>, f: nat, d: nat, domain: u32, now: nat,
                       alive: Alive)
    returns (s1: Net, s2: Net, s3: Net, ask: Action, serve: Action, learn: Action)
    requires Run(states, ids, actions) && f < |ids| && d < |ids| && f != d
    ensures var s := states[|actions|];
            && Inv(s, ids) && Enabled(s, ask) && s1 == Next(s, ids, ask)
            && Inv(s1, ids) && Enabled(s1, serve) && s2 == Next(s1, ids, serve)
            && Inv(s2, ids) && Enabled(s2, learn) && s3 == Next(s2, ids, learn)
    ensures var s := states[|actions|];
            && |s3.tables| == |s.tables| == |ids|
            && WfTable(s.tables[f]) && WfTable(s.tables[d]) && WfTable(s3.tables[d])
            && s3.tables[d] == Merge(s.tables[d], ids[f], Collect(s.tables[f], domain, alive), now)
            && s3.tables[f] == Absorb(s.tables[f], ids[d], Collect(s3.tables[d], domain, alive), now)
            && forall e :: 0 <= e < |ids| && e != f && e != d ==> s3.tables[e] == s.tables[e]
  {
    var s := states[|actions|];
    RunOk(states, ids, actions, |actions|);
    var nodes := Collect(s.tables[f], domain, alive);
    CollectedFits(s.history, s.tables[f], domain, alive);
    ask := Ask(f, domain, alive);
    AskSends(s, ids, f, domain, alive);
    s1 := Next(s, ids, ask);
    NextOk(s, ids, ask);
    serve := Serve(d, Request(EncodePush(domain, ids[f], nodes)), now, alive);
    ServeMerges(s1, ids, d, domain, ids[f], nodes, now, alive);
    s2 := Next(s1, ids, serve);
    NextOk(s1, ids, serve);
    var own := Collect(s2.tables[d], domain, alive);
    CollectedFits(s2.history, s2.tables[d], domain, alive);
    learn := Learn(f, Answer(d, EncodeResponse(domain, own)), now);
    LearnMerges(s2, ids, f, d, domain, own, now);
    s3 := Next(s2, ids, learn);
  }
}
