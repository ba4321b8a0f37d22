/** Where the matches of `process_topic_updates` come from, and when the response
    generation tells a node to look at them. */
module MatchOrigins {
  import opened Bytes
  import opened SyncCodec
  import opened NodeTable
  import opened Matching

  // -------------------------------------------------------------- generations

  /** Matches were only added, and the generation moved exactly when some were. */
  predicate Tracks(e: NodeEntry, e': NodeEntry) {
    && EntryGrown(e, e') && e.responseGen <= e'.responseGen
    && (e.matchCount < e'.matchCount <==> e.responseGen < e'.responseGen)
  }

  lemma TracksTrans(a: NodeEntry, b: NodeEntry, c: NodeEntry)
    requires Tracks(a, b) && Tracks(b, c)
    ensures Tracks(a, c)
  {
    EntryGrownTrans(a, b, c);
    LiveCount(a, b);
    LiveCount(b, c);
  }

  lemma PrefixSame(a: seq<MatchEntry>, b: seq<MatchEntry>)
    requires a <= b
    ensures a == b <==> |a| == |b|
  {
  }

  /** One pair moves a generation by one, exactly when it adds a match to the entry. */
  lemma MatchPairTracks(t: Table, i: nat, j: nat, x: nat)
    requires WfTable(t) && i < |t| && j < |t| && x < |t|
    ensures Tracks(t[x], MatchPair(t, i, j)[x])
    ensures MatchPair(t, i, j)[x].responseGen
         == t[x].responseGen + if Live(MatchPair(t, i, j)[x]) == Live(t[x]) then 0 else 1
  {
    MatchPairGrows(t, i, j);
    assert EntryGrown(t[x], MatchPair(t, i, j)[x]);
    PrefixSame(Live(t[x]), Live(MatchPair(t, i, j)[x]));
  }

  lemma {:induction false} RowTracks(t: Table, i: nat, n: nat, x: nat)
    requires WfTable(t) && i < |t| && n <= |t| && x < |t|
    ensures Tracks(t[x], Row(t, i, n)[x])
  {
    if n > 0 {
      RowTracks(t, i, n - 1, x);
      MatchPairTracks(Row(t, i, n - 1), i, n - 1, x);
      TracksTrans(t[x], Row(t, i, n - 1)[x], Row(t, i, n)[x]);
    }
  }

  lemma {:induction false} AllPairsTrack(t: Table, n: nat, x: nat)
    requires WfTable(t) && n <= |t| && x < |t|
    ensures Tracks(t[x], AllPairs(t, n)[x])
  {
    if n > 0 {
      AllPairsTrack(t, n - 1, x);
      RowTracks(AllPairs(t, n - 1), n - 1, |t|, x);
      TracksTrans(t[x], AllPairs(t, n - 1)[x], AllPairs(t, n)[x]);
    }
  }

  /** An update never moves a response generation back, and moves it on exactly when
      recording pairs added a match to the entry or the clean-up dropped one. */
  lemma GenerationIff(t: Table, x: nat)
    requires WfTable(t) && x < |t|
    ensures var recorded, after := AllPairs(t, |t|)[x], Process(t)[x];
            && t[x].responseGen <= after.responseGen
            && (t[x].responseGen == after.responseGen <==>
                Live(recorded) == Live(t[x]) && Live(after) == Live(recorded))
  {
    var u, ids := AllPairs(t, |t|), ActiveIds(AllPairs(t, |t|));
    AllPairsTrack(t, |t|, x);
    PrefixSame(Live(t[x]), Live(u[x]));
    RetainIs(u[x], Among(ids));
  }

  /** A node whose generation stands still has the matches it had. */
  lemma NewMatchesAreSignalled(t: Table, x: nat)
    requires WfTable(t) && x < |t| && Live(Process(t)[x]) != Live(t[x])
    ensures t[x].responseGen < Process(t)[x].responseGen
  {
    GenerationIff(t, x);
  }

  // ------------------------------------------------------------------ origins

  /** A match on node `o` for a topic, at one of its addresses. */
  predicate PointsTo(m: MatchEntry, o: NodeEntry, hash: u64)
    requires Wf(o)
  {
    m.nodeId == o.nodeId && m.topicHash == hash && m.port == o.port && m.addr in o.addrs[..o.addrCount]
  }

  /** Publisher `i` and subscriber `j` are of one domain, both active, and some
      publication of `i` on `hash` is one that `j` takes. */
  predicate Connected(t: Table, i: nat, j: nat, hash: u64)
    requires WfTable(t) && i < |t| && j < |t|
  {
    && Eligible(t, i, j)
    && exists k :: 0 <= k < t[i].pubCount && t[i].pubs[k].head.hash == hash && Subscribed(t[j], t[i].pubs[k])
  }

  /** Entry `x` has reason to hold match `m`. */
  predicate Founded(t: Table, x: nat, m: MatchEntry)
    requires WfTable(t) && x < |t|
  {
    exists y: nat :: y < |t| && (Connected(t, x, y, m.topicHash) || Connected(t, y, x, m.topicHash))
                     && PointsTo(m, t[y], m.topicHash)
  }

  lemma {:induction false} FreshPoints(
      have: seq<MatchEntry>, id: u64, hash: u64, port: u16, addrs: seq<Addr>, m: MatchEntry)
    requires m in Fresh(have, id, hash, port, addrs)
    ensures m.nodeId == id && m.topicHash == hash && m.port == port && m.addr in addrs
  {
    var init, last := addrs[..|addrs| - 1], addrs[|addrs| - 1];
    if m in Fresh(have, id, hash, port, init) { FreshPoints(have, id, hash, port, init, m); }
  }

  lemma AddPoints(e: NodeEntry, o: NodeEntry, hash: u64, m: MatchEntry)
    requires Wf(e) && Wf(o) && m in Live(Add(e, o, hash)) && m !in Live(e)
    ensures PointsTo(m, o, hash)
  {
    var cur := e.matchCount;
    var toAdd := Min(o.addrCount, MAX_MATCHES - cur);
    var added := Fresh(e.matches[..cur], o.nodeId, hash, o.port, o.addrs[..toAdd]);
    assert Live(Add(e, o, hash)) == Live(e) + added;
    FreshPoints(e.matches[..cur], o.nodeId, hash, o.port, o.addrs[..toAdd], m);
    assert m.addr in o.addrs[..o.addrCount];
  }

  /** What `n` publications of `p` add to either side points to the other. */
  lemma {:induction false} PairPoints(p: NodeEntry, s: NodeEntry, n: nat, m: MatchEntry, toPublisher: bool)
    requires Wf(p) && Wf(s) && n <= p.pubCount
    requires var (e, e') := if toPublisher then (p, PairUpTo(p, s, n).0) else (s, PairUpTo(p, s, n).1);
             m in Live(e') && m !in Live(e)
    ensures exists k :: 0 <= k < n && p.pubs[k].head.hash == m.topicHash && Subscribed(s, p.pubs[k])
    ensures PointsTo(m, if toPublisher then s else p, m.topicHash)
  {
    var (p1, s1) := PairUpTo(p, s, n - 1);
    if m in Live(if toPublisher then p1 else s1) {
      PairPoints(p, s, n - 1, m, toPublisher);
    } else {
      var hash := p.pubs[n - 1].head.hash;
      if toPublisher { AddPoints(p1, s1, hash, m); } else { AddPoints(s1, p1, hash, m); }
    }
  }

  lemma MatchPairFounded(t: Table, i: nat, j: nat, x: nat, m: MatchEntry)
    requires WfTable(t) && i < |t| && j < |t| && x < |t|
    requires m in Live(MatchPair(t, i, j)[x]) && m !in Live(t[x])
    ensures Founded(t, x, m)
  {
    PairPoints(t[i], t[j], t[i].pubCount, m, x == i);
    assert Connected(t, i, j, m.topicHash);
    assert PointsTo(m, t[Other(i, j, x)], m.topicHash);
  }

  /** Reasons do not depend on matches. */
  lemma ConnectedStatic(t: Table, u: Table, i: nat, j: nat, hash: u64)
    requires WfTable(t) && WfTable(u) && |t| == |u| && i < |t| && j < |t|
    requires SameButMatches(t[i], u[i]) && SameButMatches(t[j], u[j]) && Connected(u, i, j, hash)
    ensures Connected(t, i, j, hash)
  {
    var k :| 0 <= k < u[i].pubCount && u[i].pubs[k].head.hash == hash && Subscribed(u[j], u[i].pubs[k]);
    assert Subscribed(t[j], t[i].pubs[k]);
  }

  lemma FoundedStatic(t: Table, u: Table, x: nat, m: MatchEntry)
    requires WfTable(t) && WfTable(u) && Grown(t, u) && x < |t| && Founded(u, x, m)
    ensures Founded(t, x, m)
  {
    var y: nat :| y < |u| && (Connected(u, x, y, m.topicHash) || Connected(u, y, x, m.topicHash))
                  && PointsTo(m, u[y], m.topicHash);
    assert EntryGrown(t[x], u[x]) && EntryGrown(t[y], u[y]);
    if Connected(u, x, y, m.topicHash) {
      ConnectedStatic(t, u, x, y, m.topicHash);
    } else {
      ConnectedStatic(t, u, y, x, m.topicHash);
    }
    assert PointsTo(m, t[y], m.topicHash);
  }

  lemma GrownRow(t: Table, i: nat, n: nat)
    requires WfTable(t) && i < |t| && n <= |t|
    ensures Grown(t, Row(t, i, n))
  {
    RowGrows(t, i, 0, n);
  }

  lemma RowStepFounded(t: Table, u: Table, i: nat, j: nat, x: nat, m: MatchEntry)
    requires WfTable(t) && WfTable(u) && Grown(t, u) && i < |t| && j < |t| && x < |t|
    requires m in Live(MatchPair(u, i, j)[x]) && m !in Live(u[x])
    ensures Founded(t, x, m)
  {
    MatchPairFounded(u, i, j, x, m);
    FoundedStatic(t, u, x, m);
  }

  lemma {:induction false} RowFounded(t: Table, i: nat, n: nat, x: nat, m: MatchEntry)
    requires WfTable(t) && i < |t| && n <= |t| && x < |t| && m !in Live(t[x])
    ensures m in Live(Row(t, i, n)[x]) ==> Founded(t, x, m)
  {
    if n > 0 && m in Live(Row(t, i, n)[x]) {
      RowFounded(t, i, n - 1, x, m);
      if m !in Live(Row(t, i, n - 1)[x]) {
        GrownRow(t, i, n - 1);
        RowStepFounded(t, Row(t, i, n - 1), i, n - 1, x, m);
      }
    }
  }

  lemma {:induction false} AllPairsFounded(t: Table, n: nat, x: nat, m: MatchEntry)
    requires WfTable(t) && n <= |t| && x < |t|
    requires m in Live(AllPairs(t, n)[x]) && m !in Live(t[x])
    ensures Founded(t, x, m)
  {
    var u := AllPairs(t, n - 1);
    if m in Live(u[x]) {
      AllPairsFounded(t, n - 1, x, m);
    } else {
      RowFounded(u, n - 1, |t|, x, m);
      AllPairsGrows(t, 0, n - 1);
      FoundedStatic(t, u, x, m);
    }
  }

  /** Every match an update adds carries id, port and address of an active node of the same
      domain with which the entry has a compatible publication and subscription. */
  lemma AddedIsFounded(t: Table, x: nat, m: MatchEntry)
    requires WfTable(t) && x < |t| && m in Live(Process(t)[x]) && m !in Live(t[x])
    ensures Founded(t, x, m)
  {
    var u, ids := AllPairs(t, |t|), ActiveIds(AllPairs(t, |t|));
    RetainLive(u[x], Among(ids));
    FilterKeeps(Live(u[x]), Among(ids));
    AllPairsFounded(t, |t|, x, m);
  }

  /** And an update drops only matches on nodes that are not active. */
  lemma DroppedIsDead(t: Table, x: nat, m: MatchEntry)
    requires WfTable(t) && x < |t| && m in Live(t[x]) && m !in Live(Process(t)[x])
    ensures t[x].state == ACTIVE && !NamesActiveNode(t, m)
  {
    var u, ids := AllPairs(t, |t|), ActiveIds(AllPairs(t, |t|));
    AllPairsGrowsAt(t, 0, |t|, x);
    RetainLive(u[x], Among(ids));
    FilterKeeps(Live(u[x]), Among(ids));
    if NamesActiveNode(t, m) {
      var i :| 0 <= i < |t| && t[i].state == ACTIVE && t[i].nodeId == m.nodeId;
      AllPairsGrowsAt(t, 0, |t|, i);
    }
  }
}
