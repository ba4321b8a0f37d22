/** `process_topic_updates`: record every compatible publisher/subscriber pair
    on both sides, then drop matches on nodes that are gone. */
module Matching {
  import opened Bytes
  import opened SyncCodec
  import opened NodeTable
  import Qos

  // ------------------------------------------------------------- one entry

  /** A match as the duplicate test sees it: the port is not compared. */
  predicate SameTarget(m: MatchEntry, id: u64, hash: u64, addr: Addr) {
    m.nodeId == id && m.topicHash == hash && m.addr == addr
  }

  predicate Recorded(ms: seq<MatchEntry>, id: u64, hash: u64, addr: Addr) {
    exists k :: 0 <= k < |ms| && SameTarget(ms[k], id, hash, addr)
  }

  /** The candidates not yet in `have`, in order. */
  function Fresh(have: seq<MatchEntry>, id: u64, hash: u64, port: u16, addrs: seq<Addr>): (r: seq<MatchEntry>)
    ensures |r| <= |addrs|
  {
    if addrs == [] then []
    else
      var init, last := addrs[..|addrs| - 1], addrs[|addrs| - 1];
      var r := Fresh(have, id, hash, port, init);
      if Recorded(have, id, hash, last) then r else r + [MatchEntry(id, hash, port, last)]
  }

  /** Add matches on one node for one topic, one for each of its addresses, as
      far as there is space. */
  function Add(e: NodeEntry, other: NodeEntry, hash: u64): (r: NodeEntry)
    requires Wf(e) && Wf(other)
    ensures Wf(r) && SameButMatches(e, r) && r.responseGen == e.responseGen
    ensures e.matchCount <= r.matchCount <= e.matchCount + other.addrCount
  {
    var cur := e.matchCount;
    var toAdd := Min(other.addrCount, MAX_MATCHES - cur);
    var added := Fresh(e.matches[..cur], other.nodeId, hash, other.port, other.addrs[..toAdd]);
    e.(matches := e.matches[..cur] + added + e.matches[cur + |added|..], matchCount := cur + |added|)
  }

  lemma {:induction false} FreshRecords(have: seq<MatchEntry>, id: u64, hash: u64, port: u16, addrs: seq<Addr>, a: Addr)
    requires a in addrs
    ensures Recorded(have + Fresh(have, id, hash, port, addrs), id, hash, a)
  {
    var init, last := addrs[..|addrs| - 1], addrs[|addrs| - 1];
    var all, r := have + Fresh(have, id, hash, port, addrs), Fresh(have, id, hash, port, init);
    if Recorded(have, id, hash, a) {
      var k :| 0 <= k < |have| && SameTarget(have[k], id, hash, a);
      assert SameTarget(all[k], id, hash, a);
    } else if a == last {
      assert SameTarget(all[|have| + |r|], id, hash, a);
    } else {
      assert a in init;
      FreshRecords(have, id, hash, port, init, a);
      var k :| 0 <= k < |have + r| && SameTarget((have + r)[k], id, hash, a);
      assert SameTarget(all[k], id, hash, a);
    }
  }

  lemma {:induction false} NoneFresh(have: seq<MatchEntry>, id: u64, hash: u64, port: u16, addrs: seq<Addr>)
    requires forall a :: a in addrs ==> Recorded(have, id, hash, a)
    ensures Fresh(have, id, hash, port, addrs) == []
  {
    if addrs != [] { NoneFresh(have, id, hash, port, addrs[..|addrs| - 1]); }
  }

  /** Addresses end up recorded as far as there is space, all of them if there is space for
      all, and nothing is lost. */
  lemma AddRecords(e: NodeEntry, other: NodeEntry, hash: u64)
    requires Wf(e) && Wf(other)
    ensures Live(e) <= Live(Add(e, other, hash))
    ensures e.matchCount + other.addrCount <= MAX_MATCHES ==>
              forall a :: a in other.addrs[..other.addrCount] ==>
                Recorded(Live(Add(e, other, hash)), other.nodeId, hash, a)
    ensures forall a :: a in other.addrs[..Min(other.addrCount, MAX_MATCHES - e.matchCount)] ==>
              Recorded(Live(Add(e, other, hash)), other.nodeId, hash, a)
  {
    var cur := e.matchCount;
    var toAdd := Min(other.addrCount, MAX_MATCHES - cur);
    var added := Fresh(e.matches[..cur], other.nodeId, hash, other.port, other.addrs[..toAdd]);
    assert Live(Add(e, other, hash)) == Live(e) + added;
    forall a | a in other.addrs[..toAdd] ensures Recorded(Live(Add(e, other, hash)), other.nodeId, hash, a) {
      FreshRecords(Live(e), other.nodeId, hash, other.port, other.addrs[..toAdd], a);
    }
  }

  /** Nothing changes when everything is recorded already. */
  lemma AddNothing(e: NodeEntry, other: NodeEntry, hash: u64)
    requires Wf(e) && Wf(other)
    requires forall a :: a in other.addrs[..other.addrCount] ==> Recorded(Live(e), other.nodeId, hash, a)
    ensures Add(e, other, hash) == e
  {
    var cur := e.matchCount;
    var toAdd := Min(other.addrCount, MAX_MATCHES - cur);
    forall a | a in other.addrs[..toAdd] ensures Recorded(Live(e), other.nodeId, hash, a) {
      assert a in other.addrs[..other.addrCount];
    }
    NoneFresh(Live(e), other.nodeId, hash, other.port, other.addrs[..toAdd]);
    assert e.matches[..cur] + [] + e.matches[cur..] == e.matches;
  }

  lemma RecordedPrefix(ms: seq<MatchEntry>, ms': seq<MatchEntry>, id: u64, hash: u64, a: Addr)
    requires ms <= ms' && Recorded(ms, id, hash, a)
    ensures Recorded(ms', id, hash, a)
  {
    var k :| 0 <= k < |ms| && SameTarget(ms[k], id, hash, a);
    assert SameTarget(ms'[k], id, hash, a);
  }

  // ------------------------------------------------------------ one pair

  /** Some subscription of `s` takes publication `p`. */
  predicate Subscribed(s: NodeEntry, p: TopicEntry)
    requires Wf(s)
  {
    exists k :: 0 <= k < s.subCount && s.subs[k].head.hash == p.head.hash
        && Qos.EntriesCompatible(p.head, s.subs[k].head)
  }

  /** Publisher and subscriber entries after the first `n` publications. */
  function PairUpTo(p: NodeEntry, s: NodeEntry, n: nat): (r: (NodeEntry, NodeEntry))
    requires Wf(p) && Wf(s) && n <= p.pubCount
    ensures Wf(r.0) && Wf(r.1) && SameButMatches(p, r.0) && SameButMatches(s, r.1)
    ensures r.0.responseGen == p.responseGen && r.1.responseGen == s.responseGen
    ensures p.matchCount <= r.0.matchCount && s.matchCount <= r.1.matchCount
  {
    if n == 0 then (p, s)
    else
      var (p1, s1) := PairUpTo(p, s, n - 1);
      var t := p.pubs[n - 1];
      if Subscribed(s, t) then (Add(p1, s1, t.head.hash), Add(s1, p1, t.head.hash)) else (p1, s1)
  }

  function Bumped(e: NodeEntry, e': NodeEntry): NodeEntry {
    if e'.matchCount > e.matchCount then e'.(responseGen := e'.responseGen + 1) else e'
  }

  /** Both entries after the whole publication list. */
  function Pair(p: NodeEntry, s: NodeEntry): (r: (NodeEntry, NodeEntry))
    requires Wf(p) && Wf(s)
    ensures Wf(r.0) && Wf(r.1) && SameButMatches(p, r.0) && SameButMatches(s, r.1)
  {
    var (p', s') := PairUpTo(p, s, p.pubCount);
    (Bumped(p, p'), Bumped(s, s'))
  }

  lemma {:induction false} PairGrows(p: NodeEntry, s: NodeEntry, n: nat)
    requires Wf(p) && Wf(s) && n <= p.pubCount
    ensures Live(p) <= Live(PairUpTo(p, s, n).0) && Live(s) <= Live(PairUpTo(p, s, n).1)
  {
    if n > 0 {
      PairGrows(p, s, n - 1);
      var (p1, s1) := PairUpTo(p, s, n - 1);
      AddRecords(p1, s1, p.pubs[n - 1].head.hash);
      AddRecords(s1, p1, p.pubs[n - 1].head.hash);
    }
  }

  /** All of `other`'s addresses are recorded in `e` for the topic. */
  predicate Knows(e: NodeEntry, other: NodeEntry, hash: u64)
    requires Wf(e) && Wf(other)
  {
    forall a :: a in other.addrs[..other.addrCount] ==> Recorded(Live(e), other.nodeId, hash, a)
  }

  lemma KnowsKept(e: NodeEntry, e': NodeEntry, other: NodeEntry, other': NodeEntry, hash: u64)
    requires Wf(e) && Wf(e') && Wf(other) && Wf(other') && SameButMatches(other, other')
    requires Knows(e, other, hash) && Live(e) <= Live(e')
    ensures Knows(e', other', hash)
  {
    forall a | a in other'.addrs[..other'.addrCount] ensures Recorded(Live(e'), other'.nodeId, hash, a) {
      RecordedPrefix(Live(e), Live(e'), other.nodeId, hash, a);
    }
  }

  /** Space for one more node's addresses. */
  predicate Roomy(e: NodeEntry) { e.matchCount + MAX_QUIC_ADDRS <= MAX_MATCHES }

  lemma {:induction false} PairKnows(p: NodeEntry, s: NodeEntry, n: nat, k: nat)
    requires Wf(p) && Wf(s) && k < n <= p.pubCount && Subscribed(s, p.pubs[k])
    ensures var (p', s') := PairUpTo(p, s, n);
            && (Roomy(p') ==> Knows(p', s', p.pubs[k].head.hash))
            && (Roomy(s') ==> Knows(s', p', p.pubs[k].head.hash))
  {
    var (p1, s1) := PairUpTo(p, s, n - 1);
    var (p', s') := PairUpTo(p, s, n);
    var hash := p.pubs[n - 1].head.hash;
    AddRecords(p1, s1, hash);
    AddRecords(s1, p1, hash);
    if k < n - 1 {
      PairKnows(p, s, n - 1, k);
      if Roomy(p') { KnowsKept(p1, p', s1, s', p.pubs[k].head.hash); }
      if Roomy(s') { KnowsKept(s1, s', p1, p', p.pubs[k].head.hash); }
    }
  }

  /** Every publication of `p` that `s` takes is recorded on both sides. */
  predicate PairRecorded(p: NodeEntry, s: NodeEntry)
    requires Wf(p) && Wf(s)
  {
    forall k :: 0 <= k < p.pubCount && Subscribed(s, p.pubs[k]) ==>
      Knows(p, s, p.pubs[k].head.hash) && Knows(s, p, p.pubs[k].head.hash)
  }

  lemma PairOnlyGrows(p: NodeEntry, s: NodeEntry)
    requires Wf(p) && Wf(s)
    ensures Live(p) <= Live(Pair(p, s).0) && Live(s) <= Live(Pair(p, s).1)
  {
    PairGrows(p, s, p.pubCount);
  }

  lemma {:induction false} PairIdle(p: NodeEntry, s: NodeEntry, n: nat)
    requires Wf(p) && Wf(s) && n <= p.pubCount && PairRecorded(p, s)
    ensures PairUpTo(p, s, n) == (p, s)
  {
    if n > 0 {
      PairIdle(p, s, n - 1);
      if Subscribed(s, p.pubs[n - 1]) {
        AddNothing(p, s, p.pubs[n - 1].head.hash);
        AddNothing(s, p, p.pubs[n - 1].head.hash);
      }
    }
  }

  // --------------------------------------------------------- the whole table

  predicate Eligible(t: Table, i: nat, j: nat)
    requires i < |t| && j < |t|
  {
    && i != j && t[i].state == ACTIVE && t[j].state == ACTIVE && t[j].domainId == t[i].domainId
    && t[i].pubCount != 0 && t[j].subCount != 0
  }

  function MatchPair(t: Table, i: nat, j: nat): (r: Table)
    requires WfTable(t) && i < |t| && j < |t|
    ensures WfTable(r) && |r| == |t|
  {
    if Eligible(t, i, j) then
      var (p, s) := Pair(t[i], t[j]);
      t[i := p][j := s]
    else t
  }

  /** Publisher `i` against the first `n` entries. */
  function Row(t: Table, i: nat, n: nat): (r: Table)
    requires WfTable(t) && i < |t| && n <= |t|
    ensures WfTable(r) && |r| == |t|
  {
    if n == 0 then t else MatchPair(Row(t, i, n - 1), i, n - 1)
  }

  /** The first `n` publishers against everyone. */
  function AllPairs(t: Table, n: nat): (r: Table)
    requires WfTable(t) && n <= |t|
    ensures WfTable(r) && |r| == |t|
  {
    if n == 0 then t else Row(AllPairs(t, n - 1), n - 1, |t|)
  }

  function ActiveIds(t: Table): (ids: seq<u64>)
    ensures forall id :: id in ids <==> id != 0 && exists i :: 0 <= i < |t| && t[i].state == ACTIVE && t[i].nodeId == id
  {
    if t == [] then []
    else
      var init, last := t[..|t| - 1], t[|t| - 1];
      var ids := ActiveIds(init);
      var r := if last.state == ACTIVE && last.nodeId != 0 then ids + [last.nodeId] else ids;
      assert forall i :: 0 <= i < |init| ==> init[i] == t[i];
      r
  }

  function Among(ids: seq<u64>): MatchEntry -> bool { (m: MatchEntry) => m.nodeId in ids }

  function CleanEntry(e: NodeEntry, ids: seq<u64>): (r: NodeEntry)
    ensures Wf(e) ==> Wf(r)
  {
    if e.state == ACTIVE then Retain(e, Among(ids)) else e
  }

  function Cleanup(t: Table): (r: Table)
    requires WfTable(t)
    ensures WfTable(r) && |r| == |t|
    ensures forall x :: 0 <= x < |t| ==> r[x] == CleanEntry(t[x], ActiveIds(t))
  {
    seq(|t|, x requires 0 <= x < |t| => CleanEntry(t[x], ActiveIds(t)))
  }

  /** `process_topic_updates` */
  function Process(t: Table): (r: Table)
    requires WfTable(t)
    ensures WfTable(r) && |r| == |t|
  {
    Cleanup(AllPairs(t, |t|))
  }

  /** Only matches were added. */
  predicate EntryGrown(e: NodeEntry, e': NodeEntry) {
    Wf(e) && Wf(e') && SameButMatches(e, e') && Live(e) <= Live(e')
  }

  predicate Grown(t: Table, t': Table) {
    |t'| == |t| && forall x :: 0 <= x < |t| ==> EntryGrown(t[x], t'[x])
  }

  lemma EntryGrownTrans(a: NodeEntry, b: NodeEntry, c: NodeEntry)
    requires EntryGrown(a, b) && EntryGrown(b, c)
    ensures EntryGrown(a, c)
  {
  }

  lemma GrownTrans(a: Table, b: Table, c: Table)
    requires Grown(a, b) && Grown(b, c)
    ensures Grown(a, c)
  {
    forall x | 0 <= x < |a| ensures EntryGrown(a[x], c[x]) { EntryGrownTrans(a[x], b[x], c[x]); }
  }

  lemma LiveCount(e: NodeEntry, e': NodeEntry)
    requires EntryGrown(e, e')
    ensures e.matchCount <= e'.matchCount && (Roomy(e') ==> Roomy(e))
  {
  }

  lemma MatchPairGrows(t: Table, i: nat, j: nat)
    requires WfTable(t) && i < |t| && j < |t|
    ensures Grown(t, MatchPair(t, i, j))
  {
    PairOnlyGrows(t[i], t[j]);
    assert EntryGrown(t[i], Pair(t[i], t[j]).0) && EntryGrown(t[j], Pair(t[i], t[j]).1);
    assert forall x :: 0 <= x < |t| ==> EntryGrown(t[x], t[x]);
  }

  lemma {:induction false} RowGrowsAt(t: Table, i: nat, m: nat, n: nat, x: nat)
    requires WfTable(t) && i < |t| && m <= n <= |t| && x < |t|
    ensures EntryGrown(Row(t, i, m)[x], Row(t, i, n)[x])
    decreases n
  {
    if m < n {
      RowGrowsAt(t, i, m, n - 1, x);
      MatchPairGrows(Row(t, i, n - 1), i, n - 1);
      EntryGrownTrans(Row(t, i, m)[x], Row(t, i, n - 1)[x], Row(t, i, n)[x]);
    }
  }

  lemma RowGrows(t: Table, i: nat, m: nat, n: nat)
    requires WfTable(t) && i < |t| && m <= n <= |t|
    ensures Grown(Row(t, i, m), Row(t, i, n))
  {
    forall x | 0 <= x < |t| ensures EntryGrown(Row(t, i, m)[x], Row(t, i, n)[x]) { RowGrowsAt(t, i, m, n, x); }
  }

  lemma AllPairsStep(t: Table, n: nat)
    requires WfTable(t) && 0 < n <= |t|
    ensures Grown(AllPairs(t, n - 1), AllPairs(t, n))
  {
    RowGrows(AllPairs(t, n - 1), n - 1, 0, |t|);
  }

  lemma {:induction false} AllPairsGrowsAt(t: Table, m: nat, n: nat, x: nat)
    requires WfTable(t) && m <= n <= |t| && x < |t|
    ensures EntryGrown(AllPairs(t, m)[x], AllPairs(t, n)[x])
    decreases n
  {
    if m < n {
      AllPairsGrowsAt(t, m, n - 1, x);
      AllPairsStep(t, n);
      EntryGrownTrans(AllPairs(t, m)[x], AllPairs(t, n - 1)[x], AllPairs(t, n)[x]);
    }
  }

  lemma AllPairsGrows(t: Table, m: nat, n: nat)
    requires WfTable(t) && m <= n <= |t|
    ensures Grown(AllPairs(t, m), AllPairs(t, n))
  {
    forall x | 0 <= x < |t| ensures EntryGrown(AllPairs(t, m)[x], AllPairs(t, n)[x]) { AllPairsGrowsAt(t, m, n, x); }
  }

  /** The one of `i` and `j` that `x` is not. */
  function Other(i: nat, j: nat, x: nat): nat { if x == i then j else i }

  /** An entry with room at the end records the pair when it is met. */
  lemma MatchPairKnows(t: Table, last: Table, i: nat, j: nat, k: nat, x: nat)
    requires WfTable(t) && WfTable(last) && i < |t| && j < |t| && Eligible(t, i, j) && (x == i || x == j)
    requires k < t[i].pubCount && Subscribed(t[j], t[i].pubs[k])
    requires Grown(MatchPair(t, i, j), last) && Roomy(last[x])
    ensures Knows(last[x], last[Other(i, j, x)], t[i].pubs[k].head.hash)
  {
    var after, o := MatchPair(t, i, j), Other(i, j, x);
    PairKnows(t[i], t[j], t[i].pubCount, k);
    LiveCount(after[x], last[x]);
    assert EntryGrown(after[o], last[o]);
    KnowsKept(after[x], last[x], after[o], last[o], t[i].pubs[k].head.hash);
  }

  /** From the moment a pair is met to the end, only growth. */
  lemma PairMet(t: Table, i: nat, j: nat)
    requires WfTable(t) && i < |t| && j < |t|
    ensures Grown(MatchPair(Row(AllPairs(t, i), i, j), i, j), AllPairs(t, |t|))
  {
    var u := AllPairs(t, i);
    RowGrows(u, i, j + 1, |t|);
    AllPairsGrows(t, i + 1, |t|);
    GrownTrans(Row(u, i, j + 1), AllPairs(t, i + 1), AllPairs(t, |t|));
  }

  /** With room at the end, a pair met on the way is known at the end. */
  lemma AllPairsKnow(t: Table, i: nat, j: nat, k: nat, x: nat)
    requires WfTable(t) && i < |t| && j < |t| && Eligible(t, i, j) && (x == i || x == j)
    requires k < t[i].pubCount && Subscribed(t[j], t[i].pubs[k]) && Roomy(AllPairs(t, |t|)[x])
    ensures Knows(AllPairs(t, |t|)[x], AllPairs(t, |t|)[Other(i, j, x)], t[i].pubs[k].head.hash)
  {
    var before := Row(AllPairs(t, i), i, j);
    PairMet(t, i, j);
    AllPairsGrows(t, 0, i);
    RowGrows(AllPairs(t, i), i, 0, j);
    GrownTrans(t, AllPairs(t, i), before);
    assert EntryGrown(t[i], before[i]) && EntryGrown(t[j], before[j]);
    assert Subscribed(before[j], before[i].pubs[k]);
    MatchPairKnows(before, AllPairs(t, |t|), i, j, k, x);
  }

  /** What is known at the start stays known. */
  lemma AllPairsRemember(t: Table, x: nat, o: nat, hash: u64)
    requires WfTable(t) && x < |t| && o < |t| && Knows(t[x], t[o], hash)
    ensures Knows(AllPairs(t, |t|)[x], AllPairs(t, |t|)[o], hash)
  {
    AllPairsGrowsAt(t, 0, |t|, x);
    AllPairsGrowsAt(t, 0, |t|, o);
    KnowsKept(t[x], AllPairs(t, |t|)[x], t[o], AllPairs(t, |t|)[o], hash);
  }

  // --------------------------------------------------------- how much room

  /** How many of `other`'s addresses `e` does not know for the topic. */
  function Missing(e: NodeEntry, other: NodeEntry, hash: u64): nat
    requires Wf(e) && Wf(other)
  {
    |Fresh(Live(e), other.nodeId, hash, other.port, other.addrs[..other.addrCount])|
  }

  lemma NoneMissing(e: NodeEntry, other: NodeEntry, hash: u64)
    requires Wf(e) && Wf(other) && Missing(e, other, hash) == 0
    ensures Knows(e, other, hash)
  {
    var addrs := other.addrs[..other.addrCount];
    forall a | a in addrs ensures Recorded(Live(e), other.nodeId, hash, a) {
      FreshRecords(Live(e), other.nodeId, hash, other.port, addrs, a);
      assert Live(e) + [] == Live(e);
    }
  }

  /** What `n` publications of `p` to `s` can add to entry `e`, one of the two, about `other`. */
  function PairDemand(e: NodeEntry, other: NodeEntry, p: NodeEntry, s: NodeEntry, n: nat): nat
    requires Wf(e) && Wf(other) && Wf(p) && Wf(s) && n <= p.pubCount
  {
    if n == 0 then 0
    else
      PairDemand(e, other, p, s, n - 1)
      + (if Subscribed(s, p.pubs[n - 1]) then Missing(e, other, p.pubs[n - 1].head.hash) else 0)
  }

  function RowDemand(t: Table, i: nat, n: nat, x: nat): nat
    requires WfTable(t) && i < |t| && n <= |t|
  {
    if n == 0 then 0
    else
      var j := n - 1;
      RowDemand(t, i, j, x)
      + (if !Eligible(t, i, j) then 0
         else if x == i then PairDemand(t[i], t[j], t[i], t[j], t[i].pubCount)
         else if x == j then PairDemand(t[j], t[i], t[i], t[j], t[i].pubCount)
         else 0)
  }

  /** An upper bound on what one run can add to entry `x`, read off the table. */
  function Demand(t: Table, n: nat, x: nat): nat
    requires WfTable(t) && n <= |t|
  {
    if n == 0 then 0 else Demand(t, n - 1, x) + RowDemand(t, n - 1, |t|, x)
  }

  /** The more is recorded and the fewer addresses are asked for, the fewer are fresh. */
  lemma {:induction false} FewerFresh(
      have: seq<MatchEntry>, have': seq<MatchEntry>, id: u64, hash: u64, port: u16, addrs: seq<Addr>, k: nat)
    requires have <= have' && k <= |addrs|
    ensures |Fresh(have', id, hash, port, addrs[..k])| <= |Fresh(have, id, hash, port, addrs)|
  {
    if addrs != [] {
      var init, last := addrs[..|addrs| - 1], addrs[|addrs| - 1];
      if k < |addrs| {
        assert init[..k] == addrs[..k];
        FewerFresh(have, have', id, hash, port, init, k);
      } else {
        assert addrs[..k] == addrs && init[..|init|] == init;
        FewerFresh(have, have', id, hash, port, init, |init|);
        if Recorded(have, id, hash, last) { RecordedPrefix(have, have', id, hash, last); }
      }
    }
  }

  /** Adding to a grown entry adds no more than was missing at first. */
  lemma AddWithin(e: NodeEntry, e': NodeEntry, other: NodeEntry, other': NodeEntry, hash: u64)
    requires EntryGrown(e, e') && EntryGrown(other, other')
    ensures Add(e', other', hash).matchCount <= e'.matchCount + Missing(e, other, hash)
  {
    var toAdd := Min(other.addrCount, MAX_MATCHES - e'.matchCount);
    FewerFresh(Live(e), Live(e'), other.nodeId, hash, other.port, other.addrs[..other.addrCount], toAdd);
    assert other.addrs[..other.addrCount][..toAdd] == other.addrs[..toAdd];
  }

  lemma PairStaysGrown(p: NodeEntry, s: NodeEntry, p': NodeEntry, s': NodeEntry, n: nat)
    requires EntryGrown(p, p') && EntryGrown(s, s') && n <= p.pubCount
    ensures EntryGrown(p, PairUpTo(p', s', n).0) && EntryGrown(s, PairUpTo(p', s', n).1)
  {
    PairGrows(p', s', n);
    EntryGrownTrans(p, p', PairUpTo(p', s', n).0);
    EntryGrownTrans(s, s', PairUpTo(p', s', n).1);
  }

  lemma {:induction false} PairWithin(p: NodeEntry, s: NodeEntry, p': NodeEntry, s': NodeEntry, n: nat)
    requires EntryGrown(p, p') && EntryGrown(s, s') && n <= p.pubCount
    ensures PairUpTo(p', s', n).0.matchCount <= p'.matchCount + PairDemand(p, s, p, s, n)
    ensures PairUpTo(p', s', n).1.matchCount <= s'.matchCount + PairDemand(s, p, p, s, n)
  {
    if n > 0 {
      var (p1, s1) := PairUpTo(p', s', n - 1);
      var hash := p.pubs[n - 1].head.hash;
      PairWithin(p, s, p', s', n - 1);
      PairStaysGrown(p, s, p', s', n - 1);
      AddWithin(p, p1, s, s1, hash);
      AddWithin(s, s1, p, p1, hash);
      assert Subscribed(s', p'.pubs[n - 1]) == Subscribed(s, p.pubs[n - 1]);
    }
  }

  lemma {:induction false} RowWithin(t: Table, u: Table, i: nat, n: nat, x: nat)
    requires WfTable(t) && WfTable(u) && Grown(t, u) && i < |t| && n <= |t| && x < |t|
    ensures Row(u, i, n)[x].matchCount <= u[x].matchCount + RowDemand(t, i, n, x)
  {
    if n > 0 {
      var j, v := n - 1, Row(u, i, n - 1);
      RowWithin(t, u, i, j, x);
      RowGrows(u, i, 0, j);
      GrownTrans(t, u, v);
      assert EntryGrown(t[i], v[i]) && EntryGrown(t[j], v[j]);
      if Eligible(t, i, j) { PairWithin(t[i], t[j], v[i], v[j], v[i].pubCount); }
    }
  }

  lemma AllPairsWithinStep(t: Table, n: nat, x: nat)
    requires WfTable(t) && 0 < n <= |t| && x < |t|
    ensures AllPairs(t, n)[x].matchCount <= AllPairs(t, n - 1)[x].matchCount + RowDemand(t, n - 1, |t|, x)
  {
    AllPairsGrows(t, 0, n - 1);
    RowWithin(t, AllPairs(t, n - 1), n - 1, |t|, x);
  }

  lemma {:induction false} AllPairsWithin(t: Table, n: nat, x: nat)
    requires WfTable(t) && n <= |t| && x < |t|
    ensures AllPairs(t, n)[x].matchCount <= t[x].matchCount + Demand(t, n, x)
  {
    if n > 0 {
      AllPairsWithin(t, n - 1, x);
      AllPairsWithinStep(t, n, x);
    }
  }

  lemma {:induction false} PairDemandCovers(e: NodeEntry, other: NodeEntry, p: NodeEntry, s: NodeEntry, n: nat, k: nat)
    requires Wf(e) && Wf(other) && Wf(p) && Wf(s) && k < n <= p.pubCount && Subscribed(s, p.pubs[k])
    ensures Missing(e, other, p.pubs[k].head.hash) <= PairDemand(e, other, p, s, n)
  {
    if k < n - 1 { PairDemandCovers(e, other, p, s, n - 1, k); }
  }

  lemma {:induction false} RowDemandCovers(t: Table, i: nat, n: nat, j: nat, k: nat, x: nat)
    requires WfTable(t) && i < |t| && j < n <= |t| && Eligible(t, i, j) && (x == i || x == j)
    requires k < t[i].pubCount && Subscribed(t[j], t[i].pubs[k])
    ensures Missing(t[x], t[Other(i, j, x)], t[i].pubs[k].head.hash) <= RowDemand(t, i, n, x)
  {
    if j < n - 1 {
      RowDemandCovers(t, i, n - 1, j, k, x);
    } else {
      PairDemandCovers(t[x], t[Other(i, j, x)], t[i], t[j], t[i].pubCount, k);
    }
  }

  lemma {:induction false} DemandCovers(t: Table, n: nat, i: nat, j: nat, k: nat, x: nat)
    requires WfTable(t) && i < n <= |t| && j < |t| && Eligible(t, i, j) && (x == i || x == j)
    requires k < t[i].pubCount && Subscribed(t[j], t[i].pubs[k])
    ensures Missing(t[x], t[Other(i, j, x)], t[i].pubs[k].head.hash) <= Demand(t, n, x)
  {
    if i < n - 1 {
      DemandCovers(t, n - 1, i, j, k, x);
    } else {
      RowDemandCovers(t, i, |t|, j, k, x);
    }
  }

  // ------------------------------------------------------------ the theorems

  ghost predicate NamesActiveNode(t: Table, m: MatchEntry) {
    m.nodeId != 0 && exists i :: 0 <= i < |t| && t[i].state == ACTIVE && t[i].nodeId == m.nodeId
  }

  /** Afterwards every match in an active entry names an active node. */
  lemma MatchesAreLive(t: Table, x: nat, m: MatchEntry)
    requires WfTable(t) && x < |t| && Process(t)[x].state == ACTIVE && m in Live(Process(t)[x])
    ensures NamesActiveNode(Process(t), m)
  {
    var u := AllPairs(t, |t|);
    var ids := ActiveIds(u);
    RetainLive(u[x], Among(ids));
    FilterKeeps(Live(u[x]), Among(ids));
    var i :| 0 <= i < |u| && u[i].state == ACTIVE && u[i].nodeId == m.nodeId;
    RetainLive(u[i], Among(ids));
    assert Process(t)[i].state == ACTIVE && Process(t)[i].nodeId == m.nodeId;
  }

  /** Each entry knows everyone already, or has room for all it is missing, and to spare. */
  predicate Uncrowded(t: Table)
    requires WfTable(t)
  {
    forall x :: 0 <= x < |t| && t[x].state == ACTIVE ==>
      var d := Demand(t, |t|, x);
      d == 0 || t[x].matchCount + d + MAX_QUIC_ADDRS <= MAX_MATCHES
  }

  predicate ActiveIdsNonZero(t: Table) {
    forall x :: 0 <= x < |t| && t[x].state == ACTIVE ==> t[x].nodeId != 0
  }

  lemma CleanKeepsKnown(u: Table, i: nat, j: nat, hash: u64)
    requires WfTable(u) && i < |u| && j < |u| && u[i].state == ACTIVE && u[j].state == ACTIVE && u[j].nodeId != 0
    requires Knows(u[i], u[j], hash)
    ensures Knows(Cleanup(u)[i], Cleanup(u)[j], hash)
  {
    var ids := ActiveIds(u);
    var e, o := Cleanup(u)[i], Cleanup(u)[j];
    RetainLive(u[i], Among(ids));
    RetainLive(u[j], Among(ids));
    FilterKeeps(Live(u[i]), Among(ids));
    assert u[j].nodeId in ids;
    forall a | a in o.addrs[..o.addrCount] ensures Recorded(Live(e), o.nodeId, hash, a) {
      var k :| 0 <= k < |Live(u[i])| && SameTarget(Live(u[i])[k], u[j].nodeId, hash, a);
      var m := Live(u[i])[k];
      assert m in Live(e);
      var k' :| 0 <= k' < |Live(e)| && Live(e)[k'] == m;
      assert SameTarget(Live(e)[k'], o.nodeId, hash, a);
    }
  }

  lemma CleanCore(u: Table, x: nat)
    requires WfTable(u) && x < |u|
    ensures SameButMatches(u[x], Cleanup(u)[x])
  {
    RetainLive(u[x], Among(ActiveIds(u)));
  }

  lemma CleanKeepsPair(u: Table, i: nat, j: nat)
    requires WfTable(u) && i < |u| && j < |u| && u[i].state == ACTIVE && u[j].state == ACTIVE
    requires u[i].nodeId != 0 && u[j].nodeId != 0 && PairRecorded(u[i], u[j])
    ensures PairRecorded(Cleanup(u)[i], Cleanup(u)[j])
  {
    var p, s := Cleanup(u)[i], Cleanup(u)[j];
    CleanCore(u, i);
    CleanCore(u, j);
    forall k | 0 <= k < p.pubCount && Subscribed(s, p.pubs[k])
      ensures Knows(p, s, p.pubs[k].head.hash) && Knows(s, p, p.pubs[k].head.hash)
    {
      assert Subscribed(u[j], u[i].pubs[k]);
      CleanKeepsKnown(u, i, j, u[i].pubs[k].head.hash);
      CleanKeepsKnown(u, j, i, u[i].pubs[k].head.hash);
    }
  }

  lemma AllPairsCore(t: Table, x: nat)
    requires WfTable(t) && x < |t|
    ensures SameButMatches(t[x], AllPairs(t, |t|)[x])
  {
    AllPairsGrows(t, 0, |t|);
    assert EntryGrown(AllPairs(t, 0)[x], AllPairs(t, |t|)[x]);
  }

  /** Everything but matches is as before the run. */
  lemma ProcessCore(t: Table, x: nat)
    requires WfTable(t) && x < |t|
    ensures SameButMatches(t[x], Process(t)[x])
  {
    AllPairsCore(t, x);
    CleanCore(AllPairs(t, |t|), x);
  }

  lemma EndsKnowing(t: Table, i: nat, j: nat, k: nat, x: nat)
    requires WfTable(t) && Uncrowded(t) && i < |t| && j < |t| && Eligible(t, i, j) && (x == i || x == j)
    requires k < t[i].pubCount && Subscribed(t[j], t[i].pubs[k])
    ensures Knows(AllPairs(t, |t|)[x], AllPairs(t, |t|)[Other(i, j, x)], t[i].pubs[k].head.hash)
  {
    var o, hash := Other(i, j, x), t[i].pubs[k].head.hash;
    if Demand(t, |t|, x) == 0 {
      DemandCovers(t, |t|, i, j, k, x);
      NoneMissing(t[x], t[o], hash);
      AllPairsRemember(t, x, o, hash);
    } else {
      AllPairsWithin(t, |t|, x);
      AllPairsKnow(t, i, j, k, x);
    }
  }

  lemma EndsRecorded(t: Table, i: nat, j: nat)
    requires WfTable(t) && Uncrowded(t) && i < |t| && j < |t| && Eligible(t, i, j)
    ensures PairRecorded(AllPairs(t, |t|)[i], AllPairs(t, |t|)[j])
  {
    var p, s := AllPairs(t, |t|)[i], AllPairs(t, |t|)[j];
    AllPairsCore(t, i);
    AllPairsCore(t, j);
    forall k | 0 <= k < p.pubCount && Subscribed(s, p.pubs[k])
      ensures Knows(p, s, p.pubs[k].head.hash) && Knows(s, p, p.pubs[k].head.hash)
    {
      assert Subscribed(t[j], t[i].pubs[k]);
      EndsKnowing(t, i, j, k, i);
      EndsKnowing(t, i, j, k, j);
    }
  }

  /** With room, every compatible publisher/subscriber pair of a domain is
      recorded on both sides, for each address. */
  lemma AllPairsAreRecorded(t: Table, i: nat, j: nat)
    requires WfTable(t) && Uncrowded(t) && ActiveIdsNonZero(t) && i < |t| && j < |t| && Eligible(t, i, j)
    ensures PairRecorded(Process(t)[i], Process(t)[j])
  {
    EndsRecorded(t, i, j);
    AllPairsCore(t, i);
    AllPairsCore(t, j);
    CleanKeepsPair(AllPairs(t, |t|), i, j);
  }

  lemma MatchPairIdle(t: Table, i: nat, j: nat)
    requires WfTable(t) && i < |t| && j < |t| && (Eligible(t, i, j) ==> PairRecorded(t[i], t[j]))
    ensures MatchPair(t, i, j) == t
  {
    if Eligible(t, i, j) { PairIdle(t[i], t[j], t[i].pubCount); }
  }

  lemma {:induction false} RowIdle(t: Table, i: nat, n: nat)
    requires WfTable(t) && i < |t| && n <= |t|
    requires forall j: nat :: j < |t| && Eligible(t, i, j) ==> PairRecorded(t[i], t[j])
    ensures Row(t, i, n) == t
  {
    if n > 0 {
      RowIdle(t, i, n - 1);
      MatchPairIdle(t, i, n - 1);
    }
  }

  lemma {:induction false} AllPairsIdle(t: Table, n: nat)
    requires WfTable(t) && n <= |t|
    requires forall i: nat, j: nat :: i < |t| && j < |t| && Eligible(t, i, j) ==> PairRecorded(t[i], t[j])
    ensures AllPairs(t, n) == t
  {
    if n > 0 {
      AllPairsIdle(t, n - 1);
      RowIdle(t, n - 1, |t|);
    }
  }

  lemma CleanupIdle(t: Table)
    requires WfTable(t)
    requires forall x, m :: 0 <= x < |t| && t[x].state == ACTIVE && m in Live(t[x]) ==> NamesActiveNode(t, m)
    ensures Cleanup(t) == t
  {
    var ids := ActiveIds(t);
    forall x | 0 <= x < |t| ensures CleanEntry(t[x], ids) == t[x] {
      if t[x].state == ACTIVE {
        forall k | 0 <= k < |Live(t[x])| ensures Among(ids)(Live(t[x])[k]) {
          assert NamesActiveNode(t, Live(t[x])[k]);
        }
        RetainLive(t[x], Among(ids));
      }
    }
  }

  /** Then a second run changes nothing, response generations included. */
  lemma ProcessTwice(t: Table)
    requires WfTable(t) && Uncrowded(t) && ActiveIdsNonZero(t)
    ensures Process(Process(t)) == Process(t)
  {
    var r := Process(t);
    forall i: nat, j: nat | i < |r| && j < |r| && Eligible(r, i, j) ensures PairRecorded(r[i], r[j]) {
      ProcessCore(t, i);
      ProcessCore(t, j);
      AllPairsAreRecorded(t, i, j);
    }
    forall x, m | 0 <= x < |r| && r[x].state == ACTIVE && m in Live(r[x]) ensures NamesActiveNode(r, m) {
      MatchesAreLive(t, x, m);
    }
    SettledIdle(r);
  }

  lemma SettledIdle(r: Table)
    requires WfTable(r)
    requires forall i: nat, j: nat :: i < |r| && j < |r| && Eligible(r, i, j) ==> PairRecorded(r[i], r[j])
    requires forall x, m :: 0 <= x < |r| && r[x].state == ACTIVE && m in Live(r[x]) ==> NamesActiveNode(r, m)
    ensures Process(r) == r
  {
    AllPairsIdle(r, |r|);
    CleanupIdle(r);
  }
}
