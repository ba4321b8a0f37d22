/** The daemon's shared node table: fixed-size entries and the edits made to
    one entry at a time (`discovery_shm.rs`, `peer_sync.rs`). */
module NodeTable {
  import opened Bytes
  import opened SyncCodec

  const MAX_TOPICS_PER_NODE: nat := 256
  const MAX_MATCHES: nat := 1024
  const MAX_NAME_LEN: nat := 128

  const EMPTY: nat := 0
  const ACTIVE: nat := 2
  const CLAIMING: nat := 4

  datatype TopicEntry = TopicEntry(
    head: TopicHead, topicName: seq<byte>, topicType: seq<byte>, nodeName: seq<byte>, nodeNamespace: seq<byte>)

  datatype MatchEntry = MatchEntry(nodeId: u64, topicHash: u64, port: u16, addr: Addr)

  datatype NodeEntry = NodeEntry(
    state: nat, domainId: u32, pid: u32, startTime: u64,
    pubCount: nat, subCount: nat, port: u16, matchCount: nat, nodeId: u64, responseGen: nat,
    addrCount: nat, addrs: seq<Addr>, origin: u64, lastSeen: nat,
    name: seq<byte>, namespace: seq<byte>,
    pubs: seq<TopicEntry>, subs: seq<TopicEntry>, matches: seq<MatchEntry>)

  type Table = seq<NodeEntry>

  predicate Wf(e: NodeEntry) {
    && |e.addrs| == MAX_QUIC_ADDRS && e.addrCount <= MAX_QUIC_ADDRS
    && |e.pubs| == |e.subs| == MAX_TOPICS_PER_NODE
    && e.pubCount <= MAX_TOPICS_PER_NODE && e.subCount <= MAX_TOPICS_PER_NODE
    && |e.matches| == MAX_MATCHES && e.matchCount <= MAX_MATCHES
  }

  predicate WfTable(t: Table) { forall i :: 0 <= i < |t| ==> Wf(t[i]) }

  // ----------------------------------------------------------- plain copies

  function Fill<T>(n: nat, x: T): (s: seq<T>)
    ensures |s| == n && forall i :: 0 <= i < n ==> s[i] == x
  {
    seq(n, _ => x)
  }

  /** The first `n` of `xs`, padded with `x` to `n`. */
  function Padded<T>(xs: seq<T>, n: nat, x: T): (s: seq<T>)
    ensures |s| == n
    ensures s[..Min(|xs|, n)] == xs[..Min(|xs|, n)]
  {
    xs[..Min(|xs|, n)] + Fill(n - Min(|xs|, n), x)
  }

  const ZERO_ADDR := Addr(0, 0, 0, 0)
  const ZERO_MATCH := MatchEntry(0, 0, 0, ZERO_ADDR)
  const ZERO_HEAD := TopicHead(0, 0, 0, 0, 0, 0, 0, 0, 0, 0, 0, 0, 0)

  function ZeroName(): (s: seq<byte>)
    ensures |s| == MAX_NAME_LEN
  {
    Fill(MAX_NAME_LEN, 0)
  }

  function DefaultTopic(): TopicEntry { TopicEntry(ZERO_HEAD, ZeroName(), ZeroName(), ZeroName(), ZeroName()) }

  /** `clear_node_entry`, and the all-zero entry the table starts from. */
  function Cleared(): (e: NodeEntry)
    ensures Wf(e) && e.state == EMPTY && e.nodeId == 0 && e.origin == 0
  {
    NodeEntry(EMPTY, 0, 0, 0, 0, 0, 0, 0, 0, 0, 0, Fill(MAX_QUIC_ADDRS, ZERO_ADDR), 0, 0, ZeroName(), ZeroName(),
              Fill(MAX_TOPICS_PER_NODE, DefaultTopic()), Fill(MAX_TOPICS_PER_NODE, DefaultTopic()),
              Fill(MAX_MATCHES, ZERO_MATCH))
  }

  /** `copy_str`: at most 127 bytes, then zeros. */
  function CopyStr(value: seq<byte>): (s: seq<byte>)
    ensures |s| == MAX_NAME_LEN
  {
    var k := Min(|value|, MAX_NAME_LEN - 1);
    value[..k] + Fill(MAX_NAME_LEN - k, 0)
  }

  function InfoToEntry(t: TopicInfo): TopicEntry {
    TopicEntry(t.head, CopyStr(t.name), CopyStr(t.topicType), CopyStr(t.nodeName), CopyStr(t.nodeNamespace))
  }

  function InfosToEntries(ts: seq<TopicInfo>): (es: seq<TopicEntry>)
    ensures |es| == |ts| && forall i :: 0 <= i < |ts| ==> es[i] == InfoToEntry(ts[i])
  {
    seq(|ts|, i requires 0 <= i < |ts| => InfoToEntry(ts[i]))
  }

  // ----------------------------------------------------------------- matches

  /** The matches an entry holds. */
  function Live(e: NodeEntry): (ms: seq<MatchEntry>) {
    e.matches[..Min(e.matchCount, |e.matches|)]
  }

  function Filter(ms: seq<MatchEntry>, keep: MatchEntry -> bool): (r: seq<MatchEntry>)
    ensures |r| <= |ms|
  {
    if ms == [] then []
    else if keep(ms[|ms| - 1]) then Filter(ms[..|ms| - 1], keep) + [ms[|ms| - 1]]
    else Filter(ms[..|ms| - 1], keep)
  }

  /** Compaction: keep what `keep` accepts, zero the slots freed, and bump the
      response generation when anything went. */
  function Retain(e: NodeEntry, keep: MatchEntry -> bool): (r: NodeEntry)
    ensures Wf(e) ==> Wf(r)
  {
    var n := Min(e.matchCount, |e.matches|);
    var kept := Filter(e.matches[..n], keep);
    if |kept| < n then
      e.(matches := kept + Fill(n - |kept|, ZERO_MATCH) + e.matches[n..],
         matchCount := |kept|, responseGen := e.responseGen + 1)
    else e
  }

  function NotNode(id: u64): MatchEntry -> bool { (m: MatchEntry) => m.nodeId != id }

  /** `remove_matches_for_node` on one entry. */
  function Forget(e: NodeEntry, id: u64): (r: NodeEntry)
    ensures Wf(e) ==> Wf(r)
  {
    if e.state != ACTIVE then e else Retain(e, NotNode(id))
  }

  /** The compaction loop, index by index, on one entry. */
  method RetainInPlace(e: NodeEntry, keep: MatchEntry -> bool) returns (r: NodeEntry)
    requires Wf(e)
    ensures r == Retain(e, keep)
  {
    var n := Min(e.matchCount, MAX_MATCHES);
    var ms, w := e.matches, 0;
    ghost var orig := e.matches;
    for k := 0 to n
      invariant |ms| == |orig| && w <= k && ms[..w] == Filter(orig[..k], keep) && ms[k..] == orig[k..]
    {
      var m := ms[k];
      assert m == orig[k] && orig[..k + 1][..k] == orig[..k];
      if keep(m) {
        if w != k { ms := ms[w := m]; }
        w := w + 1;
        assert ms[..w] == ms[..w - 1] + [m];
      }
      assert orig[k..][1..] == orig[k + 1..];
    }
    if w < n {
      ghost var kept := ms[..w];
      for k := w to n
        invariant |ms| == |orig| && ms[..w] == kept && ms[n..] == orig[n..]
        invariant forall i :: w <= i < k ==> ms[i] == ZERO_MATCH
      {
        ms := ms[k := ZERO_MATCH];
      }
      assert ms == kept + Fill(n - w, ZERO_MATCH) + orig[n..];
      return e.(matches := ms, matchCount := w, responseGen := e.responseGen + 1);
    }
    return e;
  }

  function Both(p: MatchEntry -> bool, q: MatchEntry -> bool): MatchEntry -> bool {
    (m: MatchEntry) => p(m) && q(m)
  }

  lemma {:induction false} FilterTwice(ms: seq<MatchEntry>, p: MatchEntry -> bool, q: MatchEntry -> bool)
    ensures Filter(Filter(ms, p), q) == Filter(ms, Both(p, q))
  {
    if ms != [] {
      var init, last := ms[..|ms| - 1], ms[|ms| - 1];
      FilterTwice(init, p, q);
      if p(last) {
        var f := Filter(ms, p);
        assert f[..|f| - 1] == Filter(init, p) && f[|f| - 1] == last;
      }
    }
  }

  lemma {:induction false} FilterAgree(ms: seq<MatchEntry>, p: MatchEntry -> bool, q: MatchEntry -> bool)
    requires forall i :: 0 <= i < |ms| ==> p(ms[i]) == q(ms[i])
    ensures Filter(ms, p) == Filter(ms, q)
  {
    if ms != [] { FilterAgree(ms[..|ms| - 1], p, q); }
  }

  /** Nothing is dropped exactly when every element is accepted. */
  lemma {:induction false} FilterAll(ms: seq<MatchEntry>, keep: MatchEntry -> bool)
    ensures (|Filter(ms, keep)| == |ms|) <==> (forall i :: 0 <= i < |ms| ==> keep(ms[i]))
    ensures |Filter(ms, keep)| == |ms| ==> Filter(ms, keep) == ms
  {
    if ms != [] { FilterAll(ms[..|ms| - 1], keep); }
  }

  lemma {:induction false} FilterKeeps(ms: seq<MatchEntry>, keep: MatchEntry -> bool)
    ensures forall m :: m in Filter(ms, keep) <==> m in ms && keep(m)
  {
    if ms != [] {
      FilterKeeps(ms[..|ms| - 1], keep);
      assert ms == ms[..|ms| - 1] + [ms[|ms| - 1]];
    }
  }

  /** An entry without its matches. */
  function Core(e: NodeEntry): NodeEntry { e.(matches := [], matchCount := 0, responseGen := 0) }

  /** Two entries that differ at most in their matches. */
  predicate SameButMatches(e: NodeEntry, e': NodeEntry) { Core(e) == Core(e') }

  /** A compaction keeps the accepted matches, zeroes the places it frees, leaves the rest
      of the array, and moves the response generation by one exactly when a match goes. */
  lemma RetainIs(e: NodeEntry, keep: MatchEntry -> bool)
    requires Wf(e)
    ensures var r := Retain(e, keep);
            && Live(r) == Filter(Live(e), keep) && r.matchCount <= e.matchCount && SameButMatches(e, r)
            && (forall i :: r.matchCount <= i < e.matchCount ==> r.matches[i] == ZERO_MATCH)
            && (forall i :: e.matchCount <= i < MAX_MATCHES ==> r.matches[i] == e.matches[i])
            && r.responseGen == e.responseGen + (if r.matchCount < e.matchCount then 1 else 0)
            && (r.matchCount < e.matchCount <==> exists i :: 0 <= i < |Live(e)| && !keep(Live(e)[i]))
  {
    RetainLive(e, keep);
    FilterAll(Live(e), keep);
  }

  /** Filtering goes element by element, in order. */
  lemma {:induction false} FilterJoins(a: seq<MatchEntry>, b: seq<MatchEntry>, keep: MatchEntry -> bool)
    ensures Filter(a + b, keep) == Filter(a, keep) + Filter(b, keep)
  {
    if b == [] {
      assert a + b == a;
    } else {
      var init := b[..|b| - 1];
      FilterJoins(a, init, keep);
      assert (a + b)[..|a + b| - 1] == a + init;
    }
  }

  lemma RetainLive(e: NodeEntry, keep: MatchEntry -> bool)
    requires Wf(e)
    ensures Live(Retain(e, keep)) == Filter(Live(e), keep) && SameButMatches(e, Retain(e, keep))
    ensures (forall i :: 0 <= i < |Live(e)| ==> keep(Live(e)[i])) ==> Retain(e, keep) == e
  {
    FilterAll(Live(e), keep);
  }

  // --------------------------------------------- forgetting several nodes

  function NotAmong(ids: seq<u64>): MatchEntry -> bool { (m: MatchEntry) => m.nodeId !in ids }

  function ForgetAll(e: NodeEntry, ids: seq<u64>): (r: NodeEntry)
    ensures Wf(e) ==> Wf(r)
    decreases |ids|
  {
    if ids == [] then e else ForgetAll(Forget(e, ids[0]), ids[1..])
  }

  /** Forgetting a list of nodes drops exactly their matches, moves the response generation
      exactly when that drops one, and touches an entry that has none of them not at all. */
  lemma {:induction false} ForgetAllLive(e: NodeEntry, ids: seq<u64>)
    requires Wf(e)
    ensures var r := ForgetAll(e, ids);
            && SameButMatches(e, r)
            && (e.state != ACTIVE ==> r == e)
            && (e.state == ACTIVE ==> Live(r) == Filter(Live(e), NotAmong(ids)))
            && ((forall i :: 0 <= i < |Live(e)| ==> Live(e)[i].nodeId !in ids) ==> r == e)
            && r.matchCount <= e.matchCount && e.responseGen <= r.responseGen
            && (r.responseGen == e.responseGen <==> r.matchCount == e.matchCount)
    decreases |ids|
  {
    if ids == [] {
      FilterAll(Live(e), NotAmong(ids));
    } else {
      var e1 := Forget(e, ids[0]);
      ForgetAllLive(e1, ids[1..]);
      if e.state == ACTIVE {
        RetainIs(e, NotNode(ids[0]));
        RetainLive(e, NotNode(ids[0]));
        FilterTwice(Live(e), NotNode(ids[0]), NotAmong(ids[1..]));
        FilterAgree(Live(e), Both(NotNode(ids[0]), NotAmong(ids[1..])), NotAmong(ids));
      }
    }
  }

  lemma {:induction false} ForgetAllAppend(e: NodeEntry, ids: seq<u64>, id: u64)
    ensures ForgetAll(e, ids + [id]) == Forget(ForgetAll(e, ids), id)
    decreases |ids|
  {
    if ids == [] {
      assert (ids + [id])[1..] == [];
    } else {
      assert (ids + [id])[1..] == ids[1..] + [id];
      ForgetAllAppend(Forget(e, ids[0]), ids[1..], id);
    }
  }
}
