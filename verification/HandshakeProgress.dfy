/** A QKD session can always be brought up: from every reachable state the announce and
    acknowledge exchange of `axon_daemon.rs` ends with both sides active under one key. */
module HandshakeProgress {
  import opened Bytes
  import opened Wrappers
  import opened SessionStore
  import opened Handshake
  import K = MessageKeyCache

  /** Only valid identifiers are ever stored. */
  predicate AllValid(s: State) {
    forall i, k :: 0 <= i < |s.stores| && 0 <= k < |s.stores[i]| && Used(s.stores[i][k]) ==>
      ValidIds(s.stores[i][k].sae, s.stores[i][k].keyId)
  }

  lemma ValidStays(s: State, w: World, a: Action)
    requires AllValid(s) && Sized(s) && Enabled(s, a)
    ensures AllValid(Next(s, w, a))
  {
  }

  lemma {:induction false} RunValid(states: seq<State>, w: World, actions: seq<Action>, n: nat)
    requires Run(states, w, actions) && n <= |actions|
    ensures AllValid(states[n])
  {
    if n > 0 {
      RunValid(states, w, actions, n - 1);
      ValidStays(states[n - 1], w, actions[n - 1]);
    }
  }

  /** The initiator announces the key it has waiting, or the one it is offered. */
  lemma Announces(s: State, w: World, i: nat, j: nat, k: seq<byte>) returns (id: seq<byte>)
    requires Inv(s, w) && AllValid(s) && i < j < |s.stores| && !HasActive(s.stores[i], j)
    requires k !in s.issued && ValidIds(w.sae(j), k) && K.ValidId(w.sae(i), K.MAX_SAE_ID_LEN)
    ensures |s.stores[i]| > 0
    ensures var t := OnHello(s, w, i, j, Some(k));
            && Inv(t, w) && t.stores == s.stores[i := t.stores[i]] && Announce(i, w.sae(i), id) in t.net
            && id in t.issued && t.issued[id] == Issue(i, j) && ValidIds(w.sae(i), id)
            && Find(t.stores[i], j) == Some(Session(Waiting, j, w.sae(j), id, w.kme(id)))
  {
    var es := s.stores[i];
    assert StoreOk(s, w, i, es);
    ActiveIsFound(es, j);
    HelloKeeps(s, w, i, j, Some(k));
    var at := WithRemote(es, j, 0);
    if at < |es| {
      id := es[at].keyId;
      assert SessionOk(s, w, i, es[at]);
    } else {
      id := k;
      PutIsUpdate(es, Session(Waiting, j, w.sae(j), k, w.kme(k)), j);
    }
  }

  /** The responder accepts it, again if need be, and acknowledges. */
  lemma Acknowledges(s: State, w: World, i: nat, j: nat, id: seq<byte>)
    requires Inv(s, w) && i < j < |s.stores| && Announce(i, w.sae(i), id) in s.net && w.sae(i) != w.sae(j)
    requires id in s.issued && s.issued[id] == Issue(i, j) && ValidIds(w.sae(i), id)
    ensures |s.stores[j]| > 0
    ensures var t := OnAnnounce(s, w, j, Announce(i, w.sae(i), id));
            && Inv(t, w) && t.stores[i] == s.stores[i] && Ack(id) in t.net && |t.stores| == |s.stores|
            && Find(t.stores[j], i) == Some(Session(Active, i, w.sae(i), id, w.kme(id)))
  {
    var es, m := s.stores[j], Announce(i, w.sae(i), id);
    assert StoreOk(s, w, j, es);
    AnnounceKeeps(s, w, j, m);
    var at := WithRemote(es, i, 0);
    if at < |es| { assert SessionOk(s, w, j, es[at]); }
    if at < |es| && es[at].keyId == id {
      AcceptKnown(s, w, j, m);
    } else {
      PutIsUpdate(es, Session(Active, i, w.sae(i), id, w.kme(id)), i);
    }
  }

  function Exchange(i: nat, j: nat, w: World, k: seq<byte>, id: seq<byte>): seq<Action> {
    [Hello(i, j, Some(k)), HearAnnounce(j, Announce(i, w.sae(i), id)), HearAck(i, Ack(id))]
  }

  lemma Completes(s: State, w: World, i: nat, j: nat, k: seq<byte>) returns (run: seq<State>, id: seq<byte>)
    requires Inv(s, w) && AllValid(s) && i < j < |s.stores| && !HasActive(s.stores[i], j) && w.sae(i) != w.sae(j)
    requires k !in s.issued && ValidIds(w.sae(j), k) && K.ValidId(w.sae(i), K.MAX_SAE_ID_LEN)
    ensures Path(run, w, Exchange(i, j, w, k, id)) && run[0] == s && |run[3].stores| == |s.stores|
    ensures Find(run[3].stores[i], j) == Some(Session(Active, j, w.sae(j), id, w.kme(id)))
    ensures Find(run[3].stores[j], i) == Some(Session(Active, i, w.sae(i), id, w.kme(id)))
  {
    id := Announces(s, w, i, j, k);
    var s1 := OnHello(s, w, i, j, Some(k));
    InvSized(s, w);
    assert Moves(s, w, Hello(i, j, Some(k)), s1);
    Acknowledges(s1, w, i, j, id);
    var s2 := OnAnnounce(s1, w, j, Announce(i, w.sae(i), id));
    InvSized(s1, w);
    assert Moves(s1, w, HearAnnounce(j, Announce(i, w.sae(i), id)), s2);
    InvSized(s2, w);
    FirstAck(s2, w, i, j, id);
    run := [s, s1, s2, Next(s2, w, HearAck(i, Ack(id)))];
  }

  /** From every reachable state in which the lower daemon has no active session with the
      higher one, whatever waiting, stale or foreign sessions either table holds: hearing
      the peer, its hearing the announcement, and the acknowledgement coming back leave
      both sides active under the same key id and key bytes. */
  lemma HandshakeCompletes(states: seq<State>, w: World, actions: seq<Action>, i: nat, j: nat, k: seq<byte>)
    returns (run: seq<State>, id: seq<byte>)
    requires Run(states, w, actions) && i < j < |states[|actions|].stores|
    requires !HasActive(states[|actions|].stores[i], j) && w.sae(i) != w.sae(j)
    requires k !in states[|actions|].issued && ValidIds(w.sae(j), k) && K.ValidId(w.sae(i), K.MAX_SAE_ID_LEN)
    ensures Path(run, w, Exchange(i, j, w, k, id)) && run[0] == states[|actions|] && |run[3].stores| == |run[0].stores|
    ensures Find(run[3].stores[i], j) == Some(Session(Active, j, w.sae(j), id, w.kme(id)))
    ensures Find(run[3].stores[j], i) == Some(Session(Active, i, w.sae(i), id, w.kme(id)))
  {
    RunInv(states, w, actions, |actions|);
    RunValid(states, w, actions, |actions|);
    run, id := Completes(states[|actions|], w, i, j, k);
  }
}
