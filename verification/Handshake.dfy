/** QKD session establishment between any number of daemons: the announce and
    acknowledge protocol of `axon_daemon.rs` over the session tables of `qkd.rs`.

    The network keeps every message ever sent and may deliver it to anyone, at
    any later time and any number of times, or never: loss, duplication,
    reordering and misrouting. The key management entity hands the key behind a
    key ID to the daemon that asked for it and to the peer it was made for. */
module Handshake {
  import opened Bytes
  import opened Wrappers
  import opened SessionStore

  datatype Message = Announce(daemon: nat, sae: seq<byte>, keyId: seq<byte>) | Ack(keyId: seq<byte>)

  datatype Issue = Issue(from: nat, to: nat)

  datatype Acceptance = Acceptance(at: nat, keyId: seq<byte>)

  /** Fixed surroundings: SAE IDs and keys. */
  datatype World = World(sae: nat -> seq<byte>, kme: seq<byte> -> seq<byte>)

  datatype State = State(
    stores: seq<seq<Session>>, net: set<Message>,
    issued: map<seq<byte>, Issue>, accepted: set<Acceptance>)

  datatype Action =
    | Hello(i: nat, j: nat, offered: Option<seq<byte>>)
    | HearAnnounce(j: nat, m: Message)
    | HearAck(i: nat, m: Message)
    | Drop(i: nat, j: nat)
    | Restart(i: nat)

  predicate Enabled(s: State, a: Action) {
    match a
    case Hello(i, j, k) => i < |s.stores| && j < |s.stores| && i != j && (k.Some? ==> k.value !in s.issued)
    case HearAnnounce(j, m) => j < |s.stores| && m in s.net && m.Announce?
    case HearAck(i, m) => i < |s.stores| && m in s.net && m.Ack?
    case Drop(i, _) => i < |s.stores|
    case Restart(i) => i < |s.stores|
  }

  /** Daemon `i` hears `j`: the lower daemon prepares a key and announces it while
      it has no active session. */
  function OnHello(s: State, w: World, i: nat, j: nat, k: Option<seq<byte>>): (r: State)
    requires i < |s.stores| && |s.stores[i]| > 0
  {
    if HasActive(s.stores[i], j) || i >= j then s
    else
      var asked := !(Find(s.stores[i], j).Some? && Find(s.stores[i], j).value.sae == w.sae(j));
      var fetched := if k.None? then None else Some((k.value, w.kme(k.value)));
      var (es, id) := Prepare(s.stores[i], j, w.sae(j), fetched);
      s.(stores := s.stores[i := es],
         issued := if asked && k.Some? then s.issued[k.value := Issue(i, j)] else s.issued,
         net := if id.Some? then s.net + {Announce(i, w.sae(i), id.value)} else s.net)
  }

  /** What the key management entity of daemon `j` answers for `keyId` from `sae`. */
  function Answer(s: State, w: World, j: nat, m: Message): (key: Option<seq<byte>>)
    requires m.Announce?
  {
    if m.keyId in s.issued && s.issued[m.keyId].to == j && w.sae(s.issued[m.keyId].from) == m.sae
    then Some(w.kme(m.keyId)) else None
  }

  function OnAnnounce(s: State, w: World, j: nat, m: Message): (r: State)
    requires j < |s.stores| && |s.stores[j]| > 0 && m.Announce?
  {
    if m.sae == w.sae(j) then s
    else
      var (es, ok) := Accept(s.stores[j], m.daemon, m.sae, m.keyId, Answer(s, w, j, m));
      s.(stores := s.stores[j := es],
         net := if ok then s.net + {Ack(m.keyId)} else s.net,
         accepted := if ok then s.accepted + {Acceptance(j, m.keyId)} else s.accepted)
  }

  function Next(s: State, w: World, a: Action): (r: State)
    requires Enabled(s, a) && Sized(s)
  {
    match a
    case Hello(i, j, k) => OnHello(s, w, i, j, k)
    case HearAnnounce(j, m) => OnAnnounce(s, w, j, m)
    case HearAck(i, m) => s.(stores := s.stores[i := ActivateByKey(s.stores[i], m.keyId).0])
    case Drop(i, j) => s.(stores := s.stores[i := Remove(s.stores[i], j)])
    case Restart(i) => s.(stores := s.stores[i := seq(|s.stores[i]|, _ => NO_SESSION)])
  }

  predicate Sized(s: State) { forall i :: 0 <= i < |s.stores| ==> |s.stores[i]| > 0 }

  predicate Initial(s: State) {
    && Sized(s) && s.net == {} && s.issued == map[] && s.accepted == {}
    && forall i, k :: 0 <= i < |s.stores| && 0 <= k < |s.stores[i]| ==> s.stores[i][k] == NO_SESSION
  }

  predicate Run(states: seq<State>, w: World, actions: seq<Action>) {
    && |states| == |actions| + 1 && Initial(states[0])
    && forall n :: 0 <= n < |actions| ==>
         Sized(states[n]) && Enabled(states[n], actions[n]) && states[n + 1] == Next(states[n], w, actions[n])
  }

  // ------------------------------------------------------- safety over every run

  /** What daemon `i` may say of a session it holds. */
  predicate SessionOk(s: State, w: World, i: nat, e: Session) {
    Used(e) ==>
      && e.key == w.kme(e.keyId) && e.sae == w.sae(e.remote) && e.keyId in s.issued
      && (e.remote > i ==> s.issued[e.keyId] == Issue(i, e.remote))
      && (e.remote <= i ==> s.issued[e.keyId] == Issue(e.remote, i) && e.state == Active)
      && (e.state == Active ==> Acceptance(s.issued[e.keyId].to, e.keyId) in s.accepted)
  }

  predicate StoreOk(s: State, w: World, i: nat, es: seq<Session>) {
    |es| > 0 && OneEach(es) && forall k :: 0 <= k < |es| ==> SessionOk(s, w, i, es[k])
  }

  predicate MessageOk(s: State, w: World, m: Message) {
    && m.keyId in s.issued
    && (m.Announce? ==> m.sae == w.sae(m.daemon) && s.issued[m.keyId].from == m.daemon)
    && (m.Ack? ==> Acceptance(s.issued[m.keyId].to, m.keyId) in s.accepted)
  }

  predicate Inv(s: State, w: World) {
    && (forall i :: 0 <= i < |s.stores| ==> StoreOk(s, w, i, s.stores[i]))
    && (forall m :: m in s.net ==> MessageOk(s, w, m))
    && (forall k :: k in s.issued ==> s.issued[k].from < s.issued[k].to < |s.stores|)
    && (forall c :: c in s.accepted ==> c.keyId in s.issued && s.issued[c.keyId].to == c.at)
  }

  /** Later states keep what earlier ones justified. */
  predicate Later(s: State, t: State) {
    && s.accepted <= t.accepted && |s.stores| == |t.stores|
    && forall k :: k in s.issued ==> k in t.issued && t.issued[k] == s.issued[k]
  }

  lemma LaterKeepsStore(s: State, t: State, w: World, i: nat, es: seq<Session>)
    requires Later(s, t) && StoreOk(s, w, i, es)
    ensures StoreOk(t, w, i, es)
  {
    forall k | 0 <= k < |es| ensures SessionOk(t, w, i, es[k]) { assert SessionOk(s, w, i, es[k]); }
  }

  /** A step that changes one table and only adds to the rest. */
  lemma StepKeeps(s: State, t: State, w: World, i: nat)
    requires Inv(s, w) && Later(s, t) && i < |s.stores|
    requires t.stores == s.stores[i := t.stores[i]] && StoreOk(t, w, i, t.stores[i])
    requires forall m :: m in t.net && m !in s.net ==> MessageOk(t, w, m)
    requires forall k :: k in t.issued ==> t.issued[k].from < t.issued[k].to < |t.stores|
    requires forall c :: c in t.accepted ==> c.keyId in t.issued && t.issued[c.keyId].to == c.at
    ensures Inv(t, w)
  {
    forall h | 0 <= h < |t.stores| ensures StoreOk(t, w, h, t.stores[h]) {
      if h != i { LaterKeepsStore(s, t, w, h, s.stores[h]); }
    }
    forall m | m in t.net ensures MessageOk(t, w, m) {
      if m in s.net { assert MessageOk(s, w, m); }
    }
  }

  /** Storing a justified session in a justified table. */
  lemma PutKeepsStore(s: State, w: World, i: nat, es: seq<Session>, e: Session)
    requires StoreOk(s, w, i, es) && SessionOk(s, w, i, e) && Used(e) && Put(es, e).Some?
    ensures StoreOk(s, w, i, Put(es, e).value)
  {
    PutIsUpdate(es, e, 0);
  }

  lemma HelloKeeps(s: State, w: World, i: nat, j: nat, k: Option<seq<byte>>)
    requires Inv(s, w) && Enabled(s, Hello(i, j, k)) && |s.stores[i]| > 0
    ensures Inv(OnHello(s, w, i, j, k), w)
  {
    var t, es := OnHello(s, w, i, j, k), s.stores[i];
    assert StoreOk(s, w, i, es);
    if t != s {
      LaterKeepsStore(s, t, w, i, es);
      if Find(es, j).Some? && Find(es, j).value.sae == w.sae(j) {
        assert SessionOk(s, w, i, es[WithRemote(es, j, 0)]);
      } else if k.Some? {
        var e := Session(Waiting, j, w.sae(j), k.value, w.kme(k.value));
        if Put(es, e).Some? { PutKeepsStore(t, w, i, es, e); }
      }
      StepKeeps(s, t, w, i);
    }
  }

  lemma AnnounceKeeps(s: State, w: World, j: nat, m: Message)
    requires Inv(s, w) && Enabled(s, HearAnnounce(j, m)) && |s.stores[j]| > 0
    ensures Inv(OnAnnounce(s, w, j, m), w)
  {
    var t, es := OnAnnounce(s, w, j, m), s.stores[j];
    assert StoreOk(s, w, j, es) && MessageOk(s, w, m);
    var (es', ok) := Accept(es, m.daemon, m.sae, m.keyId, Answer(s, w, j, m));
    if m.sae != w.sae(j) && ok {
      if Find(es, m.daemon).Some? && Find(es, m.daemon).value.sae == m.sae
          && Find(es, m.daemon).value.keyId == m.keyId {
        AcceptKnown(s, w, j, m);
      } else {
        LaterKeepsStore(s, t, w, j, es);
        PutKeepsStore(t, w, j, es, Session(Active, m.daemon, m.sae, m.keyId, w.kme(m.keyId)));
      }
      StepKeeps(s, t, w, j);
    } else {
      assert t.stores == s.stores;
    }
  }

  /** A repeated announcement finds the session active already. */
  lemma AcceptKnown(s: State, w: World, j: nat, m: Message)
    requires Inv(s, w) && Enabled(s, HearAnnounce(j, m)) && |s.stores[j]| > 0 && m.sae != w.sae(j)
    requires Find(s.stores[j], m.daemon).Some? && Find(s.stores[j], m.daemon).value.keyId == m.keyId
    ensures Find(s.stores[j], m.daemon).value.state == Active && s.issued[m.keyId].to == j
  {
    var es := s.stores[j];
    assert StoreOk(s, w, j, es) && MessageOk(s, w, m);
    assert SessionOk(s, w, j, es[WithRemote(es, m.daemon, 0)]);
  }

  lemma AckKeeps(s: State, w: World, i: nat, m: Message)
    requires Inv(s, w) && Sized(s) && Enabled(s, HearAck(i, m))
    ensures Inv(Next(s, w, HearAck(i, m)), w)
  {
    var t, es := Next(s, w, HearAck(i, m)), s.stores[i];
    assert StoreOk(s, w, i, es) && MessageOk(s, w, m);
    ActivationIsExact(es, m.keyId, 0);
    var k := WithKey(es, m.keyId, 0);
    if k < |es| {
      assert WithBoth(es, es[k].remote, m.keyId, 0) == k;
      assert t.stores[i] == es[k := es[k].(state := Active)];
      forall h | 0 <= h < |es| ensures SessionOk(t, w, i, t.stores[i][h]) { assert SessionOk(s, w, i, es[h]); }
    } else {
      LaterKeepsStore(s, t, w, i, es);
    }
    StepKeeps(s, t, w, i);
  }

  lemma DropKeeps(s: State, w: World, i: nat, es': seq<Session>)
    requires Inv(s, w) && i < |s.stores| && |es'| == |s.stores[i]|
    requires forall k :: 0 <= k < |es'| ==> es'[k] == s.stores[i][k] || es'[k] == NO_SESSION
    ensures Inv(s.(stores := s.stores[i := es']), w)
  {
    var t, es := s.(stores := s.stores[i := es']), s.stores[i];
    assert StoreOk(s, w, i, es);
    forall k | 0 <= k < |es'| ensures SessionOk(t, w, i, es'[k]) { assert SessionOk(s, w, i, es[k]); }
    StepKeeps(s, t, w, i);
  }

  lemma {:induction false} RunInv(states: seq<State>, w: World, actions: seq<Action>, n: nat)
    requires Run(states, w, actions) && n <= |actions|
    ensures Inv(states[n], w)
  {
    if n > 0 {
      RunInv(states, w, actions, n - 1);
      var s := states[n - 1];
      match actions[n - 1]
      case Hello(i, j, k) => HelloKeeps(s, w, i, j, k);
      case HearAnnounce(j, m) => AnnounceKeeps(s, w, j, m);
      case HearAck(i, m) => AckKeeps(s, w, i, m);
      case Drop(i, j) => DropKeeps(s, w, i, Remove(s.stores[i], j));
      case Restart(i) => DropKeeps(s, w, i, seq(|s.stores[i]|, _ => NO_SESSION));
    }
  }

  /** The step at which a daemon accepted a key. */
  predicate AcceptedAt(states: seq<State>, w: World, actions: seq<Action>, n: nat, c: Acceptance, m: nat) {
    && m < n < |states| && m < |actions| && actions[m].HearAnnounce? && actions[m].j == c.at
    && actions[m].m.keyId == c.keyId
    && actions[m].m.Announce? && c.at < |states[m + 1].stores|
    && Find(states[m + 1].stores[c.at], actions[m].m.daemon) ==
       Some(Session(Active, actions[m].m.daemon, actions[m].m.sae, c.keyId, w.kme(c.keyId)))
  }

  lemma AcceptStores(s: State, w: World, j: nat, m: Message)
    requires Inv(s, w) && Sized(s) && Enabled(s, HearAnnounce(j, m))
    ensures OnAnnounce(s, w, j, m).accepted != s.accepted ==>
              && OnAnnounce(s, w, j, m).accepted == s.accepted + {Acceptance(j, m.keyId)}
              && Find(OnAnnounce(s, w, j, m).stores[j], m.daemon) ==
                 Some(Session(Active, m.daemon, m.sae, m.keyId, w.kme(m.keyId)))
  {
    var es := s.stores[j];
    assert StoreOk(s, w, j, es) && MessageOk(s, w, m);
    if m.sae != w.sae(j) {
      if Find(es, m.daemon).Some? && Find(es, m.daemon).value.sae == m.sae
          && Find(es, m.daemon).value.keyId == m.keyId {
        AcceptKnown(s, w, j, m);
        assert SessionOk(s, w, j, es[WithRemote(es, m.daemon, 0)]);
      } else if Answer(s, w, j, m).Some? {
        var e := Session(Active, m.daemon, m.sae, m.keyId, w.kme(m.keyId));
        if Put(es, e).Some? { PutIsUpdate(es, e, m.daemon); }
      }
    }
  }

  lemma {:induction false} AcceptedEarlier(states: seq<State>, w: World, actions: seq<Action>, n: nat, c: Acceptance)
    returns (m: nat)
    requires Run(states, w, actions) && n <= |actions| && c in states[n].accepted
    ensures AcceptedAt(states, w, actions, n, c, m)
  {
    if c in states[n - 1].accepted {
      m := AcceptedEarlier(states, w, actions, n - 1, c);
    } else {
      m := n - 1;
      RunInv(states, w, actions, m);
      AcceptStores(states[m], w, actions[m].j, actions[m].m);
    }
  }

  /** In every run: an initiator's active key was accepted by the peer, as an
      active session with the initiator under the same key bytes, at an earlier step. */
  lemma ActiveWasAccepted(states: seq<State>, w: World, actions: seq<Action>, n: nat, i: nat, e: Session)
    returns (m: nat)
    requires Run(states, w, actions) && n <= |actions| && i < |states[n].stores|
    requires e in states[n].stores[i] && e.state == Active && i < e.remote
    ensures AcceptedAt(states, w, actions, n, Acceptance(e.remote, e.keyId), m)
    ensures actions[m].m.daemon == i && e.key == w.kme(e.keyId)
  {
    RunInv(states, w, actions, n);
    var s := states[n];
    assert StoreOk(s, w, i, s.stores[i]) && SessionOk(s, w, i, e);
    m := AcceptedEarlier(states, w, actions, n, Acceptance(e.remote, e.keyId));
    RunInv(states, w, actions, m);
    assert MessageOk(states[m], w, actions[m].m);
    IssuedStays(states, w, actions, m, n);
  }

  lemma NextIsLater(s: State, w: World, a: Action)
    requires Sized(s) && Enabled(s, a)
    ensures Later(s, Next(s, w, a))
  {
  }

  lemma {:induction false} IssuedStays(states: seq<State>, w: World, actions: seq<Action>, m: nat, n: nat)
    requires Run(states, w, actions) && m <= n <= |actions|
    ensures Later(states[m], states[n])
  {
    if m < n {
      IssuedStays(states, w, actions, m, n - 1);
      NextIsLater(states[n - 1], w, actions[n - 1]);
    }
  }

  /** An acknowledgement, however late, leaves every session under another key as it was. */
  lemma LateAckIsHarmless(states: seq<State>, w: World, actions: seq<Action>, n: nat, q: nat)
    requires Run(states, w, actions) && n < |actions| && actions[n].HearAck?
    ensures
      var i, id := actions[n].i, actions[n].m.keyId;
      var before, after := Find(states[n].stores[i], q), Find(states[n + 1].stores[i], q);
      && (before.None? ==> after.None?)
      && (before.Some? && before.value.keyId != id ==> after == before)
      && (before.Some? && before.value.keyId == id ==> after == before || after == Some(before.value.(state := Active)))
  {
    RunInv(states, w, actions, n);
    assert StoreOk(states[n], w, actions[n].i, states[n].stores[actions[n].i]);
    ActivationIsExact(states[n].stores[actions[n].i], actions[n].m.keyId, q);
  }

  // ----------------------------------------------------- agreement of both sides

  function KeyFor(s: State, i: nat, j: nat): (k: Option<seq<byte>>)
    requires i < |s.stores|
  {
    if Find(s.stores[i], j).None? then None else Some(Find(s.stores[i], j).value.keyId)
  }

  /** Nothing is removed, reset or pushed out of a full table. */
  predicate Gentle(s: State, a: Action) {
    match a
    case Hello(i, j, _) => i < |s.stores| && Room(s.stores[i], j)
    case HearAnnounce(j, m) => j < |s.stores| && m.Announce? && Room(s.stores[j], m.daemon)
    case HearAck(_, _) => true
    case Drop(_, _) => false
    case Restart(_) => false
  }

  predicate AnnouncedHeld(s: State, m: Message) {
    m.Announce? ==>
      && m.keyId in s.issued && m.daemon < |s.stores|
      && KeyFor(s, m.daemon, s.issued[m.keyId].to) == Some(m.keyId)
  }

  predicate AcceptedHeld(s: State, c: Acceptance) {
    && c.keyId in s.issued && c.at < |s.stores| && s.issued[c.keyId].from < |s.stores|
    && KeyFor(s, c.at, s.issued[c.keyId].from) == Some(c.keyId)
    && KeyFor(s, s.issued[c.keyId].from, c.at) == Some(c.keyId)
  }

  predicate Agreeing(s: State) {
    (forall m :: m in s.net ==> AnnouncedHeld(s, m)) && (forall c :: c in s.accepted ==> AcceptedHeld(s, c))
  }

  /** Storing where there is room changes the key for one daemon only. */
  lemma PutChangesOne(s: State, t: State, i: nat, e: Session, h: nat, q: nat)
    requires i < |s.stores| && |s.stores[i]| > 0 && OneEach(s.stores[i]) && Used(e) && Room(s.stores[i], e.remote)
    requires Put(s.stores[i], e).Some? && t.stores == s.stores[i := Put(s.stores[i], e).value] && h < |s.stores|
    ensures KeyFor(t, h, q) == if h == i && q == e.remote then Some(e.keyId) else KeyFor(s, h, q)
  {
    PutIsUpdate(s.stores[i], e, q);
  }

  lemma HelloAgrees(s: State, w: World, i: nat, j: nat, k: Option<seq<byte>>)
    requires Inv(s, w) && Agreeing(s) && Enabled(s, Hello(i, j, k)) && |s.stores[i]| > 0 && Room(s.stores[i], j)
    ensures Agreeing(OnHello(s, w, i, j, k))
  {
    var t, es := OnHello(s, w, i, j, k), s.stores[i];
    assert StoreOk(s, w, i, es);
    if !HasActive(es, j) && i < j {
      if Find(es, j).Some? {
        assert SessionOk(s, w, i, es[WithRemote(es, j, 0)]);
        SameKeys(s, t);
      } else if k.Some? {
        var e := Session(Waiting, j, w.sae(j), k.value, w.kme(k.value));
        if Put(es, e).Some? { NewKeyAgrees(s, t, w, i, e); } else { SameKeys(s, t); }
      }
    }
  }

  /** A first key for a pair contradicts nothing said before. */
  lemma NewKeyAgrees(s: State, t: State, w: World, i: nat, e: Session)
    requires Inv(s, w) && Agreeing(s) && i < |s.stores| && |s.stores[i]| > 0 && Room(s.stores[i], e.remote) && Used(e)
    requires Put(s.stores[i], e).Some? && t.stores == s.stores[i := Put(s.stores[i], e).value]
    requires Find(s.stores[i], e.remote).None? && e.keyId !in s.issued
    requires t.issued == s.issued[e.keyId := Issue(i, e.remote)] && t.accepted == s.accepted
    requires t.net == s.net + {Announce(i, w.sae(i), e.keyId)}
    ensures Agreeing(t)
  {
    assert StoreOk(s, w, i, s.stores[i]);
    forall m | m in t.net ensures AnnouncedHeld(t, m) {
      if m.Announce? {
        if m in s.net {
          assert AnnouncedHeld(s, m);
          PutChangesOne(s, t, i, e, m.daemon, s.issued[m.keyId].to);
        } else {
          PutChangesOne(s, t, i, e, i, e.remote);
        }
      }
    }
    forall c | c in t.accepted ensures AcceptedHeld(t, c) {
      assert AcceptedHeld(s, c);
      PutChangesOne(s, t, i, e, c.at, s.issued[c.keyId].from);
      PutChangesOne(s, t, i, e, s.issued[c.keyId].from, c.at);
    }
  }

  /** A step after which every table names the same keys. */
  lemma SameKeys(s: State, t: State)
    requires Agreeing(s) && Later(s, t)
    requires forall i, j: nat :: 0 <= i < |s.stores| ==> KeyFor(t, i, j) == KeyFor(s, i, j)
    requires forall m :: m in t.net && m !in s.net ==> AnnouncedHeld(t, m)
    requires forall c :: c in t.accepted && c !in s.accepted ==> AcceptedHeld(t, c)
    ensures Agreeing(t)
  {
    forall m | m in t.net ensures AnnouncedHeld(t, m) {
      if m in s.net { assert AnnouncedHeld(s, m); }
    }
    forall c | c in t.accepted ensures AcceptedHeld(t, c) {
      if c in s.accepted { assert AcceptedHeld(s, c); }
    }
  }

  lemma AnnounceAgrees(s: State, w: World, j: nat, m: Message)
    requires Inv(s, w) && Agreeing(s) && Enabled(s, HearAnnounce(j, m)) && |s.stores[j]| > 0
               && Room(s.stores[j], m.daemon)
    ensures Agreeing(OnAnnounce(s, w, j, m))
  {
    var t, es := OnAnnounce(s, w, j, m), s.stores[j];
    assert StoreOk(s, w, j, es) && MessageOk(s, w, m) && AnnouncedHeld(s, m);
    if m.sae != w.sae(j) {
      if Find(es, m.daemon).Some? && Find(es, m.daemon).value.sae == m.sae
          && Find(es, m.daemon).value.keyId == m.keyId {
        AcceptKnown(s, w, j, m);
        SameKeys(s, t);
      } else if Answer(s, w, j, m).Some? {
        var e := Session(Active, m.daemon, m.sae, m.keyId, w.kme(m.keyId));
        if Put(es, e).Some? { AcceptAgrees(s, t, w, j, m); } else { SameKeys(s, t); }
      } else {
        SameKeys(s, t);
      }
    }
  }

  lemma AcceptAgrees(s: State, t: State, w: World, j: nat, m: Message)
    requires Inv(s, w) && Agreeing(s) && Enabled(s, HearAnnounce(j, m)) && |s.stores[j]| > 0
               && Room(s.stores[j], m.daemon)
    requires m.keyId in s.issued && s.issued[m.keyId].to == j && AnnouncedHeld(s, m) && MessageOk(s, w, m)
    requires var e := Session(Active, m.daemon, m.sae, m.keyId, w.kme(m.keyId));
             Put(s.stores[j], e).Some? && t.stores == s.stores[j := Put(s.stores[j], e).value]
    requires t.issued == s.issued && t.net == s.net + {Ack(m.keyId)}
               && t.accepted == s.accepted + {Acceptance(j, m.keyId)}
    ensures Agreeing(t)
  {
    var e := Session(Active, m.daemon, m.sae, m.keyId, w.kme(m.keyId));
    assert StoreOk(s, w, j, s.stores[j]);
    forall b | b in t.net ensures AnnouncedHeld(t, b) {
      if b.Announce? {
        assert AnnouncedHeld(s, b) && MessageOk(s, w, b);
        PutChangesOne(s, t, j, e, b.daemon, s.issued[b.keyId].to);
      }
    }
    forall c | c in t.accepted ensures AcceptedHeld(t, c) {
      PutChangesOne(s, t, j, e, c.at, s.issued[c.keyId].from);
      PutChangesOne(s, t, j, e, s.issued[c.keyId].from, c.at);
      if c in s.accepted { assert AcceptedHeld(s, c); }
    }
  }

  lemma AckAgrees(s: State, w: World, i: nat, m: Message)
    requires Inv(s, w) && Agreeing(s) && Sized(s) && Enabled(s, HearAck(i, m))
    ensures Agreeing(Next(s, w, HearAck(i, m)))
  {
    var t := Next(s, w, HearAck(i, m));
    assert StoreOk(s, w, i, s.stores[i]);
    forall h, q: nat | 0 <= h < |s.stores| ensures KeyFor(t, h, q) == KeyFor(s, h, q) {
      ActivationIsExact(s.stores[i], m.keyId, q);
    }
    SameKeys(s, t);
  }

  lemma {:induction false} RunAgrees(states: seq<State>, w: World, actions: seq<Action>, n: nat)
    requires Run(states, w, actions) && n <= |actions|
    requires forall m :: 0 <= m < n ==> Gentle(states[m], actions[m])
    ensures Agreeing(states[n])
  {
    if n > 0 {
      RunAgrees(states, w, actions, n - 1);
      RunInv(states, w, actions, n - 1);
      var s := states[n - 1];
      match actions[n - 1]
      case Hello(i, j, k) => HelloAgrees(s, w, i, j, k);
      case HearAnnounce(j, m) => AnnounceAgrees(s, w, j, m);
      case HearAck(i, m) => AckAgrees(s, w, i, m);
    }
  }

  /** In every run without removal, reset or eviction: once the initiator's
      session is active, the peer holds an active session with it under the same
      key ID and key bytes; and whatever a responder holds, its initiator holds
      the same key. */
  lemma BothSidesAgree(states: seq<State>, w: World, actions: seq<Action>, n: nat, i: nat, j: nat)
    requires Run(states, w, actions) && n <= |actions| && i < j < |states[n].stores|
    requires forall m :: 0 <= m < n ==> Gentle(states[m], actions[m])
    ensures
      var mine, theirs := Find(states[n].stores[i], j), Find(states[n].stores[j], i);
      && (mine.Some? && mine.value.state == Active ==> theirs.Some?)
      && (theirs.Some? ==>
            && mine.Some? && theirs.value.state == Active
            && mine.value.keyId == theirs.value.keyId && mine.value.key == theirs.value.key)
  {
    RunAgrees(states, w, actions, n);
    RunInv(states, w, actions, n);
    var s := states[n];
    assert StoreOk(s, w, i, s.stores[i]) && StoreOk(s, w, j, s.stores[j]);
    var a, b := WithRemote(s.stores[i], j, 0), WithRemote(s.stores[j], i, 0);
    if a < |s.stores[i]| { assert SessionOk(s, w, i, s.stores[i][a]); }
    if b < |s.stores[j]| { assert SessionOk(s, w, j, s.stores[j][b]); }
    if a < |s.stores[i]| && s.stores[i][a].state == Active {
      assert AcceptedHeld(s, Acceptance(j, s.stores[i][a].keyId));
    }
    if b < |s.stores[j]| { assert AcceptedHeld(s, Acceptance(j, s.stores[j][b].keyId)); }
  }

  // --------------------------------------------------- when there is always room

  lemma {:induction false} UsedRemotes(es: seq<Session>, k: nat) returns (used: set<nat>)
    requires k <= |es| && OneEach(es) && forall i :: 0 <= i < k ==> Used(es[i])
    ensures |used| == k && forall r :: r in used <==> exists i :: 0 <= i < k && es[i].remote == r
  {
    if k == 0 {
      used := {};
    } else {
      var rest := UsedRemotes(es, k - 1);
      used := rest + {es[k - 1].remote};
    }
  }

  lemma {:induction false} BelowSize(n: nat) returns (all: set<nat>)
    ensures |all| == n && forall r: nat :: r in all <==> r < n
  {
    if n == 0 {
      all := {};
    } else {
      var rest := BelowSize(n - 1);
      all := rest + {n - 1};
    }
  }

  lemma SubsetSize(a: set<nat>, b: set<nat>)
    requires a <= b
    ensures |a| <= |b|
  {
    assert b == a + (b - a);
  }

  /** A table with a slot for every other daemon never pushes a session out. */
  lemma RoomForAll(s: State, w: World, i: nat, r: nat)
    requires Inv(s, w) && i < |s.stores| && r < |s.stores| && r != i && |s.stores| - 1 <= |s.stores[i]|
    ensures Room(s.stores[i], r)
  {
    var es := s.stores[i];
    assert StoreOk(s, w, i, es);
    if !Room(es, r) {
      var used := UsedRemotes(es, |es|);
      var all := BelowSize(|s.stores|);
      forall q | q in used ensures q in all && q != i && q != r {
        var k :| 0 <= k < |es| && es[k].remote == q;
        assert SessionOk(s, w, i, es[k]);
      }
      assert |used + {i, r}| == |used| + 2;
      SubsetSize(used + {i, r}, all);
    }
  }

  // ------------------------------------------------------- removal breaks agreement

  lemma ActiveIsFound(es: seq<Session>, r: nat)
    requires OneEach(es)
    ensures HasActive(es, r) <==> Find(es, r).Some? && Find(es, r).value.state == Active
  {
    if i :| 0 <= i < |es| && es[i].state == Active && es[i].remote == r { FindAt(es, i); }
  }

  /** Daemon `i`, with no session, prepares and announces key `k` for `j`. */
  lemma FirstHello(s: State, w: World, i: nat, j: nat, k: seq<byte>)
    requires Inv(s, w) && i < j < |s.stores| && Room(s.stores[i], j) && Find(s.stores[i], j).None?
    requires k !in s.issued && ValidIds(w.sae(j), k)
    ensures |s.stores[i]| > 0
    ensures var t := OnHello(s, w, i, j, Some(k));
            && Inv(t, w) && t.stores[j] == s.stores[j] && Announce(i, w.sae(i), k) in t.net && s.net <= t.net
            && t.issued == s.issued[k := Issue(i, j)]
            && Find(t.stores[i], j) == Some(Session(Waiting, j, w.sae(j), k, w.kme(k)))
  {
    var es := s.stores[i];
    assert StoreOk(s, w, i, es);
    ActiveIsFound(es, j);
    HelloKeeps(s, w, i, j, Some(k));
    PutIsUpdate(es, Session(Waiting, j, w.sae(j), k, w.kme(k)), j);
  }

  lemma FirstAnnounce(s: State, w: World, i: nat, j: nat, k: seq<byte>)
    requires Inv(s, w) && i < j < |s.stores| && Announce(i, w.sae(i), k) in s.net && w.sae(i) != w.sae(j)
    requires k in s.issued && s.issued[k] == Issue(i, j) && ValidIds(w.sae(i), k)
    requires Find(s.stores[j], i).Some? ==> Find(s.stores[j], i).value.keyId != k
    ensures |s.stores[j]| > 0
    ensures var t := OnAnnounce(s, w, j, Announce(i, w.sae(i), k));
            && Inv(t, w) && t.stores[i] == s.stores[i] && Ack(k) in t.net && s.net <= t.net && t.issued == s.issued
            && Find(t.stores[j], i) == Some(Session(Active, i, w.sae(i), k, w.kme(k)))
  {
    var es, m := s.stores[j], Announce(i, w.sae(i), k);
    assert StoreOk(s, w, j, es);
    AnnounceKeeps(s, w, j, m);
    PutIsUpdate(es, Session(Active, i, w.sae(i), k, w.kme(k)), i);
  }

  lemma FirstAck(s: State, w: World, i: nat, j: nat, k: seq<byte>)
    requires Inv(s, w) && Sized(s) && i < j < |s.stores| && Ack(k) in s.net
    requires Find(s.stores[i], j) == Some(Session(Waiting, j, w.sae(j), k, w.kme(k)))
    ensures var t := Next(s, w, HearAck(i, Ack(k)));
            && Inv(t, w) && t.stores[j] == s.stores[j] && t.net == s.net && t.issued == s.issued
            && Find(t.stores[i], j) == Some(Session(Active, j, w.sae(j), k, w.kme(k)))
  {
    var es := s.stores[i];
    assert StoreOk(s, w, i, es);
    AckKeeps(s, w, i, Ack(k));
    var at := WithKey(es, k, 0);
    assert SessionOk(s, w, i, es[at]) && SessionOk(s, w, i, es[WithRemote(es, j, 0)]);
    ActivationIsExact(es, k, j);
  }

  predicate Moves(s: State, w: World, a: Action, t: State) { Sized(s) && Enabled(s, a) && t == Next(s, w, a) }

  predicate Path(states: seq<State>, w: World, actions: seq<Action>) {
    |states| == |actions| + 1 && forall n :: 0 <= n < |actions| ==> Moves(states[n], w, actions[n], states[n + 1])
  }

  lemma PathJoin(r1: seq<State>, a1: seq<Action>, r2: seq<State>, a2: seq<Action>, w: World)
    requires Path(r1, w, a1) && Path(r2, w, a2) && r1[|a1|] == r2[0]
    ensures Path(r1 + r2[1..], w, a1 + a2)
    ensures (r1 + r2[1..])[0] == r1[0] && (r1 + r2[1..])[|a1| + |a2|] == r2[|a2|]
  {
    var r, a := r1 + r2[1..], a1 + a2;
    forall n | 0 <= n < |a| ensures Moves(r[n], w, a[n], r[n + 1]) {
      if n >= |a1| { assert r[n] == r2[n - |a1|] && r[n + 1] == r2[n - |a1| + 1]; }
    }
  }

  function StartingOver(i: nat, j: nat, k1: seq<byte>, k2: seq<byte>): seq<Action> {
    [Hello(i, j, Some(k1)), Drop(i, j), Hello(i, j, Some(k2))]
  }

  function Settling(i: nat, j: nat, w: World, k: seq<byte>): seq<Action> {
    [HearAnnounce(j, Announce(i, w.sae(i), k)), HearAck(i, Ack(k))]
  }

  /** The initiator drops its waiting session and starts over, both sides settle on
      the second key, and then the first announcement arrives. */
  function LateAnnouncement(i: nat, j: nat, w: World, k1: seq<byte>, k2: seq<byte>): seq<Action> {
    StartingOver(i, j, k1, k2) + Settling(i, j, w, k2) + [HearAnnounce(j, Announce(i, w.sae(i), k1))]
  }

  /** Announce, remove, announce again: both announcements are on the way. */
  lemma StartOver(s: State, w: World, i: nat, j: nat, k1: seq<byte>, k2: seq<byte>) returns (run: seq<State>, t: State)
    requires Inv(s, w) && i < j < |s.stores| && k1 != k2 && k1 !in s.issued && k2 !in s.issued
    requires ValidIds(w.sae(j), k1) && ValidIds(w.sae(j), k2)
    requires Find(s.stores[i], j).None? && Room(s.stores[i], j)
    ensures Path(run, w, StartingOver(i, j, k1, k2)) && run[0] == s && run[3] == t && Inv(t, w)
    ensures |t.stores| == |s.stores| && t.stores[j] == s.stores[j]
    ensures Announce(i, w.sae(i), k1) in t.net && Announce(i, w.sae(i), k2) in t.net
    ensures t.issued == s.issued[k1 := Issue(i, j)][k2 := Issue(i, j)]
    ensures Find(t.stores[i], j) == Some(Session(Waiting, j, w.sae(j), k2, w.kme(k2)))
  {
    FirstHello(s, w, i, j, k1);
    var s1 := OnHello(s, w, i, j, Some(k1));
    assert StoreOk(s1, w, i, s1.stores[i]);
    var s2 := s1.(stores := s1.stores[i := Remove(s1.stores[i], j)]);
    DropKeeps(s1, w, i, Remove(s1.stores[i], j));
    RemoveIsErasure(s1.stores[i], j, j);
    RoomAfterRemove(s1.stores[i], j);
    FirstHello(s2, w, i, j, k2);
    t := OnHello(s2, w, i, j, Some(k2));
    InvSized(s, w); InvSized(s1, w); InvSized(s2, w);
    run := [s, s1, s2, t];
  }

  /** The second key is accepted and acknowledged. */
  lemma Settle(s: State, w: World, i: nat, j: nat, k: seq<byte>) returns (run: seq<State>, t: State)
    requires Inv(s, w) && i < j < |s.stores| && Announce(i, w.sae(i), k) in s.net && w.sae(i) != w.sae(j)
    requires k in s.issued && s.issued[k] == Issue(i, j) && ValidIds(w.sae(i), k) && Find(s.stores[j], i).None?
    requires Find(s.stores[i], j) == Some(Session(Waiting, j, w.sae(j), k, w.kme(k)))
    ensures Path(run, w, Settling(i, j, w, k)) && run[0] == s && run[2] == t && Inv(t, w)
    ensures |t.stores| == |s.stores| && s.net <= t.net && t.issued == s.issued
    ensures Find(t.stores[i], j) == Some(Session(Active, j, w.sae(j), k, w.kme(k)))
    ensures Find(t.stores[j], i) == Some(Session(Active, i, w.sae(i), k, w.kme(k)))
  {
    FirstAnnounce(s, w, i, j, k);
    var s1 := OnAnnounce(s, w, j, Announce(i, w.sae(i), k));
    InvSized(s, w); InvSized(s1, w);
    FirstAck(s1, w, i, j, k);
    t := Next(s1, w, HearAck(i, Ack(k)));
    run := [s, s1, t];
  }

  /** From every reachable state in which two daemons have no session yet, that run
      leaves both sides active under different keys. */
  lemma RemovalBreaksAgreement(s: State, w: World, i: nat, j: nat, k1: seq<byte>, k2: seq<byte>)
    returns (run: seq<State>, t: State)
    requires Inv(s, w) && i < j < |s.stores| && w.sae(i) != w.sae(j) && k1 != k2 && k1 !in s.issued && k2 !in s.issued
    requires ValidIds(w.sae(i), k1) && ValidIds(w.sae(j), k1) && ValidIds(w.sae(i), k2) && ValidIds(w.sae(j), k2)
    requires Find(s.stores[i], j).None? && Find(s.stores[j], i).None? && Room(s.stores[i], j)
    ensures Path(run, w, LateAnnouncement(i, j, w, k1, k2)) && run[0] == s && run[6] == t && |t.stores| == |s.stores|
    ensures Find(t.stores[i], j) == Some(Session(Active, j, w.sae(j), k2, w.kme(k2)))
    ensures Find(t.stores[j], i) == Some(Session(Active, i, w.sae(i), k1, w.kme(k1)))
  {
    var run1, t1 := StartOver(s, w, i, j, k1, k2);
    var run2, t2 := Settle(t1, w, i, j, k2);
    PathJoin(run1, StartingOver(i, j, k1, k2), run2, Settling(i, j, w, k2), w);
    FirstAnnounce(t2, w, i, j, k1);
    InvSized(t2, w);
    t := OnAnnounce(t2, w, j, Announce(i, w.sae(i), k1));
    var last := HearAnnounce(j, Announce(i, w.sae(i), k1));
    assert Moves(t2, w, last, t);
    assert Path([t2, t], w, [last]);
    run := run1 + run2[1..];
    PathJoin(run, StartingOver(i, j, k1, k2) + Settling(i, j, w, k2), [t2, t], [last], w);
    run := run + [t2, t][1..];
  }

  lemma InvSized(s: State, w: World)
    requires Inv(s, w)
    ensures Sized(s)
  {
    forall i | 0 <= i < |s.stores| ensures |s.stores[i]| > 0 { assert StoreOk(s, w, i, s.stores[i]); }
  }

  lemma RoomAfterRemove(es: seq<Session>, r: nat)
    requires Find(es, r).Some?
    ensures Room(Remove(es, r), r)
  {
    assert Remove(es, r)[WithRemote(es, r, 0)] == NO_SESSION;
  }
}
