/** When the two sides of a QKD session agree: the exact steps that break agreement, in
    every run, with removals, resets, evictions and messages of any age. */
module HandshakeAgreement {
  import opened Bytes
  import opened Wrappers
  import opened SessionStore
  import opened Handshake

  /** The initiator's and the responder's session: an active initiator has a responder,
      and whatever a responder holds its initiator holds under the same key. */
  predicate Agrees(mine: Option<Session>, theirs: Option<Session>) {
    && (mine.Some? && mine.value.state == Active ==> theirs.Some?)
    && (theirs.Some? ==> mine.Some? && mine.value.keyId == theirs.value.keyId)
  }

  /** Daemon `h` against daemon `q`, whichever of them is the initiator. */
  predicate Beside(s: State, h: nat, q: nat)
    requires h < |s.stores| && q < |s.stores|
  {
    var x, y := Find(s.stores[h], q), Find(s.stores[q], h);
    if h < q then Agrees(x, y) else Agrees(y, x)
  }

  predicate Agree(s: State) {
    forall i: nat, j: nat :: i < |s.stores| && j < |s.stores| && i != j ==> Beside(s, i, j)
  }

  /** Agreement with the rest of what holds in every run. */
  lemma AgreeingSides(s: State, w: World, i: nat, j: nat)
    requires Inv(s, w) && Agree(s) && i < j < |s.stores|
    ensures
      var mine, theirs := Find(s.stores[i], j), Find(s.stores[j], i);
      && (mine.Some? && mine.value.state == Active ==> theirs.Some?)
      && (theirs.Some? ==>
            && mine.Some? && theirs.value.state == Active
            && mine.value.keyId == theirs.value.keyId && mine.value.key == theirs.value.key)
  {
    assert Beside(s, i, j) && StoreOk(s, w, i, s.stores[i]) && StoreOk(s, w, j, s.stores[j]);
    var a, b := WithRemote(s.stores[i], j, 0), WithRemote(s.stores[j], i, 0);
    if a < |s.stores[i]| { assert SessionOk(s, w, i, s.stores[i][a]); }
    if b < |s.stores[j]| { assert SessionOk(s, w, j, s.stores[j][b]); }
  }

  // ------------------------------------------------------------- what breaks it

  /** The peer counts on `h`'s session: it is the responder of it, or its active initiator. */
  predicate Relied(s: State, h: nat, q: nat) {
    && h < |s.stores| && q < |s.stores| && h != q && Find(s.stores[h], q).Some? && Find(s.stores[q], h).Some?
    && (h < q || Find(s.stores[q], h).value.state == Active)
  }

  /** Storing a session with `r` pushes one out that its peer counts on. */
  predicate PushesOut(s: State, h: nat, r: nat) {
    && h < |s.stores| && |s.stores[h]| > 0 && !Room(s.stores[h], r)
    && Relied(s, h, s.stores[h][0].remote)
  }

  /** Daemon `j` takes over the announced key. */
  predicate TakesOver(s: State, w: World, j: nat, m: Message)
    requires j < |s.stores| && m.Announce?
  {
    && m.sae != w.sae(j) && KeyFor(s, j, m.daemon) != Some(m.keyId)
    && Answer(s, w, j, m).Some? && ValidIds(m.sae, m.keyId)
  }

  /** Exactly these steps end agreement: dropping, resetting or pushing out a session the
      peer counts on, activating a key the peer no longer holds, and taking over a key
      that is no longer the initiator's. */
  predicate Breaks(s: State, w: World, a: Action)
    requires Enabled(s, a)
  {
    match a
    case Hello(i, j, k) =>
      && i < j && Find(s.stores[i], j).None? && k.Some? && ValidIds(w.sae(j), k.value)
      && PushesOut(s, i, j)
    case HearAnnounce(j, m) =>
      && TakesOver(s, w, j, m) && m.daemon < |s.stores|
      && (KeyFor(s, m.daemon, j) != Some(m.keyId) || PushesOut(s, j, m.daemon))
    case HearAck(i, m) =>
      exists q: nat :: i < q < |s.stores| && KeyFor(s, i, q) == Some(m.keyId) && Find(s.stores[q], i).None?
    case Drop(i, q) => Relied(s, i, q)
    case Restart(i) => exists q: nat :: q < |s.stores| && Relied(s, i, q)
  }

  // ------------------------------------------------------------- step by step

  /** Only pairs of the daemon whose table changed can be affected. */
  lemma OneStore(s: State, t: State, h: nat)
    requires Agree(s) && h < |s.stores| == |t.stores| && t.stores == s.stores[h := t.stores[h]]
    ensures Agree(t) <==> forall q: nat :: q < |t.stores| && q != h ==> Beside(t, h, q)
  {
    if forall q: nat :: q < |t.stores| && q != h ==> Beside(t, h, q) {
      forall i: nat, j: nat | i < |t.stores| && j < |t.stores| && i != j ensures Beside(t, i, j) {
        if i == h {
          assert Beside(t, h, j);
        } else if j == h {
          assert Beside(t, h, i);
        } else {
          assert Beside(s, i, j);
        }
      }
    }
  }

  lemma BesideSame(s: State, t: State, h: nat, q: nat)
    requires Agree(s) && h < |s.stores| == |t.stores| && t.stores == s.stores[h := t.stores[h]]
    requires q < |s.stores| && q != h && Find(t.stores[h], q) == Find(s.stores[h], q)
    ensures Beside(t, h, q)
  {
    assert Beside(s, h, q);
  }

  lemma BesideLost(s: State, t: State, h: nat, q: nat)
    requires Agree(s) && h < |s.stores| == |t.stores| && t.stores == s.stores[h := t.stores[h]]
    requires q < |s.stores| && q != h && Find(t.stores[h], q).None?
    ensures Beside(t, h, q) <==> !Relied(s, h, q)
  {
    assert Beside(s, h, q);
  }

  lemma RemoteInRange(s: State, w: World, h: nat, q: nat)
    requires Inv(s, w) && h < |s.stores| && Find(s.stores[h], q).Some?
    ensures q < |s.stores| && q != h && Find(s.stores[h], q).value.sae == w.sae(q)
  {
    assert StoreOk(s, w, h, s.stores[h]);
    assert SessionOk(s, w, h, s.stores[h][WithRemote(s.stores[h], q, 0)]);
  }

  lemma DropAgreesIff(s: State, w: World, i: nat, q: nat)
    requires Inv(s, w) && Sized(s) && Agree(s) && Enabled(s, Drop(i, q))
    ensures Agree(Next(s, w, Drop(i, q))) <==> !Relied(s, i, q)
  {
    var t := Next(s, w, Drop(i, q));
    OneStore(s, t, i);
    assert StoreOk(s, w, i, s.stores[i]);
    forall r: nat | r < |s.stores| && r != i ensures Beside(t, i, r) <==> !(r == q && Relied(s, i, q)) {
      RemoveIsErasure(s.stores[i], q, r);
      if r == q { BesideLost(s, t, i, q); } else { BesideSame(s, t, i, r); }
    }
    if Relied(s, i, q) { assert !Beside(t, i, q); }
  }

  lemma RestartAgreesIff(s: State, w: World, i: nat)
    requires Inv(s, w) && Sized(s) && Agree(s) && Enabled(s, Restart(i))
    ensures Agree(Next(s, w, Restart(i))) <==> !Breaks(s, w, Restart(i))
  {
    var t := Next(s, w, Restart(i));
    OneStore(s, t, i);
    forall r: nat | r < |s.stores| && r != i ensures Beside(t, i, r) <==> !Relied(s, i, r) {
      BesideLost(s, t, i, r);
    }
  }

  lemma AckAgreesIff(s: State, w: World, i: nat, m: Message)
    requires Inv(s, w) && Sized(s) && Agree(s) && Enabled(s, HearAck(i, m))
    ensures Agree(Next(s, w, HearAck(i, m))) <==> !Breaks(s, w, HearAck(i, m))
  {
    var t := Next(s, w, HearAck(i, m));
    OneStore(s, t, i);
    forall r: nat | r < |s.stores| && r != i
      ensures Beside(t, i, r) <==> !(i < r && KeyFor(s, i, r) == Some(m.keyId) && Find(s.stores[r], i).None?)
    {
      AckBeside(s, t, w, i, m, r);
    }
  }

  lemma AckBeside(s: State, t: State, w: World, i: nat, m: Message, r: nat)
    requires Inv(s, w) && Sized(s) && Agree(s) && Enabled(s, HearAck(i, m)) && t == Next(s, w, HearAck(i, m))
    requires r < |s.stores| && r != i
    ensures Beside(t, i, r) <==> !(i < r && KeyFor(s, i, r) == Some(m.keyId) && Find(s.stores[r], i).None?)
  {
    var es, at := s.stores[i], WithRemote(s.stores[i], r, 0);
    assert StoreOk(s, w, i, es) && Beside(s, i, r);
    ActivationIsExact(es, m.keyId, r);
    if at < |es| {
      assert SessionOk(s, w, i, es[at]);
      var k := WithKey(es, m.keyId, 0);
      if k < |es| { assert SessionOk(s, w, i, es[k]); }
    }
  }

  /** Storing session `e` at `h`: the new pair must agree, and the one pushed out not be missed. */
  lemma PutAgreesIff(s: State, t: State, w: World, h: nat, e: Session)
    requires Inv(s, w) && Agree(s) && h < |s.stores| == |t.stores| && |s.stores[h]| > 0
    requires Used(e) && e.remote < |s.stores| && e.remote != h && ValidIds(e.sae, e.keyId)
    requires t.stores == s.stores[h := Put(s.stores[h], e).value]
    ensures Agree(t) <==> Beside(t, h, e.remote) && !PushesOut(s, h, e.remote)
  {
    OneStore(s, t, h);
    assert StoreOk(s, w, h, s.stores[h]);
    forall q: nat | q < |s.stores| && q != h && q != e.remote
      ensures Beside(t, h, q) <==> !(PushesOut(s, h, e.remote) && s.stores[h][0].remote == q)
    {
      PutIsUpdate(s.stores[h], e, q);
      if !Room(s.stores[h], e.remote) && s.stores[h][0].remote == q {
        BesideLost(s, t, h, q);
      } else {
        BesideSame(s, t, h, q);
      }
    }
    if PushesOut(s, h, e.remote) { assert !Beside(t, h, s.stores[h][0].remote); }
  }

  lemma HelloAgreesIff(s: State, w: World, i: nat, j: nat, k: Option<seq<byte>>)
    requires Inv(s, w) && Sized(s) && Agree(s) && Enabled(s, Hello(i, j, k))
    ensures Agree(Next(s, w, Hello(i, j, k))) <==> !Breaks(s, w, Hello(i, j, k))
  {
    var t, es := Next(s, w, Hello(i, j, k)), s.stores[i];
    assert StoreOk(s, w, i, es);
    ActiveIsFound(es, j);
    if Find(es, j).Some? { RemoteInRange(s, w, i, j); }
    if i < j && Find(es, j).None? && k.Some? && ValidIds(w.sae(j), k.value) {
      var e := Session(Waiting, j, w.sae(j), k.value, w.kme(k.value));
      PutIsUpdate(es, e, j);
      PutAgreesIff(s, t, w, i, e);
      assert Beside(s, i, j);
    } else {
      assert t.stores == s.stores;
      SameStores(s, t);
    }
  }

  lemma SameStores(s: State, t: State)
    requires Agree(s) && t.stores == s.stores
    ensures Agree(t)
  {
    forall i: nat, j: nat | i < |t.stores| && j < |t.stores| && i != j
      ensures Beside(t, i, j)
    {
      assert Beside(s, i, j);
    }
  }

  lemma AnnounceAgreesIff(s: State, w: World, j: nat, m: Message)
    requires Inv(s, w) && Sized(s) && Agree(s) && Enabled(s, HearAnnounce(j, m))
    ensures Agree(Next(s, w, HearAnnounce(j, m))) <==> !Breaks(s, w, HearAnnounce(j, m))
  {
    var t, es := Next(s, w, HearAnnounce(j, m)), s.stores[j];
    assert StoreOk(s, w, j, es) && MessageOk(s, w, m);
    if Find(es, m.daemon).Some? { RemoteInRange(s, w, j, m.daemon); }
    if TakesOver(s, w, j, m) {
      var e := Session(Active, m.daemon, m.sae, m.keyId, w.kme(m.keyId));
      PutIsUpdate(es, e, m.daemon);
      PutAgreesIff(s, t, w, j, e);
    } else {
      if m.sae != w.sae(j) && KeyFor(s, j, m.daemon) == Some(m.keyId) { AcceptKnown(s, w, j, m); }
      assert t.stores == s.stores;
      SameStores(s, t);
    }
  }

  lemma NextAgreesIff(s: State, w: World, a: Action)
    requires Inv(s, w) && Sized(s) && Agree(s) && Enabled(s, a)
    ensures Agree(Next(s, w, a)) <==> !Breaks(s, w, a)
  {
    match a
    case Hello(i, j, k) => HelloAgreesIff(s, w, i, j, k);
    case HearAnnounce(j, m) => AnnounceAgreesIff(s, w, j, m);
    case HearAck(i, m) => AckAgreesIff(s, w, i, m);
    case Drop(i, q) => DropAgreesIff(s, w, i, q);
    case Restart(i) => RestartAgreesIff(s, w, i);
  }

  // ------------------------------------------------------------------ all runs

  predicate AllAgree(states: seq<State>, n: nat)
    requires n < |states|
  {
    forall i :: 0 <= i <= n ==> Agree(states[i])
  }

  predicate NoneBreaks(states: seq<State>, w: World, actions: seq<Action>, n: nat)
    requires Run(states, w, actions) && n <= |actions|
  {
    forall i :: 0 <= i < n ==> !Breaks(states[i], w, actions[i])
  }

  /** In every run of any number of daemons, with loss, duplication, reordering, removal,
      reset and eviction: all pairs agree in all states up to `n` if and only if none of
      the steps before `n` breaks agreement. */
  lemma {:induction false} AgreementIff(states: seq<State>, w: World, actions: seq<Action>, n: nat)
    requires Run(states, w, actions) && n <= |actions|
    ensures AllAgree(states, n) <==> NoneBreaks(states, w, actions, n)
  {
    if n > 0 {
      AgreementIff(states, w, actions, n - 1);
      assert AllAgree(states, n) <==> AllAgree(states, n - 1) && Agree(states[n]);
      assert NoneBreaks(states, w, actions, n) <==>
             NoneBreaks(states, w, actions, n - 1) && !Breaks(states[n - 1], w, actions[n - 1]);
      if AllAgree(states, n - 1) {
        RunInv(states, w, actions, n - 1);
        NextAgreesIff(states[n - 1], w, actions[n - 1]);
      }
    }
  }
}
