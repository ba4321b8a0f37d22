/** Interleaved claims against whole calls: a claim that runs without interference is the
    atomic claim, and nothing survives a reset in any interleaving (`qkd.rs`). */
module ClaimRaceCalls {
  import opened Bytes
  import opened MessageKeyCache
  import opened ClaimRace
  import M = MessageKeyRuns

  function CacheOf(s: State): Cache { Cache(s.entries, s.generation) }

  // -------------------------------------------------------- a claim on its own

  /** How far a scan without interference has come. */
  predicate Scanned(s: State, hash: KeyName -> nat, p: nat, name: KeyName, k: nat) {
    && |s.entries| > 0 && p < |s.procs| && k <= |s.entries|
    && ScanFrom(s.entries, Start(hash, name, |s.entries|), name, 0)
       == ScanFrom(s.entries, Start(hash, name, |s.entries|), name, k)
    && var best := OldestReady(s.entries, Start(hash, name, |s.entries|), k);
       && s.procs[p].Scan? && s.procs[p].name == name && s.procs[p].k == k && s.procs[p].best == best
       && (best < |s.entries| ==> s.procs[p].bestGeneration == s.entries[best].generation)
  }

  lemma ScanNext(es: seq<Entry>, start: nat, name: KeyName, k: nat)
    requires start < |es| && k < ScanFrom(es, start, name, 0) == ScanFrom(es, start, name, k)
    ensures k < |es| && !Stops(es[At(start, k, |es|)], name)
    ensures ScanFrom(es, start, name, 0) == ScanFrom(es, start, name, k + 1)
    ensures var i, best := At(start, k, |es|), OldestReady(es, start, k);
            OldestReady(es, start, k + 1)
            == if es[i].state == Ready && (best == |es| || es[i].generation < es[best].generation) then i else best
  {
  }

  lemma ScanStep(s: State, hash: KeyName -> nat, p: nat, name: KeyName, k: nat)
    requires Scanned(s, hash, p, name, k) && k < ScanFrom(s.entries, Start(hash, name, |s.entries|), name, 0)
    ensures Scanned(Looked(s, hash, p), hash, p, name, k + 1)
    ensures Looked(s, hash, p) == s.(procs := s.procs[p := Looked(s, hash, p).procs[p]])
  {
    ScanNext(s.entries, Start(hash, name, |s.entries|), name, k);
  }

  lemma LooksOn(s: State, hash: KeyName -> nat, p: nat, name: KeyName, k: nat) returns (u: State)
    requires Scanned(s, hash, p, name, k) && k < ScanFrom(s.entries, Start(hash, name, |s.entries|), name, 0)
    ensures Scanned(u, hash, p, name, k + 1) && u == s.(procs := s.procs[p := u.procs[p]]) && Leads(s, u, hash)
  {
    u := Looked(s, hash, p);
    ScanStep(s, hash, p, name, k);
    LeadsByStep(s, hash, Look(p));
  }

  lemma LeadsNowhere(s: State, hash: KeyName -> nat)
    ensures Leads(s, s, hash)
  {
    assert Path([s], hash, []);
  }

  /** The scan goes on to where it stops. */
  lemma {:induction false} ScanOn(s: State, hash: KeyName -> nat, p: nat, name: KeyName, k: nat) returns (t: State)
    requires Scanned(s, hash, p, name, k)
    ensures Scanned(t, hash, p, name, ScanFrom(s.entries, Start(hash, name, |s.entries|), name, 0))
    ensures Leads(s, t, hash) && t == s.(procs := s.procs[p := t.procs[p]])
    decreases |s.entries| - k
  {
    if k == ScanFrom(s.entries, Start(hash, name, |s.entries|), name, 0) {
      t := s;
      LeadsNowhere(s, hash);
    } else {
      var u := LooksOn(s, hash, p, name, k);
      t := ScanOn(u, hash, p, name, k + 1);
      LeadsOn(s, u, t, hash);
      assert s.procs[p := u.procs[p]][p := t.procs[p]] == s.procs[p := t.procs[p]];
    }
  }

  /** `t` is `s` after a call of process `p` with result `r` is over. */
  predicate Called(s: State, t: State, p: nat, name: KeyName, r: (Cache, Lookup))
    requires p < |s.procs|
  {
    t == State(r.0.entries, r.0.generation, s.procs[p := Idle],
               if r.1 == Claimed then s.claims + [name] else s.claims,
               if r.1.FoundReady? then s.found + [Sent(name, r.1.key)] else s.found, s.log)
  }

  /** The call does not depend on where its own process stood. */
  lemma CalledBefore(s: State, u: State, t: State, p: nat, name: KeyName, r: (Cache, Lookup))
    requires p < |s.procs| == |u.procs| && u.procs == s.procs[p := u.procs[p]]
    requires u.claims == s.claims && u.found == s.found && u.log == s.log && Called(u, t, p, name, r)
    ensures Called(s, t, p, name, r)
  {
    assert u.procs[p := Idle] == s.procs[p := Idle];
  }

  lemma InstallsAt(s: State, hash: KeyName -> nat, p: nat, name: KeyName, i: nat) returns (t: State)
    requires |s.entries| > 0 && p < |s.procs| && i < |s.entries|
    ensures Leads(Taking(s, p, name, i), t, hash)
    ensures t == State(Place(CacheOf(s), i, p + 1, name).entries, s.generation + 1, s.procs[p := Idle],
                       s.claims + [name], s.found, s.log)
  {
    var u := Taking(s, p, name, i);
    t := Finished(u, p);
    LeadsByStep(u, hash, Finish(p));
    assert t.entries == Place(CacheOf(s), i, p + 1, name).entries && t.procs == s.procs[p := Idle];
  }

  lemma DecidesAtStop(s: State, hash: KeyName -> nat, p: nat, alive: set<nat>, name: KeyName, k: nat) returns (t: State)
    requires ValidName(name) && |s.entries| > 0 && NoLiveWriter(CacheOf(s), alive) && Scanned(s, hash, p, name, k)
    requires k == ScanFrom(s.entries, Start(hash, name, |s.entries|), name, 0) < |s.entries|
    requires M.Recovered(CacheOf(s), hash, alive, name) == CacheOf(s)
    ensures Leads(s, t, hash) && Called(s, t, p, name, Claim(CacheOf(s), hash, p + 1, alive, name))
  {
    var i := At(Start(hash, name, |s.entries|), k, |s.entries|);
    LeadsByStep(s, hash, Look(p));
    t := Looked(s, hash, p);
    if s.entries[i].state == Empty {
      t := InstallsAt(s, hash, p, name, i);
      LeadsOn(s, Looked(s, hash, p), t, hash);
    }
  }

  lemma DecidesAtEnd(s: State, hash: KeyName -> nat, p: nat, alive: set<nat>, name: KeyName) returns (t: State)
    requires ValidName(name) && |s.entries| > 0 && NoLiveWriter(CacheOf(s), alive)
    requires Scanned(s, hash, p, name, |s.entries|)
    requires ScanFrom(s.entries, Start(hash, name, |s.entries|), name, 0) == |s.entries|
    ensures Leads(s, t, hash) && Called(s, t, p, name, Claim(CacheOf(s), hash, p + 1, alive, name))
  {
    if s.procs[p].best < |s.entries| {
      LeadsByStep(s, hash, Evict(p));
      t := InstallsAt(s, hash, p, name, s.procs[p].best);
      LeadsOn(s, Evicted(s, p), t, hash);
    } else {
      LeadsByStep(s, hash, GiveUp(p));
      t := Next(s, hash, GiveUp(p));
    }
  }

  /** A scan that has nothing to recover ends the call. */
  lemma Decides(s: State, hash: KeyName -> nat, p: nat, alive: set<nat>, name: KeyName) returns (t: State)
    requires ValidName(name) && |s.entries| > 0 && NoLiveWriter(CacheOf(s), alive)
    requires Scanned(s, hash, p, name, ScanFrom(s.entries, Start(hash, name, |s.entries|), name, 0))
    requires M.Recovered(CacheOf(s), hash, alive, name) == CacheOf(s)
    ensures Leads(s, t, hash) && Called(s, t, p, name, Claim(CacheOf(s), hash, p + 1, alive, name))
  {
    var k := ScanFrom(s.entries, Start(hash, name, |s.entries|), name, 0);
    if k < |s.entries| {
      t := DecidesAtStop(s, hash, p, alive, name, k);
    } else {
      t := DecidesAtEnd(s, hash, p, alive, name);
    }
  }

  /** The scan stops at an entry whose owner died: it is cleared and the scan starts over. */
  lemma StartsOver(s: State, hash: KeyName -> nat, p: nat, alive: set<nat>, name: KeyName) returns (t: State)
    requires ValidName(name) && |s.entries| > 0 && NoLiveWriter(CacheOf(s), alive)
    requires Scanned(s, hash, p, name, ScanFrom(s.entries, Start(hash, name, |s.entries|), name, 0))
    requires M.Recovered(CacheOf(s), hash, alive, name) != CacheOf(s)
    ensures Leads(s, t, hash)
    ensures t == s.(entries := M.Recovered(CacheOf(s), hash, alive, name).entries,
                    procs := s.procs[p := Restarted(s, name)])
  {
    var es, start := s.entries, Start(hash, name, |s.entries|);
    var i := At(start, ScanFrom(es, start, name, 0), |es|);
    if es[i].state == Writing {
      var u := Next(s, hash, Recover(i));
      LeadsByStep(s, hash, Recover(i));
      t := Next(u, hash, Rescan(p));
      LeadsByStep(u, hash, Rescan(p));
      LeadsOn(s, u, t, hash);
    } else {
      t := Buried(s, hash, p);
      LeadsByStep(s, hash, Bury(p));
    }
  }

  lemma {:induction false} RestartedIsCall(s: State, hash: KeyName -> nat, p: nat, alive: set<nat>, name: KeyName)
    returns (t: State)
    requires ValidName(name) && |s.entries| > 0 && NoLiveWriter(CacheOf(s), alive)
    requires p < |s.procs| && s.procs[p] == Restarted(s, name)
    ensures Leads(s, t, hash) && Called(s, t, p, name, Claim(CacheOf(s), hash, p + 1, alive, name))
    decreases |Stale(s.entries)|
  {
    var c := CacheOf(s);
    var u := ScanOn(s, hash, p, name, 0);
    if M.Recovered(c, hash, alive, name) != c {
      var v := StartsOver(u, hash, p, alive, name);
      LeadsOn(s, u, v, hash);
      M.RecoveredIs(c, hash, p + 1, alive, name);
      assert CacheOf(v) == M.Recovered(c, hash, alive, name);
      t := RestartedIsCall(v, hash, p, alive, name);
      LeadsOn(s, v, t, hash);
      CalledBefore(s, v, t, p, name, Claim(c, hash, p + 1, alive, name));
    } else {
      t := Decides(u, hash, p, alive, name);
      LeadsOn(s, u, t, hash);
      CalledBefore(s, u, t, p, name, Claim(c, hash, p + 1, alive, name));
    }
  }

  /** From every state in which no other process is installing an entry, a claim that runs
      without interference ends with the table, the answer and the generation of the
      atomic claim, whatever dead processes left behind. */
  lemma AloneIsClaim(s: State, hash: KeyName -> nat, p: nat, alive: set<nat>, name: KeyName) returns (t: State)
    requires ValidName(name) && |s.entries| > 0 && NoLiveWriter(CacheOf(s), alive)
    requires p < |s.procs| && s.procs[p].Idle?
    ensures Leads(s, t, hash) && Called(s, t, p, name, Claim(CacheOf(s), hash, p + 1, alive, name))
  {
    var u := Next(s, hash, Begin(p, name));
    LeadsByStep(s, hash, Begin(p, name));
    t := RestartedIsCall(u, hash, p, alive, name);
    LeadsOn(s, u, t, hash);
    CalledBefore(s, u, t, p, name, Claim(CacheOf(s), hash, p + 1, alive, name));
  }

  // -------------------------------------------------------------------- resets

  lemma ResetClears(s: State, hash: KeyName -> nat)
    requires |s.entries| > 0
    ensures var t := Next(s, hash, ResetAll);
            && (forall i :: 0 <= i < |s.entries| ==> t.entries[i] == CLEARED)
            && |t.entries| == |s.entries| && t.generation > s.generation && t.procs == s.procs && t.log == s.log
  {
  }

  lemma ReadyBefore(s: State, hash: KeyName -> nat, a: Action, i: nat)
    requires |s.entries| > 0 && Enabled(s, a) && i < |s.entries| && Next(s, hash, a).entries[i].state == Ready
    ensures var e := Next(s, hash, a).entries[i];
            && !a.ResetAll?
            && (s.entries[i] == e
                || (a == PublishKey(e.name, e.key) && Next(s, hash, a).log == s.log + [Sent(e.name, e.key)]))
  {
  }

  lemma {:induction false} ReadySinceReset(
      states: seq<State>, hash: KeyName -> nat, actions: seq<Action>, k: nat, n: nat, i: nat) returns (m: nat)
    requires Run(states, hash, actions) && k < n <= |actions| && actions[k].ResetAll?
    requires i < |states[n].entries| && states[n].entries[i].state == Ready
    ensures k < m < n && actions[m] == PublishKey(states[n].entries[i].name, states[n].entries[i].key)
    ensures |states[m + 1].log| > |states[m].log|
  {
    m := n - 1;
    ReadyBefore(states[m], hash, actions[m], i);
    if states[m].entries[i] == states[n].entries[i] { m := ReadySinceReset(states, hash, actions, k, m, i); }
  }

  /** In every interleaving, a key handed out was published for its pair after the last reset. */
  lemma FoundSinceReset(states: seq<State>, hash: KeyName -> nat, actions: seq<Action>, k: nat, n: nat)
    returns (m: nat, x: Sent)
    requires Run(states, hash, actions) && k < n < |actions| && actions[k].ResetAll?
    requires states[n + 1].found != states[n].found
    ensures k < m < n && states[n + 1].found == states[n].found + [x] && actions[m] == PublishKey(x.name, x.key)
    ensures |states[m + 1].log| > |states[m].log|
  {
    var s, pc := states[n], states[n].procs[actions[n].p];
    var i := At(Start(hash, pc.name, |s.entries|), pc.k, |s.entries|);
    x := Sent(pc.name, s.entries[i].key);
    m := ReadySinceReset(states, hash, actions, k, n, i);
  }
}
