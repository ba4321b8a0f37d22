/** `claim_message_key` (`qkd.rs`) run by many processes at once: every load of
    an entry and every compare-exchange is its own step, in any interleaving.
    Publishing, abandoning and resetting are single steps. */
module ClaimRace {
  import opened Bytes
  import opened MessageKeyCache

  /** Where a process is inside `claim_message_key`; `best == |entries|` means
      no ready entry was seen yet. */
  datatype Pc =
    | Idle
    | Scan(name: KeyName, k: nat, best: nat, bestGeneration: nat)
    | Install(name: KeyName, slot: nat)

  datatype State = State(
    entries: seq<Entry>, generation: nat, procs: seq<Pc>,
    claims: seq<KeyName>,   // answers "claimed", in order
    found: seq<Sent>,       // answers "ready", in order
    log: seq<Sent>)         // keys published, in order

  datatype Action =
    | Begin(p: nat, name: KeyName)
    | Look(p: nat)
    | Bury(p: nat)
    | Rescan(p: nat)
    | Evict(p: nat)
    | GiveUp(p: nat)
    | Finish(p: nat)
    | PublishKey(name: KeyName, key: seq<byte>)
    | AbandonKey(name: KeyName)
    | Recover(slot: nat)
    | ResetAll

  predicate Enabled(s: State, a: Action) {
    match a
    case Begin(p, name) => p < |s.procs| && s.procs[p].Idle? && ValidName(name)
    case Look(p) => p < |s.procs| && s.procs[p].Scan? && s.procs[p].k < |s.entries|
    case Bury(p) => p < |s.procs| && s.procs[p].Scan? && s.procs[p].k < |s.entries|
    case Rescan(p) => p < |s.procs| && s.procs[p].Scan?
    case Evict(p) =>
      p < |s.procs| && s.procs[p].Scan? && s.procs[p].k == |s.entries| && s.procs[p].best < |s.entries|
    case GiveUp(p) =>
      p < |s.procs| && s.procs[p].Scan? && s.procs[p].k == |s.entries| && s.procs[p].best >= |s.entries|
    case Finish(p) => p < |s.procs| && s.procs[p].Install? && s.procs[p].slot < |s.entries|
    case Recover(slot) => slot < |s.entries| && s.entries[slot].state == Writing
    case _ => true
  }

  function Restarted(s: State, name: KeyName): (pc: Pc) { Scan(name, 0, |s.entries|, 0) }

  /** The compare-exchange to `Writing` that starts an installation; the name is
      not read by others until the entry is pending. */
  function Taking(s: State, p: nat, name: KeyName, i: nat): (r: State)
    requires p < |s.procs| && i < |s.entries|
  {
    s.(entries := s.entries[i := Entry(Writing, p + 1, s.entries[i].generation, name, [])],
       procs := s.procs[p := Install(name, i)])
  }

  /** One iteration of the scan. */
  function Looked(s: State, hash: KeyName -> nat, p: nat): (r: State)
    requires |s.entries| > 0 && Enabled(s, Look(p))
  {
    var pc := s.procs[p];
    var i := At(Start(hash, pc.name, |s.entries|), pc.k, |s.entries|);
    var e := s.entries[i];
    if e.state == Writing then s.(procs := s.procs[p := Restarted(s, pc.name)])
    else if e.state == Empty then Taking(s, p, pc.name, i)
    else if e.name == pc.name then
      s.(procs := s.procs[p := Idle], found := if e.state == Ready then s.found + [Sent(pc.name, e.key)] else s.found)
    else if e.state == Ready && (pc.best >= |s.entries| || e.generation < pc.bestGeneration) then
      s.(procs := s.procs[p := Scan(pc.name, pc.k + 1, i, e.generation)])
    else s.(procs := s.procs[p := pc.(k := pc.k + 1)])
  }

  /** The other outcome of looking at the pair's pending entry: its claimant died, so it
      is cleared and the scan starts over. */
  function Buried(s: State, hash: KeyName -> nat, p: nat): (r: State)
    requires |s.entries| > 0 && Enabled(s, Bury(p))
  {
    var pc := s.procs[p];
    var i := At(Start(hash, pc.name, |s.entries|), pc.k, |s.entries|);
    if s.entries[i].state == Pending && s.entries[i].name == pc.name then
      s.(entries := s.entries[i := CLEARED], procs := s.procs[p := Restarted(s, pc.name)])
    else s
  }

  function Evicted(s: State, p: nat): (r: State)
    requires Enabled(s, Evict(p))
  {
    var pc := s.procs[p];
    if s.entries[pc.best].state == Ready then Taking(s, p, pc.name, pc.best)
    else s.(procs := s.procs[p := Restarted(s, pc.name)])
  }

  function Finished(s: State, p: nat): (r: State)
    requires Enabled(s, Finish(p))
  {
    var Install(name, i) := s.procs[p];
    s.(entries := s.entries[i := Entry(Pending, p + 1, s.generation + 1, name, [])], generation := s.generation + 1,
       procs := s.procs[p := Idle], claims := s.claims + [name])
  }

  function WithCache(s: State, c: Cache): (r: State) { s.(entries := c.entries, generation := c.generation) }

  function Next(s: State, hash: KeyName -> nat, a: Action): (r: State)
    requires |s.entries| > 0 && Enabled(s, a)
    ensures |r.entries| == |s.entries| && |r.procs| == |s.procs|
  {
    var c := Cache(s.entries, s.generation);
    match a
    case Begin(p, name) => s.(procs := s.procs[p := Restarted(s, name)])
    case Look(p) => Looked(s, hash, p)
    case Bury(p) => Buried(s, hash, p)
    case Rescan(p) => s.(procs := s.procs[p := Restarted(s, s.procs[p].name)])
    case Evict(p) => Evicted(s, p)
    case GiveUp(p) => s.(procs := s.procs[p := Idle])
    case Finish(p) => Finished(s, p)
    case PublishKey(name, key) =>
      var (c', ok) := Publish(c, name, key);
      WithCache(s, c').(log := if ok then s.log + [Sent(name, key)] else s.log)
    case AbandonKey(name) => WithCache(s, Abandon(c, name))
    case Recover(slot) => s.(entries := s.entries[slot := s.entries[slot].(state := Empty)])
    case ResetAll => WithCache(s, Reset(c))
  }

  predicate Initial(s: State) {
    && |s.entries| > 0 && Cache(s.entries, s.generation) == Fresh(|s.entries|)
    && (forall p :: 0 <= p < |s.procs| ==> s.procs[p] == Idle)
    && s.claims == [] && s.found == [] && s.log == []
  }

  predicate Run(states: seq<State>, hash: KeyName -> nat, actions: seq<Action>) {
    && |states| == |actions| + 1 && Initial(states[0])
    && forall i :: 0 <= i < |actions| ==>
         |states[i].entries| > 0 && Enabled(states[i], actions[i]) && states[i + 1] == Next(states[i], hash, actions[i])
  }

  // ------------------------------------------------- keys never change their pair

  predicate Published(e: Entry, log: seq<Sent>) { e.state == Ready ==> Sent(e.name, e.key) in log }

  predicate KeysInv(s: State) {
    && |s.entries| > 0
    && (forall i :: 0 <= i < |s.entries| ==> Published(s.entries[i], s.log))
    && (forall i :: 0 <= i < |s.found| ==> s.found[i] in s.log)
  }

  lemma NextKeepsKeys(s: State, hash: KeyName -> nat, a: Action)
    requires KeysInv(s) && Enabled(s, a)
    ensures KeysInv(Next(s, hash, a))
  {
    if a.Look? {
      var i := At(Start(hash, s.procs[a.p].name, |s.entries|), s.procs[a.p].k, |s.entries|);
      assert Published(s.entries[i], s.log);
    }
  }

  /** In every interleaving, with evictions, abandoned claims, recoveries and
      resets: a key handed out for a pair was published for that very pair. */
  lemma {:induction false} FoundWasPublished(states: seq<State>, hash: KeyName -> nat, actions: seq<Action>, i: nat)
    requires Run(states, hash, actions) && i <= |actions|
    ensures KeysInv(states[i])
  {
    if i > 0 {
      FoundWasPublished(states, hash, actions, i - 1);
      NextKeepsKeys(states[i - 1], hash, actions[i - 1]);
    }
  }

  // ------------------------------------------ when the key handed out is the last one

  predicate ReadyIsLast(s: State) {
    forall i :: 0 <= i < |s.entries| && s.entries[i].state == Ready ==>
      LastSent(s.log, s.entries[i].name) == [s.entries[i].key]
  }

  predicate Sound(s: State) { OnePerName(s.entries) && ReadyIsLast(s) }

  /** A process is told to fetch the key of a pair that another slot holds. */
  predicate ClaimsHeld(s: State, a: Action) {
    && a.Finish? && a.p < |s.procs| && s.procs[a.p].Install?
    && exists j :: 0 <= j < |s.entries| && j != s.procs[a.p].slot && IsFor(s.entries[j], s.procs[a.p].name)
  }

  lemma FinishSoundIff(s: State, p: nat)
    requires Sound(s) && Enabled(s, Finish(p))
    ensures Sound(Finished(s, p)) <==> !ClaimsHeld(s, Finish(p))
  {
    var es', i, name := Finished(s, p).entries, s.procs[p].slot, s.procs[p].name;
    if j :| 0 <= j < |s.entries| && j != i && IsFor(s.entries[j], name) {
      assert Occupied(es'[i]) && IsFor(es'[j], es'[i].name);
    }
  }

  lemma PublishSound(s: State, hash: KeyName -> nat, name: KeyName, key: seq<byte>)
    requires Sound(s) && |s.entries| > 0
    ensures Sound(Next(s, hash, PublishKey(name, key)))
  {
    var s', at := Next(s, hash, PublishKey(name, key)), PendingAt(s.entries, name, 0);
    if at < |s.entries| {
      assert s'.log[..|s'.log| - 1] == s.log;
      forall i | 0 <= i < |s'.entries| && s'.entries[i].state == Ready
        ensures LastSent(s'.log, s'.entries[i].name) == [s'.entries[i].key]
      {
        if i != at && s.entries[i].name == name { assert IsFor(s.entries[i], s.entries[at].name); }
      }
    }
  }

  lemma NextSoundIff(s: State, hash: KeyName -> nat, a: Action)
    requires Sound(s) && |s.entries| > 0 && Enabled(s, a)
    ensures Sound(Next(s, hash, a)) <==> !ClaimsHeld(s, a)
  {
    match a
    case Finish(p) => FinishSoundIff(s, p);
    case PublishKey(name, key) => PublishSound(s, hash, name, key);
    case _ =>
  }

  predicate AllSound(states: seq<State>, n: nat)
    requires n < |states|
  {
    forall i :: 0 <= i <= n ==> Sound(states[i])
  }

  predicate NoneClaimsHeld(states: seq<State>, actions: seq<Action>, n: nat)
    requires n <= |actions| && n <= |states|
  {
    forall i :: 0 <= i < n ==> !ClaimsHeld(states[i], actions[i])
  }

  /** In every interleaving, with evictions and clears of every kind: all states have
      one entry a pair, ready ones under the key last published, if and only if no
      process was told to fetch a pair that another slot held. */
  lemma {:induction false} RaceSoundIff(states: seq<State>, hash: KeyName -> nat, actions: seq<Action>, n: nat)
    requires Run(states, hash, actions) && n <= |actions|
    ensures AllSound(states, n) <==> NoneClaimsHeld(states, actions, n)
  {
    if n > 0 {
      RaceSoundIff(states, hash, actions, n - 1);
      assert AllSound(states, n) <==> AllSound(states, n - 1) && Sound(states[n]);
      assert NoneClaimsHeld(states, actions, n) <==>
             NoneClaimsHeld(states, actions, n - 1) && !ClaimsHeld(states[n - 1], actions[n - 1]);
      if AllSound(states, n - 1) {
        assert Sound(states[n - 1]);
        NextSoundIff(states[n - 1], hash, actions[n - 1]);
      }
    }
  }

  /** In such an interleaving each key is the one last published for its pair when it
      is handed out. */
  lemma FoundIsLast(states: seq<State>, hash: KeyName -> nat, actions: seq<Action>, n: nat)
    requires Run(states, hash, actions) && n < |actions| && NoneClaimsHeld(states, actions, n)
    requires states[n + 1].found != states[n].found
    ensures exists m :: states[n + 1].found == states[n].found + [m] && LastSent(states[n].log, m.name) == [m.key]
  {
    RaceSoundIff(states, hash, actions, n);
    assert Sound(states[n]);
    var s, pc := states[n], states[n].procs[actions[n].p];
    var e := s.entries[At(Start(hash, pc.name, |s.entries|), pc.k, |s.entries|)];
    assert states[n + 1].found == s.found + [Sent(pc.name, e.key)];
  }

  // --------------------------------------------------- one claimant for each pair

  /** Nothing is cleared. */
  predicate NoClear(a: Action) { !a.AbandonKey? && !a.Bury? && !a.Recover? && !a.ResetAll? }

  predicate Gentle(a: Action) { NoClear(a) && !a.Evict? }

  predicate Taken(e: Entry) { e.state != Empty }

  predicate ChainTo(es: seq<Entry>, hash: KeyName -> nat, i: nat)
    requires i < |es|
  {
    var start := Start(hash, es[i].name, |es|);
    forall k: nat :: k < Dist(start, i, |es|) ==> Taken(es[At(start, k, |es|)])
  }

  predicate ChainsHold(es: seq<Entry>, hash: KeyName -> nat) {
    forall i: nat :: i < |es| && Taken(es[i]) ==> ChainTo(es, hash, i)
  }

  predicate NamesDiffer(es: seq<Entry>) {
    forall i, j :: 0 <= i < |es| && 0 <= j < |es| && Taken(es[i]) && Taken(es[j]) && es[i].name == es[j].name ==> i == j
  }

  /** What a scanning process has passed stays passed. */
  predicate Passed(es: seq<Entry>, hash: KeyName -> nat, pc: Pc)
    requires |es| > 0
  {
    pc.Scan? ==>
      && pc.k <= |es|
      && forall j: nat :: j < pc.k ==>
           var e := es[At(Start(hash, pc.name, |es|), j, |es|)]; Taken(e) && e.name != pc.name
  }

  predicate Owns(es: seq<Entry>, p: nat, pc: Pc) {
    pc.Install? ==>
      pc.slot < |es| && es[pc.slot].state == Writing && es[pc.slot].name == pc.name && es[pc.slot].pid == p + 1
  }

  predicate Known(es: seq<Entry>, name: KeyName) { exists i :: 0 <= i < |es| && IsFor(es[i], name) }

  predicate OneClaimInv(s: State, hash: KeyName -> nat) {
    && |s.entries| > 0 && ChainsHold(s.entries, hash) && NamesDiffer(s.entries)
    && (forall p :: 0 <= p < |s.procs| ==> Passed(s.entries, hash, s.procs[p]) && Owns(s.entries, p, s.procs[p]))
    && (forall c :: 0 <= c < |s.claims| ==> Known(s.entries, s.claims[c]))
    && (forall c, d :: 0 <= c < d < |s.claims| ==> s.claims[c] != s.claims[d])
  }

  predicate Keeps(es: seq<Entry>, m: Sent) {
    exists i :: 0 <= i < |es| && es[i].state == Ready && Sent(es[i].name, es[i].key) == m
  }

  predicate OneKeyInv(s: State) { forall l :: 0 <= l < |s.log| ==> Keeps(s.entries, s.log[l]) }

  /** A name with no entry along its chain has no entry anywhere. */
  lemma EmptyMeansAbsent(es: seq<Entry>, hash: KeyName -> nat, pc: Pc, j: nat)
    requires |es| > 0 && pc.Scan? && pc.k < |es| && Passed(es, hash, pc) && ChainsHold(es, hash)
    requires es[At(Start(hash, pc.name, |es|), pc.k, |es|)].state == Empty
    requires j < |es| && Taken(es[j])
    ensures es[j].name != pc.name
  {
    assert ChainTo(es, hash, j);
    assert At(Start(hash, es[j].name, |es|), Dist(Start(hash, es[j].name, |es|), j, |es|), |es|) == j;
  }

  /** Entries that only gain content keep chains and passed probes. */
  predicate Grows(es: seq<Entry>, es': seq<Entry>) {
    |es| == |es'| && forall i :: 0 <= i < |es| && Taken(es[i]) ==> Taken(es'[i]) && es'[i].name == es[i].name
  }

  lemma GrowsKeepsPassed(es: seq<Entry>, es': seq<Entry>, hash: KeyName -> nat, pc: Pc)
    requires |es| > 0 && Grows(es, es') && Passed(es, hash, pc)
    ensures Passed(es', hash, pc)
  {
  }

  lemma TakingKeeps(s: State, hash: KeyName -> nat, p: nat)
    requires OneClaimInv(s, hash) && Enabled(s, Look(p))
    requires s.entries[At(Start(hash, s.procs[p].name, |s.entries|), s.procs[p].k, |s.entries|)].state == Empty
    ensures OneClaimInv(Looked(s, hash, p), hash)
  {
    var es, s', pc := s.entries, Looked(s, hash, p), s.procs[p];
    var i := At(Start(hash, pc.name, |es|), pc.k, |es|);
    assert Passed(es, hash, pc) && Grows(es, s'.entries);
    forall j: nat | j < |es| && Taken(es[j]) ensures es[j].name != pc.name { EmptyMeansAbsent(es, hash, pc, j); }
    forall j: nat | j < |es| && Taken(s'.entries[j]) ensures ChainTo(s'.entries, hash, j) {
      if j != i { assert ChainTo(es, hash, j); }
    }
    forall q | 0 <= q < |s.procs| && q != p
      ensures Passed(s'.entries, hash, s.procs[q]) && Owns(s'.entries, q, s.procs[q])
    {
      GrowsKeepsPassed(es, s'.entries, hash, s.procs[q]);
    }
    KnownGrows(s, s'.entries);
  }

  lemma KnownGrows(s: State, es': seq<Entry>)
    requires |es'| == |s.entries|
    requires forall i :: 0 <= i < |es'| && Occupied(s.entries[i]) ==> IsFor(es'[i], s.entries[i].name)
    requires forall c :: 0 <= c < |s.claims| ==> Known(s.entries, s.claims[c])
    ensures forall c :: 0 <= c < |s.claims| ==> Known(es', s.claims[c])
  {
    forall c | 0 <= c < |s.claims| ensures Known(es', s.claims[c]) {
      var i :| 0 <= i < |s.entries| && IsFor(s.entries[i], s.claims[c]);
      assert IsFor(es'[i], s.claims[c]);
    }
  }

  lemma FinishKeeps(s: State, hash: KeyName -> nat, p: nat)
    requires OneClaimInv(s, hash) && Enabled(s, Finish(p))
    ensures OneClaimInv(Finished(s, p), hash)
  {
    var es, s', i := s.entries, Finished(s, p), s.procs[p].slot;
    assert Owns(es, p, s.procs[p]);
    assert Grows(es, s'.entries) && Grows(s'.entries, es);
    forall j: nat | j < |es| && Taken(s'.entries[j])
      ensures ChainTo(s'.entries, hash, j)
    {
      assert ChainTo(es, hash, j);
    }
    forall q | 0 <= q < |s.procs| && q != p
      ensures Passed(s'.entries, hash, s.procs[q]) && Owns(s'.entries, q, s.procs[q])
    {
      GrowsKeepsPassed(es, s'.entries, hash, s.procs[q]);
      assert Owns(es, q, s.procs[q]);
    }
    KnownGrows(s, s'.entries);
    assert IsFor(s'.entries[i], s.procs[p].name);
    forall c | 0 <= c < |s.claims| ensures s.claims[c] != s.procs[p].name {
      var j :| 0 <= j < |es| && IsFor(es[j], s.claims[c]);
    }
  }

  lemma PublishKeeps(s: State, hash: KeyName -> nat, name: KeyName, key: seq<byte>)
    requires OneClaimInv(s, hash)
    ensures OneClaimInv(Next(s, hash, PublishKey(name, key)), hash)
  {
    var es, s' := s.entries, Next(s, hash, PublishKey(name, key));
    assert Grows(es, s'.entries) && Grows(s'.entries, es);
    forall j: nat | j < |es| && Taken(s'.entries[j])
      ensures ChainTo(s'.entries, hash, j)
    {
      assert ChainTo(es, hash, j);
    }
    forall q | 0 <= q < |s.procs| ensures Passed(s'.entries, hash, s.procs[q]) && Owns(s'.entries, q, s.procs[q]) {
      GrowsKeepsPassed(es, s'.entries, hash, s.procs[q]);
      assert Owns(es, q, s.procs[q]);
    }
    KnownGrows(s, s'.entries);
  }

  /** Moving one process along without touching the table. */
  lemma PcKeeps(s: State, hash: KeyName -> nat, p: nat, pc: Pc, found: seq<Sent>)
    requires OneClaimInv(s, hash) && p < |s.procs| && Passed(s.entries, hash, pc) && !pc.Install?
    ensures OneClaimInv(s.(procs := s.procs[p := pc], found := found), hash)
  {
  }

  lemma LookPasses(s: State, hash: KeyName -> nat, p: nat)
    requires OneClaimInv(s, hash) && Enabled(s, Look(p))
    ensures OneClaimInv(Looked(s, hash, p), hash)
  {
    var s', pc := Looked(s, hash, p), s.procs[p];
    assert Passed(s.entries, hash, pc);
    if s.entries[At(Start(hash, pc.name, |s.entries|), pc.k, |s.entries|)].state == Empty {
      TakingKeeps(s, hash, p);
    } else {
      assert Passed(s.entries, hash, s'.procs[p]);
      PcKeeps(s, hash, p, s'.procs[p], s'.found);
    }
  }

  lemma NextKeepsOneClaim(s: State, hash: KeyName -> nat, a: Action)
    requires OneClaimInv(s, hash) && Enabled(s, a) && Gentle(a)
    ensures OneClaimInv(Next(s, hash, a), hash)
  {
    match a
    case Finish(p) => FinishKeeps(s, hash, p);
    case PublishKey(name, key) => PublishKeeps(s, hash, name, key);
    case Look(p) => LookPasses(s, hash, p);
    case Begin(p, name) => PcKeeps(s, hash, p, Restarted(s, name), s.found);
    case Rescan(p) => PcKeeps(s, hash, p, Restarted(s, s.procs[p].name), s.found);
    case GiveUp(p) => PcKeeps(s, hash, p, Idle, s.found);
    case _ =>
  }

  /** In every interleaving without evictions and clears, however many processes
      race: a pair is claimed at most once. */
  lemma {:induction false} ClaimedAtMostOnce(states: seq<State>, hash: KeyName -> nat, actions: seq<Action>, i: nat)
    requires Run(states, hash, actions) && i <= |actions|
    requires forall j :: 0 <= j < i ==> Gentle(actions[j])
    ensures OneClaimInv(states[i], hash)
  {
    if i > 0 {
      ClaimedAtMostOnce(states, hash, actions, i - 1);
      NextKeepsOneClaim(states[i - 1], hash, actions[i - 1]);
    }
  }

  lemma NextKeepsOneKey(s: State, hash: KeyName -> nat, a: Action)
    requires OneClaimInv(s, hash) && OneKeyInv(s) && Enabled(s, a) && Gentle(a)
    ensures OneKeyInv(Next(s, hash, a))
  {
    var s' := Next(s, hash, a);
    if a.Finish? { assert Owns(s.entries, a.p, s.procs[a.p]); }
    forall l | 0 <= l < |s'.log| ensures Keeps(s'.entries, s'.log[l]) {
      if l < |s.log| {
        assert Keeps(s.entries, s.log[l]);
        var i :| 0 <= i < |s.entries| && s.entries[i].state == Ready
            && Sent(s.entries[i].name, s.entries[i].key) == s.log[l];
        assert s'.entries[i] == s.entries[i];
      } else {
        var i := PendingAt(s.entries, a.name, 0);
        assert s'.entries[i].state == Ready && Sent(s'.entries[i].name, s'.entries[i].key) == s'.log[l];
      }
    }
  }

  lemma {:induction false} RunKeepsOneKey(states: seq<State>, hash: KeyName -> nat, actions: seq<Action>, i: nat)
    requires Run(states, hash, actions) && i <= |actions|
    requires forall j :: 0 <= j < i ==> Gentle(actions[j])
    ensures OneClaimInv(states[i], hash) && OneKeyInv(states[i]) && KeysInv(states[i])
  {
    ClaimedAtMostOnce(states, hash, actions, i);
    FoundWasPublished(states, hash, actions, i);
    if i > 0 {
      RunKeepsOneKey(states, hash, actions, i - 1);
      NextKeepsOneKey(states[i - 1], hash, actions[i - 1]);
    }
  }

  /** In such a run everyone who is handed a pair's key is handed the same key. */
  lemma AnswersAgree(states: seq<State>, hash: KeyName -> nat, actions: seq<Action>, i: nat, m: Sent, m': Sent)
    requires Run(states, hash, actions) && i <= |actions|
    requires forall j :: 0 <= j < i ==> Gentle(actions[j])
    requires m in states[i].found && m' in states[i].found && m.name == m'.name
    ensures m == m'
  {
    RunKeepsOneKey(states, hash, actions, i);
    var s := states[i];
    assert m in s.log && m' in s.log;
    assert Keeps(s.entries, m) && Keeps(s.entries, m');
  }

  // ------------------------------------------------- second claims after evictions

  predicate PassedTaken(es: seq<Entry>, hash: KeyName -> nat, pc: Pc)
    requires |es| > 0
  {
    pc.Scan? ==>
      pc.k <= |es| && forall j: nat :: j < pc.k ==> Taken(es[At(Start(hash, pc.name, |es|), j, |es|)])
  }

  /** What evictions leave intact. */
  predicate CrowdInv(s: State, hash: KeyName -> nat) {
    && |s.entries| > 0 && ChainsHold(s.entries, hash)
    && forall p :: 0 <= p < |s.procs| ==> PassedTaken(s.entries, hash, s.procs[p]) && Owns(s.entries, p, s.procs[p])
  }

  /** Slots stay in use, keep their names unless `p` takes them, and only `p` moves. */
  predicate Crowds(s: State, s': State, p: nat) {
    && p < |s.procs| && |s'.entries| == |s.entries| && |s'.procs| == |s.procs|
    && s'.procs == s.procs[p := s'.procs[p]]
    && forall i :: 0 <= i < |s.entries| && Taken(s.entries[i]) ==>
         && Taken(s'.entries[i])
         && (s.entries[i].state == Writing && s.entries[i].pid != p + 1 ==> s'.entries[i] == s.entries[i])
  }

  predicate ChainsGrow(s: State, s': State, hash: KeyName -> nat)
    requires |s'.entries| == |s.entries|
  {
    forall i: nat :: i < |s.entries| && Taken(s'.entries[i]) ==>
      (Taken(s.entries[i]) && s'.entries[i].name == s.entries[i].name) || ChainTo(s'.entries, hash, i)
  }

  lemma CrowdGrows(s: State, s': State, hash: KeyName -> nat, p: nat)
    requires CrowdInv(s, hash) && Crowds(s, s', p) && ChainsGrow(s, s', hash)
    requires PassedTaken(s'.entries, hash, s'.procs[p]) && Owns(s'.entries, p, s'.procs[p])
    ensures CrowdInv(s', hash)
  {
    forall i: nat | i < |s.entries| && Taken(s'.entries[i]) ensures ChainTo(s'.entries, hash, i) {
      if Taken(s.entries[i]) && s'.entries[i].name == s.entries[i].name { assert ChainTo(s.entries, hash, i); }
    }
    forall q | 0 <= q < |s.procs| && q != p
      ensures PassedTaken(s'.entries, hash, s.procs[q]) && Owns(s'.entries, q, s.procs[q])
    {
      assert PassedTaken(s.entries, hash, s.procs[q]) && Owns(s.entries, q, s.procs[q]);
    }
  }

  lemma LookKeepsCrowd(s: State, hash: KeyName -> nat, p: nat)
    requires CrowdInv(s, hash) && Enabled(s, Look(p))
    ensures CrowdInv(Looked(s, hash, p), hash)
  {
    assert PassedTaken(s.entries, hash, s.procs[p]);
    CrowdGrows(s, Looked(s, hash, p), hash, p);
  }

  /** A process that may evict has seen every slot in use. */
  lemma EvictKeepsCrowd(s: State, hash: KeyName -> nat, p: nat)
    requires CrowdInv(s, hash) && Enabled(s, Evict(p))
    ensures CrowdInv(Evicted(s, p), hash)
  {
    var s', pc := Evicted(s, p), s.procs[p];
    assert PassedTaken(s.entries, hash, pc);
    forall i: nat | i < |s.entries| ensures Taken(s.entries[i]) {
      var start := Start(hash, pc.name, |s.entries|);
      assert At(start, Dist(start, i, |s.entries|), |s.entries|) == i;
    }
    CrowdGrows(s, s', hash, p);
  }

  lemma FinishKeepsCrowd(s: State, hash: KeyName -> nat, p: nat)
    requires CrowdInv(s, hash) && Enabled(s, Finish(p))
    ensures CrowdInv(Finished(s, p), hash)
  {
    assert Owns(s.entries, p, s.procs[p]);
    CrowdGrows(s, Finished(s, p), hash, p);
  }

  lemma PublishKeepsCrowd(s: State, hash: KeyName -> nat, name: KeyName, key: seq<byte>)
    requires CrowdInv(s, hash)
    ensures CrowdInv(Next(s, hash, PublishKey(name, key)), hash)
  {
    var s' := Next(s, hash, PublishKey(name, key));
    forall i: nat | i < |s.entries| && Taken(s'.entries[i]) ensures ChainTo(s'.entries, hash, i) {
      assert ChainTo(s.entries, hash, i);
    }
    forall q | 0 <= q < |s.procs|
      ensures PassedTaken(s'.entries, hash, s.procs[q]) && Owns(s'.entries, q, s.procs[q])
    {
      assert PassedTaken(s.entries, hash, s.procs[q]) && Owns(s.entries, q, s.procs[q]);
    }
  }

  lemma NextKeepsCrowd(s: State, hash: KeyName -> nat, a: Action)
    requires CrowdInv(s, hash) && Enabled(s, a) && NoClear(a)
    ensures CrowdInv(Next(s, hash, a), hash)
  {
    match a
    case Look(p) => LookKeepsCrowd(s, hash, p);
    case Evict(p) => EvictKeepsCrowd(s, hash, p);
    case Finish(p) => FinishKeepsCrowd(s, hash, p);
    case PublishKey(name, key) => PublishKeepsCrowd(s, hash, name, key);
    case Begin(p, name) => CrowdGrows(s, Next(s, hash, a), hash, p);
    case Rescan(p) => CrowdGrows(s, Next(s, hash, a), hash, p);
    case GiveUp(p) => CrowdGrows(s, Next(s, hash, a), hash, p);
    case _ =>
  }

  lemma {:induction false} RunKeepsCrowd(states: seq<State>, hash: KeyName -> nat, actions: seq<Action>, i: nat)
    requires Run(states, hash, actions) && i <= |actions|
    requires forall j :: 0 <= j < i ==> NoClear(actions[j])
    ensures CrowdInv(states[i], hash)
  {
    if i > 0 {
      RunKeepsCrowd(states, hash, actions, i - 1);
      NextKeepsCrowd(states[i - 1], hash, actions[i - 1]);
    }
  }

  /** Process `p` takes a slot to install `name`. */
  predicate Takes(s: State, hash: KeyName -> nat, a: Action, p: nat, name: KeyName)
    requires |s.entries| > 0 && Enabled(s, a) && p < |s.procs|
  {
    s.procs[p].Scan? && s.procs[p].name == name && Next(s, hash, a).procs[p].Install?
  }

  predicate EvictsFrom(s: State, a: Action, j: nat) {
    && a.Evict? && a.p < |s.procs| && s.procs[a.p].Scan? && s.procs[a.p].best == j
    && j < |s.entries| && s.entries[j].state == Ready
  }

  predicate Past(s: State, hash: KeyName -> nat, p: nat, name: KeyName, j: nat)
    requires p < |s.procs| && j < |s.entries|
  {
    && s.procs[p].Scan? && s.procs[p].name == name
    && s.procs[p].k > Dist(Start(hash, name, |s.entries|), j, |s.entries|)
  }

  /** Slot `j` is taken for `name` and the process has not scanned past it. */
  predicate Ahead(s: State, hash: KeyName -> nat, p: nat, name: KeyName, j: nat) {
    && p < |s.procs| && j < |s.entries| && Taken(s.entries[j]) && s.entries[j].name == name
    && !Past(s, hash, p, name, j)
  }

  /** The process meets the entry and stops there. */
  lemma LookMeets(s: State, hash: KeyName -> nat, p: nat, name: KeyName, j: nat)
    requires CrowdInv(s, hash) && Enabled(s, Look(p)) && Ahead(s, hash, p, name, j) && s.procs[p].name == name
    ensures Ahead(Looked(s, hash, p), hash, p, name, j) && !Looked(s, hash, p).procs[p].Install?
  {
    var n, k := |s.entries|, s.procs[p].k;
    var start := Start(hash, name, n);
    assert ChainTo(s.entries, hash, j);
    assert At(start, Dist(start, j, n), n) == j;
    assert Taken(s.entries[At(start, k, n)]);
  }

  lemma StaysAhead(s: State, hash: KeyName -> nat, a: Action, p: nat, name: KeyName, j: nat)
    requires CrowdInv(s, hash) && Enabled(s, a) && NoClear(a) && !EvictsFrom(s, a, j) && Ahead(s, hash, p, name, j)
    ensures Ahead(Next(s, hash, a), hash, p, name, j) && !Takes(s, hash, a, p, name)
  {
    match a
    case Look(q) => if q == p && s.procs[p].name == name { LookMeets(s, hash, p, name, j); }
    case Finish(q) => assert Owns(s.entries, q, s.procs[q]);
    case _ =>
  }

  lemma {:induction false} RunStaysAhead(
      states: seq<State>, hash: KeyName -> nat, actions: seq<Action>, m: nat, t: nat, p: nat, name: KeyName, j: nat)
    requires Run(states, hash, actions) && m <= t <= |actions|
    requires forall i :: 0 <= i < t ==> NoClear(actions[i])
    requires Ahead(states[m], hash, p, name, j)
    requires forall i :: m <= i < t ==> !EvictsFrom(states[i], actions[i], j)
    ensures CrowdInv(states[t], hash) && Ahead(states[t], hash, p, name, j)
  {
    RunKeepsCrowd(states, hash, actions, t);
    if t > m {
      RunStaysAhead(states, hash, actions, m, t - 1, p, name, j);
      StaysAhead(states[t - 1], hash, actions[t - 1], p, name, j);
    }
  }

  /** With evictions but no clears, in every interleaving: when a process takes a slot for
      a pair that slot `j` was taken for earlier, `j` was evicted in between or the
      process had already scanned past `j`. */
  lemma SecondClaimNeedsEviction(
      states: seq<State>, hash: KeyName -> nat, actions: seq<Action>, m: nat, t: nat, p: nat, name: KeyName, j: nat)
    requires Run(states, hash, actions) && m <= t < |actions|
    requires forall i :: 0 <= i <= t ==> NoClear(actions[i])
    requires j < |states[m].entries| && Taken(states[m].entries[j]) && states[m].entries[j].name == name
    requires p < |states[t].procs| && p < |states[m].procs| && Takes(states[t], hash, actions[t], p, name)
    ensures (exists i :: m <= i <= t && EvictsFrom(states[i], actions[i], j)) || Past(states[m], hash, p, name, j)
  {
    if !Past(states[m], hash, p, name, j) && forall i :: m <= i <= t ==> !EvictsFrom(states[i], actions[i], j) {
      RunStaysAhead(states, hash, actions, m, t, p, name, j);
      StaysAhead(states[t], hash, actions[t], p, name, j);
      assert false;
    }
  }

  // ------------------------------------------------- exactly when a pair is taken twice

  predicate AllTaken(es: seq<Entry>) { forall i :: 0 <= i < |es| ==> Taken(es[i]) }

  predicate Present(es: seq<Entry>, name: KeyName) { exists i :: 0 <= i < |es| && Taken(es[i]) && es[i].name == name }

  /** The acting process takes a slot to install `name`. */
  predicate TakesNow(s: State, hash: KeyName -> nat, a: Action, name: KeyName)
    requires |s.entries| > 0 && Enabled(s, a)
  {
    (a.Look? || a.Evict?) && Takes(s, hash, a, a.p, name)
  }

  predicate TakenBefore(states: seq<State>, hash: KeyName -> nat, actions: seq<Action>, i: nat, name: KeyName)
    requires Run(states, hash, actions) && i <= |actions|
  {
    exists k :: 0 <= k < i && TakesNow(states[k], hash, actions[k], name)
  }

  /** At step `i` a process takes a slot for a pair that some process took one for before. */
  predicate TakesAgain(states: seq<State>, hash: KeyName -> nat, actions: seq<Action>, i: nat)
    requires Run(states, hash, actions) && i < |actions|
  {
    && (actions[i].Look? || actions[i].Evict?)
    && TakesNow(states[i], hash, actions[i], states[i].procs[actions[i].p].name)
    && TakenBefore(states, hash, actions, i, states[i].procs[actions[i].p].name)
  }

  lemma StaysTaken(s: State, hash: KeyName -> nat, a: Action)
    requires |s.entries| > 0 && Enabled(s, a) && NoClear(a) && AllTaken(s.entries)
    ensures AllTaken(Next(s, hash, a).entries)
  {
  }

  lemma EvictorSawAll(s: State, hash: KeyName -> nat, p: nat)
    requires OneClaimInv(s, hash) && Enabled(s, Evict(p))
    ensures AllTaken(s.entries)
  {
    assert Passed(s.entries, hash, s.procs[p]);
    forall i: nat | i < |s.entries| ensures Taken(s.entries[i]) {
      var start := Start(hash, s.procs[p].name, |s.entries|);
      assert At(start, Dist(start, i, |s.entries|), |s.entries|) == i;
    }
  }

  lemma StaysPresent(s: State, hash: KeyName -> nat, a: Action, name: KeyName)
    requires OneClaimInv(s, hash) && Enabled(s, a) && Gentle(a)
    requires Present(s.entries, name) || TakesNow(s, hash, a, name)
    ensures Present(Next(s, hash, a).entries, name)
  {
    var es' := Next(s, hash, a).entries;
    if TakesNow(s, hash, a, name) {
      var i := At(Start(hash, name, |es'|), s.procs[a.p].k, |es'|);
      assert Taken(es'[i]) && es'[i].name == name;
    } else {
      if a.Finish? { assert Owns(s.entries, a.p, s.procs[a.p]); }
      var i :| 0 <= i < |es'| && Taken(s.entries[i]) && s.entries[i].name == name;
      assert Taken(es'[i]) && es'[i].name == name;
    }
  }

  /** Until the table is full, nothing was evicted and every pair taken is still there. */
  lemma {:induction false} FullOrPresent(
      states: seq<State>, hash: KeyName -> nat, actions: seq<Action>, i: nat, name: KeyName)
    requires Run(states, hash, actions) && i <= |actions|
    requires forall j :: 0 <= j < i ==> NoClear(actions[j])
    ensures
      || AllTaken(states[i].entries)
      || (&& OneClaimInv(states[i], hash)
          && (TakenBefore(states, hash, actions, i, name) ==> Present(states[i].entries, name)))
  {
    if i > 0 {
      var s, a := states[i - 1], actions[i - 1];
      FullOrPresent(states, hash, actions, i - 1, name);
      if AllTaken(s.entries) {
        StaysTaken(s, hash, a);
      } else {
        if a.Evict? { EvictorSawAll(s, hash, a.p); }
        NextKeepsOneClaim(s, hash, a);
        if TakenBefore(states, hash, actions, i, name) {
          assert TakenBefore(states, hash, actions, i - 1, name) || TakesNow(s, hash, a, name);
          StaysPresent(s, hash, a, name);
        }
      }
    }
  }

  /** Without clears, a pair is taken a second time only by a process that evicts. */
  lemma SecondTakeEvicts(states: seq<State>, hash: KeyName -> nat, actions: seq<Action>, i: nat)
    requires Run(states, hash, actions) && i < |actions|
    requires forall j :: 0 <= j < i ==> NoClear(actions[j])
    requires TakesAgain(states, hash, actions, i)
    ensures actions[i].Evict?
  {
    if actions[i].Look? {
      var s, pc := states[i], states[i].procs[actions[i].p];
      FullOrPresent(states, hash, actions, i, pc.name);
      var j: nat :| j < |s.entries| && Taken(s.entries[j]) && s.entries[j].name == pc.name;
      assert Passed(s.entries, hash, pc);
      EmptyMeansAbsent(s.entries, hash, pc, j);
    }
  }

  /** What is claimed or being installed was taken before, and nothing twice. */
  predicate ClaimsOk(claims: seq<KeyName>, procs: seq<Pc>, was: KeyName -> bool) {
    && (forall c :: 0 <= c < |claims| ==> was(claims[c]))
    && (forall c, d :: 0 <= c < d < |claims| ==> claims[c] != claims[d])
    && (forall p :: 0 <= p < |procs| && procs[p].Install? ==> procs[p].name !in claims && was(procs[p].name))
    && (forall p, q :: 0 <= p < q < |procs| && procs[p].Install? && procs[q].Install? ==>
          procs[p].name != procs[q].name)
  }

  lemma MovingKeepsClaims(claims: seq<KeyName>, procs: seq<Pc>, was: KeyName -> bool, p: nat, pc: Pc)
    requires ClaimsOk(claims, procs, was) && p < |procs| && (pc.Install? ==> was(pc.name))
    requires pc.Install? ==>
               pc.name !in claims && forall q :: 0 <= q < |procs| && procs[q].Install? ==> procs[q].name != pc.name
    ensures ClaimsOk(claims, procs[p := pc], was)
  {
  }

  lemma FinishingKeepsClaims(claims: seq<KeyName>, procs: seq<Pc>, was: KeyName -> bool, p: nat)
    requires ClaimsOk(claims, procs, was) && p < |procs| && procs[p].Install?
    ensures ClaimsOk(claims + [procs[p].name], procs[p := Idle], was)
  {
  }

  /** How one step moves the acting process. */
  lemma StepMoves(s: State, hash: KeyName -> nat, a: Action)
    requires |s.entries| > 0 && Enabled(s, a) && !a.Finish?
    ensures Next(s, hash, a).claims == s.claims
    ensures
      || Next(s, hash, a).procs == s.procs
      || (!a.PublishKey? && !a.AbandonKey? && !a.Recover? && !a.ResetAll?
          && Next(s, hash, a).procs == s.procs[a.p := Next(s, hash, a).procs[a.p]]
          && (Next(s, hash, a).procs[a.p].Install? ==>
                TakesNow(s, hash, a, s.procs[a.p].name) && Next(s, hash, a).procs[a.p].name == s.procs[a.p].name))
  {
  }

  lemma ClaimsStep(s: State, hash: KeyName -> nat, a: Action, was: KeyName -> bool, was': KeyName -> bool)
    requires |s.entries| > 0 && Enabled(s, a) && ClaimsOk(s.claims, s.procs, was)
    requires forall name :: was(name) ==> was'(name)
    requires forall name :: TakesNow(s, hash, a, name) ==> !was(name) && was'(name)
    ensures ClaimsOk(Next(s, hash, a).claims, Next(s, hash, a).procs, was')
  {
    var s' := Next(s, hash, a);
    assert ClaimsOk(s.claims, s.procs, was');
    if a.Finish? {
      FinishingKeepsClaims(s.claims, s.procs, was', a.p);
    } else {
      StepMoves(s, hash, a);
      if s'.procs != s.procs { MovingKeepsClaims(s.claims, s.procs, was', a.p, s'.procs[a.p]); }
    }
  }

  ghost function Before(states: seq<State>, hash: KeyName -> nat, actions: seq<Action>, i: nat): KeyName -> bool
    requires Run(states, hash, actions) && i <= |actions|
  {
    name => Run(states, hash, actions) && i <= |actions| && TakenBefore(states, hash, actions, i, name)
  }

  predicate ClaimsDiffer(s: State) { forall c, d :: 0 <= c < d < |s.claims| ==> s.claims[c] != s.claims[d] }

  lemma {:induction false} TakenOnceClaimedOnce(states: seq<State>, hash: KeyName -> nat, actions: seq<Action>, n: nat)
    requires Run(states, hash, actions) && n <= |actions|
    requires forall i :: 0 <= i < n ==> !TakesAgain(states, hash, actions, i)
    ensures ClaimsOk(states[n].claims, states[n].procs, Before(states, hash, actions, n))
  {
    if n > 0 {
      TakenOnceClaimedOnce(states, hash, actions, n - 1);
      var was, was' := Before(states, hash, actions, n - 1), Before(states, hash, actions, n);
      forall name | TakesNow(states[n - 1], hash, actions[n - 1], name) ensures !was(name) && was'(name) {
        assert !TakesAgain(states, hash, actions, n - 1);
      }
      ClaimsStep(states[n - 1], hash, actions[n - 1], was, was');
    }
  }

  predicate TakenOnce(states: seq<State>, hash: KeyName -> nat, actions: seq<Action>, n: nat)
    requires Run(states, hash, actions) && n <= |actions|
  {
    forall i :: 0 <= i < n ==> !TakesAgain(states, hash, actions, i)
  }

  predicate EvictorsTakeNew(states: seq<State>, hash: KeyName -> nat, actions: seq<Action>, n: nat)
    requires Run(states, hash, actions) && n <= |actions|
  {
    forall i :: 0 <= i < n && actions[i].Evict? ==> !TakesAgain(states, hash, actions, i)
  }

  /** Without clears: no pair is taken twice if and only if no process evicts for a pair
      taken before, and then every pair is claimed at most once. */
  lemma ClaimedOnceIff(states: seq<State>, hash: KeyName -> nat, actions: seq<Action>, n: nat)
    requires Run(states, hash, actions) && n <= |actions|
    requires forall j :: 0 <= j < n ==> NoClear(actions[j])
    ensures TakenOnce(states, hash, actions, n) <==> EvictorsTakeNew(states, hash, actions, n)
    ensures EvictorsTakeNew(states, hash, actions, n) ==> ClaimsDiffer(states[n])
  {
    forall i | 0 <= i < n && TakesAgain(states, hash, actions, i) ensures actions[i].Evict? {
      SecondTakeEvicts(states, hash, actions, i);
    }
    if EvictorsTakeNew(states, hash, actions, n) { TakenOnceClaimedOnce(states, hash, actions, n); }
  }

  // --------------------------------------------------------- racing on a full table

  /** Steps in sequence from any state. */
  predicate Path(states: seq<State>, hash: KeyName -> nat, actions: seq<Action>) {
    && |states| == |actions| + 1
    && forall i :: 0 <= i < |actions| ==>
         |states[i].entries| > 0 && Enabled(states[i], actions[i]) && states[i + 1] == Next(states[i], hash, actions[i])
  }

  ghost predicate Leads(s: State, t: State, hash: KeyName -> nat) {
    exists states: seq<State>, actions: seq<Action> ::
      Path(states, hash, actions) && states[0] == s && states[|states| - 1] == t
  }

  lemma LeadsByStep(s: State, hash: KeyName -> nat, a: Action)
    requires |s.entries| > 0 && Enabled(s, a)
    ensures Leads(s, Next(s, hash, a), hash)
  {
    assert Path([s, Next(s, hash, a)], hash, [a]);
  }

  lemma LeadsOn(s: State, t: State, u: State, hash: KeyName -> nat)
    requires Leads(s, t, hash) && Leads(t, u, hash)
    ensures Leads(s, u, hash)
  {
    var r1: seq<State>, a1: seq<Action> :| Path(r1, hash, a1) && r1[0] == s && r1[|r1| - 1] == t;
    var r2: seq<State>, a2: seq<Action> :| Path(r2, hash, a2) && r2[0] == t && r2[|r2| - 1] == u;
    var r, a := r1 + r2[1..], a1 + a2;
    forall i | 0 <= i < |a| ensures |r[i].entries| > 0 && Enabled(r[i], a[i]) && r[i + 1] == Next(r[i], hash, a[i]) {
      if i >= |a1| { assert r[i] == r2[i - |a1|] && r[i + 1] == r2[i - |a1| + 1] && a[i] == a2[i - |a1|]; }
    }
    assert Path(r, hash, a) && r[0] == s && r[|r| - 1] == u;
  }

  predicate FullOfOthers(es: seq<Entry>, name: KeyName) {
    |es| > 0 && forall i :: 0 <= i < |es| ==> es[i].state == Ready && es[i].name != name
  }

  /** A scan of a full table ends with a candidate for eviction. */
  lemma {:induction false} ScanThrough(s: State, hash: KeyName -> nat, p: nat) returns (t: State)
    requires p < |s.procs| && s.procs[p].Scan? && s.procs[p].k <= |s.entries|
               && FullOfOthers(s.entries, s.procs[p].name)
    requires s.procs[p].k > 0 ==> s.procs[p].best < |s.entries|
    ensures Leads(s, t, hash) && Enabled(t, Evict(p)) && t == s.(procs := s.procs[p := t.procs[p]])
    ensures t.procs[p].name == s.procs[p].name
    decreases |s.entries| - s.procs[p].k
  {
    if s.procs[p].k == |s.entries| {
      t := s;
      assert Path([s], hash, []);
    } else {
      LeadsByStep(s, hash, Look(p));
      var u := Looked(s, hash, p);
      t := ScanThrough(u, hash, p);
      LeadsOn(s, u, t, hash);
    }
  }

  lemma BeginAndScan(s: State, hash: KeyName -> nat, p: nat, name: KeyName) returns (t: State)
    requires p < |s.procs| && s.procs[p].Idle? && ValidName(name) && FullOfOthers(s.entries, name)
    ensures Leads(s, t, hash) && Enabled(t, Evict(p)) && t == s.(procs := s.procs[p := t.procs[p]])
    ensures t.procs[p].name == name
  {
    var u := Next(s, hash, Begin(p, name));
    LeadsByStep(s, hash, Begin(p, name));
    t := ScanThrough(u, hash, p);
    LeadsOn(s, u, t, hash);
  }

  lemma EvictAndFinish(s: State, hash: KeyName -> nat, p: nat) returns (t: State)
    requires Enabled(s, Evict(p)) && s.entries[s.procs[p].best].state == Ready
    ensures Leads(s, t, hash) && t.procs == s.procs[p := Idle] && t.claims == s.claims + [s.procs[p].name]
              && t.log == s.log
    ensures t.entries == s.entries[s.procs[p].best := Entry(Pending, p + 1, s.generation + 1, s.procs[p].name, [])]
  {
    var u := Evicted(s, p);
    LeadsByStep(s, hash, Evict(p));
    t := Finished(u, p);
    LeadsByStep(u, hash, Finish(p));
    LeadsOn(s, u, t, hash);
    assert t.entries == s.entries[s.procs[p].best := Entry(Pending, p + 1, s.generation + 1, s.procs[p].name, [])];
    assert t.procs == s.procs[p := Idle];
  }

  lemma PublishAt(s: State, hash: KeyName -> nat, i: nat, name: KeyName, key: seq<byte>) returns (t: State)
    requires i < |s.entries| && s.entries[i].state == Pending && s.entries[i].name == name
    requires forall j :: 0 <= j < |s.entries| && j != i ==> s.entries[j].state == Ready
    ensures Leads(s, t, hash) && |t.entries| == |s.entries| && t.procs == s.procs && t.claims == s.claims
    ensures t.log == s.log + [Sent(name, key)] && forall j :: 0 <= j < |t.entries| ==> t.entries[j].state == Ready
  {
    t := Next(s, hash, PublishKey(name, key));
    LeadsByStep(s, hash, PublishKey(name, key));
    assert PendingAt(s.entries, name, 0) == i;
  }

  /** Eviction defeats the guarantee: whenever the table is full of ready entries
      for other pairs, two processes can both be told to fetch the same pair's
      key, the second one after the first has already published it. */
  lemma EvictionAllowsSecondClaim(s: State, hash: KeyName -> nat, p: nat, q: nat, name: KeyName, key: seq<byte>)
    returns (t: State)
    requires p < |s.procs| && q < |s.procs| && p != q && s.procs[p].Idle? && s.procs[q].Idle?
    requires ValidName(name) && FullOfOthers(s.entries, name)
    ensures Leads(s, t, hash) && t.claims == s.claims + [name, name] && t.log == s.log + [Sent(name, key)]
  {
    var s1 := BeginAndScan(s, hash, p, name);
    var s2 := BeginAndScan(s1, hash, q, name);
    LeadsOn(s, s1, s2, hash);
    var s3 := EvictAndFinish(s2, hash, p);
    LeadsOn(s, s2, s3, hash);
    var s4 := PublishAt(s3, hash, s2.procs[p].best, name, key);
    LeadsOn(s, s3, s4, hash);
    t := EvictAndFinish(s4, hash, q);
    LeadsOn(s, s4, t, hash);
  }
}
