/** Runs of the message-key cache (`qkd.rs`): claims with any processes alive at
    each of them, publications, abandoned claims, resets, and processes that die
    while they write an entry. */
module MessageKeyRuns {
  import opened Bytes
  import opened MessageKeyCache

  datatype Step =
    | DoClaim(pid: nat, name: KeyName, alive: set<nat>)
    | DoPublish(name: KeyName, key: seq<byte>)
    | DoAbandon(name: KeyName)
    | DoReset
    | DoCrash(slot: nat, left: Entry)

  datatype Event = Event(cache: Cache, log: seq<Sent>)

  predicate Enabled(c: Cache, s: Step) {
    && |c.entries| > 0
    && (s.DoClaim? ==> NoLiveWriter(c, s.alive))
    && (s.DoCrash? ==> s.slot < |c.entries| && s.left.state == Writing)
  }

  function After(c: Cache, hash: KeyName -> nat, s: Step): (r: Cache)
    requires Enabled(c, s)
    ensures |r.entries| == |c.entries|
  {
    match s
    case DoClaim(pid, name, alive) => Claim(c, hash, pid, alive, name).0
    case DoPublish(name, key) => Publish(c, name, key).0
    case DoAbandon(name) => Abandon(c, name)
    case DoReset => Reset(c)
    case DoCrash(slot, left) => c.(entries := c.entries[slot := left])
  }

  function LogAfter(c: Cache, log: seq<Sent>, s: Step): (r: seq<Sent>) {
    if s.DoPublish? && Publish(c, s.name, s.key).1 then log + [Sent(s.name, s.key)] else log
  }

  predicate Runs(run: seq<Event>, steps: seq<Step>, hash: KeyName -> nat) {
    && |run| == |steps| + 1
    && run[0].log == [] && |run[0].cache.entries| > 0 && run[0].cache == Fresh(|run[0].cache.entries|)
    && forall i :: 0 <= i < |steps| ==>
         && Enabled(run[i].cache, steps[i])
         && run[i + 1] == Event(After(run[i].cache, hash, steps[i]), LogAfter(run[i].cache, run[i].log, steps[i]))
  }

  // --------------------------------------------------- what one claim does, in any state

  /** Every slot probed before slot `i` holds a complete entry. */
  predicate Solid(es: seq<Entry>, hash: KeyName -> nat, i: nat)
    requires i < |es|
  {
    var start := Start(hash, es[i].name, |es|);
    forall k: nat :: k < Dist(start, i, |es|) ==> Occupied(es[At(start, k, |es|)])
  }

  /** An entry of `p` lies behind an empty or half-written slot of its chain. */
  predicate Hidden(es: seq<Entry>, hash: KeyName -> nat, p: KeyName) {
    exists i: nat :: i < |es| && IsFor(es[i], p) && !Solid(es, hash, i)
  }

  /** The claimant of an entry of `p` died. */
  predicate Deserted(es: seq<Entry>, alive: set<nat>, p: KeyName) {
    exists i: nat :: i < |es| && IsFor(es[i], p) && es[i].state == Pending && Dead(es[i], alive)
  }

  /** The state a claim rescans after it recovered an entry; the same state if it
      decides at once. */
  function Recovered(c: Cache, hash: KeyName -> nat, alive: set<nat>, p: KeyName): (r: Cache)
    requires |c.entries| > 0
    ensures |r.entries| == |c.entries|
  {
    var es := c.entries;
    var k := ScanFrom(es, Start(hash, p, |es|), p, 0);
    if !ValidName(p) || k == |es| then c
    else
      var i := At(Start(hash, p, |es|), k, |es|);
      if es[i].state == Writing then c.(entries := es[i := es[i].(state := Empty)])
      else if es[i].state == Pending && Dead(es[i], alive) then c.(entries := es[i := CLEARED])
      else c
  }

  lemma RecoveredIs(c: Cache, hash: KeyName -> nat, pid: nat, alive: set<nat>, p: KeyName)
    requires |c.entries| > 0 && NoLiveWriter(c, alive) && Recovered(c, hash, alive, p) != c
    ensures var r := Recovered(c, hash, alive, p);
            && NoLiveWriter(r, alive) && |Stale(r.entries)| < |Stale(c.entries)| && ValidName(p)
            && Claim(c, hash, pid, alive, p) == Claim(r, hash, pid, alive, p)
  {
    var es, r := c.entries, Recovered(c, hash, alive, p);
    var i := At(Start(hash, p, |es|), ScanFrom(es, Start(hash, p, |es|), p, 0), |es|);
    assert Stale(r.entries) == Stale(es) - {i};
  }

  /** A claim only takes ready entries away. */
  lemma {:induction false} ClaimReadies(c: Cache, hash: KeyName -> nat, pid: nat, alive: set<nat>, p: KeyName, j: nat)
    requires |c.entries| > 0 && NoLiveWriter(c, alive) && j < |c.entries|
    requires Claim(c, hash, pid, alive, p).0.entries[j].state == Ready
    ensures Claim(c, hash, pid, alive, p).0.entries[j] == c.entries[j]
    decreases |Stale(c.entries)|
  {
    var r := Recovered(c, hash, alive, p);
    if r != c {
      RecoveredIs(c, hash, pid, alive, p);
      ClaimReadies(r, hash, pid, alive, p, j);
    }
  }

  /** A recovered slot stays empty for the rescan, so a claim never both recovers and evicts. */
  lemma RecoveredEmpties(c: Cache, hash: KeyName -> nat, alive: set<nat>, p: KeyName)
    requires |c.entries| > 0 && Recovered(c, hash, alive, p) != c
    ensures exists i :: 0 <= i < |c.entries| && Recovered(c, hash, alive, p).entries[i].state == Empty
  {
    var es := c.entries;
    var i := At(Start(hash, p, |es|), ScanFrom(es, Start(hash, p, |es|), p, 0), |es|);
    assert Recovered(c, hash, alive, p).entries[i].state == Empty;
  }

  /** An answer other than "none available" leaves the pair with an entry. */
  lemma {:induction false} AnsweredIsHeld(c: Cache, hash: KeyName -> nat, pid: nat, alive: set<nat>, p: KeyName)
    requires |c.entries| > 0 && NoLiveWriter(c, alive) && ValidName(p)
    ensures var (c', r) := Claim(c, hash, pid, alive, p);
            if r == NoneAvailable then c' == c && !Holds(c, p) else Holds(c', p)
    decreases |Stale(c.entries)|
  {
    var r := Recovered(c, hash, alive, p);
    if r != c {
      RecoveredIs(c, hash, pid, alive, p);
      RecoveredEmpties(c, hash, alive, p);
      AnsweredIsHeld(r, hash, pid, alive, p);
      if Claim(r, hash, pid, alive, p).1 == NoneAvailable { NoneMeansFull(r, hash, pid, alive, p); }
    } else {
      var es, start := c.entries, Start(hash, p, |c.entries|);
      var k := ScanFrom(es, start, p, 0);
      if k < |es| {
        assert IsFor(Claim(c, hash, pid, alive, p).0.entries[At(start, k, |es|)], p);
      } else {
        var i := OldestReady(es, start, |es|);
        if i < |es| { assert IsFor(Claim(c, hash, pid, alive, p).0.entries[i], p); }
        forall j: nat | j < |es| ensures !IsFor(es[j], p) { ScanCovers(es, start, p, j); }
      }
    }
  }

  lemma {:induction false} NoneMeansFull(c: Cache, hash: KeyName -> nat, pid: nat, alive: set<nat>, p: KeyName)
    requires |c.entries| > 0 && NoLiveWriter(c, alive) && Claim(c, hash, pid, alive, p).1 == NoneAvailable
    ensures forall j :: 0 <= j < |c.entries| ==> c.entries[j].state == Pending
    decreases |Stale(c.entries)|
  {
    var r := Recovered(c, hash, alive, p);
    if r != c {
      RecoveredIs(c, hash, pid, alive, p);
      RecoveredEmpties(c, hash, alive, p);
      NoneMeansFull(r, hash, pid, alive, p);
    } else {
      var es, start := c.entries, Start(hash, p, |c.entries|);
      forall j: nat | j < |es| ensures es[j].state == Pending { ScanCovers(es, start, p, j); }
    }
  }

  /** What a claim that hands out a key has found. */
  lemma {:induction false} FoundIsReady(c: Cache, hash: KeyName -> nat, pid: nat, alive: set<nat>, p: KeyName)
    returns (i: nat)
    requires |c.entries| > 0 && NoLiveWriter(c, alive) && Claim(c, hash, pid, alive, p).1.FoundReady?
    ensures i < |c.entries| && c.entries[i].state == Ready && c.entries[i].name == p
    ensures Claim(c, hash, pid, alive, p).1 == FoundReady(c.entries[i].key)
    decreases |Stale(c.entries)|
  {
    var r := Recovered(c, hash, alive, p);
    if r != c {
      RecoveredIs(c, hash, pid, alive, p);
      i := FoundIsReady(r, hash, pid, alive, p);
    } else {
      i := At(Start(hash, p, |c.entries|), ScanFrom(c.entries, Start(hash, p, |c.entries|), p, 0), |c.entries|);
    }
  }

  // -------------------------------------------- when a claim makes a second entry

  /** A scan stops before an entry that is hidden. */
  lemma HiddenStops(es: seq<Entry>, hash: KeyName -> nat, p: KeyName, j: nat)
    requires j < |es| && IsFor(es[j], p) && !Solid(es, hash, j) && OnePerName(es)
    ensures var start := Start(hash, p, |es|);
            var k := ScanFrom(es, start, p, 0);
            k < Dist(start, j, |es|) && !Occupied(es[At(start, k, |es|)]) && At(start, k, |es|) != j
  {
    var start := Start(hash, p, |es|);
    var k0: nat :| k0 < Dist(start, j, |es|) && !Occupied(es[At(start, k0, |es|)]);
    assert Stops(es[At(start, k0, |es|)], p);
  }

  /** A scan stops at an entry that is not hidden. */
  lemma SolidStops(es: seq<Entry>, hash: KeyName -> nat, p: KeyName)
    requires exists j: nat :: j < |es| && IsFor(es[j], p)
    requires !Hidden(es, hash, p)
    ensures var start := Start(hash, p, |es|);
            var k := ScanFrom(es, start, p, 0);
            k < |es| && IsFor(es[At(start, k, |es|)], p)
  {
    var start := Start(hash, p, |es|);
    var j: nat :| j < |es| && IsFor(es[j], p);
    assert Solid(es, hash, j);
    assert Stops(es[At(start, Dist(start, j, |es|), |es|)], p);
  }

  lemma PlacedTwice(c: Cache, pid: nat, p: KeyName, i: nat, j: nat)
    requires i < |c.entries| && j < |c.entries| && i != j && IsFor(c.entries[j], p)
    ensures !OnePerName(Place(c, i, pid, p).entries)
  {
    var es := Place(c, i, pid, p).entries;
    assert Occupied(es[i]) && IsFor(es[j], es[i].name);
  }

  /** A claim that decides at once duplicates a hidden entry ... */
  lemma HiddenIsDuplicated(c: Cache, hash: KeyName -> nat, pid: nat, alive: set<nat>, p: KeyName)
    requires |c.entries| > 0 && NoLiveWriter(c, alive) && ValidName(p) && OnePerName(c.entries)
    requires Recovered(c, hash, alive, p) == c && Hidden(c.entries, hash, p)
    ensures !OnePerName(Claim(c, hash, pid, alive, p).0.entries)
  {
    var es, start := c.entries, Start(hash, p, |c.entries|);
    var j: nat :| j < |es| && IsFor(es[j], p) && !Solid(es, hash, j);
    HiddenStops(es, hash, p, j);
    PlacedTwice(c, pid, p, At(start, ScanFrom(es, start, p, 0), |es|), j);
  }

  /** ... and finds one that is not hidden, or makes the only one. */
  lemma OpenStaysSingle(c: Cache, hash: KeyName -> nat, pid: nat, alive: set<nat>, p: KeyName)
    requires |c.entries| > 0 && NoLiveWriter(c, alive) && ValidName(p) && OnePerName(c.entries)
    requires Recovered(c, hash, alive, p) == c && !Hidden(c.entries, hash, p)
    ensures OnePerName(Claim(c, hash, pid, alive, p).0.entries)
  {
    if Holds(c, p) { SolidStops(c.entries, hash, p); }
  }

  /** In any state with one entry a pair: a claim leaves it so if and only if no entry
      of the pair is hidden. */
  lemma {:induction false} ClaimKeepsOneIff(c: Cache, hash: KeyName -> nat, pid: nat, alive: set<nat>, p: KeyName)
    requires |c.entries| > 0 && NoLiveWriter(c, alive) && ValidName(p) && OnePerName(c.entries)
    ensures OnePerName(Claim(c, hash, pid, alive, p).0.entries) <==> !Hidden(c.entries, hash, p)
    decreases |Stale(c.entries)|
  {
    var r := Recovered(c, hash, alive, p);
    if r != c {
      RecoveredIs(c, hash, pid, alive, p);
      RecoveredKeepsHidden(c, hash, alive, p);
      ClaimKeepsOneIff(r, hash, pid, alive, p);
    } else if Hidden(c.entries, hash, p) {
      HiddenIsDuplicated(c, hash, pid, alive, p);
    } else {
      OpenStaysSingle(c, hash, pid, alive, p);
    }
  }

  lemma RecoveredKeepsSingle(c: Cache, hash: KeyName -> nat, alive: set<nat>, p: KeyName)
    requires |c.entries| > 0 && OnePerName(c.entries)
    ensures OnePerName(Recovered(c, hash, alive, p).entries)
  {
  }

  lemma HiddenStaysHidden(c: Cache, hash: KeyName -> nat, alive: set<nat>, p: KeyName)
    requires |c.entries| > 0 && OnePerName(c.entries) && Hidden(c.entries, hash, p)
    ensures Hidden(Recovered(c, hash, alive, p).entries, hash, p)
  {
    var es, es', start := c.entries, Recovered(c, hash, alive, p).entries, Start(hash, p, |c.entries|);
    var j: nat :| j < |es| && IsFor(es[j], p) && !Solid(es, hash, j);
    HiddenStops(es, hash, p, j);
    var k := ScanFrom(es, start, p, 0);
    assert !Occupied(es'[At(start, k, |es|)]);
    assert IsFor(es'[j], p) && !Solid(es', hash, j);
  }

  lemma OpenStaysOpen(c: Cache, hash: KeyName -> nat, alive: set<nat>, p: KeyName)
    requires |c.entries| > 0 && OnePerName(c.entries) && !Hidden(c.entries, hash, p)
    ensures !Hidden(Recovered(c, hash, alive, p).entries, hash, p)
  {
    if Holds(c, p) { SolidStops(c.entries, hash, p); }
  }

  lemma RecoveredKeepsHidden(c: Cache, hash: KeyName -> nat, alive: set<nat>, p: KeyName)
    requires |c.entries| > 0 && OnePerName(c.entries)
    ensures OnePerName(Recovered(c, hash, alive, p).entries)
    ensures Hidden(Recovered(c, hash, alive, p).entries, hash, p) == Hidden(c.entries, hash, p)
  {
    RecoveredKeepsSingle(c, hash, alive, p);
    if Hidden(c.entries, hash, p) { HiddenStaysHidden(c, hash, alive, p); } else { OpenStaysOpen(c, hash, alive, p); }
  }

  // ------------------------------------------------------------------ over all runs

  predicate ReadyIsLast(c: Cache, log: seq<Sent>) {
    forall i :: 0 <= i < |c.entries| && c.entries[i].state == Ready ==>
      LastSent(log, c.entries[i].name) == [c.entries[i].key]
  }

  /** One entry a pair, and ready entries hold the key last published for their pair. */
  predicate Sound(e: Event) { OnePerName(e.cache.entries) && ReadyIsLast(e.cache, e.log) }

  /** The step claims a pair of which an entry is hidden. */
  predicate MeetsHidden(c: Cache, hash: KeyName -> nat, s: Step) {
    s.DoClaim? && ValidName(s.name) && Hidden(c.entries, hash, s.name)
  }

  lemma PublishKeepsReady(c: Cache, log: seq<Sent>, p: KeyName, key: seq<byte>)
    requires OnePerName(c.entries) && ReadyIsLast(c, log) && Publish(c, p, key).1
    ensures ReadyIsLast(Publish(c, p, key).0, log + [Sent(p, key)])
  {
    var c', log' := Publish(c, p, key).0, log + [Sent(p, key)];
    var at := PendingAt(c.entries, p, 0);
    forall i | 0 <= i < |c'.entries| && c'.entries[i].state == Ready
      ensures LastSent(log', c'.entries[i].name) == [c'.entries[i].key]
    {
      assert log'[..|log'| - 1] == log;
      if i != at && c.entries[i].name == p { assert IsFor(c.entries[i], c.entries[at].name); }
    }
  }

  lemma ClaimKeepsReady(c: Cache, log: seq<Sent>, hash: KeyName -> nat, s: Step)
    requires s.DoClaim? && Enabled(c, s) && ReadyIsLast(c, log)
    ensures ReadyIsLast(After(c, hash, s), log)
  {
    var c' := After(c, hash, s);
    forall i | 0 <= i < |c'.entries| && c'.entries[i].state == Ready ensures c'.entries[i] == c.entries[i] {
      ClaimReadies(c, hash, s.pid, s.alive, s.name, i);
    }
  }

  /** From a sound state a step leads to a sound one if and only if it claims no
      hidden pair. */
  lemma StepSoundIff(e: Event, hash: KeyName -> nat, s: Step)
    requires Enabled(e.cache, s) && Sound(e)
    ensures Sound(Event(After(e.cache, hash, s), LogAfter(e.cache, e.log, s))) <==> !MeetsHidden(e.cache, hash, s)
  {
    match s
    case DoClaim(pid, name, alive) =>
      ClaimKeepsReady(e.cache, e.log, hash, s);
      if ValidName(name) { ClaimKeepsOneIff(e.cache, hash, pid, alive, name); }
    case DoPublish(name, key) =>
      if Publish(e.cache, name, key).1 { PublishKeepsReady(e.cache, e.log, name, key); }
    case _ =>
  }

  predicate AllSound(run: seq<Event>, n: nat)
    requires n < |run|
  {
    forall i :: 0 <= i <= n ==> Sound(run[i])
  }

  predicate NoneHidden(run: seq<Event>, steps: seq<Step>, hash: KeyName -> nat, n: nat)
    requires n <= |steps| && n <= |run|
  {
    forall i :: 0 <= i < n ==> !MeetsHidden(run[i].cache, hash, steps[i])
  }

  lemma RunStepSoundIff(run: seq<Event>, steps: seq<Step>, hash: KeyName -> nat, i: nat)
    requires Runs(run, steps, hash) && i < |steps| && Sound(run[i])
    ensures Sound(run[i + 1]) <==> !MeetsHidden(run[i].cache, hash, steps[i])
  {
    StepSoundIff(run[i], hash, steps[i]);
  }

  /** In every run of claims, publications, abandoned claims, recoveries, evictions,
      resets and crashes: all states up to `n` are sound if and only if no claim
      before `n` met a hidden entry of its pair. */
  lemma {:induction false} RunSoundIff(run: seq<Event>, steps: seq<Step>, hash: KeyName -> nat, n: nat)
    requires Runs(run, steps, hash) && n <= |steps|
    ensures AllSound(run, n) <==> NoneHidden(run, steps, hash, n)
  {
    if n > 0 {
      RunSoundIff(run, steps, hash, n - 1);
      if AllSound(run, n - 1) { RunStepSoundIff(run, steps, hash, n - 1); }
    }
  }

  /** In such a run a key handed out is the one last published for its pair. */
  lemma FoundIsLast(run: seq<Event>, steps: seq<Step>, hash: KeyName -> nat, n: nat)
    requires Runs(run, steps, hash) && n < |steps| && steps[n].DoClaim?
    requires NoneHidden(run, steps, hash, n)
    ensures var r := Claim(run[n].cache, hash, steps[n].pid, steps[n].alive, steps[n].name).1;
            r.FoundReady? ==> LastSent(run[n].log, steps[n].name) == [r.key]
  {
    RunSoundIff(run, steps, hash, n);
    var c, s := run[n].cache, steps[n];
    assert Sound(run[n]);
    if Claim(c, hash, s.pid, s.alive, s.name).1.FoundReady? {
      var i := FoundIsReady(c, hash, s.pid, s.alive, s.name);
    }
  }

  // ------------------------------------------------ how a pair comes to be claimed again

  /** An entry of `p` may be evicted: the table has no empty slot and it has the least
      generation of the ready entries. */
  predicate Evictable(c: Cache, p: KeyName) {
    exists i: nat :: i < |c.entries| && IsFor(c.entries[i], p) && c.entries[i].state == Ready && Replaceable(c, i)
  }

  /** A step that can take the entry of `p` away. */
  predicate Loses(c: Cache, s: Step, p: KeyName) {
    match s
    case DoClaim(_, name, _) => name != p && Evictable(c, p)
    case DoPublish(_, _) => false
    case DoAbandon(name) => name == p
    case DoReset => true
    case DoCrash(slot, _) => slot < |c.entries| && IsFor(c.entries[slot], p)
  }

  /** A claim that decides at once leaves every entry alone but the one it evicts. */
  lemma DecidedKeepsEntry(c: Cache, hash: KeyName -> nat, pid: nat, alive: set<nat>, q: KeyName, at: nat)
    requires |c.entries| > 0 && NoLiveWriter(c, alive) && Recovered(c, hash, alive, q) == c
    requires at < |c.entries| && Occupied(c.entries[at])
    ensures
      || Claim(c, hash, pid, alive, q).0.entries[at] == c.entries[at]
      || (c.entries[at].state == Ready && Replaceable(c, at))
  {
    var es, start := c.entries, Start(hash, q, |c.entries|);
    var i := OldestReady(es, start, |es|);
    if ValidName(q) && ScanFrom(es, start, q, 0) == |es| && i == at {
      forall j: nat | j < |es| ensures es[j].state != Empty { ScanCovers(es, start, q, j); }
      forall j: nat | j < |es| && es[j].state == Ready ensures es[i].generation <= es[j].generation {
        ScanCovers(es, start, q, j);
      }
    }
  }

  lemma {:induction false} ClaimKeepsHolds(
    c: Cache, hash: KeyName -> nat, pid: nat, alive: set<nat>, q: KeyName, p: KeyName)
    requires |c.entries| > 0 && NoLiveWriter(c, alive) && Holds(c, p) && q != p
    ensures Holds(Claim(c, hash, pid, alive, q).0, p) || Evictable(c, p)
    decreases |Stale(c.entries)|
  {
    var r := Recovered(c, hash, alive, q);
    var at: nat :| at < |c.entries| && IsFor(c.entries[at], p);
    if r != c {
      RecoveredIs(c, hash, pid, alive, q);
      RecoveredEmpties(c, hash, alive, q);
      assert IsFor(r.entries[at], p);
      ClaimKeepsHolds(r, hash, pid, alive, q, p);
    } else {
      DecidedKeepsEntry(c, hash, pid, alive, q, at);
      if Claim(c, hash, pid, alive, q).0.entries[at] == c.entries[at] {
        assert IsFor(Claim(c, hash, pid, alive, q).0.entries[at], p);
      }
    }
  }

  lemma StepKeepsHolds(c: Cache, hash: KeyName -> nat, s: Step, p: KeyName)
    requires Enabled(c, s) && Holds(c, p) && !Loses(c, s, p)
    ensures Holds(After(c, hash, s), p)
  {
    var at: nat :| at < |c.entries| && IsFor(c.entries[at], p);
    match s
    case DoClaim(pid, name, alive) =>
      if name != p {
        ClaimKeepsHolds(c, hash, pid, alive, name, p);
      } else if ValidName(p) {
        AnsweredIsHeld(c, hash, pid, alive, p);
      }
    case DoPublish(_, _) => assert IsFor(After(c, hash, s).entries[at], p);
    case DoAbandon(_) => assert IsFor(After(c, hash, s).entries[at], p);
    case DoCrash(_, _) => assert IsFor(After(c, hash, s).entries[at], p);
    case DoReset =>
  }

  /** In every run: a pair that has an entry and later has none lost it at some step
      in between, to an eviction, its own abandonment, a reset or a crash. */
  lemma {:induction false} HeldUntilLost(
    run: seq<Event>, steps: seq<Step>, hash: KeyName -> nat, i: nat, j: nat, p: KeyName) returns (k: nat)
    requires Runs(run, steps, hash) && i <= j <= |steps| && Holds(run[i].cache, p) && !Holds(run[j].cache, p)
    ensures i <= k < j && Loses(run[k].cache, steps[k], p)
    ensures Holds(run[k].cache, p) && !Holds(run[k + 1].cache, p)
    decreases j - i
  {
    if Holds(run[i + 1].cache, p) {
      k := HeldUntilLost(run, steps, hash, i + 1, j, p);
    } else {
      k := i;
      if !Loses(run[i].cache, steps[i], p) { StepKeepsHolds(run[i].cache, hash, steps[i], p); }
    }
  }

  /** Who is told to fetch although the pair has an entry: its entry is hidden, or its
      claimant died. */
  lemma ClaimedWhileHeld(c: Cache, hash: KeyName -> nat, pid: nat, alive: set<nat>, p: KeyName)
    requires |c.entries| > 0 && NoLiveWriter(c, alive) && ValidName(p) && Holds(c, p)
    requires Claim(c, hash, pid, alive, p).1 == Claimed
    ensures Hidden(c.entries, hash, p) || Deserted(c.entries, alive, p)
  {
    if !Hidden(c.entries, hash, p) { SolidStops(c.entries, hash, p); }
  }

  /** The step is a claim of `p` that is told to fetch the key. */
  predicate ClaimsAt(run: seq<Event>, steps: seq<Step>, hash: KeyName -> nat, i: nat, p: KeyName)
    requires i < |steps| && i < |run| && Enabled(run[i].cache, steps[i])
  {
    && steps[i].DoClaim? && steps[i].name == p && ValidName(p)
    && Claim(run[i].cache, hash, steps[i].pid, steps[i].alive, p).1 == Claimed
  }

  /** In every run: between two callers told to fetch one pair's key the pair lost its
      entry, or at the second one its entry was hidden or its claimant dead. */
  lemma ClaimedAgain(run: seq<Event>, steps: seq<Step>, hash: KeyName -> nat, a: nat, b: nat, p: KeyName)
    returns (k: nat)
    requires Runs(run, steps, hash) && a < b < |steps|
    requires ClaimsAt(run, steps, hash, a, p) && ClaimsAt(run, steps, hash, b, p)
    ensures
      || (a < k < b && Loses(run[k].cache, steps[k], p))
      || Hidden(run[b].cache.entries, hash, p)
      || Deserted(run[b].cache.entries, steps[b].alive, p)
  {
    AnsweredIsHeld(run[a].cache, hash, steps[a].pid, steps[a].alive, p);
    assert Holds(run[a + 1].cache, p);
    k := 0;
    if Holds(run[b].cache, p) {
      ClaimedWhileHeld(run[b].cache, hash, steps[b].pid, steps[b].alive, p);
    } else {
      k := HeldUntilLost(run, steps, hash, a + 1, b, p);
    }
  }

  // ------------------------------------------------------------- undisturbed runs

  /** Nothing is cleared: a publication, or a claim that finds nobody dead. */
  predicate Undisturbed(run: seq<Event>, steps: seq<Step>, n: nat)
    requires n <= |steps| && n <= |run|
  {
    forall i :: 0 <= i < n ==> steps[i].DoPublish? || (steps[i].DoClaim? && Settled(run[i].cache, steps[i].alive))
  }

  lemma UndisturbedStep(e: Event, hash: KeyName -> nat, s: Step)
    requires Enabled(e.cache, s) && Inv(e.cache, hash) && ReadyIsLast(e.cache, e.log)
    requires s.DoPublish? || (s.DoClaim? && Settled(e.cache, s.alive))
    ensures Inv(After(e.cache, hash, s), hash) && ReadyIsLast(After(e.cache, hash, s), LogAfter(e.cache, e.log, s))
  {
    match s
    case DoClaim(pid, name, alive) =>
      ClaimKeepsInv(e.cache, hash, pid, alive, name);
      ClaimKeepsReady(e.cache, e.log, hash, s);
    case DoPublish(name, key) =>
      PublishKeepsInv(e.cache, hash, name, key);
      if Publish(e.cache, name, key).1 { PublishKeepsReady(e.cache, e.log, name, key); }
  }

  /** Over every undisturbed run: chains intact, one entry a pair, and a ready entry
      holds the key last published for its own pair. */
  lemma {:induction false} RunKeeps(run: seq<Event>, steps: seq<Step>, hash: KeyName -> nat, n: nat)
    requires Runs(run, steps, hash) && n <= |steps| && Undisturbed(run, steps, n)
    ensures Inv(run[n].cache, hash) && ReadyIsLast(run[n].cache, run[n].log)
  {
    if n > 0 {
      RunKeeps(run, steps, hash, n - 1);
      UndisturbedStep(run[n - 1], hash, steps[n - 1]);
    }
  }

  predicate AllPending(c: Cache) { forall j :: 0 <= j < |c.entries| ==> c.entries[j].state == Pending }

  /** What a claim answers anywhere in an undisturbed run: exactly one caller is told
      to fetch a pair's key while the pair has an entry, the others are told to wait
      or get the key last published for that very pair. */
  lemma ClaimAnswers(
    run: seq<Event>, steps: seq<Step>, hash: KeyName -> nat, n: nat, pid: nat, alive: set<nat>, p: KeyName)
    requires Runs(run, steps, hash) && n <= |steps| && Undisturbed(run, steps, n)
    requires ValidName(p) && Settled(run[n].cache, alive) && |run[n].cache.entries| > 0
    ensures
      var c := run[n].cache;
      var (c', r) := Claim(c, hash, pid, alive, p);
      && (r == Claimed <==> !Holds(c, p) && !AllPending(c))
      && (r == NoneAvailable <==> !Holds(c, p) && AllPending(c))
      && (r == Claimed ==> Holds(c', p))
      && (r != Claimed ==> c' == c)
      && (r.FoundReady? ==> LastSent(run[n].log, p) == [r.key])
  {
    RunKeeps(run, steps, hash, n);
    var c := run[n].cache;
    if j: nat :| j < |c.entries| && IsFor(c.entries[j], p) {
      ClaimOfHeld(c, hash, pid, alive, p, j);
    } else {
      var j := ClaimOfMissing(c, hash, pid, alive, p);
      if Claim(c, hash, pid, alive, p).1 == Claimed {
        assert IsFor(Claim(c, hash, pid, alive, p).0.entries[j], p);
        assert c.entries[j].state != Pending;
      }
    }
  }

  /** In an undisturbed run exactly one caller is told to fetch a pair's key until the
      pair is evicted: between two of them another pair's claim evicted its ready
      entry, the oldest of a table without empty slots. */
  lemma OneClaimUntilEviction(run: seq<Event>, steps: seq<Step>, hash: KeyName -> nat, a: nat, b: nat, p: KeyName)
    returns (k: nat)
    requires Runs(run, steps, hash) && a < b < |steps| && Undisturbed(run, steps, b + 1)
    requires ClaimsAt(run, steps, hash, a, p) && ClaimsAt(run, steps, hash, b, p)
    ensures a < k < b && steps[k].DoClaim? && steps[k].name != p && Evictable(run[k].cache, p)
    ensures Holds(run[k].cache, p) && !Holds(run[k + 1].cache, p)
  {
    AnsweredIsHeld(run[a].cache, hash, steps[a].pid, steps[a].alive, p);
    assert Holds(run[a + 1].cache, p);
    RunKeeps(run, steps, hash, b);
    if i: nat :| i < |run[b].cache.entries| && IsFor(run[b].cache.entries[i], p) {
      ClaimOfHeld(run[b].cache, hash, steps[b].pid, steps[b].alive, p, i);
    }
    k := HeldUntilLost(run, steps, hash, a + 1, b, p);
  }

  // ---------------------------------------------------- clearing hides other entries

  /** A table of `n` slots that are empty but for one or two. */
  function One(n: nat, i: nat, e: Entry): (es: seq<Entry>)
    requires i < n
    ensures |es| == n
  {
    Fresh(n).entries[i := e]
  }

  function Two(n: nat, i: nat, e: Entry, j: nat, f: Entry): (es: seq<Entry>)
    requires i < n && j < n && i != j
    ensures |es| == n
  {
    One(n, i, e)[j := f]
  }

  function Claimant(pid: nat, generation: nat, p: KeyName): Entry { Entry(Pending, pid, generation, p, []) }

  lemma ClaimFresh(n: nat, hash: KeyName -> nat, pid: nat, alive: set<nat>, q: KeyName)
    requires n > 0 && ValidName(q)
    ensures Claim(Fresh(n), hash, pid, alive, q) == (Cache(One(n, Start(hash, q, n), Claimant(pid, 1, q)), 1), Claimed)
  {
    assert ScanFrom(Fresh(n).entries, Start(hash, q, n), q, 0) == 0;
  }

  /** The second of two pairs that hash alike goes to the next slot. */
  lemma ClaimBehind(n: nat, hash: KeyName -> nat, pid: nat, alive: set<nat>, q: KeyName, p: KeyName)
    requires n >= 2 && ValidName(p) && p != q && Start(hash, p, n) == Start(hash, q, n)
    ensures var a, b := At(Start(hash, p, n), 0, n), At(Start(hash, p, n), 1, n);
            Claim(Cache(One(n, a, Claimant(pid, 1, q)), 1), hash, pid, alive, p) ==
            (Cache(Two(n, a, Claimant(pid, 1, q), b, Claimant(pid, 2, p)), 2), Claimed)
  {
    var start := Start(hash, p, n);
    var es := One(n, At(start, 0, n), Claimant(pid, 1, q));
    assert ScanFrom(es, start, p, 0) == ScanFrom(es, start, p, 1) == 1;
  }

  lemma PendingIs(es: seq<Entry>, p: KeyName, i: nat)
    requires i < |es| && es[i].state == Pending && es[i].name == p
    requires forall j :: 0 <= j < i ==> !(es[j].state == Pending && es[j].name == p)
    ensures PendingAt(es, p, 0) == i
  {
    var r := PendingAt(es, p, 0);
    assert r <= i;
  }

  lemma AbandonFirst(n: nat, a: nat, b: nat, pid: nat, p: KeyName, q: KeyName)
    requires a < n && b < n && a != b && p != q
    ensures Abandon(Cache(Two(n, a, Claimant(pid, 1, q), b, Claimant(pid, 2, p)), 2), q) ==
            Cache(One(n, b, Claimant(pid, 2, p)), 2)
  {
    var es := Two(n, a, Claimant(pid, 1, q), b, Claimant(pid, 2, p));
    PendingIs(es, q, a);
    assert es[a := CLEARED] == One(n, b, Claimant(pid, 2, p));
  }

  /** The pair behind the gap is claimed again. */
  lemma ClaimBeforeGap(n: nat, hash: KeyName -> nat, pid: nat, alive: set<nat>, p: KeyName)
    requires n >= 2 && ValidName(p)
    ensures var a, b := At(Start(hash, p, n), 0, n), At(Start(hash, p, n), 1, n);
            Claim(Cache(One(n, b, Claimant(pid, 2, p)), 2), hash, pid, alive, p) ==
            (Cache(Two(n, b, Claimant(pid, 2, p), a, Claimant(pid, 3, p)), 3), Claimed)
  {
    assert ScanFrom(One(n, At(Start(hash, p, n), 1, n), Claimant(pid, 2, p)), Start(hash, p, n), p, 0) == 0;
  }

  /** Claim `q`, claim `p`, abandon `q`. */
  function AfterAbandon(n: nat, hash: KeyName -> nat, pid: nat, alive: set<nat>, p: KeyName, q: KeyName): (c: Cache)
    requires n > 0
  {
    var c1 := Claim(Fresh(n), hash, pid, alive, q).0;
    Abandon(Claim(c1, hash, pid, alive, p).0, q)
  }

  /** For every hash and every table of two slots or more, and any two pairs that hash
      alike: after the first one's claim is abandoned the second, which still has its
      entry, is claimed again and has two. */
  lemma AbandonAllowsSecondClaim(n: nat, hash: KeyName -> nat, pid: nat, alive: set<nat>, p: KeyName, q: KeyName)
    requires n >= 2 && ValidName(p) && ValidName(q) && p != q && Start(hash, p, n) == Start(hash, q, n)
    requires pid in alive && pid != 0
    ensures
      var a, b := At(Start(hash, p, n), 0, n), At(Start(hash, p, n), 1, n);
      && AfterAbandon(n, hash, pid, alive, p, q) == Cache(One(n, b, Claimant(pid, 2, p)), 2)
      && Holds(AfterAbandon(n, hash, pid, alive, p, q), p)
      && Claim(AfterAbandon(n, hash, pid, alive, p, q), hash, pid, alive, p) ==
         (Cache(Two(n, b, Claimant(pid, 2, p), a, Claimant(pid, 3, p)), 3), Claimed)
      && !OnePerName(Claim(AfterAbandon(n, hash, pid, alive, p, q), hash, pid, alive, p).0.entries)
  {
    var a, b := At(Start(hash, p, n), 0, n), At(Start(hash, p, n), 1, n);
    ClaimFresh(n, hash, pid, alive, q);
    ClaimBehind(n, hash, pid, alive, q, p);
    AbandonFirst(n, a, b, pid, p, q);
    ClaimBeforeGap(n, hash, pid, alive, p);
    var es := Two(n, b, Claimant(pid, 2, p), a, Claimant(pid, 3, p));
    assert IsFor(One(n, b, Claimant(pid, 2, p))[b], p);
    assert Occupied(es[a]) && IsFor(es[b], es[a].name);
  }

  /** Two publications fill two pending entries of a pair in table order. */
  lemma PublishTwice(c: Cache, p: KeyName, i: nat, j: nat, k1: seq<byte>, k2: seq<byte>)
    requires i < j < |c.entries| && c.entries[i].state == c.entries[j].state == Pending
    requires c.entries[i].name == c.entries[j].name == p
    requires forall k :: 0 <= k < |c.entries| && k != i && k != j ==> c.entries[k] == CLEARED
    ensures var (c1, ok1) := Publish(c, p, k1);
            var (c2, ok2) := Publish(c1, p, k2);
            && ok1 && ok2 && |c2.entries| == |c.entries|
            && IsFor(c2.entries[i], p) && c2.entries[i].state == Ready && c2.entries[i].key == k1
            && IsFor(c2.entries[j], p) && c2.entries[j].state == Ready && c2.entries[j].key == k2
  {
    PendingIs(c.entries, p, i);
    PendingIs(Publish(c, p, k1).0.entries, p, j);
  }

  lemma ClaimAtStart(c: Cache, hash: KeyName -> nat, pid: nat, alive: set<nat>, p: KeyName)
    requires |c.entries| > 0 && NoLiveWriter(c, alive) && ValidName(p)
    requires IsFor(c.entries[Start(hash, p, |c.entries|)], p) && c.entries[Start(hash, p, |c.entries|)].state == Ready
    ensures Claim(c, hash, pid, alive, p) == (c, FoundReady(c.entries[Start(hash, p, |c.entries|)].key))
  {
    assert ScanFrom(c.entries, Start(hash, p, |c.entries|), p, 0) == 0;
  }

  lemma TwoEntriesAnswer(n: nat, hash: KeyName -> nat, pid: nat, alive: set<nat>, p: KeyName, k1: seq<byte>,
      k2: seq<byte>)
    requires n >= 2 && ValidName(p) && pid in alive && pid != 0
    ensures
      var a, b := At(Start(hash, p, n), 0, n), At(Start(hash, p, n), 1, n);
      var (c1, ok1) := Publish(Cache(Two(n, b, Claimant(pid, 2, p), a, Claimant(pid, 3, p)), 3), p, k1);
      var (c2, ok2) := Publish(c1, p, k2);
      && ok1 && ok2 && NoLiveWriter(c2, alive) && |c2.entries| == n
      && Claim(c2, hash, pid, alive, p).1 == FoundReady(if Start(hash, p, n) + 1 < n then k1 else k2)
  {
    var a, b := At(Start(hash, p, n), 0, n), At(Start(hash, p, n), 1, n);
    var c := Cache(Two(n, b, Claimant(pid, 2, p), a, Claimant(pid, 3, p)), 3);
    PublishTwice(c, p, Min(a, b), a + b - Min(a, b), k1, k2);
    ClaimAtStart(Publish(Publish(c, p, k1).0, p, k2).0, hash, pid, alive, p);
  }

  /** Two publications then fill one entry each, in table order, and the next claim
      hands out the key of the first slot of the chain: the older key, unless the
      chain wraps around between the two. */
  lemma AbandonAllowsStaleKey(
    n: nat, hash: KeyName -> nat, pid: nat, alive: set<nat>, p: KeyName, q: KeyName, k1: seq<byte>, k2: seq<byte>)
    requires n >= 2 && ValidName(p) && ValidName(q) && p != q && Start(hash, p, n) == Start(hash, q, n)
    requires pid in alive && pid != 0
    ensures
      var c := Claim(AfterAbandon(n, hash, pid, alive, p, q), hash, pid, alive, p).0;
      var (c1, ok1) := Publish(c, p, k1);
      var (c2, ok2) := Publish(c1, p, k2);
      && ok1 && ok2 && NoLiveWriter(c2, alive) && |c2.entries| == n
      && Claim(c2, hash, pid, alive, p).1 == FoundReady(if Start(hash, p, n) + 1 < n then k1 else k2)
  {
    AbandonAllowsSecondClaim(n, hash, pid, alive, p, q);
    TwoEntriesAnswer(n, hash, pid, alive, p, k1, k2);
  }
}
