/** What a claim answers and changes in every state of the message-key cache, and what a
    reset leaves of it (`qkd.rs`). */
module MessageKeyAnswers {
  import opened Bytes
  import opened MessageKeyCache
  import opened MessageKeyRuns

  // ------------------------------------------------------------------ one claim

  /** A pair without an entry gets one as long as some slot is not pending. */
  lemma {:induction false} AnswerOfMissing(c: Cache, hash: KeyName -> nat, pid: nat, alive: set<nat>, p: KeyName)
    requires |c.entries| > 0 && NoLiveWriter(c, alive) && ValidName(p) && !Holds(c, p)
    ensures Claim(c, hash, pid, alive, p).1 == if AllPending(c) then NoneAvailable else Claimed
    decreases |Stale(c.entries)|
  {
    var r := Recovered(c, hash, alive, p);
    if r != c {
      RecoveredIs(c, hash, pid, alive, p);
      RecoveredEmpties(c, hash, alive, p);
      AnswerOfMissing(r, hash, pid, alive, p);
    } else {
      var es, start := c.entries, Start(hash, p, |c.entries|);
      var k := ScanFrom(es, start, p, 0);
      if k == |es| {
        forall j: nat | j < |es| ensures !Stops(es[j], p) { ScanCovers(es, start, p, j); }
        if j: nat :| j < |es| && es[j].state != Pending { ScanCovers(es, start, p, j); }
      } else {
        assert !IsFor(es[At(start, k, |es|)], p);
      }
    }
  }

  /** In every state with one entry a pair, however its entries were left: a caller is told
      to fetch if and only if the pair has no entry and some slot is not pending, or its
      entry is hidden or its claimant died; otherwise it gets what the entry holds. */
  lemma {:induction false} AnswerIs(c: Cache, hash: KeyName -> nat, pid: nat, alive: set<nat>, p: KeyName)
    requires |c.entries| > 0 && NoLiveWriter(c, alive) && ValidName(p) && OnePerName(c.entries)
    ensures var a := Claim(c, hash, pid, alive, p).1;
            && (a == Claimed <==> if Holds(c, p) then Hidden(c.entries, hash, p) || Deserted(c.entries, alive, p)
                                  else !AllPending(c))
            && (a == NoneAvailable <==> !Holds(c, p) && AllPending(c))
            && forall i: nat :: i < |c.entries| && IsFor(c.entries[i], p) && a != Claimed ==>
                 a == if c.entries[i].state == Ready then FoundReady(c.entries[i].key) else FoundPending
    decreases |Stale(c.entries)|
  {
    if !Holds(c, p) {
      AnswerOfMissing(c, hash, pid, alive, p);
    } else {
      AnswerOfHeld(c, hash, pid, alive, p);
    }
  }

  lemma {:induction false} AnswerOfHeld(c: Cache, hash: KeyName -> nat, pid: nat, alive: set<nat>, p: KeyName)
    requires |c.entries| > 0 && NoLiveWriter(c, alive) && ValidName(p) && OnePerName(c.entries) && Holds(c, p)
    ensures var a := Claim(c, hash, pid, alive, p).1;
            && (a == Claimed <==> Hidden(c.entries, hash, p) || Deserted(c.entries, alive, p))
            && a != NoneAvailable
            && forall i: nat :: i < |c.entries| && IsFor(c.entries[i], p) && a != Claimed ==>
                 a == if c.entries[i].state == Ready then FoundReady(c.entries[i].key) else FoundPending
    decreases |Stale(c.entries)|
  {
    var es, start, r := c.entries, Start(hash, p, |c.entries|), Recovered(c, hash, alive, p);
    var j: nat :| j < |es| && IsFor(es[j], p);
    var k := ScanFrom(es, start, p, 0);
    if Hidden(es, hash, p) {
      HiddenStops(es, hash, p, j);
      if r != c { HiddenIsClaimed(c, hash, pid, alive, p, j); }
    } else {
      SolidStops(es, hash, p);
      assert At(start, k, |es|) == j;
      if r != c {
        RecoveredIs(c, hash, pid, alive, p);
        AnswerOfMissing(r, hash, pid, alive, p);
      }
    }
  }

  /** A half-written slot in front of the entry is recovered and then taken. */
  lemma HiddenIsClaimed(c: Cache, hash: KeyName -> nat, pid: nat, alive: set<nat>, p: KeyName, j: nat)
    requires |c.entries| > 0 && NoLiveWriter(c, alive) && ValidName(p) && OnePerName(c.entries)
    requires j < |c.entries| && IsFor(c.entries[j], p) && !Solid(c.entries, hash, j)
    requires Recovered(c, hash, alive, p) != c
    ensures Claim(c, hash, pid, alive, p).1 == Claimed
  {
    var es, start, r := c.entries, Start(hash, p, |c.entries|), Recovered(c, hash, alive, p);
    HiddenStops(es, hash, p, j);
    var k := ScanFrom(es, start, p, 0);
    var i := At(start, k, |es|);
    assert r.entries == es[i := es[i].(state := Empty)];
    RecoveredIs(c, hash, pid, alive, p);
    assert Stops(r.entries[At(start, k, |es|)], p);
    forall d: nat | d < k ensures !Stops(r.entries[At(start, d, |es|)], p) { assert !Stops(es[At(start, d, |es|)], p); }
    assert ScanFrom(r.entries, start, p, 0) == k;
  }

  /** What recovering an entry does to slot `j`. */
  predicate Untouched(e: Entry, e': Entry, alive: set<nat>, p: KeyName) {
    || e' == e
    || (e.state == Writing && e' == e.(state := Empty))
    || (IsFor(e, p) && e.state == Pending && Dead(e, alive) && e' == CLEARED)
  }

  /** A claim changes entries left by processes that died, and one more if it is told to
      fetch: there the pair's new entry stands, under the next generation. */
  lemma {:induction false} ClaimTouches(c: Cache, hash: KeyName -> nat, pid: nat, alive: set<nat>, p: KeyName)
    returns (i: nat)
    requires |c.entries| > 0 && NoLiveWriter(c, alive)
    ensures var (c', a) := Claim(c, hash, pid, alive, p);
            && (a == Claimed ==> i < |c.entries| && c'.entries[i] == Entry(Pending, pid, c.generation + 1, p, []))
            && c'.generation == c.generation + (if a == Claimed then 1 else 0)
            && (!ValidName(p) <==> a == InvalidName) && (a == InvalidName ==> c' == c)
            && forall j :: 0 <= j < |c.entries| && !(a == Claimed && j == i) ==>
                 Untouched(c.entries[j], c'.entries[j], alive, p)
    decreases |Stale(c.entries)|
  {
    var r, start := Recovered(c, hash, alive, p), Start(hash, p, |c.entries|);
    if r != c {
      RecoveredIs(c, hash, pid, alive, p);
      i := ClaimTouches(r, hash, pid, alive, p);
    } else {
      var k := ScanFrom(c.entries, start, p, 0);
      i := if k < |c.entries| then At(start, k, |c.entries|) else OldestReady(c.entries, start, |c.entries|);
    }
  }

  // -------------------------------------------------------------------- resets

  /** After a reset no entry is left, and the next claim of any pair is told to fetch. */
  lemma ClaimAfterReset(c: Cache, hash: KeyName -> nat, pid: nat, alive: set<nat>, p: KeyName)
    requires |c.entries| > 0 && ValidName(p)
    ensures forall i :: 0 <= i < |c.entries| ==> Reset(c).entries[i] == CLEARED
    ensures !Holds(Reset(c), p) && Reset(c).generation > c.generation && NoLiveWriter(Reset(c), alive)
    ensures Claim(Reset(c), hash, pid, alive, p).1 == Claimed
  {
    AnswerOfMissing(Reset(c), hash, pid, alive, p);
  }

  /** The step publishes `key` for `p`. */
  predicate PublishesAt(run: seq<Event>, steps: seq<Step>, m: nat, p: KeyName, key: seq<byte>) {
    m < |steps| && m < |run| && steps[m] == DoPublish(p, key) && Publish(run[m].cache, p, key).1
  }

  /** A ready entry was ready before the step, or the step published its key. */
  lemma ReadyBefore(c: Cache, hash: KeyName -> nat, s: Step, i: nat)
    requires Enabled(c, s) && i < |c.entries| && After(c, hash, s).entries[i].state == Ready
    ensures var e := After(c, hash, s).entries[i];
            && !s.DoReset?
            && (c.entries[i] == e || (s == DoPublish(e.name, e.key) && Publish(c, e.name, e.key).1))
  {
    if s.DoClaim? { ClaimReadies(c, hash, s.pid, s.alive, s.name, i); }
  }

  lemma {:induction false} ReadySinceReset(
      run: seq<Event>, steps: seq<Step>, hash: KeyName -> nat, k: nat, n: nat, i: nat) returns (m: nat)
    requires Runs(run, steps, hash) && k < n <= |steps| && steps[k].DoReset?
    requires i < |run[n].cache.entries| && run[n].cache.entries[i].state == Ready
    ensures k < m < n && PublishesAt(run, steps, m, run[n].cache.entries[i].name, run[n].cache.entries[i].key)
  {
    m := n - 1;
    ReadyBefore(run[m].cache, hash, steps[m], i);
    if run[m].cache.entries[i] == run[n].cache.entries[i] {
      m := ReadySinceReset(run, steps, hash, k, m, i);
    }
  }

  /** In every run, a key handed out was published for its pair after the last reset. */
  lemma FoundSinceReset(run: seq<Event>, steps: seq<Step>, hash: KeyName -> nat, k: nat, n: nat) returns (m: nat)
    requires Runs(run, steps, hash) && k < n < |steps| && steps[k].DoReset? && steps[n].DoClaim?
    requires Claim(run[n].cache, hash, steps[n].pid, steps[n].alive, steps[n].name).1.FoundReady?
    ensures k < m < n
    ensures PublishesAt(run, steps, m, steps[n].name,
                        Claim(run[n].cache, hash, steps[n].pid, steps[n].alive, steps[n].name).1.key)
  {
    var i := FoundIsReady(run[n].cache, hash, steps[n].pid, steps[n].alive, steps[n].name);
    m := ReadySinceReset(run, steps, hash, k, n, i);
  }
}
