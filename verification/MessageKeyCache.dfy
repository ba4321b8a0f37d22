/** The shared cache of QKD message keys (`qkd.rs`): open addressing, entries
    that are claimed, pending and ready, eviction of the oldest ready entry.

    Each store call is one atomic step. The hash is any function of the pair. */
module MessageKeyCache {
  import opened Bytes

  const MAX_SAE_ID_LEN: nat := 128
  const MAX_KEY_ID_LEN: nat := 192

  datatype KeyName = KeyName(sender: seq<byte>, keyId: seq<byte>)

  datatype EntryState = Empty | Writing | Pending | Ready

  datatype Entry = Entry(state: EntryState, pid: nat, generation: nat, name: KeyName, key: seq<byte>)

  datatype Cache = Cache(entries: seq<Entry>, generation: nat)

  datatype Lookup = FoundReady(key: seq<byte>) | Claimed | FoundPending | InvalidName | NoneAvailable

  datatype Sent = Sent(name: KeyName, key: seq<byte>)

  /** The key most recently published for `p`. */
  function LastSent(log: seq<Sent>, p: KeyName): (r: seq<seq<byte>>)
    ensures |r| <= 1
  {
    if log == [] then []
    else if log[|log| - 1].name == p then [log[|log| - 1].key]
    else LastSent(log[..|log| - 1], p)
  }

  const NO_NAME := KeyName([], [])
  const CLEARED := Entry(Empty, 0, 0, NO_NAME, [])

  // ------------------------------------------------------------- identifiers

  /** `validate_identifier`: 1 to max-1 bytes, none of them a control character. */
  predicate ValidId(s: seq<byte>, maxLen: nat) {
    0 < |s| < maxLen && forall i :: 0 <= i < |s| ==> 0x20 <= s[i] != 0x7F
  }

  predicate ValidName(p: KeyName) { ValidId(p.sender, MAX_SAE_ID_LEN) && ValidId(p.keyId, MAX_KEY_ID_LEN) }

  // ----------------------------------------------------------------- probing

  predicate Occupied(e: Entry) { e.state == Pending || e.state == Ready }

  predicate IsFor(e: Entry, p: KeyName) { Occupied(e) && e.name == p }

  /** Slot of probe `k` from `start`, wrapping at `n`. */
  function At(start: nat, k: nat, n: nat): (i: nat)
    requires start < n && k < n
    ensures i < n
  {
    if start + k < n then start + k else start + k - n
  }

  /** How many probes from `start` reach slot `i`. */
  function Dist(start: nat, i: nat, n: nat): (d: nat)
    requires start < n && i < n
    ensures d < n && At(start, d, n) == i
    ensures forall k: nat :: k < n && At(start, k, n) == i ==> k == d
  {
    if i >= start then i - start else i + n - start
  }

  function Start(hash: KeyName -> nat, p: KeyName, n: nat): (s: nat)
    requires n > 0
    ensures s < n
  {
    hash(p) % n
  }

  /** Where a scan stops: an empty or half-written slot, or the pair's own entry. */
  predicate Stops(e: Entry, p: KeyName) { e.state == Empty || e.state == Writing || IsFor(e, p) }

  function ScanFrom(es: seq<Entry>, start: nat, p: KeyName, k: nat): (r: nat)
    requires start < |es| && k <= |es|
    ensures k <= r <= |es|
    ensures r < |es| ==> Stops(es[At(start, r, |es|)], p)
    ensures forall j :: k <= j < r ==> !Stops(es[At(start, j, |es|)], p)
    decreases |es| - k
  {
    if k == |es| || Stops(es[At(start, k, |es|)], p) then k else ScanFrom(es, start, p, k + 1)
  }

  /** The first ready slot of least generation among the first `k` probes, or `|es|`. */
  function OldestReady(es: seq<Entry>, start: nat, k: nat): (r: nat)
    requires start < |es| && k <= |es|
    ensures r <= |es|
    ensures r < |es| ==> es[r].state == Ready
    ensures forall j :: 0 <= j < k && es[At(start, j, |es|)].state == Ready ==>
              r < |es| && es[r].generation <= es[At(start, j, |es|)].generation
  {
    if k == 0 then |es|
    else
      var r, i := OldestReady(es, start, k - 1), At(start, k - 1, |es|);
      if es[i].state == Ready && (r == |es| || es[i].generation < es[r].generation) then i else r
  }

  // -------------------------------------------------------------- operations

  predicate Dead(e: Entry, alive: set<nat>) { e.pid == 0 || e.pid !in alive }

  /** Entries a claim may have to recover: left behind by a process that died. */
  function Stale(es: seq<Entry>): (s: set<nat>) {
    set i: nat | i < |es| && (es[i].state == Writing || es[i].state == Pending)
  }

  function Place(c: Cache, i: nat, pid: nat, p: KeyName): Cache
    requires i < |c.entries|
  {
    Cache(c.entries[i := Entry(Pending, pid, c.generation + 1, p, [])], c.generation + 1)
  }

  /** Between atomic calls a half-written entry belongs to a dead process. */
  predicate NoLiveWriter(c: Cache, alive: set<nat>) {
    forall i :: 0 <= i < |c.entries| && c.entries[i].state == Writing ==> Dead(c.entries[i], alive)
  }

  function Claim(c: Cache, hash: KeyName -> nat, pid: nat, alive: set<nat>, p: KeyName): (r: (Cache, Lookup))
    requires |c.entries| > 0 && NoLiveWriter(c, alive)
    ensures |r.0.entries| == |c.entries| && NoLiveWriter(r.0, alive)
    decreases |Stale(c.entries)|
  {
    if !ValidName(p) then (c, InvalidName)
    else
      var es := c.entries;
      var start := Start(hash, p, |es|);
      var k := ScanFrom(es, start, p, 0);
      if k < |es| then
        var i := At(start, k, |es|);
        var e := es[i];
        if e.state == Empty then (Place(c, i, pid, p), Claimed)
        else if e.state == Writing then
          assert Stale(es[i := e.(state := Empty)]) == Stale(es) - {i};
          Claim(c.(entries := es[i := e.(state := Empty)]), hash, pid, alive, p)
        else if e.state == Pending && Dead(e, alive) then
          assert Stale(es[i := CLEARED]) == Stale(es) - {i};
          Claim(c.(entries := es[i := CLEARED]), hash, pid, alive, p)
        else if e.state == Ready then (c, FoundReady(e.key))
        else (c, FoundPending)
      else
        var i := OldestReady(es, start, |es|);
        if i < |es| then (Place(c, i, pid, p), Claimed) else (c, NoneAvailable)
  }

  predicate PendingFor(e: Entry, p: KeyName) { e.state == Pending && e.name == p }

  /** The first pending entry for the pair, in table order. */
  function PendingAt(es: seq<Entry>, p: KeyName, i: nat): (r: nat)
    requires i <= |es|
    ensures i <= r <= |es| && (r < |es| ==> PendingFor(es[r], p))
    ensures forall j :: i <= j < r ==> !PendingFor(es[j], p)
    decreases |es| - i
  {
    if i == |es| || PendingFor(es[i], p) then i else PendingAt(es, p, i + 1)
  }

  /** `publish_message_key`; false when the claim was lost. */
  function Publish(c: Cache, p: KeyName, key: seq<byte>): (r: (Cache, bool))
    ensures |r.0.entries| == |c.entries|
  {
    var i := PendingAt(c.entries, p, 0);
    if i == |c.entries| then (c, false)
    else (c.(entries := c.entries[i := c.entries[i].(key := key, state := Ready)]), true)
  }

  /** `abandon_message_key` */
  function Abandon(c: Cache, p: KeyName): (r: Cache)
    ensures |r.entries| == |c.entries|
  {
    var i := PendingAt(c.entries, p, 0);
    if i == |c.entries| then c else c.(entries := c.entries[i := CLEARED])
  }

  /** `clear_message_entries`, by `reset` and `clear`. */
  function Reset(c: Cache): (r: Cache)
    ensures |r.entries| == |c.entries|
  {
    Cache(seq(|c.entries|, _ => CLEARED), c.generation + 1)
  }

  function Fresh(n: nat): Cache { Cache(seq(n, _ => CLEARED), 0) }

  // -------------------------------------------------- what an undisturbed cache keeps

  /** Every slot probed before slot `i`'s own pair is reached is in use. */
  predicate Reached(es: seq<Entry>, hash: KeyName -> nat, i: nat)
    requires i < |es|
  {
    var start := Start(hash, es[i].name, |es|);
    forall k: nat :: k < Dist(start, i, |es|) ==> es[At(start, k, |es|)].state != Empty
  }

  predicate Chained(es: seq<Entry>, hash: KeyName -> nat) {
    forall i: nat :: i < |es| && Occupied(es[i]) ==> Reached(es, hash, i)
  }

  predicate OnePerName(es: seq<Entry>) {
    forall i: nat, j: nat :: i < |es| && j < |es| && Occupied(es[i]) && IsFor(es[j], es[i].name) ==> i == j
  }

  predicate Dated(c: Cache) {
    forall i: nat :: i < |c.entries| ==> c.entries[i].generation <= c.generation
  }

  predicate Inv(c: Cache, hash: KeyName -> nat) {
    Chained(c.entries, hash) && OnePerName(c.entries) && Dated(c)
  }

  /** Nobody died holding an entry, so no claim has anything to clear. */
  predicate Settled(c: Cache, alive: set<nat>) {
    forall i :: 0 <= i < |c.entries| ==>
      c.entries[i].state != Writing && (c.entries[i].state == Pending ==> !Dead(c.entries[i], alive))
  }

  predicate Holds(c: Cache, p: KeyName) { exists i: nat :: i < |c.entries| && IsFor(c.entries[i], p) }

  /** The scan stops at the pair's entry whenever there is one. */
  lemma ScanFindsHeld(es: seq<Entry>, hash: KeyName -> nat, p: KeyName, i: nat)
    requires i < |es| && IsFor(es[i], p) && Chained(es, hash) && OnePerName(es)
    requires forall j :: 0 <= j < |es| ==> es[j].state != Writing
    ensures ScanFrom(es, Start(hash, p, |es|), p, 0) == Dist(Start(hash, p, |es|), i, |es|)
  {
    var start := Start(hash, p, |es|);
    var k, d := ScanFrom(es, start, p, 0), Dist(start, i, |es|);
    assert Reached(es, hash, i);
    assert Stops(es[At(start, d, |es|)], p);
    assert k <= d;
  }

  lemma ClaimOfHeld(c: Cache, hash: KeyName -> nat, pid: nat, alive: set<nat>, p: KeyName, i: nat)
    requires i < |c.entries| && IsFor(c.entries[i], p) && ValidName(p)
    requires Inv(c, hash) && Settled(c, alive)
    ensures Claim(c, hash, pid, alive, p) ==
            (c, if c.entries[i].state == Ready then FoundReady(c.entries[i].key) else FoundPending)
  {
    ScanFindsHeld(c.entries, hash, p, i);
  }

  /** Where a claim may put a new entry. */
  predicate Replaceable(c: Cache, i: nat)
    requires i < |c.entries|
  {
    || c.entries[i].state == Empty
    || (&& c.entries[i].state == Ready
        && forall j :: 0 <= j < |c.entries| ==>
             && c.entries[j].state != Empty
             && (c.entries[j].state == Ready ==> c.entries[i].generation <= c.entries[j].generation))
  }

  predicate PlacedAt(c: Cache, c': Cache, hash: KeyName -> nat, pid: nat, p: KeyName, i: nat) {
    i < |c.entries| && c' == Place(c, i, pid, p) && Replaceable(c, i) && Reached(c'.entries, hash, i)
  }

  /** Every slot is some probe away. */
  lemma ScanCovers(es: seq<Entry>, start: nat, p: KeyName, j: nat)
    requires start < |es| && j < |es| && ScanFrom(es, start, p, 0) == |es|
    ensures !Stops(es[j], p)
    ensures es[j].state == Ready ==>
              OldestReady(es, start, |es|) < |es| &&
              es[OldestReady(es, start, |es|)].generation <= es[j].generation
  {
    assert At(start, Dist(start, j, |es|), |es|) == j;
  }

  /** A claim that reaches an empty slot takes it. */
  lemma ClaimOfEmpty(c: Cache, hash: KeyName -> nat, pid: nat, alive: set<nat>, p: KeyName) returns (i: nat)
    requires |c.entries| > 0 && !Holds(c, p) && ValidName(p) && Settled(c, alive)
    requires ScanFrom(c.entries, Start(hash, p, |c.entries|), p, 0) < |c.entries|
    ensures Claim(c, hash, pid, alive, p).1 == Claimed
    ensures PlacedAt(c, Claim(c, hash, pid, alive, p).0, hash, pid, p, i)
  {
    var es, start := c.entries, Start(hash, p, |c.entries|);
    i := At(start, ScanFrom(es, start, p, 0), |es|);
    assert !IsFor(es[i], p) && es[i].state == Empty;
    assert Reached(Place(c, i, pid, p).entries, hash, i);
  }

  /** A claim that finds no empty slot evicts the oldest ready entry, if any. */
  lemma ClaimOfFull(c: Cache, hash: KeyName -> nat, pid: nat, alive: set<nat>, p: KeyName) returns (i: nat)
    requires |c.entries| > 0 && !Holds(c, p) && ValidName(p) && Settled(c, alive)
    requires ScanFrom(c.entries, Start(hash, p, |c.entries|), p, 0) == |c.entries|
    ensures Claim(c, hash, pid, alive, p)
         == if i < |c.entries| then (Place(c, i, pid, p), Claimed) else (c, NoneAvailable)
    ensures i < |c.entries| ==> PlacedAt(c, Place(c, i, pid, p), hash, pid, p, i)
    ensures i >= |c.entries| ==> forall j :: 0 <= j < |c.entries| ==> c.entries[j].state == Pending
  {
    var es, start := c.entries, Start(hash, p, |c.entries|);
    i := OldestReady(es, start, |es|);
    forall j: nat | j < |es| ensures !Stops(es[j], p) { ScanCovers(es, start, p, j); }
    forall j: nat | j < |es| && es[j].state == Ready
      ensures i < |es| && es[i].generation <= es[j].generation { ScanCovers(es, start, p, j); }
    if i < |es| { assert Reached(Place(c, i, pid, p).entries, hash, i); }
  }

  lemma ClaimOfMissing(c: Cache, hash: KeyName -> nat, pid: nat, alive: set<nat>, p: KeyName)
    returns (i: nat)
    requires |c.entries| > 0 && !Holds(c, p) && ValidName(p) && Settled(c, alive)
    ensures Claim(c, hash, pid, alive, p).1 == NoneAvailable ==>
              Claim(c, hash, pid, alive, p).0 == c && forall j :: 0 <= j < |c.entries| ==> c.entries[j].state == Pending
    ensures Claim(c, hash, pid, alive, p).1 != NoneAvailable ==>
              Claim(c, hash, pid, alive, p).1 == Claimed &&
              PlacedAt(c, Claim(c, hash, pid, alive, p).0, hash, pid, p, i)
  {
    if ScanFrom(c.entries, Start(hash, p, |c.entries|), p, 0) < |c.entries| {
      i := ClaimOfEmpty(c, hash, pid, alive, p);
    } else {
      i := ClaimOfFull(c, hash, pid, alive, p);
    }
  }

  lemma PlaceKeepsChains(c: Cache, hash: KeyName -> nat, pid: nat, p: KeyName, i: nat)
    requires i < |c.entries| && Chained(c.entries, hash) && Reached(Place(c, i, pid, p).entries, hash, i)
    ensures Chained(Place(c, i, pid, p).entries, hash)
  {
    var es' := Place(c, i, pid, p).entries;
    forall j: nat | j < |es'| && Occupied(es'[j]) ensures Reached(es', hash, j) {
      if j != i { assert Reached(c.entries, hash, j); }
    }
  }

  lemma ClaimKeepsInv(c: Cache, hash: KeyName -> nat, pid: nat, alive: set<nat>, p: KeyName)
    requires |c.entries| > 0 && Inv(c, hash) && Settled(c, alive)
    ensures Inv(Claim(c, hash, pid, alive, p).0, hash)
  {
    if ValidName(p) {
      if i: nat :| i < |c.entries| && IsFor(c.entries[i], p) {
        ClaimOfHeld(c, hash, pid, alive, p, i);
      } else {
        var i := ClaimOfMissing(c, hash, pid, alive, p);
        if Claim(c, hash, pid, alive, p).1 == Claimed { PlaceKeepsChains(c, hash, pid, p, i); }
      }
    }
  }

  lemma PublishKeepsInv(c: Cache, hash: KeyName -> nat, p: KeyName, key: seq<byte>)
    requires Inv(c, hash)
    ensures Inv(Publish(c, p, key).0, hash)
  {
    var es, es' := c.entries, Publish(c, p, key).0.entries;
    forall j: nat | j < |es'| && Occupied(es'[j]) ensures Reached(es', hash, j) {
      assert Reached(es, hash, j);
    }
  }
}
