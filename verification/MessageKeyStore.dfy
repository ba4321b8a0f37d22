/** The message half of `QkdKeyStore` (`qkd.rs`) as it works on the shared table:
    each operation scans and updates the entries in place. */
module MessageKeyStore {
  import opened Bytes
  import opened MessageKeyCache

  class KeyStore {
    const entries: array<Entry>
    const hash: KeyName -> nat
    var generation: nat

    ghost function Contents(): (c: Cache) reads this, entries { Cache(entries[..], generation) }

    constructor (slots: nat, hash: KeyName -> nat)
      requires slots > 0
      ensures Contents() == Fresh(slots) && fresh(entries) && this.hash == hash
    {
      entries := new Entry[slots](_ => CLEARED);
      this.hash := hash;
      generation := 0;
    }

    method Initialize(i: nat, pid: nat, p: KeyName)
      requires i < entries.Length
      modifies this, entries
      ensures Contents() == Place(old(Contents()), i, pid, p)
    {
      generation := generation + 1;
      entries[i] := Entry(Pending, pid, generation, p, []);
    }

    /** One pass over the table; `again` when it recovered an entry and must rescan. */
    method ScanOnce(pid: nat, alive: set<nat>, p: KeyName) returns (again: bool, r: Lookup)
      requires entries.Length > 0 && NoLiveWriter(Contents(), alive) && ValidName(p)
      modifies this, entries
      ensures again ==>
                && NoLiveWriter(Contents(), alive)
                && |Stale(entries[..])| < old(|Stale(entries[..])|)
                && Claim(Contents(), hash, pid, alive, p) == Claim(old(Contents()), hash, pid, alive, p)
      ensures !again ==> (Contents(), r) == Claim(old(Contents()), hash, pid, alive, p)
    {
      ghost var es := entries[..];
      var n := entries.Length;
      var start := Start(hash, p, n);
      var oldest, k := n, 0;
      while k < n
        invariant k <= n && entries[..] == es && Contents() == old(Contents())
        invariant ScanFrom(es, start, p, 0) == ScanFrom(es, start, p, k)
        invariant oldest == OldestReady(es, start, k)
      {
        var i := At(start, k, n);
        var e := entries[i];
        assert e == es[i];
        if e.state == Writing {
          assert Stale(es[i := e.(state := Empty)]) == Stale(es) - {i};
          entries[i] := e.(state := Empty);
          assert entries[..] == es[i := e.(state := Empty)];
          return true, FoundPending;
        } else if e.state == Empty {
          Initialize(i, pid, p);
          return false, Claimed;
        } else if IsFor(e, p) {
          if e.state == Pending && Dead(e, alive) {
            assert Stale(es[i := CLEARED]) == Stale(es) - {i};
            entries[i] := CLEARED;
            assert entries[..] == es[i := CLEARED];
            return true, FoundPending;
          }
          return false, if e.state == Ready then FoundReady(e.key) else FoundPending;
        } else if e.state == Ready && (oldest == n || e.generation < entries[oldest].generation) {
          oldest := i;
        }
        k := k + 1;
      }
      if oldest < n {
        Initialize(oldest, pid, p);
        return false, Claimed;
      }
      return false, NoneAvailable;
    }

    /** `claim_message_key`: rescan until a pass decides. */
    method ClaimMessageKey(pid: nat, alive: set<nat>, p: KeyName) returns (r: Lookup)
      requires entries.Length > 0 && NoLiveWriter(Contents(), alive)
      modifies this, entries
      ensures (Contents(), r) == Claim(old(Contents()), hash, pid, alive, p)
    {
      if !ValidName(p) { return InvalidName; }
      var again := true;
      r := NoneAvailable;
      while again
        invariant again ==>
          && NoLiveWriter(Contents(), alive)
          && Claim(Contents(), hash, pid, alive, p) == Claim(old(Contents()), hash, pid, alive, p)
        invariant !again ==> (Contents(), r) == Claim(old(Contents()), hash, pid, alive, p)
        decreases again, |Stale(entries[..])|
      {
        again, r := ScanOnce(pid, alive, p);
      }
    }

    /** `find_message_entry` for a pending entry; the table length when there is none. */
    method FindPending(p: KeyName) returns (i: nat)
      ensures i == PendingAt(entries[..], p, 0)
    {
      i := 0;
      while i < entries.Length && !PendingFor(entries[i], p)
        invariant i <= entries.Length && PendingAt(entries[..], p, 0) == PendingAt(entries[..], p, i)
      {
        i := i + 1;
      }
    }

    method PublishMessageKey(p: KeyName, key: seq<byte>) returns (ok: bool)
      modifies entries
      ensures (Contents(), ok) == Publish(old(Contents()), p, key)
      ensures ok <==> exists i :: 0 <= i < entries.Length && PendingFor(old(entries[i]), p)
      ensures !ok ==> entries[..] == old(entries[..])
      ensures ok ==> exists i :: 0 <= i < entries.Length && PendingFor(old(entries[i]), p)
                        && entries[..] == old(entries[..])[i := old(entries[i]).(key := key, state := Ready)]
    {
      var i := FindPending(p);
      ok := i < entries.Length;
      if ok { entries[i] := entries[i].(key := key, state := Ready); }
    }

    method AbandonMessageKey(p: KeyName)
      modifies entries
      ensures Contents() == Abandon(old(Contents()), p)
      ensures if exists i :: 0 <= i < entries.Length && PendingFor(old(entries[i]), p)
              then exists i :: 0 <= i < entries.Length && PendingFor(old(entries[i]), p)
                     && entries[..] == old(entries[..])[i := CLEARED]
              else entries[..] == old(entries[..])
    {
      var i := FindPending(p);
      if i < entries.Length { entries[i] := CLEARED; }
    }

    /** `clear_message_entries`, then the generation bump of `reset` and `clear`. */
    method ClearAll()
      modifies this, entries
      ensures Contents() == Reset(old(Contents()))
      ensures forall i :: 0 <= i < entries.Length ==>
                entries[i].state == Empty && entries[i].key == [] && entries[i].name == NO_NAME && entries[i].pid == 0
      ensures generation == old(generation) + 1
    {
      var i := 0;
      while i < entries.Length
        invariant i <= entries.Length && generation == old(generation)
        invariant forall j :: 0 <= j < i ==> entries[j] == CLEARED
      {
        entries[i] := CLEARED;
        i := i + 1;
      }
      generation := generation + 1;
    }
  }
}
