/** The session table of `QkdKeyStore` and the calls `QkdDaemonManager` makes on
    it (`qkd.rs`), in place. */
module SessionKeyStore {
  import opened Bytes
  import opened Wrappers
  import opened SessionStore

  class SessionTable {
    const entries: array<Session>
    var generation: nat

    constructor (slots: nat)
      ensures entries[..] == seq(slots, _ => NO_SESSION) && generation == 0 && fresh(entries)
    {
      entries := new Session[slots](_ => NO_SESSION);
      generation := 0;
    }

    /** First entry for a daemon; the table length when there is none. */
    method IndexOf(remote: nat) returns (k: nat)
      ensures k == WithRemote(entries[..], remote, 0)
    {
      k := 0;
      while k < entries.Length && !(Used(entries[k]) && entries[k].remote == remote)
        invariant k <= entries.Length && WithRemote(entries[..], remote, 0) == WithRemote(entries[..], remote, k)
      {
        k := k + 1;
      }
    }

    method FreeIndex() returns (k: nat)
      ensures k == FirstFree(entries[..], 0)
    {
      k := 0;
      while k < entries.Length && Used(entries[k])
        invariant k <= entries.Length && FirstFree(entries[..], 0) == FirstFree(entries[..], k)
      {
        k := k + 1;
      }
    }

    method FindForDaemon(remote: nat) returns (s: Option<Session>)
      ensures s == Find(entries[..], remote)
    {
      var k := IndexOf(remote);
      s := if k < entries.Length then Some(entries[k]) else None;
    }

    method PutSession(e: Session) returns (ok: bool)
      requires entries.Length > 0 && Used(e)
      modifies this, entries
      ensures ok == Put(old(entries[..]), e).Some?
      ensures entries[..] == if ok then Put(old(entries[..]), e).value else old(entries[..])
      ensures generation == if ok then old(generation) + 1 else old(generation)
    {
      if !ValidIds(e.sae, e.keyId) { return false; }
      var k := IndexOf(e.remote);
      if k == entries.Length { k := FreeIndex(); }
      if k == entries.Length { k := 0; }
      entries[k] := e;
      generation := generation + 1;
      ok := true;
    }

    method ActivateSession(remote: nat, id: seq<byte>) returns (ok: bool)
      modifies this, entries
      ensures (entries[..], ok) == Activate(old(entries[..]), remote, id)
      ensures generation >= old(generation) && (entries[..] != old(entries[..]) ==> generation > old(generation))
    {
      var k := 0;
      while k < entries.Length && !(Used(entries[k]) && entries[k].remote == remote && entries[k].keyId == id)
        invariant k <= entries.Length && entries[..] == old(entries[..])
        invariant WithBoth(entries[..], remote, id, 0) == WithBoth(entries[..], remote, id, k)
      {
        k := k + 1;
      }
      ok := k < entries.Length;
      if ok && entries[k].state != Active {
        entries[k] := entries[k].(state := Active);
        generation := generation + 1;
      }
      assert entries[..] == Activate(old(entries[..]), remote, id).0;
    }

    method RemoveSession(remote: nat)
      modifies this, entries
      ensures entries[..] == Remove(old(entries[..]), remote)
      ensures generation >= old(generation) && (entries[..] != old(entries[..]) ==> generation > old(generation))
      ensures forall k :: 0 <= k < entries.Length ==>
                var was := old(entries[k]);
                entries[k] == if Used(was) && was.remote == remote then NO_SESSION else was
    {
      var k := 0;
      while k < entries.Length
        invariant k <= entries.Length
        invariant forall j :: 0 <= j < k ==> entries[j] == Remove(old(entries[..]), remote)[j]
        invariant forall j :: k <= j < entries.Length ==> entries[j] == old(entries[j])
        invariant generation >= old(generation)
        invariant (exists j :: 0 <= j < k && entries[j] != old(entries[j])) ==> generation > old(generation)
      {
        if Used(entries[k]) && entries[k].remote == remote {
          entries[k] := NO_SESSION;
          generation := generation + 1;
        }
        k := k + 1;
      }
    }

    /** `prepare_outbound`; `fetched` is the answer of the key management entity. */
    method PrepareOutbound(remote: nat, sae: seq<byte>, fetched: Option<(seq<byte>, seq<byte>)>)
      returns (id: Option<seq<byte>>)
      requires entries.Length > 0
      modifies this, entries
      ensures (entries[..], id) == Prepare(old(entries[..]), remote, sae, fetched)
      ensures generation >= old(generation) && (entries[..] != old(entries[..]) ==> generation > old(generation))
    {
      var existing := FindForDaemon(remote);
      if existing.Some? && existing.value.sae == sae { return Some(existing.value.keyId); }
      if fetched.None? { return None; }
      var ok := PutSession(Session(Waiting, remote, sae, fetched.value.0, fetched.value.1));
      id := if ok then Some(fetched.value.0) else None;
    }

    /** `activate_outbound_by_key_id` */
    method ActivateOutboundByKeyId(id: seq<byte>) returns (remote: Option<nat>)
      modifies this, entries
      ensures (entries[..], remote) == ActivateByKey(old(entries[..]), id)
      ensures generation >= old(generation) && (entries[..] != old(entries[..]) ==> generation > old(generation))
    {
      var k := 0;
      while k < entries.Length && !(Used(entries[k]) && entries[k].keyId == id)
        invariant k <= entries.Length && entries[..] == old(entries[..])
        invariant WithKey(entries[..], id, 0) == WithKey(entries[..], id, k)
      {
        k := k + 1;
      }
      if k == entries.Length { return None; }
      var peer := entries[k].remote;
      if entries[k].state == Active { return Some(peer); }
      var ok := ActivateSession(peer, id);
      remote := if ok then Some(peer) else None;
    }

    /** `accept_inbound` */
    method AcceptInbound(remote: nat, sae: seq<byte>, id: seq<byte>, fetched: Option<seq<byte>>) returns (ok: bool)
      requires entries.Length > 0
      modifies this, entries
      ensures (entries[..], ok) == Accept(old(entries[..]), remote, sae, id, fetched)
      ensures generation >= old(generation) && (entries[..] != old(entries[..]) ==> generation > old(generation))
    {
      var existing := FindForDaemon(remote);
      if existing.Some? && existing.value.sae == sae && existing.value.keyId == id {
        if existing.value.state == Active { return true; }
        ok := ActivateSession(remote, id);
        return;
      }
      if fetched.None? { return false; }
      ok := PutSession(Session(Active, remote, sae, id, fetched.value));
    }
  }
}
