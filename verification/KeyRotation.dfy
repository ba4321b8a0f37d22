/** Outgoing message keys (`security.rs`): one key per peer, replaced after ten uses. */
module KeyRotation {
  import opened Bytes
  import opened Wrappers

  const QKD_MESSAGES_PER_KEY: nat := 10

  type Sae = seq<byte>

  datatype Material = Material(keyId: seq<byte>, key: seq<byte>)

  datatype Cached = Cached(material: Material, uses: nat)

  type Cache = map<Sae, Cached>

  /** A key, and whether it was fetched for this message. */
  datatype Grant = Grant(material: Material, fetched: bool)

  /** `encryption_key`; `answer` is what the key management entity gives if asked. */
  function Use(cache: Cache, peer: Sae, answer: Option<Material>): (r: (Cache, Option<Grant>)) {
    if peer in cache && cache[peer].uses < QKD_MESSAGES_PER_KEY then
      (cache[peer := cache[peer].(uses := cache[peer].uses + 1)], Some(Grant(cache[peer].material, false)))
    else if answer.None? then (cache, None)
    else (cache[peer := Cached(answer.value, 1)], Some(Grant(answer.value, true)))
  }

  /** The peer has no key, or has used it ten times. */
  predicate Due(cache: Cache, peer: Sae) { peer in cache ==> cache[peer].uses >= QKD_MESSAGES_PER_KEY }

  class OutboundKeys {
    var cache: Cache

    constructor ()
      ensures cache == map[]
    {
      cache := map[];
    }

    method EncryptionKey(peer: Sae, answer: Option<Material>) returns (r: Option<Grant>)
      modifies this
      ensures (cache, r) == Use(old(cache), peer, answer)
      ensures r.None? <==> Due(old(cache), peer) && answer.None?
      ensures r.None? ==> cache == old(cache)
      ensures r.Some? ==>
                && (r.value.fetched <==> Due(old(cache), peer))
                && (r.value.fetched ==> r.value.material == answer.value)
                && peer in cache && cache[peer].material == r.value.material
                && cache[peer].uses == if r.value.fetched then 1 else old(cache)[peer].uses + 1
      ensures forall q: Sae :: q != peer ==>
                (q in cache <==> q in old(cache)) && (q in cache ==> cache[q] == old(cache)[q])
    {
      if peer in cache {
        var c := cache[peer];
        if c.uses < QKD_MESSAGES_PER_KEY {
          cache := cache[peer := c.(uses := c.uses + 1)];
          return Some(Grant(c.material, false));
        }
      }
      if answer.None? { return None; }
      cache := cache[peer := Cached(answer.value, 1)];
      r := Some(Grant(answer.value, true));
    }
  }

  // ------------------------------------------------------------------- all runs

  datatype Call = Call(peer: Sae, answer: Option<Material>)

  function After(calls: seq<Call>): (cache: Cache) {
    if calls == [] then map[]
    else var c := calls[|calls| - 1]; Use(After(calls[..|calls| - 1]), c.peer, c.answer).0
  }

  /** What the callers for one peer were given: the keys fetched for it, and the key
      of each message. */
  datatype Given = Given(fetched: seq<Material>, sent: seq<Material>)

  function GivenTo(calls: seq<Call>, peer: Sae): (g: Given) {
    if calls == [] then Given([], [])
    else
      var init, c := calls[..|calls| - 1], calls[|calls| - 1];
      var g, r := GivenTo(init, peer), Use(After(init), c.peer, c.answer).1;
      if c.peer != peer || r.None? then g
      else Given(if r.value.fetched then g.fetched + [r.value.material] else g.fetched, g.sent + [r.value.material])
  }

  predicate Rotated(g: Given) {
    && |g.fetched| == (|g.sent| + QKD_MESSAGES_PER_KEY - 1) / QKD_MESSAGES_PER_KEY
    && forall i :: 0 <= i < |g.sent| ==> i / 10 < |g.fetched| && g.sent[i] == g.fetched[i / 10]
  }

  /** The cached key is the last one fetched, with as many uses as sends since. */
  predicate Current(g: Given, c: Cached) {
    && g.fetched != [] && c.material == g.fetched[|g.fetched| - 1] && 1 <= c.uses <= QKD_MESSAGES_PER_KEY
    && |g.sent| == (|g.fetched| - 1) * 10 + c.uses
  }

  predicate InStep(g: Given, cache: Cache, peer: Sae) {
    if peer in cache then Current(g, cache[peer]) else g == Given([], [])
  }

  lemma ReuseKeeps(g: Given, c: Cached)
    requires Rotated(g) && Current(g, c) && c.uses < QKD_MESSAGES_PER_KEY
    ensures var g' := Given(g.fetched, g.sent + [c.material]);
            Rotated(g') && Current(g', c.(uses := c.uses + 1))
  {
  }

  lemma FetchKeeps(g: Given, m: Material)
    requires Rotated(g) && |g.sent| == |g.fetched| * 10
    ensures var g' := Given(g.fetched + [m], g.sent + [m]);
            Rotated(g') && Current(g', Cached(m, 1))
  {
  }

  /** Over every sequence of calls for any peers, failed fetches included: after n
      messages to a peer exactly ceil(n / 10) keys were fetched for it, and message
      i used key i / 10. */
  lemma {:induction false} RotationOverRuns(calls: seq<Call>, peer: Sae)
    ensures Rotated(GivenTo(calls, peer)) && InStep(GivenTo(calls, peer), After(calls), peer)
  {
    if calls != [] {
      var init, c := calls[..|calls| - 1], calls[|calls| - 1];
      RotationOverRuns(init, peer);
      var g, cache := GivenTo(init, peer), After(init);
      if c.peer == peer {
        if peer in cache && cache[peer].uses < QKD_MESSAGES_PER_KEY {
          ReuseKeeps(g, cache[peer]);
        } else if c.answer.Some? {
          FetchKeeps(g, c.answer.value);
        }
      }
    }
  }

  /** A key is asked for exactly when the peer has had a multiple of ten messages. */
  lemma FetchIff(calls: seq<Call>, peer: Sae, m: Material)
    ensures Use(After(calls), peer, Some(m)).1.Some?
    ensures Use(After(calls), peer, Some(m)).1.value.fetched <==> |GivenTo(calls, peer).sent| % 10 == 0
    ensures Use(After(calls), peer, None).1.None? <==> |GivenTo(calls, peer).sent| % 10 == 0
  {
    RotationOverRuns(calls, peer);
  }
}
