/** The daemon-to-daemon QKD sessions of `QkdKeyStore` (`qkd.rs`): a small table
    searched by remote daemon or by key ID. */
module SessionStore {
  import opened Bytes
  import opened Wrappers
  import K = MessageKeyCache

  datatype SessionState = Free | Waiting | Active

  datatype Session = Session(state: SessionState, remote: nat, sae: seq<byte>, keyId: seq<byte>, key: seq<byte>)

  const NO_SESSION := Session(Free, 0, [], [], [])

  predicate Used(e: Session) { e.state != Free }

  predicate ValidIds(sae: seq<byte>, keyId: seq<byte>) {
    K.ValidId(sae, K.MAX_SAE_ID_LEN) && K.ValidId(keyId, K.MAX_KEY_ID_LEN)
  }

  /** Index of the first session with daemon `r`, or `|es|`. */
  function WithRemote(es: seq<Session>, r: nat, i: nat): (k: nat)
    requires i <= |es|
    ensures i <= k <= |es|
    ensures k < |es| ==> Used(es[k]) && es[k].remote == r
    ensures forall j :: i <= j < k ==> !(Used(es[j]) && es[j].remote == r)
    decreases |es| - i
  {
    if i == |es| || (Used(es[i]) && es[i].remote == r) then i else WithRemote(es, r, i + 1)
  }

  function FirstFree(es: seq<Session>, i: nat): (k: nat)
    requires i <= |es|
    ensures i <= k <= |es|
    ensures k < |es| ==> es[k].state == Free
    ensures forall j :: i <= j < k ==> Used(es[j])
    decreases |es| - i
  {
    if i == |es| || es[i].state == Free then i else FirstFree(es, i + 1)
  }

  /** Index of the first session using key `id`, or `|es|`. */
  function WithKey(es: seq<Session>, id: seq<byte>, i: nat): (k: nat)
    requires i <= |es|
    ensures i <= k <= |es|
    ensures k < |es| ==> Used(es[k]) && es[k].keyId == id
    ensures forall j :: i <= j < k ==> !(Used(es[j]) && es[j].keyId == id)
    decreases |es| - i
  {
    if i == |es| || (Used(es[i]) && es[i].keyId == id) then i else WithKey(es, id, i + 1)
  }

  /** Index of the first session with daemon `r` under key `id`, or `|es|`. */
  function WithBoth(es: seq<Session>, r: nat, id: seq<byte>, i: nat): (k: nat)
    requires i <= |es|
    ensures i <= k <= |es|
    ensures k < |es| ==> Used(es[k]) && es[k].remote == r && es[k].keyId == id
    ensures forall j :: i <= j < k ==> !(Used(es[j]) && es[j].remote == r && es[j].keyId == id)
    decreases |es| - i
  {
    if i == |es| || (Used(es[i]) && es[i].remote == r && es[i].keyId == id) then i else WithBoth(es, r, id, i + 1)
  }

  /** Slot `put` writes: the daemon's own, else a free one, else slot 0. */
  function SlotFor(es: seq<Session>, r: nat): (k: nat)
    requires |es| > 0
    ensures k < |es|
  {
    if WithRemote(es, r, 0) < |es| then WithRemote(es, r, 0)
    else if FirstFree(es, 0) < |es| then FirstFree(es, 0)
    else 0
  }

  /** `put`; None when an identifier is refused. */
  function Put(es: seq<Session>, e: Session): (r: Option<seq<Session>>)
    requires |es| > 0
  {
    if !ValidIds(e.sae, e.keyId) then None else Some(es[SlotFor(es, e.remote) := e])
  }

  function Activate(es: seq<Session>, r: nat, id: seq<byte>): (res: (seq<Session>, bool))
    ensures |res.0| == |es|
  {
    var k := WithBoth(es, r, id, 0);
    if k == |es| then (es, false) else (es[k := es[k].(state := Active)], true)
  }

  function Remove(es: seq<Session>, r: nat): (res: seq<Session>)
    ensures |res| == |es|
  {
    seq(|es|, i requires 0 <= i < |es| => if Used(es[i]) && es[i].remote == r then NO_SESSION else es[i])
  }

  /** `find_for_daemon` */
  function Find(es: seq<Session>, r: nat): (s: Option<Session>) {
    var k := WithRemote(es, r, 0);
    if k == |es| then None else Some(es[k])
  }

  function HasActive(es: seq<Session>, r: nat): (b: bool)
  {
    exists i :: 0 <= i < |es| && es[i].state == Active && es[i].remote == r
  }

  /** `prepare_outbound`: keep the session there is, or store a fetched key as
      waiting. `fetched` is what the key management entity answers, if asked. */
  function Prepare(es: seq<Session>, r: nat, sae: seq<byte>, fetched: Option<(seq<byte>, seq<byte>)>)
    : (res: (seq<Session>, Option<seq<byte>>))
    requires |es| > 0
    ensures |res.0| == |es|
  {
    if Find(es, r).Some? && Find(es, r).value.sae == sae then (es, Some(Find(es, r).value.keyId))
    else if fetched.None? then (es, None)
    else
      match Put(es, Session(Waiting, r, sae, fetched.value.0, fetched.value.1))
      case None => (es, None)
      case Some(es') => (es', Some(fetched.value.0))
  }

  /** `activate_outbound_by_key_id` */
  function ActivateByKey(es: seq<Session>, id: seq<byte>): (res: (seq<Session>, Option<nat>))
    ensures |res.0| == |es|
  {
    var k := WithKey(es, id, 0);
    if k == |es| then (es, None)
    else if es[k].state == Active then (es, Some(es[k].remote))
    else
      var (es', ok) := Activate(es, es[k].remote, id);
      (es', if ok then Some(es[k].remote) else None)
  }

  /** `accept_inbound`; `fetched` is the key of `id` if the key management entity gives it out. */
  function Accept(es: seq<Session>, r: nat, sae: seq<byte>, id: seq<byte>, fetched: Option<seq<byte>>)
    : (res: (seq<Session>, bool))
    requires |es| > 0
    ensures |res.0| == |es|
  {
    if Find(es, r).Some? && Find(es, r).value.sae == sae && Find(es, r).value.keyId == id then
      if Find(es, r).value.state == Active then (es, true) else (Activate(es, r, id).0, true)
    else if fetched.None? then (es, false)
    else
      match Put(es, Session(Active, r, sae, id, fetched.value))
      case None => (es, false)
      case Some(es') => (es', true)
  }

  // -------------------------------------------------------- the table as a map

  predicate OneEach(es: seq<Session>) {
    forall i, j :: 0 <= i < |es| && 0 <= j < |es| && Used(es[i]) && Used(es[j]) && es[i].remote == es[j].remote ==>
      i == j
  }

  /** A session with `r` can be stored without dropping another daemon's. */
  predicate Room(es: seq<Session>, r: nat) {
    WithRemote(es, r, 0) < |es| || FirstFree(es, 0) < |es|
  }

  lemma FindAt(es: seq<Session>, i: nat)
    requires i < |es| && Used(es[i]) && OneEach(es)
    ensures Find(es, es[i].remote) == Some(es[i])
  {
  }

  /** Storing replaces the daemon's session and no other, except that a full table
      loses whatever slot 0 held. */
  lemma PutIsUpdate(es: seq<Session>, e: Session, r: nat)
    requires |es| > 0 && OneEach(es) && ValidIds(e.sae, e.keyId) && Used(e)
    ensures Put(es, e).Some? && OneEach(Put(es, e).value)
    ensures Find(Put(es, e).value, e.remote) == Some(e)
    ensures r != e.remote ==>
              Find(Put(es, e).value, r) == if !Room(es, e.remote) && es[0].remote == r then None else Find(es, r)
  {
    var es', k := Put(es, e).value, SlotFor(es, e.remote);
    FindAt(es', k);
    if r != e.remote {
      var at := WithRemote(es, r, 0);
      if at < |es| && at != k { FindAt(es', at); }
    }
  }

  lemma RemoveIsErasure(es: seq<Session>, r: nat, q: nat)
    requires OneEach(es)
    ensures OneEach(Remove(es, r))
    ensures Find(Remove(es, r), q) == if q == r then None else Find(es, q)
  {
    var es' := Remove(es, r);
    var at := WithRemote(es, q, 0);
    if at < |es| && q != r { FindAt(es', at); }
  }

  /** An acknowledgement touches only a session that uses the acknowledged key. */
  lemma ActivationIsExact(es: seq<Session>, id: seq<byte>, q: nat)
    requires OneEach(es)
    ensures OneEach(ActivateByKey(es, id).0)
    ensures Find(ActivateByKey(es, id).0, q) ==
            if ActivateByKey(es, id).1 == Some(q) then Some(Find(es, q).value.(state := Active)) else Find(es, q)
    ensures ActivateByKey(es, id).1 == Some(q) ==> Find(es, q).Some? && Find(es, q).value.keyId == id
    ensures ActivateByKey(es, id).1 == None <==> forall i :: 0 <= i < |es| && Used(es[i]) ==> es[i].keyId != id
  {
    var k := WithKey(es, id, 0);
    if k < |es| {
      FindAt(es, k);
      var es' := ActivateByKey(es, id).0;
      assert WithBoth(es, es[k].remote, id, 0) == k;
      assert es' == es[k := es[k].(state := Active)];
      FindAt(es', k);
      var at := WithRemote(es, q, 0);
      if at < |es| && at != k { FindAt(es', at); }
    }
  }

  /** An announcement is due exactly when the table then has a session with the daemon under
      that SAE, and it names that session's key; a session that is there already is kept. */
  lemma PrepareIs(es: seq<Session>, r: nat, sae: seq<byte>, fetched: Option<(seq<byte>, seq<byte>)>)
    requires |es| > 0 && OneEach(es)
    ensures var (es', id) := Prepare(es, r, sae, fetched);
            && OneEach(es')
            && (id.Some? <==> Find(es', r).Some? && Find(es', r).value.sae == sae)
            && (id.Some? ==> id.value == Find(es', r).value.keyId)
            && (id.None? || (Find(es, r).Some? && Find(es, r).value.sae == sae) ==> es' == es)
            && (es' != es ==>
                  && fetched.Some?
                  && Find(es', r) == Some(Session(Waiting, r, sae, fetched.value.0, fetched.value.1)))
  {
    if !(Find(es, r).Some? && Find(es, r).value.sae == sae) && fetched.Some? {
      var e := Session(Waiting, r, sae, fetched.value.0, fetched.value.1);
      if ValidIds(e.sae, e.keyId) { PutIsUpdate(es, e, r); }
    }
  }

  /** An announcement is acknowledged exactly when the table then has an active session with
      the daemon under that SAE and key id; one refused changes nothing. */
  lemma AcceptIs(es: seq<Session>, r: nat, sae: seq<byte>, id: seq<byte>, fetched: Option<seq<byte>>)
    requires |es| > 0 && OneEach(es)
    ensures var (es', ok) := Accept(es, r, sae, id, fetched);
            && OneEach(es')
            && (ok <==> Find(es', r).Some? && Find(es', r).value.sae == sae && Find(es', r).value.keyId == id
                        && Find(es', r).value.state == Active)
            && (!ok ==> es' == es)
            && (ok && !(Find(es, r).Some? && Find(es, r).value.sae == sae && Find(es, r).value.keyId == id) ==>
                  fetched.Some? && Find(es', r).value.key == fetched.value)
  {
    var at := WithRemote(es, r, 0);
    if at < |es| && es[at].sae == sae && es[at].keyId == id {
      if es[at].state != Active {
        assert WithBoth(es, r, id, 0) == at;
        FindAt(es[at := es[at].(state := Active)], at);
      }
    } else if fetched.Some? && ValidIds(sae, id) {
      PutIsUpdate(es, Session(Active, r, sae, id, fetched.value), r);
    }
  }
}
