/** The control datagrams of QKD session setup (`qkd.rs`): key announcements and
    acknowledgements. Integers are big-endian and lengths are exact. */
module KeyMessages {
  import opened Bytes
  import opened Wrappers
  import K = MessageKeyCache

  const MSG_QKD_KEY_ANNOUNCE: byte := 0x51
  const MSG_QKD_KEY_ACK: byte := 0x52

  datatype Announcement = Announcement(daemon: u64, sae: seq<byte>, keyId: seq<byte>)

  /** The bytes that stand for an announcement. */
  function AnnouncementBytes(a: Announcement): (b: seq<byte>) {
    [MSG_QKD_KEY_ANNOUNCE] + ToBe(a.daemon, 8) + ToBe(|a.sae|, 2) + ToBe(|a.keyId|, 2) + a.sae + a.keyId
  }

  /** What the wire can carry: UTF-8 identifiers within the length limits. */
  predicate Carried(a: Announcement) {
    0 < |a.sae| < K.MAX_SAE_ID_LEN && 0 < |a.keyId| < K.MAX_KEY_ID_LEN && Utf8(a.sae) && Utf8(a.keyId)
  }

  function EncodeAnnouncement(a: Announcement): (b: Option<seq<byte>>) {
    if K.ValidId(a.sae, K.MAX_SAE_ID_LEN) && K.ValidId(a.keyId, K.MAX_KEY_ID_LEN) then Some(AnnouncementBytes(a))
    else None
  }

  function DecodeAnnouncement(b: seq<byte>): (r: Option<Announcement>) {
    if |b| < 13 || b[0] != MSG_QKD_KEY_ANNOUNCE then None
    else
      var saeLen, keyLen := FromBe(b[9..11]), FromBe(b[11..13]);
      if saeLen == 0 || saeLen >= K.MAX_SAE_ID_LEN || keyLen == 0 || keyLen >= K.MAX_KEY_ID_LEN
         || |b| != 13 + saeLen + keyLen then None
      else if !Utf8(b[13..13 + saeLen]) || !Utf8(b[13 + saeLen..]) then None
      else
        Pow256Widths();
        Some(Announcement(FromBe(b[1..9]), b[13..13 + saeLen], b[13 + saeLen..]))
  }

  lemma AnnouncementParts(a: Announcement)
    ensures var b := AnnouncementBytes(a);
      && |b| == 13 + |a.sae| + |a.keyId| && b[0] == MSG_QKD_KEY_ANNOUNCE && b[1..9] == ToBe(a.daemon, 8)
      && b[9..11] == ToBe(|a.sae|, 2) && b[11..13] == ToBe(|a.keyId|, 2)
      && b[13..13 + |a.sae|] == a.sae && b[13 + |a.sae|..] == a.keyId
  {
  }

  lemma Apart(b: seq<byte>, a: Announcement)
    requires 13 + |a.sae| <= |b| && b[0] == MSG_QKD_KEY_ANNOUNCE
    requires b[1..9] == ToBe(a.daemon, 8) && b[9..11] == ToBe(|a.sae|, 2) && b[11..13] == ToBe(|a.keyId|, 2)
    requires b[13..13 + |a.sae|] == a.sae && b[13 + |a.sae|..] == a.keyId
    ensures b == AnnouncementBytes(a)
  {
    assert b == [b[0]] + b[1..9] + b[9..11] + b[11..13] + b[13..13 + |a.sae|] + b[13 + |a.sae|..];
  }

  lemma BeField(b: seq<byte>, i: nat, j: nat, n: nat)
    requires i <= j <= |b| && FromBe(b[i..j]) == n
    ensures ToBe(n, j - i) == b[i..j]
  {
    BeCanonical(b[i..j]);
  }

  lemma AnnouncementRebuilt(b: seq<byte>)
    requires DecodeAnnouncement(b).Some?
    ensures b == AnnouncementBytes(DecodeAnnouncement(b).value)
  {
    var a := DecodeAnnouncement(b).value;
    BeField(b, 1, 9, a.daemon);
    BeField(b, 9, 11, |a.sae|);
    BeField(b, 11, 13, |a.keyId|);
    Apart(b, a);
  }

  lemma AnnouncementOpens(a: Announcement)
    requires Carried(a)
    ensures DecodeAnnouncement(AnnouncementBytes(a)) == Some(a)
  {
    AnnouncementParts(a);
    Pow256Widths();
    BeRoundTrip(a.daemon, 8);
    BeRoundTrip(|a.sae|, 2);
    BeRoundTrip(|a.keyId|, 2);
  }

  /** Decoding accepts exactly the canonical bytes: it inverts encoding, and no
      truncated, extended or altered datagram stands for the same announcement. */
  lemma AnnouncementExact(b: seq<byte>, a: Announcement)
    ensures DecodeAnnouncement(b) == Some(a) <==> Carried(a) && b == AnnouncementBytes(a)
  {
    if DecodeAnnouncement(b) == Some(a) {
      AnnouncementRebuilt(b);
    }
    if Carried(a) && b == AnnouncementBytes(a) {
      AnnouncementOpens(a);
    }
  }

  function AckBytes(keyId: seq<byte>): (b: seq<byte>) { [MSG_QKD_KEY_ACK] + ToBe(|keyId|, 2) + keyId }

  function EncodeAck(keyId: seq<byte>): (b: Option<seq<byte>>) {
    if K.ValidId(keyId, K.MAX_KEY_ID_LEN) then Some(AckBytes(keyId)) else None
  }

  function DecodeAck(b: seq<byte>): (r: Option<seq<byte>>) {
    if |b| < 3 || b[0] != MSG_QKD_KEY_ACK then None
    else
      var len := FromBe(b[1..3]);
      if len == 0 || len >= K.MAX_KEY_ID_LEN || |b| != 3 + len || !Utf8(b[3..]) then None else Some(b[3..])
  }

  lemma ThreeParts(b: seq<byte>, tag: byte, len: seq<byte>, rest: seq<byte>)
    requires |b| >= 3 && b[0] == tag && b[1..3] == len && b[3..] == rest
    ensures b == [tag] + len + rest
  {
    assert b == [b[0]] + b[1..3] + b[3..];
  }

  lemma AckApart(b: seq<byte>, id: seq<byte>)
    requires |b| >= 3 && b[0] == MSG_QKD_KEY_ACK && b[1..3] == ToBe(|id|, 2) && b[3..] == id
    ensures b == AckBytes(id)
  {
    ThreeParts(b, MSG_QKD_KEY_ACK, ToBe(|id|, 2), id);
  }

  lemma AckRebuilt(b: seq<byte>)
    requires DecodeAck(b).Some?
    ensures b == AckBytes(DecodeAck(b).value)
  {
    BeField(b, 1, 3, |DecodeAck(b).value|);
    AckApart(b, DecodeAck(b).value);
  }

  lemma AckDecodes(id: seq<byte>)
    requires 0 < |id| < K.MAX_KEY_ID_LEN && Utf8(id)
    ensures DecodeAck(AckBytes(id)) == Some(id)
  {
    var b := AckBytes(id);
    assert b[1..3] == ToBe(|id|, 2) && b[3..] == id;
    Pow256Widths();
    BeRoundTrip(|id|, 2);
  }

  lemma AckExact(b: seq<byte>, id: seq<byte>)
    ensures DecodeAck(b) == Some(id) <==> 0 < |id| < K.MAX_KEY_ID_LEN && Utf8(id) && b == AckBytes(id)
  {
    if DecodeAck(b) == Some(id) { AckRebuilt(b); }
    if 0 < |id| < K.MAX_KEY_ID_LEN && Utf8(id) { AckDecodes(id); }
  }

  /** What can be sent: announcements and acknowledgements whose identifiers are non-empty, below
      the limits and free of control bytes; envelopes whose identifiers have one to 192 bytes. */
  lemma SendableIff(a: Announcement, c: Context, e: Envelope)
    ensures EncodeAnnouncement(a).Some? <==>
            && 0 < |a.sae| < 128 && (forall b :: b in a.sae ==> 32 <= b < 127 || b > 127)
            && 0 < |a.keyId| < 192 && (forall b :: b in a.keyId ==> 32 <= b < 127 || b > 127)
    ensures EncodeAck(a.keyId).Some? <==>
            0 < |a.keyId| < 192 && forall b :: b in a.keyId ==> 32 <= b < 127 || b > 127
    ensures EncodeEnvelope(c, e).Some? <==> 0 < |e.sender| <= 192 && 0 < |e.keyId| <= 192
  {
    assert forall i :: 0 <= i < |a.sae| ==> a.sae[i] in a.sae;
    assert forall i :: 0 <= i < |a.keyId| ==> a.keyId[i] in a.keyId;
  }

  /** Announcing and hearing: every announcement a daemon may send arrives as sent. */
  lemma AnnouncementRoundTrip(a: Announcement)
    requires EncodeAnnouncement(a).Some? && Utf8(a.sae) && Utf8(a.keyId)
    ensures DecodeAnnouncement(EncodeAnnouncement(a).value) == Some(a)
  {
    AnnouncementExact(EncodeAnnouncement(a).value, a);
  }

  lemma AckRoundTrip(keyId: seq<byte>)
    requires EncodeAck(keyId).Some? && Utf8(keyId)
    ensures DecodeAck(EncodeAck(keyId).value) == Some(keyId)
  {
    AckExact(EncodeAck(keyId).value, keyId);
  }

  // ------------------------------------------------------------ message envelopes

  const QKD_WIRE_HEADER_LEN: nat := 36
  const QKD_MAX_WIRE_FIELD: nat := 192
  const TAG_LEN: nat := 16

  /** "AXQKD001" */
  const QKD_WIRE_MAGIC: seq<byte> := [0x41, 0x58, 0x51, 0x4B, 0x44, 0x30, 0x30, 0x31]

  datatype Context = Context(kind: byte, topic: u64)

  datatype Envelope = Envelope(nonce: seq<byte>, sender: seq<byte>, keyId: seq<byte>, sealed: seq<byte>)

  predicate FieldFits(s: seq<byte>) { 0 < |s| <= QKD_MAX_WIRE_FIELD }

  function HeaderBytes(c: Context, e: Envelope): (b: seq<byte>) {
    QKD_WIRE_MAGIC + [c.kind] + [0, 0, 0] + ToBe(c.topic, 8) + e.nonce + ToBe(|e.sender|, 2) + ToBe(|e.keyId|, 2)
  }

  /** `encode_header` and the sealed payload after it. */
  function EncodeEnvelope(c: Context, e: Envelope): (b: Option<seq<byte>>) {
    if FieldFits(e.sender) && FieldFits(e.keyId) then Some(HeaderBytes(c, e) + e.sender + e.keyId + e.sealed) else None
  }

  /** The header parsing of `open_wire`: refused unless the context is the expected one. */
  function ParseEnvelope(b: seq<byte>, c: Context): (r: Option<Envelope>) {
    if |b| < QKD_WIRE_HEADER_LEN + TAG_LEN || b[..8] != QKD_WIRE_MAGIC then None
    else if b[8] != c.kind || FromBe(b[12..20]) != c.topic then None
    else
      var senderLen, keyLen := FromBe(b[32..34]), FromBe(b[34..36]);
      var end := QKD_WIRE_HEADER_LEN + senderLen + keyLen;
      if senderLen == 0 || senderLen > QKD_MAX_WIRE_FIELD || keyLen == 0 || keyLen > QKD_MAX_WIRE_FIELD
         || end > |b| then None
      else if !Utf8(b[36..36 + senderLen]) || !Utf8(b[36 + senderLen..end]) then None
      else Some(Envelope(b[20..32], b[36..36 + senderLen], b[36 + senderLen..end], b[end..]))
  }

  lemma HeaderParts(c: Context, e: Envelope)
    requires |e.nonce| == 12
    ensures var b := HeaderBytes(c, e);
      && |b| == 36 && b[..8] == QKD_WIRE_MAGIC && b[8] == c.kind && b[12..20] == ToBe(c.topic, 8)
      && b[20..32] == e.nonce
      && b[32..34] == ToBe(|e.sender|, 2) && b[34..36] == ToBe(|e.keyId|, 2)
  {
  }

  lemma EnvelopeParts(h: seq<byte>, s: seq<byte>, k: seq<byte>, body: seq<byte>)
    requires |h| == 36
    ensures var b := h + s + k + body;
      && b[..36] == h && b[36..36 + |s|] == s && b[36 + |s|..36 + |s| + |k|] == k && b[36 + |s| + |k|..] == body
  {
  }

  lemma SubSlice(b: seq<byte>, m: nat, i: nat, j: nat)
    requires i <= j <= m <= |b|
    ensures b[i..j] == b[..m][i..j]
  {
  }

  /** An envelope that can be encoded and carries at least a tag opens under its own
      context to the same nonce, sender, key ID and payload, and under no other. */
  lemma EnvelopeRoundTrip(c: Context, e: Envelope, other: Context)
    requires EncodeEnvelope(c, e).Some? && |e.nonce| == 12 && Utf8(e.sender) && Utf8(e.keyId)
    requires |e.sender| + |e.keyId| + |e.sealed| >= TAG_LEN
    ensures ParseEnvelope(EncodeEnvelope(c, e).value, other) == if other == c then Some(e) else None
  {
    var h := HeaderBytes(c, e);
    var b := h + e.sender + e.keyId + e.sealed;
    HeaderParts(c, e);
    EnvelopeParts(h, e.sender, e.keyId, e.sealed);
    SubSlice(b, 36, 0, 8); SubSlice(b, 36, 12, 20); SubSlice(b, 36, 20, 32); SubSlice(b, 36, 32, 34);
    SubSlice(b, 36, 34, 36);
    assert b[8] == b[..36][8];
    assert b[..8] == b[0..8];
    Pow256Widths();
    BeRoundTrip(c.topic, 8);
    BeRoundTrip(|e.sender|, 2);
    BeRoundTrip(|e.keyId|, 2);
  }

  /** An envelope with any three reserved bytes. */
  function EnvelopeBytes(c: Context, e: Envelope, reserved: seq<byte>): seq<byte> {
    (QKD_WIRE_MAGIC + [c.kind] + reserved + ToBe(c.topic, 8) + e.nonce + ToBe(|e.sender|, 2) + ToBe(|e.keyId|, 2))
    + e.sender + e.keyId + e.sealed
  }

  lemma HeaderRebuilt(b: seq<byte>)
    requires |b| >= 36
    ensures b[..36] == b[..8] + [b[8]] + b[9..12] + b[12..20] + b[20..32] + b[32..34] + b[34..36]
  {
  }

  lemma BodyRebuilt(b: seq<byte>, i: nat, j: nat)
    requires 36 <= i <= j <= |b|
    ensures b == b[..36] + b[36..i] + b[i..j] + b[j..]
  {
  }

  lemma EnvelopeRebuilt(b: seq<byte>, c: Context)
    requires ParseEnvelope(b, c).Some?
    ensures b == EnvelopeBytes(c, ParseEnvelope(b, c).value, b[9..12])
  {
    var e := ParseEnvelope(b, c).value;
    BeField(b, 12, 20, c.topic);
    BeField(b, 32, 34, |e.sender|);
    BeField(b, 34, 36, |e.keyId|);
    HeaderRebuilt(b);
    BodyRebuilt(b, 36 + |e.sender|, 36 + |e.sender| + |e.keyId|);
  }

  lemma ReservedParts(c: Context, e: Envelope, r: seq<byte>)
    requires |e.nonce| == 12 && |r| == 3
    ensures var h := QKD_WIRE_MAGIC + [c.kind] + r + ToBe(c.topic, 8) + e.nonce + ToBe(|e.sender|, 2)
                     + ToBe(|e.keyId|, 2);
      && |h| == 36 && h[..8] == QKD_WIRE_MAGIC && h[8] == c.kind && h[12..20] == ToBe(c.topic, 8)
      && h[20..32] == e.nonce && h[32..34] == ToBe(|e.sender|, 2) && h[34..36] == ToBe(|e.keyId|, 2)
  {
  }

  lemma EnvelopeOpens(c: Context, e: Envelope, r: seq<byte>)
    requires |e.nonce| == 12 && |r| == 3 && FieldFits(e.sender) && FieldFits(e.keyId) && Utf8(e.sender) && Utf8(e.keyId)
    requires |EnvelopeBytes(c, e, r)| >= QKD_WIRE_HEADER_LEN + TAG_LEN
    ensures ParseEnvelope(EnvelopeBytes(c, e, r), c) == Some(e)
  {
    var b := EnvelopeBytes(c, e, r);
    var h := QKD_WIRE_MAGIC + [c.kind] + r + ToBe(c.topic, 8) + e.nonce + ToBe(|e.sender|, 2) + ToBe(|e.keyId|, 2);
    ReservedParts(c, e, r);
    EnvelopeParts(h, e.sender, e.keyId, e.sealed);
    SubSlice(b, 36, 0, 8); SubSlice(b, 36, 12, 20); SubSlice(b, 36, 20, 32); SubSlice(b, 36, 32, 34);
    SubSlice(b, 36, 34, 36);
    assert b[8] == b[..36][8];
    assert b[..8] == b[0..8];
    Pow256Widths();
    BeRoundTrip(c.topic, 8);
    BeRoundTrip(|e.sender|, 2);
    BeRoundTrip(|e.keyId|, 2);
  }

  /** An envelope opens under a context exactly when its bytes are the canonical ones for
      that context, the three reserved bytes aside, with identifiers of one to 192 bytes of
      UTF-8 and at least 52 bytes in all. */
  lemma EnvelopeExact(b: seq<byte>, c: Context, e: Envelope)
    ensures ParseEnvelope(b, c) == Some(e) <==>
              && |b| >= QKD_WIRE_HEADER_LEN + TAG_LEN && |e.nonce| == 12 && FieldFits(e.sender) && FieldFits(e.keyId)
              && Utf8(e.sender) && Utf8(e.keyId) && b == EnvelopeBytes(c, e, b[9..12])
  {
    if ParseEnvelope(b, c) == Some(e) { EnvelopeRebuilt(b, c); }
    if |b| >= 52 && |e.nonce| == 12 && FieldFits(e.sender) && FieldFits(e.keyId) && Utf8(e.sender) && Utf8(e.keyId)
       && b == EnvelopeBytes(c, e, b[9..12]) {
      EnvelopeOpens(c, e, b[9..12]);
    }
  }
}
